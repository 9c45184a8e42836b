// How the company handlers normalise what they are given (crates/clawreform-api/src/routes.rs:9164-9183).

module CompanyInput {
  import opened Text

  /** `normalize_optional_string`: trimmed, and absent when nothing is left. */
  function NormalizeOptional(value: Option<string>): Option<string> {
    if value.Some? && Trim(value.value) != "" then Some(Trim(value.value)) else None
  }

  /** `normalize_labels`: trimmed, without blanks, each once, in the order of first appearance. */
  function NormalizedLabels(labels: seq<string>): (r: seq<string>)
    ensures forall i, j :: 0 <= i < j < |r| ==> r[i] != r[j]
    ensures forall x :: x in r <==> x != "" && exists i :: 0 <= i < |labels| && Trim(labels[i]) == x
  {
    if labels == [] then []
    else
      var n := |labels| - 1;
      var before, last := NormalizedLabels(labels[..n]), Trim(labels[n]);
      assert forall i :: 0 <= i < |labels| ==> i == n || labels[i] == labels[..n][i];
      if last == "" || last in before then before else before + [last]
  }

  /** What is stored for a text that may be absent: nothing for a blank one. */
  lemma StoredOptional(value: Option<string>)
    ensures NormalizeOptional(value) == None <==> value == None || Trim(value.value) == ""
    ensures forall v :: NormalizeOptional(value) == Some(v) <==> v != "" && value.Some? && Trim(value.value) == v
  {
  }

  lemma NormalizeTwice(value: Option<string>)
    ensures NormalizeOptional(NormalizeOptional(value)) == NormalizeOptional(value)
  {
    hide Trim;
    if value.Some? {
      TrimTwice(value.value);
    }
  }

  /** Normalising labels again changes nothing. */
  lemma {:induction false} LabelsIdempotent(labels: seq<string>)
    ensures NormalizedLabels(NormalizedLabels(labels)) == NormalizedLabels(labels)
  {
    var r := NormalizedLabels(labels);
    forall i | 0 <= i < |r| ensures r[i] != "" && Trim(r[i]) == r[i] {
      assert r[i] in r;
      var k :| 0 <= k < |labels| && Trim(labels[k]) == r[i];
      TrimTwice(labels[k]);
    }
    CleanLabelsStay(r);
  }

  lemma TrimTwice(s: string)
    ensures Trim(Trim(s)) == Trim(s)
  {
    var pre, post := TrimSplits(IsWhitespace, s);
    assert s == pre + (Trim(s) + post);
    TrimAround(IsWhitespace, pre, Trim(s), post);
  }

  lemma {:induction false} CleanLabelsStay(r: seq<string>)
    requires forall i :: 0 <= i < |r| ==> r[i] != "" && Trim(r[i]) == r[i]
    requires forall i, j :: 0 <= i < j < |r| ==> r[i] != r[j]
    ensures NormalizedLabels(r) == r
  {
    hide Trim;
    if r != [] {
      var n := |r| - 1;
      CleanLabelsStay(r[..n]);
      assert r == r[..n] + [r[n]];
    }
  }

  /** More labels come behind those that are there already: each stands where it first appeared. */
  lemma {:induction false} LabelsInOrder(labels: seq<string>, more: seq<string>)
    ensures NormalizedLabels(labels) <= NormalizedLabels(labels + more)
    decreases |more|
  {
    hide Trim;
    if more == [] {
      assert labels + more == labels;
    } else {
      var n := |more| - 1;
      LabelsInOrder(labels, more[..n]);
      assert (labels + more)[..|labels| + n] == labels + more[..n];
    }
  }
}
