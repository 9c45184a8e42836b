// Lists of records with an id, as the company handlers search and edit them (crates/clawreform-api/src/routes.rs:8773-9080).

module Keyed {
  import opened Text

  predicate Exists<T>(xs: seq<T>, idOf: T -> string, id: string) {
    exists i :: 0 <= i < |xs| && idOf(xs[i]) == id
  }

  ghost predicate UniqueIds<T>(xs: seq<T>, idOf: T -> string) {
    forall i, j :: 0 <= i < j < |xs| ==> idOf(xs[i]) != idOf(xs[j])
  }

  /** The first record with the id. */
  function IndexOf<T>(xs: seq<T>, idOf: T -> string, id: string): (r: Option<nat>)
    ensures r.Some? ==> r.value < |xs| && idOf(xs[r.value]) == id
    ensures r.None? ==> !Exists(xs, idOf, id)
  {
    if xs == [] then None
    else if idOf(xs[0]) == id then Some(0)
    else
      match IndexOf(xs[1..], idOf, id)
      case Some(i) => Some(i + 1)
      case None =>
        assert forall i :: 0 < i < |xs| ==> xs[i] == xs[1..][i - 1];
        None
  }

  function Removed<T>(xs: seq<T>, idOf: T -> string, id: string): seq<T> {
    if xs == [] then [] else (if idOf(xs[0]) == id then [] else [xs[0]]) + Removed(xs[1..], idOf, id)
  }

  lemma ExistsCons<T>(xs: seq<T>, idOf: T -> string, id: string)
    ensures Exists(xs, idOf, id) <==> xs != [] && (idOf(xs[0]) == id || Exists(xs[1..], idOf, id))
  {
    var rest := if xs == [] then [] else xs[1..];
    if Exists(rest, idOf, id) {
      var i :| 0 <= i < |rest| && idOf(rest[i]) == id;
      assert idOf(xs[i + 1]) == id;
    }
    if Exists(xs, idOf, id) && idOf(xs[0]) != id {
      var i :| 0 <= i < |xs| && idOf(xs[i]) == id;
      assert idOf(rest[i - 1]) == id;
    }
  }

  lemma {:induction false} RemovedMembers<T(!new)>(xs: seq<T>, idOf: T -> string, id: string)
    ensures forall x :: x in Removed(xs, idOf, id) <==> x in xs && idOf(x) != id
  {
    if xs != [] {
      RemovedMembers(xs[1..], idOf, id);
      assert xs == [xs[0]] + xs[1..];
    }
  }

  lemma {:induction false} RemovedIs<T(!new)>(xs: seq<T>, idOf: T -> string, id: string)
    requires UniqueIds(xs, idOf)
    ensures var r := Removed(xs, idOf, id);
            && |r| == |xs| - (if Exists(xs, idOf, id) then 1 else 0)
            && (forall x :: x in r <==> x in xs && idOf(x) != id)
            && UniqueIds(r, idOf) && !Exists(r, idOf, id)
  {
    hide Exists;
    RemovedMembers(xs, idOf, id);
    Gone(Removed(xs, idOf, id), idOf, id);
    ExistsCons(xs, idOf, id);
    if xs != [] {
      var rest := xs[1..];
      RemovedIs(rest, idOf, id);
      assert forall i :: 0 <= i < |rest| ==> rest[i] == xs[i + 1];
      if idOf(xs[0]) == id {
        Gone(rest, idOf, id);
      }
      assert forall i :: 0 <= i < |Removed(rest, idOf, id)| ==> Removed(rest, idOf, id)[i] in rest;
    }
  }

  lemma Gone<T(!new)>(xs: seq<T>, idOf: T -> string, id: string)
    requires forall x :: x in xs ==> idOf(x) != id
    ensures !Exists(xs, idOf, id)
  {
  }

  lemma {:induction false} SameIndex<T>(a: seq<T>, b: seq<T>, idOf: T -> string, id: string)
    requires |a| == |b| && forall i :: 0 <= i < |a| ==> idOf(a[i]) == idOf(b[i])
    ensures IndexOf(a, idOf, id) == IndexOf(b, idOf, id)
  {
    if a != [] {
      SameIndex(a[1..], b[1..], idOf, id);
    }
  }

  /** The record at a place, when ids are unique, is the one found by its id; without it the others stay in order. */
  lemma {:induction false} RecordAt<T>(xs: seq<T>, idOf: T -> string, i: nat)
    requires UniqueIds(xs, idOf) && i < |xs|
    ensures IndexOf(xs, idOf, idOf(xs[i])) == Some(i)
    ensures Removed(xs, idOf, idOf(xs[i])) == xs[..i] + xs[i + 1..]
  {
    var rest := xs[1..];
    assert forall k :: 0 <= k < |rest| ==> rest[k] == xs[k + 1];
    if i == 0 {
      RemovedNone(rest, idOf, idOf(xs[0]));
    } else {
      RecordAt(rest, idOf, i - 1);
      assert rest[..i - 1] == xs[1..i] && rest[i..] == xs[i + 1..];
      assert xs[..i] == [xs[0]] + xs[1..i];
    }
  }

  lemma {:induction false} RemovedNone<T>(xs: seq<T>, idOf: T -> string, id: string)
    requires forall i :: 0 <= i < |xs| ==> idOf(xs[i]) != id
    ensures Removed(xs, idOf, id) == xs
  {
    if xs != [] {
      RemovedNone(xs[1..], idOf, id);
      assert xs == [xs[0]] + xs[1..];
    }
  }
}
