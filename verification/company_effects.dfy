// What each company request leaves in the stored lists, field by field (crates/clawreform-api/src/routes.rs:8773-9183).

module CompanyEffects {
  import opened Text
  import opened Keyed
  import opened CompanyInput
  import opened CompanySpec

  /** A request for a record that is not there changes nothing. */
  lemma UnknownRecord(s: Store, op: Op)
    requires op.OpUpdateGoal? || op.OpDeleteGoal? ==> forall i :: 0 <= i < |s.goals| ==> s.goals[i].id != op.id
    requires op.OpUpdateIssue? || op.OpDeleteIssue? || op.OpComment? ==> forall i :: 0 <= i < |s.issues| ==> s.issues[i].id != op.id
    ensures op.OpCreateGoal? || op.OpCreateIssue? || Step(s, op) == s
  {
  }

  lemma CreateGoalEffect(s: Store, id: string, body: CreateGoal)
    ensures var t := Step(s, OpCreateGoal(id, body));
            if Trim(body.title) == "" || body.budget < 0.0 then t == s
            else
              && t.issues == s.issues && |t.goals| == |s.goals| + 1 && s.goals <= t.goals
              && var g := t.goals[|s.goals|];
                 && g.id == id && g.title == Trim(body.title) && g.description == Trim(body.description)
                 && g.budget == body.budget && g.spent == 0.0 && g.status == body.status
  {
  }

  lemma UpdateGoalEffect(s: Store, i: nat, body: UpdateGoal)
    requires Consistent(s) && i < |s.goals|
    ensures var t := Step(s, OpUpdateGoal(s.goals[i].id, body));
            if (body.title.Some? && Trim(body.title.value) == "") || (body.budget.Some? && body.budget.value < 0.0)
               || (body.spent.Some? && body.spent.value < 0.0)
            then t == s
            else
              && t.issues == s.issues && |t.goals| == |s.goals|
              && (forall j :: 0 <= j < |s.goals| && j != i ==> t.goals[j] == s.goals[j])
              && var g, h := s.goals[i], t.goals[i];
                 && h.id == g.id
                 && h.title == (if body.title == None then g.title else Trim(body.title.value))
                 && h.description == (if body.description == None then g.description else Trim(body.description.value))
                 && h.budget == (if body.budget == None then g.budget else body.budget.value)
                 && h.spent == (if body.spent == None then g.spent else body.spent.value)
                 && h.status == (if body.status == None then g.status else body.status.value)
  {
    hide Trim;
    RecordAt(s.goals, GoalId, i);
    assert GoalExists(s.goals, s.goals[i].id);
  }

  /** The issue is put on a goal that is not there. */
  predicate NamesNoGoal(s: Store, goalId: Option<string>) {
    goalId.Some? && Trim(goalId.value) != "" && forall k :: 0 <= k < |s.goals| ==> s.goals[k].id != Trim(goalId.value)
  }

  lemma CreateIssueEffect(s: Store, id: string, now: string, body: CreateIssue)
    ensures var t := Step(s, OpCreateIssue(id, now, body));
            if Trim(body.title) == "" || NamesNoGoal(s, body.goalId) then t == s
            else
              && t.goals == s.goals && |t.issues| == |s.issues| + 1 && s.issues <= t.issues
              && var x := t.issues[|s.issues|];
                 && x.id == id && x.title == Trim(body.title) && x.description == Trim(body.description)
                 && x.goalId == NormalizeOptional(body.goalId) && x.assignedTo == NormalizeOptional(body.assignedTo)
                 && x.status == body.status && x.priority == body.priority && x.labels == NormalizedLabels(body.labels)
                 && x.comments == [] && x.createdAt == now
  {
    hide Trim, NormalizedLabels;
  }

  lemma UpdateIssueEffect(s: Store, i: nat, body: UpdateIssue)
    requires Consistent(s) && i < |s.issues|
    ensures var t := Step(s, OpUpdateIssue(s.issues[i].id, body));
            if (body.title.Some? && Trim(body.title.value) == "") || NamesNoGoal(s, body.goalId) then t == s
            else
              && t.goals == s.goals && |t.issues| == |s.issues|
              && (forall j :: 0 <= j < |s.issues| && j != i ==> t.issues[j] == s.issues[j])
              && var x, y := s.issues[i], t.issues[i];
                 && y.id == x.id && y.comments == x.comments && y.createdAt == x.createdAt
                 && y.goalId == (if body.goalId == None then x.goalId else NormalizeOptional(body.goalId))
                 && y.title == (if body.title == None then x.title else Trim(body.title.value))
                 && y.description == (if body.description == None then x.description else Trim(body.description.value))
                 && y.status == (if body.status == None then x.status else body.status.value)
                 && y.assignedTo == (if body.assignedTo == None then x.assignedTo else NormalizeOptional(body.assignedTo))
                 && y.priority == (if body.priority == None then x.priority else body.priority.value)
                 && y.labels == (if body.labels == None then x.labels else NormalizedLabels(body.labels.value))
  {
    hide Trim, NormalizedLabels;
    RecordAt(s.issues, IssueId, i);
    assert IssueExists(s.issues, s.issues[i].id);
  }

  lemma CommentEffect(s: Store, i: nat, comment: Comment)
    requires Consistent(s) && i < |s.issues|
    ensures var t := Step(s, OpComment(s.issues[i].id, comment));
            if Trim(comment.author) == "" || Trim(comment.body) == "" then t == s
            else
              && t.goals == s.goals && |t.issues| == |s.issues|
              && (forall j :: 0 <= j < |s.issues| && j != i ==> t.issues[j] == s.issues[j])
              && t.issues[i].(comments := []) == s.issues[i].(comments := [])
              && |t.issues[i].comments| == |s.issues[i].comments| + 1 && s.issues[i].comments <= t.issues[i].comments
              && var c := t.issues[i].comments[|s.issues[i].comments|];
                 && c.id == comment.id && c.author == Trim(comment.author) && c.body == Trim(comment.body)
                 && c.createdAt == comment.createdAt
  {
    hide Trim;
    RecordAt(s.issues, IssueId, i);
    assert IssueExists(s.issues, s.issues[i].id);
  }

  // ----- deletions -----

  /**
   * Deleting a goal removes that goal alone, detaches exactly the issues that belonged to it and changes nothing
   * else in any issue.
   */
  lemma DeleteDetaches(s: Store, k: nat)
    requires Consistent(s) && k < |s.goals|
    ensures var id := s.goals[k].id;
            var t := Step(s, OpDeleteGoal(id));
            && t.goals == s.goals[..k] + s.goals[k + 1..]
            && |t.issues| == |s.issues|
            && (forall i :: 0 <= i < |s.issues| ==>
                  t.issues[i] == if s.issues[i].goalId == Some(id) then s.issues[i].(goalId := None) else s.issues[i])
  {
    var id := s.goals[k].id;
    RecordAt(s.goals, GoalId, k);
    assert GoalExists(s.goals, id);
    var t := Step(s, OpDeleteGoal(id));
    assert forall i :: 0 <= i < |s.issues| ==> t.issues[i] == Detached(s.issues[i], id);
  }

  /** Deleting an issue removes that issue alone; the others stay in order and the goals as they are. */
  lemma DeleteIssueRemoves(s: Store, k: nat)
    requires Consistent(s) && k < |s.issues|
    ensures var id := s.issues[k].id;
            var t := Step(s, OpDeleteIssue(id));
            t.issues == s.issues[..k] + s.issues[k + 1..] && t.goals == s.goals
  {
    RecordAt(s.issues, IssueId, k);
    assert IssueExists(s.issues, s.issues[k].id);
  }

  /** What is left by a deletion is what has another id. */
  lemma DeletionLeaves(s: Store, id: string)
    requires Consistent(s)
    ensures forall g :: g in Step(s, OpDeleteGoal(id)).goals <==> g in s.goals && g.id != id
    ensures forall x :: x in Step(s, OpDeleteIssue(id)).issues <==> x in s.issues && x.id != id
  {
    RemovedIs(s.goals, GoalId, id);
    RemovedIs(s.issues, IssueId, id);
    if !GoalExists(s.goals, id) {
      NotThere(s.goals, GoalId, id);
    }
    if !IssueExists(s.issues, id) {
      NotThere(s.issues, IssueId, id);
    }
  }

  lemma NotThere<T(!new)>(xs: seq<T>, idOf: T -> string, id: string)
    requires !Exists(xs, idOf, id)
    ensures forall x :: x in xs ==> idOf(x) != id
  {
    forall x | x in xs ensures idOf(x) != id {
      var i :| 0 <= i < |xs| && xs[i] == x;
      assert idOf(xs[i]) != id;
    }
  }
}
