// What is stored is normalised, so that writing back what was read, or asking again, changes nothing
// (crates/clawreform-api/src/routes.rs:8773-9183).

module CompanyTidy {
  import opened Text
  import opened Keyed
  import opened CompanyInput
  import opened CompanySpec

  predicate TidyText(s: string) {
    Trim(s) == s
  }

  predicate TidyGoal(g: Goal) {
    g.title != "" && TidyText(g.title) && TidyText(g.description) && g.budget >= 0.0 && g.spent >= 0.0
  }

  predicate TidyComment(c: Comment) {
    c.author != "" && c.body != "" && TidyText(c.author) && TidyText(c.body)
  }

  predicate TidyIssue(x: Issue) {
    && x.title != "" && TidyText(x.title) && TidyText(x.description)
    && NormalizeOptional(x.goalId) == x.goalId && NormalizeOptional(x.assignedTo) == x.assignedTo
    && NormalizedLabels(x.labels) == x.labels
    && forall i :: 0 <= i < |x.comments| ==> TidyComment(x.comments[i])
  }

  ghost predicate Tidy(s: Store) {
    && (forall i :: 0 <= i < |s.goals| ==> TidyGoal(s.goals[i]))
    && (forall i :: 0 <= i < |s.issues| ==> TidyIssue(s.issues[i]))
  }

  lemma UpdatedGoalIsTidy(g: Goal, body: UpdateGoal)
    requires TidyGoal(g) && GoalUpdateValid(body)
    ensures TidyGoal(UpdatedGoal(g, body))
  {
    hide Trim;
    TrimTwice(body.title.GetOr(""));
    TrimTwice(body.description.GetOr(""));
  }

  lemma UpdatedIssueIsTidy(goals: seq<Goal>, x: Issue, body: UpdateIssue)
    requires TidyIssue(x) && IssueUpdateValid(goals, body)
    ensures TidyIssue(UpdatedIssue(x, body))
  {
    hide Trim, NormalizedLabels, NormalizeOptional;
    TrimTwice(body.title.GetOr(""));
    TrimTwice(body.description.GetOr(""));
    NormalizeTwice(body.goalId);
    NormalizeTwice(body.assignedTo);
    LabelsIdempotent(body.labels.GetOr([]));
  }

  lemma NewIssueIsTidy(id: string, now: string, body: CreateIssue)
    requires Trim(body.title) != ""
    ensures TidyIssue(NewIssue(id, now, body))
  {
    hide Trim, NormalizedLabels, NormalizeOptional;
    TrimTwice(body.title);
    TrimTwice(body.description);
    NormalizeTwice(body.goalId);
    NormalizeTwice(body.assignedTo);
    LabelsIdempotent(body.labels);
  }

  lemma StepKeepsTidy(s: Store, op: Op)
    requires Tidy(s)
    ensures Tidy(Step(s, op))
  {
    hide Trim, NormalizedLabels, NormalizeOptional, TidyText, UpdatedGoal, UpdatedIssue, NewIssue, TidyIssue;
    if Accepted(s, op) {
      match op
      case OpCreateGoal(id, body) =>
        NewGoalIsTidy(id, body);
      case OpUpdateGoal(id, body) =>
        UpdatedGoalIsTidy(s.goals[IndexOf(s.goals, GoalId, id).value], body);
      case OpDeleteGoal(id) =>
        RemovedMembers(s.goals, GoalId, id);
        assert forall i :: 0 <= i < |Removed(s.goals, GoalId, id)| ==> Removed(s.goals, GoalId, id)[i] in s.goals;
        DetachedIsTidy(s.issues, id);
      case OpCreateIssue(id, now, body) =>
        NewIssueIsTidy(id, now, body);
      case OpUpdateIssue(id, body) =>
        UpdatedIssueIsTidy(s.goals, s.issues[IndexOf(s.issues, IssueId, id).value], body);
      case OpDeleteIssue(id) =>
        RemovedMembers(s.issues, IssueId, id);
        assert forall i :: 0 <= i < |Removed(s.issues, IssueId, id)| ==> Removed(s.issues, IssueId, id)[i] in s.issues;
      case OpComment(id, comment) =>
        CommentedIsTidy(s.issues[IndexOf(s.issues, IssueId, id).value], comment);
    }
  }

  lemma NewGoalIsTidy(id: string, body: CreateGoal)
    requires Trim(body.title) != "" && body.budget >= 0.0
    ensures TidyGoal(Goal(id, Trim(body.title), Trim(body.description), body.budget, 0.0, body.status))
  {
    hide Trim;
    TrimTwice(body.title);
    TrimTwice(body.description);
  }

  lemma DetachedIsTidy(issues: seq<Issue>, goal: string)
    requires forall i :: 0 <= i < |issues| ==> TidyIssue(issues[i])
    ensures forall i :: 0 <= i < |issues| ==> TidyIssue(DetachAll(issues, goal)[i])
  {
    hide Trim, NormalizedLabels, DetachAll;
    forall i | 0 <= i < |issues| ensures TidyIssue(DetachAll(issues, goal)[i]) {
      assert DetachAll(issues, goal)[i] == Detached(issues[i], goal);
    }
  }

  lemma CommentedIsTidy(x: Issue, c: Comment)
    requires TidyIssue(x) && Trim(c.author) != "" && Trim(c.body) != ""
    ensures TidyIssue(x.(comments := x.comments + [Comment(c.id, Trim(c.author), Trim(c.body), c.createdAt)]))
  {
    hide Trim, NormalizedLabels;
    TrimTwice(c.author);
    TrimTwice(c.body);
  }

  /**
   * In every reachable store all texts are trimmed, titles, comment authors and comment bodies are there, amounts
   * are not negative and labels are normal.
   */
  lemma {:induction false} RunsStayTidy(ops: seq<Op>)
    ensures Tidy(Exec(ops))
  {
    hide Step, TidyGoal, TidyIssue;
    if ops != [] {
      RunsStayTidy(ops[..|ops| - 1]);
      StepKeepsTidy(Exec(ops[..|ops| - 1]), ops[|ops| - 1]);
    }
  }

  // ----- writing back what was read -----

  function GoalAsUpdate(g: Goal): UpdateGoal {
    UpdateGoal(Some(g.title), Some(g.description), Some(g.budget), Some(g.spent), Some(g.status))
  }

  function IssueAsUpdate(x: Issue): UpdateIssue {
    UpdateIssue(x.goalId, Some(x.title), Some(x.description), Some(x.status), x.assignedTo, Some(x.priority), Some(x.labels))
  }

  /** An update with a goal's own fields is accepted and changes nothing. */
  lemma GoalWriteBack(s: Store, i: nat)
    requires Consistent(s) && Tidy(s) && i < |s.goals|
    ensures var op := OpUpdateGoal(s.goals[i].id, GoalAsUpdate(s.goals[i])); Accepted(s, op) && Step(s, op) == s
  {
    hide Trim;
    var g := s.goals[i];
    assert IndexOf(s.goals, GoalId, g.id) == Some(i);
    assert UpdatedGoal(g, GoalAsUpdate(g)) == g;
    assert s.goals[i := g] == s.goals;
  }

  /** The same for an issue: its goal still exists, so it can be named again. */
  lemma IssueWriteBack(s: Store, i: nat)
    requires Consistent(s) && Tidy(s) && i < |s.issues|
    ensures var op := OpUpdateIssue(s.issues[i].id, IssueAsUpdate(s.issues[i])); Accepted(s, op) && Step(s, op) == s
  {
    hide Trim, NormalizedLabels, NormalizeOptional;
    var x := s.issues[i];
    assert TidyIssue(x);
    assert IndexOf(s.issues, IssueId, x.id) == Some(i);
    assert UpdatedIssue(x, IssueAsUpdate(x)) == x;
    assert s.issues[i := x] == s.issues;
  }

  /** Sending an update or a deletion twice is sending it once. */
  lemma RetryIsHarmless(s: Store, op: Op)
    requires Consistent(s)
    requires op.OpUpdateGoal? || op.OpUpdateIssue? || op.OpDeleteGoal? || op.OpDeleteIssue?
    ensures Step(Step(s, op), op) == Step(s, op)
  {
    hide Trim, NormalizedLabels, NormalizeOptional;
    if Accepted(s, op) {
      match op
      case OpUpdateGoal(id, body) =>
        var i := IndexOf(s.goals, GoalId, id).value;
        var goals := Step(s, op).goals;
        SameIndex(s.goals, goals, GoalId, id);
        assert goals[i := UpdatedGoal(goals[i], body)] == goals;
      case OpUpdateIssue(id, body) =>
        var i := IndexOf(s.issues, IssueId, id).value;
        var issues := Step(s, op).issues;
        SameIndex(s.issues, issues, IssueId, id);
        assert issues[i := UpdatedIssue(issues[i], body)] == issues;
      case OpDeleteGoal(id) => RemovedIs(s.goals, GoalId, id);
      case OpDeleteIssue(id) => RemovedIs(s.issues, IssueId, id);
    }
  }
}
