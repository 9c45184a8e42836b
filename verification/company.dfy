// Company goals and issues (crates/clawreform-api/src/routes.rs:8773-9183, crates/clawreform-types/src/company.rs).
// Each handler loads a list, works on its copy and saves it, or returns early and saves nothing.

module CompanySpec {
  import opened Text
  import opened Keyed
  import opened CompanyInput

  datatype GoalStatus = Pending | Active | Completed | Failed

  datatype Goal = Goal(id: string, title: string, description: string, budget: real, spent: real, status: GoalStatus)

  datatype IssueStatus = OpenIssue | InProgress | Review | DoneIssue | Cancelled

  datatype Comment = Comment(id: string, author: string, body: string, createdAt: string)

  datatype Issue = Issue(
    id: string, goalId: Option<string>, title: string, description: string, status: IssueStatus,
    assignedTo: Option<string>, priority: nat, labels: seq<string>, comments: seq<Comment>, createdAt: string)

  datatype CreateGoal = CreateGoal(title: string, description: string, budget: real, status: GoalStatus)

  datatype UpdateGoal = UpdateGoal(
    title: Option<string>, description: Option<string>, budget: Option<real>, spent: Option<real>, status: Option<GoalStatus>)

  datatype CreateIssue = CreateIssue(
    goalId: Option<string>, title: string, description: string, status: IssueStatus, assignedTo: Option<string>,
    priority: nat, labels: seq<string>)

  datatype UpdateIssue = UpdateIssue(
    goalId: Option<string>, title: Option<string>, description: Option<string>, status: Option<IssueStatus>,
    assignedTo: Option<string>, priority: Option<nat>, labels: Option<seq<string>>)

  datatype Store = Store(goals: seq<Goal>, issues: seq<Issue>)

  datatype Response<T> = Success(value: T) | BadRequest(error: string) | NotFound(error: string)

  // ----- the invariant -----

  function GoalId(g: Goal): string {
    g.id
  }

  function IssueId(x: Issue): string {
    x.id
  }

  predicate GoalExists(goals: seq<Goal>, id: string) {
    Exists(goals, GoalId, id)
  }

  predicate IssueExists(issues: seq<Issue>, id: string) {
    Exists(issues, IssueId, id)
  }

  /** Ids are unique, and every issue is detached or belongs to an existing goal. */
  ghost predicate Consistent(s: Store) {
    && UniqueIds(s.goals, GoalId) && UniqueIds(s.issues, IssueId)
    && (forall i :: 0 <= i < |s.issues| && s.issues[i].goalId.Some? ==> GoalExists(s.goals, s.issues[i].goalId.value))
  }

  // ----- what an accepted request does -----

  predicate GoalUpdateValid(body: UpdateGoal) {
    && (body.title.Some? ==> Trim(body.title.value) != "")
    && (body.budget.Some? ==> body.budget.value >= 0.0)
    && (body.spent.Some? ==> body.spent.value >= 0.0)
  }

  function UpdatedGoal(g: Goal, body: UpdateGoal): Goal {
    Goal(g.id,
         if body.title.Some? then Trim(body.title.value) else g.title,
         if body.description.Some? then Trim(body.description.value) else g.description,
         body.budget.GetOr(g.budget), body.spent.GetOr(g.spent), body.status.GetOr(g.status))
  }

  /** The goal an update attaches the issue to must exist. */
  predicate AttachValid(goals: seq<Goal>, goalId: Option<string>) {
    NormalizeOptional(goalId).Some? ==> GoalExists(goals, NormalizeOptional(goalId).value)
  }

  predicate IssueUpdateValid(goals: seq<Goal>, body: UpdateIssue) {
    (body.title.Some? ==> Trim(body.title.value) != "") && AttachValid(goals, body.goalId)
  }

  function UpdatedIssue(x: Issue, body: UpdateIssue): Issue {
    Issue(x.id,
          if body.goalId.Some? then NormalizeOptional(body.goalId) else x.goalId,
          if body.title.Some? then Trim(body.title.value) else x.title,
          if body.description.Some? then Trim(body.description.value) else x.description,
          body.status.GetOr(x.status),
          if body.assignedTo.Some? then NormalizeOptional(body.assignedTo) else x.assignedTo,
          body.priority.GetOr(x.priority),
          if body.labels.Some? then NormalizedLabels(body.labels.value) else x.labels,
          x.comments, x.createdAt)
  }

  function NewIssue(id: string, now: string, body: CreateIssue): Issue {
    Issue(id, NormalizeOptional(body.goalId), Trim(body.title), Trim(body.description), body.status,
          NormalizeOptional(body.assignedTo), body.priority, NormalizedLabels(body.labels), [], now)
  }

  function Detached(x: Issue, goal: string): Issue {
    if x.goalId == Some(goal) then x.(goalId := None) else x
  }

  function DetachAll(issues: seq<Issue>, goal: string): (r: seq<Issue>)
    ensures |r| == |issues| && forall i :: 0 <= i < |r| ==> r[i] == Detached(issues[i], goal)
  {
    if issues == [] then [] else [Detached(issues[0], goal)] + DetachAll(issues[1..], goal)
  }

  /** The places of the issues that belong to the goal. */
  function Attached(issues: seq<Issue>, goal: string): set<int> {
    set i | 0 <= i < |issues| && issues[i].goalId == Some(goal)
  }

  // ----- the handlers as steps -----

  /** `id` and `now` come from the server's id generator and clock. */
  datatype Op =
    | OpCreateGoal(id: string, createGoal: CreateGoal)
    | OpUpdateGoal(id: string, updateGoal: UpdateGoal)
    | OpDeleteGoal(id: string)
    | OpCreateIssue(id: string, now: string, createIssue: CreateIssue)
    | OpUpdateIssue(id: string, updateIssue: UpdateIssue)
    | OpDeleteIssue(id: string)
    | OpComment(id: string, comment: Comment)

  /** The request passes its checks; all others leave the store as it is. */
  predicate Accepted(s: Store, op: Op) {
    match op
    case OpCreateGoal(_, body) => Trim(body.title) != "" && body.budget >= 0.0
    case OpUpdateGoal(id, body) => GoalExists(s.goals, id) && GoalUpdateValid(body)
    case OpDeleteGoal(id) => GoalExists(s.goals, id)
    case OpCreateIssue(_, _, body) => Trim(body.title) != "" && AttachValid(s.goals, body.goalId)
    case OpUpdateIssue(id, body) => IssueExists(s.issues, id) && IssueUpdateValid(s.goals, body)
    case OpDeleteIssue(id) => IssueExists(s.issues, id)
    case OpComment(id, comment) => Trim(comment.author) != "" && Trim(comment.body) != "" && IssueExists(s.issues, id)
  }

  function Apply(s: Store, op: Op): Store
    requires Accepted(s, op)
  {
    match op
    case OpCreateGoal(id, body) =>
      s.(goals := s.goals + [Goal(id, Trim(body.title), Trim(body.description), body.budget, 0.0, body.status)])
    case OpUpdateGoal(id, body) =>
      var i := IndexOf(s.goals, GoalId, id).value;
      s.(goals := s.goals[i := UpdatedGoal(s.goals[i], body)])
    case OpDeleteGoal(id) => Store(Removed(s.goals, GoalId, id), DetachAll(s.issues, id))
    case OpCreateIssue(id, now, body) => s.(issues := s.issues + [NewIssue(id, now, body)])
    case OpUpdateIssue(id, body) =>
      var i := IndexOf(s.issues, IssueId, id).value;
      s.(issues := s.issues[i := UpdatedIssue(s.issues[i], body)])
    case OpDeleteIssue(id) => s.(issues := Removed(s.issues, IssueId, id))
    case OpComment(id, comment) =>
      var i := IndexOf(s.issues, IssueId, id).value;
      var c := Comment(comment.id, Trim(comment.author), Trim(comment.body), comment.createdAt);
      s.(issues := s.issues[i := s.issues[i].(comments := s.issues[i].comments + [c])])
  }

  function Step(s: Store, op: Op): Store {
    if Accepted(s, op) then Apply(s, op) else s
  }

  /** A newly generated id is not in use. */
  predicate FreshId(s: Store, op: Op) {
    match op
    case OpCreateGoal(id, _) => !GoalExists(s.goals, id)
    case OpCreateIssue(id, _, _) => !IssueExists(s.issues, id)
    case _ => true
  }

  // ----- every step keeps the store consistent -----

  lemma CreateGoalKeeps(s: Store, op: Op)
    requires Consistent(s) && op.OpCreateGoal? && Accepted(s, op) && FreshId(s, op)
    ensures Consistent(Apply(s, op))
  {
    var t := Apply(s, op);
    GoalsKept(s, t.goals);
  }

  /** Goal ids that stay keep the issues attached. */
  lemma GoalsKept(s: Store, goals: seq<Goal>)
    requires Consistent(s) && |s.goals| <= |goals|
    requires forall i :: 0 <= i < |s.goals| ==> goals[i].id == s.goals[i].id
    ensures forall i :: 0 <= i < |s.issues| && s.issues[i].goalId.Some? ==> GoalExists(goals, s.issues[i].goalId.value)
  {
    forall i | 0 <= i < |s.issues| && s.issues[i].goalId.Some? ensures GoalExists(goals, s.issues[i].goalId.value) {
      var j :| 0 <= j < |s.goals| && s.goals[j].id == s.issues[i].goalId.value;
      assert goals[j].id == s.issues[i].goalId.value;
    }
  }

  lemma UpdateGoalKeeps(s: Store, op: Op)
    requires Consistent(s) && op.OpUpdateGoal? && Accepted(s, op)
    ensures Consistent(Apply(s, op))
  {
    GoalsKept(s, Apply(s, op).goals);
  }

  lemma DeleteGoalKeeps(s: Store, op: Op)
    requires Consistent(s) && op.OpDeleteGoal? && Accepted(s, op)
    ensures Consistent(Apply(s, op))
  {
    var t := Apply(s, op);
    RemovedIs(s.goals, GoalId, op.id);
    forall i | 0 <= i < |t.issues| && t.issues[i].goalId.Some? ensures GoalExists(t.goals, t.issues[i].goalId.value) {
      assert t.issues[i] == Detached(s.issues[i], op.id);
      var j :| 0 <= j < |s.goals| && s.goals[j].id == s.issues[i].goalId.value;
      assert s.goals[j] in t.goals;
    }
  }

  lemma IssueOpKeeps(s: Store, op: Op)
    requires Consistent(s) && Accepted(s, op) && FreshId(s, op)
    requires op.OpCreateIssue? || op.OpUpdateIssue? || op.OpDeleteIssue? || op.OpComment?
    ensures Consistent(Apply(s, op))
  {
    hide NormalizedLabels, Trim;
    var t := Apply(s, op);
    if op.OpDeleteIssue? {
      RemovedIs(s.issues, IssueId, op.id);
      forall i | 0 <= i < |t.issues| && t.issues[i].goalId.Some? ensures GoalExists(t.goals, t.issues[i].goalId.value) {
        assert t.issues[i] in s.issues;
      }
    }
  }

  /** Referential integrity over every run: whatever the requests, accepted or not. */
  lemma StepKeepsConsistent(s: Store, op: Op)
    requires Consistent(s) && FreshId(s, op)
    ensures Consistent(Step(s, op))
  {
    hide Consistent, Apply;
    if Accepted(s, op) {
      match op
      case OpCreateGoal(_, _) => CreateGoalKeeps(s, op);
      case OpUpdateGoal(_, _) => UpdateGoalKeeps(s, op);
      case OpDeleteGoal(_) => DeleteGoalKeeps(s, op);
      case _ => IssueOpKeeps(s, op);
    }
  }

  const EMPTY: Store := Store([], [])

  function Exec(ops: seq<Op>): Store {
    if ops == [] then EMPTY else Step(Exec(ops[..|ops| - 1]), ops[|ops| - 1])
  }

  ghost predicate FreshIds(ops: seq<Op>) {
    forall i :: 0 <= i < |ops| ==> FreshId(Exec(ops[..i]), ops[i])
  }

  lemma {:induction false} RunsStayConsistent(ops: seq<Op>)
    requires FreshIds(ops)
    ensures Consistent(Exec(ops))
  {
    hide Consistent, Step, FreshId;
    if ops == [] {
      EmptyIsConsistent();
    } else {
      var n := |ops| - 1;
      assert forall i :: 0 <= i < n ==> ops[..n][..i] == ops[..i];
      RunsStayConsistent(ops[..n]);
      StepKeepsConsistent(Exec(ops[..n]), ops[n]);
    }
  }

  lemma EmptyIsConsistent()
    ensures Consistent(EMPTY)
  {
  }
}
