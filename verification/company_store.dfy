// The company handlers (crates/clawreform-api/src/routes.rs:8773-9080) over the two stored lists.

module CompanyStoreCode {
  import opened Text
  import opened Keyed
  import opened CompanyInput
  import opened CompanySpec
  import opened CompanyTidy

  class CompanyStore {
    var goals: seq<Goal>
    var issues: seq<Issue>

    ghost function View(): Store
      reads this
    {
      Store(goals, issues)
    }

    ghost predicate Valid()
      reads this
    {
      Consistent(View()) && Tidy(View())
    }

    constructor ()
      ensures Valid() && View() == EMPTY
    {
      goals, issues := [], [];
    }

    method CreateCompanyGoal(id: string, body: CreateGoal) returns (r: Response<Goal>)
      requires Valid() && FreshId(View(), OpCreateGoal(id, body))
      modifies this
      ensures Valid() && View() == Step(old(View()), OpCreateGoal(id, body))
      ensures r.Success? <==> old(Accepted(View(), OpCreateGoal(id, body)))
      ensures !r.NotFound? && (r.Success? ==> goals == old(goals) + [r.value])
    {
      StepKeepsConsistent(View(), OpCreateGoal(id, body));
      StepKeepsTidy(View(), OpCreateGoal(id, body));
      var title := Trim(body.title);
      if title == "" {
        return BadRequest("title is required");
      }
      if body.budget < 0.0 {
        return BadRequest("budget cannot be negative");
      }
      var goal := Goal(id, title, Trim(body.description), body.budget, 0.0, body.status);
      goals := goals + [goal];
      r := Success(goal);
    }

    method UpdateCompanyGoal(id: string, body: UpdateGoal) returns (r: Response<Goal>)
      requires Valid()
      modifies this
      ensures Valid() && View() == Step(old(View()), OpUpdateGoal(id, body))
      ensures r.Success? <==> old(Accepted(View(), OpUpdateGoal(id, body)))
      ensures r.NotFound? <==> !GoalExists(old(goals), id)
      ensures r.Success? ==> r.value in goals && r.value.id == id
    {
      hide Consistent, Tidy, Trim;
      StepKeepsConsistent(View(), OpUpdateGoal(id, body));
      StepKeepsTidy(View(), OpUpdateGoal(id, body));
      var local := goals;
      var idx := IndexOf(local, GoalId, id);
      if idx.None? {
        return NotFound("Goal not found");
      }
      var g := local[idx.value];
      if body.title.Some? {
        var title := Trim(body.title.value);
        if title == "" {
          return BadRequest("title cannot be empty");
        }
        g := g.(title := title);
      }
      if body.description.Some? {
        g := g.(description := Trim(body.description.value));
      }
      if body.budget.Some? {
        if body.budget.value < 0.0 {
          return BadRequest("budget cannot be negative");
        }
        g := g.(budget := body.budget.value);
      }
      if body.spent.Some? {
        if body.spent.value < 0.0 {
          return BadRequest("spent cannot be negative");
        }
        g := g.(spent := body.spent.value);
      }
      if body.status.Some? {
        g := g.(status := body.status.value);
      }
      local := local[idx.value := g];
      goals := local;
      assert local[idx.value] == g;
      r := Success(g);
    }

    method DeleteCompanyGoal(id: string) returns (r: Response<nat>)
      requires Valid()
      modifies this
      ensures Valid() && View() == Step(old(View()), OpDeleteGoal(id))
      ensures r.Success? <==> GoalExists(old(goals), id)
      ensures !r.BadRequest?
      ensures r.Success? ==> r.value == |set i | 0 <= i < |old(issues)| && old(issues)[i].goalId == Some(id)|
    {
      hide Consistent, Tidy, DetachAll, Attached;
      StepKeepsConsistent(View(), OpDeleteGoal(id));
      StepKeepsTidy(View(), OpDeleteGoal(id));
      GoalRemoved(View(), id);
      var local := Removed(goals, GoalId, id);
      if |local| < |goals| {
        goals := local;
        var edited, detached := DetachIssues(issues, id);
        if detached > 0 {
          issues := edited;
        } else {
          NothingDetached(issues, id);
        }
        assert View() == Apply(old(View()), OpDeleteGoal(id));
        AttachedIs(old(issues), id);
        r := Success(detached);
      } else {
        r := NotFound("Goal not found");
      }
    }

    method CreateCompanyIssue(id: string, now: string, body: CreateIssue) returns (r: Response<Issue>)
      requires Valid() && FreshId(View(), OpCreateIssue(id, now, body))
      modifies this
      ensures Valid() && View() == Step(old(View()), OpCreateIssue(id, now, body))
      ensures r.Success? <==> old(Accepted(View(), OpCreateIssue(id, now, body)))
      ensures !r.NotFound? && (r.Success? ==> issues == old(issues) + [r.value])
    {
      hide NormalizedLabels, Consistent, Tidy, Trim;
      StepKeepsConsistent(View(), OpCreateIssue(id, now, body));
      StepKeepsTidy(View(), OpCreateIssue(id, now, body));
      var title := Trim(body.title);
      if title == "" {
        return BadRequest("title is required");
      }
      var goalId := NormalizeOptional(body.goalId);
      if goalId.Some? {
        var known := IndexOf(goals, GoalId, goalId.value);
        if known.None? {
          return BadRequest("goal_id does not match an existing goal");
        }
      }
      var labels := NormalizeLabels(body.labels);
      var issue := Issue(id, goalId, title, Trim(body.description), body.status,
                         NormalizeOptional(body.assignedTo), body.priority, labels, [], now);
      issues := issues + [issue];
      r := Success(issue);
    }

    method UpdateCompanyIssue(id: string, body: UpdateIssue) returns (r: Response<Issue>)
      requires Valid()
      modifies this
      ensures Valid() && View() == Step(old(View()), OpUpdateIssue(id, body))
      ensures r.Success? <==> old(Accepted(View(), OpUpdateIssue(id, body)))
      ensures r.NotFound? <==> !IssueExists(old(issues), id)
      ensures r.Success? ==> r.value in issues && r.value.id == id
    {
      hide NormalizedLabels, Consistent, Tidy, Trim;
      StepKeepsConsistent(View(), OpUpdateIssue(id, body));
      StepKeepsTidy(View(), OpUpdateIssue(id, body));
      var local := issues;
      var idx := IndexOf(local, IssueId, id);
      if idx.None? {
        return NotFound("Issue not found");
      }
      var x := local[idx.value];
      if body.title.Some? {
        var title := Trim(body.title.value);
        if title == "" {
          return BadRequest("title cannot be empty");
        }
        x := x.(title := title);
      }
      x := EditUnchecked(x, body);
      if body.goalId.Some? {
        var goalId := NormalizeOptional(body.goalId);
        if goalId.Some? {
          var known := IndexOf(goals, GoalId, goalId.value);
          if known.None? {
            return BadRequest("goal_id does not match an existing goal");
          }
        }
        x := x.(goalId := goalId);
      }
      if body.assignedTo.Some? {
        x := x.(assignedTo := NormalizeOptional(body.assignedTo));
      }
      local := local[idx.value := x];
      issues := local;
      assert local[idx.value] == x;
      r := Success(x);
    }

    method DeleteCompanyIssue(id: string) returns (r: Response<()>)
      requires Valid()
      modifies this
      ensures Valid() && View() == Step(old(View()), OpDeleteIssue(id))
      ensures r.Success? <==> IssueExists(old(issues), id)
      ensures !r.BadRequest? && goals == old(goals)
      ensures r.NotFound? ==> issues == old(issues)
      ensures r.Success? ==> exists k :: 0 <= k < |old(issues)| && old(issues)[k].id == id &&
                               issues == old(issues)[..k] + old(issues)[k + 1..]
    {
      hide Consistent, Tidy;
      IssueRemovedAt(View(), id);
      StepKeepsConsistent(View(), OpDeleteIssue(id));
      StepKeepsTidy(View(), OpDeleteIssue(id));
      IssueRemoved(View(), id);
      var local := Removed(issues, IssueId, id);
      if |local| < |issues| {
        issues := local;
        r := Success(());
      } else {
        r := NotFound("Issue not found");
      }
    }

    method AddCompanyIssueComment(id: string, commentId: string, now: string, writer: string, text: string)
      returns (r: Response<Comment>)
      requires Valid()
      modifies this
      ensures Valid() && View() == Step(old(View()), OpComment(id, Comment(commentId, writer, text, now)))
      ensures r.Success? <==> old(Accepted(View(), OpComment(id, Comment(commentId, writer, text, now))))
      ensures r.NotFound? <==> Trim(writer) != "" && Trim(text) != "" && !IssueExists(old(issues), id)
      ensures r.Success? ==> exists k :: 0 <= k < |issues| == |old(issues)| && issues[k].id == id &&
                               issues[k].comments == old(issues)[k].comments + [r.value]
    {
      hide Consistent, Tidy, Trim;
      StepKeepsConsistent(View(), OpComment(id, Comment(commentId, writer, text, now)));
      StepKeepsTidy(View(), OpComment(id, Comment(commentId, writer, text, now)));
      var author, message := Trim(writer), Trim(text);
      if author == "" || message == "" {
        return BadRequest("author and body are required");
      }
      var local := issues;
      var idx := IndexOf(local, IssueId, id);
      if idx.None? {
        return NotFound("Issue not found");
      }
      var i := idx.value;
      var comment := Comment(commentId, author, message, now);
      local := local[i := local[i].(comments := local[i].comments + [comment])];
      issues := local;
      assert issues[i].id == id;
      r := Success(comment);
    }
  }

  /** The fields of `update_company_issue` that need no check. */
  method EditUnchecked(issue: Issue, body: UpdateIssue) returns (x: Issue)
    ensures var y := UpdatedIssue(issue, body);
            x == issue.(description := y.description, status := y.status, priority := y.priority, labels := y.labels)
  {
    hide NormalizedLabels, Trim;
    x := issue;
    if body.description.Some? {
      x := x.(description := Trim(body.description.value));
    }
    if body.status.Some? {
      x := x.(status := body.status.value);
    }
    if body.priority.Some? {
      x := x.(priority := body.priority.value);
    }
    if body.labels.Some? {
      var labels := NormalizeLabels(body.labels.value);
      x := x.(labels := labels);
    }
  }

  /** The loop of `delete_company_goal` over its copy of the issues. */
  method DetachIssues(issues: seq<Issue>, id: string) returns (edited: seq<Issue>, detached: nat)
    ensures edited == DetachAll(issues, id) && detached == |Attached(issues, id)|
  {
    edited, detached := issues, 0;
    AttachedUpTo(issues, id, 0);
    for i := 0 to |edited|
      invariant |edited| == |issues|
      invariant forall k :: 0 <= k < |edited| ==> edited[k] == if k < i then Detached(issues[k], id) else issues[k]
      invariant detached == |Attached(issues[..i], id)|
    {
      AttachedUpTo(issues, id, i);
      if edited[i].goalId == Some(id) {
        edited := edited[i := edited[i].(goalId := None)];
        detached := detached + 1;
      }
    }
    assert issues[..|issues|] == issues;
  }

  /** Fewer goals are left exactly when one was removed. */
  lemma GoalRemoved(s: Store, id: string)
    requires Consistent(s)
    ensures |Removed(s.goals, GoalId, id)| < |s.goals| <==> GoalExists(s.goals, id)
  {
    RemovedIs(s.goals, GoalId, id);
  }

  lemma IssueRemoved(s: Store, id: string)
    requires Consistent(s)
    ensures |Removed(s.issues, IssueId, id)| < |s.issues| <==> IssueExists(s.issues, id)
  {
    RemovedIs(s.issues, IssueId, id);
  }

  lemma IssueRemovedAt(s: Store, id: string)
    requires Consistent(s)
    ensures IssueExists(s.issues, id) ==>
              exists k :: 0 <= k < |s.issues| && s.issues[k].id == id && Removed(s.issues, IssueId, id) == s.issues[..k] + s.issues[k + 1..]
  {
    if k :| 0 <= k < |s.issues| && s.issues[k].id == id {
      RecordAt(s.issues, IssueId, k);
    }
  }

  method NormalizeLabels(labels: seq<string>) returns (normalized: seq<string>)
    ensures normalized == NormalizedLabels(labels)
  {
    normalized := [];
    for i := 0 to |labels|
      invariant normalized == NormalizedLabels(labels[..i])
    {
      assert labels[..i + 1][..i] == labels[..i];
      var trimmed := Trim(labels[i]);
      if trimmed == "" {
        continue;
      }
      if trimmed !in normalized {
        normalized := normalized + [trimmed];
      }
    }
    assert labels[..|labels|] == labels;
  }

  /** One more issue looked at. */
  lemma AttachedUpTo(issues: seq<Issue>, goal: string, i: nat)
    requires i <= |issues|
    ensures Attached(issues[..0], goal) == {}
    ensures i < |issues| ==>
              |Attached(issues[..i + 1], goal)| == |Attached(issues[..i], goal)| + if issues[i].goalId == Some(goal) then 1 else 0
  {
    if i < |issues| {
      var before, after := Attached(issues[..i], goal), Attached(issues[..i + 1], goal);
      if issues[i].goalId == Some(goal) {
        assert after == before + {i};
      } else {
        assert after == before;
      }
    }
  }

  lemma AttachedIs(issues: seq<Issue>, goal: string)
    ensures Attached(issues, goal) == set i | 0 <= i < |issues| && issues[i].goalId == Some(goal)
  {
  }

  lemma NothingDetached(issues: seq<Issue>, goal: string)
    requires |Attached(issues, goal)| == 0
    ensures DetachAll(issues, goal) == issues
  {
    assert Attached(issues, goal) == {};
    forall i | 0 <= i < |issues| ensures Detached(issues[i], goal) == issues[i] {
      assert i !in Attached(issues, goal);
    }
  }
}
