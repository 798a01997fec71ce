// The table of source states the parking and linking statements consult, and what it says
// against what the statements that never consult it do.

module Transitions {
  import opened Tasks
  import opened Machine

  datatype Role = Worker | Admin

  /** None is the unknown key, for which callers must fail closed. */
  function AllowedFrom(role: Role, action: string): Option<seq<Status>> {
    if role.Worker? && action == "open_pr" then Some([InProgress])
    else if role.Worker? && action == "set_jira_url" then Some([Claimed, InProgress])
    else if role.Worker? && action == "complete" then Some([InProgress])
    else if role.Worker? && action == "fail" then Some([InProgress])
    else if role.Admin? && action == "request_review" then Some([PROpened])
    else if role.Admin? && action == "finalize" then Some([PROpened, ReviewRequested])
    else if role.Admin? && action == "retry" then Some([Pending, Completed, Failed])
    else None
  }

  function StatusName(s: Status): (name: string)
    ensures name != ""
  {
    match s
    case Pending => "pending"
    case Claimed => "claimed"
    case InProgress => "in_progress"
    case PROpened => "pr_opened"
    case ReviewRequested => "review_requested"
    case Completed => "completed"
    case Failed => "failed"
  }

  lemma StatusNamesDistinct(a: Status, b: Status)
    ensures StatusName(a) == StatusName(b) ==> a == b
  {
    assert |StatusName(a)| != |StatusName(b)| || StatusName(a)[0] != StatusName(b)[0] || a == b;
  }

  /** The list bound to `status = ANY($n)`: it matches a row exactly when the table lists the
      row's status, and for an unknown key it matches no row at all. */
  method AllowedFromStrings(role: Role, action: string) returns (names: seq<string>)
    ensures forall s: Status :: StatusName(s) in names <==>
                                AllowedFrom(role, action).Some? && s in AllowedFrom(role, action).value
    ensures AllowedFrom(role, action).None? ==> names == []
  {
    names := [];
    var allowed := AllowedFrom(role, action);
    if allowed.None? {
      return;
    }
    var states := allowed.value;
    for i := 0 to |states|
      invariant |names| == i
      invariant forall j :: 0 <= j < i ==> names[j] == StatusName(states[j])
    {
      names := names + [StatusName(states[i])];
    }
    forall s: Status
      ensures StatusName(s) in names <==> s in states
    {
      if StatusName(s) in names {
        var j :| 0 <= j < |names| && names[j] == StatusName(s);
        StatusNamesDistinct(s, states[j]);
      }
      if s in states {
        var j :| 0 <= j < |states| && states[j] == s;
        assert names[j] == StatusName(s);
      }
    }
  }

  ghost predicate Listed(role: Role, action: string, s: Status) {
    AllowedFrom(role, action).Some? && s in AllowedFrom(role, action).value
  }

  /** The four statements that consult the table accept from exactly the states it lists. */
  lemma ConsultedEntriesAreTheGuards(s: Db, w: WorkerId, t: TaskId, text: string, success: bool)
    requires t in s.rows
    ensures Accepts(s, OpenPR(w, t, text)) <==>
              text != "" && s.rows[t].claimedBy == Some(w) && Listed(Worker, "open_pr", s.rows[t].status)
    ensures Accepts(s, SetJira(w, t, text)) <==>
              s.rows[t].claimedBy == Some(w) && Listed(Worker, "set_jira_url", s.rows[t].status)
    ensures Accepts(s, RequestReview(t)) <==> Listed(Admin, "request_review", s.rows[t].status)
    ensures Accepts(s, Finalize(t, success, text)) <==> Listed(Admin, "finalize", s.rows[t].status)
    ensures Accepts(s, Requeue(t)) <==> Listed(Admin, "retry", s.rows[t].status)
  {
  }

  /** The "complete" and "fail" entries are not what ReportResult does: the two differ on a task
      the caller owns if and only if it is still in `claimed`, where the table says no and the
      statement says yes. */
  lemma ReportIgnoresTableIff(s: Db, w: WorkerId, t: TaskId, error: string)
    requires t in s.rows && s.rows[t].claimedBy == Some(w)
    ensures Accepts(s, ReportSuccess(w, t)) != Listed(Worker, "complete", s.rows[t].status) <==>
            s.rows[t].status.Claimed?
    ensures Accepts(s, ReportFailure(w, t, error)) != Listed(Worker, "fail", s.rows[t].status) <==>
            s.rows[t].status.Claimed?
  {
  }
}
