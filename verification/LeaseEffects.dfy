/**
 * What each event does after any run, told from what a member of the team has heard: when it
 * is accepted, the whole row and message that result, and the reply when it is refused.
 */
module LeaseEffects {
  import opened Types
  import opened TaskTable
  import opened Lease
  import opened LeaseTheorems

  const TIMEOUT: nat := 300_000_000_000

  // ---------- what a member knows ----------

  /** A member's view of a task agrees with its row on everything but claimed_at. */
  lemma ViewShows(es: seq<Event>, device: Uuid, team: Uuid, id: Uuid)
    ensures var s := Run(Initial, es);
            var view := View(s.log, device, team);
            && (id in view <==> id in s.rows && s.rows[id].teamId == team)
            && (id in view ==> view[id] == s.rows[id].(claimedAt := None) && RowOk(s.rows, id)
                               && s.rows[id].claimedAt == LeaseStart(s.log, id))
  {
    var s := Run(Initial, es);
    ReplayRebuildsTheQueue(es, device, team);
    Reachable(es);
    assert AgreesOn(s, id);
  }

  // ---------- requests ----------

  /** What the row and the announcement become, column by column. */
  function Outcome(row: Task, device: Uuid, request: Request, at: Time): (Task, ServerMessage) {
    match request
    case Claim =>
      (Task(row.id, row.teamId, row.url, Claimed, Some(device), Some(at), row.progress, row.localPath,
            row.fileSize, row.createdBy, row.createdAt, row.version + 1),
       TaskClaimed(row.id, device))
    case Progress(p) =>
      var after := Task(row.id, row.teamId, row.url, row.status, row.claimedBy, row.claimedAt, p, row.localPath,
                        row.fileSize, row.createdBy, row.createdAt, row.version + 1);
      (after, TaskUpdated(after))
    case Finish(path, size) =>
      var after := Task(row.id, row.teamId, row.url, Complete, row.claimedBy, row.claimedAt, 1.0, Some(path),
                        Some(size), row.createdBy, row.createdAt, row.version + 1);
      (after, TaskUpdated(after))
  }

  /** A permitted request rewrites its row and tells its team; nothing else changes. */
  lemma AcceptedRequest(s: State, device: Uuid, team: Uuid, id: Uuid, request: Request, at: Time)
    requires id in s.rows && s.rows[id].id == id && s.rows[id].teamId == team
    requires if request.Claim? then s.rows[id].status == Queued else s.rows[id].claimedBy == Some(device)
    ensures var (row, told) := Outcome(s.rows[id], device, request, at);
            Apply(s, Modify(device, team, id, request, at)) ==
            State(s.rows[id := row], s.log + [Sent(at, ToTeam(team), told)])
  {
    var copy := Modified(s.rows[id], device, request, at);
    assert copy == Outcome(s.rows[id], device, request, at).0;
    assert Overwrite(s.rows[id], copy) == copy;
  }

  /**
   * A report or a completion counts exactly when the member's own view says that it holds the
   * task, and a claim exactly when the view says that the task is Queued. A refused claim is
   * answered to the claimant alone, and any other refused request changes and says nothing.
   */
  lemma RequestsCountIff(es: seq<Event>, device: Uuid, team: Uuid, id: Uuid, request: Request, at: Time)
    ensures var s := Run(Initial, es);
            var view := View(s.log, device, team);
            var after := Apply(s, Modify(device, team, id, request, at));
            if id in view && (if request.Claim? then view[id].status == Queued else view[id].claimedBy == Some(device))
            then
              && id in s.rows && after.rows != s.rows
              && var (row, told) := Outcome(s.rows[id], device, request, at);
                 after == State(s.rows[id := row], s.log + [Sent(at, ToTeam(team), told)])
            else if request.Claim? then
              var reply := if id in view then "Task not available" else "Task not found";
              after == State(s.rows, s.log + [Sent(at, ToDevice(device), Error(reply))])
            else after == s
  {
    var s := Run(Initial, es);
    ViewShows(es, device, team, id);
    var view := View(s.log, device, team);
    if id in view && (if request.Claim? then view[id].status == Queued else view[id].claimedBy == Some(device)) {
      AcceptedRequest(s, device, team, id, request, at);
      assert Outcome(s.rows[id], device, request, at).0.version == s.rows[id].version + 1;
    }
  }

  // ---------- adding ----------

  /**
   * A task is added exactly when neither its id nor its URL is taken by any team; it starts
   * unreported on, held by the ring's choice if there is one, and only its creator hears of a
   * refusal.
   */
  lemma AddsCountIff(
      s: State, device: Uuid, team: Uuid, id: Uuid, url: string, createdAt: Time, owner: Option<Uuid>, at: Time)
    ensures var after := Apply(s, Add(device, team, id, url, createdAt, owner, at));
            if id !in s.rows && forall i <- s.rows :: s.rows[i].url != url then
              var row := Task(id, team, url, if owner == None then Queued else Claimed, owner,
                              if owner == None then None else Some(at), 0.0, None, None, device, createdAt, 1);
              var added := Sent(at, ToTeam(team), TaskAdded(row));
              && after.rows == s.rows[id := row]
              && after.log == if owner == None then s.log + [added]
                              else s.log + [Sent(at, ToDevice(owner.value), TaskClaimed(id, owner.value))] + [added]
            else after == State(s.rows, s.log + [Sent(at, ToDevice(device), Error("URL already exists"))])
  {
    var task := Queue(id, url, team, device, createdAt);
    if CanInsert(s.rows, task) {
      WholeAdd(s, task, owner, at);
    }
  }

  // ---------- releases ----------

  function Restarted(row: Task): Task {
    Task(row.id, row.teamId, row.url, Queued, None, None, 0.0, row.localPath,
         row.fileSize, row.createdBy, row.createdAt, row.version + 1)
  }

  /**
   * A sweep that comes upon a task releases it exactly when its team has heard that it is
   * Claimed and short of the end, and the outstanding grant is 300 seconds old; the task then
   * starts again from nothing.
   */
  lemma TimeoutsCountIff(es: seq<Event>, device: Uuid, team: Uuid, id: Uuid, at: Time)
    ensures var s := Run(Initial, es);
            var view := View(s.log, device, team);
            var granted := LeaseStart(s.log, id);
            var after := Apply(s, Timeout(team, id, at));
            if id in view && view[id].status == Claimed && view[id].progress < 1.0
               && granted.Some? && at - granted.value >= TIMEOUT
            then
              && id in s.rows
              && after == State(s.rows[id := Restarted(s.rows[id])],
                                s.log + [Sent(at, ToTeam(team), TaskReleased(id, "timeout"))])
            else after == s
  {
    var s := Run(Initial, es);
    ViewShows(es, device, team, id);
    if InTeam(s.rows, team, id) && s.rows[id].status == Claimed {
      assert s.rows[id].claimedAt.Some?;
      TimeoutReleasesIff(s, team, id, at);
      assert Released(s.rows[id]) == Restarted(s.rows[id]);
    }
  }

  /** Of the tasks on a sweep's list the overdue ones start again, and the others are as before. */
  lemma SweptTasksStartAgain(s: State, team: Uuid, ids: seq<Uuid>, at: Time, id: Uuid)
    requires id in s.rows
    ensures var row := s.rows[id];
            var after := Run(s, Timeouts(team, ids, at)).rows;
            && id in after
            && after[id] == if id in ids && row.teamId == team && row.status == Claimed && row.progress < 1.0
                               && row.claimedAt.Some? && at - row.claimedAt.value >= TIMEOUT
                            then Restarted(row) else row
  {
    SweepReleases(s, team, ids, at);
    if s.rows[id].claimedAt.Some? {
      FiveMinutes(at - s.rows[id].claimedAt.value);
    }
  }

  // ---------- tasks never reported on ----------

  predicate IsReport(e: Sent, id: Uuid) {
    e.to.ToTeam? && e.msg.TaskUpdated? && e.msg.task.id == id
  }

  /** Something was reported about the task since it was last granted. */
  predicate ReportedOn(log: seq<Sent>, id: Uuid) {
    log != [] &&
      var last := log[|log| - 1];
      if IsGrant(last, id) then false
      else if IsReport(last, id) then true
      else ReportedOn(log[..|log| - 1], id)
  }

  lemma SendReportedOn(log: seq<Sent>, e: Sent, id: Uuid)
    ensures ReportedOn(log + [e], id) <==> !IsGrant(e, id) && (IsReport(e, id) || ReportedOn(log, id))
  {
    assert (log + [e])[..|log|] == log;
  }

  /** Without a report a task is at the start, and so is a Queued one. */
  ghost predicate StartsAtZero(s: State, id: Uuid) {
    id in s.rows ==>
      && (s.rows[id].status == Queued ==> s.rows[id].progress == 0.0)
      && (!ReportedOn(s.log, id) ==> s.rows[id].status != Complete && s.rows[id].progress == 0.0)
  }

  lemma AddStartsAtZero(s: State, e: Event, id: Uuid)
    requires e.Add? && StartsAtZero(s, id)
    ensures StartsAtZero(Apply(s, e), id)
  {
    AddsCountIff(s, e.device, e.team, e.id, e.url, e.createdAt, e.owner, e.at);
    var log := Apply(s, e).log;
    SendReportedOn(s.log, log[|s.log|], id);
    if |log| == |s.log| + 2 {
      SendReportedOn(s.log + [log[|s.log|]], log[|s.log| + 1], id);
    }
  }

  lemma ModifyStartsAtZero(s: State, e: Event, id: Uuid)
    requires e.Modify? && (e.id in s.rows ==> RowOk(s.rows, e.id)) && StartsAtZero(s, id)
    ensures StartsAtZero(Apply(s, e), id)
  {
    if InTeam(s.rows, e.team, e.id) && Permitted(s.rows[e.id], e.device, e.request) {
      AcceptedRequest(s, e.device, e.team, e.id, e.request, e.at);
      var (_, told) := Outcome(s.rows[e.id], e.device, e.request, e.at);
      SendReportedOn(s.log, Sent(e.at, ToTeam(e.team), told), id);
    } else if Apply(s, e).log != s.log {
      SendReportedOn(s.log, Apply(s, e).log[|s.log|], id);
    }
  }

  lemma TimeoutStartsAtZero(s: State, e: Event, id: Uuid)
    requires e.Timeout? && StartsAtZero(s, id)
    ensures StartsAtZero(Apply(s, e), id)
  {
    SendReportedOn(s.log, Sent(e.at, ToTeam(e.team), TaskReleased(e.id, "timeout")), id);
  }

  lemma StepStartsAtZero(s: State, e: Event, id: Uuid)
    requires Consistent(s.rows) && StartsAtZero(s, id)
    ensures StartsAtZero(Apply(s, e), id)
  {
    match e
    case Add(_, _, _, _, _, _, _) => AddStartsAtZero(s, e, id);
    case Modify(_, _, _, _, _) => ModifyStartsAtZero(s, e, id);
    case Timeout(_, _, _) => TimeoutStartsAtZero(s, e, id);
  }

  lemma {:induction false} RunStartsAtZero(s: State, es: seq<Event>, id: Uuid)
    requires Consistent(s.rows) && StartsAtZero(s, id)
    ensures StartsAtZero(Run(s, es), id)
    decreases |es|
  {
    if es != [] {
      StepConsistent(s, es[0]);
      StepStartsAtZero(s, es[0], id);
      RunStartsAtZero(Apply(s, es[0]), es[1..], id);
    }
  }

  lemma {:induction false} StandingGrantUnreported(log: seq<Sent>, id: Uuid, i: nat)
    requires GrantStands(log, id, i, |log|) && forall k | i < k < |log| :: !IsReport(log[k], id)
    ensures LeaseStart(log, id) == Some(log[i].at) && !ReportedOn(log, id)
    decreases |log|
  {
    var n := |log| - 1;
    if i < n {
      var before := log[..n];
      assert forall k | 0 <= k < n :: before[k] == log[k];
      StandingGrantUnreported(before, id, i);
    }
  }

  /**
   * A task that was granted, by a claim or by the ring, and never reported on is released by
   * any sweep from 300 seconds after the grant on, and by none before.
   */
  lemma UnreportedGrantsAreReleased(es: seq<Event>, id: Uuid, i: nat, at: Time)
    requires var log := Run(Initial, es).log;
             GrantStands(log, id, i, |log|) && forall k | i < k < |log| :: !IsReport(log[k], id)
    ensures var s := Run(Initial, es);
            && id in s.rows
            && Apply(s, Timeout(s.rows[id].teamId, id, at)) ==
               if at - s.log[i].at >= TIMEOUT
               then State(s.rows[id := Restarted(s.rows[id])],
                          s.log + [Sent(at, ToTeam(s.rows[id].teamId), TaskReleased(id, "timeout"))])
               else s
  {
    var s := Run(Initial, es);
    StandingGrantUnreported(s.log, id, i);
    Reachable(es);
    assert AgreesOn(s, id) && RowOk(s.rows, id);
    RunStartsAtZero(Initial, es, id);
    TimeoutReleasesIff(s, s.rows[id].teamId, id, at);
    assert Released(s.rows[id]) == Restarted(s.rows[id]);
  }
}
