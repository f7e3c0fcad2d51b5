/**
 * What every run of the atomic lease protocol keeps. Four readings of the server's log are
 * defined without the tasks table, and each is shown to agree with the table after any run:
 * a member's copy of the queue, the time of the outstanding grant, the number of changes
 * announced for a task, and the rules that grants and releases obey.
 */
module LeaseTheorems {
  import opened Types
  import opened TaskTable
  import opened Lease

  // ---------- invariants of the table ----------

  predicate HasHolder(task: Task) {
    && task.status != New && task.status != Failed
    && (task.status == Queued <==> task.claimedBy == None)
    && (task.claimedBy == None <==> task.claimedAt == None)
  }

  predicate HasFile(task: Task) {
    && (task.localPath.Some? <==> task.status == Complete)
    && (task.fileSize.Some? <==> task.status == Complete)
  }

  ghost predicate UniqueUrls(rows: Rows) {
    forall i, j | i in rows && j in rows && rows[i].url == rows[j].url :: i == j
  }

  predicate RowOk(rows: Rows, id: Uuid)
    requires id in rows
  {
    rows[id].id == id && HasHolder(rows[id]) && HasFile(rows[id])
  }

  ghost predicate Consistent(rows: Rows) {
    (forall id <- rows :: RowOk(rows, id)) && UniqueUrls(rows)
  }

  /** The columns no statement ever rewrites. */
  predicate SameTask(t: Task, u: Task) {
    && t.id == u.id && t.teamId == u.teamId && t.url == u.url
    && t.createdBy == u.createdBy && t.createdAt == u.createdAt
  }

  lemma StepRowOk(s: State, e: Event, id: Uuid)
    requires forall i <- s.rows :: RowOk(s.rows, i)
    requires id in Apply(s, e).rows
    ensures RowOk(Apply(s, e).rows, id)
    ensures id in s.rows ==> SameTask(s.rows[id], Apply(s, e).rows[id])
  {
  }

  lemma StepConsistent(s: State, e: Event)
    requires Consistent(s.rows)
    ensures Consistent(Apply(s, e).rows)
  {
    var rows := Apply(s, e).rows;
    forall id <- rows ensures RowOk(rows, id) && (id in s.rows ==> rows[id].url == s.rows[id].url) {
      StepRowOk(s, e, id);
    }
  }

  // ---------- readings of the log ----------

  /** A member's copy of a task: messages do not carry claimed_at faithfully, so it is dropped. */
  function Seen(task: Task): Task {
    task.(claimedAt := None)
  }

  /** A member applies one message to its copy of the team's queue. */
  function Receive(view: Rows, msg: ServerMessage): Rows {
    match msg
    case TaskAdded(task) => view[task.id := Seen(task)]
    case TaskUpdated(task) => view[task.id := Seen(task)]
    case TaskClaimed(id, device) =>
      if id in view
      then view[id := view[id].(status := Claimed, claimedBy := Some(device), version := view[id].version + 1)]
      else view
    case TaskReleased(id, _) =>
      if id in view then view[id := Released(view[id])] else view
    case Error(_) => view
  }

  predicate Hears(to: Address, device: Uuid, team: Uuid) {
    to == ToTeam(team) || to == ToDevice(device)
  }

  /** The queue a session of this device in this team has rebuilt from all it was sent. */
  function View(log: seq<Sent>, device: Uuid, team: Uuid): Rows {
    if log == [] then map[]
    else
      var last := log[|log| - 1];
      var before := View(log[..|log| - 1], device, team);
      if Hears(last.to, device, team) then Receive(before, last.msg) else before
  }

  /** The rows of a team as its members should see them. */
  function TeamRows(rows: Rows, team: Uuid): Rows {
    map id | id in rows && rows[id].teamId == team :: Seen(rows[id])
  }

  predicate IsGrant(e: Sent, id: Uuid) {
    e.to.ToTeam? && ((e.msg.TaskClaimed? && e.msg.taskId == id)
                   || (e.msg.TaskAdded? && e.msg.task.id == id && e.msg.task.claimedBy.Some?))
  }

  predicate IsRelease(e: Sent, id: Uuid) {
    e.to.ToTeam? && e.msg.TaskReleased? && e.msg.taskId == id
  }

  predicate IsChange(e: Sent, id: Uuid) {
    e.to.ToTeam? && ((e.msg.TaskUpdated? && e.msg.task.id == id)
                   || (e.msg.TaskClaimed? && e.msg.taskId == id)
                   || (e.msg.TaskReleased? && e.msg.taskId == id))
  }

  /** When the grant still outstanding for a task was announced. */
  function LeaseStart(log: seq<Sent>, id: Uuid): Option<Time> {
    if log == [] then None
    else
      var last := log[|log| - 1];
      if IsGrant(last, id) then Some(last.at)
      else if IsRelease(last, id) then None
      else LeaseStart(log[..|log| - 1], id)
  }

  function Changes(log: seq<Sent>, id: Uuid): nat {
    if log == [] then 0
    else Changes(log[..|log| - 1], id) + if IsChange(log[|log| - 1], id) then 1 else 0
  }

  /** A grant needs an unheld task; a release needs a grant at least five minutes old. */
  predicate Disciplined(log: seq<Sent>, id: Uuid) {
    log != [] ==>
      var last := log[|log| - 1];
      var before := log[..|log| - 1];
      && Disciplined(before, id)
      && (IsGrant(last, id) ==> LeaseStart(before, id) == None)
      && (IsRelease(last, id) ==>
            LeaseStart(before, id).Some? && last.at - LeaseStart(before, id).value >= 300 * NANOS_PER_SECOND)
  }

  function HeldSince(rows: Rows, id: Uuid): Option<Time> {
    if id in rows then rows[id].claimedAt else None
  }

  function ChangesIn(rows: Rows, id: Uuid): int {
    if id in rows then rows[id].version - 1 else 0
  }

  /** What the table holds for one task agrees with everything that can be read off the log. */
  ghost predicate AgreesOn(s: State, id: Uuid) {
    && Disciplined(s.log, id)
    && LeaseStart(s.log, id) == HeldSince(s.rows, id)
    && Changes(s.log, id) == ChangesIn(s.rows, id)
  }

  ghost predicate Agrees(s: State) {
    Consistent(s.rows) && forall id: Uuid :: AgreesOn(s, id)
  }

  lemma SendReads(log: seq<Sent>, e: Sent, id: Uuid)
    ensures LeaseStart(log + [e], id) ==
            if IsGrant(e, id) then Some(e.at) else if IsRelease(e, id) then None else LeaseStart(log, id)
    ensures Changes(log + [e], id) == Changes(log, id) + if IsChange(e, id) then 1 else 0
    ensures Disciplined(log + [e], id) <==>
              && Disciplined(log, id)
              && (IsGrant(e, id) ==> LeaseStart(log, id) == None)
              && (IsRelease(e, id) ==>
                    LeaseStart(log, id).Some? && e.at - LeaseStart(log, id).value >= 300 * NANOS_PER_SECOND)
  {
    assert (log + [e])[..|log|] == log;
  }

  lemma SendView(log: seq<Sent>, e: Sent, device: Uuid, team: Uuid)
    ensures View(log + [e], device, team) ==
            if Hears(e.to, device, team) then Receive(View(log, device, team), e.msg) else View(log, device, team)
  {
    assert (log + [e])[..|log|] == log;
  }

  /** num_minutes() >= 5 is the same as 300 seconds. */
  lemma FiveMinutes(elapsed: int)
    ensures NumMinutes(elapsed) >= 5 <==> elapsed >= 300 * NANOS_PER_SECOND
  {
  }

  /** One message accounts for what happened to one task between two tables. */
  predicate Accounts(before: Rows, after: Rows, e: Sent, id: Uuid) {
    && (IsGrant(e, id) ==> HeldSince(before, id) == None && HeldSince(after, id) == Some(e.at))
    && (IsRelease(e, id) ==>
          && HeldSince(before, id).Some?
          && e.at - HeldSince(before, id).value >= 300 * NANOS_PER_SECOND
          && HeldSince(after, id) == None)
    && (!IsGrant(e, id) && !IsRelease(e, id) ==> HeldSince(after, id) == HeldSince(before, id))
    && ChangesIn(after, id) == ChangesIn(before, id) + if IsChange(e, id) then 1 else 0
  }

  lemma AccountsAgrees(s: State, after: Rows, e: Sent, id: Uuid)
    requires AgreesOn(s, id) && Accounts(s.rows, after, e, id)
    ensures AgreesOn(State(after, s.log + [e]), id)
  {
    SendReads(s.log, e, id);
  }

  lemma AddAgreesOn(s: State, e: Event, id: Uuid)
    requires e.Add? && AgreesOn(s, id)
    ensures AgreesOn(Apply(s, e), id)
  {
    var s' := Apply(s, e);
    if CanInsert(s.rows, Queue(e.id, e.url, e.team, e.device, e.createdAt)) && e.owner.Some? {
      var direct := s'.log[|s.log|];
      AccountsAgrees(s, s.rows, direct, id);
      AccountsAgrees(State(s.rows, s.log + [direct]), s'.rows, s'.log[|s.log| + 1], id);
    } else {
      AccountsAgrees(s, s'.rows, s'.log[|s.log|], id);
    }
  }

  lemma ModifyAgreesOn(s: State, e: Event, id: Uuid)
    requires e.Modify? && (e.id in s.rows ==> RowOk(s.rows, e.id)) && AgreesOn(s, id)
    ensures AgreesOn(Apply(s, e), id)
  {
    var s' := Apply(s, e);
    if s'.log != s.log {
      AccountsAgrees(s, s'.rows, s'.log[|s.log|], id);
    }
  }

  lemma TimeoutAgreesOn(s: State, e: Event, id: Uuid)
    requires e.Timeout? && (e.id in s.rows ==> RowOk(s.rows, e.id)) && AgreesOn(s, id)
    ensures AgreesOn(Apply(s, e), id)
  {
    var s' := Apply(s, e);
    if s'.log != s.log {
      FiveMinutes(e.at - s.rows[e.id].claimedAt.value);
      AccountsAgrees(s, s'.rows, s'.log[|s.log|], id);
    }
  }

  lemma StepAgrees(s: State, e: Event)
    requires Agrees(s)
    ensures Agrees(Apply(s, e))
  {
    StepConsistent(s, e);
    forall id: Uuid ensures AgreesOn(Apply(s, e), id) {
      match e
      case Add(_, _, _, _, _, _, _) => AddAgreesOn(s, e, id);
      case Modify(_, _, _, _, _) => ModifyAgreesOn(s, e, id);
      case Timeout(_, _, _) => TimeoutAgreesOn(s, e, id);
    }
  }

  lemma {:induction false} RunAgrees(s: State, es: seq<Event>)
    requires Agrees(s)
    ensures Agrees(Run(s, es))
    decreases |es|
  {
    if es != [] {
      StepAgrees(s, es[0]);
      RunAgrees(Apply(s, es[0]), es[1..]);
    }
  }

  lemma Reachable(es: seq<Event>)
    ensures Agrees(Run(Initial, es))
  {
    RunAgrees(Initial, es);
  }

  // ---------- every member's copy of the queue is right ----------

  lemma TeamRowsAfter(rows: Rows, id: Uuid, task: Task, team: Uuid)
    requires id in rows ==> rows[id].teamId == task.teamId
    ensures TeamRows(rows[id := task], team) ==
            if task.teamId == team then TeamRows(rows, team)[id := Seen(task)] else TeamRows(rows, team)
  {
  }

  /** One message tells a member what happened to one row. */
  lemma ViewAfter(s: State, e: Sent, id: Uuid, task: Task, device: Uuid, team: Uuid)
    requires View(s.log, device, team) == TeamRows(s.rows, team)
    requires id in s.rows ==> s.rows[id].teamId == task.teamId
    requires e.to == ToTeam(task.teamId)
    requires Receive(TeamRows(s.rows, task.teamId), e.msg) == TeamRows(s.rows, task.teamId)[id := Seen(task)]
    ensures View(s.log + [e], device, team) == TeamRows(s.rows[id := task], team)
  {
    SendView(s.log, e, device, team);
    TeamRowsAfter(s.rows, id, task, team);
  }

  /** A new task's holder hears of the grant before the task, too early to matter. */
  lemma GrantView(log: seq<Sent>, copy: Task, owner: Uuid, at: Time, device: Uuid, team: Uuid)
    requires copy.id !in View(log, device, team)
    ensures var direct := Sent(at, ToDevice(owner), TaskClaimed(copy.id, owner));
            var added := Sent(at, ToTeam(copy.teamId), TaskAdded(copy));
            View(log + [direct] + [added], device, team) ==
            if copy.teamId == team then View(log, device, team)[copy.id := Seen(copy)] else View(log, device, team)
  {
    var direct := Sent(at, ToDevice(owner), TaskClaimed(copy.id, owner));
    SendView(log, direct, device, team);
    SendView(log + [direct], Sent(at, ToTeam(copy.teamId), TaskAdded(copy)), device, team);
  }

  lemma ViewAfterGrant(s: State, task: Task, owner: Uuid, at: Time, device: Uuid, team: Uuid)
    requires task.id !in s.rows && View(s.log, device, team) == TeamRows(s.rows, team)
    ensures var copy := Assigned(task, owner, at);
            var direct := Sent(at, ToDevice(owner), TaskClaimed(copy.id, owner));
            var added := Sent(at, ToTeam(copy.teamId), TaskAdded(copy));
            View(s.log + [direct] + [added], device, team) == TeamRows(s.rows[copy.id := copy], team)
  {
    var copy := Assigned(task, owner, at);
    GrantView(s.log, copy, owner, at, device, team);
    TeamRowsAfter(s.rows, copy.id, copy, team);
  }

  /** An accepted add, in one table and one log. */
  lemma WholeAdd(s: State, t: Task, owner: Option<Uuid>, at: Time)
    requires CanInsert(s.rows, t) && t == Queue(t.id, t.url, t.teamId, t.createdBy, t.createdAt)
    ensures var row := if owner.Some? then Assigned(t, owner.value, at) else t;
            var added := Sent(at, ToTeam(t.teamId), TaskAdded(row));
            Apply(s, Add(t.createdBy, t.teamId, t.id, t.url, t.createdAt, owner, at)) ==
            if owner == None then State(s.rows[t.id := row], s.log + [added])
            else
              var direct := Sent(at, ToDevice(owner.value), TaskClaimed(t.id, owner.value));
              State(s.rows[t.id := row], s.log + [direct] + [added])
  {
    if owner.Some? {
      var row := Assigned(t, owner.value, at);
      assert Overwrite(t, row) == row;
      assert s.rows[t.id := t][t.id := row] == s.rows[t.id := row];
    }
  }

  lemma ErrorsAreIgnored(s: State, at: Time, to: Uuid, message: string, device: Uuid, team: Uuid)
    ensures View(Send(s, at, ToDevice(to), Error(message)).log, device, team) == View(s.log, device, team)
  {
    SendView(s.log, Sent(at, ToDevice(to), Error(message)), device, team);
  }

  lemma ViewAfterAdd(s: State, e: Event, device: Uuid, team: Uuid)
    requires e.Add? && View(s.log, device, team) == TeamRows(s.rows, team)
    ensures View(Apply(s, e).log, device, team) == TeamRows(Apply(s, e).rows, team)
  {
    var task := Queue(e.id, e.url, e.team, e.device, e.createdAt);
    if !CanInsert(s.rows, task) {
      ErrorsAreIgnored(s, e.at, e.device, "URL already exists", device, team);
    } else if e.owner == None {
      ViewAfter(s, Sent(e.at, ToTeam(e.team), TaskAdded(task)), e.id, task, device, team);
    } else {
      ViewAfterGrant(s, task, e.owner.value, e.at, device, team);
      WholeAdd(s, task, e.owner, e.at);
    }
  }

  /** Even the short message about a claim says all there is to say about the new row. */
  lemma AnnouncementTells(view: Rows, task: Task, device: Uuid, request: Request, at: Time)
    requires task.id in view && view[task.id] == Seen(task) && Permitted(task, device, request)
    ensures var copy := Modified(task, device, request, at);
            Receive(view, Announcement(copy, device, request)) == view[task.id := Seen(copy)]
  {
  }

  lemma ViewAfterModify(s: State, e: Event, device: Uuid, team: Uuid)
    requires e.Modify? && (e.id in s.rows ==> RowOk(s.rows, e.id))
    requires View(s.log, device, team) == TeamRows(s.rows, team)
    ensures View(Apply(s, e).log, device, team) == TeamRows(Apply(s, e).rows, team)
  {
    if !InTeam(s.rows, e.team, e.id) {
      ErrorsAreIgnored(s, e.at, e.device, "Task not found", device, team);
    } else if !Permitted(s.rows[e.id], e.device, e.request) {
      ErrorsAreIgnored(s, e.at, e.device, "Task not available", device, team);
    } else {
      var copy := Modified(s.rows[e.id], e.device, e.request, e.at);
      AnnouncementTells(TeamRows(s.rows, e.team), s.rows[e.id], e.device, e.request, e.at);
      assert Overwrite(s.rows[e.id], copy) == copy;
      ViewAfter(s, Sent(e.at, ToTeam(e.team), Announcement(copy, e.device, e.request)), e.id, copy, device, team);
    }
  }

  lemma ViewAfterTimeout(s: State, e: Event, device: Uuid, team: Uuid)
    requires e.Timeout? && View(s.log, device, team) == TeamRows(s.rows, team)
    ensures View(Apply(s, e).log, device, team) == TeamRows(Apply(s, e).rows, team)
  {
    var s' := Apply(s, e);
    if s'.log != s.log {
      var sent := Sent(e.at, ToTeam(e.team), TaskReleased(e.id, "timeout"));
      var row := s.rows[e.id];
      assert s' == State(s.rows[e.id := Released(row)], s.log + [sent]);
      assert Released(Seen(row)) == Seen(Released(row));
      ViewAfter(s, sent, e.id, Released(row), device, team);
    }
  }

  lemma {:induction false} RunView(s: State, es: seq<Event>, device: Uuid, team: Uuid)
    requires Consistent(s.rows) && View(s.log, device, team) == TeamRows(s.rows, team)
    ensures View(Run(s, es).log, device, team) == TeamRows(Run(s, es).rows, team)
    decreases |es|
  {
    if es != [] {
      match es[0] {
        case Add(_, _, _, _, _, _, _) => ViewAfterAdd(s, es[0], device, team);
        case Modify(_, _, _, _, _) => ViewAfterModify(s, es[0], device, team);
        case Timeout(_, _, _) => ViewAfterTimeout(s, es[0], device, team);
      }
      StepConsistent(s, es[0]);
      RunView(Apply(s, es[0]), es[1..], device, team);
    }
  }

  /**
   * After any run, whatever a device of a team has been sent, team broadcasts and direct
   * messages alike, rebuilds exactly the team's rows, claimed_at aside.
   */
  lemma ReplayRebuildsTheQueue(es: seq<Event>, device: Uuid, team: Uuid)
    ensures View(Run(Initial, es).log, device, team) == TeamRows(Run(Initial, es).rows, team)
  {
    RunView(Initial, es, device, team);
  }

  /** Whatever was released had, as its team last heard, been claimed and was unfinished. */
  predicate ReleasesUnfinished(log: seq<Sent>, device: Uuid, team: Uuid) {
    log != [] ==>
      var last := log[|log| - 1];
      var before := log[..|log| - 1];
      && ReleasesUnfinished(before, device, team)
      && (last.to == ToTeam(team) && last.msg.TaskReleased? ==>
            var view := View(before, device, team);
            var id := last.msg.taskId;
            id in view && view[id].status == Claimed && view[id].progress < 1.0)
  }

  lemma SendReleases(log: seq<Sent>, e: Sent, device: Uuid, team: Uuid)
    ensures ReleasesUnfinished(log + [e], device, team) <==>
              && ReleasesUnfinished(log, device, team)
              && (e.to == ToTeam(team) && e.msg.TaskReleased? ==>
                    var view := View(log, device, team);
                    var id := e.msg.taskId;
                    id in view && view[id].status == Claimed && view[id].progress < 1.0)
  {
    assert (log + [e])[..|log|] == log;
  }

  lemma StepReleases(s: State, e: Event, device: Uuid, team: Uuid)
    requires View(s.log, device, team) == TeamRows(s.rows, team) && ReleasesUnfinished(s.log, device, team)
    ensures ReleasesUnfinished(Apply(s, e).log, device, team)
  {
    var log := Apply(s, e).log;
    if log != s.log {
      SendReleases(s.log, log[|s.log|], device, team);
      if |log| == |s.log| + 2 {
        SendReleases(s.log + [log[|s.log|]], log[|s.log| + 1], device, team);
        assert log == s.log + [log[|s.log|]] + [log[|s.log| + 1]];
      } else {
        assert log == s.log + [log[|s.log|]];
      }
    }
  }

  lemma {:induction false} RunReleases(s: State, es: seq<Event>, device: Uuid, team: Uuid)
    requires Consistent(s.rows) && View(s.log, device, team) == TeamRows(s.rows, team)
    requires ReleasesUnfinished(s.log, device, team)
    ensures ReleasesUnfinished(Run(s, es).log, device, team)
    decreases |es|
  {
    if es != [] {
      StepReleases(s, es[0], device, team);
      StepConsistent(s, es[0]);
      RunView(s, [es[0]], device, team);
      RunSnoc(s, [], es[0]);
      assert [] + [es[0]] == [es[0]];
      RunReleases(Apply(s, es[0]), es[1..], device, team);
    }
  }

  /** The sweep takes a task only from a holder whose announced progress is short of the end. */
  lemma OnlyUnfinishedClaimsAreReleased(es: seq<Event>, device: Uuid, team: Uuid)
    ensures ReleasesUnfinished(Run(Initial, es).log, device, team)
  {
    RunReleases(Initial, es, device, team);
  }

  // ---------- leases are exclusive and last five minutes ----------

  lemma {:induction false} ReleasedSince(log: seq<Sent>, id: Uuid, i: nat)
    requires i < |log| && IsGrant(log[i], id) && LeaseStart(log, id) == None
    ensures exists k :: i < k < |log| && IsRelease(log[k], id)
    decreases |log|
  {
    var last := |log| - 1;
    if !IsRelease(log[last], id) {
      ReleasedSince(log[..last], id, i);
    }
  }

  lemma {:induction false} DisciplinedPrefix(log: seq<Sent>, id: Uuid, n: nat)
    requires Disciplined(log, id) && n <= |log|
    ensures Disciplined(log[..n], id)
    decreases |log|
  {
    if n < |log| {
      var before := log[..|log| - 1];
      DisciplinedPrefix(before, id, n);
      assert before[..n] == log[..n];
    } else {
      assert log[..n] == log;
    }
  }

  lemma DisciplinedAt(log: seq<Sent>, id: Uuid, n: nat)
    requires Disciplined(log, id) && n < |log|
    ensures IsGrant(log[n], id) ==> LeaseStart(log[..n], id) == None
    ensures IsRelease(log[n], id) ==>
              && LeaseStart(log[..n], id).Some?
              && log[n].at - LeaseStart(log[..n], id).value >= 300 * NANOS_PER_SECOND
  {
    DisciplinedPrefix(log, id, n + 1);
    assert log[..n + 1][..n] == log[..n];
  }

  /** Between two grants of a task, by claim or by the ring, the server released it. */
  lemma DisciplineSeparatesGrants(log: seq<Sent>, id: Uuid, i: nat, j: nat)
    requires Disciplined(log, id) && i < j < |log| && IsGrant(log[i], id) && IsGrant(log[j], id)
    ensures exists k :: i < k < j && IsRelease(log[k], id)
  {
    DisciplinedAt(log, id, j);
    ReleasedSince(log[..j], id, i);
    var k :| i < k < j && IsRelease(log[..j][k], id);
    assert IsRelease(log[k], id);
  }

  /** The last thing said about a lease in log[..j] is the grant at i. */
  predicate GrantStands(log: seq<Sent>, id: Uuid, i: nat, j: nat) {
    && i < j <= |log| && IsGrant(log[i], id)
    && forall k | i < k < j :: !IsGrant(log[k], id) && !IsRelease(log[k], id)
  }

  lemma {:induction false} GrantOf(log: seq<Sent>, id: Uuid) returns (i: nat)
    requires LeaseStart(log, id).Some?
    ensures GrantStands(log, id, i, |log|) && log[i].at == LeaseStart(log, id).value
    decreases |log|
  {
    i := |log| - 1;
    if !IsGrant(log[i], id) {
      var before := log[..i];
      i := GrantOf(before, id);
      assert forall k | 0 <= k < |before| :: before[k] == log[k];
    }
  }

  /** A release ends a grant that has stood for at least 300 seconds. */
  lemma DisciplineKeepsLeases(log: seq<Sent>, id: Uuid, j: nat)
    requires Disciplined(log, id) && j < |log| && IsRelease(log[j], id)
    ensures exists i: nat :: GrantStands(log, id, i, j) && log[j].at - log[i].at >= 300 * NANOS_PER_SECOND
  {
    DisciplinedAt(log, id, j);
    var i := GrantOf(log[..j], id);
    assert forall k | 0 <= k < j :: log[..j][k] == log[k];
    assert GrantStands(log, id, i, j);
  }

  lemma GrantsAreSeparatedByReleases(es: seq<Event>, id: Uuid, i: nat, j: nat)
    requires i < j < |Run(Initial, es).log|
    requires IsGrant(Run(Initial, es).log[i], id) && IsGrant(Run(Initial, es).log[j], id)
    ensures exists k :: i < k < j && IsRelease(Run(Initial, es).log[k], id)
  {
    Reachable(es);
    assert AgreesOn(Run(Initial, es), id);
    DisciplineSeparatesGrants(Run(Initial, es).log, id, i, j);
  }

  lemma LeasesLastFiveMinutes(es: seq<Event>, id: Uuid, j: nat)
    requires j < |Run(Initial, es).log| && IsRelease(Run(Initial, es).log[j], id)
    ensures exists i: nat ::
              && GrantStands(Run(Initial, es).log, id, i, j)
              && Run(Initial, es).log[j].at - Run(Initial, es).log[i].at >= 300 * NANOS_PER_SECOND
  {
    Reachable(es);
    assert AgreesOn(Run(Initial, es), id);
    DisciplineKeepsLeases(Run(Initial, es).log, id, j);
  }

  /**
   * The table after any run: rows are well formed, a file is recorded exactly on completion,
   * claimed_at is the time of the outstanding grant, and the version counts the changes.
   */
  lemma RowsMatchTheLog(es: seq<Event>, id: Uuid)
    requires id in Run(Initial, es).rows
    ensures var s := Run(Initial, es);
            && UniqueUrls(s.rows) && RowOk(s.rows, id)
            && s.rows[id].claimedAt == LeaseStart(s.log, id)
            && s.rows[id].version == 1 + Changes(s.log, id)
  {
    Reachable(es);
    assert AgreesOn(Run(Initial, es), id);
  }

  // ---------- what later steps cannot undo ----------

  /** How one row may change: no handover, no return from Complete, no version lost. */
  predicate Succeeds(before: Task, after: Task) {
    && SameTask(before, after)
    && before.version <= after.version
    && (before.status == Complete ==>
          after.status == Complete && after.claimedBy == before.claimedBy && after.claimedAt == before.claimedAt)
  }

  lemma StepSucceeds(s: State, e: Event, id: Uuid)
    requires id in s.rows && forall i <- s.rows :: RowOk(s.rows, i)
    ensures id in Apply(s, e).rows && Succeeds(s.rows[id], Apply(s, e).rows[id])
  {
  }

  lemma {:induction false} RunSucceeds(s: State, es: seq<Event>, id: Uuid)
    requires Consistent(s.rows) && id in s.rows
    ensures id in Run(s, es).rows && Succeeds(s.rows[id], Run(s, es).rows[id])
    decreases |es|
  {
    if es != [] {
      StepConsistent(s, es[0]);
      StepSucceeds(s, es[0], id);
      RunSucceeds(Apply(s, es[0]), es[1..], id);
    }
  }

  /** A task once Complete keeps its holder through any continuation of any run. */
  lemma CompleteIsFinal(es: seq<Event>, more: seq<Event>, id: Uuid)
    requires id in Run(Initial, es).rows
    ensures id in Run(Run(Initial, es), more).rows
    ensures Succeeds(Run(Initial, es).rows[id], Run(Run(Initial, es), more).rows[id])
  {
    Reachable(es);
    RunSucceeds(Run(Initial, es), more, id);
  }

  /** One step raises the version by exactly one or leaves the row alone, and hands no task over. */
  lemma StepChangesOnce(s: State, e: Event, id: Uuid)
    requires Consistent(s.rows) && id in s.rows
    ensures var before, after := s.rows[id], Apply(s, e).rows[id];
            && (after == before || after.version == before.version + 1)
            && (after.claimedBy == before.claimedBy || before.claimedBy == None || after.claimedBy == None)
  {
  }

  // ---------- teams do not disturb each other ----------

  predicate TouchesTeam(e: Sent, team: Uuid) {
    e.to == ToTeam(team)
  }

  lemma StepIsIsolated(s: State, e: Event, team: Uuid)
    requires e.team != team && (e.id in s.rows ==> RowOk(s.rows, e.id))
    ensures TeamRows(Apply(s, e).rows, team) == TeamRows(s.rows, team)
    ensures |s.log| <= |Apply(s, e).log| && Apply(s, e).log[..|s.log|] == s.log
    ensures forall k | |s.log| <= k < |Apply(s, e).log| :: !TouchesTeam(Apply(s, e).log[k], team)
  {
    var rows := Apply(s, e).rows;
    if rows != s.rows {
      TeamRowsAfter(s.rows, e.id, rows[e.id], team);
      assert rows == s.rows[e.id := rows[e.id]];
    }
  }

  /** Events of other teams neither change a team's rows nor send the team anything. */
  lemma {:induction false} TeamsAreIsolated(s: State, es: seq<Event>, team: Uuid)
    requires Consistent(s.rows) && forall e <- es :: e.team != team
    ensures TeamRows(Run(s, es).rows, team) == TeamRows(s.rows, team)
    ensures |s.log| <= |Run(s, es).log| && Run(s, es).log[..|s.log|] == s.log
    ensures forall k | |s.log| <= k < |Run(s, es).log| :: !TouchesTeam(Run(s, es).log[k], team)
    decreases |es|
  {
    if es != [] {
      var s' := Apply(s, es[0]);
      StepConsistent(s, es[0]);
      StepIsIsolated(s, es[0], team);
      TeamsAreIsolated(s', es[1..], team);
      var log := Run(s, es).log;
      assert log[..|s.log|] == log[..|s'.log|][..|s.log|];
      forall k | |s.log| <= k < |log| ensures !TouchesTeam(log[k], team) {
        if k < |s'.log| { assert log[k] == log[..|s'.log|][k]; }
      }
    }
  }

  // ---------- the sweep ----------

  function Timeouts(team: Uuid, ids: seq<Uuid>, at: Time): seq<Event> {
    seq(|ids|, i requires 0 <= i < |ids| => Timeout(team, ids[i], at))
  }

  lemma TimeoutsSnoc(s: State, team: Uuid, ids: seq<Uuid>, id: Uuid, at: Time)
    ensures Run(s, Timeouts(team, ids + [id], at)) == Apply(Run(s, Timeouts(team, ids, at)), Timeout(team, id, at))
  {
    assert Timeouts(team, ids + [id], at) == Timeouts(team, ids, at) + [Timeout(team, id, at)];
    RunSnoc(s, Timeouts(team, ids, at), Timeout(team, id, at));
  }

  predicate Overdue(task: Task, team: Uuid, at: Time) {
    task.teamId == team && task.status == Claimed && Expired(task, at)
  }

  /** Sweeping a list of tasks releases exactly the overdue ones on it, whatever its order. */
  lemma {:induction false} SweepReleases(s: State, team: Uuid, ids: seq<Uuid>, at: Time)
    ensures Run(s, Timeouts(team, ids, at)).rows ==
            map id | id in s.rows ::
              if id in ids && Overdue(s.rows[id], team, at) then Released(s.rows[id]) else s.rows[id]
    decreases |ids|
  {
    if ids != [] {
      var es := Timeouts(team, ids, at);
      assert es[1..] == Timeouts(team, ids[1..], at);
      SweepReleases(Apply(s, es[0]), team, ids[1..], at);
    }
  }

  /** When the list holds every claimed task of the team, none is overdue afterwards. */
  lemma SweepLeavesNoneOverdue(s: State, team: Uuid, ids: seq<Uuid>, at: Time, id: Uuid)
    requires forall i <- s.rows :: s.rows[i].teamId == team && s.rows[i].status == Claimed ==> i in ids
    requires id in Run(s, Timeouts(team, ids, at)).rows
    ensures !Overdue(Run(s, Timeouts(team, ids, at)).rows[id], team, at)
  {
    SweepReleases(s, team, ids, at);
  }

  /** Every one of these teams swept, each at its own reading of the clock. */
  function SweptRows(rows: Rows, teams: set<Uuid>, clock: Uuid -> Time): Rows {
    map id | id in rows ::
      if rows[id].teamId in teams && Overdue(rows[id], rows[id].teamId, clock(rows[id].teamId))
      then Released(rows[id]) else rows[id]
  }

  lemma SweepOneMoreTeam(rows: Rows, teams: set<Uuid>, clock: Uuid -> Time, s: State, team: Uuid, ids: seq<Uuid>)
    requires team !in teams && s.rows == SweptRows(rows, teams, clock)
    requires forall i <- s.rows :: s.rows[i].teamId == team && s.rows[i].status == Claimed ==> i in ids
    ensures Run(s, Timeouts(team, ids, clock(team))).rows == SweptRows(rows, teams + {team}, clock)
  {
    SweepReleases(s, team, ids, clock(team));
    var after := Run(s, Timeouts(team, ids, clock(team))).rows;
    forall id <- rows ensures after[id] == SweptRows(rows, teams + {team}, clock)[id] {
    }
  }

  lemma SweptRowsAreNotOverdue(rows: Rows, teams: set<Uuid>, clock: Uuid -> Time, id: Uuid)
    requires id in rows && rows[id].teamId in teams
    ensures var row := SweptRows(rows, teams, clock)[id]; !Overdue(row, row.teamId, clock(row.teamId))
  {
  }

  // ---------- progress does not renew a lease ----------

  /** What one device reports about one task, and when. */
  type Reports = seq<(real, Time)>

  function Reporting(device: Uuid, team: Uuid, id: Uuid, reports: Reports): seq<Event> {
    seq(|reports|, i requires 0 <= i < |reports| => Modify(device, team, id, Progress(reports[i].0), reports[i].1))
  }

  function Reported(task: Task, reports: Reports): Task {
    if reports == [] then task
    else task.(progress := reports[|reports| - 1].0, version := task.version + |reports|)
  }

  lemma {:induction false} ReportsOnlyReport(s: State, device: Uuid, team: Uuid, id: Uuid, reports: Reports)
    requires InTeam(s.rows, team, id) && s.rows[id].id == id && s.rows[id].claimedBy == Some(device)
    ensures Run(s, Reporting(device, team, id, reports)).rows == s.rows[id := Reported(s.rows[id], reports)]
    decreases |reports|
  {
    var es := Reporting(device, team, id, reports);
    if reports != [] {
      assert es[1..] == Reporting(device, team, id, reports[1..]);
      var s' := Apply(s, es[0]);
      assert s'.rows == s.rows[id := Reported(s.rows[id], [reports[0]])];
      ReportsOnlyReport(s', device, team, id, reports[1..]);
    } else {
      assert s.rows[id := s.rows[id]] == s.rows;
    }
  }

  lemma TimeoutReleasesIff(s: State, team: Uuid, id: Uuid, at: Time)
    requires InTeam(s.rows, team, id) && s.rows[id].status == Claimed && s.rows[id].claimedAt.Some?
    ensures Apply(s, Timeout(team, id, at)) ==
            if at - s.rows[id].claimedAt.value >= 300 * NANOS_PER_SECOND && s.rows[id].progress < 1.0
            then Send(s.(rows := s.rows[id := Released(s.rows[id])]), at, ToTeam(team), TaskReleased(id, "timeout"))
            else s
  {
    FiveMinutes(at - s.rows[id].claimedAt.value);
  }

  /**
   * However often and however recently its holder has reported, a claimed task is released by
   * the next sweep exactly when the claim is five minutes old and the last report is short of
   * the end.
   */
  lemma LeasesEndByAge(s: State, device: Uuid, team: Uuid, id: Uuid, reports: Reports, at: Time)
    requires Consistent(s.rows) && InTeam(s.rows, team, id)
    requires s.rows[id].status == Claimed && s.rows[id].claimedBy == Some(device)
    ensures var before := Run(s, Reporting(device, team, id, reports));
            var after := Apply(before, Timeout(team, id, at));
            var row := Reported(s.rows[id], reports);
            && id in before.rows && before.rows[id] == row
            && after == if at - s.rows[id].claimedAt.value >= 300 * NANOS_PER_SECOND && row.progress < 1.0
                        then Send(before.(rows := before.rows[id := Released(row)]),
                                  at, ToTeam(team), TaskReleased(id, "timeout"))
                        else before
  {
    assert RowOk(s.rows, id);
    ReportsOnlyReport(s, device, team, id, reports);
    TimeoutReleasesIff(Run(s, Reporting(device, team, id, reports)), team, id, at);
  }

  /** A task claimed and reported on by device 1, one second before it is taken away. */
  const ReportedInVain: seq<Event> := [
    Add(1, 7, 5, "url", 0, None, 0),
    Modify(1, 7, 5, Claim, 0),
    Modify(1, 7, 5, Progress(0.5), 299 * NANOS_PER_SECOND),
    Timeout(7, 5, 300 * NANOS_PER_SECOND)
  ]

  lemma RunFour(s: State, a: Event, b: Event, c: Event, d: Event)
    ensures Run(s, [a, b, c, d]) == Apply(Apply(Apply(Apply(s, a), b), c), d)
  {
    assert [a, b, c, d] == [] + [a] + [b] + [c] + [d];
    RunSnoc(s, [] + [a] + [b] + [c], d);
    RunSnoc(s, [] + [a] + [b], c);
    RunSnoc(s, [] + [a], b);
    RunSnoc(s, [], a);
  }

  lemma ReportsDoNotRenew()
    ensures var log := Run(Initial, ReportedInVain).log;
            && |log| == 4 && log[2].at == 299 * NANOS_PER_SECOND && log[2].msg.TaskUpdated?
            && log[3].at == 300 * NANOS_PER_SECOND && IsRelease(log[3], 5)
  {
    var es := ReportedInVain;
    var claimed := Apply(Apply(Initial, es[0]), es[1]);
    assert claimed.rows == map[5 := Modified(Queue(5, "url", 7, 1, 0), 1, Claim, 0)];
    var reported := Apply(claimed, es[2]);
    assert reported.rows[5].claimedAt == Some(0) && reported.rows[5].progress == 0.5;
    RunFour(Initial, es[0], es[1], es[2], es[3]);
  }
}
