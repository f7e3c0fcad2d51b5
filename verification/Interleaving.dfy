/**
 * The task lease protocol with one step per database call. Every call takes the connection's
 * mutex on its own, so a handler keeps the copy of a task it read while other handlers run,
 * and writes that copy back whatever has happened meanwhile.
 */
module Interleaving {
  import opened Types
  import opened TaskTable
  import opened Lease
  import opened LeaseTheorems

  /** A handler between two database calls, with the copies it holds. */
  datatype Pending =
    | Adding(task: Task)
    | Writing(read: Task, device: Uuid, request: Request, at: Time)
    | Sweeping(team: Uuid, at: Time, todo: seq<Task>)

  type HandlerId = nat

  datatype Server = Server(rows: Rows, log: seq<Sent>, pending: map<HandlerId, Pending>)

  const Idle := Server(map[], [], map[])

  datatype Step =
    | StartAdd(h: HandlerId, device: Uuid, team: Uuid, id: Uuid, url: string, createdAt: Time, at: Time)
    | FinishAdd(h: HandlerId, owner: Option<Uuid>, at: Time)
    | StartModify(h: HandlerId, device: Uuid, team: Uuid, id: Uuid, request: Request, at: Time)
    | FinishModify(h: HandlerId)
    | StartSweep(h: HandlerId, team: Uuid, ids: seq<Uuid>, at: Time)
    | SweepNext(h: HandlerId)

  function Tell(s: Server, at: Time, to: Address, msg: ServerMessage): Server {
    s.(log := s.log + [Sent(at, to, msg)])
  }

  /** The sweep's snapshot; SQL promises no order, so the step says which order it came in. */
  function ClaimedCopies(rows: Rows, team: Uuid, ids: seq<Uuid>): seq<Task> {
    if ids == [] then []
    else (if InTeam(rows, team, ids[0]) && rows[ids[0]].status == Claimed then [rows[ids[0]]] else [])
         + ClaimedCopies(rows, team, ids[1..])
  }

  ghost function Start(s: Server, e: Step): Server
    requires e.StartAdd? || e.StartModify? || e.StartSweep?
  {
    if e.h in s.pending then s else
    match e
    case StartAdd(h, device, team, id, url, createdAt, at) =>
      var task := Queue(id, url, team, device, createdAt);
      if CanInsert(s.rows, task)
      then s.(rows := s.rows[id := task], pending := s.pending[h := Adding(task)])
      else Tell(s, at, ToDevice(device), Error("URL already exists"))
    case StartModify(h, device, team, id, request, at) =>
      if !InTeam(s.rows, team, id) then
        if request.Claim? then Tell(s, at, ToDevice(device), Error("Task not found")) else s
      else if !Permitted(s.rows[id], device, request) then
        if request.Claim? then Tell(s, at, ToDevice(device), Error("Task not available")) else s
      else s.(pending := s.pending[h := Writing(s.rows[id], device, request, at)])
    case StartSweep(h, team, ids, at) =>
      s.(pending := s.pending[h := Sweeping(team, at, ClaimedCopies(s.rows, team, ids))])
  }

  function EndAdd(s: Server, h: HandlerId, owner: Option<Uuid>, at: Time): Server
    requires h in s.pending && s.pending[h].Adding?
  {
    var task := s.pending[h].task;
    var done := s.(pending := s.pending - {h});
    match owner
    case None => Tell(done, at, ToTeam(task.teamId), TaskAdded(task))
    case Some(o) =>
      var copy := Assigned(task, o, at);
      var told := Tell(done.(rows := Update(s.rows, copy)), at, ToDevice(o), TaskClaimed(task.id, o));
      Tell(told, at, ToTeam(task.teamId), TaskAdded(copy))
  }

  function EndModify(s: Server, h: HandlerId): Server
    requires h in s.pending && s.pending[h].Writing?
  {
    var Writing(read, device, request, at) := s.pending[h];
    var copy := Modified(read, device, request, at);
    Tell(s.(rows := Update(s.rows, copy), pending := s.pending - {h}),
         at, ToTeam(read.teamId), Announcement(copy, device, request))
  }

  function ContinueSweep(s: Server, h: HandlerId): Server
    requires h in s.pending && s.pending[h].Sweeping?
  {
    var Sweeping(team, at, todo) := s.pending[h];
    if todo == [] then s.(pending := s.pending - {h})
    else
      var next := s.(pending := s.pending[h := Sweeping(team, at, todo[1..])]);
      if Expired(todo[0], at)
      then Tell(next.(rows := Release(s.rows, todo[0].id)), at, ToTeam(team), TaskReleased(todo[0].id, "timeout"))
      else next
  }

  ghost function Next(s: Server, e: Step): Server {
    match e
    case FinishAdd(h, owner, at) =>
      if h in s.pending && s.pending[h].Adding? then EndAdd(s, h, owner, at) else s
    case FinishModify(h) =>
      if h in s.pending && s.pending[h].Writing? then EndModify(s, h) else s
    case SweepNext(h) =>
      if h in s.pending && s.pending[h].Sweeping? then ContinueSweep(s, h) else s
    case _ => Start(s, e)
  }

  ghost function Run(s: Server, es: seq<Step>): Server
    decreases |es|
  {
    if es == [] then s else Run(Next(s, es[0]), es[1..])
  }

  // ---------- what survives any interleaving ----------

  /** A held copy may be stale, but it is of a row that exists and it is itself well formed. */
  predicate Held(rows: Rows, copy: Task) {
    copy.id in rows && SameTask(rows[copy.id], copy) && HasHolder(copy)
  }

  predicate PendingOk(rows: Rows, p: Pending) {
    match p
    case Adding(task) => Held(rows, task) && task.status == Queued
    case Writing(read, device, request, _) => Held(rows, read) && Permitted(read, device, request)
    case Sweeping(team, _, todo) => forall t <- todo :: Held(rows, t) && t.teamId == team && t.status == Claimed
  }

  ghost predicate RowsOk(rows: Rows) {
    (forall id <- rows :: rows[id].id == id && HasHolder(rows[id])) && UniqueUrls(rows)
  }

  ghost predicate Survives(s: Server) {
    RowsOk(s.rows) && forall h <- s.pending :: PendingOk(s.rows, s.pending[h])
  }

  /** No row disappears or changes its identity between two tables. */
  ghost predicate KeepsTasks(before: Rows, after: Rows) {
    forall id <- before :: id in after && SameTask(before[id], after[id])
  }

  lemma KeptCopies(before: Rows, after: Rows, p: Pending)
    requires KeepsTasks(before, after) && PendingOk(before, p)
    ensures PendingOk(after, p)
  {
  }

  lemma UpdateSurvives(rows: Rows, copy: Task)
    requires RowsOk(rows) && Held(rows, copy)
    ensures RowsOk(Update(rows, copy)) && KeepsTasks(rows, Update(rows, copy))
  {
  }

  lemma ReleaseSurvives(rows: Rows, id: Uuid)
    requires RowsOk(rows)
    ensures RowsOk(Release(rows, id)) && KeepsTasks(rows, Release(rows, id))
  {
  }

  lemma {:induction false} CopiesAreHeld(rows: Rows, team: Uuid, ids: seq<Uuid>)
    requires RowsOk(rows)
    ensures forall t <- ClaimedCopies(rows, team, ids) ::
              Held(rows, t) && t.teamId == team && t.status == Claimed && rows[t.id] == t
  {
    if ids != [] {
      CopiesAreHeld(rows, team, ids[1..]);
    }
  }

  /** A step is sound when its table is and every copy it did not inherit is well formed. */
  ghost predicate SoundStep(s: Server, s': Server) {
    && RowsOk(s'.rows) && KeepsTasks(s.rows, s'.rows)
    && forall h <- s'.pending ::
         (h in s.pending && s'.pending[h] == s.pending[h]) || PendingOk(s'.rows, s'.pending[h])
  }

  lemma SoundStepSurvives(s: Server, s': Server)
    requires Survives(s) && SoundStep(s, s')
    ensures Survives(s')
  {
    forall h <- s'.pending ensures PendingOk(s'.rows, s'.pending[h]) {
      if h in s.pending && s'.pending[h] == s.pending[h] {
        KeptCopies(s.rows, s'.rows, s.pending[h]);
      }
    }
  }

  lemma InsertSurvives(rows: Rows, task: Task)
    requires RowsOk(rows) && CanInsert(rows, task) && HasHolder(task)
    ensures RowsOk(rows[task.id := task]) && KeepsTasks(rows, rows[task.id := task])
  {
  }

  lemma StartAddIsSound(s: Server, e: Step)
    requires Survives(s) && e.StartAdd? && e.h !in s.pending
    ensures SoundStep(s, Start(s, e))
  {
    var task := Queue(e.id, e.url, e.team, e.device, e.createdAt);
    if CanInsert(s.rows, task) {
      InsertSurvives(s.rows, task);
      assert PendingOk(s.rows[task.id := task], Adding(task));
    }
  }

  lemma StartIsSound(s: Server, e: Step)
    requires Survives(s) && (e.StartAdd? || e.StartModify? || e.StartSweep?)
    ensures SoundStep(s, Start(s, e))
  {
    if e.h !in s.pending {
      if e.StartAdd? {
        StartAddIsSound(s, e);
      } else if e.StartModify? {
        assert Start(s, e).rows == s.rows;
      } else {
        CopiesAreHeld(s.rows, e.team, e.ids);
        assert Start(s, e).rows == s.rows;
      }
    }
  }

  lemma EndAddIsSound(s: Server, h: HandlerId, owner: Option<Uuid>, at: Time)
    requires Survives(s) && h in s.pending && s.pending[h].Adding?
    ensures SoundStep(s, EndAdd(s, h, owner, at))
  {
    if owner.Some? {
      UpdateSurvives(s.rows, Assigned(s.pending[h].task, owner.value, at));
    }
  }

  lemma EndModifyIsSound(s: Server, h: HandlerId)
    requires Survives(s) && h in s.pending && s.pending[h].Writing?
    ensures SoundStep(s, EndModify(s, h))
  {
    var p := s.pending[h];
    assert PendingOk(s.rows, p);
    UpdateSurvives(s.rows, Modified(p.read, p.device, p.request, p.at));
  }

  lemma RestIsOk(rows: Rows, team: Uuid, at: Time, todo: seq<Task>)
    requires PendingOk(rows, Sweeping(team, at, todo)) && todo != []
    ensures PendingOk(rows, Sweeping(team, at, todo[1..]))
  {
  }

  lemma ContinueSweepIsSound(s: Server, h: HandlerId)
    requires Survives(s) && h in s.pending && s.pending[h].Sweeping?
    ensures SoundStep(s, ContinueSweep(s, h))
  {
    var p := s.pending[h];
    assert PendingOk(s.rows, p);
    if p.todo != [] {
      var rest := Sweeping(p.team, p.at, p.todo[1..]);
      RestIsOk(s.rows, p.team, p.at, p.todo);
      if Expired(p.todo[0], p.at) {
        ReleaseSurvives(s.rows, p.todo[0].id);
        KeptCopies(s.rows, Release(s.rows, p.todo[0].id), rest);
      }
    }
  }

  lemma NextSurvives(s: Server, e: Step)
    requires Survives(s)
    ensures Survives(Next(s, e)) && KeepsTasks(s.rows, Next(s, e).rows)
  {
    match e {
      case FinishAdd(h, owner, at) =>
        if h in s.pending && s.pending[h].Adding? { EndAddIsSound(s, h, owner, at); }
      case FinishModify(h) =>
        if h in s.pending && s.pending[h].Writing? { EndModifyIsSound(s, h); }
      case SweepNext(h) =>
        if h in s.pending && s.pending[h].Sweeping? { ContinueSweepIsSound(s, h); }
      case _ => StartIsSound(s, e);
    }
    SoundStepSurvives(s, Next(s, e));
  }

  lemma {:induction false} RunSurvives(s: Server, es: seq<Step>)
    requires Survives(s)
    ensures Survives(Run(s, es)) && KeepsTasks(s.rows, Run(s, es).rows)
    decreases |es|
  {
    if es != [] {
      NextSurvives(s, es[0]);
      RunSurvives(Next(s, es[0]), es[1..]);
    }
  }

  /**
   * However database calls interleave: a task is Queued exactly when nobody holds it and
   * exactly when it has no claim time, is never New or Failed, keeps its identity from then
   * on, and shares its URL with no other; and the same holds of every copy a handler holds.
   */
  lemma AnyInterleavingIsSound(es: seq<Step>, more: seq<Step>)
    ensures Survives(Run(Idle, es))
    ensures KeepsTasks(Run(Idle, es).rows, Run(Run(Idle, es), more).rows)
  {
    RunSurvives(Idle, es);
    RunSurvives(Run(Idle, es), more);
  }

  // ---------- what does not ----------

  /** Two devices read the same queued task; the slower one writes after the faster finished. */
  const Race: seq<Step> := [
    StartAdd(0, 1, 7, 5, "url", 0, 0),
    FinishAdd(0, None, 0),
    StartModify(1, 1, 7, 5, Claim, 10),
    StartModify(2, 2, 7, 5, Claim, 11),
    FinishModify(1),
    StartModify(3, 1, 7, 5, Finish("file", 9), 12),
    FinishModify(3)
  ]

  const StaleWrite := FinishModify(2)

  lemma RunFirst(s: Server, e: Step, es: seq<Step>)
    ensures Run(s, [e] + es) == Run(Next(s, e), es)
  {
    assert ([e] + es)[1..] == es;
  }

  /** The first device holds the task; the second still means to claim it. */
  lemma RaceClaims() returns (s: Server)
    ensures s == Run(Idle, Race[..5])
    ensures s.rows == map[5 := Modified(Queue(5, "url", 7, 1, 0), 1, Claim, 10)]
    ensures s.pending == map[2 := Writing(Queue(5, "url", 7, 1, 0), 2, Claim, 11)]
    ensures |s.log| == 2 && s.log[0].msg.TaskAdded? && s.log[1] == Sent(10, ToTeam(7), TaskClaimed(5, 1))
  {
    var es := Race[..5];
    var s1 := Next(Idle, es[0]);
    var s2 := Next(s1, es[1]);
    var s3 := Next(s2, es[2]);
    var s4 := Next(s3, es[3]);
    s := Next(s4, es[4]);
    assert es[..] == [es[0], es[1], es[2], es[3], es[4]];
    RunFirst(Idle, es[0], [es[1], es[2], es[3], es[4]]);
    RunFirst(s1, es[1], [es[2], es[3], es[4]]);
    RunFirst(s2, es[2], [es[3], es[4]]);
    RunFirst(s3, es[3], [es[4]]);
    RunFirst(s4, es[4], []);
  }

  lemma {:induction false} RunConcat(s: Server, es: seq<Step>, more: seq<Step>)
    ensures Run(s, es + more) == Run(Run(s, es), more)
    decreases |es|
  {
    if es == [] {
      assert es + more == more;
    } else {
      assert (es + more)[1..] == es[1..] + more;
      RunConcat(Next(s, es[0]), es[1..], more);
    }
  }

  /** Then the first device completes it. */
  lemma RaceEnds(before: Server) returns (started: Server, s: Server)
    requires before.rows == map[5 := Modified(Queue(5, "url", 7, 1, 0), 1, Claim, 10)]
    requires before.pending == map[2 := Writing(Queue(5, "url", 7, 1, 0), 2, Claim, 11)]
    ensures started == Next(before, Race[5]) && s == Next(started, Race[6])
    ensures 5 in s.rows && s.rows[5].status == Complete && s.rows[5].claimedBy == Some(1) && s.rows[5].version == 3
    ensures s.pending == before.pending
    ensures |s.log| == |before.log| + 1 && s.log[..|before.log|] == before.log && s.log[|before.log|].msg.TaskUpdated?
  {
    started := Next(before, Race[5]);
    s := Next(started, Race[6]);
  }

  lemma RaceCompletes() returns (s: Server)
    ensures s == Run(Idle, Race)
    ensures 5 in s.rows && s.rows[5].status == Complete && s.rows[5].claimedBy == Some(1) && s.rows[5].version == 3
    ensures s.pending == map[2 := Writing(Queue(5, "url", 7, 1, 0), 2, Claim, 11)]
    ensures |s.log| == 3 && s.log[1] == Sent(10, ToTeam(7), TaskClaimed(5, 1)) && s.log[2].msg.TaskUpdated?
  {
    var before := RaceClaims();
    var started;
    started, s := RaceEnds(before);
    assert s.log[1] == s.log[..|before.log|][1];
    assert Race == Race[..5] + [Race[5], Race[6]];
    RunConcat(Idle, Race[..5], [Race[5], Race[6]]);
    RunFirst(before, Race[5], [Race[6]]);
    RunFirst(started, Race[6], []);
  }

  /**
   * Exclusive claims, the finality of Complete and growing versions all fail between database
   * calls: the stale write grants the task again with no release in the log, takes it out of
   * Complete and lowers its version.
   */
  lemma StaleWritesBreakLeases()
    ensures var before := Run(Idle, Race);
            var after := Next(before, StaleWrite);
            && 5 in before.rows && 5 in after.rows
            && before.rows[5].status == Complete && after.rows[5].status == Claimed
            && before.rows[5].claimedBy == Some(1) && after.rows[5].claimedBy == Some(2)
            && after.rows[5].version < before.rows[5].version
            && |after.log| == 4 && IsGrant(after.log[1], 5) && IsGrant(after.log[3], 5)
            && !IsRelease(after.log[2], 5)
  {
    var s := RaceCompletes();
  }
}
