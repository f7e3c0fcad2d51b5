/**
 * When every write is the one the whole handler would make at that moment, the interleaved
 * protocol is the atomic one: each handler takes effect in one piece at its last database call.
 */
module Linearization {
  import opened Types
  import opened TaskTable
  import opened Lease
  import opened LeaseTheorems
  import opened Interleaving

  type Handlers = map<HandlerId, Pending>

  predicate Adds(p: Pending, id: Uuid) {
    p.Adding? && p.task.id == id
  }

  predicate BeingAdded(pending: Handlers, id: Uuid) {
    exists h <- pending :: Adds(pending[h], id)
  }

  /** A copy without the columns that the request sets; those it keeps must not be stale. */
  function Kept(t: Task, request: Request): Task {
    match request
    case Claim => t.(status := Claimed, claimedBy := None, claimedAt := None)
    case Progress(_) => t.(progress := 0.0)
    case Finish(_, _) => t.(status := Complete, localPath := None, fileSize := None, progress := 0.0)
  }

  /** The request is still permitted, and whatever it keeps of its copy is still in the row. */
  predicate Undisturbed(row: Task, read: Task, device: Uuid, request: Request) {
    Permitted(row, device, request) && Kept(row, request) == Kept(read, request)
  }

  /** The step writes only to an announced row, undisturbed, and releases only what is overdue. */
  predicate Fresh(s: Server, e: Step) {
    match e
    case FinishModify(h) =>
      h in s.pending && s.pending[h].Writing? ==>
        var p := s.pending[h];
        !BeingAdded(s.pending, p.read.id) && p.read.id in s.rows
        && Undisturbed(s.rows[p.read.id], p.read, p.device, p.request)
    case SweepNext(h) =>
      h in s.pending && s.pending[h].Sweeping? && s.pending[h].todo != [] ==>
        var id := s.pending[h].todo[0].id;
        Expired(s.pending[h].todo[0], s.pending[h].at) ==>
          id in s.rows && s.rows[id].status == Claimed && Expired(s.rows[id], s.pending[h].at)
    case _ => true
  }

  ghost predicate AllFresh(s: Server, es: seq<Step>)
    decreases |es|
  {
    es != [] ==> Fresh(s, es[0]) && AllFresh(Next(s, es[0]), es[1..])
  }

  /** The whole handlers a step completes: at most one. */
  function Effect(s: Server, e: Step): seq<Event> {
    match e
    case FinishAdd(h, owner, at) =>
      if h in s.pending && s.pending[h].Adding? then
        var t := s.pending[h].task;
        [Add(t.createdBy, t.teamId, t.id, t.url, t.createdAt, owner, at)]
      else []
    case FinishModify(h) =>
      if h in s.pending && s.pending[h].Writing? then
        var p := s.pending[h];
        [Modify(p.device, p.read.teamId, p.read.id, p.request, p.at)]
      else []
    case SweepNext(h) =>
      if h in s.pending && s.pending[h].Sweeping? && s.pending[h].todo != []
         && Expired(s.pending[h].todo[0], s.pending[h].at)
      then [Timeout(s.pending[h].team, s.pending[h].todo[0].id, s.pending[h].at)]
      else []
    case _ => []
  }

  ghost function Effects(s: Server, es: seq<Step>): seq<Event>
    decreases |es|
  {
    if es == [] then [] else Effect(s, es[0]) + Effects(Next(s, es[0]), es[1..])
  }

  /** The rows whose add handler has finished. */
  function Announced(rows: Rows, pending: Handlers): Rows {
    map id | id in rows && !BeingAdded(pending, id) :: rows[id]
  }

  /** What the log says to teams, leaving out replies to single devices. */
  function Broadcasts(log: seq<Sent>): seq<Sent> {
    if log == [] then []
    else
      var last := log[|log| - 1];
      Broadcasts(log[..|log| - 1]) + if last.to.ToTeam? then [last] else []
  }

  predicate Matches(s: Server, a: State) {
    a.rows == Announced(s.rows, s.pending) && Broadcasts(a.log) == Broadcasts(s.log)
  }

  predicate AddOwned(rows: Rows, p: Pending) {
    p.Adding? ==>
      var t := p.task;
      t.id in rows && rows[t.id] == t && t == Queue(t.id, t.url, t.teamId, t.createdBy, t.createdAt)
  }

  /** A task being added is still as its handler inserted it, and has one handler. */
  ghost predicate AddsAreOwned(rows: Rows, pending: Handlers) {
    && (forall h <- pending :: AddOwned(rows, pending[h]))
    && (forall h <- pending, g <- pending, id: Uuid | Adds(pending[h], id) && Adds(pending[g], id) :: h == g)
  }

  lemma Append(log: seq<Sent>, e: Sent)
    ensures Broadcasts(log + [e]) == Broadcasts(log) + if e.to.ToTeam? then [e] else []
  {
    assert (log + [e])[..|log|] == log;
  }

  lemma AddedNow(pending: Handlers, h: HandlerId, p: Pending, id: Uuid)
    requires h in pending ==> !pending[h].Adding?
    ensures BeingAdded(pending[h := p], id) <==> BeingAdded(pending, id) || Adds(p, id)
  {
    var after := pending[h := p];
    if BeingAdded(pending, id) {
      var g :| g in pending && Adds(pending[g], id);
      assert g in after && Adds(after[g], id);
    }
    if Adds(p, id) {
      assert h in after && Adds(after[h], id);
    }
  }

  lemma AddedNoMore(rows: Rows, pending: Handlers, h: HandlerId, id: Uuid)
    requires AddsAreOwned(rows, pending) && h in pending
    ensures BeingAdded(pending - {h}, id) <==> BeingAdded(pending, id) && !Adds(pending[h], id)
  {
    var after := pending - {h};
    if BeingAdded(pending, id) && !Adds(pending[h], id) {
      var g :| g in pending && Adds(pending[g], id);
      assert g in after && Adds(after[g], id);
    }
  }

  lemma AddRowIsPending(rows: Rows, pending: Handlers, id: Uuid)
    requires AddsAreOwned(rows, pending) && BeingAdded(pending, id)
    ensures id in rows && rows[id].status == Queued && rows[id].claimedBy == None
  {
  }

  /** Handlers that are not adding a task come and go without being noticed. */
  lemma SilentHandler(rows: Rows, pending: Handlers, h: HandlerId, p: Pending)
    requires AddsAreOwned(rows, pending) && !p.Adding? && (h in pending ==> !pending[h].Adding?)
    ensures AddsAreOwned(rows, pending[h := p])
    ensures Announced(rows, pending[h := p]) == Announced(rows, pending)
  {
    forall id: Uuid ensures BeingAdded(pending[h := p], id) == BeingAdded(pending, id) {
      AddedNow(pending, h, p, id);
    }
  }

  lemma SilentEnd(rows: Rows, pending: Handlers, h: HandlerId)
    requires AddsAreOwned(rows, pending) && h in pending && !pending[h].Adding?
    ensures AddsAreOwned(rows, pending - {h})
    ensures Announced(rows, pending - {h}) == Announced(rows, pending)
  {
    forall id: Uuid ensures BeingAdded(pending - {h}, id) == BeingAdded(pending, id) {
      AddedNoMore(rows, pending, h, id);
    }
  }

  lemma InsertedRow(rows: Rows, pending: Handlers, h: HandlerId, task: Task)
    requires AddsAreOwned(rows, pending) && h !in pending && task.id !in rows
    requires task == Queue(task.id, task.url, task.teamId, task.createdBy, task.createdAt)
    ensures AddsAreOwned(rows[task.id := task], pending[h := Adding(task)])
    ensures Announced(rows[task.id := task], pending[h := Adding(task)]) == Announced(rows, pending)
  {
    var after := pending[h := Adding(task)];
    forall id: Uuid ensures BeingAdded(after, id) <==> BeingAdded(pending, id) || id == task.id {
      AddedNow(pending, h, Adding(task), id);
    }
    forall g <- pending, id: Uuid | Adds(pending[g], id) ensures id in rows {
      assert AddOwned(rows, pending[g]);
    }
  }

  ghost predicate Unnoticed(s: Server, s': Server) {
    && AddsAreOwned(s'.rows, s'.pending)
    && Announced(s'.rows, s'.pending) == Announced(s.rows, s.pending)
    && Broadcasts(s'.log) == Broadcasts(s.log)
  }

  lemma ReplyIsUnnoticed(s: Server, at: Time, device: Uuid, msg: ServerMessage)
    requires AddsAreOwned(s.rows, s.pending)
    ensures Unnoticed(s, Tell(s, at, ToDevice(device), msg))
  {
    Append(s.log, Sent(at, ToDevice(device), msg));
  }

  lemma StartAddIsUnnoticed(s: Server, e: Step)
    requires AddsAreOwned(s.rows, s.pending) && e.StartAdd?
    ensures Unnoticed(s, Start(s, e))
  {
    if e.h !in s.pending {
      var task := Queue(e.id, e.url, e.team, e.device, e.createdAt);
      if CanInsert(s.rows, task) {
        InsertedRow(s.rows, s.pending, e.h, task);
      } else {
        ReplyIsUnnoticed(s, e.at, e.device, Error("URL already exists"));
      }
    }
  }

  lemma StartModifyIsUnnoticed(s: Server, e: Step)
    requires AddsAreOwned(s.rows, s.pending) && e.StartModify?
    ensures Unnoticed(s, Start(s, e))
  {
    if e.h !in s.pending {
      if !InTeam(s.rows, e.team, e.id) {
        ReplyIsUnnoticed(s, e.at, e.device, Error("Task not found"));
      } else if !Permitted(s.rows[e.id], e.device, e.request) {
        ReplyIsUnnoticed(s, e.at, e.device, Error("Task not available"));
      } else {
        SilentHandler(s.rows, s.pending, e.h, Writing(s.rows[e.id], e.device, e.request, e.at));
      }
    }
  }

  /** Until its last database call a handler has no effect. */
  lemma StartIsUnnoticed(s: Server, e: Step)
    requires AddsAreOwned(s.rows, s.pending) && (e.StartAdd? || e.StartModify? || e.StartSweep?)
    ensures Unnoticed(s, Start(s, e))
  {
    if e.StartAdd? {
      StartAddIsUnnoticed(s, e);
    } else if e.StartModify? {
      StartModifyIsUnnoticed(s, e);
    } else if e.h !in s.pending {
      SilentHandler(s.rows, s.pending, e.h, Sweeping(e.team, e.at, ClaimedCopies(s.rows, e.team, e.ids)));
    }
  }

  lemma AnnouncedRow(rows: Rows, pending: Handlers, h: HandlerId, row: Task)
    requires AddsAreOwned(rows, pending) && h in pending && pending[h].Adding? && pending[h].task.id == row.id
    ensures AddsAreOwned(rows[row.id := row], pending - {h})
    ensures Announced(rows[row.id := row], pending - {h}) == Announced(rows, pending)[row.id := row]
    ensures row.id !in Announced(rows, pending)
  {
    var after := pending - {h};
    forall id: Uuid ensures BeingAdded(after, id) <==> BeingAdded(pending, id) && id != row.id {
      AddedNoMore(rows, pending, h, id);
    }
    forall g <- after ensures AddOwned(rows[row.id := row], after[g]) {
      assert AddOwned(rows, pending[g]);
      assert Adds(pending[h], row.id);
    }
    assert BeingAdded(pending, row.id);
  }

  lemma WrittenRow(rows: Rows, pending: Handlers, row: Task)
    requires AddsAreOwned(rows, pending) && row.id in rows && !BeingAdded(pending, row.id)
    ensures AddsAreOwned(rows[row.id := row], pending)
    ensures Announced(rows[row.id := row], pending) == Announced(rows, pending)[row.id := row]
  {
    forall g <- pending ensures AddOwned(rows[row.id := row], pending[g]) {
      assert AddOwned(rows, pending[g]);
    }
  }

  // ---------- the last database call of each handler ----------

  /** Both logs grow by the same broadcast. */
  lemma BothTell(s: Server, a: State, s': Server, rows: Rows, sent: Sent)
    requires Matches(s, a) && s'.log == s.log + [sent] && rows == Announced(s'.rows, s'.pending)
    ensures Matches(s', State(rows, a.log + [sent]))
  {
    Append(s.log, sent);
    Append(a.log, sent);
  }

  lemma EndAddLinearizes(s: Server, a: State, h: HandlerId, owner: Option<Uuid>, at: Time)
    requires RowsOk(s.rows) && AddsAreOwned(s.rows, s.pending) && Matches(s, a)
    requires h in s.pending && s.pending[h].Adding?
    ensures var s' := EndAdd(s, h, owner, at);
            var t := s.pending[h].task;
            && AddsAreOwned(s'.rows, s'.pending)
            && Matches(s', Apply(a, Add(t.createdBy, t.teamId, t.id, t.url, t.createdAt, owner, at)))
  {
    var t := s.pending[h].task;
    var s' := EndAdd(s, h, owner, at);
    assert AddOwned(s.rows, s.pending[h]);
    var row := if owner.Some? then Assigned(t, owner.value, at) else t;
    AnnouncedRow(s.rows, s.pending, h, row);
    assert s'.rows == s.rows[t.id := row];
    assert CanInsert(a.rows, t);
    WholeAdd(a, t, owner, at);
    var added := Sent(at, ToTeam(t.teamId), TaskAdded(row));
    if owner.Some? {
      var direct := Sent(at, ToDevice(owner.value), TaskClaimed(t.id, owner.value));
      Append(s.log, direct);
      Append(a.log, direct);
      BothTell(s.(log := s.log + [direct]), a.(log := a.log + [direct]), s', a.rows[t.id := row], added);
    } else {
      BothTell(s, a, s', a.rows[t.id := row], added);
    }
  }

  lemma WholeModify(a: State, read: Task, device: Uuid, request: Request, at: Time)
    requires read.id in a.rows && a.rows[read.id] == read && Permitted(read, device, request)
    ensures var row := Modified(read, device, request, at);
            Apply(a, Modify(device, read.teamId, read.id, request, at)) ==
            State(a.rows[read.id := row], a.log + [Sent(at, ToTeam(read.teamId), Announcement(row, device, request))])
  {
    var row := Modified(read, device, request, at);
    assert Overwrite(read, row) == row;
  }

  lemma WholeTimeout(a: State, row: Task, at: Time)
    requires row.id in a.rows && a.rows[row.id] == row && row.status == Claimed && Expired(row, at)
    ensures Apply(a, Timeout(row.teamId, row.id, at)) ==
            State(a.rows[row.id := Released(row)],
                  a.log + [Sent(at, ToTeam(row.teamId), TaskReleased(row.id, "timeout"))])
  {
  }

  lemma UndisturbedCopy(row: Task, read: Task, device: Uuid, request: Request, at: Time)
    requires Undisturbed(row, read, device, request)
    ensures Modified(row, device, request, at) == Modified(read, device, request, at)
  {
  }

  lemma EndModifyLinearizes(s: Server, a: State, h: HandlerId)
    requires Survives(s) && AddsAreOwned(s.rows, s.pending) && Matches(s, a) && Fresh(s, FinishModify(h))
    requires h in s.pending && s.pending[h].Writing?
    ensures var s' := EndModify(s, h);
            var p := s.pending[h];
            && AddsAreOwned(s'.rows, s'.pending)
            && Matches(s', Apply(a, Modify(p.device, p.read.teamId, p.read.id, p.request, p.at)))
  {
    var p := s.pending[h];
    assert PendingOk(s.rows, p);
    var before := s.rows[p.read.id];
    var row := Modified(before, p.device, p.request, p.at);
    UndisturbedCopy(before, p.read, p.device, p.request, p.at);
    var sent := Sent(p.at, ToTeam(p.read.teamId), Announcement(row, p.device, p.request));
    SilentEnd(s.rows, s.pending, h);
    AddedNoMore(s.rows, s.pending, h, row.id);
    WrittenRow(s.rows, s.pending - {h}, row);
    assert Update(s.rows, row) == s.rows[row.id := row] by {
      assert Overwrite(before, row) == row;
    }
    WholeModify(a, before, p.device, p.request, p.at);
    BothTell(s, a, EndModify(s, h), a.rows[row.id := row], sent);
  }

  lemma ReleaseMatches(s: Server, a: State, h: HandlerId, rest: Pending, row: Task, sent: Sent)
    requires AddsAreOwned(s.rows, s.pending) && Matches(s, a)
    requires !rest.Adding? && (h in s.pending ==> !s.pending[h].Adding?)
    requires row.id in s.rows && s.rows[row.id] == row && row.status == Claimed
    ensures var s' := Server(s.rows[row.id := Released(row)], s.log + [sent], s.pending[h := rest]);
            && row.id in a.rows && a.rows[row.id] == row
            && AddsAreOwned(s'.rows, s'.pending)
            && Matches(s', State(a.rows[row.id := Released(row)], a.log + [sent]))
  {
    if BeingAdded(s.pending, row.id) {
      AddRowIsPending(s.rows, s.pending, row.id);
    }
    SilentHandler(s.rows, s.pending, h, rest);
    AddedNow(s.pending, h, rest, row.id);
    WrittenRow(s.rows, s.pending[h := rest], Released(row));
    Append(s.log, sent);
    Append(a.log, sent);
  }

  lemma ReleaseLinearizes(s: Server, a: State, h: HandlerId)
    requires Survives(s) && AddsAreOwned(s.rows, s.pending) && Matches(s, a) && Fresh(s, SweepNext(h))
    requires h in s.pending && s.pending[h].Sweeping? && s.pending[h].todo != []
    requires Expired(s.pending[h].todo[0], s.pending[h].at)
    ensures var s' := ContinueSweep(s, h);
            var p := s.pending[h];
            && AddsAreOwned(s'.rows, s'.pending)
            && Matches(s', Apply(a, Timeout(p.team, p.todo[0].id, p.at)))
  {
    var p := s.pending[h];
    assert PendingOk(s.rows, p);
    var row := s.rows[p.todo[0].id];
    var sent := Sent(p.at, ToTeam(p.team), TaskReleased(row.id, "timeout"));
    ReleaseMatches(s, a, h, Sweeping(p.team, p.at, p.todo[1..]), row, sent);
    WholeTimeout(a, row, p.at);
  }

  lemma RunOne(a: State, e: Event)
    ensures Lease.Run(a, [e]) == Apply(a, e)
  {
    assert [e][1..] == [];
  }

  lemma SweepLinearizes(s: Server, a: State, h: HandlerId)
    requires Survives(s) && AddsAreOwned(s.rows, s.pending) && Matches(s, a) && Fresh(s, SweepNext(h))
    requires h in s.pending && s.pending[h].Sweeping?
    ensures var s' := ContinueSweep(s, h);
            && AddsAreOwned(s'.rows, s'.pending)
            && Matches(s', Lease.Run(a, Effect(s, SweepNext(h))))
  {
    var p := s.pending[h];
    if p.todo == [] {
      SilentEnd(s.rows, s.pending, h);
    } else if Expired(p.todo[0], p.at) {
      ReleaseLinearizes(s, a, h);
      RunOne(a, Timeout(p.team, p.todo[0].id, p.at));
    } else {
      SilentHandler(s.rows, s.pending, h, Sweeping(p.team, p.at, p.todo[1..]));
    }
  }

  /** A step of the interleaved protocol is zero or one step of the atomic one. */
  lemma StepLinearizes(s: Server, a: State, e: Step)
    requires Survives(s) && AddsAreOwned(s.rows, s.pending) && Matches(s, a) && Fresh(s, e)
    ensures AddsAreOwned(Next(s, e).rows, Next(s, e).pending)
    ensures Matches(Next(s, e), Lease.Run(a, Effect(s, e)))
  {
    match e
    case FinishAdd(h, owner, at) =>
      if h in s.pending && s.pending[h].Adding? {
        EndAddLinearizes(s, a, h, owner, at);
        RunOne(a, Effect(s, e)[0]);
      }
    case FinishModify(h) =>
      if h in s.pending && s.pending[h].Writing? {
        EndModifyLinearizes(s, a, h);
        RunOne(a, Effect(s, e)[0]);
      }
    case SweepNext(h) =>
      if h in s.pending && s.pending[h].Sweeping? {
        SweepLinearizes(s, a, h);
      }
    case _ => StartIsUnnoticed(s, e);
  }

  lemma {:induction false} RunLinearizes(s: Server, a: State, es: seq<Step>)
    requires Survives(s) && AddsAreOwned(s.rows, s.pending) && Matches(s, a) && AllFresh(s, es)
    ensures Matches(Interleaving.Run(s, es), Lease.Run(a, Effects(s, es)))
    decreases |es|
  {
    if es != [] {
      StepLinearizes(s, a, es[0]);
      NextSurvives(s, es[0]);
      Lease.RunConcat(a, Effect(s, es[0]), Effects(Next(s, es[0]), es[1..]));
      RunLinearizes(Next(s, es[0]), Lease.Run(a, Effect(s, es[0])), es[1..]);
    }
  }

  /**
   * Any interleaving of database calls without a stale write yields the announced rows and
   * the broadcasts, in order and with the same times, of a run of whole handlers.
   */
  lemma FreshRunsAreAtomic(es: seq<Step>)
    requires AllFresh(Idle, es)
    ensures var s := Interleaving.Run(Idle, es);
            var a := Lease.Run(Initial, Effects(Idle, es));
            a.rows == Announced(s.rows, s.pending) && Broadcasts(a.log) == Broadcasts(s.log)
  {
    RunLinearizes(Idle, Initial, es);
  }

  lemma {:induction false} BroadcastsDiscipline(log: seq<Sent>, id: Uuid)
    ensures LeaseStart(Broadcasts(log), id) == LeaseStart(log, id)
    ensures Disciplined(Broadcasts(log), id) == Disciplined(log, id)
    decreases |log|
  {
    if log != [] {
      var before := log[..|log| - 1];
      var last := log[|log| - 1];
      assert log == before + [last];
      assert Broadcasts(before) + [] == Broadcasts(before);
      BroadcastsDiscipline(before, id);
      SendReads(before, last, id);
      SendReads(Broadcasts(before), last, id);
    }
  }

  /** So exclusive five-minute leases hold of every interleaving without a stale write. */
  lemma FreshRunsKeepLeases(es: seq<Step>, id: Uuid)
    requires AllFresh(Idle, es)
    ensures Disciplined(Interleaving.Run(Idle, es).log, id)
  {
    FreshRunsAreAtomic(es);
    var a := Lease.Run(Initial, Effects(Idle, es));
    Reachable(Effects(Idle, es));
    assert AgreesOn(a, id);
    BroadcastsDiscipline(a.log, id);
    BroadcastsDiscipline(Interleaving.Run(Idle, es).log, id);
  }

  // ---------- exactly when one write is atomic ----------

  /** The table and the log after a handler writes and announces what it made of its copy. */
  function Written(rows: Rows, log: seq<Sent>, read: Task, device: Uuid, request: Request, at: Time): State {
    var copy := Modified(read, device, request, at);
    State(Update(rows, copy), log + [Sent(at, ToTeam(read.teamId), Announcement(copy, device, request))])
  }

  /**
   * A write does what the whole handler would do at that moment exactly when the request is
   * still permitted and the columns it keeps have not changed since they were read.
   */
  lemma WriteIsAtomicIffUndisturbed(
      rows: Rows, log: seq<Sent>, read: Task, device: Uuid, request: Request, at: Time)
    requires RowsOk(rows) && Held(rows, read) && Permitted(read, device, request)
    ensures Written(rows, log, read, device, request, at) ==
            Apply(State(rows, log), Modify(device, read.teamId, read.id, request, at)) <==>
            Undisturbed(rows[read.id], read, device, request)
  {
    var row := rows[read.id];
    var written := Written(rows, log, read, device, request, at);
    var whole := Apply(State(rows, log), Modify(device, read.teamId, read.id, request, at));
    if !Permitted(row, device, request) {
      assert |written.log| == |log| + 1;
      assert request.Claim? ==> whole.log[|log|].msg.Error?;
      assert request.Claim? ==> written.log[|log|].msg.TaskClaimed?;
    } else {
      var copy, now := Modified(read, device, request, at), Modified(row, device, request, at);
      assert written.rows[read.id] == Overwrite(row, copy);
      assert whole.rows[read.id] == Overwrite(row, now) == now;
      if Undisturbed(row, read, device, request) {
        UndisturbedCopy(row, read, device, request, at);
      }
    }
  }

  /** A claim keeps or requires every column, so its copy must be the row itself. */
  lemma ClaimIsAtomicIffFresh(rows: Rows, log: seq<Sent>, read: Task, device: Uuid, at: Time)
    requires RowsOk(rows) && Held(rows, read) && read.status == Queued
    ensures Written(rows, log, read, device, Claim, at) ==
            Apply(State(rows, log), Modify(device, read.teamId, read.id, Claim, at)) <==>
            rows[read.id] == read
  {
    WriteIsAtomicIffUndisturbed(rows, log, read, device, Claim, at);
    var row := rows[read.id];
    if Undisturbed(row, read, device, Claim) {
      assert row.progress == Kept(row, Claim).progress == read.progress;
      assert row.localPath == Kept(row, Claim).localPath == read.localPath;
      assert row.fileSize == Kept(row, Claim).fileSize == read.fileSize;
      assert row.version == Kept(row, Claim).version == read.version;
    }
  }

  /** A release, which rests on a copy too, is atomic exactly when the row itself is overdue. */
  lemma ReleaseIsAtomicIffOverdue(rows: Rows, log: seq<Sent>, copy: Task, at: Time)
    requires RowsOk(rows) && Held(rows, copy)
    ensures State(Release(rows, copy.id), log + [Sent(at, ToTeam(copy.teamId), TaskReleased(copy.id, "timeout"))]) ==
            Apply(State(rows, log), Timeout(copy.teamId, copy.id, at)) <==>
            Overdue(rows[copy.id], copy.teamId, at)
  {
    var whole := Apply(State(rows, log), Timeout(copy.teamId, copy.id, at));
    assert !Overdue(rows[copy.id], copy.teamId, at) ==> whole.log == log;
  }
}
