/**
 * What stale copies put at risk, and exactly when. Four guarantees hold of whole handlers:
 * leases are exclusive and last, a Complete task stays as it is, versions never fall, and they
 * count the changes. For each, a run of interleaved database calls keeps it throughout exactly
 * when every write of the run passes a test that could be made on the row just before it.
 */
module StaleWrites {
  import opened Types
  import opened TaskTable
  import opened Lease
  import opened LeaseTheorems
  import opened Interleaving
  import opened Linearization

  datatype Guarantee = Leases | Finality | Growth | Counting

  // ---------- what a guarantee says ----------

  /** The log obeys the rules of leases, and the table holds the lease that the log tells of. */
  ghost predicate TellsLeases(rows: Rows, log: seq<Sent>) {
    forall id: Uuid :: Disciplined(log, id) && LeaseStart(log, id) == HeldSince(rows, id)
  }

  ghost predicate CountsChanges(rows: Rows, log: seq<Sent>) {
    forall id: Uuid :: Changes(log, id) == ChangesIn(rows, id)
  }

  predicate StaysComplete(before: Task, after: Task) {
    before.status == Complete ==>
      after.status == Complete && after.claimedBy == before.claimedBy && after.claimedAt == before.claimedAt
  }

  /** A step from one state to the next keeps the guarantee. */
  ghost predicate Keeps(g: Guarantee, s: Server, s': Server) {
    match g
    case Leases => TellsLeases(s'.rows, s'.log)
    case Finality => forall id <- s.rows :: id in s'.rows && StaysComplete(s.rows[id], s'.rows[id])
    case Growth => forall id <- s.rows :: id in s'.rows && s.rows[id].version <= s'.rows[id].version
    case Counting => CountsChanges(s'.rows, s'.log)
  }

  ghost predicate KeptThroughout(g: Guarantee, s: Server, es: seq<Step>)
    decreases |es|
  {
    es != [] ==> Keeps(g, s, Next(s, es[0])) && KeptThroughout(g, Next(s, es[0]), es[1..])
  }

  // ---------- the tests ----------

  predicate FiveMinutesOld(row: Task, now: Time) {
    row.claimedAt.Some? && now - row.claimedAt.value >= 300 * NANOS_PER_SECOND
  }

  /** Before the ring's grant of a task is written. */
  predicate MayGrant(g: Guarantee, row: Task, copy: Task) {
    match g
    case Leases => row.status == Queued
    case Finality => row.status != Complete
    case Growth => row.version <= copy.version
    case Counting => row.version == copy.version
  }

  /** Before what a request makes of its copy is written. */
  predicate MayWrite(g: Guarantee, row: Task, read: Task, device: Uuid, request: Request) {
    match g
    case Leases => if request.Claim? then row.status == Queued else row.claimedAt == read.claimedAt
    case Finality =>
      row.status == Complete ==>
        && !request.Claim? && row.claimedBy == Some(device) && row.claimedAt == read.claimedAt
        && (request.Finish? || read.status == Complete)
    case Growth => row.version <= read.version + 1
    case Counting => row.version == read.version
  }

  predicate MayRelease(g: Guarantee, row: Task, now: Time) {
    match g
    case Leases => FiveMinutesOld(row, now)
    case Finality => row.status != Complete
    case _ => true
  }

  predicate Releases(s: Server, h: HandlerId) {
    h in s.pending && s.pending[h].Sweeping? && s.pending[h].todo != []
    && Expired(s.pending[h].todo[0], s.pending[h].at)
  }

  /** The step writes nothing, or passes the test. */
  predicate Safe(g: Guarantee, s: Server, e: Step) {
    match e
    case FinishAdd(h, owner, _) =>
      h in s.pending && s.pending[h].Adding? && owner.Some? ==>
        var task := s.pending[h].task;
        task.id in s.rows && MayGrant(g, s.rows[task.id], task)
    case FinishModify(h) =>
      h in s.pending && s.pending[h].Writing? ==>
        var p := s.pending[h];
        p.read.id in s.rows && MayWrite(g, s.rows[p.read.id], p.read, p.device, p.request)
    case SweepNext(h) =>
      Releases(s, h) ==>
        var id := s.pending[h].todo[0].id;
        id in s.rows && MayRelease(g, s.rows[id], s.pending[h].at)
    case _ => true
  }

  ghost predicate AllSafe(g: Guarantee, s: Server, es: seq<Step>)
    decreases |es|
  {
    es != [] ==> Safe(g, s, es[0]) && AllSafe(g, Next(s, es[0]), es[1..])
  }

  // ---------- one write and one message ----------

  /** The new value of an existing row, if the step writes one. */
  function Overwritten(s: Server, e: Step): Option<Task>
    requires Survives(s)
  {
    match e
    case FinishAdd(h, owner, at) =>
      if h in s.pending && s.pending[h].Adding? && owner.Some? then
        var task := s.pending[h].task;
        assert PendingOk(s.rows, s.pending[h]);
        Some(Overwrite(s.rows[task.id], Assigned(task, owner.value, at)))
      else None
    case FinishModify(h) =>
      if h in s.pending && s.pending[h].Writing? then
        var p := s.pending[h];
        assert PendingOk(s.rows, p);
        Some(Overwrite(s.rows[p.read.id], Modified(p.read, p.device, p.request, p.at)))
      else None
    case SweepNext(h) =>
      if Releases(s, h) then
        assert PendingOk(s.rows, s.pending[h]);
        Some(Released(s.rows[s.pending[h].todo[0].id]))
      else None
    case _ => None
  }

  lemma SilentStep(s: Server, e: Step)
    requires Survives(s) && Overwritten(s, e) == None
    ensures forall id <- s.rows :: id in Next(s, e).rows && Next(s, e).rows[id] == s.rows[id]
    ensures forall id <- Next(s, e).rows :: HeldSince(Next(s, e).rows, id) == HeldSince(s.rows, id)
    ensures forall id <- Next(s, e).rows :: ChangesIn(Next(s, e).rows, id) == ChangesIn(s.rows, id)
  {
  }

  lemma WritingStep(s: Server, e: Step)
    requires Survives(s) && Overwritten(s, e).Some?
    ensures var row := Overwritten(s, e).value;
            row.id in s.rows && Next(s, e).rows == s.rows[row.id := row]
  {
    match e
    case FinishAdd(h, _, _) => assert PendingOk(s.rows, s.pending[h]);
    case FinishModify(h) => assert PendingOk(s.rows, s.pending[h]);
    case SweepNext(h) => assert PendingOk(s.rows, s.pending[h]);
  }

  /** What the step tells a team. */
  function Told(s: Server, e: Step): Option<Sent> {
    match e
    case FinishAdd(h, owner, at) =>
      if h in s.pending && s.pending[h].Adding? then
        var task := s.pending[h].task;
        var row := if owner.Some? then Assigned(task, owner.value, at) else task;
        Some(Sent(at, ToTeam(task.teamId), TaskAdded(row)))
      else None
    case FinishModify(h) =>
      if h in s.pending && s.pending[h].Writing? then
        var p := s.pending[h];
        var copy := Modified(p.read, p.device, p.request, p.at);
        Some(Sent(p.at, ToTeam(p.read.teamId), Announcement(copy, p.device, p.request)))
      else None
    case SweepNext(h) =>
      if Releases(s, h) then
        var p := s.pending[h];
        Some(Sent(p.at, ToTeam(p.team), TaskReleased(p.todo[0].id, "timeout")))
      else None
    case _ => None
  }

  function With(log: seq<Sent>, told: Option<Sent>): seq<Sent> {
    if told.Some? then log + [told.value] else log
  }

  /** Two logs say the same of a task's leases and changes. */
  ghost predicate ReadAlike(a: seq<Sent>, b: seq<Sent>, id: Uuid) {
    && Disciplined(a, id) == Disciplined(b, id)
    && LeaseStart(a, id) == LeaseStart(b, id)
    && Changes(a, id) == Changes(b, id)
  }

  lemma RepliesSayNothing(log: seq<Sent>, reply: Sent, id: Uuid)
    requires reply.to.ToDevice?
    ensures ReadAlike(log + [reply], log, id)
  {
    SendReads(log, reply, id);
  }

  lemma StillAlike(a: seq<Sent>, b: seq<Sent>, told: Sent, id: Uuid)
    requires ReadAlike(a, b, id)
    ensures ReadAlike(a + [told], b + [told], id)
  {
    SendReads(a, told, id);
    SendReads(b, told, id);
  }

  lemma StartReplies(s: Server, e: Step, id: Uuid)
    requires e.StartAdd? || e.StartModify? || e.StartSweep?
    ensures ReadAlike(Start(s, e).log, s.log, id)
  {
    var log := Start(s, e).log;
    if log != s.log {
      RepliesSayNothing(s.log, log[|s.log|], id);
      assert log == s.log + [log[|s.log|]];
    }
  }

  lemma GrantReplies(s: Server, h: HandlerId, owner: Uuid, at: Time, id: Uuid)
    requires h in s.pending && s.pending[h].Adding?
    ensures ReadAlike(EndAdd(s, h, Some(owner), at).log, With(s.log, Told(s, FinishAdd(h, Some(owner), at))), id)
  {
    var task := s.pending[h].task;
    var direct := Sent(at, ToDevice(owner), TaskClaimed(task.id, owner));
    RepliesSayNothing(s.log, direct, id);
    StillAlike(s.log + [direct], s.log, Told(s, FinishAdd(h, Some(owner), at)).value, id);
  }

  /** The log reads as if replies to single devices were not in it. */
  lemma LogReads(s: Server, e: Step, id: Uuid)
    ensures ReadAlike(Next(s, e).log, With(s.log, Told(s, e)), id)
  {
    match e
    case FinishAdd(h, owner, at) =>
      if h in s.pending && s.pending[h].Adding? && owner.Some? { GrantReplies(s, h, owner.value, at, id); }
    case FinishModify(_) =>
    case SweepNext(_) =>
    case _ => StartReplies(s, e, id);
  }

  // ---------- each test is exact ----------

  /** What a message about one task demands of that task's lease before and after it. */
  predicate LeaseGoes(held: Option<Time>, after: Option<Time>, told: Sent, id: Uuid) {
    if IsGrant(told, id) then held == None && after == Some(told.at)
    else if IsRelease(told, id) then
      held.Some? && told.at - held.value >= 300 * NANOS_PER_SECOND && after == None
    else after == held
  }

  ghost predicate SaysNothingElse(told: Sent, id: Uuid) {
    forall other: Uuid | other != id :: !IsGrant(told, other) && !IsRelease(told, other) && !IsChange(told, other)
  }

  lemma LeaseToldIff(rows: Rows, log: seq<Sent>, row: Task, told: Sent)
    requires TellsLeases(rows, log) && row.id in rows && SaysNothingElse(told, row.id)
    ensures TellsLeases(rows[row.id := row], log + [told]) <==>
            LeaseGoes(rows[row.id].claimedAt, row.claimedAt, told, row.id)
  {
    var after := rows[row.id := row];
    forall id: Uuid | id != row.id
      ensures Disciplined(log + [told], id) && LeaseStart(log + [told], id) == HeldSince(after, id)
    {
      SendReads(log, told, id);
    }
    SendReads(log, told, row.id);
    assert HeldSince(after, row.id) == row.claimedAt && HeldSince(rows, row.id) == rows[row.id].claimedAt;
    if TellsLeases(after, log + [told]) {
      assert LeaseStart(log + [told], row.id) == HeldSince(after, row.id);
    }
  }

  lemma CountToldIff(rows: Rows, log: seq<Sent>, row: Task, told: Sent)
    requires CountsChanges(rows, log) && row.id in rows && SaysNothingElse(told, row.id)
    ensures CountsChanges(rows[row.id := row], log + [told]) <==>
            row.version == rows[row.id].version + if IsChange(told, row.id) then 1 else 0
  {
    var after := rows[row.id := row];
    forall id: Uuid | id != row.id ensures Changes(log + [told], id) == ChangesIn(after, id) {
      SendReads(log, told, id);
    }
    SendReads(log, told, row.id);
    assert Changes(log, row.id) == ChangesIn(rows, row.id);
    if CountsChanges(after, log + [told]) {
      assert Changes(log + [told], row.id) == ChangesIn(after, row.id);
    }
  }

  ghost predicate Holds(g: Guarantee, s: Server) {
    match g
    case Leases => TellsLeases(s.rows, s.log)
    case Counting => CountsChanges(s.rows, s.log)
    case _ => true
  }

  /** The guarantees about the log depend on what it says and on lease and version of each row. */
  lemma AlikeHolds(rows: Rows, after: Rows, a: seq<Sent>, b: seq<Sent>)
    requires forall id: Uuid :: ReadAlike(a, b, id)
    requires forall id: Uuid ::
               HeldSince(after, id) == HeldSince(rows, id) && ChangesIn(after, id) == ChangesIn(rows, id)
    ensures TellsLeases(after, a) <==> TellsLeases(rows, b)
    ensures CountsChanges(after, a) <==> CountsChanges(rows, b)
  {
    forall id: Uuid
      ensures Disciplined(a, id) == Disciplined(b, id) && LeaseStart(a, id) == LeaseStart(b, id)
              && Changes(a, id) == Changes(b, id)
    {
      assert ReadAlike(a, b, id);
    }
  }

  lemma SilentStepSaysNothing(s: Server, e: Step, id: Uuid)
    requires Survives(s) && Overwritten(s, e) == None
    ensures ReadAlike(Next(s, e).log, s.log, id)
  {
    LogReads(s, e, id);
    var told := Told(s, e);
    if told.Some? {
      assert PendingOk(s.rows, s.pending[e.h]);
      SendReads(s.log, told.value, id);
    }
  }

  /** A step that overwrites no row keeps every guarantee and passes every test. */
  lemma SilentStepKeeps(g: Guarantee, s: Server, e: Step)
    requires Survives(s) && Holds(g, s) && Overwritten(s, e) == None
    ensures Keeps(g, s, Next(s, e)) && Safe(g, s, e)
  {
    SilentStep(s, e);
    forall id: Uuid ensures ReadAlike(Next(s, e).log, s.log, id) {
      SilentStepSaysNothing(s, e, id);
    }
    AlikeHolds(s.rows, Next(s, e).rows, Next(s, e).log, s.log);
  }

  /** A step that overwrites a row: its message is about that row alone. */
  lemma OverwriteIsTold(s: Server, e: Step)
    requires Survives(s) && Overwritten(s, e).Some?
    ensures Told(s, e).Some? && SaysNothingElse(Told(s, e).value, Overwritten(s, e).value.id)
  {
  }

  lemma OverwritingStepReads(s: Server, e: Step)
    requires Survives(s) && Overwritten(s, e).Some? && Told(s, e).Some?
    ensures var rows, log := Next(s, e).rows, s.log + [Told(s, e).value];
            && (TellsLeases(rows, Next(s, e).log) <==> TellsLeases(rows, log))
            && (CountsChanges(rows, Next(s, e).log) <==> CountsChanges(rows, log))
  {
    var log := s.log + [Told(s, e).value];
    forall id: Uuid ensures ReadAlike(Next(s, e).log, log, id) {
      LogReads(s, e, id);
    }
    AlikeHolds(Next(s, e).rows, Next(s, e).rows, Next(s, e).log, log);
  }

  /** The tests are what the messages demand of the rows. */
  lemma LeaseGoesIffSafe(s: Server, e: Step)
    requires Survives(s) && Overwritten(s, e).Some? && Told(s, e).Some?
    requires Overwritten(s, e).value.id in s.rows
    ensures var row, told := Overwritten(s, e).value, Told(s, e).value;
            LeaseGoes(s.rows[row.id].claimedAt, row.claimedAt, told, row.id) <==> Safe(Leases, s, e)
  {
    match e
    case FinishAdd(h, _, _) => assert PendingOk(s.rows, s.pending[h]);
    case FinishModify(h) => assert PendingOk(s.rows, s.pending[h]);
    case SweepNext(h) => assert PendingOk(s.rows, s.pending[h]);
  }

  lemma LeasesSafeIff(s: Server, e: Step)
    requires Survives(s) && TellsLeases(s.rows, s.log) && Overwritten(s, e).Some?
    ensures Keeps(Leases, s, Next(s, e)) <==> Safe(Leases, s, e)
  {
    OverwriteIsTold(s, e);
    WritingStep(s, e);
    OverwritingStepReads(s, e);
    LeaseToldIff(s.rows, s.log, Overwritten(s, e).value, Told(s, e).value);
    LeaseGoesIffSafe(s, e);
  }

  lemma CountGoesIffSafe(s: Server, e: Step)
    requires Survives(s) && Overwritten(s, e).Some? && Told(s, e).Some?
    requires Overwritten(s, e).value.id in s.rows
    ensures var row, told := Overwritten(s, e).value, Told(s, e).value;
            row.version == s.rows[row.id].version + (if IsChange(told, row.id) then 1 else 0) <==> Safe(Counting, s, e)
  {
    match e
    case FinishAdd(h, _, _) => assert PendingOk(s.rows, s.pending[h]);
    case FinishModify(h) => assert PendingOk(s.rows, s.pending[h]);
    case SweepNext(h) => assert PendingOk(s.rows, s.pending[h]);
  }

  lemma CountingSafeIff(s: Server, e: Step)
    requires Survives(s) && CountsChanges(s.rows, s.log) && Overwritten(s, e).Some?
    ensures Keeps(Counting, s, Next(s, e)) <==> Safe(Counting, s, e)
  {
    OverwriteIsTold(s, e);
    WritingStep(s, e);
    OverwritingStepReads(s, e);
    CountToldIff(s.rows, s.log, Overwritten(s, e).value, Told(s, e).value);
    CountGoesIffSafe(s, e);
  }

  predicate RowGoes(g: Guarantee, before: Task, after: Task) {
    if g.Finality? then StaysComplete(before, after) else before.version <= after.version
  }

  lemma RowGoesIffSafe(g: Guarantee, s: Server, e: Step)
    requires Survives(s) && Overwritten(s, e).Some? && (g.Finality? || g.Growth?)
    requires Overwritten(s, e).value.id in s.rows
    ensures RowGoes(g, s.rows[Overwritten(s, e).value.id], Overwritten(s, e).value) <==> Safe(g, s, e)
  {
    match e
    case FinishAdd(h, _, _) => assert PendingOk(s.rows, s.pending[h]);
    case FinishModify(h) => assert PendingOk(s.rows, s.pending[h]);
    case SweepNext(h) => assert PendingOk(s.rows, s.pending[h]);
  }

  /** Finality and growth look at the overwritten row alone. */
  lemma RowSafeIff(g: Guarantee, s: Server, e: Step)
    requires Survives(s) && Overwritten(s, e).Some? && (g.Finality? || g.Growth?)
    ensures Keeps(g, s, Next(s, e)) <==> Safe(g, s, e)
  {
    WritingStep(s, e);
    RowGoesIffSafe(g, s, e);
  }

  /** Whatever has happened so far, a step keeps a guarantee exactly when it passes the test. */
  lemma StepKeepsIffSafe(g: Guarantee, s: Server, e: Step)
    requires Survives(s) && Holds(g, s)
    ensures Keeps(g, s, Next(s, e)) <==> Safe(g, s, e)
  {
    if Overwritten(s, e) == None {
      SilentStepKeeps(g, s, e);
    } else {
      match g
      case Leases => LeasesSafeIff(s, e);
      case Counting => CountingSafeIff(s, e);
      case _ => RowSafeIff(g, s, e);
    }
  }

  lemma {:induction false} RunKeepsIffSafe(g: Guarantee, s: Server, es: seq<Step>)
    requires Survives(s) && Holds(g, s)
    ensures KeptThroughout(g, s, es) <==> AllSafe(g, s, es)
    decreases |es|
  {
    if es != [] {
      StepKeepsIffSafe(g, s, es[0]);
      NextSurvives(s, es[0]);
      if Safe(g, s, es[0]) {
        RunKeepsIffSafe(g, Next(s, es[0]), es[1..]);
      }
    }
  }

  /** A run keeps a guarantee from beginning to end exactly when each of its writes passes. */
  lemma GuaranteeHoldsIffSafe(g: Guarantee, es: seq<Step>)
    ensures KeptThroughout(g, Idle, es) <==> AllSafe(g, Idle, es)
  {
    RunKeepsIffSafe(g, Idle, es);
  }

  // ---------- what the tests amount to ----------

  lemma {:induction false} RunHolds(g: Guarantee, s: Server, es: seq<Step>)
    requires Survives(s) && Holds(g, s) && AllSafe(g, s, es)
    ensures Survives(Interleaving.Run(s, es)) && Holds(g, Interleaving.Run(s, es))
    decreases |es|
  {
    if es != [] {
      StepKeepsIffSafe(g, s, es[0]);
      NextSurvives(s, es[0]);
      RunHolds(g, Next(s, es[0]), es[1..]);
    }
  }

  /** After any run of safe writes, a claim is exclusive exactly when its row is still Queued. */
  lemma ClaimIsExclusiveIffQueued(es: seq<Step>, h: HandlerId)
    requires AllSafe(Leases, Idle, es)
    requires var s := Interleaving.Run(Idle, es);
             h in s.pending && s.pending[h].Writing? && s.pending[h].request.Claim?
    ensures var s := Interleaving.Run(Idle, es);
            var id := s.pending[h].read.id;
            id in s.rows && (Disciplined(EndModify(s, h).log, id) <==> s.rows[id].status == Queued)
  {
    RunHolds(Leases, Idle, es);
    var s := Interleaving.Run(Idle, es);
    var p := s.pending[h];
    assert PendingOk(s.rows, p);
    var told := Sent(p.at, ToTeam(p.read.teamId), TaskClaimed(p.read.id, p.device));
    SendReads(s.log, told, p.read.id);
    assert LeaseStart(s.log, p.read.id) == HeldSince(s.rows, p.read.id);
  }

  /** A write raises the version exactly when the row has not overtaken the copy. */
  lemma WriteRaisesVersionIff(rows: Rows, read: Task, device: Uuid, request: Request, at: Time)
    requires Held(rows, read)
    ensures var before := rows[read.id];
            var after := Update(rows, Modified(read, device, request, at))[read.id];
            && (after.version > before.version <==> before.version <= read.version)
            && (after.version == before.version + 1 <==> before.version == read.version)
  {
  }

  /** A write to a Complete row leaves it so, with its holder, in exactly these cases. */
  lemma CompletionSurvivesIff(rows: Rows, read: Task, device: Uuid, request: Request, at: Time)
    requires Held(rows, read) && Permitted(read, device, request) && rows[read.id].status == Complete
    ensures var before := rows[read.id];
            var after := Update(rows, Modified(read, device, request, at))[read.id];
            StaysComplete(before, after) <==>
              && !request.Claim? && before.claimedBy == Some(device) && before.claimedAt == read.claimedAt
              && (request.Finish? || read.status == Complete)
  {
  }

  /** Over a whole continuation: Complete rows stay as they are, versions do not fall. */
  lemma {:induction false} KeptOverall(g: Guarantee, s: Server, es: seq<Step>)
    requires (g.Finality? || g.Growth?) && KeptThroughout(g, s, es)
    ensures Keeps(g, s, Interleaving.Run(s, es))
    decreases |es|
  {
    if es != [] {
      KeptOverall(g, Next(s, es[0]), es[1..]);
    }
  }

  // ---------- fresh runs ----------

  lemma UndisturbedColumns(row: Task, read: Task, device: Uuid, request: Request)
    requires Undisturbed(row, read, device, request)
    ensures row.version == read.version
    ensures !request.Claim? ==> row.claimedBy == read.claimedBy && row.claimedAt == read.claimedAt
    ensures request.Progress? ==> row.status == read.status
  {
    assert Kept(row, request).version == row.version && Kept(read, request).version == read.version;
    if !request.Claim? {
      assert Kept(row, request).claimedBy == row.claimedBy && Kept(read, request).claimedBy == read.claimedBy;
      assert Kept(row, request).claimedAt == row.claimedAt && Kept(read, request).claimedAt == read.claimedAt;
    }
    if request.Progress? {
      assert Kept(row, request).status == row.status && Kept(read, request).status == read.status;
    }
  }

  lemma FreshIsSafe(g: Guarantee, s: Server, e: Step)
    requires Survives(s) && AddsAreOwned(s.rows, s.pending) && Fresh(s, e)
    ensures Safe(g, s, e)
  {
    match e
    case FinishAdd(h, _, _) =>
      if h in s.pending && s.pending[h].Adding? { assert AddOwned(s.rows, s.pending[h]); }
    case FinishModify(h) =>
      if h in s.pending && s.pending[h].Writing? {
        var p := s.pending[h];
        assert PendingOk(s.rows, p);
        UndisturbedColumns(s.rows[p.read.id], p.read, p.device, p.request);
      }
    case SweepNext(h) =>
      if Releases(s, h) {
        var p := s.pending[h];
        FiveMinutes(p.at - s.rows[p.todo[0].id].claimedAt.value);
      }
    case _ =>
  }

  lemma {:induction false} AllFreshIsSafe(g: Guarantee, s: Server, es: seq<Step>)
    requires Survives(s) && AddsAreOwned(s.rows, s.pending) && AllFresh(s, es)
    ensures AllSafe(g, s, es)
    decreases |es|
  {
    if es != [] {
      FreshIsSafe(g, s, es[0]);
      NextSurvives(s, es[0]);
      StepLinearizes(s, State(Announced(s.rows, s.pending), s.log), es[0]);
      AllFreshIsSafe(g, Next(s, es[0]), es[1..]);
    }
  }

  /** Runs of undisturbed writes keep every guarantee from beginning to end. */
  lemma FreshRunsKeepGuarantees(g: Guarantee, es: seq<Step>)
    requires AllFresh(Idle, es)
    ensures KeptThroughout(g, Idle, es)
  {
    AllFreshIsSafe(g, Idle, es);
    GuaranteeHoldsIffSafe(g, es);
  }

  lemma {:induction false} AllFreshSplit(s: Server, es: seq<Step>, more: seq<Step>)
    requires Survives(s) && AddsAreOwned(s.rows, s.pending) && AllFresh(s, es + more)
    ensures var t := Interleaving.Run(s, es);
            Survives(t) && AddsAreOwned(t.rows, t.pending) && AllFresh(t, more) && AllFresh(s, es)
    decreases |es|
  {
    if es == [] {
      assert es + more == more;
    } else {
      assert (es + more)[0] == es[0] && (es + more)[1..] == es[1..] + more;
      NextSurvives(s, es[0]);
      StepLinearizes(s, State(Announced(s.rows, s.pending), s.log), es[0]);
      AllFreshSplit(Next(s, es[0]), es[1..], more);
    }
  }

  /**
   * As in the atomic protocol, a row of such a run keeps its identity and completion and loses
   * no version through any continuation that is undisturbed too; its claim time is that of the
   * outstanding grant and its version counts the changes announced.
   */
  lemma FreshRowsEndure(es: seq<Step>, more: seq<Step>, id: Uuid)
    requires AllFresh(Idle, es + more) && id in Interleaving.Run(Idle, es).rows
    ensures var s := Interleaving.Run(Idle, es);
            var s' := Interleaving.Run(s, more);
            && id in s'.rows && Succeeds(s.rows[id], s'.rows[id])
            && s.rows[id].claimedAt == LeaseStart(s.log, id)
            && s.rows[id].version == 1 + Changes(s.log, id)
  {
    var s := Interleaving.Run(Idle, es);
    AllFreshSplit(Idle, es, more);
    AllFreshIsSafe(Finality, s, more);
    RunKeepsIffSafe(Finality, s, more);
    KeptOverall(Finality, s, more);
    AllFreshIsSafe(Growth, s, more);
    RunKeepsIffSafe(Growth, s, more);
    KeptOverall(Growth, s, more);
    RunSurvives(s, more);
    AllFreshIsSafe(Leases, Idle, es);
    RunHolds(Leases, Idle, es);
    AllFreshIsSafe(Counting, Idle, es);
    RunHolds(Counting, Idle, es);
    assert LeaseStart(s.log, id) == HeldSince(s.rows, id) && Changes(s.log, id) == ChangesIn(s.rows, id);
  }
}
