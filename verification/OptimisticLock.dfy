/**
 * The version as the optimistic lock it was designed to be. If every write first compared the
 * row's version with its copy's, and tasks could not be read before they are announced, the
 * interleaved protocol would be the atomic one; the comparison alone would not be enough.
 */
module OptimisticLock {
  import opened Types
  import opened TaskTable
  import opened Lease
  import opened LeaseTheorems
  import opened Interleaving
  import opened Linearization
  import opened StaleWrites

  /** A write, by an add, a request or the sweep, finds the version it read. */
  predicate Matched(s: Server, e: Step) {
    match e
    case SweepNext(h) =>
      Releases(s, h) ==>
        var copy := s.pending[h].todo[0];
        copy.id in s.rows && s.rows[copy.id].version == copy.version
    case _ => Safe(Counting, s, e)
  }

  /** Moreover no request reads a task whose add is still pending. */
  predicate Locked(s: Server, e: Step) {
    Matched(s, e) && (e.StartModify? ==> !BeingAdded(s.pending, e.id))
  }

  ghost predicate AllMatched(s: Server, es: seq<Step>)
    decreases |es|
  {
    es != [] ==> Matched(s, es[0]) && AllMatched(Next(s, es[0]), es[1..])
  }

  ghost predicate AllLocked(s: Server, es: seq<Step>)
    decreases |es|
  {
    es != [] ==> Locked(s, es[0]) && AllLocked(Next(s, es[0]), es[1..])
  }

  /** A copy is never ahead of its row, and equal to it while their versions agree. */
  predicate Current(rows: Rows, copy: Task) {
    && copy.id in rows && copy.version <= rows[copy.id].version
    && (copy.version == rows[copy.id].version ==> rows[copy.id] == copy)
  }

  predicate CopiesCurrent(rows: Rows, pending: Handlers, p: Pending) {
    match p
    case Adding(_) => true
    case Writing(read, _, _, _) => Current(rows, read) && !BeingAdded(pending, read.id)
    case Sweeping(_, _, todo) => forall t <- todo :: Current(rows, t) && t.status == Claimed
  }

  ghost predicate AllCurrent(s: Server) {
    forall h <- s.pending :: CopiesCurrent(s.rows, s.pending, s.pending[h])
  }

  /** Of what the copies are taken from, nothing changes without raising its version. */
  ghost predicate Raises(before: Rows, after: Rows, pending: Handlers) {
    forall id <- before ::
      && id in after
      && (after[id] == before[id] || after[id].version > before[id].version
          || (BeingAdded(pending, id) && after[id].version == before[id].version))
  }

  lemma CopiesStayCurrent(s: Server, rows: Rows, pending: Handlers, p: Pending)
    requires AddsAreOwned(s.rows, s.pending) && CopiesCurrent(s.rows, s.pending, p)
    requires Raises(s.rows, rows, s.pending)
    requires forall id <- s.rows :: BeingAdded(pending, id) ==> BeingAdded(s.pending, id)
    ensures CopiesCurrent(rows, pending, p)
  {
    if p.Sweeping? {
      forall t <- p.todo ensures Current(rows, t) {
        if BeingAdded(s.pending, t.id) {
          AddRowIsPending(s.rows, s.pending, t.id);
        }
      }
    }
  }

  lemma LockedIsFresh(s: Server, e: Step)
    requires Survives(s) && AllCurrent(s) && Matched(s, e)
    ensures Fresh(s, e)
  {
    match e
    case FinishModify(h) =>
      if h in s.pending && s.pending[h].Writing? {
        assert CopiesCurrent(s.rows, s.pending, s.pending[h]) && PendingOk(s.rows, s.pending[h]);
      }
    case SweepNext(h) =>
      if Releases(s, h) {
        assert CopiesCurrent(s.rows, s.pending, s.pending[h]);
      }
    case _ =>
  }

  /** Which handlers a step leaves adding: none that were not, but for a new task. */
  lemma NoOthersAdded(s: Server, e: Step, id: Uuid)
    requires id in s.rows && BeingAdded(Next(s, e).pending, id)
    ensures BeingAdded(s.pending, id)
  {
    var h :| h in Next(s, e).pending && Adds(Next(s, e).pending[h], id);
    assert h in s.pending && Adds(s.pending[h], id);
  }

  lemma OverwriteRaises(s: Server, e: Step)
    requires Survives(s) && AddsAreOwned(s.rows, s.pending) && Matched(s, e) && Overwritten(s, e).Some?
    requires Overwritten(s, e).value.id in s.rows
    ensures var row := Overwritten(s, e).value;
            || row.version > s.rows[row.id].version
            || (BeingAdded(s.pending, row.id) && row.version == s.rows[row.id].version)
  {
    match e
    case FinishAdd(h, _, _) => assert AddOwned(s.rows, s.pending[h]) && Adds(s.pending[h], s.pending[h].task.id);
    case FinishModify(h) => assert PendingOk(s.rows, s.pending[h]);
    case SweepNext(h) => assert PendingOk(s.rows, s.pending[h]);
  }

  lemma LockedRaises(s: Server, e: Step)
    requires Survives(s) && AddsAreOwned(s.rows, s.pending) && Matched(s, e)
    ensures Raises(s.rows, Next(s, e).rows, s.pending)
  {
    if Overwritten(s, e) == None {
      SilentStep(s, e);
    } else {
      WritingStep(s, e);
      OverwriteRaises(s, e);
    }
  }

  /** The copies a step takes are those of the rows as they are. */
  lemma NewCopiesAreCurrent(s: Server, e: Step)
    requires Survives(s) && AllCurrent(s) && Locked(s, e) && e.h in Next(s, e).pending
    requires e.StartModify? || e.StartSweep?
    ensures CopiesCurrent(s.rows, Next(s, e).pending, Next(s, e).pending[e.h])
  {
    if e.h in s.pending {
      assert CopiesCurrent(s.rows, s.pending, s.pending[e.h]);
    } else if e.StartSweep? {
      CopiesAreHeld(s.rows, e.team, e.ids);
    } else {
      forall h <- Next(s, e).pending ensures !Adds(Next(s, e).pending[h], e.id) {
        assert h in s.pending ==> !Adds(s.pending[h], e.id);
      }
    }
  }

  /** A handler that goes on holds what it held, or all of it but the first copy. */
  lemma HandlerGoesOn(s: Server, e: Step, h: HandlerId)
    requires h in s.pending && h in Next(s, e).pending && Next(s, e).pending[h] != s.pending[h]
    ensures s.pending[h].Sweeping? && s.pending[h].todo != []
    ensures Next(s, e).pending[h] == s.pending[h].(todo := s.pending[h].todo[1..])
  {
  }

  lemma HandlerStarts(s: Server, e: Step, h: HandlerId)
    requires h !in s.pending && h in Next(s, e).pending
    ensures h == e.h && (e.StartAdd? || e.StartModify? || e.StartSweep?)
    ensures if e.StartAdd? then Next(s, e).pending[h].Adding? else Next(s, e).rows == s.rows
  {
  }

  lemma HandlerStaysCurrent(s: Server, e: Step, h: HandlerId)
    requires Survives(s) && AddsAreOwned(s.rows, s.pending) && AllCurrent(s) && Locked(s, e)
    requires Raises(s.rows, Next(s, e).rows, s.pending) && h in Next(s, e).pending
    requires forall id <- s.rows :: BeingAdded(Next(s, e).pending, id) ==> BeingAdded(s.pending, id)
    ensures CopiesCurrent(Next(s, e).rows, Next(s, e).pending, Next(s, e).pending[h])
  {
    if h in s.pending {
      CopiesStayCurrent(s, Next(s, e).rows, Next(s, e).pending, s.pending[h]);
      if Next(s, e).pending[h] != s.pending[h] {
        HandlerGoesOn(s, e, h);
      }
    } else {
      HandlerStarts(s, e, h);
      if !e.StartAdd? {
        NewCopiesAreCurrent(s, e);
      }
    }
  }

  lemma LockedStepsStayCurrent(s: Server, e: Step)
    requires Survives(s) && AddsAreOwned(s.rows, s.pending) && AllCurrent(s) && Locked(s, e)
    ensures AllCurrent(Next(s, e))
  {
    LockedIsFresh(s, e);
    LockedRaises(s, e);
    forall id <- s.rows ensures BeingAdded(Next(s, e).pending, id) ==> BeingAdded(s.pending, id) {
      if BeingAdded(Next(s, e).pending, id) { NoOthersAdded(s, e, id); }
    }
    forall h <- Next(s, e).pending ensures CopiesCurrent(Next(s, e).rows, Next(s, e).pending, Next(s, e).pending[h]) {
      HandlerStaysCurrent(s, e, h);
    }
  }

  lemma {:induction false} LockedRunIsFresh(s: Server, es: seq<Step>)
    requires Survives(s) && AddsAreOwned(s.rows, s.pending) && AllCurrent(s) && AllLocked(s, es)
    ensures AllFresh(s, es)
    decreases |es|
  {
    if es != [] {
      LockedIsFresh(s, es[0]);
      LockedStepsStayCurrent(s, es[0]);
      NextSurvives(s, es[0]);
      StepLinearizes(s, State(Announced(s.rows, s.pending), s.log), es[0]);
      LockedRunIsFresh(Next(s, es[0]), es[1..]);
    }
  }

  /** With the lock every interleaving is a run of whole handlers and keeps their guarantees. */
  lemma LockedRunsAreAtomic(es: seq<Step>, g: Guarantee)
    requires AllLocked(Idle, es)
    ensures var s := Interleaving.Run(Idle, es);
            var a := Lease.Run(Initial, Effects(Idle, es));
            a.rows == Announced(s.rows, s.pending) && Broadcasts(a.log) == Broadcasts(s.log)
    ensures KeptThroughout(g, Idle, es)
  {
    LockedRunIsFresh(Idle, es);
    FreshRunsAreAtomic(es);
    FreshRunsKeepGuarantees(g, es);
  }

  // ---------- comparing versions is not enough ----------

  /** Device 2 reads a task before the ring has granted it to device 1, and claims it after. */
  const EarlyRead: seq<Step> := [
    StartAdd(0, 1, 7, 5, "url", 0, 0),
    StartModify(1, 2, 7, 5, Claim, 1),
    FinishAdd(0, Some(1), 2),
    FinishModify(1)
  ]

  /** The ring's grant leaves the version alone, so no comparison fails and both are told. */
  lemma VersionsAloneDoNotLock()
    ensures AllMatched(Idle, EarlyRead)
    ensures var log := Interleaving.Run(Idle, EarlyRead).log;
            |log| == 3 && IsGrant(log[1], 5) && IsGrant(log[2], 5) && !Disciplined(log, 5)
  {
    var es := EarlyRead;
    var s1 := Next(Idle, es[0]);
    var s2 := Next(s1, es[1]);
    var s3 := Next(s2, es[2]);
    var s4 := Next(s3, es[3]);
    assert es[1..] == [es[1], es[2], es[3]] && es[1..][1..] == [es[2], es[3]];
    assert es[1..][1..][1..] == [es[3]] && es[1..][1..][1..][1..] == [];
    assert s3.rows[5].version == 1 && s3.pending[1].read.version == 1;
    assert s4.log == s3.log + [s4.log[2]];
    SendReads(s3.log, s4.log[2], 5);
  }
}
