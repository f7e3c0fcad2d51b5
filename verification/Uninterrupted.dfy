/**
 * A handler whose database calls nobody comes between does just what the whole handler does,
 * however many others are waiting with copies of their own.
 */
module Uninterrupted {
  import opened Types
  import opened TaskTable
  import opened Lease
  import opened LeaseTheorems
  import opened Interleaving

  function Whole(s: Server): State {
    State(s.rows, s.log)
  }

  lemma RequestIsWhole(s: Server, h: HandlerId, device: Uuid, team: Uuid, id: Uuid, request: Request, at: Time)
    requires RowsOk(s.rows) && h !in s.pending
    ensures var done := Next(Next(s, StartModify(h, device, team, id, request, at)), FinishModify(h));
            && done.pending == s.pending
            && Whole(done) == Apply(Whole(s), Modify(device, team, id, request, at))
  {
    assert s.pending[h := Writing(NewTask(id, "", team, device, at), device, request, at)] - {h} == s.pending;
  }

  lemma AddIsWhole(
      s: Server, h: HandlerId, device: Uuid, team: Uuid, id: Uuid, url: string, createdAt: Time,
      owner: Option<Uuid>, at: Time)
    requires h !in s.pending
    ensures var done := Next(Next(s, StartAdd(h, device, team, id, url, createdAt, at)), FinishAdd(h, owner, at));
            && done.pending == s.pending
            && Whole(done) == Apply(Whole(s), Add(device, team, id, url, createdAt, owner, at))
  {
    var task := Queue(id, url, team, device, createdAt);
    if CanInsert(s.rows, task) {
      assert s.pending[h := Adding(task)] - {h} == s.pending;
    }
  }

  // ---------- the sweep ----------

  /** The snapshot holds every claimed row of the team that is asked for, as it is, and no other. */
  lemma {:induction false} SnapshotHolds(rows: Rows, team: Uuid, ids: seq<Uuid>, t: Task)
    requires forall id <- rows :: rows[id].id == id
    ensures t in ClaimedCopies(rows, team, ids) <==>
            t.id in ids && t.id in rows && rows[t.id] == t && t.teamId == team && t.status == Claimed
  {
    if ids != [] {
      SnapshotHolds(rows, team, ids[1..], t);
    }
  }

  predicate Distinct(ids: seq<Uuid>) {
    forall i, j | 0 <= i < j < |ids| :: ids[i] != ids[j]
  }

  function SweepSteps(h: HandlerId, n: nat): seq<Step> {
    seq(n, i requires 0 <= i < n => SweepNext(h))
  }

  /** The rows still to be looked at are as they were when the sweep read them. */
  ghost predicate Untouched(rows: Rows, read: Rows, ids: seq<Uuid>) {
    forall id <- ids :: (id in rows <==> id in read) && (id in read ==> rows[id] == read[id] && read[id].id == id)
  }

  lemma SweepsOne(s: Server, h: HandlerId, team: Uuid, at: Time, todo: seq<Task>)
    requires h in s.pending && s.pending[h] == Sweeping(team, at, todo) && todo != []
    requires todo[0].id in s.rows && s.rows[todo[0].id] == todo[0]
    requires todo[0].teamId == team && todo[0].status == Claimed
    ensures var next := Next(s, SweepNext(h));
            && next.pending == s.pending[h := Sweeping(team, at, todo[1..])]
            && Whole(next) == Apply(Whole(s), Timeout(team, todo[0].id, at))
  {
  }

  lemma PassesBy(s: State, team: Uuid, id: Uuid, at: Time)
    requires !(InTeam(s.rows, team, id) && s.rows[id].status == Claimed)
    ensures Apply(s, Timeout(team, id, at)) == s
  {
  }

  lemma TimeoutKeepsOthers(s: State, team: Uuid, id: Uuid, at: Time, other: Uuid)
    requires other != id
    ensures var rows := Apply(s, Timeout(team, id, at)).rows;
            (other in rows <==> other in s.rows) && (other in rows ==> rows[other] == s.rows[other])
  {
  }

  lemma StillUntouched(s: State, read: Rows, team: Uuid, ids: seq<Uuid>, at: Time)
    requires ids != [] && Distinct(ids) && Untouched(s.rows, read, ids)
    ensures Untouched(Apply(s, Timeout(team, ids[0], at)).rows, read, ids[1..])
  {
    var rows := Apply(s, Timeout(team, ids[0], at)).rows;
    forall id <- ids[1..]
      ensures (id in rows <==> id in read) && (id in read ==> rows[id] == read[id] && read[id].id == id)
    {
      TimeoutKeepsOthers(s, team, ids[0], at, id);
      assert id in ids;
    }
  }

  lemma FirstSweepStep(s: Server, h: HandlerId, n: nat)
    ensures Interleaving.Run(s, SweepSteps(h, n + 1)) == Interleaving.Run(Next(s, SweepNext(h)), SweepSteps(h, n))
  {
    assert SweepSteps(h, n + 1)[1..] == SweepSteps(h, n);
  }

  lemma FirstTimeout(s: State, team: Uuid, ids: seq<Uuid>, at: Time)
    requires ids != []
    ensures Lease.Run(s, Timeouts(team, ids, at)) ==
            Lease.Run(Apply(s, Timeout(team, ids[0], at)), Timeouts(team, ids[1..], at))
  {
    assert Timeouts(team, ids, at)[1..] == Timeouts(team, ids[1..], at);
  }

  /** So many copies on, the sweep has ended, having done what the whole sweep of these does. */
  ghost predicate EndsWhole(s: Server, h: HandlerId, copies: nat, team: Uuid, ids: seq<Uuid>, at: Time) {
    var done := Interleaving.Run(s, SweepSteps(h, copies + 1));
    done.pending == s.pending - {h} && Whole(done) == Lease.Run(Whole(s), Timeouts(team, ids, at))
  }

  lemma NoneLeftEndsWhole(s: Server, h: HandlerId, team: Uuid, at: Time)
    requires h in s.pending && s.pending[h] == Sweeping(team, at, [])
    ensures EndsWhole(s, h, 0, team, [], at)
  {
    FirstSweepStep(s, h, 0);
  }

  lemma OneMoreEndsWhole(s: Server, next: Server, h: HandlerId, copies: nat, team: Uuid, ids: seq<Uuid>, at: Time)
    requires ids != [] && next == Next(s, SweepNext(h)) && EndsWhole(next, h, copies, team, ids[1..], at)
    requires Whole(next) == Apply(Whole(s), Timeout(team, ids[0], at)) && next.pending - {h} == s.pending - {h}
    ensures EndsWhole(s, h, copies + 1, team, ids, at)
  {
    FirstSweepStep(s, h, copies + 1);
    FirstTimeout(Whole(s), team, ids, at);
  }

  lemma PassedByEndsWhole(s: Server, h: HandlerId, copies: nat, team: Uuid, ids: seq<Uuid>, at: Time)
    requires ids != [] && EndsWhole(s, h, copies, team, ids[1..], at)
    requires !(InTeam(s.rows, team, ids[0]) && s.rows[ids[0]].status == Claimed)
    ensures EndsWhole(s, h, copies, team, ids, at)
  {
    FirstTimeout(Whole(s), team, ids, at);
    PassesBy(Whole(s), team, ids[0], at);
  }

  lemma {:induction false} SweepRuns(s: Server, h: HandlerId, team: Uuid, at: Time, ids: seq<Uuid>, read: Rows)
    requires h in s.pending && s.pending[h] == Sweeping(team, at, ClaimedCopies(read, team, ids))
    requires Distinct(ids) && Untouched(s.rows, read, ids)
    ensures EndsWhole(s, h, |ClaimedCopies(read, team, ids)|, team, ids, at)
    decreases |ids|
  {
    var todo := ClaimedCopies(read, team, ids);
    if ids == [] {
      NoneLeftEndsWhole(s, h, team, at);
    } else {
      var rest := ClaimedCopies(read, team, ids[1..]);
      StillUntouched(Whole(s), read, team, ids, at);
      assert ids[0] in ids;
      if InTeam(read, team, ids[0]) && read[ids[0]].status == Claimed {
        assert todo == [read[ids[0]]] + rest && todo[1..] == rest;
        SweepsOne(s, h, team, at, todo);
        var next := Next(s, SweepNext(h));
        SweepRuns(next, h, team, at, ids[1..], read);
        OneMoreEndsWhole(s, next, h, |rest|, team, ids, at);
      } else {
        PassesBy(Whole(s), team, ids[0], at);
        assert todo == rest;
        SweepRuns(s, h, team, at, ids[1..], read);
        PassedByEndsWhole(s, h, |rest|, team, ids, at);
      }
    }
  }

  /** A sweep of rows that are each listed once. */
  lemma SweepIsWhole(s: Server, h: HandlerId, team: Uuid, ids: seq<Uuid>, at: Time)
    requires RowsOk(s.rows) && h !in s.pending && Distinct(ids)
    ensures var started := Next(s, StartSweep(h, team, ids, at));
            var done := Interleaving.Run(started, SweepSteps(h, |ClaimedCopies(s.rows, team, ids)| + 1));
            && done.pending == s.pending
            && Whole(done) == Lease.Run(Whole(s), Timeouts(team, ids, at))
  {
    var started := Next(s, StartSweep(h, team, ids, at));
    assert started.pending - {h} == s.pending;
    SweepRuns(started, h, team, at, ids, s.rows);
  }
}
