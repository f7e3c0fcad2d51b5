/** A client's own task list and its merge with the server's. */
module ClientQueue {
  import opened Types

  type Tasks = seq<Task>

  predicate HasUrl(tasks: Tasks, url: string) {
    exists t <- tasks :: t.url == url
  }

  /** The first task with an id, or the length when there is none. */
  function IndexOf(tasks: Tasks, id: Uuid): (i: nat)
    ensures i <= |tasks| && (forall k | 0 <= k < i :: tasks[k].id != id) && (i < |tasks| ==> tasks[i].id == id)
  {
    if tasks == [] || tasks[0].id == id then 0 else 1 + IndexOf(tasks[1..], id)
  }

  /** What a user, or a message from the server, does to the queue. */
  datatype Op =
    | Add(id: Uuid, url: string, at: Time)
    | Claim(id: Uuid, at: Time)
    | Progress(id: Uuid, progress: real)
    | Finish(id: Uuid, localPath: string, fileSize: nat)
    | Requeue(id: Uuid)
    | Sync(server: Tasks)

  datatype Outcome = Done | UrlExists | NoSuchTask | NotClaimable

  /** The new value of an existing task. */
  function Changed(t: Task, op: Op, device: Uuid): Task
    requires !op.Add? && !op.Sync?
  {
    match op
    case Claim(_, at) => t.(status := Claimed, claimedBy := Some(device), claimedAt := Some(at))
    case Progress(_, p) => t.(progress := p)
    case Finish(_, path, size) => t.(status := Complete, localPath := Some(path), fileSize := Some(size))
    case Requeue(_) => t.(status := Queued)
  }

  function LocalNew(tasks: Tasks): Tasks {
    if tasks == [] then []
    else
      var last := tasks[|tasks| - 1];
      LocalNew(tasks[..|tasks| - 1]) + if last.status == New then [last] else []
  }

  /** The local tasks that are worth keeping: absent from the server, first of their URL. */
  function Kept(server: Tasks, local: Tasks): Tasks {
    if local == [] then []
    else
      var front := local[..|local| - 1];
      var last := local[|local| - 1];
      Kept(server, front) + if HasUrl(server, last.url) || HasUrl(front, last.url) then [] else [last]
  }

  function Apply(tasks: Tasks, op: Op, device: Uuid, team: Uuid): (Tasks, Outcome) {
    if op.Add? then
      if HasUrl(tasks, op.url) then (tasks, UrlExists)
      else (tasks + [NewTask(op.id, op.url, team, device, op.at)], Done)
    else if op.Sync? then (op.server + Kept(op.server, LocalNew(tasks)), Done)
    else
      var i := IndexOf(tasks, op.id);
      if i == |tasks| then (tasks, NoSuchTask)
      else if op.Claim? && tasks[i].status != Queued then (tasks, NotClaimable)
      else (tasks[i := Changed(tasks[i], op, device)], Done)
  }

  lemma HasUrlConcat(a: Tasks, b: Tasks, url: string)
    ensures HasUrl(a + b, url) <==> HasUrl(a, url) || HasUrl(b, url)
  {
    if HasUrl(a, url) {
      var t :| t in a && t.url == url;
      assert t in a + b;
    }
    if HasUrl(b, url) {
      var t :| t in b && t.url == url;
      assert t in a + b;
    }
  }

  /** No local URL is lost: what is not kept is on the server. */
  lemma {:induction false} KeptUrls(server: Tasks, local: Tasks, url: string)
    ensures HasUrl(server + Kept(server, local), url) <==> HasUrl(server, url) || HasUrl(local, url)
  {
    HasUrlConcat(server, Kept(server, local), url);
    if local != [] {
      var front := local[..|local| - 1];
      var last := local[|local| - 1];
      var kept := if HasUrl(server, last.url) || HasUrl(front, last.url) then [] else [last];
      KeptUrls(server, front, url);
      HasUrlConcat(server, Kept(server, front), url);
      HasUrlConcat(Kept(server, front), kept, url);
      assert local == front + [last];
      HasUrlConcat(front, [last], url);
      assert HasUrl([last], url) <==> last.url == url by {
        assert [last][0] == last;
      }
    }
  }

  class LocalQueue {
    const teamId: Uuid
    const deviceId: Uuid
    var tasks: Tasks

    constructor (deviceId: Uuid, teamId: Uuid, saved: Tasks)
      ensures this.deviceId == deviceId && this.teamId == teamId && tasks == saved
    {
      this.deviceId, this.teamId := deviceId, teamId;
      tasks := saved;
    }

    method AddTask(id: Uuid, url: string, at: Time) returns (r: Outcome)
      modifies this
      ensures (tasks, r) == Apply(old(tasks), Add(id, url, at), deviceId, teamId)
    {
      if HasUrl(tasks, url) {
        return UrlExists;
      }
      tasks := tasks + [NewTask(id, url, teamId, deviceId, at)];
      r := Done;
    }

    method ClaimTask(id: Uuid, at: Time) returns (r: Outcome)
      modifies this
      ensures (tasks, r) == Apply(old(tasks), Claim(id, at), deviceId, teamId)
    {
      var i := IndexOf(tasks, id);
      if i == |tasks| {
        return NoSuchTask;
      }
      if tasks[i].status != Queued {
        return NotClaimable;
      }
      tasks := tasks[i := tasks[i].(status := Claimed, claimedBy := Some(deviceId), claimedAt := Some(at))];
      r := Done;
    }

    method UpdateProgress(id: Uuid, progress: real) returns (r: Outcome)
      modifies this
      ensures (tasks, r) == Apply(old(tasks), Progress(id, progress), deviceId, teamId)
    {
      var i := IndexOf(tasks, id);
      if i == |tasks| {
        return NoSuchTask;
      }
      tasks := tasks[i := tasks[i].(progress := progress)];
      r := Done;
    }

    method MarkComplete(id: Uuid, path: string, size: nat) returns (r: Outcome)
      modifies this
      ensures (tasks, r) == Apply(old(tasks), Finish(id, path, size), deviceId, teamId)
    {
      var i := IndexOf(tasks, id);
      if i == |tasks| {
        return NoSuchTask;
      }
      tasks := tasks[i := tasks[i].(status := Complete, localPath := Some(path), fileSize := Some(size))];
      r := Done;
    }

    method UpdateStatusToQueued(id: Uuid) returns (r: Outcome)
      modifies this
      ensures (tasks, r) == Apply(old(tasks), Requeue(id), deviceId, teamId)
    {
      var i := IndexOf(tasks, id);
      if i == |tasks| {
        return NoSuchTask;
      }
      tasks := tasks[i := tasks[i].(status := Queued)];
      r := Done;
    }

    /** The two loops leave the server's tasks followed by the kept local ones. */
    method SyncFromServer(server: Tasks) returns (r: Outcome)
      modifies this
      ensures (tasks, r) == Apply(old(tasks), Sync(server), deviceId, teamId)
    {
      var localNew: Tasks := [];
      for k := 0 to |tasks|
        invariant tasks == old(tasks) && localNew == LocalNew(tasks[..k])
      {
        assert tasks[..k + 1][..k] == tasks[..k];
        if tasks[k].status == New {
          localNew := localNew + [tasks[k]];
        }
      }
      assert tasks[..|tasks|] == tasks;
      tasks := server;
      for k := 0 to |localNew|
        invariant tasks == server + Kept(server, localNew[..k])
      {
        var front := localNew[..k];
        assert localNew[..k + 1][..k] == front;
        KeptUrls(server, front, localNew[k].url);
        if !HasUrl(tasks, localNew[k].url) {
          tasks := tasks + [localNew[k]];
        }
      }
      assert localNew[..|localNew|] == localNew;
      r := Done;
    }
  }

  // ---------- the merge ----------

  ghost predicate UniqueUrls(tasks: Tasks) {
    forall i, j | 0 <= i < j < |tasks| :: tasks[i].url != tasks[j].url
  }

  lemma {:induction false} KeptAreUnique(server: Tasks, local: Tasks)
    requires UniqueUrls(server)
    ensures UniqueUrls(server + Kept(server, local))
  {
    if local != [] {
      var front := local[..|local| - 1];
      var last := local[|local| - 1];
      KeptAreUnique(server, front);
      KeptUrls(server, front, last.url);
      var merged := server + Kept(server, front);
      if HasUrl(server, last.url) || HasUrl(front, last.url) {
        assert server + Kept(server, local) == merged;
      } else {
        assert server + Kept(server, local) == merged + [last];
        forall i | 0 <= i < |merged| ensures merged[i].url != last.url {
          assert merged[i] in merged;
        }
      }
    }
  }

  lemma {:induction false} LocalNewConcat(a: Tasks, b: Tasks)
    ensures LocalNew(a + b) == LocalNew(a) + LocalNew(b)
    decreases |b|
  {
    if b == [] {
      assert a + b == a;
    } else {
      assert (a + b)[..|a + b| - 1] == a + b[..|b| - 1];
      LocalNewConcat(a, b[..|b| - 1]);
    }
  }

  predicate AllNew(tasks: Tasks) {
    forall t <- tasks :: t.status == New
  }

  lemma {:induction false} LocalNewIsNew(tasks: Tasks)
    ensures AllNew(LocalNew(tasks))
    ensures AllNew(tasks) ==> LocalNew(tasks) == tasks
    ensures forall url | HasUrl(LocalNew(tasks), url) :: HasUrl(tasks, url)
    ensures forall t <- LocalNew(tasks) :: t in tasks
  {
    if tasks != [] {
      LocalNewIsNew(tasks[..|tasks| - 1]);
    }
  }

  /** Tasks with URLs of their own that the server does not have. */
  ghost predicate Additional(server: Tasks, tasks: Tasks) {
    UniqueUrls(tasks) && forall i | 0 <= i < |tasks| :: !HasUrl(server, tasks[i].url)
  }

  lemma {:induction false} KeptAreAdditional(server: Tasks, local: Tasks)
    ensures Additional(server, Kept(server, local))
    ensures AllNew(local) ==> AllNew(Kept(server, local))
    ensures forall t <- Kept(server, local) :: t in local
  {
    if local != [] {
      var front := local[..|local| - 1];
      var last := local[|local| - 1];
      var kept := Kept(server, front);
      KeptAreAdditional(server, front);
      if !HasUrl(server, last.url) && !HasUrl(front, last.url) {
        assert Kept(server, local) == kept + [last];
        forall i | 0 <= i < |kept| ensures kept[i].url != last.url {
          assert kept[i] in kept;
        }
      }
    }
  }

  /** Additional tasks behind tasks the server has are all kept, and only they. */
  lemma {:induction false} AdditionalAreKept(server: Tasks, known: Tasks, more: Tasks)
    requires forall t <- known :: HasUrl(server, t.url)
    requires Additional(server, more)
    ensures Kept(server, known + more) == more
    decreases |known| + |more|
  {
    if more != [] {
      var front := more[..|more| - 1];
      var last := more[|more| - 1];
      assert (known + more)[..|known + more| - 1] == known + front;
      AdditionalAreKept(server, known, front);
      HasUrlConcat(known, front, last.url);
      assert !HasUrl(known + front, last.url);
      assert more == front + [last];
    } else if known != [] {
      assert known + more == known;
      AdditionalAreKept(server, known[..|known| - 1], []);
      assert known[..|known| - 1] + [] == known[..|known| - 1];
      assert HasUrl(server, known[|known| - 1].url);
    }
  }

  /** Synchronising again with the same server list changes nothing. */
  lemma SyncIsIdempotent(tasks: Tasks, server: Tasks, device: Uuid, team: Uuid)
    ensures var once := Apply(tasks, Sync(server), device, team).0;
            Apply(once, Sync(server), device, team).0 == once
  {
    var kept := Kept(server, LocalNew(tasks));
    LocalNewIsNew(tasks);
    KeptAreAdditional(server, LocalNew(tasks));
    LocalNewConcat(server, kept);
    LocalNewIsNew(kept);
    LocalNewIsNew(server);
    AdditionalAreKept(server, LocalNew(server), kept);
  }

  /**
   * After a sync the server's tasks come first, unchanged; every other task was New here; and
   * the URLs are exactly the server's and those of the local New tasks.
   */
  lemma SyncMerges(tasks: Tasks, server: Tasks, device: Uuid, team: Uuid, url: string)
    ensures var merged := Apply(tasks, Sync(server), device, team).0;
            && server <= merged
            && (forall t <- merged[|server|..] :: t in tasks && t.status == New && !HasUrl(server, t.url))
            && (HasUrl(merged, url) <==> HasUrl(server, url) || HasUrl(LocalNew(tasks), url))
            && (UniqueUrls(server) ==> UniqueUrls(merged))
  {
    var local := LocalNew(tasks);
    var kept := Kept(server, local);
    var merged := server + kept;
    KeptUrls(server, local, url);
    KeptAreAdditional(server, local);
    LocalNewIsNew(tasks);
    assert merged[|server|..] == kept;
    if UniqueUrls(server) {
      KeptAreUnique(server, local);
    }
  }

  /** Kept are the tasks whose URL the server does not have and no earlier local task has. */
  lemma {:induction false} KeptIff(server: Tasks, local: Tasks, t: Task)
    ensures t in Kept(server, local) <==>
            !HasUrl(server, t.url) && exists i :: 0 <= i < |local| && local[i] == t && !HasUrl(local[..i], t.url)
  {
    if local != [] {
      var n := |local| - 1;
      var front, last := local[..n], local[n];
      KeptIff(server, front, t);
      if i :| 0 <= i < |local| && local[i] == t && !HasUrl(local[..i], t.url) {
        if i < n { assert front[i] == t && front[..i] == local[..i]; }
      }
      if i :| 0 <= i < |front| && front[i] == t && !HasUrl(front[..i], t.url) {
        assert local[i] == t && local[..i] == front[..i];
      }
      if last == t && !HasUrl(front, t.url) {
        assert local[n] == t && local[..n] == front;
      }
    }
  }

  /** And they are kept in their order: more local tasks only add to the end. */
  lemma {:induction false} KeptGrows(server: Tasks, local: Tasks, more: Tasks)
    ensures Kept(server, local) <= Kept(server, local + more)
    decreases |more|
  {
    if more == [] {
      assert local + more == local;
    } else {
      KeptGrows(server, local, more[..|more| - 1]);
      assert (local + more)[..|local + more| - 1] == local + more[..|more| - 1];
    }
  }

  // ---------- the other operations ----------

  /** This is where the task with an id is looked for. */
  predicate StandsFirst(tasks: Tasks, id: Uuid, i: nat) {
    i < |tasks| && tasks[i].id == id && forall k | 0 <= k < i :: tasks[k].id != id
  }

  lemma {:induction false} IndexIsFirst(tasks: Tasks, id: Uuid, i: nat)
    requires StandsFirst(tasks, id, i)
    ensures IndexOf(tasks, id) == i
  {
    if i > 0 {
      assert forall k | 0 <= k < i - 1 :: tasks[1..][k] == tasks[k + 1];
      IndexIsFirst(tasks[1..], id, i - 1);
    }
  }

  /** An addition is appended as a new task of this device and team unless the URL is known. */
  lemma AdditionIs(tasks: Tasks, id: Uuid, url: string, at: Time, device: Uuid, team: Uuid)
    ensures Apply(tasks, Add(id, url, at), device, team) ==
            if exists t <- tasks :: t.url == url then (tasks, UrlExists)
            else (tasks + [Task(id, team, url, New, None, None, 0.0, None, None, device, at, 1)], Done)
  {
  }

  /** Without a task of that id nothing changes. */
  lemma MissingTasksAreNoted(tasks: Tasks, op: Op, device: Uuid, team: Uuid)
    requires !op.Add? && !op.Sync? && forall t <- tasks :: t.id != op.id
    ensures Apply(tasks, op, device, team) == (tasks, NoSuchTask)
  {
  }

  /** A claim succeeds exactly on a Queued task and makes this device its holder, as of now. */
  lemma ClaimIs(tasks: Tasks, id: Uuid, at: Time, device: Uuid, team: Uuid, i: nat)
    requires StandsFirst(tasks, id, i)
    ensures var t := tasks[i];
            Apply(tasks, Claim(id, at), device, team) ==
            if t.status != Queued then (tasks, NotClaimable)
            else (tasks[i := Task(id, t.teamId, t.url, Claimed, Some(device), Some(at), t.progress, t.localPath,
                                  t.fileSize, t.createdBy, t.createdAt, t.version)], Done)
  {
    IndexIsFirst(tasks, id, i);
  }

  /** A report, a completion and a requeueing succeed in any state and record just what they say. */
  lemma OthersAre(
      tasks: Tasks, id: Uuid, p: real, path: string, size: nat, device: Uuid, team: Uuid, i: nat)
    requires StandsFirst(tasks, id, i)
    ensures var t := tasks[i];
            && Apply(tasks, Progress(id, p), device, team) ==
               (tasks[i := Task(id, t.teamId, t.url, t.status, t.claimedBy, t.claimedAt, p, t.localPath,
                                t.fileSize, t.createdBy, t.createdAt, t.version)], Done)
            && Apply(tasks, Finish(id, path, size), device, team) ==
               (tasks[i := Task(id, t.teamId, t.url, Complete, t.claimedBy, t.claimedAt, t.progress, Some(path),
                                Some(size), t.createdBy, t.createdAt, t.version)], Done)
            && Apply(tasks, Requeue(id), device, team) ==
               (tasks[i := Task(id, t.teamId, t.url, Queued, t.claimedBy, t.claimedAt, t.progress, t.localPath,
                                t.fileSize, t.createdBy, t.createdAt, t.version)], Done)
  {
    IndexIsFirst(tasks, id, i);
  }

  // ---------- runs ----------

  predicate ClaimsHaveHolders(tasks: Tasks) {
    forall t <- tasks :: t.status == Claimed ==> t.claimedBy.Some?
  }

  ghost predicate Sound(tasks: Tasks) {
    UniqueUrls(tasks) && ClaimsHaveHolders(tasks)
  }

  ghost function Run(tasks: Tasks, ops: seq<Op>, device: Uuid, team: Uuid): Tasks
    decreases |ops|
  {
    if ops == [] then tasks else Run(Apply(tasks, ops[0], device, team).0, ops[1..], device, team)
  }

  lemma StepIsSound(tasks: Tasks, op: Op, device: Uuid, team: Uuid)
    requires Sound(tasks) && (op.Sync? ==> Sound(op.server))
    ensures Sound(Apply(tasks, op, device, team).0)
  {
    if op.Sync? {
      SyncMerges(tasks, op.server, device, team, "");
      var merged := Apply(tasks, op, device, team).0;
      forall t <- merged ensures t.status == Claimed ==> t.claimedBy.Some? {
        var i :| 0 <= i < |merged| && merged[i] == t;
        if i < |op.server| {
          assert t == op.server[i];
        } else {
          assert t == merged[|op.server|..][i - |op.server|];
        }
      }
    }
  }

  /** URLs stay unique and every claim has a holder, over any run synced with sound lists. */
  lemma {:induction false} RunIsSound(tasks: Tasks, ops: seq<Op>, device: Uuid, team: Uuid)
    requires Sound(tasks) && forall op <- ops :: op.Sync? ==> Sound(op.server)
    ensures Sound(Run(tasks, ops, device, team))
    decreases |ops|
  {
    if ops != [] {
      assert ops[0] in ops;
      StepIsSound(tasks, ops[0], device, team);
      RunIsSound(Apply(tasks, ops[0], device, team).0, ops[1..], device, team);
    }
  }
}
