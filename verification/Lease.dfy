/**
 * The task lease protocol with one atomic step per handler: a state is the tasks table and
 * everything the server has sent, and a step is a client request or the release of one
 * timed-out claim.
 */
module Lease {
  import opened Types
  import opened TaskTable

  /** Who a message goes to: every session of a team, or every session of a device. */
  datatype Address = ToTeam(team: Uuid) | ToDevice(device: Uuid)

  datatype Sent = Sent(at: Time, to: Address, msg: ServerMessage)

  datatype State = State(rows: Rows, log: seq<Sent>)

  const Initial := State(map[], [])

  /** What a device asks for about an existing task. */
  datatype Request =
    | Claim
    | Progress(progress: real)
    | Finish(localPath: string, fileSize: nat)

  datatype Event =
    | Add(device: Uuid, team: Uuid, id: Uuid, url: string, createdAt: Time, owner: Option<Uuid>, at: Time)
    | Modify(device: Uuid, team: Uuid, id: Uuid, request: Request, at: Time)
    | Timeout(team: Uuid, id: Uuid, at: Time)

  function Send(s: State, at: Time, to: Address, msg: ServerMessage): State {
    s.(log := s.log + [Sent(at, to, msg)])
  }

  function Queue(id: Uuid, url: string, team: Uuid, device: Uuid, createdAt: Time): Task {
    NewTask(id, url, team, device, createdAt).(status := Queued)
  }

  /** The hash ring's grant; unlike a claim it leaves the version alone. */
  function Assigned(task: Task, owner: Uuid, at: Time): Task {
    task.(status := Claimed, claimedBy := Some(owner), claimedAt := Some(at))
  }

  predicate Permitted(task: Task, device: Uuid, request: Request) {
    if request.Claim? then task.status == Queued else task.claimedBy == Some(device)
  }

  /** The copy a permitted request writes back. */
  function Modified(task: Task, device: Uuid, request: Request, at: Time): Task {
    match request
    case Claim => Assigned(task, device, at).(version := task.version + 1)
    case Progress(p) => task.(progress := p, version := task.version + 1)
    case Finish(path, size) =>
      task.(status := Complete, localPath := Some(path), fileSize := Some(size), progress := 1.0,
            version := task.version + 1)
  }

  function Announcement(copy: Task, device: Uuid, request: Request): ServerMessage {
    if request.Claim? then TaskClaimed(copy.id, device) else TaskUpdated(copy)
  }

  /** Elapsed time in whole minutes, rounded towards zero. */
  function NumMinutes(elapsed: int): int {
    var minute := 60 * NANOS_PER_SECOND;
    if elapsed >= 0 then elapsed / minute else -((-elapsed) / minute)
  }

  /** The sweep's test on its copy of a claimed task. */
  predicate Expired(task: Task, now: Time) {
    task.claimedAt.Some? && NumMinutes(now - task.claimedAt.value) >= 5 && task.progress < 1.0
  }

  ghost function Apply(s: State, e: Event): State {
    match e
    case Add(device, team, id, url, createdAt, owner, at) =>
      var task := Queue(id, url, team, device, createdAt);
      if !CanInsert(s.rows, task) then
        Send(s, at, ToDevice(device), Error("URL already exists"))
      else
        var inserted := s.(rows := s.rows[id := task]);
        (match owner
         case None => Send(inserted, at, ToTeam(team), TaskAdded(task))
         case Some(o) =>
           var copy := Assigned(task, o, at);
           var granted := inserted.(rows := Update(inserted.rows, copy));
           Send(Send(granted, at, ToDevice(o), TaskClaimed(id, o)), at, ToTeam(team), TaskAdded(copy)))
    case Modify(device, team, id, request, at) =>
      if !InTeam(s.rows, team, id) then
        if request.Claim? then Send(s, at, ToDevice(device), Error("Task not found")) else s
      else if !Permitted(s.rows[id], device, request) then
        if request.Claim? then Send(s, at, ToDevice(device), Error("Task not available")) else s
      else
        var copy := Modified(s.rows[id], device, request, at);
        Send(s.(rows := Update(s.rows, copy)), at, ToTeam(team), Announcement(copy, device, request))
    case Timeout(team, id, at) =>
      if InTeam(s.rows, team, id) && s.rows[id].status == Claimed && Expired(s.rows[id], at) then
        Send(s.(rows := Release(s.rows, id)), at, ToTeam(team), TaskReleased(id, "timeout"))
      else s
  }

  ghost function Run(s: State, es: seq<Event>): State
    decreases |es|
  {
    if es == [] then s else Run(Apply(s, es[0]), es[1..])
  }

  lemma {:induction false} RunConcat(s: State, es: seq<Event>, more: seq<Event>)
    ensures Run(s, es + more) == Run(Run(s, es), more)
    decreases |es|
  {
    if es == [] {
      assert es + more == more;
    } else {
      assert (es + more)[1..] == es[1..] + more;
      RunConcat(Apply(s, es[0]), es[1..], more);
    }
  }

  lemma RunSnoc(s: State, es: seq<Event>, e: Event)
    ensures Run(s, es + [e]) == Apply(Run(s, es), e)
  {
    RunConcat(s, es, [e]);
    assert [e][1..] == [];
  }
}
