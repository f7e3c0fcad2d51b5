/** The server's tasks and devices tables, and which teams its sweep can find in them. */
module ServerDatabase {
  import opened Types
  import opened TaskTable

  const NIL: Uuid := 0

  type Devices = map<Uuid, Device>

  /** INSERT ... ON CONFLICT(id) DO UPDATE leaves the team of a known device as it was. */
  function Register(devices: Devices, device: Device): Devices {
    if device.id in devices
    then devices[device.id := device.(teamId := devices[device.id].teamId)]
    else devices[device.id := device]
  }

  function Heard(devices: Devices, id: Uuid, at: Time): Devices {
    if id in devices then devices[id := devices[id].(lastSeen := at, isOnline := true)] else devices
  }

  function Offline(devices: Devices, id: Uuid): Devices {
    if id in devices then devices[id := devices[id].(isOnline := false)] else devices
  }

  /** The teams that the timeout sweep visits. */
  function Teams(devices: Devices): set<Uuid> {
    set id <- devices :: devices[id].teamId
  }

  // ---------- which teams the server knows of ----------

  /** Whatever the handlers do to the devices table. */
  datatype DeviceEvent =
    | Enter(team: Uuid, name: string, at: Time)
    | Heartbeat(device: Uuid, at: Time)
    | Depart(device: Uuid)

  /** Creating or joining a team registers the nil device, whatever the session's device is. */
  function Entrant(team: Uuid, name: string, at: Time): Device {
    Device(NIL, team, name, None, None, at, true)
  }

  function Record(devices: Devices, e: DeviceEvent): Devices {
    match e
    case Enter(team, name, at) => Register(devices, Entrant(team, name, at))
    case Heartbeat(id, at) => Heard(devices, id, at)
    case Depart(id) => Offline(devices, id)
  }

  function RecordAll(es: seq<DeviceEvent>): Devices {
    if es == [] then map[] else Record(RecordAll(es[..|es| - 1]), es[|es| - 1])
  }

  function FirstTeam(es: seq<DeviceEvent>): Option<Uuid> {
    if es == [] then None
    else if es[0].Enter? then Some(es[0].team)
    else FirstTeam(es[1..])
  }

  lemma {:induction false} FirstTeamSnoc(es: seq<DeviceEvent>, e: DeviceEvent)
    ensures FirstTeam(es + [e]) ==
            if FirstTeam(es) == None && e.Enter? then Some(e.team) else FirstTeam(es)
  {
    if es == [] {
      assert FirstTeam([e]) == if e.Enter? then Some(e.team) else FirstTeam([e][1..]);
    } else {
      assert (es + [e])[1..] == es[1..] + [e];
      FirstTeamSnoc(es[1..], e);
    }
  }

  /** So only the first team ever created or joined is found by the sweep. */
  lemma {:induction false} OnlyTheFirstTeamIsKnown(es: seq<DeviceEvent>)
    ensures RecordAll(es).Keys == if FirstTeam(es) == None then {} else {NIL}
    ensures Teams(RecordAll(es)) == if FirstTeam(es) == None then {} else {FirstTeam(es).value}
  {
    if es != [] {
      var front, last := es[..|es| - 1], es[|es| - 1];
      OnlyTheFirstTeamIsKnown(front);
      FirstTeamSnoc(front, last);
      assert es == front + [last];
      var before, after := RecordAll(front), RecordAll(es);
      if FirstTeam(front).Some? {
        assert before[NIL].teamId in Teams(before);
      }
      assert forall id <- after :: id == NIL && after[id].teamId == FirstTeam(es).value;
      assert NIL in after ==> after[NIL].teamId in Teams(after);
    }
  }

  // ---------- what a device's row says ----------

  /** A registration takes over every column but the team of a device already known. */
  lemma RegistrationIs(devices: Devices, d: Device, id: Uuid)
    ensures var after := Register(devices, d);
            && (id in after <==> id in devices || id == d.id)
            && (id in devices && id != d.id ==> after[id] == devices[id])
            && after[d.id] == Device(d.id, if d.id in devices then devices[d.id].teamId else d.teamId,
                                     d.name, d.publicIp, d.publicPort, d.lastSeen, d.isOnline)
  {
  }

  /** A heartbeat and a departure touch the row of their device alone, and never add one. */
  lemma NewsIs(devices: Devices, id: Uuid, at: Time, other: Uuid)
    ensures Heard(devices, id, at).Keys == devices.Keys == Offline(devices, id).Keys
    ensures other in devices ==>
              var d := devices[other];
              var heard := Device(d.id, d.teamId, d.name, d.publicIp, d.publicPort, at, true);
              var gone := Device(d.id, d.teamId, d.name, d.publicIp, d.publicPort, d.lastSeen, false);
              && Heard(devices, id, at)[other] == (if other == id then heard else d)
              && Offline(devices, id)[other] == (if other == id then gone else d)
  {
  }

  /** The last event of a history that is about the nil device, if the device is known by then. */
  function LastNews(es: seq<DeviceEvent>): Option<DeviceEvent> {
    if es == [] then None
    else
      var last := es[|es| - 1];
      var before := LastNews(es[..|es| - 1]);
      if last.Enter? || (before.Some? && last.device == NIL) then Some(last) else before
  }

  function LastName(es: seq<DeviceEvent>): string {
    if es == [] then ""
    else if es[|es| - 1].Enter? then es[|es| - 1].name
    else LastName(es[..|es| - 1])
  }

  /** When the device was last heard of: at its last entry or heartbeat. */
  function LastHeard(es: seq<DeviceEvent>): Time {
    if es == [] then 0
    else
      var last := es[|es| - 1];
      if last.Enter? || (last.Heartbeat? && last.device == NIL) then last.at else LastHeard(es[..|es| - 1])
  }

  /**
   * After any history the one row has the first team, the last name, the time of the last entry
   * or heartbeat and no address, and is online unless the last news of it is a departure.
   */
  lemma {:induction false} DeviceRowIs(es: seq<DeviceEvent>)
    ensures (LastNews(es) == None <==> FirstTeam(es) == None)
    ensures RecordAll(es) ==
            if FirstTeam(es) == None then map[]
            else map[NIL := Device(NIL, FirstTeam(es).value, LastName(es), None, None, LastHeard(es),
                                   !LastNews(es).value.Depart?)]
  {
    if es != [] {
      var front, last := es[..|es| - 1], es[|es| - 1];
      DeviceRowIs(front);
      FirstTeamSnoc(front, last);
      assert es == front + [last];
    }
  }

  class Database {
    var tasks: Rows
    var devices: Devices
    const isIp: string -> bool

    /** Rows are kept under their primary key. */
    ghost predicate Valid()
      reads this
    {
      forall id <- tasks :: tasks[id].id == id
    }

    /** isIp says which texts are addresses. */
    constructor (isIp: string -> bool)
      ensures Valid() && tasks == map[] && devices == map[] && this.isIp == isIp
    {
      tasks, devices := map[], map[];
      this.isIp := isIp;
    }

    method CreateTask(task: Task) returns (ok: bool)
      requires Valid()
      modifies this`tasks
      ensures Valid() && ok == CanInsert(old(tasks), task)
      ensures tasks == if ok then old(tasks)[task.id := task] else old(tasks)
    {
      ok := CanInsert(tasks, task);
      if ok {
        tasks := tasks[task.id := task];
      }
    }

    method UpdateTask(copy: Task)
      requires Valid()
      modifies this`tasks
      ensures Valid() && tasks == Update(old(tasks), copy)
    {
      if copy.id in tasks {
        tasks := tasks[copy.id := Overwrite(tasks[copy.id], copy)];
      }
    }

    method ReleaseTask(id: Uuid)
      requires Valid()
      modifies this`tasks
      ensures Valid() && tasks == Release(old(tasks), id)
    {
      if id in tasks {
        tasks := tasks[id := Released(tasks[id])];
      }
    }

    /** The rows of a team, each once, in whatever order the database returns them. */
    method GetTasksByTeam(team: Uuid) returns (found: seq<Task>)
      requires Valid()
      ensures forall t <- found :: InTeam(tasks, team, t.id) && tasks[t.id] == t
      ensures forall id | InTeam(tasks, team, id) :: tasks[id] in found
      ensures forall i, j | 0 <= i < j < |found| :: found[i].id != found[j].id
    {
      found := [];
      var rest := tasks.Keys;
      while rest != {}
        invariant rest <= tasks.Keys
        invariant forall t <- found :: t.id !in rest && InTeam(tasks, team, t.id) && tasks[t.id] == t
        invariant forall id | InTeam(tasks, team, id) :: id in rest || tasks[id] in found
        invariant forall i, j | 0 <= i < j < |found| :: found[i].id != found[j].id
        decreases |rest|
      {
        var id :| id in rest;
        rest := rest - {id};
        if tasks[id].teamId == team {
          found := found + [tasks[id]];
        }
      }
    }

    method GetClaimedTasks(team: Uuid) returns (found: seq<Task>)
      requires Valid()
      ensures forall t <- found :: InTeam(tasks, team, t.id) && tasks[t.id] == t && t.status == Claimed
      ensures forall id | InTeam(tasks, team, id) && tasks[id].status == Claimed :: tasks[id] in found
      ensures forall i, j | 0 <= i < j < |found| :: found[i].id != found[j].id
    {
      var all := GetTasksByTeam(team);
      found := [];
      for k := 0 to |all|
        invariant forall t <- found :: t in all[..k] && t.status == Claimed
        invariant forall t <- all[..k] :: t.status == Claimed ==> t in found
        invariant forall i, j | 0 <= i < j < |found| :: found[i].id != found[j].id
      {
        if all[k].status == Claimed {
          forall t <- found ensures t.id != all[k].id {
            var i :| 0 <= i < k && all[i] == t;
          }
          found := found + [all[k]];
        }
      }
    }

    /** SELECT DISTINCT team_id FROM devices. */
    method GetAllTeamIds() returns (teams: seq<Uuid>)
      ensures forall team :: team in teams <==> team in Teams(devices)
      ensures forall i, j | 0 <= i < j < |teams| :: teams[i] != teams[j]
    {
      teams := [];
      var rest := devices.Keys;
      while rest != {}
        invariant rest <= devices.Keys
        invariant forall id <- devices :: id in rest || devices[id].teamId in teams
        invariant forall team <- teams :: team in Teams(devices)
        invariant forall i, j | 0 <= i < j < |teams| :: teams[i] != teams[j]
        decreases |rest|
      {
        var id :| id in rest;
        rest := rest - {id};
        if devices[id].teamId !in teams {
          teams := teams + [devices[id].teamId];
        }
      }
    }

    method RegisterDevice(device: Device) returns (ok: bool)
      modifies this`devices
      ensures ok <==> (device.publicIp == None || isIp(device.publicIp.value)) && device.publicPort != Some(0)
      ensures devices == if ok then Register(old(devices), device) else old(devices)
    {
      if device.publicIp.Some? && !isIp(device.publicIp.value) {
        return false;
      }
      if device.publicPort == Some(0) {
        return false;
      }
      var row := device;
      if device.id in devices {
        row := row.(teamId := devices[device.id].teamId);
      }
      devices := devices[device.id := row];
      ok := true;
    }

    method UpdateDeviceHeartbeat(id: Uuid, now: Time)
      modifies this`devices
      ensures devices == Heard(old(devices), id, now)
    {
      if id in devices {
        devices := devices[id := devices[id].(lastSeen := now, isOnline := true)];
      }
    }

    method SetDeviceOffline(id: Uuid)
      modifies this`devices
      ensures devices == Offline(old(devices), id)
    {
      if id in devices {
        devices := devices[id := devices[id].(isOnline := false)];
      }
    }
  }
}
