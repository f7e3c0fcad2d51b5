/** The request handlers and the timeout sweep, each run without interruption. */
module ServerHandlers {
  import opened Types
  import opened TaskTable
  import opened Lease
  import opened LeaseTheorems
  import opened ServerDatabase
  import opened ConsistentHashing

  method Find(tasks: seq<Task>, id: Uuid) returns (task: Option<Task>)
    ensures task == None ==> forall t <- tasks :: t.id != id
    ensures task.Some? ==> task.value in tasks && task.value.id == id
  {
    for k := 0 to |tasks|
      invariant forall t <- tasks[..k] :: t.id != id
    {
      if tasks[k].id == id {
        return Some(tasks[k]);
      }
    }
    task := None;
  }

  /**
   * Whatever teams were created and joined, a sweep releases the overdue tasks of the first one
   * and no others, however long those have been held.
   */
  lemma OnlyTheFirstTeamIsSwept(es: seq<DeviceEvent>, rows: Rows, clock: Uuid -> Time, id: Uuid)
    requires id in rows
    ensures SweptRows(rows, Teams(RecordAll(es)), clock)[id] ==
            if FirstTeam(es) == Some(rows[id].teamId) && Overdue(rows[id], rows[id].teamId, clock(rows[id].teamId))
            then Released(rows[id]) else rows[id]
  {
    OnlyTheFirstTeamIsKnown(es);
  }

  class MessageHandler {
    const db: Database
    const ring: HashRing
    var sent: seq<Sent>

    ghost predicate Valid()
      reads this, db
    {
      db.Valid()
    }

    ghost function Abstract(): State
      reads this, db
    {
      State(db.tasks, sent)
    }

    constructor (db: Database, ring: HashRing)
      requires db.Valid()
      ensures this.db == db && this.ring == ring && Valid() && sent == []
    {
      this.db, this.ring := db, ring;
      sent := [];
    }

    method SendTo(at: Time, to: Address, msg: ServerMessage)
      modifies this`sent
      ensures sent == old(sent) + [Sent(at, to, msg)]
    {
      sent := sent + [Sent(at, to, msg)];
    }

    method HandleAddTask(device: Uuid, team: Uuid, id: Uuid, url: string, createdAt: Time, at: Time)
      requires Valid()
      modifies this`sent, db`tasks
      ensures Valid()
      ensures Abstract() ==
              Apply(old(Abstract()), Add(device, team, id, url, createdAt, Owner(ring.nodes, ring.hashUrl(url)), at))
    {
      var task := NewTask(id, url, team, device, createdAt).(status := Queued);
      var created := db.CreateTask(task);
      if !created {
        SendTo(at, ToDevice(device), Error("URL already exists"));
        return;
      }
      var owner := ring.GetOwner(task.url);
      if owner.Some? {
        task := task.(status := Claimed, claimedBy := owner, claimedAt := Some(at));
        db.UpdateTask(task);
        SendTo(at, ToDevice(owner.value), TaskClaimed(task.id, owner.value));
      }
      SendTo(at, ToTeam(team), TaskAdded(task));
    }

    method HandleClaimTask(device: Uuid, team: Uuid, id: Uuid, at: Time)
      requires Valid()
      modifies this`sent, db`tasks
      ensures Valid() && Abstract() == Apply(old(Abstract()), Modify(device, team, id, Claim, at))
    {
      var tasks := db.GetTasksByTeam(team);
      var found := Find(tasks, id);
      if found.Some? {
        var task := found.value;
        if task.status != Queued {
          SendTo(at, ToDevice(device), Error("Task not available"));
          return;
        }
        task := task.(status := Claimed, claimedBy := Some(device), claimedAt := Some(at), version := task.version + 1);
        db.UpdateTask(task);
        SendTo(at, ToTeam(team), TaskClaimed(id, device));
        return;
      }
      SendTo(at, ToDevice(device), Error("Task not found"));
    }

    method HandleUpdateProgress(device: Uuid, team: Uuid, id: Uuid, progress: real, at: Time)
      requires Valid()
      modifies this`sent, db`tasks
      ensures Valid() && Abstract() == Apply(old(Abstract()), Modify(device, team, id, Progress(progress), at))
    {
      var tasks := db.GetTasksByTeam(team);
      var found := Find(tasks, id);
      if found.Some? {
        var task := found.value;
        if task.claimedBy != Some(device) {
          return;
        }
        task := task.(progress := progress, version := task.version + 1);
        db.UpdateTask(task);
        SendTo(at, ToTeam(team), TaskUpdated(task));
      }
    }

    method HandleTaskComplete(device: Uuid, team: Uuid, id: Uuid, path: string, size: nat, at: Time)
      requires Valid()
      modifies this`sent, db`tasks
      ensures Valid() && Abstract() == Apply(old(Abstract()), Modify(device, team, id, Finish(path, size), at))
    {
      var tasks := db.GetTasksByTeam(team);
      var found := Find(tasks, id);
      if found.Some? {
        var task := found.value;
        if task.claimedBy != Some(device) {
          return;
        }
        task := task.(status := Complete, localPath := Some(path), fileSize := Some(size), progress := 1.0,
                      version := task.version + 1);
        db.UpdateTask(task);
        SendTo(at, ToTeam(team), TaskUpdated(task));
      }
    }

    /** The end of creating and of joining a team: its device row, whatever the session's device. */
    method RegisterEntrant(team: Uuid, name: string, at: Time)
      modifies db`devices
      ensures db.devices == Record(old(db.devices), Enter(team, name, at))
    {
      var ok := db.RegisterDevice(Device(NIL, team, name, None, None, at, true));
    }

    method HandleHeartbeat(device: Uuid, at: Time)
      modifies db`devices
      ensures db.devices == Record(old(db.devices), Heartbeat(device, at))
    {
      db.UpdateDeviceHeartbeat(device, at);
    }

    /** A device that leaves goes offline and off the ring; its claims stay. */
    method HandleLeaveTeam(device: Uuid)
      modifies db`devices, ring
      ensures db.devices == Record(old(db.devices), Depart(device))
      ensures ring.nodes == Reseat(old(ring.nodes), Leave(device), ring.hashDevice)
      ensures ring.devices == old(ring.devices) - {device}
    {
      db.SetDeviceOffline(device);
      ring.RemoveDevice(device);
    }

    /** Releases the overdue tasks of one team, as the events of some order of its claimed tasks. */
    method CheckTaskTimeouts(team: Uuid, now: Time) returns (ghost order: seq<Uuid>)
      requires Valid()
      modifies this`sent, db`tasks
      ensures Valid() && Abstract() == Run(old(Abstract()), Timeouts(team, order, now))
      ensures forall id <- old(db.tasks) ::
                old(db.tasks)[id].teamId == team && old(db.tasks)[id].status == Claimed ==> id in order
    {
      var tasks := db.GetClaimedTasks(team);
      ghost var before := Abstract();
      order := [];
      for k := 0 to |tasks|
        invariant Valid() && |order| == k && Abstract() == Run(before, Timeouts(team, order, now))
        invariant forall i | 0 <= i < k :: order[i] == tasks[i].id
        invariant forall i | k <= i < |tasks| ::
                    InTeam(db.tasks, team, tasks[i].id) && db.tasks[tasks[i].id] == tasks[i]
      {
        TimeoutsSnoc(before, team, order, tasks[k].id, now);
        order := order + [tasks[k].id];
        if tasks[k].claimedAt.Some? {
          var elapsed := now - tasks[k].claimedAt.value;
          if NumMinutes(elapsed) >= 5 && tasks[k].progress < 1.0 {
            db.ReleaseTask(tasks[k].id);
            SendTo(now, ToTeam(team), TaskReleased(tasks[k].id, "timeout"));
          }
        }
      }
      forall id | InTeam(before.rows, team, id) && before.rows[id].status == Claimed ensures id in order {
        var i :| 0 <= i < |tasks| && tasks[i] == before.rows[id];
        assert order[i] == id;
      }
    }

    /** The whole sweep releases exactly the overdue tasks of the teams that have a device row. */
    method CheckAllTaskTimeouts(clock: Uuid -> Time) returns (ghost es: seq<Event>)
      requires Valid()
      modifies this`sent, db`tasks
      ensures Valid() && Abstract() == Run(old(Abstract()), es)
      ensures db.tasks == SweptRows(old(db.tasks), Teams(db.devices), clock)
      ensures forall id <- db.tasks | db.tasks[id].teamId in Teams(db.devices) ::
                !Overdue(db.tasks[id], db.tasks[id].teamId, clock(db.tasks[id].teamId))
    {
      var teams := db.GetAllTeamIds();
      ghost var before := Abstract();
      ghost var done: set<Uuid> := {};
      es := [];
      for k := 0 to |teams|
        invariant Valid() && Abstract() == Run(before, es)
        invariant forall i | 0 <= i < |teams| :: i < k <==> teams[i] in done
        invariant done <= Teams(db.devices)
        invariant db.tasks == SweptRows(before.rows, done, clock)
      {
        ghost var s := Abstract();
        ghost var order := CheckTaskTimeouts(teams[k], clock(teams[k]));
        RunConcat(before, es, Timeouts(teams[k], order, clock(teams[k])));
        es := es + Timeouts(teams[k], order, clock(teams[k]));
        SweepOneMoreTeam(before.rows, done, clock, s, teams[k], order);
        done := done + {teams[k]};
      }
      assert done == Teams(db.devices);
      forall id <- db.tasks | db.tasks[id].teamId in done
        ensures !Overdue(db.tasks[id], db.tasks[id].teamId, clock(db.tasks[id].teamId))
      {
        SweptRowsAreNotOverdue(before.rows, done, clock, id);
      }
    }
  }
}
