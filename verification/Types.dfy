/** The values shared by the collaboration server and its clients. */
module Types {
  datatype Option<+T> = None | Some(value: T)

  const UUID_COUNT: nat := 0x1_0000_0000_0000_0000_0000_0000_0000_0000
  const U64_COUNT: nat := 0x1_0000_0000_0000_0000

  /** A UUID is its 128-bit value; the nil UUID is 0. */
  type Uuid = n: nat | n < UUID_COUNT

  type Byte = n: nat | n < 256

  type U16 = n: nat | n < 0x1_0000

  type U64 = n: nat | n < U64_COUNT

  /** Debug builds stop at an integer overflow, release builds wrap around. */
  datatype Build = DebugBuild | ReleaseBuild

  function AddU64(build: Build, a: U64, b: U64): Option<U64> {
    if a + b < U64_COUNT then Some(a + b) else if build.DebugBuild? then None else Some(a + b - U64_COUNT)
  }

  /** Nanoseconds since the epoch. */
  type Time = int

  const NANOS_PER_SECOND: nat := 1_000_000_000

  datatype TaskStatus = New | Queued | Claimed | Complete | Failed

  datatype Task = Task(
    id: Uuid,
    teamId: Uuid,
    url: string,
    status: TaskStatus,
    claimedBy: Option<Uuid>,
    claimedAt: Option<Time>,
    progress: real,
    localPath: Option<string>,
    fileSize: Option<nat>,
    createdBy: Uuid,
    createdAt: Time,
    version: nat)

  function NewTask(id: Uuid, url: string, teamId: Uuid, createdBy: Uuid, createdAt: Time): Task {
    Task(id, teamId, url, New, None, None, 0.0, None, None, createdBy, createdAt, 1)
  }

  datatype Device = Device(
    id: Uuid,
    teamId: Uuid,
    name: string,
    publicIp: Option<string>,
    publicPort: Option<U16>,
    lastSeen: Time,
    isOnline: bool)

  datatype ServerMessage =
    | TaskAdded(task: Task)
    | TaskClaimed(taskId: Uuid, deviceId: Uuid)
    | TaskUpdated(task: Task)
    | TaskReleased(taskId: Uuid, reason: string)
    | Error(message: string)
}
