/** Assigning URLs to devices by consistent hashing; the hash functions are arbitrary. */
module ConsistentHashing {
  import opened Types

  type Nodes = map<U64, Uuid>

  /** How far clockwise on the 64-bit circle a node lies from a URL's hash. */
  function Distance(from: U64, to: U64): nat {
    (to - from) % U64_COUNT
  }

  ghost predicate Nearest(keys: set<U64>, from: U64, k: U64) {
    k in keys && forall j <- keys :: Distance(from, k) <= Distance(from, j)
  }

  lemma DistanceIs(from: U64, to: U64)
    ensures Distance(from, to) == if from <= to then to - from else to - from + U64_COUNT
  {
  }

  /** No two nodes are equally far, so the nearest is unique. */
  lemma DistanceIsInjective(from: U64, j: U64, k: U64)
    requires Distance(from, j) == Distance(from, k)
    ensures j == k
  {
    DistanceIs(from, j);
    DistanceIs(from, k);
  }

  /**
   * The nearest node is the first at or after the URL's hash, or, when there is none, the first
   * of all: the successor lookup with wraparound.
   */
  lemma NearestIsSuccessor(keys: set<U64>, from: U64, k: U64)
    ensures Nearest(keys, from, k) <==>
            && k in keys
            && if exists j :: j in keys && j >= from
               then k >= from && forall j <- keys :: j >= from ==> k <= j
               else forall j <- keys :: k <= j
  {
    DistanceIs(from, k);
    forall j <- keys ensures Distance(from, j) == if from <= j then j - from else j - from + U64_COUNT {
      DistanceIs(from, j);
    }
  }

  lemma NearestExists(keys: set<U64>, from: U64)
    requires keys != {}
    ensures exists k :: Nearest(keys, from, k)
  {
    var k :| k in keys;
    if keys == {k} {
      assert Nearest(keys, from, k);
    } else {
      var others := keys - {k};
      assert keys == others + {k};
      NearestExists(others, from);
      var n :| Nearest(others, from, n);
      assert Nearest(keys, from, if Distance(from, k) <= Distance(from, n) then k else n);
    }
  }

  /** The device at the nearest node clockwise from a hash. */
  ghost function Owner(nodes: Nodes, from: U64): Option<Uuid> {
    if nodes == map[] then None
    else
      NearestExists(nodes.Keys, from);
      var k :| Nearest(nodes.Keys, from, k);
      Some(nodes[k])
  }

  lemma OwnerIs(nodes: Nodes, from: U64, k: U64)
    requires Nearest(nodes.Keys, from, k)
    ensures Owner(nodes, from) == Some(nodes[k])
  {
    forall j | Nearest(nodes.Keys, from, j) ensures j == k {
      DistanceIsInjective(from, j, k);
    }
  }

  /** Adding a device moves URLs to that device only, even when it takes over another's node. */
  lemma AddMovesUrlsToNewcomer(nodes: Nodes, slot: U64, device: Uuid, from: U64)
    ensures Owner(nodes[slot := device], from) in {Owner(nodes, from), Some(device)}
  {
    var after := nodes[slot := device];
    assert slot in after.Keys;
    NearestExists(after.Keys, from);
    var k :| Nearest(after.Keys, from, k);
    OwnerIs(after, from, k);
    if k != slot {
      assert Nearest(nodes.Keys, from, k);
      OwnerIs(nodes, from, k);
    }
  }

  /** Removing a device that holds its node moves only the URLs it owned. */
  lemma RemoveMovesOnlyItsUrls(nodes: Nodes, slot: U64, from: U64)
    requires slot in nodes && Owner(nodes, from) != Some(nodes[slot])
    ensures Owner(nodes - {slot}, from) == Owner(nodes, from)
  {
    NearestExists(nodes.Keys, from);
    var k :| Nearest(nodes.Keys, from, k);
    OwnerIs(nodes, from, k);
    assert Nearest((nodes - {slot}).Keys, from, k);
    OwnerIs(nodes - {slot}, from, k);
  }

  // ---------- histories ----------

  datatype Op = Join(device: Uuid) | Leave(device: Uuid)

  type DeviceHash = Uuid -> U64

  function Reseat(nodes: Nodes, op: Op, hash: DeviceHash): Nodes {
    match op
    case Join(d) => nodes[hash(d) := d]
    case Leave(d) => nodes - {hash(d)}
  }

  /** A join takes the device's node from whoever had it, and a leave clears it; no other changes. */
  lemma ReseatIs(nodes: Nodes, op: Op, hash: DeviceHash, k: U64)
    ensures var after := Reseat(nodes, op, hash);
            if k != hash(op.device) then (k in after <==> k in nodes) && (k in after ==> after[k] == nodes[k])
            else if op.Join? then k in after && after[k] == op.device
            else k !in after
  {
  }

  function Build(ops: seq<Op>, hash: DeviceHash): Nodes {
    if ops == [] then map[] else Reseat(Build(ops[..|ops| - 1], hash), ops[|ops| - 1], hash)
  }

  /** The devices that joined and have not left since. */
  function Present(ops: seq<Op>): set<Uuid> {
    if ops == [] then {}
    else
      var before := Present(ops[..|ops| - 1]);
      match ops[|ops| - 1]
      case Join(d) => before + {d}
      case Leave(d) => before - {d}
  }

  ghost predicate Mentions(ops: seq<Op>, devices: set<Uuid>) {
    forall op <- ops :: op.device in devices
  }

  ghost predicate CollisionFree(devices: set<Uuid>, hash: DeviceHash) {
    forall d <- devices, e <- devices | hash(d) == hash(e) :: d == e
  }

  /** Each present device sits at its hash, and nothing else is on the ring. */
  ghost predicate Represents(nodes: Nodes, present: set<Uuid>, hash: DeviceHash) {
    && (forall d <- present :: hash(d) in nodes && nodes[hash(d)] == d)
    && (forall k <- nodes :: nodes[k] in present && hash(nodes[k]) == k)
  }

  lemma {:induction false} PresentIsMentioned(ops: seq<Op>, devices: set<Uuid>)
    requires Mentions(ops, devices)
    ensures Present(ops) <= devices
  {
    if ops != [] {
      PresentIsMentioned(ops[..|ops| - 1], devices);
    }
  }

  lemma {:induction false} BuildRepresents(ops: seq<Op>, devices: set<Uuid>, hash: DeviceHash)
    requires Mentions(ops, devices) && CollisionFree(devices, hash)
    ensures Represents(Build(ops, hash), Present(ops), hash)
  {
    if ops != [] {
      var before := ops[..|ops| - 1];
      var op := ops[|ops| - 1];
      BuildRepresents(before, devices, hash);
      PresentIsMentioned(before, devices);
      assert op in ops;
    }
  }

  /** Of the present devices, the one whose hash comes first at or after a point of the circle. */
  ghost predicate Closest(present: set<Uuid>, from: U64, hash: DeviceHash, device: Uuid) {
    device in present && forall e <- present :: Distance(from, hash(device)) <= Distance(from, hash(e))
  }

  lemma OwnerIsClosest(nodes: Nodes, present: set<Uuid>, hash: DeviceHash, from: U64, device: Uuid)
    requires Represents(nodes, present, hash)
    ensures Owner(nodes, from) == Some(device) <==> Closest(present, from, hash, device)
    ensures Owner(nodes, from) == None <==> present == {}
  {
    if nodes == map[] {
      assert forall d <- present :: hash(d) in nodes;
    } else {
      NearestExists(nodes.Keys, from);
      var k :| Nearest(nodes.Keys, from, k);
      OwnerIs(nodes, from, k);
      assert nodes[k] in present;
      if Closest(present, from, hash, device) {
        DistanceIsInjective(from, hash(device), k);
      }
    }
  }

  /**
   * After any joins and leaves of devices with distinct hashes, a URL's owner is the present
   * device that follows it most closely, and there is none exactly when nobody is present.
   */
  lemma OwnerFollowsPresence(ops: seq<Op>, devices: set<Uuid>, hash: DeviceHash, from: U64, device: Uuid)
    requires Mentions(ops, devices) && CollisionFree(devices, hash)
    ensures Owner(Build(ops, hash), from) == Some(device) <==> Closest(Present(ops), from, hash, device)
    ensures Owner(Build(ops, hash), from) == None <==> Present(ops) == {}
  {
    BuildRepresents(ops, devices, hash);
    OwnerIsClosest(Build(ops, hash), Present(ops), hash, from, device);
  }

  lemma SamePresenceSameRing(nodes: Nodes, other: Nodes, present: set<Uuid>, hash: DeviceHash)
    requires Represents(nodes, present, hash) && Represents(other, present, hash)
    ensures nodes == other
  {
    assert forall k <- nodes :: k in other && other[k] == nodes[k];
    assert forall k <- other :: k in nodes;
  }

  /** Order and history do not matter. */
  lemma HistoryDoesNotMatter(ops: seq<Op>, others: seq<Op>, devices: set<Uuid>, hash: DeviceHash)
    requires Mentions(ops, devices) && Mentions(others, devices) && CollisionFree(devices, hash)
    requires Present(ops) == Present(others)
    ensures Build(ops, hash) == Build(others, hash)
  {
    BuildRepresents(ops, devices, hash);
    BuildRepresents(others, devices, hash);
    SamePresenceSameRing(Build(ops, hash), Build(others, hash), Present(ops), hash);
  }

  /** With a collision the history does show: the one who leaves takes the other's node away. */
  lemma CollisionLosesADevice(d: Uuid, e: Uuid, hash: DeviceHash)
    requires d != e && hash(d) == hash(e)
    ensures Present([Join(d), Join(e), Leave(d)]) == {e}
    ensures Build([Join(d), Join(e), Leave(d)], hash) == map[]
  {
    var ops := [Join(d), Join(e), Leave(d)];
    assert ops[..2] == [Join(d), Join(e)];
    assert ops[..2][..1] == [Join(d)];
    assert ops[..2][..1][..0] == [];
    assert Present(ops[..2][..1]) == {d};
    assert Present(ops[..2]) == {d, e};
    assert Build(ops[..2][..1], hash) == map[hash(d) := d];
    assert Build(ops[..2], hash) == map[hash(e) := e];
  }

  /** The ring stands for the present devices after every history exactly when no hashes collide. */
  lemma RingIsFaithfulIffCollisionFree(devices: set<Uuid>, hash: DeviceHash)
    ensures (forall ops: seq<Op> :: Mentions(ops, devices) ==> Represents(Build(ops, hash), Present(ops), hash))
            <==> CollisionFree(devices, hash)
  {
    if CollisionFree(devices, hash) {
      forall ops: seq<Op> | Mentions(ops, devices) ensures Represents(Build(ops, hash), Present(ops), hash) {
        BuildRepresents(ops, devices, hash);
      }
    } else {
      var d, e :| d in devices && e in devices && hash(d) == hash(e) && d != e;
      CollisionLosesADevice(d, e, hash);
      var ops := [Join(d), Join(e), Leave(d)];
      assert Mentions(ops, devices);
      assert e in Present(ops);
    }
  }

  // ---------- the ring as the server holds it ----------

  /** The sorted map's range query: the least key at or above a bound. */
  method FirstFrom(keys: set<U64>, bound: U64) returns (first: Option<U64>)
    ensures first == None ==> forall j <- keys :: j < bound
    ensures first.Some? ==> first.value in keys && first.value >= bound
    ensures first.Some? ==> forall j <- keys :: j >= bound ==> first.value <= j
  {
    first := None;
    var rest := keys;
    while rest != {}
      invariant rest <= keys
      invariant first == None ==> forall j <- keys :: j in rest || j < bound
      invariant first.Some? ==> first.value in keys && first.value >= bound
      invariant first.Some? ==> forall j <- keys :: j in rest || j < bound || first.value <= j
      decreases |rest|
    {
      var k :| k in rest;
      rest := rest - {k};
      if k >= bound && (first == None || k < first.value) {
        first := Some(k);
      }
    }
  }

  class HashRing {
    const hashDevice: DeviceHash
    const hashUrl: string -> U64
    var nodes: Nodes
    var devices: map<Uuid, Device>

    constructor (hashDevice: DeviceHash, hashUrl: string -> U64)
      ensures nodes == map[] && devices == map[]
      ensures this.hashDevice == hashDevice && this.hashUrl == hashUrl
    {
      this.hashDevice, this.hashUrl := hashDevice, hashUrl;
      nodes, devices := map[], map[];
    }

    method AddDevice(device: Device)
      modifies this
      ensures nodes == Reseat(old(nodes), Join(device.id), hashDevice)
      ensures devices == old(devices)[device.id := device]
    {
      nodes := nodes[hashDevice(device.id) := device.id];
      devices := devices[device.id := device];
    }

    method RemoveDevice(id: Uuid)
      modifies this
      ensures nodes == Reseat(old(nodes), Leave(id), hashDevice)
      ensures devices == old(devices) - {id}
    {
      nodes := nodes - {hashDevice(id)};
      devices := devices - {id};
    }

    /** The successor lookup with wraparound finds the node nearest in modular distance. */
    method GetOwner(url: string) returns (owner: Option<Uuid>)
      ensures owner == Owner(nodes, hashUrl(url))
    {
      if nodes == map[] {
        return None;
      }
      var from := hashUrl(url);
      var next := FirstFrom(nodes.Keys, from);
      if next == None {
        next := FirstFrom(nodes.Keys, 0);
      }
      owner := Some(nodes[next.value]);
      forall j <- nodes.Keys ensures Distance(from, next.value) <= Distance(from, j) {
        DistanceIs(from, j);
        DistanceIs(from, next.value);
      }
      OwnerIs(nodes, from, next.value);
    }
  }
}
