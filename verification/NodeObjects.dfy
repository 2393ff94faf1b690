/**
 The vnode and device objects of the proxy node, updated in place. Each method is tied to the functions of
 NodeInfo through View(), the value the object stands for.
 */
module NodeObjects {
  import opened ProxyTypes
  import opened NodeInfo

  /** Position of the first occurrence of `x`, or |list| if there is none. */
  function IndexOf(list: seq<nat>, x: int): (i: nat)
    ensures i <= |list|
    ensures i < |list| ==> list[i] == x
    ensures forall j :: 0 <= j < i ==> list[j] != x
  {
    if list == [] || list[0] == x then 0 else 1 + IndexOf(list[1..], x)
  }

  function RemoveAt<T>(list: seq<T>, i: nat): (list': seq<T>)
    requires i < |list|
    ensures |list'| == |list| - 1
    ensures multiset(list') == multiset(list) - multiset{list[i]}
  {
    assert list == list[..i] + [list[i]] + list[i + 1..];
    list[..i] + list[i + 1..]
  }

  ghost predicate NoDuplicates(list: seq<nat>) {
    forall i, j :: 0 <= i < j < |list| ==> list[i] != list[j]
  }

  /** What is removed from a list without duplicates is not in it any more. */
  lemma RemovedOnce(list: seq<nat>, i: nat)
    requires i < |list| && NoDuplicates(list)
    ensures var list' := RemoveAt(list, i); NoDuplicates(list') && forall v :: v in list' <==> v in list && v != list[i]
  {
    var list' := RemoveAt(list, i);
    assert forall k :: 0 <= k < |list'| ==> list'[k] == list[if k < i then k else k + 1];
    forall v | v in list && v != list[i]
      ensures v in list'
    {
      var k :| 0 <= k < |list| && list[k] == v;
      assert list'[if k < i then k else k - 1] == v;
    }
  }

  /** The search loops over a list of vnodes. */
  method PositionOf(list: seq<nat>, x: int) returns (i: nat)
    ensures i == IndexOf(list, x)
  {
    i := 0;
    while i < |list| && list[i] != x
      invariant i <= |list|
      invariant forall j :: 0 <= j < i ==> list[j] != x
    {
      i := i + 1;
    }
  }

  /** Position of the first event for vnode `v`, or |events| if there is none. */
  function EventIndex(events: seq<Event>, v: int): (i: nat)
    ensures i <= |events|
    ensures i < |events| ==> events[i].vnode == v
    ensures forall j :: 0 <= j < i ==> events[j].vnode != v
  {
    if events == [] || events[0].vnode == v then 0 else 1 + EventIndex(events[1..], v)
  }

  class DeviceInfo {
    var zone: int
    var weight: int
    var listed: seq<nat>
    var pending: seq<Event>
    var syncing: seq<Event>

    constructor (zone: int, weight: int)
      ensures View() == Device(zone, weight, [], [], [])
    {
      this.zone, this.weight := zone, weight;
      listed, pending, syncing := [], [], [];
    }

    ghost function View(): Device
      reads this
    {
      Device(zone, weight, listed, pending, syncing)
    }

    /** Erases the first occurrence of `v`; -1 if there is none. */
    method EraseVnode(v: int) returns (res: int)
      modifies this`listed
      ensures var i := IndexOf(old(listed), v);
              if i < |old(listed)| then res == 0 && listed == RemoveAt(old(listed), i)
              else res == -1 && listed == old(listed)
    {
      var i := PositionOf(listed, v);
      if i == |listed| {
        return -1;
      }
      listed := RemoveAt(listed, i);
      return 0;
    }

    /** Removes and returns the first syncing event for `v`; None stands for a null destination. */
    method PopSyncing(v: int) returns (e: Option<Event>)
      modifies this`syncing
      ensures var i := EventIndex(old(syncing), v);
              if i < |old(syncing)| then e == Some(old(syncing)[i]) && syncing == RemoveAt(old(syncing), i)
              else e == None && syncing == old(syncing)
    {
      var i := 0;
      while i < |syncing|
        invariant i <= |syncing|
        invariant forall j :: 0 <= j < i ==> syncing[j].vnode != v
      {
        if syncing[i].vnode == v {
          e := Some(syncing[i]);
          assert i == EventIndex(syncing, v);
          syncing := RemoveAt(syncing, i);
          return;
        }
        i := i + 1;
      }
      e := None;
    }
  }

  ghost function DeviceViews(devices: seq<DeviceInfo>): (s: seq<Device>)
    reads devices
    ensures |s| == |devices|
    ensures forall i :: 0 <= i < |s| ==> s[i] == devices[i].View()
  {
    seq(|devices|, i requires 0 <= i < |devices| reads devices => devices[i].View())
  }

  /** The state of a vnode after a read scan, and the position found. */
  function ReadReplica(vn: Vnode): (r: (Vnode, Option<nat>))
    ensures r.0.replicas == vn.replicas && r.0.version == vn.version
    ensures r.1.Some? ==> r.1.value < |vn.replicas| && vn.replicas[r.1.value].status.Active?
    ensures r.1.None? ==> forall x :: x in vn.replicas ==> !x.status.Active?
  {
    if vn.replicas == [] then (vn, None)
    else
      ScanComplete(vn.replicas, vn.rd);
      var r := ScanFrom(vn.replicas, vn.rd);
      (vn.(rd := r.cursor), r.found)
  }

  /**
   A read scan answers the ACTIVE replica that comes next on the ring and moves the cursor right behind it. It changes
   nothing else.
   */
  lemma ReadReplicaIs(vn: Vnode, p: nat)
    ensures ReadReplica(vn).1 == Some(p) <==> ComesNext(vn.replicas, vn.rd, p)
    ensures ReadReplica(vn).1 == Some(p) ==> ReadReplica(vn).0 == vn.(rd := p + 1)
    ensures ReadReplica(vn).0 == vn.(rd := ReadReplica(vn).0.rd)
  {
    if vn.replicas != [] {
      ScanIs(vn.replicas, vn.rd, p);
    }
  }

  /** The state of a vnode after `m` read scans, and what they answered. */
  function Reads(vn: Vnode, m: nat): (r: (Vnode, seq<Option<nat>>))
    ensures |r.1| == m
    decreases m
  {
    if m == 0 then (vn, [])
    else
      var (vn', pos) := ReadReplica(vn);
      var (vn'', rest) := Reads(vn', m - 1);
      (vn'', [pos] + rest)
  }

  /** One more request. */
  lemma {:induction false} ReadsMore(vn: Vnode, m: nat)
    ensures var (before, answers) := Reads(vn, m);
            Reads(vn, m + 1) == (ReadReplica(before).0, answers + [ReadReplica(before).1])
    decreases m
  {
    var (vn', pos) := ReadReplica(vn);
    if m == 0 {
      assert Reads(vn', 0) == (vn', []);
      assert [pos] + [] == [] + [pos];
    } else {
      ReadsMore(vn', m - 1);
      var (before, answers) := Reads(vn', m - 1);
      assert [pos] + (answers + [ReadReplica(before).1]) == ([pos] + answers) + [ReadReplica(before).1];
    }
  }

  lemma {:induction false} ReadsArePicks(vn: Vnode, m: nat)
    requires vn.replicas != []
    ensures Reads(vn, m).1 == Picks(vn.replicas, vn.rd, m)
    ensures Reads(vn, m).0 == vn.(rd := Reads(vn, m).0.rd)
    decreases m
  {
    if m > 0 {
      ReadReplicaCursor(vn);
      ReadsArePicks(ReadReplica(vn).0, m - 1);
      PicksFirst(vn.replicas, vn.rd, m - 1);
    }
  }

  lemma ReadReplicaCursor(vn: Vnode)
    requires vn.replicas != []
    ensures ReadReplica(vn).0 == vn.(rd := ScanFrom(vn.replicas, vn.rd).cursor)
    ensures ReadReplica(vn).1 == ScanFrom(vn.replicas, vn.rd).found
  {
  }

  /** The answers are the ACTIVE replicas, each of them once. */
  ghost predicate EachOnce(rs: seq<Replica>, answers: seq<Option<nat>>) {
    && (forall i :: 0 <= i < |answers| ==> answers[i].Some? && answers[i].value in ActiveSet(rs))
    && (forall i, j :: 0 <= i < j < |answers| ==> answers[i] != answers[j])
    && (forall p :: p in ActiveSet(rs) ==> Some(p) in answers)
  }

  /**
   Fairness of read requests: with k ACTIVE replicas, k requests in a row are answered with each of them exactly once,
   wherever the cursor stands, and the next request begins the same round.
   */
  lemma ReadsAreFair(vn: Vnode)
    ensures EachOnce(vn.replicas, Reads(vn, |ActiveSet(vn.replicas)|).1)
    ensures var k := |ActiveSet(vn.replicas)|; k > 0 ==> Reads(vn, k + 1).1[k] == Reads(vn, k + 1).1[0]
    ensures Reads(vn, |ActiveSet(vn.replicas)|).0.replicas == vn.replicas
  {
    var k := |ActiveSet(vn.replicas)|;
    if vn.replicas == [] {
      assert ActiveSet(vn.replicas) == {};
    } else {
      ReadsArePicks(vn, k);
      ReadsArePicks(vn, k + 1);
      ScanFair(vn.replicas, vn.rd);
      PicksFirst(vn.replicas, vn.rd, k);
      PicksFirst(vn.replicas, vn.rd, 0);
    }
  }

  /**
   The state of a vnode after a write scan. As written, the walk to the cursor counts the READ cursor's steps
   (node_info.cpp:117): it stays on one replica, and leaves the list when that cursor is past its end.
   With `ownCursor` the walk counts the write cursor's.
   */
  function WriteReplica(vn: Vnode, ownCursor: bool): Outcome<(Vnode, Option<nat>)> {
    var n := |vn.replicas|;
    if n == 0 then Ok((vn, None))
    else if ownCursor then
      var r := ScanFrom(vn.replicas, vn.wr);
      Ok((vn.(wr := r.cursor), r.found))
    else if vn.rd >= n then Fault
    else if vn.replicas[vn.rd].status.Active? then Ok((vn.(wr := Start(vn.wr, n) + 1), Some(vn.rd)))
    else Ok((vn.(wr := Around(Start(vn.wr, n), n - 1, n) + 1), None))
  }

  class VnodeInfo {
    var version: int
    var rd: nat
    var wr: nat
    var replicas: seq<Replica>

    /** A fresh vnode after CVnodeContainer::initilize. */
    constructor ()
      ensures View() == Vnode(0, 0, 0, [])
    {
      version, rd, wr, replicas := 0, 0, 0, [];
    }

    ghost function View(): Vnode
      reads this
    {
      Vnode(version, rd, wr, replicas)
    }

    method GetReadReplica() returns (pos: Option<nat>)
      modifies this`rd
      ensures (View(), pos) == ReadReplica(old(View()))
    {
      var n := |replicas|;
      if n == 0 {
        return None;
      }
      ghost var start := Start(rd, n);
      var i := 0;
      while i < n
        invariant i <= n == |replicas|
        invariant i == 0 ==> rd == old(rd)
        invariant i > 0 ==> rd == Around(start, i - 1, n) + 1
        invariant forall k :: 0 <= k < i ==> !replicas[Around(start, k, n)].status.Active?
      {
        if rd >= n {
          rd := 0;
        }
        assert rd == Around(start, i, n);
        var at := rd;
        rd := rd + 1;
        if replicas[at].status.Active? {
          assert NextActive(replicas, start, 0) == i;
          return Some(at);
        }
        i := i + 1;
      }
      return None;
    }

    method GetWriteReplica(ownCursor: bool) returns (res: Outcome<Option<nat>>)
      modifies this`wr
      ensures match WriteReplica(old(View()), ownCursor)
              case Fault => res == Fault
              case Ok((vn, pos)) => View() == vn && res == Ok(pos)
    {
      var n := |replicas|;
      if n == 0 {
        return Ok(None);
      }
      ghost var start := Start(wr, n);
      var i := 0;
      while i < n
        invariant i <= n == |replicas|
        invariant i == 0 ==> wr == old(wr)
        invariant i > 0 ==> wr == Around(start, i - 1, n) + 1
        invariant ownCursor ==> forall k :: 0 <= k < i ==> !replicas[Around(start, k, n)].status.Active?
        invariant !ownCursor && i > 0 ==> rd < n && !replicas[rd].status.Active?
      {
        if wr >= n {
          wr := 0;
        }
        assert wr == Around(start, i, n);
        var steps := if ownCursor then wr else rd;
        if steps >= n {
          return Fault;
        }
        wr := wr + 1;
        if replicas[steps].status.Active? {
          if ownCursor {
            assert NextActive(replicas, start, 0) == i;
          }
          return Ok(Some(steps));
        }
        i := i + 1;
      }
      return Ok(None);
    }

    method GetReplicaInfo(dev: nat) returns (i: nat)
      ensures i == Find(replicas, dev)
    {
      i := 0;
      while i < |replicas| && replicas[i].dev != dev
        invariant i <= |replicas|
        invariant forall j :: 0 <= j < i ==> replicas[j].dev != dev
      {
        i := i + 1;
      }
    }

    method TestDiffZones(devices: seq<DeviceInfo>, zone: int) returns (diff: bool)
      ensures diff == IsDiffZones(replicas, DeviceViews(devices), zone)
    {
      var i := 0;
      while i < |replicas|
        invariant i <= |replicas|
        invariant IsDiffZones(replicas[..i], DeviceViews(devices), zone)
      {
        var dev := replicas[i].dev;
        if dev < |devices| && devices[dev].zone == zone {
          assert replicas[i] in replicas;
          return false;
        }
        i := i + 1;
      }
      assert replicas[..i] == replicas;
      return true;
    }

    method DestroyReplica(dev: nat)
      modifies this`replicas
      ensures replicas == Destroy(old(replicas), dev)
    {
      var i := GetReplicaInfo(dev);
      if i < |replicas| {
        replicas := replicas[..i] + replicas[i + 1..];
      }
    }
  }

  ghost function VnodeViews(vnodes: seq<VnodeInfo>): (s: seq<Vnode>)
    reads vnodes
    ensures |s| == |vnodes|
    ensures forall i :: 0 <= i < |s| ==> s[i] == vnodes[i].View()
  {
    seq(|vnodes|, i requires 0 <= i < |vnodes| reads vnodes => vnodes[i].View())
  }
}
