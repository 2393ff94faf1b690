/**
 How many replicas of a vnode are there to stay, and how each step changes that number.
 */
module Counting {
  import opened ProxyTypes
  import opened NodeInfo
  import opened NodeObjects
  import opened Protocol
  import opened Invariant
  import opened Steps
  import opened HeartbeatSteps
  import opened SyncDownSteps
  import opened JoinSteps
  import opened JoinLoops
  import opened JoinInduction

  function Stays(r: Replica): nat {
    if r.status.MoveSrc? then 0 else 1
  }

  /** Replicas that are not MOVE_SRC. */
  function CountLive(rs: seq<Replica>): nat {
    if rs == [] then 0 else Stays(rs[0]) + CountLive(rs[1..])
  }

  lemma {:induction false} CountSame(rs: seq<Replica>, rs': seq<Replica>)
    requires |rs'| == |rs| && forall i :: 0 <= i < |rs| ==> Stays(rs'[i]) == Stays(rs[i])
    ensures CountLive(rs') == CountLive(rs)
  {
    if rs != [] {
      CountSame(rs[1..], rs'[1..]);
    }
  }

  lemma {:induction false} CountSet(rs: seq<Replica>, i: nat, r: Replica)
    requires i < |rs|
    ensures CountLive(rs[i := r]) + Stays(rs[i]) == CountLive(rs) + Stays(r)
  {
    if i == 0 {
      assert rs[0 := r][1..] == rs[1..];
    } else {
      assert rs[i := r][1..] == rs[1..][i - 1 := r];
      CountSet(rs[1..], i - 1, r);
    }
  }

  lemma {:induction false} CountAppend(rs: seq<Replica>, r: Replica)
    ensures CountLive(rs + [r]) == CountLive(rs) + Stays(r)
  {
    if rs != [] {
      assert (rs + [r])[1..] == rs[1..] + [r];
      CountAppend(rs[1..], r);
    } else {
      assert [r][1..] == [];
    }
  }

  lemma {:induction false} CountRemove(rs: seq<Replica>, i: nat)
    requires i < |rs|
    ensures CountLive(rs[..i] + rs[i + 1..]) + Stays(rs[i]) == CountLive(rs)
  {
    if i == 0 {
      assert rs[..0] + rs[1..] == rs[1..];
    } else {
      assert (rs[..i] + rs[i + 1..])[1..] == rs[1..][..i - 1] + rs[1..][i..];
      CountRemove(rs[1..], i - 1);
    }
  }

  /** No vnode has more staying replicas than devices, or than the configured number. */
  ghost predicate Counted(s: State) {
    forall v: nat :: v < |s.vnodes| ==>
      var n := CountLive(s.vnodes[v].replicas); n <= |s.devices| && (n > 0 ==> n <= s.replicaCount)
  }

  ghost predicate SameCounts(s: State, s': State) {
    && |s'.vnodes| == |s.vnodes|
    && forall v: nat :: v < |s.vnodes| ==> CountLive(s'.vnodes[v].replicas) == CountLive(s.vnodes[v].replicas)
  }

  lemma SamePlacesCounts(s: State, s': State)
    requires SamePlaces(s, s')
    ensures SameCounts(s, s')
  {
    forall v: nat | v < |s.vnodes|
      ensures CountLive(s'.vnodes[v].replicas) == CountLive(s.vnodes[v].replicas)
    {
      assert SameDevs(s.vnodes[v].replicas, s'.vnodes[v].replicas);
      CountSame(s.vnodes[v].replicas, s'.vnodes[v].replicas);
    }
  }

  lemma SetCount(rs: seq<Replica>, d: nat, st: Status)
    requires Find(rs, d) < |rs|
    ensures CountLive(SetStatus(rs, d, st)) + Stays(rs[Find(rs, d)]) == CountLive(rs) + Stays(Replica(st, d))
  {
    CountSet(rs, Find(rs, d), Replica(st, d));
  }

  lemma DestroyCount(rs: seq<Replica>, d: nat)
    requires Find(rs, d) < |rs| && rs[Find(rs, d)].status.MoveSrc?
    ensures CountLive(Destroy(rs, d)) == CountLive(rs)
  {
    CountRemove(rs, Find(rs, d));
  }

  /** The end of the sync at its source. */
  lemma SourceCount(rs: seq<Replica>, d: nat)
    requires Find(rs, d) < |rs|
    ensures CountLive(if rs[Find(rs, d)].status.MoveSrc? then Destroy(rs, d) else rs[Find(rs, d) := Replica(Active, d)])
            == CountLive(rs)
  {
    if rs[Find(rs, d)].status.MoveSrc? {
      DestroyCount(rs, d);
    } else {
      CountSet(rs, Find(rs, d), Replica(Active, d));
    }
  }

  lemma EndedCount(rs: seq<Replica>, d: nat, dst: nat)
    requires Find(rs, d) < |rs| && LiveOn(rs, dst)
    ensures CountLive(Ended(rs, d, dst)) == CountLive(rs)
  {
    var rs1 := SetStatus(rs, dst, Active);
    SetCount(rs, dst, Active);
    SameFind(rs, rs1, d);
    SourceCount(rs1, d);
  }

  lemma ReplacedCounts(s: State, s': State, v: nat, rs': seq<Replica>)
    requires Replaces(s, s', v, rs') && CountLive(rs') == CountLive(s.vnodes[v].replicas)
    ensures SameCounts(s, s')
  {
    forall w: nat | w < |s.vnodes|
      ensures CountLive(s'.vnodes[w].replicas) == CountLive(s.vnodes[w].replicas)
    {
      if w != v {
        assert s'.vnodes[w] == s.vnodes[w];
      }
    }
  }

  lemma EndedLinkCount(e: Edition, s: State, v: nat, d: nat, dst: nat)
    requires Inv(e, s) && v < |s.vnodes| && (d, dst) in Links(s.devices, v)
    ensures var rs := s.vnodes[v].replicas;
            Find(rs, d) < |rs| && Find(rs, dst) < |rs| && CountLive(Ended(rs, d, dst)) == CountLive(rs)
  {
    assert VnodeInv(e, s.devices, s.vnodes[v].replicas, v);
    LinkEnds(e, s.devices, s.vnodes[v].replicas, v, d, dst);
    EndedCount(s.vnodes[v].replicas, d, dst);
  }

  lemma SyncDownOneCounts(e: Edition, s: State, d: nat, id: int)
    requires Inv(e, s) && Syncing(s, d, id)
    ensures SyncDownOne(e, s, d, id).Ok? && SameCounts(s, SyncDownOne(e, s, d, id).value)
  {
    SyncDownOneIs(e, s, d, id);
    SyncingIs(e, s, d, id);
    var i := EventIndex(s.devices[d].syncing, id);
    var dst := s.devices[d].syncing[i].dest;
    EndedLinkCount(e, s, id, d, dst);
    EndedStateIs(e, s, d, id, dst, i);
    ReplacedCounts(s, SyncDownOne(e, s, d, id).value, id, Ended(s.vnodes[id].replicas, d, dst));
  }

  lemma PlantingCount(rs: seq<Replica>, src: nat, nd: nat, kind: Status)
    requires StatusOf(rs, src) == Some(Active)
    ensures CountLive(Planting(rs, src, nd, kind)) == CountLive(rs) + if kind.MoveSrc? then 0 else 1
  {
    CountSet(rs, Find(rs, src), Replica(kind, src));
    CountAppend(SetStatus(rs, src, kind), Replica(WaitSync, nd));
  }

  lemma CopyOneCounts(s: State, v: nat, nd: nat)
    requires v < |s.vnodes| && nd < |s.devices| && Placed(s.devices, s.vnodes[v].replicas)
    ensures CopyOne(s, v, nd).Ok?
    ensures CountLive(CopyOne(s, v, nd).value.vnodes[v].replicas) <= CountLive(s.vnodes[v].replicas) + 1
  {
    CopyOneIs(s, v, nd);
    var rs := s.vnodes[v].replicas;
    var pos := ReadReplica(s.vnodes[v]).1;
    CountAppend(rs, Replica(if rs == [] then Active else Online, nd));
    if pos.Some? {
      FindAt(rs, pos.value);
      PlantingCount(rs, rs[pos.value].dev, nd, CopySrc);
    }
  }

  /** Below vnode `v`, at most one replica each came; from there on, nothing changed. */
  ghost predicate OneMoreBelow(s: State, s': State, v: nat) {
    && |s'.vnodes| == |s.vnodes|
    && (forall w: nat :: w < v && w < |s.vnodes| ==>
        CountLive(s'.vnodes[w].replicas) <= CountLive(s.vnodes[w].replicas) + 1)
    && (forall w: nat :: v <= w < |s.vnodes| ==> s'.vnodes[w] == s.vnodes[w])
  }

  lemma CopyStepCounts(e: Edition, s0: State, s: State, v: nat, nd: nat)
    requires Inv(e, s) && v < |s.vnodes| && nd < |s.devices| && OneMoreBelow(s0, s, v)
    ensures CopyOne(s, v, nd).Ok? && OneMoreBelow(s0, CopyOne(s, v, nd).value, v + 1)
  {
    assert VnodeInv(e, s.devices, s.vnodes[v].replicas, v);
    CopyOneLists(s, v, nd);
    CopyOneCounts(s, v, nd);
  }

  ghost predicate CopiedCounts(e: Edition, s: State, nd: nat, x: State, v: nat) {
    Inv(e, x) && ListedBelow(x, nd, v) && OneMoreBelow(s, x, v)
  }

  lemma CopyCountsKept(P: (State, nat) -> bool, e: Edition, s: State, nd: nat, x: State, v: nat)
    requires forall y, w :: P(y, w) <==> CopiedCounts(e, s, nd, y, w)
    requires P(x, v)
    ensures CopyKeeps(P, x, v, nd)
  {
    if v < |x.vnodes| && nd < |x.devices| {
      CopyStep(e, x, v, nd);
      CopyStepCounts(e, s, x, v, nd);
    }
  }

  lemma CopyFromCounts(e: Edition, s: State, nd: nat)
    requires Inv(e, s) && nd < |s.devices| && s.devices[nd].listed == []
    ensures CopyFrom(s, 0, nd).Ok? && OneMoreBelow(s, CopyFrom(s, 0, nd).value, |s.vnodes|)
  {
    var P := (x: State, v: nat) => CopiedCounts(e, s, nd, x, v);
    forall x: State, v: nat | P(x, v)
      ensures CopyKeeps(P, x, v, nd)
    {
      CopyCountsKept(P, e, s, nd, x, v);
    }
    assert P(s, 0);
    CopyInduction(P, s, 0, nd);
  }

  lemma MovedCounts(s: State, donor: nat, v: nat, nd: nat)
    requires donor < |s.devices| && nd < |s.devices| && v < |s.vnodes| && Movable(s, donor, v, nd)
    ensures SameCounts(s, MovedState(s, donor, v, nd))
  {
    MovedIs(s, donor, v, nd);
    PlantingCount(s.vnodes[v].replicas, donor, nd, MoveSrc);
  }

  lemma MoveOneCounts(e: Edition, s: State, donor: nat, v: nat, nd: nat)
    requires donor < |s.devices| && nd < |s.devices|
    ensures var r := MoveOne(e, s, donor, v, nd); r.Ok? ==> SameCounts(s, r.value.0)
  {
    MoveOneIs(e, s, donor, v, nd);
    if v < |s.vnodes| && Movable(s, donor, v, nd) {
      MovedCounts(s, donor, v, nd);
    }
  }

  lemma MoveDonorsCounts(e: Edition, s: State, nd: nat, avg: int, rnd: nat -> nat)
    requires nd < |s.devices|
    ensures var r := MoveDonors(e, s, 0, nd, avg, rnd, 0); r.Ok? ==> SameCounts(s, r.value)
  {
    var P := x => SameCounts(s, x);
    forall x: State, donor: nat, v: nat | P(x) && donor < |x.devices| && v in x.devices[donor].listed
      ensures MoveKeeps(P, false, e, x, donor, v, nd)
    {
      if donor < nd < |x.devices| {
        MoveOneCounts(e, x, donor, v, nd);
      }
    }
    MoveInduction(P, false, e, s, 0, nd, avg, rnd, 0);
  }

  /** A join that moves leaves every vnode's number of staying replicas unchanged. */
  lemma MoveJoinCounts(e: Edition, s: State, zone: int, weight: int, rnd: nat -> nat)
    ensures var r := MoveJoin(e, s, zone, weight, rnd); r.Ok? ==> SameCounts(s, r.value)
  {
    var total := TotalWeight(s.devices) + weight;
    if total != 0 {
      MoveDonorsCounts(e, AddDevice(s, zone, weight), |s.devices|, Truncated(TotalCount(s.devices), total), rnd);
    }
  }

  lemma JoinCounted(e: Edition, s: State, zone: int, weight: int, rnd: nat -> nat)
    requires Inv(e, s) && Counted(s)
    ensures var r := Join(e, s, zone, weight, rnd); r.Ok? ==> Counted(r.value)
  {
    JoinKeeps(e, s, zone, weight, rnd);
    if |s.devices| < s.replicaCount {
      AddDeviceKeeps(e, s, zone, weight);
      CopyFromCounts(e, AddDevice(s, zone, weight), |s.devices|);
    } else {
      MoveJoinCounts(e, s, zone, weight, rnd);
    }
  }
}
