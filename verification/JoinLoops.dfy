/**
 Whole joins under the invariant.
 */
module JoinLoops {
  import opened ProxyTypes
  import opened NodeInfo
  import opened NodeObjects
  import opened Protocol
  import opened Invariant
  import opened Steps
  import opened HeartbeatSteps
  import opened JoinSteps
  import opened JoinInduction

  ghost predicate SameSizes(s: State, s': State) {
    |s'.devices| == |s.devices| && |s'.vnodes| == |s.vnodes| && s'.replicaCount == s.replicaCount
  }

  // ---------------------------------------------------------------------------------------------
  // Copy join
  // ---------------------------------------------------------------------------------------------

  lemma CopyOneLists(s: State, v: nat, nd: nat)
    requires v < |s.vnodes| && nd < |s.devices| && Placed(s.devices, s.vnodes[v].replicas)
    ensures CopyOne(s, v, nd).Ok?
    ensures var s' := CopyOne(s, v, nd).value;
            && |s'.vnodes| == |s.vnodes| && |s'.devices| == |s.devices| && s'.replicaCount == s.replicaCount
            && (s'.devices[nd].listed == s.devices[nd].listed || s'.devices[nd].listed == s.devices[nd].listed + [v])
            && (forall w: nat :: w < |s.vnodes| && w != v ==> s'.vnodes[w] == s.vnodes[w])
  {
    CopyOneIs(s, v, nd);
  }

  /** The joining device lists vnodes below `v` only. */
  ghost predicate ListedBelow(s: State, nd: nat, v: nat) {
    nd < |s.devices| && forall w :: w in s.devices[nd].listed ==> w < v
  }

  lemma CopyStep(e: Edition, s: State, v: nat, nd: nat)
    requires Inv(e, s) && v < |s.vnodes| && nd < |s.devices|
    requires ListedBelow(s, nd, v)
    ensures CopyOne(s, v, nd).Ok?
    ensures var s' := CopyOne(s, v, nd).value; Inv(e, s') && SameSizes(s, s') && ListedBelow(s', nd, v + 1)
  {
    assert v !in s.devices[nd].listed;
    assert VnodeInv(e, s.devices, s.vnodes[v].replicas, v);
    CopyOneKeeps(e, s, v, nd);
    CopyOneLists(s, v, nd);
  }

  ghost predicate Copied(e: Edition, s: State, nd: nat, x: State, v: nat) {
    Inv(e, x) && SameSizes(s, x) && ListedBelow(x, nd, v)
  }

  lemma CopyKept(P: (State, nat) -> bool, e: Edition, s: State, nd: nat, x: State, v: nat)
    requires forall y, w :: P(y, w) <==> Copied(e, s, nd, y, w)
    requires P(x, v)
    ensures CopyKeeps(P, x, v, nd)
  {
    if v < |x.vnodes| && nd < |x.devices| {
      CopyStep(e, x, v, nd);
    }
  }

  lemma CopyFromKeeps(e: Edition, s: State, nd: nat)
    requires Inv(e, s) && nd < |s.devices| && s.devices[nd].listed == []
    ensures CopyFrom(s, 0, nd).Ok?
    ensures var s' := CopyFrom(s, 0, nd).value; Inv(e, s') && SameSizes(s, s')
  {
    var P := (x: State, v: nat) => Copied(e, s, nd, x, v);
    forall x: State, v: nat | P(x, v)
      ensures CopyKeeps(P, x, v, nd)
    {
      CopyKept(P, e, s, nd, x, v);
    }
    assert P(s, 0);
    CopyInduction(P, s, 0, nd);
  }

  lemma CopyJoinKeeps(e: Edition, s: State, zone: int, weight: int)
    requires Inv(e, s)
    ensures CopyJoin(s, zone, weight).Ok?
    ensures var s' := CopyJoin(s, zone, weight).value;
            Inv(e, s') && |s'.devices| == |s.devices| + 1 && |s'.vnodes| == |s.vnodes|
              && s'.replicaCount == s.replicaCount
  {
    AddDeviceKeeps(e, s, zone, weight);
    CopyFromKeeps(e, AddDevice(s, zone, weight), |s.devices|);
  }

  // ---------------------------------------------------------------------------------------------
  // Move join
  // ---------------------------------------------------------------------------------------------

  /** The three tests a vnode must pass to be moved from `donor` to `nd`. */
  predicate Movable(s: State, donor: nat, v: nat, nd: nat)
    requires donor < |s.devices| && nd < |s.devices| && v < |s.vnodes|
  {
    && StatusOf(s.vnodes[v].replicas, donor) == Some(Active)
    && v !in s.devices[nd].listed
    && (s.devices[donor].zone == s.devices[nd].zone || IsDiffZones(s.vnodes[v].replicas, s.devices, s.devices[nd].zone))
  }

  /** The state after a move. */
  function MovedState(s: State, donor: nat, v: nat, nd: nat): State
    requires donor < |s.devices| && nd < |s.devices| && v < |s.vnodes|
             && Find(s.vnodes[v].replicas, donor) < |s.vnodes[v].replicas|
  {
    PushListed(PushPending(WithReplicas(s, v, Planting(s.vnodes[v].replicas, donor, nd, MoveSrc)), donor,
                           Event(v, nd)), nd, v)
  }

  lemma MoveOneIs(e: Edition, s: State, donor: nat, v: nat, nd: nat)
    requires donor < |s.devices| && nd < |s.devices|
    ensures !AllPlaced(s, donor, [v]) ==> MoveOne(e, s, donor, v, nd).Fault?
    ensures AllPlaced(s, donor, [v]) ==>
              && v < |s.vnodes|
              && if !Movable(s, donor, v, nd) then MoveOne(e, s, donor, v, nd) == Ok((s, false))
                 else if e.keepsReplica then
                   Find(s.vnodes[v].replicas, donor) < |s.vnodes[v].replicas|
                     && MoveOne(e, s, donor, v, nd) == Ok((MovedState(s, donor, v, nd), true))
                 else MoveOne(e, s, donor, v, nd).Fault?
  {
    assert v in [v];
    var list := s.devices[nd].listed;
    assert v in list <==> IndexOf(list, v) < |list|;
  }

  lemma MovedIs(s: State, donor: nat, v: nat, nd: nat)
    requires donor < |s.devices| && nd < |s.devices| && v < |s.vnodes| && Movable(s, donor, v, nd)
    ensures var s' := MovedState(s, donor, v, nd);
            && Replaces(s, s', v, Planting(s.vnodes[v].replicas, donor, nd, MoveSrc))
              && s'.replicaCount == s.replicaCount
            && s'.devices == PushListed(PushPending(s, donor, Event(v, nd)), nd, v).devices
  {
  }

  lemma MovedKeeps(e: Edition, s: State, donor: nat, v: nat, nd: nat)
    requires Inv(e, s) && e.keepsReplica && donor < |s.devices| && nd < |s.devices| && v < |s.vnodes|
    requires Movable(s, donor, v, nd)
    ensures Inv(e, MovedState(s, donor, v, nd))
  {
    MovedIs(s, donor, v, nd);
    assert VnodeInv(e, s.devices, s.vnodes[v].replicas, v);
    MovedZones(e, s.devices, s.vnodes[v].replicas, v, donor, nd);
    MovedStateKeeps(e, s, MovedState(s, donor, v, nd), donor, v, nd);
  }

  lemma MovedStateKeeps(e: Edition, s: State, s': State, donor: nat, v: nat, nd: nat)
    requires Inv(e, s) && e.keepsReplica && donor < |s.devices| && nd < |s.devices| && v < |s.vnodes|
    requires StatusOf(s.vnodes[v].replicas, donor) == Some(Active) && v !in s.devices[nd].listed
    requires forall c: nat :: c < |s.devices| && c != donor && LiveOn(s.vnodes[v].replicas, c) ==>
               s.devices[c].zone != s.devices[nd].zone
    requires Replaces(s, s', v, Planting(s.vnodes[v].replicas, donor, nd, MoveSrc))
    requires s'.devices == PushListed(PushPending(s, donor, Event(v, nd)), nd, v).devices
    ensures Inv(e, s')
  {
    var s1 := PushPending(s, donor, Event(v, nd));
    PushedPending(s, donor, Event(v, nd));
    PushedListed(s1, nd, v);
    assert multiset(s.devices[nd].listed)[v] == 0;
    PlantedKeeps(e, s, s1.devices, s', v, donor, nd, MoveSrc);
  }

  /** Once the donor's replica is leaving, no live replica shares the joiner's zone. */
  lemma MovedZones(e: Edition, ds: seq<Device>, rs: seq<Replica>, v: nat, donor: nat, nd: nat)
    requires VnodeInv(e, ds, rs, v) && donor < |ds| && nd < |ds| && StatusOf(rs, donor) == Some(Active)
    requires ds[donor].zone == ds[nd].zone || IsDiffZones(rs, ds, ds[nd].zone)
    ensures forall c: nat :: c < |ds| && c != donor && LiveOn(rs, c) ==> ds[c].zone != ds[nd].zone
  {
    if IsDiffZones(rs, ds, ds[nd].zone) {
      LiveZones(ds, rs, nd);
    } else {
      forall c: nat | c < |ds| && c != donor && LiveOn(rs, c)
        ensures ds[c].zone != ds[nd].zone
      {
        assert LiveOn(rs, donor);
      }
    }
  }

  lemma MoveOneKeeps(e: Edition, s: State, donor: nat, v: nat, nd: nat)
    requires Inv(e, s) && donor < nd < |s.devices| && v in s.devices[donor].listed
    ensures var r := MoveOne(e, s, donor, v, nd);
            && (e.keepsReplica && e.erasesMoved ==> r.Ok?)
            && (r.Ok? ==> Inv(e, r.value.0) && SameSizes(s, r.value.0))
  {
    MoveOneIs(e, s, donor, v, nd);
    if Exact(e) {
      ListedIsPlaced(e, s, donor);
    }
    if e.keepsReplica && v < |s.vnodes| && Movable(s, donor, v, nd) {
      MovedKeeps(e, s, donor, v, nd);
    }
  }

  /** All moves of a join keep the invariant, and in the repaired edition they do not fault. */
  lemma MoveDonorsKeeps(e: Edition, s: State, nd: nat, avg: int, rnd: nat -> nat)
    requires Inv(e, s) && nd < |s.devices|
    ensures Ends(x => Inv(e, x) && SameSizes(s, x), e.keepsReplica && e.erasesMoved,
                 MoveDonors(e, s, 0, nd, avg, rnd, 0))
  {
    var P := x => Inv(e, x) && SameSizes(s, x);
    var sure := e.keepsReplica && e.erasesMoved;
    forall x: State, donor: nat, v: nat | P(x) && donor < |x.devices| && v in x.devices[donor].listed
      ensures MoveKeeps(P, sure, e, x, donor, v, nd)
    {
      if donor < nd < |x.devices| {
        MoveOneKeeps(e, x, donor, v, nd);
      }
    }
    MoveInduction(P, sure, e, s, 0, nd, avg, rnd, 0);
  }

  /** A join keeps the invariant. Repaired, it faults only when the weights cancel out. */
  lemma JoinKeeps(e: Edition, s: State, zone: int, weight: int, rnd: nat -> nat)
    requires Inv(e, s)
    ensures e.keepsReplica && e.erasesMoved ==>
              (Join(e, s, zone, weight, rnd).Fault? <==>
               |s.devices| >= s.replicaCount && TotalWeight(s.devices) + weight == 0)
    ensures var r := Join(e, s, zone, weight, rnd);
            r.Ok? ==> Inv(e, r.value) && |r.value.devices| == |s.devices| + 1
                      && |r.value.vnodes| == |s.vnodes| && r.value.replicaCount == s.replicaCount
  {
    if |s.devices| < s.replicaCount {
      CopyJoinKeeps(e, s, zone, weight);
    } else if TotalWeight(s.devices) + weight != 0 {
      AddDeviceKeeps(e, s, zone, weight);
      var avg := Truncated(TotalCount(s.devices), TotalWeight(s.devices) + weight);
      MoveDonorsKeeps(e, AddDevice(s, zone, weight), |s.devices|, avg, rnd);
    }
  }
}
