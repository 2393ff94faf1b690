/**
 Sync-down under the invariant: when it faults, and what it keeps.
 */
module SyncDownSteps {
  import opened ProxyTypes
  import opened NodeInfo
  import opened NodeObjects
  import opened Protocol
  import opened Invariant
  import opened Steps

  ghost predicate Syncing(s: State, d: nat, id: int) {
    d < |s.devices| && EventIndex(s.devices[d].syncing, id) < |s.devices[d].syncing|
  }

  /** `d` and `dst` end ACTIVE, or a moving `d` goes; nothing else changes. */
  ghost predicate EndedStatuses(rs: seq<Replica>, rs': seq<Replica>, d: nat, dst: nat) {
    && StatusOf(rs', dst) == Some(Active)
    && StatusOf(rs', d) == (if StatusOf(rs, d) == Some(MoveSrc) then None else Some(Active))
    && (forall c: nat :: c != d && c != dst ==> StatusOf(rs', c) == StatusOf(rs, c))
  }

  lemma EndedZones(ds: seq<Device>, ds': seq<Device>, rs: seq<Replica>, rs': seq<Replica>, d: nat, dst: nat)
    requires ZoneInv(ds, rs) && EndedStatuses(rs, rs', d, dst) && LiveOn(rs, dst)
    requires StatusOf(rs, d).Some? && |ds'| == |ds|
    requires forall c: nat :: c < |ds| ==> ds'[c].zone == ds[c].zone
    ensures ZoneInv(ds', rs')
  {
    assert forall c: nat :: LiveOn(rs', c) ==> LiveOn(rs, c);
  }

  lemma EndedIndex(e: Edition, ds: seq<Device>, ds': seq<Device>, rs: seq<Replica>, rs': seq<Replica>, v: nat,
                   d: nat, dst: nat)
    requires IndexInv(e, ds, rs, v) && EndedStatuses(rs, rs', d, dst) && StatusOf(rs, dst).Some? && |ds'| == |ds|
    requires StatusOf(rs, d).Some? && d < |ds|
    requires forall c: nat :: c < |ds| && c != d ==> multiset(ds'[c].listed)[v] == multiset(ds[c].listed)[v]
    requires multiset(ds'[d].listed)[v] ==
             if StatusOf(rs, d) == Some(MoveSrc) && e.erasesMoved then 0 else multiset(ds[d].listed)[v]
    requires StatusOf(rs, d) == Some(MoveSrc) ==> e.keepsReplica
    ensures IndexInv(e, ds', rs', v)
  {
  }

  lemma EndedVnode(e: Edition, ds: seq<Device>, ds': seq<Device>, rs: seq<Replica>, rs': seq<Replica>, v: nat,
                   d: nat, dst: nat)
    requires EventInv(ds, rs, v) && Gains(ds', ds, d, Event(v, dst)) && (d, dst) in Links(ds, v)
    requires EndedStatuses(rs, rs', d, dst) && d < |ds| && dst < |ds|
    ensures EventInv(ds', rs', v) && HolderInv(rs')
  {
    LinkRemoved(Links(ds, v), rs, rs', d, dst);
    OnceLost(ds, ds', d, Event(v, dst));
    assert HolderOn(rs', dst);
  }

  /** The replicas after a sync-down from `d` to `dst`. */
  function Ended(rs: seq<Replica>, d: nat, dst: nat): seq<Replica>
    requires Find(rs, d) < |rs| && Find(rs, dst) < |rs|
  {
    var rs1 := SetStatus(rs, dst, Active);
    if rs1[Find(rs, d)].status.MoveSrc? then Destroy(rs1, d)
    else rs1[Find(rs, d) := Replica(Active, d)]
  }

  lemma EndedReplicas(rs: seq<Replica>, d: nat, dst: nat)
    requires Distinct(rs) && Find(rs, d) < |rs| && Find(rs, dst) < |rs|
    requires d == dst ==> StatusOf(rs, d) != Some(MoveSrc)
    ensures var rs' := Ended(rs, d, dst);
            && Distinct(rs') && EndedStatuses(rs, rs', d, dst)
            && (forall r :: r in rs' ==> exists q :: q in rs && q.dev == r.dev)
  {
    var rs1 := SetStatus(rs, dst, Active);
    SetStatusIs(rs, dst, Active);
    FindAt(rs1, Find(rs, d));
    DestroyIs(rs1, d);
    SetStatusIs(rs1, d, Active);
    forall r | r in Ended(rs, d, dst)
      ensures exists q :: q in rs && q.dev == r.dev
    {
      assert r.dev == d || r in rs1;
      if r.dev != d {
        var i :| 0 <= i < |rs1| && rs1[i] == r;
        assert rs[i] in rs;
      } else {
        assert rs[Find(rs, d)] in rs;
      }
    }
  }

  /** The devices after it. */
  ghost function EndedDevices(e: Edition, s: State, d: nat, v: nat, i: nat, gone: bool): seq<Device>
    requires d < |s.devices| && i < |s.devices[d].syncing|
  {
    var s1 := s.(devices := s.devices[d := s.devices[d].(syncing := RemoveAt(s.devices[d].syncing, i))]);
    if gone && e.erasesMoved then EraseListed(s1, d, v).devices else s1.devices
  }

  lemma Popped(dev: Device, i: nat)
    requires i < |dev.syncing|
    ensures Owed(dev.(syncing := RemoveAt(dev.syncing, i))) + multiset{dev.syncing[i]} == Owed(dev)
  {
    assert multiset(dev.syncing) == multiset(RemoveAt(dev.syncing, i)) + multiset{dev.syncing[i]};
  }

  lemma Erased(s: State, d: nat, v: nat)
    requires d < |s.devices| && v in s.devices[d].listed
    ensures var ds, ds' := s.devices, EraseListed(s, d, v).devices;
            && |ds'| == |ds|
            && (forall c: nat :: c < |ds| && c != d ==> ds'[c] == ds[c])
            && Owed(ds'[d]) == Owed(ds[d]) && ds'[d].zone == ds[d].zone
            && multiset(ds'[d].listed) == multiset(ds[d].listed) - multiset{v}
  {
  }

  /** Device `d` owes `ev` no more and, when `gone`, an erasing edition no longer lists its vnode. */
  ghost predicate Ends(e: Edition, ds: seq<Device>, ds': seq<Device>, d: nat, ev: Event, gone: bool) {
    && Gains(ds', ds, d, ev)
    && (forall c: nat :: c < |ds| && c != d ==> ds'[c] == ds[c])
    && ds'[d].zone == ds[d].zone
    && multiset(ds'[d].listed) ==
       if gone && e.erasesMoved then multiset(ds[d].listed) - multiset{ev.vnode} else multiset(ds[d].listed)
  }

  lemma EndedDevicesIs(e: Edition, s: State, d: nat, v: nat, i: nat, gone: bool)
    requires d < |s.devices| && i < |s.devices[d].syncing| && s.devices[d].syncing[i].vnode == v
    requires multiset(s.devices[d].listed)[v] == 1
    ensures Ends(e, s.devices, EndedDevices(e, s, d, v, i, gone), d, s.devices[d].syncing[i], gone)
  {
    var dev := s.devices[d];
    var s1 := s.(devices := s.devices[d := dev.(syncing := RemoveAt(dev.syncing, i))]);
    PoppedGains(s.devices, d, i);
    if gone && e.erasesMoved {
      assert multiset(dev.listed)[v] > 0;
      Erased(s1, d, v);
    }
  }

  lemma PoppedGains(ds: seq<Device>, d: nat, i: nat)
    requires d < |ds| && i < |ds[d].syncing|
    ensures Gains(ds[d := ds[d].(syncing := RemoveAt(ds[d].syncing, i))], ds, d, ds[d].syncing[i])
  {
    Popped(ds[d], i);
  }

  lemma EndedOnly(e: Edition, ds: seq<Device>, ds': seq<Device>, d: nat, ev: Event, gone: bool)
    requires Ends(e, ds, ds', d, ev, gone)
    ensures Only(ds, ds', ev.vnode)
  {
    forall c: nat, f: Event | c < |ds| && f.vnode != ev.vnode
      ensures Owed(ds'[c])[f] == Owed(ds[c])[f]
    {
      GainsCount(ds', ds, d, ev, c, f);
    }
  }

  ghost function EndedState(e: Edition, s: State, d: nat, v: nat, dst: nat, i: nat): State
    requires d < |s.devices| && i < |s.devices[d].syncing| && v < |s.vnodes|
    requires Find(s.vnodes[v].replicas, d) < |s.vnodes[v].replicas|
             && Find(s.vnodes[v].replicas, dst) < |s.vnodes[v].replicas|
  {
    var rs := s.vnodes[v].replicas;
    s.(vnodes := s.vnodes[v := s.vnodes[v].(replicas := Ended(rs, d, dst))],
       devices := EndedDevices(e, s, d, v, i, StatusOf(rs, d) == Some(MoveSrc)))
  }

  lemma SyncDownOneAs(e: Edition, s: State, d: nat, id: nat)
    requires Syncing(s, d, id) && id < |s.vnodes|
    requires var (rs, dst) := (s.vnodes[id].replicas, s.devices[d].syncing[EventIndex(s.devices[d].syncing, id)].dest);
             Find(rs, d) < |rs| && Find(rs, dst) < |rs| && (dst == d ==> StatusOf(rs, d) == Some(CopySrc))
    ensures var i := EventIndex(s.devices[d].syncing, id);
            SyncDownOne(e, s, d, id) == Ok(EndedState(e, s, d, id, s.devices[d].syncing[i].dest, i))
  {
    var i := EventIndex(s.devices[d].syncing, id);
    var rs, dst := s.vnodes[id].replicas, s.devices[d].syncing[i].dest;
    var rs1 := SetStatus(rs, dst, Active);
    assert rs1[Find(rs, d)].status.MoveSrc? <==> StatusOf(rs, d) == Some(MoveSrc);
  }

  /** The event a device is syncing: where it leads. */
  lemma SyncingIs(e: Edition, s: State, d: nat, id: int)
    requires Inv(e, s) && Syncing(s, d, id)
    ensures 0 <= id < |s.vnodes|
    ensures var (rs, dst) := (s.vnodes[id].replicas, s.devices[d].syncing[EventIndex(s.devices[d].syncing, id)].dest);
            (d, dst) in Links(s.devices, id) && Find(rs, d) < |rs| && Find(rs, dst) < |rs|
            && (dst == d ==> StatusOf(rs, d) == Some(CopySrc))
  {
    var ev := s.devices[d].syncing[EventIndex(s.devices[d].syncing, id)];
    assert ev in Owed(s.devices[d]);
    OwedIsSound(e, s, d, ev);
    var rs := s.vnodes[id].replicas;
    assert VnodeInv(e, s.devices, rs, id);
    assert ev.dest == d ==> StatusOf(rs, d) == Some(CopySrc);
  }

  /** Without faults, a sync-down ends exactly one event, the one the device is syncing. */
  lemma SyncDownOneIs(e: Edition, s: State, d: nat, id: int)
    requires Inv(e, s) && d < |s.devices|
    ensures SyncDownOne(e, s, d, id).Ok? <==> Syncing(s, d, id)
    ensures Syncing(s, d, id) ==>
              var i := EventIndex(s.devices[d].syncing, id);
              var (rs, dst, s') := (s.vnodes[id].replicas, s.devices[d].syncing[i].dest,
                                    SyncDownOne(e, s, d, id).value);
              && (d, dst) in Links(s.devices, id) && Find(rs, d) < |rs| && Find(rs, dst) < |rs|
              && s' == EndedState(e, s, d, id, dst, i)
  {
    if Syncing(s, d, id) {
      SyncingIs(e, s, d, id);
      SyncDownOneAs(e, s, d, id);
    }
  }

  lemma EndedPlaced(ds: seq<Device>, rs: seq<Replica>, d: nat, dst: nat)
    requires Placed(ds, rs) && Find(rs, d) < |rs| && Find(rs, dst) < |rs|
    requires d == dst ==> StatusOf(rs, d) != Some(MoveSrc)
    ensures Placed(ds, Ended(rs, d, dst)) && EndedStatuses(rs, Ended(rs, d, dst), d, dst)
  {
    EndedReplicas(rs, d, dst);
  }

  /** What the link of an event says about its two ends. */
  lemma LinkEnds(e: Edition, ds: seq<Device>, rs: seq<Replica>, v: nat, d: nat, dst: nat)
    requires VnodeInv(e, ds, rs, v) && (d, dst) in Links(ds, v)
    ensures Find(rs, d) < |rs| && Find(rs, dst) < |rs| && d < |ds| && dst < |ds|
    ensures SourceOn(rs, d) && LiveOn(rs, dst) && (d == dst ==> StatusOf(rs, d) == Some(CopySrc))
    ensures multiset(ds[d].listed)[v] == 1
    ensures StatusOf(rs, d) == Some(MoveSrc) ==> e.keepsReplica
  {
    assert (d, dst).0 == d && (d, dst).1 == dst;
  }

  lemma SyncDownPlaces(e: Edition, ds: seq<Device>, ds': seq<Device>, rs: seq<Replica>, v: nat, d: nat, dst: nat)
    requires VnodeInv(e, ds, rs, v) && (d, dst) in Links(ds, v) && Find(rs, d) < |rs| && Find(rs, dst) < |rs|
    requires Ends(e, ds, ds', d, Event(v, dst), StatusOf(rs, d) == Some(MoveSrc))
    ensures var rs' := Ended(rs, d, dst);
            Placed(ds', rs') && ZoneInv(ds', rs') && IndexInv(e, ds', rs', v) && EndedStatuses(rs, rs', d, dst)
  {
    var rs' := Ended(rs, d, dst);
    LinkEnds(e, ds, rs, v, d, dst);
    EndedPlaced(ds, rs, d, dst);
    EndedZones(ds, ds', rs, rs', d, dst);
    EndedIndex(e, ds, ds', rs, rs', v, d, dst);
  }

  lemma SyncDownEvents(e: Edition, ds: seq<Device>, ds': seq<Device>, rs: seq<Replica>, v: nat, d: nat, dst: nat)
    requires VnodeInv(e, ds, rs, v) && (d, dst) in Links(ds, v) && Find(rs, d) < |rs| && Find(rs, dst) < |rs|
    requires Ends(e, ds, ds', d, Event(v, dst), StatusOf(rs, d) == Some(MoveSrc))
    ensures EventInv(ds', Ended(rs, d, dst), v) && HolderInv(Ended(rs, d, dst))
  {
    LinkEnds(e, ds, rs, v, d, dst);
    EndedReplicas(rs, d, dst);
    EndedVnode(e, ds, ds', rs, Ended(rs, d, dst), v, d, dst);
  }

  lemma SyncDownNoMove(rs: seq<Replica>, d: nat, dst: nat)
    requires Distinct(rs) && Find(rs, d) < |rs| && Find(rs, dst) < |rs| && NoMoveSrc(rs)
    ensures NoMoveSrc(Ended(rs, d, dst))
  {
    EndedReplicas(rs, d, dst);
  }

  lemma SyncDownVnode(e: Edition, ds: seq<Device>, ds': seq<Device>, rs: seq<Replica>, v: nat, d: nat, dst: nat)
    requires VnodeInv(e, ds, rs, v) && (d, dst) in Links(ds, v) && Find(rs, d) < |rs| && Find(rs, dst) < |rs|
    requires Ends(e, ds, ds', d, Event(v, dst), StatusOf(rs, d) == Some(MoveSrc))
    ensures VnodeInv(e, ds', Ended(rs, d, dst), v)
  {
    SyncDownPlaces(e, ds, ds', rs, v, d, dst);
    SyncDownEvents(e, ds, ds', rs, v, d, dst);
    if !e.keepsReplica {
      SyncDownNoMove(rs, d, dst);
    }
  }

  lemma SyncDownEnds(e: Edition, s: State, d: nat, id: int)
    requires Inv(e, s) && Syncing(s, d, id)
    ensures var i := EventIndex(s.devices[d].syncing, id);
            id < |s.vnodes| &&
            var (rs, dst) := (s.vnodes[id].replicas, s.devices[d].syncing[i].dest);
            var gone := StatusOf(rs, d) == Some(MoveSrc);
            && (d, dst) in Links(s.devices, id)
            && Ends(e, s.devices, EndedDevices(e, s, d, id, i, gone), d, Event(id, dst), gone)
  {
    var i := EventIndex(s.devices[d].syncing, id);
    var ev := s.devices[d].syncing[i];
    assert ev in Owed(s.devices[d]);
    OwedIsSound(e, s, d, ev);
    var rs := s.vnodes[id].replicas;
    LinkEnds(e, s.devices, rs, id, d, ev.dest);
    EndedDevicesIs(e, s, d, id, i, StatusOf(rs, d) == Some(MoveSrc));
    assert ev == Event(id, ev.dest);
  }

  lemma EndedKeeps(e: Edition, s: State, s': State, d: nat, v: nat, dst: nat)
    requires Inv(e, s) && v < |s.vnodes| && (d, dst) in Links(s.devices, v)
    requires Find(s.vnodes[v].replicas, d) < |s.vnodes[v].replicas|
             && Find(s.vnodes[v].replicas, dst) < |s.vnodes[v].replicas|
    requires Ends(e, s.devices, s'.devices, d, Event(v, dst), StatusOf(s.vnodes[v].replicas, d) == Some(MoveSrc))
    requires Replaces(s, s', v, Ended(s.vnodes[v].replicas, d, dst))
    ensures Inv(e, s')
  {
    var rs := s.vnodes[v].replicas;
    EndedOnly(e, s.devices, s'.devices, d, Event(v, dst), StatusOf(rs, d) == Some(MoveSrc));
    SyncDownVnode(e, s.devices, s'.devices, rs, v, d, dst);
    Touch(e, s, s', v);
  }

  lemma EndedStateIs(e: Edition, s: State, d: nat, v: nat, dst: nat, i: nat)
    requires d < |s.devices| && i < |s.devices[d].syncing| && v < |s.vnodes|
    requires Find(s.vnodes[v].replicas, d) < |s.vnodes[v].replicas|
             && Find(s.vnodes[v].replicas, dst) < |s.vnodes[v].replicas|
    ensures var s' := EndedState(e, s, d, v, dst, i);
            && Replaces(s, s', v, Ended(s.vnodes[v].replicas, d, dst))
            && s'.devices == EndedDevices(e, s, d, v, i, StatusOf(s.vnodes[v].replicas, d) == Some(MoveSrc))
  {
  }

  lemma EndedStateKeeps(e: Edition, s: State, d: nat, id: nat)
    requires Inv(e, s) && Syncing(s, d, id) && id < |s.vnodes|
    requires var (rs, dst) := (s.vnodes[id].replicas, s.devices[d].syncing[EventIndex(s.devices[d].syncing, id)].dest);
             (d, dst) in Links(s.devices, id) && Find(rs, d) < |rs| && Find(rs, dst) < |rs|
    ensures var i := EventIndex(s.devices[d].syncing, id);
            Inv(e, EndedState(e, s, d, id, s.devices[d].syncing[i].dest, i))
  {
    var i := EventIndex(s.devices[d].syncing, id);
    var dst := s.devices[d].syncing[i].dest;
    var s' := EndedState(e, s, d, id, dst, i);
    SyncDownEnds(e, s, d, id);
    EndedStateIs(e, s, d, id, dst, i);
    EndedKeeps(e, s, s', d, id, dst);
  }

  lemma SyncDownOneKeeps(e: Edition, s: State, d: nat, id: int)
    requires Inv(e, s) && Syncing(s, d, id)
    ensures SyncDownOne(e, s, d, id).Ok? && Inv(e, SyncDownOne(e, s, d, id).value)
  {
    SyncingIs(e, s, d, id);
    SyncDownOneAs(e, s, d, id);
    EndedStateKeeps(e, s, d, id);
  }
}
