/**
 The steps of a join under the invariant: the new device, one copied vnode, one moved vnode.
 */
module JoinSteps {
  import opened ProxyTypes
  import opened NodeInfo
  import opened NodeObjects
  import opened Protocol
  import opened Invariant
  import opened Steps

  lemma AddedLinks(ds: seq<Device>, dev: Device, v: nat)
    requires dev.pending == [] && dev.syncing == []
    ensures Links(ds + [dev], v) == Links(ds, v)
    ensures OwedOnce(ds, v) ==> OwedOnce(ds + [dev], v)
  {
    assert Owed(dev) == multiset{};
    assert forall p :: p in Links(ds + [dev], v) <==> (p.0, p.1) in Links(ds, v);
  }

  lemma AddedVnode(e: Edition, ds: seq<Device>, dev: Device, rs: seq<Replica>, v: nat)
    requires VnodeInv(e, ds, rs, v) && dev.listed == [] && dev.pending == [] && dev.syncing == []
    ensures VnodeInv(e, ds + [dev], rs, v)
  {
    AddedLinks(ds, dev, v);
    assert IndexInv(e, ds + [dev], rs, v);
  }

  lemma AddDeviceKeeps(e: Edition, s: State, zone: int, weight: int)
    requires Inv(e, s)
    ensures Inv(e, AddDevice(s, zone, weight))
  {
    forall v: nat | v < |s.vnodes|
      ensures VnodeInv(e, AddDevice(s, zone, weight).devices, s.vnodes[v].replicas, v)
    {
      AddedVnode(e, s.devices, Device(zone, weight, [], [], []), s.vnodes[v].replicas, v);
    }
  }

  /** `rs'` has a live replica on `nd` on top of what `rs` has; nothing else came to life. */
  ghost predicate Joined(rs: seq<Replica>, rs': seq<Replica>, nd: nat) {
    && Distinct(rs') && StatusOf(rs, nd) == None && LiveOn(rs', nd)
    && (forall r :: r in rs' ==> r.dev == nd || exists q :: q in rs && q.dev == r.dev)
    && (forall c: nat :: c != nd ==> (StatusOf(rs', c).Some? <==> StatusOf(rs, c).Some?))
    && (forall c: nat :: c != nd && LiveOn(rs', c) ==> LiveOn(rs, c))
  }

  lemma JoinedKeeps(e: Edition, ds: seq<Device>, ds': seq<Device>, rs: seq<Replica>, rs': seq<Replica>, v: nat, nd: nat)
    requires Placed(ds, rs) && ZoneInv(ds, rs) && IndexInv(e, ds, rs, v)
    requires |ds'| == |ds| && nd < |ds|
    requires Joined(rs, rs', nd) && multiset(ds[nd].listed)[v] == 0
    requires forall c: nat :: c < |ds| ==>
               && ds'[c].zone == ds[c].zone
               && multiset(ds'[c].listed)[v] == multiset(ds[c].listed)[v] + if c == nd then 1 else 0
    requires forall c: nat :: c < |ds| && c != nd && LiveOn(rs', c) ==> ds[c].zone != ds[nd].zone
    ensures Placed(ds', rs') && ZoneInv(ds', rs') && IndexInv(e, ds', rs', v)
  {
  }

  /** What a device does not list has no replica there. */
  lemma UnlistedIsAbsent(e: Edition, s: State, v: nat, nd: nat)
    requires Inv(e, s) && v < |s.vnodes| && nd < |s.devices| && v !in s.devices[nd].listed
    ensures Placed(s.devices, s.vnodes[v].replicas) && StatusOf(s.vnodes[v].replicas, nd) == None
  {
    assert VnodeInv(e, s.devices, s.vnodes[v].replicas, v);
    assert multiset(s.devices[nd].listed)[v] == 0;
  }

  lemma AppendJoined(rs: seq<Replica>, nd: nat, st: Status)
    requires Distinct(rs) && StatusOf(rs, nd) == None && !st.MoveSrc?
    ensures Joined(rs, rs + [Replica(st, nd)], nd)
  {
    AppendIs(rs, Replica(st, nd));
  }

  lemma NeutralEvents(ds: seq<Device>, ds': seq<Device>, rs: seq<Replica>, v: nat, nd: nat, st: Status)
    requires EventInv(ds, rs, v) && Distinct(rs) && StatusOf(rs, nd) == None && Neutral(Some(st))
             && Lists(ds, ds', nd, v)
    ensures EventInv(ds', rs + [Replica(st, nd)], v)
  {
    AppendIs(rs, Replica(st, nd));
    ListsLinks(ds, ds', nd, v, v);
    LinksUntouched(Links(ds, v), rs, rs + [Replica(st, nd)]);
  }

  /** The vnode after `nd` got a neutral replica. */
  lemma NeutralJoin(e: Edition, ds: seq<Device>, ds': seq<Device>, rs: seq<Replica>, v: nat, nd: nat, st: Status)
    requires VnodeInv(e, ds, rs, v) && StatusOf(rs, nd) == None && nd < |ds|
    requires (st.Online? && rs != []) || (st.Active? && rs == [])
    requires IsDiffZones(rs, ds, ds[nd].zone)
    requires Lists(ds, ds', nd, v) && multiset(ds[nd].listed)[v] == 0
    ensures VnodeInv(e, ds', rs + [Replica(st, nd)], v)
  {
    var rs' := rs + [Replica(st, nd)];
    AppendJoined(rs, nd, st);
    LiveZones(ds, rs, nd);
    JoinedKeeps(e, ds, ds', rs, rs', v, nd);
    NeutralEvents(ds, ds', rs, v, nd, st);
    AppendIs(rs, Replica(st, nd));
    if rs != [] {
      var h: nat :| HolderOn(rs, h);
      assert HolderOn(rs', h);
    } else {
      assert HolderOn(rs', nd);
    }
  }

  lemma LiveZones(ds: seq<Device>, rs: seq<Replica>, nd: nat)
    requires Placed(ds, rs) && nd < |ds| && IsDiffZones(rs, ds, ds[nd].zone)
    ensures forall c: nat :: c < |ds| && StatusOf(rs, c).Some? ==> ds[c].zone != ds[nd].zone
  {
    forall c: nat | c < |ds| && StatusOf(rs, c).Some?
      ensures ds[c].zone != ds[nd].zone
    {
      assert rs[Find(rs, c)] in rs;
    }
  }

  /** Marks `src` as a source of kind `kind` and appends a waiting replica on `nd`. */
  function Planting(rs: seq<Replica>, src: nat, nd: nat, kind: Status): seq<Replica>
    requires Find(rs, src) < |rs|
  {
    SetStatus(rs, src, kind) + [Replica(WaitSync, nd)]
  }

  lemma PlantingHomes(rs: seq<Replica>, src: nat, nd: nat, kind: Status)
    requires Find(rs, src) < |rs|
    ensures forall r :: r in Planting(rs, src, nd, kind) ==> r.dev == nd || exists q :: q in rs && q.dev == r.dev
  {
    var rs1 := SetStatus(rs, src, kind);
    forall r | r in rs1
      ensures exists q :: q in rs && q.dev == r.dev
    {
      var i :| 0 <= i < |rs1| && rs1[i] == r;
      assert rs[i] in rs;
    }
  }

  lemma PlantingIs(rs: seq<Replica>, src: nat, nd: nat, kind: Status)
    requires Distinct(rs) && StatusOf(rs, src) == Some(Active) && StatusOf(rs, nd) == None
    ensures var rs' := Planting(rs, src, nd, kind); Joined(rs, rs', nd) && Planned(rs, rs', src, nd, kind)
  {
    SetStatusIs(rs, src, kind);
    var rs1 := SetStatus(rs, src, kind);
    assert StatusOf(rs1, nd) == None;
    AppendIs(rs1, Replica(WaitSync, nd));
    PlantingHomes(rs, src, nd, kind);
  }

  lemma PlantedEvents(ds: seq<Device>, ds1: seq<Device>, ds': seq<Device>, rs: seq<Replica>, rs': seq<Replica>, v: nat,
                      src: nat, nd: nat, kind: Status)
    requires EventInv(ds, rs, v) && StatusOf(rs, nd) == None && StatusOf(rs, src) == Some(Active)
    requires kind.CopySrc? || kind.MoveSrc?
    requires Gains(ds, ds1, src, Event(v, nd)) && Lists(ds1, ds', nd, v)
    requires Planned(rs, rs', src, nd, kind)
    ensures EventInv(ds', rs', v) && HolderInv(rs')
  {
    PlanKeeps(ds, ds1, rs, rs', v, src, nd, kind);
    ListsLinks(ds1, ds', nd, v, v);
  }

  lemma PlantedPlaces(e: Edition, ds: seq<Device>, ds1: seq<Device>, ds': seq<Device>, rs: seq<Replica>,
                      rs': seq<Replica>, v: nat,
                      src: nat, nd: nat, kind: Status)
    requires Placed(ds, rs) && ZoneInv(ds, rs) && IndexInv(e, ds, rs, v) && nd < |ds|
    requires StatusOf(rs, src) == Some(Active) && (kind.CopySrc? || kind.MoveSrc?)
    requires Lists(ds1, ds', nd, v) && |ds1| == |ds| && multiset(ds[nd].listed)[v] == 0
    requires forall c: nat :: c < |ds| ==> ds1[c].zone == ds[c].zone && ds1[c].listed == ds[c].listed
    requires forall c: nat :: c < |ds| && LiveOn(rs, c) && (c == src ==> kind.CopySrc?) ==> ds[c].zone != ds[nd].zone
    requires Joined(rs, rs', nd) && Planned(rs, rs', src, nd, kind)
    ensures Placed(ds', rs') && ZoneInv(ds', rs') && IndexInv(e, ds', rs', v)
  {
    PlantedZones(ds, rs, rs', src, nd, kind);
    JoinedKeeps(e, ds, ds', rs, rs', v, nd);
  }

  /** The vnode after a sync to a new replica on `nd` was planned. `ds1` is between the two list updates. */
  lemma PlantedJoin(e: Edition, ds: seq<Device>, ds1: seq<Device>, ds': seq<Device>, rs: seq<Replica>, v: nat,
                    src: nat, nd: nat, kind: Status)
    requires VnodeInv(e, ds, rs, v) && StatusOf(rs, nd) == None && StatusOf(rs, src) == Some(Active) && nd < |ds|
    requires kind.CopySrc? || (kind.MoveSrc? && e.keepsReplica)
    requires Gains(ds, ds1, src, Event(v, nd)) && Lists(ds1, ds', nd, v) && multiset(ds[nd].listed)[v] == 0
    requires forall c: nat :: c < |ds| ==> ds1[c].zone == ds[c].zone && ds1[c].listed == ds[c].listed
    requires forall c: nat :: c < |ds| && LiveOn(rs, c) && (c == src ==> kind.CopySrc?) ==> ds[c].zone != ds[nd].zone
    ensures VnodeInv(e, ds', Planting(rs, src, nd, kind), v)
  {
    var rs' := Planting(rs, src, nd, kind);
    PlantingIs(rs, src, nd, kind);
    PlantedPlaces(e, ds, ds1, ds', rs, rs', v, src, nd, kind);
    PlantedEvents(ds, ds1, ds', rs, rs', v, src, nd, kind);
    if !e.keepsReplica {
      PlantedNoMove(rs, rs', src, nd, kind);
    }
  }

  lemma PlantedNoMove(rs: seq<Replica>, rs': seq<Replica>, src: nat, nd: nat, kind: Status)
    requires Planned(rs, rs', src, nd, kind) && NoMoveSrc(rs) && !kind.MoveSrc?
    ensures NoMoveSrc(rs')
  {
  }

  lemma PlantedZones(ds: seq<Device>, rs: seq<Replica>, rs': seq<Replica>, src: nat, nd: nat, kind: Status)
    requires Planned(rs, rs', src, nd, kind) && nd < |ds|
    requires StatusOf(rs, src) == Some(Active)
    requires forall c: nat :: c < |ds| && LiveOn(rs, c) && (c == src ==> kind.CopySrc?) ==> ds[c].zone != ds[nd].zone
    requires kind.CopySrc? || kind.MoveSrc?
    ensures forall c: nat :: c < |ds| && c != nd && LiveOn(rs', c) ==> ds[c].zone != ds[nd].zone
  {
  }

  // ---------------------------------------------------------------------------------------------
  // One copied vnode
  // ---------------------------------------------------------------------------------------------

  lemma ListsOnly(ds: seq<Device>, ds': seq<Device>, d: nat, v: nat)
    requires Lists(ds, ds', d, v)
    ensures Only(ds, ds', v)
  {
  }

  lemma OnlyTwice(ds: seq<Device>, ds': seq<Device>, ds'': seq<Device>, v: nat)
    requires Only(ds, ds', v) && Only(ds', ds'', v)
    ensures Only(ds, ds'', v)
  {
  }

  /** A copy that gives `nd` a replica in status `st` without any sync. */
  lemma NeutralCopyKeeps(e: Edition, s: State, s': State, v: nat, nd: nat, st: Status)
    requires Inv(e, s) && v < |s.vnodes| && nd < |s.devices| && multiset(s.devices[nd].listed)[v] == 0
    requires IsDiffZones(s.vnodes[v].replicas, s.devices, s.devices[nd].zone)
    requires (st.Online? && s.vnodes[v].replicas != []) || (st.Active? && s.vnodes[v].replicas == [])
    requires Lists(s.devices, s'.devices, nd, v)
    requires Replaces(s, s', v, s.vnodes[v].replicas + [Replica(st, nd)])
    ensures Inv(e, s')
  {
    var rs := s.vnodes[v].replicas;
    assert VnodeInv(e, s.devices, rs, v);
    NeutralJoin(e, s.devices, s'.devices, rs, v, nd, st);
    ListsOnly(s.devices, s'.devices, nd, v);
    Touch(e, s, s', v);
  }

  /** A copy or a move that plans a sync from `src` to `nd`. */
  lemma PlantedKeeps(e: Edition, s: State, ds1: seq<Device>, s': State, v: nat, src: nat, nd: nat, kind: Status)
    requires Inv(e, s) && v < |s.vnodes| && nd < |s.devices| && multiset(s.devices[nd].listed)[v] == 0
    requires StatusOf(s.vnodes[v].replicas, src) == Some(Active)
    requires kind.CopySrc? || (kind.MoveSrc? && e.keepsReplica)
    requires Gains(s.devices, ds1, src, Event(v, nd)) && Only(s.devices, ds1, v) && Lists(ds1, s'.devices, nd, v)
    requires forall c: nat :: c < |s.devices| ==>
               ds1[c].zone == s.devices[c].zone && ds1[c].listed == s.devices[c].listed
    requires forall c: nat :: c < |s.devices| && LiveOn(s.vnodes[v].replicas, c) && (c == src ==> kind.CopySrc?) ==>
               s.devices[c].zone != s.devices[nd].zone
    requires Replaces(s, s', v, Planting(s.vnodes[v].replicas, src, nd, kind))
    ensures Inv(e, s')
  {
    var rs := s.vnodes[v].replicas;
    assert VnodeInv(e, s.devices, rs, v);
    assert StatusOf(rs, nd) == None;
    PlantedJoin(e, s.devices, ds1, s'.devices, rs, v, src, nd, kind);
    ListsOnly(ds1, s'.devices, nd, v);
    OnlyTwice(s.devices, ds1, s'.devices, v);
    Touch(e, s, s', v);
  }

  /** What CopyOne does in its three cases. */
  lemma CopyOneIs(s: State, v: nat, nd: nat)
    requires v < |s.vnodes| && nd < |s.devices|
    requires Placed(s.devices, s.vnodes[v].replicas)
    ensures CopyOne(s, v, nd).Ok?
    ensures var rs, s' := s.vnodes[v].replicas, CopyOne(s, v, nd).value;
            if !IsDiffZones(rs, s.devices, s.devices[nd].zone) then s' == s
            else
              var pos := ReadReplica(s.vnodes[v]).1;
              && s'.replicaCount == s.replicaCount
              && if pos.None? then
                   && Replaces(s, s', v, rs + [Replica(if rs == [] then Active else Online, nd)])
                   && s'.devices == PushListed(s, nd, v).devices
                 else
                   var src := rs[pos.value].dev;
                   && Replaces(s, s', v, Planting(rs, src, nd, CopySrc))
                   && s'.devices == PushListed(PushPending(s, src, Event(v, nd)), nd, v).devices
  {
    var rs := s.vnodes[v].replicas;
    var pos := ReadReplica(s.vnodes[v]).1;
    if pos.Some? {
      assert rs[pos.value] in rs;
      FindAt(rs, pos.value);
    }
  }

  lemma CopyOneKeeps(e: Edition, s: State, v: nat, nd: nat)
    requires Inv(e, s) && v < |s.vnodes| && nd < |s.devices| && multiset(s.devices[nd].listed)[v] == 0
    ensures CopyOne(s, v, nd).Ok? && Inv(e, CopyOne(s, v, nd).value)
  {
    var rs := s.vnodes[v].replicas;
    assert VnodeInv(e, s.devices, rs, v);
    CopyOneIs(s, v, nd);
    var s' := CopyOne(s, v, nd).value;
    if IsDiffZones(rs, s.devices, s.devices[nd].zone) {
      var pos := ReadReplica(s.vnodes[v]).1;
      if pos.None? {
        PushedListed(s, nd, v);
        NeutralCopyKeeps(e, s, s', v, nd, if rs == [] then Active else Online);
      } else {
        CopyPlanted(e, s, s', v, pos.value, nd);
      }
    }
  }

  lemma CopyPlanted(e: Edition, s: State, s': State, v: nat, p: nat, nd: nat)
    requires Inv(e, s) && v < |s.vnodes| && nd < |s.devices| && multiset(s.devices[nd].listed)[v] == 0
    requires p < |s.vnodes[v].replicas| && s.vnodes[v].replicas[p].status.Active?
    requires IsDiffZones(s.vnodes[v].replicas, s.devices, s.devices[nd].zone)
    requires var (rs, src) := (s.vnodes[v].replicas, s.vnodes[v].replicas[p].dev);
             && Find(rs, src) < |rs| && src < |s.devices|
             && Replaces(s, s', v, Planting(rs, src, nd, CopySrc))
             && s'.devices == PushListed(PushPending(s, src, Event(v, nd)), nd, v).devices
    ensures Inv(e, s')
  {
    var rs := s.vnodes[v].replicas;
    var src := rs[p].dev;
    assert VnodeInv(e, s.devices, rs, v);
    FindAt(rs, p);
    LiveZones(s.devices, rs, nd);
    var s1 := PushPending(s, src, Event(v, nd));
    PushedPending(s, src, Event(v, nd));
    PushedListed(s1, nd, v);
    PlantedKeeps(e, s, s1.devices, s', v, src, nd, CopySrc);
  }
}
