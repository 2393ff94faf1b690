/**
 Every small step of the master keeps the invariant, and under the invariant none of them faults, except where
 the lemma says so.
 */
module Steps {
  import opened ProxyTypes
  import opened NodeInfo
  import opened NodeObjects
  import opened Protocol
  import opened Invariant

  /** The highest version accepted for `v`, and at least 0. */
  function MaxAccepted(accepted: seq<Acceptance>, v: nat): int {
    if accepted == [] then 0
    else
      var m, a := MaxAccepted(accepted[..|accepted| - 1], v), accepted[|accepted| - 1];
      if a.vnode == v && a.version > m then a.version else m
  }

  ghost predicate Within(ds: seq<Device>, n: nat) {
    forall d: nat :: d < |ds| ==>
      && (forall v :: v in ds[d].listed ==> v < n)
      && (forall e :: e in Owed(ds[d]) ==> e.vnode < n)
  }

  ghost predicate Inv(e: Edition, s: State) {
    && Within(s.devices, |s.vnodes|)
    && (forall v: nat :: v < |s.vnodes| ==> VnodeInv(e, s.devices, s.vnodes[v].replicas, v))
    && (forall v: nat :: v < |s.vnodes| ==> s.vnodes[v].version == MaxAccepted(s.accepted, v))
  }

  /** A step from `ds` to `ds'` that concerns no vnode but `v`. */
  ghost predicate Only(ds: seq<Device>, ds': seq<Device>, v: nat) {
    && |ds'| == |ds|
    && (forall d: nat :: d < |ds| ==>
          && ds'[d].zone == ds[d].zone
          && (forall w: nat :: w != v ==> multiset(ds'[d].listed)[w] == multiset(ds[d].listed)[w])
          && (forall f: Event :: f.vnode != v ==> Owed(ds'[d])[f] == Owed(ds[d])[f]))
  }

  lemma Touch(e: Edition, s: State, s': State, v: nat)
    requires Inv(e, s) && v < |s.vnodes| == |s'.vnodes|
    requires Only(s.devices, s'.devices, v)
    requires forall w: nat :: w < |s.vnodes| && w != v ==> s'.vnodes[w] == s.vnodes[w]
    requires VnodeInv(e, s'.devices, s'.vnodes[v].replicas, v)
    requires forall w: nat :: w < |s.vnodes| ==> s'.vnodes[w].version == MaxAccepted(s'.accepted, w)
    ensures Inv(e, s')
  {
    forall w: nat | w < |s.vnodes|
      ensures VnodeInv(e, s'.devices, s'.vnodes[w].replicas, w)
    {
      if w != v {
        Frame(e, s.devices, s'.devices, s.vnodes[w].replicas, w);
      }
    }
    forall d: nat | d < |s'.devices|
      ensures forall w :: w in s'.devices[d].listed ==> w < |s.vnodes|
      ensures forall f :: f in Owed(s'.devices[d]) ==> f.vnode < |s.vnodes|
    {
      forall w: nat | w in s'.devices[d].listed
        ensures w < |s.vnodes|
      {
        assert multiset(s'.devices[d].listed)[w] > 0;
        assert w != v ==> multiset(s.devices[d].listed)[w] > 0;
        assert w != v ==> w in s.devices[d].listed;
      }
      forall f: Event | f in Owed(s'.devices[d])
        ensures f.vnode < |s.vnodes|
      {
        assert f.vnode == v || Owed(s.devices[d])[f] > 0;
      }
    }
  }

  /** `s'` is `s` with other devices and other replicas for vnode `v`. */
  ghost predicate Replaces(s: State, s': State, v: nat, rs': seq<Replica>) {
    && |s'.vnodes| == |s.vnodes| && v < |s.vnodes| && s'.accepted == s.accepted
    && s'.vnodes[v].replicas == rs'
    && (forall w: nat :: w < |s.vnodes| ==> s'.vnodes[w].version == s.vnodes[w].version)
    && (forall w: nat :: w < |s.vnodes| && w != v ==> s'.vnodes[w] == s.vnodes[w])
  }

  // ---------------------------------------------------------------------------------------------
  // Updates of the device lists
  // ---------------------------------------------------------------------------------------------

  lemma PushedPending(s: State, d: nat, e: Event)
    requires d < |s.devices|
    ensures Gains(s.devices, PushPending(s, d, e).devices, d, e)
    ensures Only(s.devices, PushPending(s, d, e).devices, e.vnode)
    ensures forall c: nat :: c < |s.devices| ==> PushPending(s, d, e).devices[c].listed == s.devices[c].listed
  {
  }

  /** Device `d` lists `v` once more. */
  ghost predicate Lists(ds: seq<Device>, ds': seq<Device>, d: nat, v: nat) {
    && |ds'| == |ds| && d < |ds|
    && (forall c: nat :: c < |ds| ==>
          && ds'[c].zone == ds[c].zone && Owed(ds'[c]) == Owed(ds[c])
          && multiset(ds'[c].listed) == if c == d then multiset(ds[c].listed) + multiset{v} else multiset(ds[c].listed))
  }

  lemma PushedListed(s: State, d: nat, v: nat)
    requires d < |s.devices|
    ensures Lists(s.devices, PushListed(s, d, v).devices, d, v)
  {
  }

  lemma ListsLinks(ds: seq<Device>, ds': seq<Device>, d: nat, v: nat, w: nat)
    requires Lists(ds, ds', d, v)
    ensures Links(ds', w) == Links(ds, w)
    ensures OwedOnce(ds', w) == OwedOnce(ds, w)
  {
    assert forall p :: p in Links(ds', w) <==> (p.0, p.1) in Links(ds, w);
  }

  // ---------------------------------------------------------------------------------------------
  // Drain
  // ---------------------------------------------------------------------------------------------

  /** An owed event leads from a source to a device that exists. */
  lemma OwedIsSound(e: Edition, s: State, d: nat, ev: Event)
    requires Inv(e, s) && d < |s.devices| && ev in Owed(s.devices[d])
    ensures ev.vnode < |s.vnodes| && ev.dest < |s.devices|
    ensures (d, ev.dest) in Links(s.devices, ev.vnode)
    ensures SourceOn(s.vnodes[ev.vnode].replicas, d) && StatusOf(s.vnodes[ev.vnode].replicas, ev.dest).Some?
  {
    assert VnodeInv(e, s.devices, s.vnodes[ev.vnode].replicas, ev.vnode);
    assert Event(ev.vnode, ev.dest) == ev;
  }

  /** Only the order of the owed events changes. */
  lemma Reordered(e: Edition, s: State, s': State)
    requires Inv(e, s) && s'.vnodes == s.vnodes && s'.accepted == s.accepted && |s'.devices| == |s.devices|
    requires forall d: nat :: d < |s.devices| ==>
               && s'.devices[d].zone == s.devices[d].zone && s'.devices[d].listed == s.devices[d].listed
               && Owed(s'.devices[d]) == Owed(s.devices[d])
    ensures Inv(e, s')
  {
    forall v: nat | v < |s.vnodes|
      ensures VnodeInv(e, s'.devices, s'.vnodes[v].replicas, v)
    {
      Frame(e, s.devices, s'.devices, s.vnodes[v].replicas, v);
    }
  }

  lemma Moved(p: seq<Event>, q: seq<Event>)
    requires p != []
    ensures multiset(p[1..]) + multiset(q + [p[0]]) == multiset(p) + multiset(q)
  {
    assert p == [p[0]] + p[1..];
  }

  lemma DrainOneKeeps(e: Edition, s: State, d: nat)
    requires Inv(e, s) && d < |s.devices| && s.devices[d].pending != []
    ensures DrainOne(s, d).Ok?
    ensures var (s', unit) := DrainOne(s, d).value;
            && Inv(e, s') && s'.vnodes == s.vnodes && IsSource(unit.status)
            && (forall c: nat :: c < |s.devices| ==> s'.devices[c].listed == s.devices[c].listed)
  {
    var dev := s.devices[d];
    OwedIsSound(e, s, d, dev.pending[0]);
    Moved(dev.pending, dev.syncing);
    Reordered(e, s, DrainOne(s, d).value.0);
  }

  /** No replica comes, goes or starts to move; the vnode lists stay. */
  ghost predicate SamePlaces(s: State, s': State) {
    && |s'.vnodes| == |s.vnodes| && |s'.devices| == |s.devices| && s'.replicaCount == s.replicaCount
    && (forall d: nat :: d < |s.devices| ==> s'.devices[d].listed == s.devices[d].listed)
    && (forall v: nat :: v < |s.vnodes| ==> SameDevs(s.vnodes[v].replicas, s'.vnodes[v].replicas))
  }

  ghost predicate SameDevs(rs: seq<Replica>, rs': seq<Replica>) {
    && |rs'| == |rs|
    && (forall i :: 0 <= i < |rs| ==> rs'[i].dev == rs[i].dev)
    && (forall i :: 0 <= i < |rs| ==> (rs'[i].status.MoveSrc? <==> rs[i].status.MoveSrc?))
  }

  // ---------------------------------------------------------------------------------------------
  // One reported vnode
  // ---------------------------------------------------------------------------------------------

  /** The statuses of `rs'` differ, but no replica came, went, or came back to life. */
  ghost predicate Restatused(rs: seq<Replica>, rs': seq<Replica>) {
    && Distinct(rs') && |rs'| == |rs|
    && (forall i :: 0 <= i < |rs| ==> rs'[i].dev == rs[i].dev)
    && (forall d: nat :: StatusOf(rs', d).Some? <==> StatusOf(rs, d).Some?)
    && (forall d: nat :: LiveOn(rs', d) ==> LiveOn(rs, d))
  }

  lemma RestatusedKeeps(e: Edition, ds: seq<Device>, ds': seq<Device>, rs: seq<Replica>, rs': seq<Replica>, v: nat)
    requires VnodeInv(e, ds, rs, v) && Restatused(rs, rs')
    requires |ds'| == |ds|
    requires forall d: nat :: d < |ds| ==> ds'[d].zone == ds[d].zone && ds'[d].listed == ds[d].listed
    ensures Placed(ds', rs') && ZoneInv(ds', rs') && IndexInv(e, ds', rs', v)
  {
    forall r | r in rs'
      ensures r.dev < |ds'|
    {
      var i :| 0 <= i < |rs'| && rs'[i] == r;
      assert rs[i] in rs;
    }
  }

  lemma SetRestatused(rs: seq<Replica>, dev: nat, st: Status)
    requires Distinct(rs) && Find(rs, dev) < |rs|
    requires st.MoveSrc? || LiveOn(rs, dev)
    ensures Restatused(rs, SetStatus(rs, dev, st))
  {
    SetStatusIs(rs, dev, st);
  }

  lemma AcceptKeeps(e: Edition, s: State, v: nat, d: nat, version: int)
    requires Inv(e, s) && v < |s.vnodes| && StatusOf(s.vnodes[v].replicas, d).Some?
    requires Neutral(StatusOf(s.vnodes[v].replicas, d)) && version >= s.vnodes[v].version
    ensures Inv(e, Accept(s, v, d, version).0)
  {
    var rs := s.vnodes[v].replicas;
    var (s', st) := Accept(s, v, d, version);
    var rs' := s'.vnodes[v].replicas;
    assert VnodeInv(e, s.devices, rs, v);
    SetStatusIs(rs, d, st);
    SetRestatused(rs, d, st);
    RestatusedKeeps(e, s.devices, s.devices, rs, rs', v);
    LinksUntouched(Links(s.devices, v), rs, rs');
    var h: nat :| HolderOn(rs, h);
    assert HolderOn(rs', h);
    assert s'.accepted[..|s.accepted|] == s.accepted;
    Touch(e, s, s', v);
  }

  lemma LagOnline(s: State, v: nat, d: nat)
    requires v < |s.vnodes| && StatusOf(s.vnodes[v].replicas, d).Some? && ReadReplica(s.vnodes[v]).1.None?
    ensures Lag(s, v, d).Ok?
    ensures var s' := Lag(s, v, d).value.0;
            && Replaces(s, s', v, SetStatus(s.vnodes[v].replicas, d, Online)) && s'.devices == s.devices
            && StatusOf(s.vnodes[v].replicas, d) != Some(Active)
  {
    var rs := s.vnodes[v].replicas;
    assert rs[Find(rs, d)] in rs;
  }

  lemma OnlineKeeps(e: Edition, ds: seq<Device>, rs: seq<Replica>, v: nat, d: nat)
    requires VnodeInv(e, ds, rs, v) && Find(rs, d) < |rs| && Neutral(StatusOf(rs, d)) && StatusOf(rs, d) != Some(Active)
    ensures VnodeInv(e, ds, SetStatus(rs, d, Online), v)
  {
    var rs' := SetStatus(rs, d, Online);
    SetStatusIs(rs, d, Online);
    SetRestatused(rs, d, Online);
    RestatusedKeeps(e, ds, ds, rs, rs', v);
    LinksUntouched(Links(ds, v), rs, rs');
    var h: nat :| HolderOn(rs, h);
    assert HolderOn(rs', h);
  }

  lemma LagKeeps(e: Edition, s: State, v: nat, d: nat)
    requires Inv(e, s) && v < |s.vnodes| && StatusOf(s.vnodes[v].replicas, d).Some?
    requires Neutral(StatusOf(s.vnodes[v].replicas, d))
    ensures Lag(s, v, d).Ok? && Inv(e, Lag(s, v, d).value.0)
  {
    var pos := ReadReplica(s.vnodes[v]).1;
    if pos.None? {
      LagOnline(s, v, d);
      OnlineKeeps(e, s.devices, s.vnodes[v].replicas, v, d);
      Touch(e, s, Lag(s, v, d).value.0, v);
    } else {
      assert VnodeInv(e, s.devices, s.vnodes[v].replicas, v);
      SyncPlanned(e, s, v, pos.value, d);
    }
  }

  /** Statuses after a sync from `src` to `dst` is planned. */
  ghost predicate Planned(rs: seq<Replica>, rs': seq<Replica>, src: nat, dst: nat, kind: Status) {
    forall d: nat :: StatusOf(rs', d) ==
                     if d == src then Some(kind) else if d == dst then Some(WaitSync) else StatusOf(rs, d)
  }

  lemma PlanKeeps(ds: seq<Device>, ds': seq<Device>, rs: seq<Replica>, rs': seq<Replica>, v: nat, src: nat, dst: nat,
                  kind: Status)
    requires EventInv(ds, rs, v) && Gains(ds, ds', src, Event(v, dst))
    requires StatusOf(rs, src) == Some(Active) && Neutral(StatusOf(rs, dst))
    requires kind.CopySrc? || (kind.MoveSrc? && src != dst)
    requires Planned(rs, rs', src, dst, kind)
    ensures EventInv(ds', rs', v) && HolderInv(rs')
  {
    assert (src, dst) !in Links(ds, v);
    LinkGained(ds, ds', src, Event(v, dst));
    OnceGained(ds, ds', src, Event(v, dst));
    LinkAdded(Links(ds, v), rs, rs', src, dst, kind);
    assert HolderOn(rs', src);
  }

  /** Waiting and source are marked in this order; they may be the same replica, which then is a source. */
  lemma PlanReplicas(rs: seq<Replica>, p: nat, d: nat)
    requires Distinct(rs) && p < |rs| && rs[p].status.Active?
    requires StatusOf(rs, d).Some? && Neutral(StatusOf(rs, d))
    ensures StatusOf(rs, rs[p].dev) == Some(Active)
    ensures var rs' := SetStatus(rs, d, WaitSync)[p := Replica(CopySrc, rs[p].dev)];
            Restatused(rs, rs') && Planned(rs, rs', rs[p].dev, d, CopySrc)
  {
    var src := rs[p].dev;
    FindAt(rs, p);
    var rs1 := SetStatus(rs, d, WaitSync);
    SetStatusIs(rs, d, WaitSync);
    FindAt(rs1, p);
    SetStatusIs(rs1, src, CopySrc);
    assert SetStatus(rs1, src, CopySrc) == rs1[p := Replica(CopySrc, src)];
  }

  lemma PlannedVnode(e: Edition, ds: seq<Device>, ds': seq<Device>, rs: seq<Replica>, v: nat, p: nat, d: nat)
    requires VnodeInv(e, ds, rs, v) && p < |rs| && rs[p].status.Active?
    requires StatusOf(rs, d).Some? && Neutral(StatusOf(rs, d))
    requires Gains(ds, ds', rs[p].dev, Event(v, d))
    requires forall c: nat :: c < |ds| ==> ds'[c].zone == ds[c].zone && ds'[c].listed == ds[c].listed
    ensures VnodeInv(e, ds', SetStatus(rs, d, WaitSync)[p := Replica(CopySrc, rs[p].dev)], v)
  {
    var src := rs[p].dev;
    var rs' := SetStatus(rs, d, WaitSync)[p := Replica(CopySrc, src)];
    PlanReplicas(rs, p, d);
    RestatusedKeeps(e, ds, ds', rs, rs', v);
    PlanKeeps(ds, ds', rs, rs', v, src, d, CopySrc);
  }

  /** The effect of Lag when the read scan finds replica `p`. */
  lemma LagPlans(s: State, v: nat, p: nat, d: nat)
    requires v < |s.vnodes| && StatusOf(s.vnodes[v].replicas, d).Some?
    requires ReadReplica(s.vnodes[v]).1 == Some(p) && s.vnodes[v].replicas[p].dev < |s.devices|
    ensures Lag(s, v, d).Ok?
    ensures var (s', st, rs) := (Lag(s, v, d).value.0, Lag(s, v, d).value.1, s.vnodes[v].replicas);
            && st == WaitSync && s'.accepted == s.accepted
            && s'.devices == PushPending(s, rs[p].dev, Event(v, d)).devices
            && |s'.vnodes| == |s.vnodes|
            && (forall w: nat :: w < |s.vnodes| ==> s'.vnodes[w].version == s.vnodes[w].version)
            && (forall w: nat :: w < |s.vnodes| && w != v ==> s'.vnodes[w] == s.vnodes[w])
            && s'.vnodes[v].replicas == SetStatus(rs, d, WaitSync)[p := Replica(CopySrc, rs[p].dev)]
  {
  }

  lemma SyncPlanned(e: Edition, s: State, v: nat, p: nat, d: nat)
    requires Inv(e, s) && v < |s.vnodes|
    requires ReadReplica(s.vnodes[v]).1 == Some(p)
    requires StatusOf(s.vnodes[v].replicas, d).Some? && Neutral(StatusOf(s.vnodes[v].replicas, d))
    ensures Lag(s, v, d).Ok? && Inv(e, Lag(s, v, d).value.0)
  {
    var rs := s.vnodes[v].replicas;
    assert VnodeInv(e, s.devices, rs, v);
    assert rs[p] in rs;
    LagPlans(s, v, p, d);
    PushedPending(s, rs[p].dev, Event(v, d));
    var s' := Lag(s, v, d).value.0;
    PlannedVnode(e, s.devices, s'.devices, rs, v, p, d);
    Touch(e, s, s', v);
  }

  /** Every listed vnode has a replica on `d`. */
  ghost predicate AllPlaced(s: State, d: nat, list: seq<nat>) {
    forall v :: v in list ==> v < |s.vnodes| && StatusOf(s.vnodes[v].replicas, d).Some?
  }

  lemma PlacedStays(s: State, s': State, d: nat, list: seq<nat>)
    requires SamePlaces(s, s')
    ensures AllPlaced(s', d, list) <==> AllPlaced(s, d, list)
  {
    forall v | v in list && v < |s.vnodes|
      ensures StatusOf(s'.vnodes[v].replicas, d).Some? <==> StatusOf(s.vnodes[v].replicas, d).Some?
    {
      SameFind(s.vnodes[v].replicas, s'.vnodes[v].replicas, d);
    }
  }

  lemma AcceptPlaces(s: State, v: nat, d: nat, version: int)
    requires v < |s.vnodes| && StatusOf(s.vnodes[v].replicas, d).Some?
    requires Neutral(StatusOf(s.vnodes[v].replicas, d))
    ensures SamePlaces(s, Accept(s, v, d, version).0)
  {
    var rs' := Accept(s, v, d, version).0.vnodes[v].replicas;
    assert SameDevs(s.vnodes[v].replicas, rs');
  }

  lemma LagPlaces(s: State, v: nat, d: nat)
    requires v < |s.vnodes| && StatusOf(s.vnodes[v].replicas, d).Some?
    requires Neutral(StatusOf(s.vnodes[v].replicas, d)) && Lag(s, v, d).Ok?
    ensures SamePlaces(s, Lag(s, v, d).value.0)
  {
    var rs' := Lag(s, v, d).value.0.vnodes[v].replicas;
    assert SameDevs(s.vnodes[v].replicas, rs');
  }

  /** A report of a listed vnode faults exactly when the vnode has no replica on the device. */
  lemma ReportOneFaults(e: Edition, b: Beat, d: nat, r: Report)
    requires Inv(e, b.s) && IndexOf(b.todo, r.id) < |b.todo|
    ensures ReportOne(b, d, r).Ok? <==> AllPlaced(b.s, d, [b.todo[IndexOf(b.todo, r.id)]])
  {
    var v := b.todo[IndexOf(b.todo, r.id)];
    assert v in [v];
    if AllPlaced(b.s, d, [v]) {
      var st := StatusOf(b.s.vnodes[v].replicas, d).value;
      if !IsSource(st) && !st.WaitSync? && r.version < b.s.vnodes[v].version {
        LagKeeps(e, b.s, v, d);
      }
    }
  }

  lemma ReportOneKeeps(e: Edition, b: Beat, d: nat, r: Report)
    requires Inv(e, b.s) && ReportOne(b, d, r).Ok?
    ensures var b' := ReportOne(b, d, r).value; Inv(e, b'.s) && SamePlaces(b.s, b'.s)
  {
    var j := IndexOf(b.todo, r.id);
    if j < |b.todo| {
      var v := b.todo[j];
      var st := StatusOf(b.s.vnodes[v].replicas, d).value;
      if !IsSource(st) && !st.WaitSync? {
        if r.version < b.s.vnodes[v].version {
          LagKeeps(e, b.s, v, d);
          LagPlaces(b.s, v, d);
        } else {
          AcceptKeeps(e, b.s, v, d, r.version);
          AcceptPlaces(b.s, v, d, r.version);
        }
      }
    }
  }
}
