/**
 The invariant of the replica protocol, vnode by vnode, and the ways in which a step may change one vnode.
 */
module Invariant {
  import opened ProxyTypes
  import opened NodeInfo
  import opened NodeObjects

  /** All sync events a device still owes. */
  ghost function Owed(dev: Device): multiset<Event> {
    multiset(dev.pending) + multiset(dev.syncing)
  }

  /** The (source device, destination device) pairs of the events for vnode `v`. */
  ghost function Links(ds: seq<Device>, v: nat): (links: set<(nat, nat)>)
    ensures forall d: nat, x: nat :: (d, x) in links <==> d < |ds| && Event(v, x) in Owed(ds[d])
  {
    set d: nat, e: Event | d < |ds| && e in Owed(ds[d]) && e.vnode == v :: (d, e.dest)
  }

  ghost predicate SourceOn(rs: seq<Replica>, d: nat) {
    StatusOf(rs, d).Some? && IsSource(StatusOf(rs, d).value)
  }

  ghost predicate WaitsOn(rs: seq<Replica>, d: nat) {
    StatusOf(rs, d) == Some(WaitSync)
  }

  /** A replica that is not about to be moved away. */
  ghost predicate LiveOn(rs: seq<Replica>, d: nat) {
    StatusOf(rs, d).Some? && !StatusOf(rs, d).value.MoveSrc?
  }

  ghost predicate HolderOn(rs: seq<Replica>, d: nat) {
    StatusOf(rs, d).Some? && HoldsData(StatusOf(rs, d).value)
  }

  /** No device owes the same event twice. */
  ghost predicate OwedOnce(ds: seq<Device>, v: nat) {
    forall d: nat, x: nat :: d < |ds| ==> Owed(ds[d])[Event(v, x)] <= 1
  }

  /**
   Sources and events correspond one to one: a device owes an event for the vnode exactly when its replica is a
   source, and then exactly one. A waiting replica is the destination of exactly one event; every event leads to a
   waiting replica, or is a COPY_SRC's event to itself.
   */
  ghost predicate Matched(links: set<(nat, nat)>, rs: seq<Replica>) {
    && (forall p, q :: p in links && q in links && (p.0 == q.0 || p.1 == q.1) ==> p == q)
    && (forall p :: p in links ==>
          && SourceOn(rs, p.0)
          && if p.0 == p.1 then StatusOf(rs, p.0) == Some(CopySrc) else WaitsOn(rs, p.1))
    && (forall d: nat :: SourceOn(rs, d) ==> exists p :: p in links && p.0 == d)
    && (forall x: nat :: WaitsOn(rs, x) ==> exists p :: p in links && p.1 == x)
  }

  ghost predicate EventInv(ds: seq<Device>, rs: seq<Replica>, v: nat) {
    OwedOnce(ds, v) && Matched(Links(ds, v), rs)
  }

  ghost predicate ZoneInv(ds: seq<Device>, rs: seq<Replica>) {
    forall c: nat, d: nat :: c < d < |ds| && LiveOn(rs, c) && LiveOn(rs, d) ==> ds[c].zone != ds[d].zone
  }

  ghost predicate HolderInv(rs: seq<Replica>) {
    rs != [] ==> exists d: nat :: HolderOn(rs, d)
  }

  /** In these editions vnode_list never names a vnode whose replica is gone. */
  predicate Exact(e: Edition) {
    e.erasesMoved || !e.keepsReplica
  }

  ghost predicate IndexInv(e: Edition, ds: seq<Device>, rs: seq<Replica>, v: nat) {
    forall d: nat :: d < |ds| ==>
      && multiset(ds[d].listed)[v] <= 1
      && (StatusOf(rs, d).Some? ==> multiset(ds[d].listed)[v] == 1)
      && (Exact(e) && multiset(ds[d].listed)[v] == 1 ==> StatusOf(rs, d).Some?)
  }

  ghost predicate NoMoveSrc(rs: seq<Replica>) {
    forall d: nat :: StatusOf(rs, d) != Some(MoveSrc)
  }

  ghost predicate Placed(ds: seq<Device>, rs: seq<Replica>) {
    && Distinct(rs)
    && (forall r :: r in rs ==> r.dev < |ds|)
    && (forall d: nat :: StatusOf(rs, d).Some? ==> d < |ds|)
  }

  ghost predicate VnodeInv(e: Edition, ds: seq<Device>, rs: seq<Replica>, v: nat) {
    && Placed(ds, rs)
    && EventInv(ds, rs, v)
    && ZoneInv(ds, rs)
    && HolderInv(rs)
    && IndexInv(e, ds, rs, v)
    && (!e.keepsReplica ==> NoMoveSrc(rs))
  }

  // ---------------------------------------------------------------------------------------------
  // What a step leaves alone
  // ---------------------------------------------------------------------------------------------

  /** `ds'` differs from `ds` neither in zones nor in what concerns vnode `v`. */
  ghost predicate SameFor(ds: seq<Device>, ds': seq<Device>, v: nat) {
    && |ds| == |ds'|
    && (forall d: nat :: d < |ds| ==>
          && ds'[d].zone == ds[d].zone
          && multiset(ds'[d].listed)[v] == multiset(ds[d].listed)[v])
    && (forall d: nat, x: nat :: d < |ds| ==> Owed(ds'[d])[Event(v, x)] == Owed(ds[d])[Event(v, x)])
  }

  lemma SameLinks(ds: seq<Device>, ds': seq<Device>, v: nat)
    requires SameFor(ds, ds', v)
    ensures Links(ds', v) == Links(ds, v)
  {
    forall d: nat, x: nat | d < |ds|
      ensures Event(v, x) in Owed(ds'[d]) <==> Event(v, x) in Owed(ds[d])
    {
      assert Owed(ds'[d])[Event(v, x)] == Owed(ds[d])[Event(v, x)];
    }
    assert forall p :: p in Links(ds', v) <==> (p.0, p.1) in Links(ds, v);
  }

  lemma Frame(e: Edition, ds: seq<Device>, ds': seq<Device>, rs: seq<Replica>, v: nat)
    requires VnodeInv(e, ds, rs, v) && SameFor(ds, ds', v)
    ensures VnodeInv(e, ds', rs, v)
  {
    SameLinks(ds, ds', v);
  }

  // ---------------------------------------------------------------------------------------------
  // The three ways to change the statuses of one vnode
  // ---------------------------------------------------------------------------------------------

  /** Neither source nor waiting. */
  ghost predicate Neutral(st: Option<Status>) {
    st.Some? ==> !IsSource(st.value) && !st.value.WaitSync?
  }

  /** Neutral replicas change among themselves; no event comes or goes. */
  lemma LinksUntouched(links: set<(nat, nat)>, rs: seq<Replica>, rs': seq<Replica>)
    requires Matched(links, rs)
    requires forall d: nat ::
               StatusOf(rs', d) == StatusOf(rs, d) || (Neutral(StatusOf(rs, d)) && Neutral(StatusOf(rs', d)))
    ensures Matched(links, rs')
  {
    assert forall d: nat :: SourceOn(rs', d) == SourceOn(rs, d) && WaitsOn(rs', d) == WaitsOn(rs, d);
  }

  /** An ACTIVE replica becomes the source of a sync to `dst`. */
  lemma LinkAdded(links: set<(nat, nat)>, rs: seq<Replica>, rs': seq<Replica>, src: nat, dst: nat, kind: Status)
    requires Matched(links, rs)
    requires StatusOf(rs, src) == Some(Active) && Neutral(StatusOf(rs, dst))
    requires kind.CopySrc? || (kind.MoveSrc? && src != dst)
    requires forall d: nat :: StatusOf(rs', d) ==
                              if d == src then Some(kind) else if d == dst then Some(WaitSync) else StatusOf(rs, d)
    ensures Matched(links + {(src, dst)}, rs')
  {
    var links' := links + {(src, dst)};
    assert forall p :: p in links ==> p.0 != src && p.1 != dst && p.0 != dst && p.1 != src;
    forall d: nat | SourceOn(rs', d)
      ensures exists p :: p in links' && p.0 == d
    {
      if d == src {
        assert (src, dst) in links';
      } else {
        assert SourceOn(rs, d);
        var p :| p in links && p.0 == d;
        assert p in links';
      }
    }
    forall x: nat | WaitsOn(rs', x)
      ensures exists p :: p in links' && p.1 == x
    {
      if x == dst {
        assert (src, dst) in links';
      } else {
        assert WaitsOn(rs, x);
        var p :| p in links && p.1 == x;
        assert p in links';
      }
    }
  }

  /** The sync from `src` to `dst` is done: `dst` is ACTIVE, and `src` is ACTIVE or gone. */
  lemma LinkRemoved(links: set<(nat, nat)>, rs: seq<Replica>, rs': seq<Replica>, src: nat, dst: nat)
    requires Matched(links, rs) && (src, dst) in links
    requires StatusOf(rs', dst) == Some(Active)
    requires StatusOf(rs', src) == None || StatusOf(rs', src) == Some(Active)
    requires forall d: nat :: d != src && d != dst ==> StatusOf(rs', d) == StatusOf(rs, d)
    ensures Matched(links - {(src, dst)}, rs')
  {
    var links' := links - {(src, dst)};
    assert forall p :: p in links' ==> p.0 != src && p.1 != dst && p.0 != dst && p.1 != src;
    forall d: nat | SourceOn(rs', d)
      ensures exists p :: p in links' && p.0 == d
    {
      assert SourceOn(rs, d);
      var p :| p in links && p.0 == d;
      assert p in links';
    }
    forall x: nat | WaitsOn(rs', x)
      ensures exists p :: p in links' && p.1 == x
    {
      assert WaitsOn(rs, x);
      var p :| p in links && p.1 == x;
      assert p in links';
    }
  }

  /** Device `src` owes one more event. */
  ghost predicate Gains(ds: seq<Device>, ds': seq<Device>, src: nat, e: Event) {
    && |ds'| == |ds| && src < |ds|
    && (forall d: nat :: d < |ds| ==> Owed(ds'[d]) == if d == src then Owed(ds[d]) + multiset{e} else Owed(ds[d]))
  }

  lemma GainsCount(ds: seq<Device>, ds': seq<Device>, src: nat, e: Event, d: nat, f: Event)
    requires Gains(ds, ds', src, e) && d < |ds|
    ensures Owed(ds'[d])[f] == Owed(ds[d])[f] + if d == src && f == e then 1 else 0
  {
  }

  lemma PairGained(ds: seq<Device>, ds': seq<Device>, src: nat, e: Event, p: (nat, nat))
    requires Gains(ds, ds', src, e)
    ensures p in Links(ds', e.vnode) <==> p in Links(ds, e.vnode) || p == (src, e.dest)
  {
    assert p == (p.0, p.1);
    if p.0 < |ds| {
      GainsCount(ds, ds', src, e, p.0, Event(e.vnode, p.1));
    }
  }

  lemma LinkGained(ds: seq<Device>, ds': seq<Device>, src: nat, e: Event)
    requires Gains(ds, ds', src, e)
    ensures Links(ds', e.vnode) == Links(ds, e.vnode) + {(src, e.dest)}
  {
    forall p: (nat, nat)
      ensures p in Links(ds', e.vnode) <==> p in Links(ds, e.vnode) || p == (src, e.dest)
    {
      PairGained(ds, ds', src, e, p);
    }
  }

  lemma OnceGained(ds: seq<Device>, ds': seq<Device>, src: nat, e: Event)
    requires Gains(ds, ds', src, e)
    requires OwedOnce(ds, e.vnode) && (src, e.dest) !in Links(ds, e.vnode)
    ensures OwedOnce(ds', e.vnode)
  {
    forall d: nat, x: nat | d < |ds|
      ensures Owed(ds'[d])[Event(e.vnode, x)] <= 1
    {
      GainsCount(ds, ds', src, e, d, Event(e.vnode, x));
      assert Event(e.vnode, e.dest) == e;
      assert e !in Owed(ds[src]);
    }
  }

  lemma OnceLost(ds: seq<Device>, ds': seq<Device>, src: nat, e: Event)
    requires Gains(ds', ds, src, e) && OwedOnce(ds, e.vnode)
    ensures OwedOnce(ds', e.vnode) && Links(ds', e.vnode) == Links(ds, e.vnode) - {(src, e.dest)}
  {
    forall d: nat, x: nat | d < |ds|
      ensures Owed(ds'[d])[Event(e.vnode, x)] <= 1
    {
      GainsCount(ds', ds, src, e, d, Event(e.vnode, x));
      assert Owed(ds[d])[Event(e.vnode, x)] <= 1;
    }
    LinkGained(ds', ds, src, e);
    GainsCount(ds', ds, src, e, src, Event(e.vnode, e.dest));
    assert Owed(ds[src])[Event(e.vnode, e.dest)] <= 1;
    assert (src, e.dest) !in Links(ds', e.vnode);
  }
}
