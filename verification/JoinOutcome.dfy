/**
 What a whole join does to each vnode and each device, in terms of the state before it.
 */
module JoinOutcome {
  import opened ProxyTypes
  import opened NodeInfo
  import opened NodeObjects
  import opened Protocol
  import opened Invariant
  import opened Steps
  import opened JoinSteps
  import opened JoinLoops
  import opened JoinInduction
  import opened Counting
  import opened Runs
  import opened Guarantees
  import opened HeartbeatMerge

  /** No replica of the vnode lies in the zone of device `nd`. */
  ghost predicate ZoneFree(ds: seq<Device>, rs: seq<Replica>, nd: nat)
    requires nd < |ds|
  {
    forall i :: 0 <= i < |rs| && rs[i].dev < |ds| ==> ds[rs[i].dev].zone != ds[nd].zone
  }

  /** The events that take these vnodes to device `nd`. */
  function EventsTo(list: seq<nat>, nd: nat): (events: seq<Event>)
    ensures |events| == |list| && forall i :: 0 <= i < |list| ==> events[i] == Event(list[i], nd)
  {
    seq(|list|, i requires 0 <= i < |list| => Event(list[i], nd))
  }

  // ---------------------------------------------------------------------------------------------
  // A join that copies
  // ---------------------------------------------------------------------------------------------

  /**
   The first replica of a vnode is ACTIVE. Of others, the joining device gets one if its zone is free: ONLINE if none is
   ACTIVE, and otherwise waiting for the ACTIVE one that comes next, which becomes COPY_SRC.
   */
  ghost predicate CopiedVnode(ds: seq<Device>, vn: Vnode, vn': Vnode, nd: nat)
    requires nd < |ds|
  {
    if !ZoneFree(ds, vn.replicas, nd) then vn' == vn
    else if vn.replicas == [] then vn' == vn.(replicas := [Replica(Active, nd)])
    else if NoneActive(vn.replicas) then
      vn' == vn.(replicas := vn.replicas + [Replica(Online, nd)], rd := vn'.rd)
    else
      exists p: nat :: ComesNext(vn.replicas, vn.rd, p)
        && vn' == vn.(replicas := vn.replicas[p := Replica(CopySrc, vn.replicas[p].dev)] + [Replica(WaitSync, nd)],
                      rd := p + 1)
  }

  /** The joining device's replica of the vnode is to be copied from the one on device `c`. */
  ghost predicate CopiesFrom(ds: seq<Device>, vn: Vnode, nd: nat, c: nat)
    requires nd < |ds|
  {
    ZoneFree(ds, vn.replicas, nd) && exists p: nat :: ComesNext(vn.replicas, vn.rd, p) && vn.replicas[p].dev == c
  }

  /** Of the vnodes below `v`, in order, those that the joining device gets. */
  ghost function Given(s: State, nd: nat, v: nat): (list: seq<nat>)
    requires nd < |s.devices| && v <= |s.vnodes|
    decreases v
  {
    if v == 0 then []
    else Given(s, nd, v - 1) + if ZoneFree(s.devices, s.vnodes[v - 1].replicas, nd) then [v - 1] else []
  }

  /** Of the vnodes below `v`, in order, those that device `c` is to copy. */
  ghost function GivenBy(s: State, nd: nat, v: nat, c: nat): (list: seq<nat>)
    requires nd < |s.devices| && v <= |s.vnodes|
    decreases v
  {
    if v == 0 then []
    else GivenBy(s, nd, v - 1, c) + if CopiesFrom(s.devices, s.vnodes[v - 1], nd, c) then [v - 1] else []
  }

  /** The vnodes below `v` are dealt with. */
  ghost predicate CopiedBelow(s: State, nd: nat, x: State, v: nat) {
    && nd < |s.devices| && |x.devices| == |s.devices| && |x.vnodes| == |s.vnodes| && v <= |s.vnodes|
    && x.accepted == s.accepted && x.replicaCount == s.replicaCount
    && (forall w: nat :: w < |s.vnodes| ==>
          if w < v then CopiedVnode(s.devices, s.vnodes[w], x.vnodes[w], nd) else x.vnodes[w] == s.vnodes[w])
    && (forall c: nat :: c < |s.devices| ==>
          x.devices[c] == CopiedDevice(s, nd, v, c))
  }

  ghost function CopiedDevice(s: State, nd: nat, v: nat, c: nat): Device
    requires nd < |s.devices| && v <= |s.vnodes| && c < |s.devices|
  {
    var dev := s.devices[c];
    dev.(pending := dev.pending + EventsTo(GivenBy(s, nd, v, c), nd),
         listed := if c == nd then dev.listed + Given(s, nd, v) else dev.listed)
  }

  lemma EventsToMore(list: seq<nat>, v: nat, nd: nat)
    ensures EventsTo(list + [v], nd) == EventsTo(list, nd) + [Event(v, nd)]
    ensures EventsTo(list + [], nd) == EventsTo(list, nd)
  {
    assert list + [] == list;
  }

  /** What copying one vnode does. */
  lemma CopyOneOutcome(s: State, v: nat, nd: nat)
    requires v < |s.vnodes| && nd < |s.devices| && CopyOne(s, v, nd).Ok?
    ensures var s' := CopyOne(s, v, nd).value;
            && |s'.devices| == |s.devices| && s' == s.(vnodes := s.vnodes[v := s'.vnodes[v]], devices := s'.devices)
            && CopiedVnode(s.devices, s.vnodes[v], s'.vnodes[v], nd)
  {
    var vn := s.vnodes[v];
    assert ZoneFree(s.devices, vn.replicas, nd) <==> IsDiffZones(vn.replicas, s.devices, s.devices[nd].zone);
    if ZoneFree(s.devices, vn.replicas, nd) && vn.replicas != [] {
      var pos := ReadReplica(vn).1;
      if pos.None? {
        ReadReplicaIs(vn, 0);
      } else {
        NextIs(vn, pos.value);
        assert ComesNext(vn.replicas, vn.rd, pos.value);
        assert vn.replicas[pos.value] in vn.replicas;
      }
    }
  }

  lemma CopyOneDevices(s: State, v: nat, nd: nat, c: nat)
    requires v < |s.vnodes| && nd < |s.devices| && c < |s.devices| && CopyOne(s, v, nd).Ok?
    ensures var dev, dev' := s.devices[c], CopyOne(s, v, nd).value.devices[c];
            var copies := CopiesFrom(s.devices, s.vnodes[v], nd, c);
            var given := ZoneFree(s.devices, s.vnodes[v].replicas, nd);
            dev' == dev.(pending := dev.pending + if copies then [Event(v, nd)] else [],
                         listed := dev.listed + if c == nd && given then [v] else [])
  {
    var vn, dev := s.vnodes[v], s.devices[c];
    assert dev.pending + [] == dev.pending && dev.listed + [] == dev.listed;
    assert ZoneFree(s.devices, vn.replicas, nd) <==> IsDiffZones(vn.replicas, s.devices, s.devices[nd].zone);
    var pos := ReadReplica(vn).1;
    if pos.None? {
      forall p: nat
        ensures !ComesNext(vn.replicas, vn.rd, p)
      {
        ReadReplicaIs(vn, p);
      }
    } else {
      NextIs(vn, pos.value);
      assert ComesNext(vn.replicas, vn.rd, pos.value);
    }
  }

  lemma SameZonesFree(ds: seq<Device>, ds': seq<Device>, vn: Vnode, nd: nat)
    requires |ds'| == |ds| && nd < |ds| && forall c: nat :: c < |ds| ==> ds'[c].zone == ds[c].zone
    ensures ZoneFree(ds', vn.replicas, nd) <==> ZoneFree(ds, vn.replicas, nd)
    ensures forall c: nat :: CopiesFrom(ds', vn, nd, c) <==> CopiesFrom(ds, vn, nd, c)
    ensures forall vn' :: CopiedVnode(ds', vn, vn', nd) <==> CopiedVnode(ds, vn, vn', nd)
  {
  }

  lemma CopiedDeviceMore(s: State, nd: nat, v: nat, c: nat)
    requires nd < |s.devices| && v < |s.vnodes| && c < |s.devices|
    ensures var dev := CopiedDevice(s, nd, v, c);
            CopiedDevice(s, nd, v + 1, c) ==
            dev.(pending := dev.pending + if CopiesFrom(s.devices, s.vnodes[v], nd, c) then [Event(v, nd)] else [],
                 listed := dev.listed + if c == nd && ZoneFree(s.devices, s.vnodes[v].replicas, nd) then [v] else [])
  {
    var dev := s.devices[c];
    EventsToMore(GivenBy(s, nd, v, c), v, nd);
    assert dev.listed + (Given(s, nd, v) + [v]) == dev.listed + Given(s, nd, v) + [v];
    assert dev.pending + (EventsTo(GivenBy(s, nd, v, c), nd) + [Event(v, nd)])
        == dev.pending + EventsTo(GivenBy(s, nd, v, c), nd) + [Event(v, nd)];
    assert forall list: seq<nat> :: list + [] == list;
    assert forall list: seq<Event> :: list + [] == list;
  }

  lemma CopiedMore(s: State, nd: nat, x: State, v: nat)
    requires CopiedBelow(s, nd, x, v) && v < |s.vnodes| && CopyOne(x, v, nd).Ok?
    ensures CopiedBelow(s, nd, CopyOne(x, v, nd).value, v + 1)
  {
    var x' := CopyOne(x, v, nd).value;
    CopyOneOutcome(x, v, nd);
    SameZonesFree(s.devices, x.devices, s.vnodes[v], nd);
    forall c: nat | c < |s.devices|
      ensures x'.devices[c] == CopiedDevice(s, nd, v + 1, c)
    {
      CopyOneDevices(x, v, nd, c);
      CopiedDeviceMore(s, nd, v, c);
    }
  }

  ghost predicate CopiedSoundly(e: Edition, s: State, nd: nat, x: State, v: nat) {
    Inv(e, x) && ListedBelow(x, nd, v) && CopiedBelow(s, nd, x, v)
  }

  lemma CopiedKept(P: (State, nat) -> bool, e: Edition, s: State, nd: nat, x: State, v: nat)
    requires forall y, w :: P(y, w) <==> CopiedSoundly(e, s, nd, y, w)
    requires P(x, v)
    ensures CopyKeeps(P, x, v, nd)
  {
    if v < |x.vnodes| && nd < |x.devices| {
      CopyStep(e, x, v, nd);
      CopiedMore(s, nd, x, v);
    }
  }

  lemma CopiedNone(s: State, nd: nat)
    requires nd < |s.devices|
    ensures CopiedBelow(s, nd, s, 0)
  {
    forall c: nat | c < |s.devices|
      ensures s.devices[c] == CopiedDevice(s, nd, 0, c)
    {
      assert EventsTo([], nd) == [];
      assert s.devices[c].pending + [] == s.devices[c].pending;
      assert s.devices[c].listed + [] == s.devices[c].listed;
    }
  }

  lemma CopyFromOutcome(e: Edition, s: State, nd: nat)
    requires Inv(e, s) && nd < |s.devices| && s.devices[nd].listed == []
    ensures CopyFrom(s, 0, nd).Ok? && CopiedBelow(s, nd, CopyFrom(s, 0, nd).value, |s.vnodes|)
  {
    var P := (x: State, v: nat) => CopiedSoundly(e, s, nd, x, v);
    forall x: State, v: nat | P(x, v)
      ensures CopyKeeps(P, x, v, nd)
    {
      CopiedKept(P, e, s, nd, x, v);
    }
    CopiedNone(s, nd);
    assert P(s, 0);
    CopyInduction(P, s, 0, nd);
    assert P(CopyFrom(s, 0, nd).value, |s.vnodes|);
  }

  /** `s1` is `s` with one device more, of this zone and weight, with nothing in its lists. */
  ghost predicate Joined(s: State, s1: State, zone: int, weight: int) {
    && s1 == s.(devices := s1.devices) && |s1.devices| == |s.devices| + 1
    && (forall c: nat :: c < |s.devices| ==> s1.devices[c] == s.devices[c])
    && var dev := s1.devices[|s.devices|];
       dev.zone == zone && dev.weight == weight && dev.listed == [] && dev.pending == [] && dev.syncing == []
  }

  /**
   A join that copies, in any run: what becomes of every vnode; which vnodes the joining device lists, in their order;
   which syncs each device is asked for, in their order. Nothing else about the devices changes, and the joining one has
   the zone and weight it came with.
   */
  lemma CopyJoinOutcome(e: Edition, n: nat, rc: int, s: State, zone: int, weight: int, rnd: nat -> nat)
    requires Reached(e, n, rc, s) && |s.devices| < s.replicaCount
    ensures Join(e, s, zone, weight, rnd).Ok?
    ensures exists s1 :: Joined(s, s1, zone, weight)
              && CopiedBelow(s1, |s.devices|, Join(e, s, zone, weight, rnd).value, |s.vnodes|)
  {
    RunInv(e, n, rc, s);
    AddDeviceKeeps(e, s, zone, weight);
    CopyFromOutcome(e, AddDevice(s, zone, weight), |s.devices|);
    assert Joined(s, AddDevice(s, zone, weight), zone, weight);
  }

  // ---------------------------------------------------------------------------------------------
  // A join that moves
  // ---------------------------------------------------------------------------------------------

  /**
   The vnode left `donor` for `nd`: the donor listed it and had it ACTIVE, and the zone of `nd` was free or the donor's.
   The donor's replica is MOVE_SRC now, and the joining device's waits.
   */
  ghost predicate Left(s: State, x: State, v: nat, donor: nat, nd: nat) {
    && v < |s.vnodes| && v < |x.vnodes| && donor < |s.devices| && nd < |s.devices| && donor != nd
    && v in s.devices[donor].listed
    && (s.devices[donor].zone == s.devices[nd].zone || ZoneFree(s.devices, s.vnodes[v].replicas, nd))
    && var rs := s.vnodes[v].replicas;
       StatusOf(rs, donor) == Some(Active)
       && x.vnodes[v].replicas == rs[Find(rs, donor) := Replica(MoveSrc, donor)] + [Replica(WaitSync, nd)]
       && x.vnodes[v] == s.vnodes[v].(replicas := x.vnodes[v].replicas)
  }

  /** The events that device `c` got: one for each vnode that left it. */
  ghost predicate Sends(s: State, x: State, c: nat, nd: nat, list: seq<nat>) {
    && c < |s.devices| && c < |x.devices| && nd < |x.devices|
    && x.devices[c] == s.devices[c].(pending := s.devices[c].pending + EventsTo(list, nd))
    && NoDuplicates(list) && forall v: nat :: v in list <==> v in x.devices[nd].listed && Left(s, x, v, c, nd)
  }

  ghost predicate SendsSome(s: State, x: State, c: nat, nd: nat) {
    exists list :: Sends(s, x, c, nd, list)
  }

  /**
   Since `s`, the vnodes that the joining device lists have moved to it, each from one donor that got an event for it;
   nothing else has changed.
   */
  ghost predicate Moves(s: State, nd: nat, x: State) {
    && nd < |s.devices| && |x.devices| == |s.devices| && |x.vnodes| == |s.vnodes|
    && x.accepted == s.accepted && x.replicaCount == s.replicaCount
    && x.devices[nd] == s.devices[nd].(listed := x.devices[nd].listed)
    && NoDuplicates(x.devices[nd].listed) && (forall v :: v in x.devices[nd].listed ==> v < |s.vnodes|)
    && (forall v: nat :: v < |s.vnodes| ==>
          if v in x.devices[nd].listed then exists donor: nat :: donor < nd && Left(s, x, v, donor, nd)
          else x.vnodes[v] == s.vnodes[v])
    && (forall c: nat :: c < |s.devices| && c != nd ==> SendsSome(s, x, c, nd))
  }

  /** Two devices cannot both have given up the vnode. */
  lemma LeftOne(s: State, x: State, v: nat, c: nat, d: nat, nd: nat)
    requires Left(s, x, v, c, nd) && Left(s, x, v, d, nd)
    ensures c == d
  {
    var rs := s.vnodes[v].replicas;
    var i, j := Find(rs, c), Find(rs, d);
    assert rs[i].status.Active? && x.vnodes[v].replicas[i].status.MoveSrc?;
  }

  lemma MoveOneOutcome(e: Edition, x: State, donor: nat, v: nat, nd: nat)
    requires donor < |x.devices| && nd < |x.devices| && donor != nd
    requires v in x.devices[donor].listed && MoveOne(e, x, donor, v, nd).Ok?
    ensures v < |x.vnodes|
    ensures var (x', moved) := MoveOne(e, x, donor, v, nd).value;
            if moved then OneMore(x, x', donor, v, nd)
            else x' == x
  {
    var rs := x.vnodes[v].replicas;
    assert ZoneFree(x.devices, rs, nd) <==> IsDiffZones(rs, x.devices, x.devices[nd].zone);
  }

  /** `x'` is `x` after `v` left `donor`. */
  ghost predicate OneMore(x: State, x': State, donor: nat, v: nat, nd: nat) {
    && donor < |x.devices| && nd < |x.devices| && v < |x.vnodes| && |x'.vnodes| == |x.vnodes|
    && v !in x.devices[nd].listed && Left(x, x', v, donor, nd)
    && x' == x.(vnodes := x.vnodes[v := x'.vnodes[v]], devices := x'.devices) && |x'.devices| == |x.devices|
    && (forall c: nat :: c < |x.devices| ==>
          var dev := x.devices[c];
          x'.devices[c] == if c == donor then dev.(pending := dev.pending + [Event(v, nd)])
                           else if c == nd then dev.(listed := dev.listed + [v])
                           else dev)
  }

  lemma LeftStays(s: State, nd: nat, x: State, x': State, donor: nat, v: nat, w: nat, c: nat)
    requires Moves(s, nd, x) && OneMore(x, x', donor, v, nd)
    ensures w != v ==> (Left(s, x', w, c, nd) <==> Left(s, x, w, c, nd))
  {
  }

  lemma LeftNow(s: State, nd: nat, x: State, x': State, donor: nat, v: nat, c: nat)
    requires Moves(s, nd, x) && OneMore(x, x', donor, v, nd)
    ensures Left(s, x', v, c, nd) <==> c == donor
  {
    assert SendsSome(s, x, donor, nd);
    assert s.devices[donor].zone == x.devices[donor].zone && s.devices[donor].listed == x.devices[donor].listed;
    assert ZoneFree(x.devices, s.vnodes[v].replicas, nd) ==> ZoneFree(s.devices, s.vnodes[v].replicas, nd) by {
      forall d: nat | d < |s.devices|
        ensures x.devices[d].zone == s.devices[d].zone
      {
        assert d != nd ==> SendsSome(s, x, d, nd);
      }
    }
    if Left(s, x', v, c, nd) {
      LeftOne(s, x', v, c, donor, nd);
    }
  }

  lemma SendsMore(s: State, nd: nat, x: State, x': State, donor: nat, v: nat, c: nat)
    requires Moves(s, nd, x) && OneMore(x, x', donor, v, nd) && c < |s.devices| && c != nd
    ensures SendsSome(s, x', c, nd)
  {
    assert SendsSome(s, x, c, nd);
    var list :| Sends(s, x, c, nd, list);
    forall w: nat
      ensures w != v ==> (Left(s, x', w, c, nd) <==> Left(s, x, w, c, nd))
    {
      LeftStays(s, nd, x, x', donor, v, w, c);
    }
    LeftNow(s, nd, x, x', donor, v, c);
    assert v !in list;
    if c == donor {
      EventsToMore(list, v, nd);
      assert s.devices[c].pending + (EventsTo(list, nd) + [Event(v, nd)])
          == s.devices[c].pending + EventsTo(list, nd) + [Event(v, nd)];
      assert Sends(s, x', c, nd, list + [v]);
    } else {
      assert Sends(s, x', c, nd, list);
    }
  }

  lemma MovesMore(s: State, nd: nat, x: State, x': State, donor: nat, v: nat)
    requires Moves(s, nd, x) && OneMore(x, x', donor, v, nd) && donor < nd
    ensures Moves(s, nd, x')
  {
    forall c: nat | c < |s.devices| && c != nd
      ensures SendsSome(s, x', c, nd)
    {
      SendsMore(s, nd, x, x', donor, v, c);
    }
    LeftNow(s, nd, x, x', donor, v, donor);
    forall w: nat | w < |s.vnodes|
      ensures if w in x'.devices[nd].listed then exists c: nat :: c < nd && Left(s, x', w, c, nd)
              else x'.vnodes[w] == s.vnodes[w]
    {
      if w in x.devices[nd].listed {
        var c: nat :| c < nd && Left(s, x, w, c, nd);
        LeftStays(s, nd, x, x', donor, v, w, c);
      }
    }
  }

  lemma MovesKept(P: State -> bool, e: Edition, s: State, nd: nat, x: State, donor: nat, v: nat)
    requires forall y :: P(y) <==> Moves(s, nd, y)
    requires P(x) && donor < |x.devices| && v in x.devices[donor].listed
    ensures MoveKeeps(P, false, e, x, donor, v, nd)
  {
    if donor < nd < |x.devices| && MoveOne(e, x, donor, v, nd).Ok? {
      MoveOneOutcome(e, x, donor, v, nd);
      var (x', moved) := MoveOne(e, x, donor, v, nd).value;
      if moved {
        MovesMore(s, nd, x, x', donor, v);
      }
    }
  }

  ghost predicate MovesOrFault(s: State, nd: nat, r: Outcome<State>) {
    r.Ok? ==> Moves(s, nd, r.value)
  }

  lemma MovesNone(s: State, nd: nat)
    requires nd < |s.devices| && s.devices[nd].listed == []
    ensures Moves(s, nd, s)
  {
    forall c: nat | c < |s.devices| && c != nd
      ensures SendsSome(s, s, c, nd)
    {
      assert s.devices[c].pending + EventsTo([], nd) == s.devices[c].pending;
      assert Sends(s, s, c, nd, []);
    }
  }

  lemma MoveDonorsOutcome(e: Edition, s: State, nd: nat, avg: int, rnd: nat -> nat)
    requires nd < |s.devices| && s.devices[nd].listed == []
    ensures MovesOrFault(s, nd, MoveDonors(e, s, 0, nd, avg, rnd, 0))
  {
    var P := x => Moves(s, nd, x);
    forall x: State, donor: nat, v: nat | P(x) && donor < |x.devices| && v in x.devices[donor].listed
      ensures MoveKeeps(P, false, e, x, donor, v, nd)
    {
      MovesKept(P, e, s, nd, x, donor, v);
    }
    MovesNone(s, nd);
    MoveInduction(P, false, e, s, 0, nd, avg, rnd, 0);
  }

  lemma MoveJoinMoves(e: Edition, s: State, zone: int, weight: int, rnd: nat -> nat)
    ensures MovesOrFault(AddDevice(s, zone, weight), |s.devices|, MoveJoin(e, s, zone, weight, rnd))
  {
    var s1 := AddDevice(s, zone, weight);
    var Q := r => MovesOrFault(s1, |s.devices|, r);
    forall avg: int
      ensures Q(MoveDonors(e, s1, 0, |s.devices|, avg, rnd, 0))
    {
      MoveDonorsOutcome(e, s1, |s.devices|, avg, rnd);
    }
    AnyAverage(Q, e, s, zone, weight, rnd);
  }

  /**
   A join that moves, in any state: the joining device lists, once each, the vnodes that moved to it, and has the zone
   and weight it came with. Each of these vnodes left one donor, which got one event for it, and no other vnode changed.
   */
  lemma MoveJoinOutcome(e: Edition, s: State, zone: int, weight: int, rnd: nat -> nat)
    requires |s.devices| >= s.replicaCount && Join(e, s, zone, weight, rnd).Ok?
    ensures exists s1 :: Joined(s, s1, zone, weight)
              && Moves(s1, |s.devices|, Join(e, s, zone, weight, rnd).value)
  {
    MoveJoinMoves(e, s, zone, weight, rnd);
    assert Joined(s, AddDevice(s, zone, weight), zone, weight);
  }
}
