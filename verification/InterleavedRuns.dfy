/**
 Runs in which the sections of heartbeats mix with each other and with every other message: what holds in all of them.
 */
module InterleavedRuns {
  import opened ProxyTypes
  import opened NodeInfo
  import opened NodeObjects
  import opened Protocol
  import opened WriteAddress
  import opened Invariant
  import opened Steps
  import opened HeartbeatSteps
  import opened SyncDownSteps
  import opened JoinSteps
  import opened JoinInduction
  import opened JoinLoops
  import opened Counting
  import opened Runs
  import opened Guarantees
  import opened Interleaving

  // ---------------------------------------------------------------------------------------------
  // Steps on the lists and steps on the whole
  // ---------------------------------------------------------------------------------------------

  /** `x` is `s` with what is in hands put into its lists, in whatever order. */
  ghost predicate Together(x: State, s: State, hs: seq<Handler>) {
    && x.vnodes == s.vnodes && x.accepted == s.accepted && x.replicaCount == s.replicaCount && SameLists(x, s)
    && forall d: nat :: d < |x.devices| ==> Owed(x.devices[d]) == multiset(InHands(hs, d)) + Owed(s.devices[d])
  }

  lemma WholeTogether(s: State, hs: seq<Handler>)
    ensures Together(Whole(s, hs), s, hs)
  {
    forall d: nat | d < |s.devices|
      ensures Owed(Whole(s, hs).devices[d]) == multiset(InHands(hs, d)) + Owed(s.devices[d])
    {
      WholeOwed(s, hs, d);
    }
  }

  lemma TogetherInv(e: Edition, x: State, s: State, hs: seq<Handler>)
    requires Inv(e, x) && Together(x, s, hs)
    ensures Inv(e, Whole(s, hs))
  {
    Rewhole(e, x, s, hs);
  }

  lemma BothGain(all: multiset<Event>, held: multiset<Event>, owed: multiset<Event>, more: multiset<Event>)
    requires all == held + owed
    ensures all + more == held + (owed + more)
  {
  }

  lemma PendingListsSame(x: State, s: State, d: nat, ev: Event)
    requires SameLists(x, s) && d < |s.devices|
    ensures SameLists(PushPending(x, d, ev), PushPending(s, d, ev))
  {
  }

  lemma PendingTogether(x: State, s: State, hs: seq<Handler>, d: nat, ev: Event)
    requires Together(x, s, hs) && d < |s.devices|
    ensures Together(PushPending(x, d, ev), PushPending(s, d, ev), hs)
  {
    var x', s' := PushPending(x, d, ev), PushPending(s, d, ev);
    PushedPending(x, d, ev);
    PushedPending(s, d, ev);
    forall c: nat | c < |x'.devices|
      ensures Owed(x'.devices[c]) == multiset(InHands(hs, c)) + Owed(s'.devices[c])
    {
      BothGain(Owed(x.devices[c]), multiset(InHands(hs, c)), Owed(s.devices[c]),
               if c == d then multiset{ev} else multiset{});
    }
    PendingListsSame(x, s, d, ev);
  }

  lemma ListedTogether(x: State, s: State, hs: seq<Handler>, d: nat, v: nat)
    requires Together(x, s, hs) && d < |s.devices|
    ensures Together(PushListed(x, d, v), PushListed(s, d, v), hs)
  {
    PushedListed(x, d, v);
    PushedListed(s, d, v);
    assert SameLists(PushListed(x, d, v), PushListed(s, d, v));
  }

  lemma VnodesTogether(x: State, s: State, hs: seq<Handler>, vs: seq<Vnode>)
    requires Together(x, s, hs)
    ensures Together(x.(vnodes := vs), s.(vnodes := vs), hs)
  {
  }

  lemma ZonesTogether(x: State, s: State, hs: seq<Handler>, rs: seq<Replica>, zone: int)
    requires Together(x, s, hs)
    ensures IsDiffZones(rs, x.devices, zone) <==> IsDiffZones(rs, s.devices, zone)
  {
  }

  /** Both fault, or both end together. */
  ghost predicate BothEnd(r: Outcome<State>, r': Outcome<State>, hs: seq<Handler>) {
    (r.Ok? <==> r'.Ok?) && (r.Ok? ==> Together(r.value, r'.value, hs))
  }

  lemma PlantTogether(x: State, s: State, hs: seq<Handler>, vs: seq<Vnode>, src: nat, ev: Event, nd: nat, v: nat)
    requires Together(x, s, hs) && src < |s.devices| && nd < |s.devices|
    ensures Together(PushListed(PushPending(x.(vnodes := vs), src, ev), nd, v),
                     PushListed(PushPending(s.(vnodes := vs), src, ev), nd, v), hs)
  {
    VnodesTogether(x, s, hs, vs);
    PendingTogether(x.(vnodes := vs), s.(vnodes := vs), hs, src, ev);
    ListedTogether(PushPending(x.(vnodes := vs), src, ev), PushPending(s.(vnodes := vs), src, ev), hs, nd, v);
  }

  lemma CopyTogether(x: State, s: State, hs: seq<Handler>, v: nat, nd: nat)
    requires Together(x, s, hs) && v < |s.vnodes| && nd < |s.devices|
    ensures BothEnd(CopyOne(x, v, nd), CopyOne(s, v, nd), hs)
  {
    var vn := s.vnodes[v];
    ZonesTogether(x, s, hs, vn.replicas, s.devices[nd].zone);
    if IsDiffZones(vn.replicas, s.devices, s.devices[nd].zone) {
      var (vn1, pos) := ReadReplica(vn);
      if vn.replicas == [] || pos.None? || vn.replicas[pos.value].dev < |s.devices| {
        var vs := CopyOne(s, v, nd).value.vnodes;
        if vn.replicas != [] && pos.Some? {
          PlantTogether(x, s, hs, vs, vn.replicas[pos.value].dev, Event(v, nd), nd, v);
        } else {
          VnodesTogether(x, s, hs, vs);
          ListedTogether(x.(vnodes := vs), s.(vnodes := vs), hs, nd, v);
        }
      }
    }
  }

  lemma MovableTogether(x: State, s: State, hs: seq<Handler>, donor: nat, v: nat, nd: nat)
    requires Together(x, s, hs) && donor < |s.devices| && nd < |s.devices| && v < |s.vnodes|
    ensures Movable(x, donor, v, nd) <==> Movable(s, donor, v, nd)
  {
    ZonesTogether(x, s, hs, s.vnodes[v].replicas, s.devices[nd].zone);
  }

  lemma MoveTogether(e: Edition, x: State, s: State, hs: seq<Handler>, donor: nat, v: nat, nd: nat)
    requires Together(x, s, hs) && donor < |s.devices| && nd < |s.devices|
    ensures var r, r' := MoveOne(e, x, donor, v, nd), MoveOne(e, s, donor, v, nd);
            (r.Ok? <==> r'.Ok?) && (r.Ok? ==> Together(r.value.0, r'.value.0, hs))
  {
    if v < |s.vnodes| {
      MoveOneIs(e, s, donor, v, nd);
      MoveOneIs(e, x, donor, v, nd);
      MovableTogether(x, s, hs, donor, v, nd);
      if Movable(s, donor, v, nd) {
        var vs := WithReplicas(s, v, Planting(s.vnodes[v].replicas, donor, nd, MoveSrc)).vnodes;
        PlantTogether(x, s, hs, vs, donor, Event(v, nd), nd, v);
      }
    }
  }

  lemma AddTogether(x: State, s: State, hs: seq<Handler>, zone: int, weight: int)
    requires Together(x, s, hs) && InHands(hs, |s.devices|) == []
    ensures Together(AddDevice(x, zone, weight), AddDevice(s, zone, weight), hs)
  {
    var x', s' := AddDevice(x, zone, weight), AddDevice(s, zone, weight);
    forall d: nat | d < |x'.devices|
      ensures Owed(x'.devices[d]) == multiset(InHands(hs, d)) + Owed(s'.devices[d])
    {
      if d < |s.devices| {
        assert x'.devices[d] == x.devices[d] && s'.devices[d] == s.devices[d];
      } else {
        assert x'.devices[d] == s'.devices[d];
      }
    }
    assert SameLists(x', s');
  }

  // ---------------------------------------------------------------------------------------------
  // Every act keeps the invariant
  // ---------------------------------------------------------------------------------------------

  lemma StaysKnown(s: State, s': State, hs: seq<Handler>)
    requires |s.devices| <= |s'.devices| && |s'.vnodes| == |s.vnodes| && forall h :: h in hs ==> Known(s, h)
    ensures forall h :: h in hs ==> Known(s', h)
  {
  }

  lemma BeginsKeeps(e: Edition, y: System, d: nat, reports: seq<Report>)
    requires SysInv(e, y) && d < |y.s.devices|
    ensures SysInv(e, y.(handlers := y.handlers + [Begun(y.s, d, reports)]))
  {
    var hs, h := y.handlers, Begun(y.s, d, reports);
    var x := Whole(y.s, hs);
    forall c: nat | c < |y.s.devices|
      ensures Owed(x.devices[c]) == multiset(InHands(hs + [h], c)) + Owed(y.s.devices[c])
    {
      HandsAppend(hs, h, c);
      WholeOwed(y.s, hs, c);
    }
    Rewhole(e, x, y.s, hs + [h]);
  }

  /** The event of a finished sync goes from syncing_list into hands. */
  lemma TakenOwes(s: State, d: nat, id: int, c: nat)
    requires d < |s.devices| && TakeSync(s, d, id).Ok? && c < |s.devices|
    ensures var (s', h) := TakeSync(s, d, id).value;
            |s'.devices| == |s.devices| && Owed(s.devices[c]) == multiset(Held(h, c)) + Owed(s'.devices[c])
  {
    var i := EventIndex(s.devices[d].syncing, id);
    SyncDownSteps.Popped(s.devices[d], i);
    HeldEnding(TakeSync(s, d, id).value.1, c, Owed(TakeSync(s, d, id).value.0.devices[c]));
  }

  lemma TakenSame(s: State, d: nat, id: int)
    requires d < |s.devices| && TakeSync(s, d, id).Ok?
    ensures var (s', h) := TakeSync(s, d, id).value;
            && SameLists(s, s') && s'.vnodes == s.vnodes && s'.accepted == s.accepted
            && s'.replicaCount == s.replicaCount && h.dev == d && h.at.Ending? && h.todo == []
  {
  }

  lemma OwedInHands(held: multiset<Event>, hands: multiset<Event>, owed: multiset<Event>, owed': multiset<Event>)
    requires owed == held + owed'
    ensures hands + owed == hands + held + owed'
  {
  }

  lemma TakenOwed(s: State, hs: seq<Handler>, d: nat, id: int, c: nat)
    requires d < |s.devices| && TakeSync(s, d, id).Ok? && c < |s.devices|
    ensures var (s', h) := TakeSync(s, d, id).value;
            && |s'.devices| == |s.devices|
            && Owed(Whole(s, hs).devices[c]) == multiset(InHands(hs + [h], c)) + Owed(s'.devices[c])
  {
    var (s', h) := TakeSync(s, d, id).value;
    WholeOwed(s, hs, c);
    HandsAppend(hs, h, c);
    TakenOwes(s, d, id, c);
    OwedInHands(multiset(Held(h, c)), multiset(InHands(hs, c)), Owed(s.devices[c]), Owed(s'.devices[c]));
  }

  lemma TakenTogether(s: State, hs: seq<Handler>, d: nat, id: int)
    requires d < |s.devices| && TakeSync(s, d, id).Ok?
    ensures var (s', h) := TakeSync(s, d, id).value; Together(Whole(s, hs), s', hs + [h])
  {
    var (s', h) := TakeSync(s, d, id).value;
    TakenSame(s, d, id);
    forall c: nat | c < |s.devices|
      ensures Owed(Whole(s, hs).devices[c]) == multiset(InHands(hs + [h], c)) + Owed(s'.devices[c])
    {
      TakenOwed(s, hs, d, id, c);
    }
    assert SameLists(Whole(s, hs), s');
  }

  lemma TakenKnown(s: State, s': State, hs: seq<Handler>, h: Handler)
    requires |s'.devices| == |s.devices| && |s'.vnodes| == |s.vnodes| && forall g :: g in hs ==> Known(s, g)
    requires h.dev < |s.devices| && h.at.Ending?
    ensures forall g :: g in hs + [h] ==> Known(s', g)
  {
  }

  lemma SyncsKeeps(e: Edition, y: System, d: nat, id: int)
    requires SysInv(e, y) && d < |y.s.devices|
    ensures var r := TakeSync(y.s, d, id); r.Ok? ==> SysInv(e, System(r.value.0, y.handlers + [r.value.1]))
  {
    if TakeSync(y.s, d, id).Ok? {
      var (s', h) := TakeSync(y.s, d, id).value;
      TakenSame(y.s, d, id);
      TakenTogether(y.s, y.handlers, d, id);
      TogetherInv(e, Whole(y.s, y.handlers), s', y.handlers + [h]);
      TakenKnown(y.s, s', y.handlers, h);
      MovedCounted(y.s, s');
    }
  }

  lemma AddKeeps(e: Edition, y: System, zone: int, weight: int)
    requires SysInv(e, y)
    ensures Inv(e, Whole(AddDevice(y.s, zone, weight), y.handlers))
  {
    var x := Whole(y.s, y.handlers);
    HandsKnown(y.s, y.handlers, |y.s.devices|);
    WholeTogether(y.s, y.handlers);
    AddTogether(x, y.s, y.handlers, zone, weight);
    AddDeviceKeeps(e, x, zone, weight);
    TogetherInv(e, AddDevice(x, zone, weight), AddDevice(y.s, zone, weight), y.handlers);
  }

  /** Device `d` has replicas of the same vnodes. */
  ghost predicate SameOn(s: State, s': State, d: nat) {
    && |s'.vnodes| == |s.vnodes|
    && forall v: nat :: v < |s.vnodes| ==>
         (StatusOf(s'.vnodes[v].replicas, d).Some? <==> StatusOf(s.vnodes[v].replicas, d).Some?)
  }

  /** So do all devices below `n`. */
  ghost predicate SameBelow(s: State, s': State, n: nat) {
    forall d: nat :: d < n ==> SameOn(s, s', d)
  }

  lemma SameThrough(s: State, s': State, s'': State, n: nat)
    requires SameBelow(s, s', n) && SameBelow(s', s'', n)
    ensures SameBelow(s, s'', n)
  {
    forall d: nat | d < n
      ensures SameOn(s, s'', d)
    {
      assert SameOn(s, s', d) && SameOn(s', s'', d);
    }
  }

  lemma SameVnodes(s: State, s': State, s'': State, n: nat)
    requires SameBelow(s, s', n) && s''.vnodes == s'.vnodes
    ensures SameBelow(s, s'', n)
  {
    forall d: nat | d < n
      ensures SameOn(s, s'', d)
    {
      assert SameOn(s, s', d);
    }
  }

  lemma Unchanged(s: State, n: nat)
    ensures SameBelow(s, s, n)
  {
  }

  lemma ReplacedSame(s: State, s': State, v: nat, rs': seq<Replica>, n: nat)
    requires Replaces(s, s', v, rs')
    requires forall d: nat :: d < n ==> (StatusOf(rs', d).Some? <==> StatusOf(s.vnodes[v].replicas, d).Some?)
    ensures SameBelow(s, s', n)
  {
    forall d: nat | d < n
      ensures SameOn(s, s', d)
    {
      assert StatusOf(rs', d).Some? <==> StatusOf(s.vnodes[v].replicas, d).Some?;
    }
  }

  lemma PlantingSame(rs: seq<Replica>, src: nat, nd: nat, kind: Status)
    requires Distinct(rs) && StatusOf(rs, src) == Some(Active) && StatusOf(rs, nd) == None
    ensures forall d: nat :: d < nd ==> (StatusOf(Planting(rs, src, nd, kind), d).Some? <==> StatusOf(rs, d).Some?)
  {
    PlantingIs(rs, src, nd, kind);
  }

  lemma CopiedSame(s: State, v: nat, nd: nat)
    requires v < |s.vnodes| && nd < |s.devices|
    requires Placed(s.devices, s.vnodes[v].replicas) && StatusOf(s.vnodes[v].replicas, nd) == None
    ensures CopyOne(s, v, nd).Ok? && SameBelow(s, CopyOne(s, v, nd).value, nd)
  {
    var rs := s.vnodes[v].replicas;
    CopyOneIs(s, v, nd);
    var s', pos := CopyOne(s, v, nd).value, ReadReplica(s.vnodes[v]).1;
    if !IsDiffZones(rs, s.devices, s.devices[nd].zone) {
      Unchanged(s, nd);
    } else if pos.None? {
      var st := if rs == [] then Active else Online;
      AppendIs(rs, Replica(st, nd));
      ReplacedSame(s, s', v, rs + [Replica(st, nd)], nd);
    } else {
      FindAt(rs, pos.value);
      PlantingSame(rs, rs[pos.value].dev, nd, CopySrc);
      ReplacedSame(s, s', v, Planting(rs, rs[pos.value].dev, nd, CopySrc), nd);
    }
  }

  lemma CopySame(e: Edition, s: State, v: nat, nd: nat)
    requires Inv(e, s) && v < |s.vnodes| && nd < |s.devices| && v !in s.devices[nd].listed
    ensures CopyOne(s, v, nd).Ok? && SameBelow(s, CopyOne(s, v, nd).value, nd)
  {
    UnlistedIsAbsent(e, s, v, nd);
    CopiedSame(s, v, nd);
  }

  lemma MoveSame(e: Edition, s: State, donor: nat, v: nat, nd: nat)
    requires Inv(e, s) && donor < nd < |s.devices| && v in s.devices[donor].listed
    ensures var r := MoveOne(e, s, donor, v, nd); r.Ok? ==> SameBelow(s, r.value.0, nd)
  {
    MoveOneIs(e, s, donor, v, nd);
    if v < |s.vnodes| && Movable(s, donor, v, nd) {
      var rs := s.vnodes[v].replicas;
      UnlistedIsAbsent(e, s, v, nd);
      PlantingSame(rs, donor, nd, MoveSrc);
      MovedIs(s, donor, v, nd);
      ReplacedSame(s, MovedState(s, donor, v, nd), v, Planting(rs, donor, nd, MoveSrc), nd);
    }
  }

  /** The invariant with what is in hands counted in, since the join of device `nd` began with `s0`. */
  ghost predicate Sound(e: Edition, s0: State, s: State, hs: seq<Handler>, nd: nat) {
    SameSizes(s0, s) && SameBelow(s0, s, nd) && Inv(e, Whole(s, hs))
  }

  ghost predicate CopiedBelow(e: Edition, s0: State, s: State, hs: seq<Handler>, v: nat, nd: nat) {
    Sound(e, s0, s, hs, nd) && ListedBelow(s, nd, v) && OneMoreBelow(s0, s, v)
  }

  /** Two states that list the same vnodes; `x` may be any whole of `s`. */
  lemma CopyStepLifts(e: Edition, s0: State, x: State, s: State, hs: seq<Handler>, v: nat, nd: nat)
    requires Inv(e, x) && Together(x, s, hs) && SameSizes(s0, s) && SameBelow(s0, s, nd) && ListedBelow(s, nd, v)
             && OneMoreBelow(s0, s, v)
    requires v < |s.vnodes| && nd < |s.devices|
    ensures CopyOne(s, v, nd).Ok? && CopiedBelow(e, s0, CopyOne(s, v, nd).value, hs, v + 1, nd)
  {
    assert ListedBelow(x, nd, v) && OneMoreBelow(s0, x, v);
    SameVnodes(s0, s, x, nd);
    CopyStep(e, x, v, nd);
    CopyStepCounts(e, s0, x, v, nd);
    CopySame(e, x, v, nd);
    SameThrough(s0, x, CopyOne(x, v, nd).value, nd);
    CopyTogether(x, s, hs, v, nd);
    CopiedLifts(e, s0, CopyOne(x, v, nd).value, CopyOne(s, v, nd).value, hs, v + 1, nd);
  }

  lemma CopiedLifts(e: Edition, s0: State, x: State, s: State, hs: seq<Handler>, v: nat, nd: nat)
    requires Inv(e, x) && Together(x, s, hs) && SameSizes(s0, x) && SameBelow(s0, x, nd) && ListedBelow(x, nd, v)
             && OneMoreBelow(s0, x, v)
    ensures CopiedBelow(e, s0, s, hs, v, nd)
  {
    SameVnodes(s0, x, s, nd);
    TogetherInv(e, x, s, hs);
  }

  /** One copied vnode of a join, while events are in hands. */
  lemma CopyStepKeeps(e: Edition, s0: State, s: State, hs: seq<Handler>, v: nat, nd: nat)
    requires CopiedBelow(e, s0, s, hs, v, nd) && v < |s.vnodes| && nd < |s.devices|
    ensures CopyOne(s, v, nd).Ok? && CopiedBelow(e, s0, CopyOne(s, v, nd).value, hs, v + 1, nd)
  {
    WholeTogether(s, hs);
    CopyStepLifts(e, s0, Whole(s, hs), s, hs, v, nd);
  }

  lemma CopiedKept(P: (State, nat) -> bool, e: Edition, s0: State, hs: seq<Handler>, s: State, v: nat, nd: nat)
    requires forall z, w :: P(z, w) <==> CopiedBelow(e, s0, z, hs, w, nd)
    requires P(s, v)
    ensures CopyKeeps(P, s, v, nd)
  {
    if v < |s.vnodes| && nd < |s.devices| {
      CopyStepKeeps(e, s0, s, hs, v, nd);
    }
  }

  lemma CopiesKeep(e: Edition, s: State, hs: seq<Handler>, nd: nat)
    requires Sound(e, s, s, hs, nd) && nd < |s.devices| && s.devices[nd].listed == []
    ensures CopyFrom(s, 0, nd).Ok? && CopiedBelow(e, s, CopyFrom(s, 0, nd).value, hs, |s.vnodes|, nd)
  {
    var P := (z: State, v: nat) => CopiedBelow(e, s, z, hs, v, nd);
    forall z: State, v: nat | P(z, v)
      ensures CopyKeeps(P, z, v, nd)
    {
      CopiedKept(P, e, s, hs, z, v, nd);
    }
    assert P(s, 0);
    CopyInduction(P, s, 0, nd);
  }

  /** One moved vnode of a join, while events are in hands. */
  lemma MoveStepKeeps(e: Edition, s0: State, s: State, hs: seq<Handler>, donor: nat, v: nat, nd: nat)
    requires Sound(e, s0, s, hs, nd) && donor < nd < |s.devices| && v in s.devices[donor].listed
    ensures var r := MoveOne(e, s, donor, v, nd); r.Ok? ==> Sound(e, s0, r.value.0, hs, nd)
  {
    var x := Whole(s, hs);
    MoveOneKeeps(e, x, donor, v, nd);
    WholeTogether(s, hs);
    MoveTogether(e, x, s, hs, donor, v, nd);
    MoveSame(e, x, donor, v, nd);
    var r, r' := MoveOne(e, x, donor, v, nd), MoveOne(e, s, donor, v, nd);
    if r'.Ok? {
      TogetherInv(e, r.value.0, r'.value.0, hs);
      SameVnodes(s0, s, x, nd);
      SameThrough(s0, x, r.value.0, nd);
      SameVnodes(s0, r.value.0, r'.value.0, nd);
    }
  }

  lemma MovesKeep(e: Edition, s: State, hs: seq<Handler>, nd: nat, avg: int, rnd: nat -> nat)
    requires Sound(e, s, s, hs, nd) && nd < |s.devices|
    ensures var r := MoveDonors(e, s, 0, nd, avg, rnd, 0); r.Ok? ==> Sound(e, s, r.value, hs, nd)
  {
    var P := z => Sound(e, s, z, hs, nd);
    forall z: State, donor: nat, v: nat | P(z) && donor < |z.devices| && v in z.devices[donor].listed
      ensures MoveKeeps(P, false, e, z, donor, v, nd)
    {
      if donor < nd < |z.devices| {
        MoveStepKeeps(e, s, z, hs, donor, v, nd);
      }
    }
    MoveInduction(P, false, e, s, 0, nd, avg, rnd, 0);
  }

  ghost predicate KeepsSystem(e: Edition, y: System, r: Outcome<State>) {
    r.Ok? ==> SysInv(e, y.(s := r.value)) && SameBelow(y.s, r.value, |y.s.devices|)
  }

  /** A join that is sound and well counted at its end. */
  lemma JoinEnds(e: Edition, y: System, zone: int, weight: int, s': State)
    requires SysInv(e, y) && Sound(e, AddDevice(y.s, zone, weight), s', y.handlers, |y.s.devices|)
             && Counted(s')
    ensures KeepsSystem(e, y, Ok(s'))
  {
    StaysKnown(y.s, s', y.handlers);
    forall d: nat | d < |y.s.devices|
      ensures SameOn(y.s, s', d)
    {
      assert SameOn(AddDevice(y.s, zone, weight), s', d);
    }
  }

  lemma CopyJoinsKeeps(e: Edition, y: System, zone: int, weight: int)
    requires SysInv(e, y) && |y.s.devices| < y.s.replicaCount
    ensures KeepsSystem(e, y, CopyJoin(y.s, zone, weight))
  {
    var s0 := AddDevice(y.s, zone, weight);
    AddKeeps(e, y, zone, weight);
    Unchanged(s0, |y.s.devices|);
    CopiesKeep(e, s0, y.handlers, |y.s.devices|);
    var s' := CopyFrom(s0, 0, |y.s.devices|).value;
    CopiedCounted(y.s, s');
    JoinEnds(e, y, zone, weight, s');
  }

  /** One more device, and at most one more replica of each vnode. */
  lemma CopiedCounted(s: State, s': State)
    requires Counted(s) && |s.devices| < s.replicaCount && |s'.devices| == |s.devices| + 1
             && s'.replicaCount == s.replicaCount
    requires |s'.vnodes| == |s.vnodes|
    requires forall v: nat :: v < |s.vnodes| ==> CountLive(s'.vnodes[v].replicas) <= CountLive(s.vnodes[v].replicas) + 1
    ensures Counted(s')
  {
  }

  lemma MovedCounted(s: State, s': State)
    requires Counted(s) && SameCounts(s, s') && |s'.devices| >= |s.devices| && s'.replicaCount == s.replicaCount
    ensures Counted(s')
  {
  }

  /** The moves of a join, with the average a number like any other. */
  lemma MovesKeepSystem(e: Edition, y: System, zone: int, weight: int, rnd: nat -> nat, avg: int)
    requires SysInv(e, y)
    ensures KeepsSystem(e, y, MoveDonors(e, AddDevice(y.s, zone, weight), 0, |y.s.devices|, avg, rnd, 0))
  {
    var s0 := AddDevice(y.s, zone, weight);
    AddKeeps(e, y, zone, weight);
    Unchanged(s0, |y.s.devices|);
    MovesKeep(e, s0, y.handlers, |y.s.devices|, avg, rnd);
    MoveDonorsCounts(e, s0, |y.s.devices|, avg, rnd);
    var r := MoveDonors(e, s0, 0, |y.s.devices|, avg, rnd, 0);
    if r.Ok? {
      MovedCounted(y.s, r.value);
      JoinEnds(e, y, zone, weight, r.value);
    }
  }

  lemma MoveJoinsKeeps(e: Edition, y: System, zone: int, weight: int, rnd: nat -> nat)
    requires SysInv(e, y)
    ensures KeepsSystem(e, y, MoveJoin(e, y.s, zone, weight, rnd))
  {
    var Q := r => KeepsSystem(e, y, r);
    forall avg: int
      ensures Q(MoveDonors(e, AddDevice(y.s, zone, weight), 0, |y.s.devices|, avg, rnd, 0))
    {
      MovesKeepSystem(e, y, zone, weight, rnd, avg);
    }
    AnyAverage(Q, e, y.s, zone, weight, rnd);
  }

  lemma JoinsKeeps(e: Edition, y: System, zone: int, weight: int, rnd: nat -> nat)
    requires SysInv(e, y)
    ensures KeepsSystem(e, y, Join(e, y.s, zone, weight, rnd))
  {
    if |y.s.devices| < y.s.replicaCount {
      CopyJoinsKeeps(e, y, zone, weight);
    } else {
      MoveJoinsKeeps(e, y, zone, weight, rnd);
    }
  }

  /** Only cursors moved. */
  lemma CursorsKeep(e: Edition, y: System, s': State)
    requires SysInv(e, y) && s'.devices == y.s.devices && s'.accepted == y.s.accepted
             && s'.replicaCount == y.s.replicaCount
    requires |s'.vnodes| == |y.s.vnodes|
    requires forall v: nat :: v < |s'.vnodes| ==>
               s'.vnodes[v].replicas == y.s.vnodes[v].replicas && s'.vnodes[v].version == y.s.vnodes[v].version
    ensures KeepsSystem(e, y, Ok(s'))
  {
    assert Whole(s', y.handlers).devices == Whole(y.s, y.handlers).devices;
    CursorKeeps(e, Whole(y.s, y.handlers), Whole(s', y.handlers));
  }

  lemma AsksKeeps(e: Edition, y: System, v: nat, write: bool)
    requires SysInv(e, y)
    ensures KeepsSystem(e, y, Handle(e, y.s, if write then WriteMsg(v) else ReadMsg(v)))
  {
    var r := Handle(e, y.s, if write then WriteMsg(v) else ReadMsg(v));
    if r.Ok? {
      if write {
        WriteHandled(e, y.s, v);
      }
      CursorsKeep(e, y, r.value);
    }
  }

  lemma NextKeeps(e: Edition, y: System, a: Act)
    requires SysInv(e, y)
    ensures Next(e, y, a).Ok? ==> SysInv(e, Next(e, y, a).value)
  {
    match a
    case Begins(d, reports) =>
      if d < |y.s.devices| {
        BeginsKeeps(e, y, d, reports);
      }
    case Goes(i) =>
      if i < |y.handlers| && y.handlers[i].dev < |y.s.devices| {
        SectionKeeps(e, y, i);
      }
    case Syncs(d, id) =>
      if d < |y.s.devices| {
        SyncsKeeps(e, y, d, id);
      }
    case Joins(zone, weight, rnd) => JoinsKeeps(e, y, zone, weight, rnd);
    case Asks(v, write) => AsksKeeps(e, y, v, write);
  }

  lemma {:induction false} CourseKeeps(e: Edition, y: System, acts: seq<Act>)
    requires SysInv(e, y)
    ensures Course(e, y, acts).Ok? ==> SysInv(e, Course(e, y, acts).value)
    decreases |acts|
  {
    if acts != [] {
      NextKeeps(e, y, acts[0]);
      if Next(e, y, acts[0]).Ok? {
        CourseKeeps(e, Next(e, y, acts[0]).value, acts[1..]);
      }
    }
  }

  // ---------------------------------------------------------------------------------------------
  // What holds in every course
  // ---------------------------------------------------------------------------------------------

  /** `y` is where some course from the start leads without a fault. */
  ghost predicate Met(e: Edition, n: nat, rc: int, y: System) {
    exists acts :: Course(e, System(Boot(n, rc), []), acts) == Ok(y)
  }

  lemma BootSystem(e: Edition, n: nat, rc: int)
    ensures SysInv(e, System(Boot(n, rc), []))
  {
    BootInv(e, n, rc);
    assert Whole(Boot(n, rc), []) == Boot(n, rc);
  }

  lemma MetInv(e: Edition, n: nat, rc: int, y: System)
    requires Met(e, n, rc, y)
    ensures SysInv(e, y)
  {
    var acts :| Course(e, System(Boot(n, rc), []), acts) == Ok(y);
    BootSystem(e, n, rc);
    CourseKeeps(e, System(Boot(n, rc), []), acts);
  }

  /** What device `d` owes, in its lists or in hands. */
  function OwesWithHands(y: System, d: nat): seq<Event>
    requires d < |y.s.devices|
  {
    InHands(y.handlers, d) + y.s.devices[d].pending + y.s.devices[d].syncing
  }

  /**
   However the sections of heartbeats mix: a device has exactly one event for a vnode, in its two lists and in the
   handlers' hands together, if its replica is COPY_SRC or MOVE_SRC, and none otherwise.
   */
  lemma OneEventWithHands(e: Edition, n: nat, rc: int, y: System, v: nat, d: nat)
    requires Met(e, n, rc, y) && v < |y.s.vnodes| && d < |y.s.devices|
    ensures EventsFor(OwesWithHands(y, d), v) == if SourceOn(y.s.vnodes[v].replicas, d) then 1 else 0
  {
    MetInv(e, n, rc, y);
    EventPerSource(e, Whole(y.s, y.handlers), v, d);
  }

  ghost predicate OwesTo(y: System, d: nat, ev: Event) {
    d < |y.s.devices| && ev in OwesWithHands(y, d)
  }

  lemma OwesToIs(y: System, d: nat, ev: Event)
    ensures OwesTo(y, d, ev) <==> Owes(Whole(y.s, y.handlers), d, ev)
  {
  }

  /**
   However they mix: a replica waits exactly when some other device owes an event to it, in its lists or in hands, and
   then exactly one device does.
   */
  lemma OneWaitsWithHands(e: Edition, n: nat, rc: int, y: System, v: nat, x: nat)
    requires Met(e, n, rc, y) && v < |y.s.vnodes|
    ensures WaitsOn(y.s.vnodes[v].replicas, x) <==> exists d: nat :: d != x && OwesTo(y, d, Event(v, x))
    ensures forall c: nat, d: nat :: OwesTo(y, c, Event(v, x)) && OwesTo(y, d, Event(v, x)) ==> c == d
  {
    MetInv(e, n, rc, y);
    EventPerWaiting(e, Whole(y.s, y.handlers), v, x);
    forall d: nat
      ensures OwesTo(y, d, Event(v, x)) <==> Owes(Whole(y.s, y.handlers), d, Event(v, x))
    {
      OwesToIs(y, d, Event(v, x));
    }
  }

  /** However they mix: a vnode's version is the highest one ever accepted for it, and at least 0. */
  lemma VersionAlways(e: Edition, n: nat, rc: int, y: System, v: nat)
    requires Met(e, n, rc, y) && v < |y.s.vnodes|
    ensures y.s.vnodes[v].version >= 0
    ensures forall a :: a in y.s.accepted && a.vnode == v ==> a.version <= y.s.vnodes[v].version
    ensures y.s.vnodes[v].version > 0 ==> Acceptance(v, y.s.vnodes[v].version) in y.s.accepted
  {
    MetInv(e, n, rc, y);
    VersionHighest(e, Whole(y.s, y.handlers), v);
  }

  /** However they mix: a vnode that has replicas has one with the data. */
  lemma HolderAlways(e: Edition, n: nat, rc: int, y: System, v: nat)
    requires Met(e, n, rc, y) && v < |y.s.vnodes| && y.s.vnodes[v].replicas != []
    ensures exists r :: r in y.s.vnodes[v].replicas && HoldsData(r.status)
  {
    MetInv(e, n, rc, y);
    HolderThere(e, Whole(y.s, y.handlers), v);
  }

  /** However they mix: staying replicas lie in different zones, and there are no more of them than there should be. */
  lemma ApartAlways(e: Edition, n: nat, rc: int, y: System, v: nat)
    requires Met(e, n, rc, y) && v < |y.s.vnodes|
    ensures ApartIn(y.s, v) && Distinct(y.s.vnodes[v].replicas)
    ensures var n := CountLive(y.s.vnodes[v].replicas); n <= |y.s.devices| && (n > 0 ==> n <= y.s.replicaCount)
  {
    MetInv(e, n, rc, y);
    ZonesApart(e, Whole(y.s, y.handlers), v);
    assert VnodeInv(e, Whole(y.s, y.handlers).devices, y.s.vnodes[v].replicas, v);
  }

  lemma {:induction false} EmptyHands(hs: seq<Handler>, d: nat)
    requires forall h :: h in hs ==> Held(h, d) == []
    ensures InHands(hs, d) == []
  {
    if hs != [] {
      assert hs[0] in hs;
      EmptyHands(hs[1..], d);
    }
  }

  /** Whenever no handler holds an event, the master is as between two messages of an uninterrupted run. */
  lemma EmptyHandsInv(e: Edition, n: nat, rc: int, y: System)
    requires Met(e, n, rc, y) && forall h :: h in y.handlers ==> !h.at.Popped? && !h.at.Owing? && !h.at.Ending?
    ensures Inv(e, y.s) && Counted(y.s)
  {
    MetInv(e, n, rc, y);
    forall d: nat | d < |y.s.devices|
      ensures Whole(y.s, y.handlers).devices[d] == y.s.devices[d]
    {
      EmptyHands(y.handlers, d);
    }
    assert Whole(y.s, y.handlers) == y.s;
  }

  // ---------------------------------------------------------------------------------------------
  // Uninterrupted runs are courses
  // ---------------------------------------------------------------------------------------------

  lemma {:induction false} CourseAppend(e: Edition, y: System, a: seq<Act>, b: seq<Act>)
    requires Course(e, y, a).Ok?
    ensures Course(e, y, a + b) == Course(e, Course(e, y, a).value, b)
    decreases |a|
  {
    if a == [] {
      assert a + b == b;
    } else {
      assert (a + b)[1..] == a[1..] + b;
      CourseAppend(e, Next(e, y, a[0]).value, a[1..], b);
    }
  }

  lemma OneAct(e: Edition, y: System, a: Act)
    ensures Course(e, y, [a]) == Next(e, y, a)
  {
    assert [a][1..] == [];
  }

  ghost predicate AllOver(hs: seq<Handler>) {
    forall h :: h in hs ==> h.at.Over?
  }

  /** A handler that goes on undisturbed until it is done. */
  lemma {:induction false} AloneCourse(e: Edition, y: System, i: nat) returns (acts: seq<Act>, h': Handler)
    requires i < |y.handlers| && y.handlers[i].dev < |y.s.devices| && Alone(e, y.s, y.handlers[i]).Ok?
    ensures h'.at.Over? && Course(e, y, acts) == Ok(System(Alone(e, y.s, y.handlers[i]).value.0, y.handlers[i := h']))
    decreases Phase(y.handlers[i]), Left(y.s, y.handlers[i])
  {
    var h := y.handlers[i];
    if h.at.Over? {
      acts, h' := [], h;
      assert y.handlers[i := h] == y.handlers;
    } else {
      SectionEnds(e, y.s, h);
      var (s1, h1) := Section(e, y.s, h).value;
      var y1 := System(s1, y.handlers[i := h1]);
      acts, h' := AloneCourse(e, y1, i);
      assert y1.handlers[i := h'] == y.handlers[i := h'];
      assert Next(e, y, Goes(i)) == Ok(y1);
      OneAct(e, y, Goes(i));
      CourseAppend(e, y, [Goes(i)], acts);
      acts := [Goes(i)] + acts;
    }
  }

  lemma BeatCourse(e: Edition, y: System, d: nat, reports: seq<Report>) returns (acts: seq<Act>, h': Handler)
    requires d < |y.s.devices| && Heartbeat(y.s, d, reports).Ok?
    ensures h'.at.Over? && Course(e, y, acts) == Ok(System(Heartbeat(y.s, d, reports).value.0, y.handlers + [h']))
  {
    var h, n := Begun(y.s, d, reports), |y.handlers|;
    var y1 := y.(handlers := y.handlers + [h]);
    UninterruptedIsAtomic(e, y.s, d, reports);
    acts, h' := AloneCourse(e, y1, n);
    assert y1.handlers[n := h'] == y.handlers + [h'];
    OneAct(e, y, Begins(d, reports));
    CourseAppend(e, y, [Begins(d, reports)], acts);
    acts := [Begins(d, reports)] + acts;
  }

  /** One finished sync: two acts. */
  lemma OneSyncCourse(e: Edition, y: System, d: nat, id: int) returns (acts: seq<Act>, h': Handler)
    requires d < |y.s.devices| && SyncDownOne(e, y.s, d, id).Ok?
    ensures h'.at.Over? && Course(e, y, acts) == Ok(System(SyncDownOne(e, y.s, d, id).value, y.handlers + [h']))
  {
    SyncInTwo(e, y.s, d, id);
    var (s1, h) := TakeSync(y.s, d, id).value;
    var n, y1 := |y.handlers|, System(s1, y.handlers + [h]);
    h' := h.(at := Over);
    assert y1.handlers[n := h'] == y.handlers + [h'];
    OneAct(e, y, Syncs(d, id));
    OneAct(e, y1, Goes(n));
    CourseAppend(e, y, [Syncs(d, id)], [Goes(n)]);
    acts := [Syncs(d, id)] + [Goes(n)];
  }

  lemma {:induction false} SyncDownCourse(e: Edition, y: System, d: nat, ids: seq<int>)
    returns (acts: seq<Act>, more: seq<Handler>)
    requires d < |y.s.devices| && SyncDown(e, y.s, d, ids).Ok?
    ensures AllOver(more) && Course(e, y, acts) == Ok(System(SyncDown(e, y.s, d, ids).value, y.handlers + more))
    decreases |ids|
  {
    if ids == [] {
      acts, more := [], [];
      assert y.handlers + [] == y.handlers;
    } else {
      var s1 := SyncDownOne(e, y.s, d, ids[0]).value;
      SyncDownOneSizes(e, y.s, d, ids[0]);
      var acts0, h' := OneSyncCourse(e, y, d, ids[0]);
      var y1 := System(s1, y.handlers + [h']);
      var acts1, more1 := SyncDownCourse(e, y1, d, ids[1..]);
      acts, more := ChainedCourse(e, y, y1, acts0, acts1, [h'], more1, SyncDown(e, y.s, d, ids).value);
    }
  }

  lemma MessageCourse(e: Edition, y: System, m: Message) returns (acts: seq<Act>, more: seq<Handler>)
    requires Handle(e, y.s, m).Ok?
    ensures AllOver(more) && Course(e, y, acts) == Ok(System(Handle(e, y.s, m).value, y.handlers + more))
  {
    acts, more := [], [];
    assert y.handlers + [] == y.handlers;
    match m
    case JoinMsg(zone, weight, rnd) =>
      acts := [Joins(zone, weight, rnd)];
      OneAct(e, y, acts[0]);
    case HeartbeatMsg(d, reports) =>
      if d < |y.s.devices| {
        var h';
        acts, h' := BeatCourse(e, y, d, reports);
        more := [h'];
      }
    case SyncDownMsg(d, ids) =>
      if d < |y.s.devices| {
        acts, more := SyncDownCourse(e, y, d, ids);
      }
    case ReadMsg(v) =>
      acts := [Asks(v, false)];
      OneAct(e, y, acts[0]);
    case WriteMsg(v) =>
      acts := [Asks(v, true)];
      OneAct(e, y, acts[0]);
  }

  lemma {:induction false} RunCourse(e: Edition, y: System, ms: seq<Message>)
    returns (acts: seq<Act>, more: seq<Handler>)
    requires Run(e, y.s, ms).Ok?
    ensures AllOver(more) && Course(e, y, acts) == Ok(System(Run(e, y.s, ms).value, y.handlers + more))
    decreases |ms|
  {
    if ms == [] {
      acts, more := [], [];
      assert y.handlers + [] == y.handlers;
    } else {
      var acts0, more0 := MessageCourse(e, y, ms[0]);
      var y1 := System(Handle(e, y.s, ms[0]).value, y.handlers + more0);
      var acts1, more1 := RunCourse(e, y1, ms[1..]);
      acts, more := ChainedCourse(e, y, y1, acts0, acts1, more0, more1, Run(e, y.s, ms).value);
    }
  }

  lemma MoreHandlers(hs: seq<Handler>, more0: seq<Handler>, more1: seq<Handler>)
    ensures hs + more0 + more1 == hs + (more0 + more1)
    ensures AllOver(more0) && AllOver(more1) ==> AllOver(more0 + more1)
  {
  }

  lemma ChainedCourse(e: Edition, y: System, y1: System, acts0: seq<Act>, acts1: seq<Act>,
                      more0: seq<Handler>, more1: seq<Handler>, s': State)
    returns (acts: seq<Act>, more: seq<Handler>)
    requires Course(e, y, acts0) == Ok(y1) && y1.handlers == y.handlers + more0
    requires Course(e, y1, acts1) == Ok(System(s', y1.handlers + more1)) && AllOver(more0) && AllOver(more1)
    ensures AllOver(more) && Course(e, y, acts) == Ok(System(s', y.handlers + more))
  {
    CourseAppend(e, y, acts0, acts1);
    acts, more := acts0 + acts1, more0 + more1;
    MoreHandlers(y.handlers, more0, more1);
  }

  /** Whatever an uninterrupted run reaches, a course does too, and leaves no handler unfinished. */
  lemma RunsAreCourses(e: Edition, n: nat, rc: int, s: State)
    requires Reached(e, n, rc, s)
    ensures exists hs :: AllOver(hs) && Met(e, n, rc, System(s, hs))
  {
    var ms :| Run(e, Boot(n, rc), ms) == Ok(s);
    var acts, more := RunCourse(e, System(Boot(n, rc), []), ms);
    assert [] + more == more;
    assert Course(e, System(Boot(n, rc), []), acts) == Ok(System(s, more));
  }
}
