/**
 When the master faults: exactly, in the repaired edition; and what the two omissions of the source lead to.
 */
module Faults {
  import opened ProxyTypes
  import opened NodeInfo
  import opened NodeObjects
  import opened Protocol
  import opened Invariant
  import opened Steps
  import opened HeartbeatSteps
  import opened SyncDownSteps
  import opened JoinSteps
  import opened JoinLoops
  import opened JoinInduction
  import opened Counting
  import opened Runs
  import opened Guarantees
  import opened Rebalance

  // ---------------------------------------------------------------------------------------------
  // Repaired
  // ---------------------------------------------------------------------------------------------

  /** The messages that no sender should send. */
  ghost predicate Malformed(s: State, m: Message) {
    match m
    case JoinMsg(_, weight, _) => |s.devices| >= s.replicaCount && TotalWeight(s.devices) + weight == 0
    case HeartbeatMsg(_, _) => false
    case SyncDownMsg(d, ids) => d < |s.devices| && !AllSyncing(s, d, ids)
    case ReadMsg(v) => v >= |s.vnodes|
    case WriteMsg(v) => v >= |s.vnodes|
  }

  /** Repaired, the master faults on malformed messages only; a heartbeat never is one. */
  lemma RepairedFaults(e: Edition, n: nat, rc: int, s: State, m: Message)
    requires e.keepsReplica && e.erasesMoved && e.ownCursor && Reached(e, n, rc, s)
    ensures Handle(e, s, m).Fault? <==> Malformed(s, m)
  {
    RunInv(e, n, rc, s);
    match m
    case JoinMsg(zone, weight, rnd) =>
      JoinKeeps(e, s, zone, weight, rnd);
    case HeartbeatMsg(d, reports) =>
      if d < |s.devices| {
        HeartbeatKeeps(e, s, d, reports);
        ListedIsPlaced(e, s, d);
      }
    case SyncDownMsg(d, ids) =>
      if d < |s.devices| {
        SyncDownKeeps(e, s, d, ids);
      }
    case ReadMsg(v) =>
    case WriteMsg(v) =>
      if v < |s.vnodes| {
        WriteHandled(e, s, v);
      }
  }

  /** As written, a write request faults exactly when the read cursor of a vnode with replicas is past their end. */
  lemma WriteFaults(e: Edition, s: State, v: nat)
    requires !e.ownCursor && v < |s.vnodes|
    ensures Handle(e, s, WriteMsg(v)).Fault? <==>
            s.replicaCount > 0 && s.vnodes[v].replicas != [] && s.vnodes[v].rd >= |s.vnodes[v].replicas|
  {
    WriteHandled(e, s, v);
  }

  // ---------------------------------------------------------------------------------------------
  // The fresh replica overwritten with NULL
  // ---------------------------------------------------------------------------------------------

  /** The vnodes a selection loop looks at, in order, as long as none of them moves. */
  function Looks(e: Edition, list: seq<nat>, working: seq<nat>, rnd: nat -> nat, drawn: nat): (vs: seq<nat>)
    requires |working| <= |list|
    ensures |vs| == |working|
    decreases |working|
  {
    if working == [] then []
    else
      var i := rnd(drawn) % |working|;
      [if e.drawsFromCopy then working[i] else list[i]] + Looks(e, list, RemoveAt(working, i), rnd, drawn + 1)
  }

  /** Drawing from the working copy, that is all of it, in some order. */
  lemma {:induction false} LooksAtAll(e: Edition, list: seq<nat>, working: seq<nat>, rnd: nat -> nat, drawn: nat)
    requires |working| <= |list| && e.drawsFromCopy
    ensures multiset(Looks(e, list, working, rnd, drawn)) == multiset(working)
    decreases |working|
  {
    if working != [] {
      var i := rnd(drawn) % |working|;
      LooksAtAll(e, list, RemoveAt(working, i), rnd, drawn + 1);
      assert working[i] in multiset(working);
      assert Looks(e, list, working, rnd, drawn) == [working[i]] + Looks(e, list, RemoveAt(working, i), rnd, drawn + 1);
    }
  }

  /** As written, it is what stands at the drawn positions of the donor's list. */
  lemma {:induction false} LooksAtPositions(e: Edition, list: seq<nat>, working: seq<nat>, rnd: nat -> nat, drawn: nat)
    requires |working| <= |list| && !e.drawsFromCopy
    ensures TriedAt(list, Positions(|working|, rnd, drawn), Looks(e, list, working, rnd, drawn))
    decreases |working|
  {
    if working != [] {
      var i := rnd(drawn) % |working|;
      var rest := RemoveAt(working, i);
      LooksAtPositions(e, list, rest, rnd, drawn + 1);
      TriedCons(list, i, Positions(|working| - 1, rnd, drawn + 1), Looks(e, list, rest, rnd, drawn + 1));
    }
  }

  ghost predicate Finds(s: State, donor: nat, nd: nat, vs: seq<nat>)
    requires donor < |s.devices| && nd < |s.devices|
  {
    exists v :: v in vs && v < |s.vnodes| && Movable(s, donor, v, nd)
  }

  /** Unless it finds a vnode to move, a loop changes nothing; without a kept replica it faults if it finds one. */
  ghost predicate Barely(e: Edition, s: State, drawn: nat, finds: bool, r: Outcome<Draws>) {
    if finds then !e.keepsReplica ==> r == Fault else r == Ok(Draws(s, drawn))
  }

  lemma {:induction false} LoopBarely(e: Edition, s: State, donor: nat, nd: nat, working: seq<nat>, quota: int,
                                      rnd: nat -> nat, drawn: nat)
    requires donor < |s.devices| && nd < |s.devices| && donor != nd && |working| <= |s.devices[donor].listed|
    requires AllPlaced(s, donor, s.devices[donor].listed)
    requires forall v :: v in working ==> v in s.devices[donor].listed
    ensures var vs := Looks(e, s.devices[donor].listed, working, rnd, drawn);
            Barely(e, s, drawn + |working|, Finds(s, donor, nd, vs),
                   MoveFrom(e, s, donor, nd, working, quota, rnd, drawn))
    decreases |working|
  {
    if working != [] {
      var list, i := s.devices[donor].listed, rnd(drawn) % |working|;
      var v, rest := if e.drawsFromCopy then working[i] else list[i], RemoveAt(working, i);
      assert v in list && v in [v];
      MoveOneIs(e, s, donor, v, nd);
      var vs := Looks(e, list, rest, rnd, drawn + 1);
      FindsFirst(s, donor, nd, v, vs);
      if !Movable(s, donor, v, nd) {
        LoopBarely(e, s, donor, nd, rest, quota, rnd, drawn + 1);
      }
    }
  }

  lemma FindsFirst(s: State, donor: nat, nd: nat, v: nat, vs: seq<nat>)
    requires donor < |s.devices| && nd < |s.devices| && v < |s.vnodes|
    ensures Finds(s, donor, nd, [v] + vs) <==> Movable(s, donor, v, nd) || Finds(s, donor, nd, vs)
  {
    assert forall w :: w in [v] + vs <==> w == v || w in vs;
  }

  /** How many numbers are drawn when a donor's turn is over, if nothing moves. */
  function DrawnAfter(dev: Device, avg: int, drawn: nat): nat {
    if Quota(dev, avg) <= 0 then drawn else drawn + |dev.listed|
  }

  /** Some donor over its quota finds a vnode to move. */
  ghost predicate SomeFinds(e: Edition, s: State, donor: nat, nd: nat, avg: int, rnd: nat -> nat, drawn: nat)
    requires donor <= nd < |s.devices|
    decreases nd - donor
  {
    donor < nd &&
    var dev := s.devices[donor];
    || (Quota(dev, avg) > 0 && Finds(s, donor, nd, Looks(e, dev.listed, dev.listed, rnd, drawn)))
    || SomeFinds(e, s, donor + 1, nd, avg, rnd, DrawnAfter(dev, avg, drawn))
  }

  lemma TurnBarely(e: Edition, s: State, donor: nat, nd: nat, avg: int, rnd: nat -> nat, drawn: nat)
    requires donor < nd < |s.devices| && AllPlaced(s, donor, s.devices[donor].listed)
    ensures var dev := s.devices[donor];
            Barely(e, s, DrawnAfter(dev, avg, drawn),
                   Quota(dev, avg) > 0 && Finds(s, donor, nd, Looks(e, dev.listed, dev.listed, rnd, drawn)),
                   DonorTurn(e, s, donor, nd, avg, rnd, drawn))
  {
    TurnIs(e, s, donor, nd, avg, rnd, drawn, Quota(s.devices[donor], avg));
  }

  /** The same with the quota a number like any other. */
  lemma TurnIs(e: Edition, s: State, donor: nat, nd: nat, avg: int, rnd: nat -> nat, drawn: nat, quota: int)
    requires donor < nd < |s.devices| && AllPlaced(s, donor, s.devices[donor].listed)
             && quota == Quota(s.devices[donor], avg)
    ensures var list := s.devices[donor].listed;
            Barely(e, s, if quota <= 0 then drawn else drawn + |list|,
                   quota > 0 && Finds(s, donor, nd, Looks(e, list, list, rnd, drawn)),
                   DonorTurn(e, s, donor, nd, avg, rnd, drawn))
  {
    var list := s.devices[donor].listed;
    LoopBarely(e, s, donor, nd, list, quota, rnd, drawn);
    assert DonorTurn(e, s, donor, nd, avg, rnd, drawn) ==
           if quota <= 0 then Ok(Draws(s, drawn)) else MoveFrom(e, s, donor, nd, list, quota, rnd, drawn);
  }

  ghost predicate EveryListPlaced(s: State) {
    forall d: nat :: d < |s.devices| ==> AllPlaced(s, d, s.devices[d].listed)
  }

  lemma {:induction false} DonorsBarely(e: Edition, s: State, donor: nat, nd: nat, avg: int, rnd: nat -> nat,
                                        drawn: nat)
    requires !e.keepsReplica && donor <= nd < |s.devices| && EveryListPlaced(s)
    ensures MoveDonors(e, s, donor, nd, avg, rnd, drawn) ==
            if SomeFinds(e, s, donor, nd, avg, rnd, drawn) then Fault else Ok(s)
    decreases nd - donor
  {
    if donor < nd {
      TurnBarely(e, s, donor, nd, avg, rnd, drawn);
      MoveDonorsStep(e, s, donor, nd, avg, rnd, drawn);
      DonorsBarely(e, s, donor + 1, nd, avg, rnd, DrawnAfter(s.devices[donor], avg, drawn));
    }
  }

  /** Before a device of this zone joins: may `v` move to it from `donor`? */
  predicate CouldMove(s: State, donor: nat, v: nat, zone: int)
    requires donor < |s.devices|
  {
    && v < |s.vnodes| && StatusOf(s.vnodes[v].replicas, donor) == Some(Active)
    && (s.devices[donor].zone == zone || IsDiffZones(s.vnodes[v].replicas, s.devices, zone))
  }

  lemma CouldMoveIs(e: Edition, s: State, zone: int, weight: int, donor: nat, v: nat)
    requires Inv(e, s) && donor < |s.devices|
    ensures CouldMove(s, donor, v, zone) <==>
            v < |s.vnodes| && Movable(AddDevice(s, zone, weight), donor, v, |s.devices|)
  {
    if v < |s.vnodes| {
      assert VnodeInv(e, s.devices, s.vnodes[v].replicas, v);
    }
  }

  /**
   Before the join: from `donor` on, some donor over its quota could move one of the vnodes that its loop looks at.
   The draws go on where the donors before, that moved nothing, stopped.
   */
  ghost predicate JoinMoves(e: Edition, s: State, zone: int, avg: int, rnd: nat -> nat, donor: nat, drawn: nat)
    requires donor <= |s.devices|
    decreases |s.devices| - donor
  {
    donor < |s.devices| &&
    var dev := s.devices[donor];
    || (Quota(dev, avg) > 0
        && exists v :: v in Looks(e, dev.listed, dev.listed, rnd, drawn) && CouldMove(s, donor, v, zone))
    || JoinMoves(e, s, zone, avg, rnd, donor + 1, DrawnAfter(dev, avg, drawn))
  }

  lemma {:induction false} JoinMovesIs(e: Edition, s: State, zone: int, weight: int, avg: int, rnd: nat -> nat,
                                       donor: nat, drawn: nat)
    requires Inv(e, s) && donor <= |s.devices|
    ensures JoinMoves(e, s, zone, avg, rnd, donor, drawn) <==>
            SomeFinds(e, AddDevice(s, zone, weight), donor, |s.devices|, avg, rnd, drawn)
    decreases |s.devices| - donor
  {
    if donor < |s.devices| {
      var dev := s.devices[donor];
      assert AddDevice(s, zone, weight).devices[donor] == dev;
      forall v: nat
        ensures CouldMove(s, donor, v, zone) <==>
                v < |s.vnodes| && Movable(AddDevice(s, zone, weight), donor, v, |s.devices|)
      {
        CouldMoveIs(e, s, zone, weight, donor, v);
      }
      JoinMovesIs(e, s, zone, weight, avg, rnd, donor + 1, DrawnAfter(dev, avg, drawn));
    }
  }

  /** The donor is over its quota and lists a vnode that could move. */
  ghost predicate CouldGive(s: State, donor: nat, zone: int, avg: int) {
    && donor < |s.devices| && Quota(s.devices[donor], avg) > 0
    && exists v :: v in s.devices[donor].listed && CouldMove(s, donor, v, zone)
  }

  lemma CouldGiveIs(e: Edition, s: State, donor: nat, zone: int, avg: int, rnd: nat -> nat, drawn: nat)
    requires e.drawsFromCopy && donor < |s.devices|
    ensures var dev := s.devices[donor];
            CouldGive(s, donor, zone, avg) <==>
            && Quota(dev, avg) > 0
            && exists v :: v in Looks(e, dev.listed, dev.listed, rnd, drawn) && CouldMove(s, donor, v, zone)
  {
    var list := s.devices[donor].listed;
    LooksAtAll(e, list, list, rnd, drawn);
    var vs := Looks(e, list, list, rnd, drawn);
    assert forall v :: v in vs <==> v in multiset(vs);
    assert forall v :: v in list <==> v in multiset(list);
  }

  /** Drawing from the working copy, the draws do not matter. */
  lemma {:induction false} JoinMovesFromCopy(e: Edition, s: State, zone: int, avg: int, rnd: nat -> nat, donor: nat,
                                             drawn: nat)
    requires e.drawsFromCopy && donor <= |s.devices|
    ensures JoinMoves(e, s, zone, avg, rnd, donor, drawn) <==> exists d: nat :: donor <= d && CouldGive(s, d, zone, avg)
    decreases |s.devices| - donor
  {
    if donor < |s.devices| {
      var drawn' := DrawnAfter(s.devices[donor], avg, drawn);
      CouldGiveIs(e, s, donor, zone, avg, rnd, drawn);
      JoinMovesFromCopy(e, s, zone, avg, rnd, donor + 1, drawn');
      assert JoinMoves(e, s, zone, avg, rnd, donor, drawn) <==>
             CouldGive(s, donor, zone, avg) || JoinMoves(e, s, zone, avg, rnd, donor + 1, drawn');
    }
  }

  lemma AllListsPlaced(e: Edition, s: State)
    requires Inv(e, s) && Exact(e)
    ensures EveryListPlaced(s)
  {
    forall d: nat | d < |s.devices|
      ensures AllPlaced(s, d, s.devices[d].listed)
    {
      ListedIsPlaced(e, s, d);
    }
  }

  /**
   With the fresh replica overwritten by NULL, a moving join faults exactly when the weights cancel out, or some donor
   over its quota looks at a vnode that could move. Otherwise it does nothing but admit the device.
   */
  lemma MoveJoinWithoutReplica(e: Edition, s: State, zone: int, weight: int, rnd: nat -> nat)
    requires Inv(e, s) && !e.keepsReplica
    ensures var total := TotalWeight(s.devices) + weight;
            MoveJoin(e, s, zone, weight, rnd) ==
            if total == 0 || JoinMoves(e, s, zone, Truncated(TotalCount(s.devices), total), rnd, 0, 0) then Fault
            else Ok(AddDevice(s, zone, weight))
  {
    var total := TotalWeight(s.devices) + weight;
    if total != 0 {
      var avg := Truncated(TotalCount(s.devices), total);
      MoveJoinIs(e, s, zone, weight, rnd, avg);
      AdmittedBarely(e, s, zone, weight, avg, rnd);
    }
  }

  lemma AdmittedBarely(e: Edition, s: State, zone: int, weight: int, avg: int, rnd: nat -> nat)
    requires Inv(e, s) && !e.keepsReplica
    ensures var s1 := AddDevice(s, zone, weight);
            |s.devices| < |s1.devices| &&
            MoveDonors(e, s1, 0, |s.devices|, avg, rnd, 0) ==
              if JoinMoves(e, s, zone, avg, rnd, 0, 0) then Fault else Ok(s1)
  {
    AddDeviceKeeps(e, s, zone, weight);
    AllListsPlaced(e, AddDevice(s, zone, weight));
    DonorsBarely(e, AddDevice(s, zone, weight), 0, |s.devices|, avg, rnd, 0);
    JoinMovesIs(e, s, zone, weight, avg, rnd, 0, 0);
  }

  // ---------------------------------------------------------------------------------------------
  // The moved vnode left in the donor's list
  // ---------------------------------------------------------------------------------------------

  /** Device `d` lists vnode `v` but has no replica of it. */
  ghost predicate Stale(s: State, d: nat, v: nat) {
    && d < |s.devices| && v < |s.vnodes|
    && v in s.devices[d].listed && StatusOf(s.vnodes[v].replicas, d).None?
  }

  /** Without the erase, the end of a move leaves a stale entry on the donor. */
  lemma MoveLeavesStale(e: Edition, s: State, d: nat, v: nat)
    requires Inv(e, s) && !e.erasesMoved && v < |s.vnodes| && Syncing(s, d, v)
    requires StatusOf(s.vnodes[v].replicas, d) == Some(MoveSrc)
    ensures SyncDownOne(e, s, d, v).Ok? && Stale(SyncDownOne(e, s, d, v).value, d, v)
  {
    SyncDownOneIs(e, s, d, v);
    SyncDownEnds(e, s, d, v);
    var rs := s.vnodes[v].replicas;
    var dst := s.devices[d].syncing[EventIndex(s.devices[d].syncing, v)].dest;
    assert VnodeInv(e, s.devices, rs, v);
    LinkEnds(e, s.devices, rs, v, d, dst);
    EndedReplicas(rs, d, dst);
    assert multiset(s.devices[d].listed)[v] > 0;
  }

  lemma StaleThroughSyncDownOne(e: Edition, s: State, c: nat, id: int, d: nat, v: nat)
    requires Inv(e, s) && !e.erasesMoved && Syncing(s, c, id) && Stale(s, d, v)
    ensures SyncDownOne(e, s, c, id).Ok? && Stale(SyncDownOne(e, s, c, id).value, d, v)
  {
    SyncDownOneIs(e, s, c, id);
    SyncDownEnds(e, s, c, id);
    if id == v {
      var rs := s.vnodes[v].replicas;
      var dst := s.devices[c].syncing[EventIndex(s.devices[c].syncing, id)].dest;
      assert VnodeInv(e, s.devices, rs, v);
      LinkEnds(e, s.devices, rs, v, c, dst);
      EndedReplicas(rs, c, dst);
    }
  }

  lemma {:induction false} StaleThroughSyncDown(e: Edition, s: State, c: nat, ids: seq<int>, d: nat, v: nat)
    requires Inv(e, s) && Counted(s) && !e.erasesMoved && c < |s.devices| && Stale(s, d, v)
    ensures SyncDown(e, s, c, ids).Ok? ==> Stale(SyncDown(e, s, c, ids).value, d, v)
    decreases |ids|
  {
    if ids != [] {
      SyncDownOneAll(e, s, c, ids[0]);
      if SyncDownOne(e, s, c, ids[0]).Ok? {
        StaleThroughSyncDownOne(e, s, c, ids[0], d, v);
        StaleThroughSyncDown(e, SyncDownOne(e, s, c, ids[0]).value, c, ids[1..], d, v);
      }
    }
  }

  /** A copy to another device leaves `d` without a replica. */
  lemma CopiedElsewhere(rs: seq<Replica>, pos: Option<nat>, nd: nat, d: nat)
    requires Distinct(rs) && StatusOf(rs, nd) == None && d != nd && StatusOf(rs, d).None?
    requires pos.Some? ==> pos.value < |rs| && rs[pos.value].status.Active?
    ensures forall st :: StatusOf(rs + [Replica(st, nd)], d).None?
    ensures pos.Some? ==>
              Find(rs, rs[pos.value].dev) < |rs| && StatusOf(Planting(rs, rs[pos.value].dev, nd, CopySrc), d).None?
  {
    forall st: Status
      ensures StatusOf(rs + [Replica(st, nd)], d).None?
    {
      AppendIs(rs, Replica(st, nd));
    }
    if pos.Some? {
      FindAt(rs, pos.value);
      PlantingIs(rs, rs[pos.value].dev, nd, CopySrc);
    }
  }

  lemma StaleThroughReplaced(s: State, s': State, w: nat, rs': seq<Replica>, d: nat, v: nat)
    requires Stale(s, d, v) && Replaces(s, s', w, rs') && (v == w ==> StatusOf(rs', d).None?)
    requires |s'.devices| == |s.devices| && s'.devices[d].listed == s.devices[d].listed
    ensures Stale(s', d, v)
  {
  }

  lemma StaleThroughCopied(s: State, w: nat, nd: nat, d: nat, v: nat)
    requires w < |s.vnodes| && nd < |s.devices| && nd != d && Stale(s, d, v)
    requires Placed(s.devices, s.vnodes[w].replicas) && StatusOf(s.vnodes[w].replicas, nd) == None
    ensures CopyOne(s, w, nd).Ok? && Stale(CopyOne(s, w, nd).value, d, v)
  {
    var rs := s.vnodes[w].replicas;
    CopyOneIs(s, w, nd);
    if IsDiffZones(rs, s.devices, s.devices[nd].zone) {
      var s' := CopyOne(s, w, nd).value;
      if v == w {
        CopiedElsewhere(rs, ReadReplica(s.vnodes[w]).1, nd, d);
      }
      StaleThroughReplaced(s, s', w, s'.vnodes[w].replicas, d, v);
    }
  }

  lemma StaleThroughCopyOne(e: Edition, s: State, w: nat, nd: nat, d: nat, v: nat)
    requires Inv(e, s) && w < |s.vnodes| && nd < |s.devices| && nd != d && Stale(s, d, v)
    requires w !in s.devices[nd].listed
    ensures CopyOne(s, w, nd).Ok? && Stale(CopyOne(s, w, nd).value, d, v)
  {
    UnlistedIsAbsent(e, s, w, nd);
    StaleThroughCopied(s, w, nd, d, v);
  }

  ghost predicate CopiedStale(e: Edition, nd: nat, d: nat, v: nat, x: State, w: nat) {
    Inv(e, x) && ListedBelow(x, nd, w) && Stale(x, d, v)
  }

  lemma CopyStaleKept(P: (State, nat) -> bool, e: Edition, nd: nat, d: nat, v: nat, x: State, w: nat)
    requires nd != d && forall y, u :: P(y, u) <==> CopiedStale(e, nd, d, v, y, u)
    requires P(x, w)
    ensures CopyKeeps(P, x, w, nd)
  {
    if w < |x.vnodes| && nd < |x.devices| {
      CopyStep(e, x, w, nd);
      StaleThroughCopyOne(e, x, w, nd, d, v);
    }
  }

  lemma StaleThroughCopyFrom(e: Edition, s: State, nd: nat, d: nat, v: nat)
    requires Inv(e, s) && nd < |s.devices| && nd != d && Stale(s, d, v) && s.devices[nd].listed == []
    ensures CopyFrom(s, 0, nd).Ok? && Stale(CopyFrom(s, 0, nd).value, d, v)
  {
    var P := (x: State, w: nat) => CopiedStale(e, nd, d, v, x, w);
    forall x: State, w: nat | P(x, w)
      ensures CopyKeeps(P, x, w, nd)
    {
      CopyStaleKept(P, e, nd, d, v, x, w);
    }
    assert P(s, 0);
    CopyInduction(P, s, 0, nd);
  }

  lemma StaleThroughMoved(e: Edition, s: State, donor: nat, w: nat, nd: nat, d: nat, v: nat)
    requires Inv(e, s) && donor < |s.devices| && nd < |s.devices| && nd != d && w < |s.vnodes| && Stale(s, d, v)
    requires Movable(s, donor, w, nd)
    ensures Stale(MovedState(s, donor, w, nd), d, v)
  {
    var rs := s.vnodes[w].replicas;
    assert VnodeInv(e, s.devices, rs, w);
    MovedIs(s, donor, w, nd);
    assert multiset(s.devices[nd].listed)[w] == 0;
    PlantingIs(rs, donor, nd, MoveSrc);
  }

  ghost predicate StaleOrFault(r: Outcome<State>, d: nat, v: nat) {
    r.Ok? ==> Stale(r.value, d, v)
  }

  lemma StaleThroughMoveOne(e: Edition, s: State, donor: nat, w: nat, nd: nat, d: nat, v: nat)
    requires Inv(e, s) && donor < nd < |s.devices| && nd != d && w in s.devices[donor].listed && Stale(s, d, v)
    ensures var r := MoveOne(e, s, donor, w, nd); r.Ok? ==> Stale(r.value.0, d, v)
  {
    MoveOneIs(e, s, donor, w, nd);
    if w < |s.vnodes| && Movable(s, donor, w, nd) {
      StaleThroughMoved(e, s, donor, w, nd, d, v);
    }
  }

  lemma StaleThroughMoveDonors(e: Edition, s: State, nd: nat, avg: int, rnd: nat -> nat, d: nat, v: nat)
    requires Inv(e, s) && nd < |s.devices| && nd != d && Stale(s, d, v)
    ensures StaleOrFault(MoveDonors(e, s, 0, nd, avg, rnd, 0), d, v)
  {
    var P := x => Inv(e, x) && Stale(x, d, v);
    forall x: State, donor: nat, w: nat | P(x) && donor < |x.devices| && w in x.devices[donor].listed
      ensures MoveKeeps(P, false, e, x, donor, w, nd)
    {
      if donor < nd < |x.devices| {
        MoveOneKeeps(e, x, donor, w, nd);
        StaleThroughMoveOne(e, x, donor, w, nd, d, v);
      }
    }
    MoveInduction(P, false, e, s, 0, nd, avg, rnd, 0);
  }

  lemma StaleThroughMoveJoin(e: Edition, s: State, zone: int, weight: int, rnd: nat -> nat, d: nat, v: nat)
    requires Inv(e, s) && Stale(s, d, v)
    ensures StaleOrFault(MoveJoin(e, s, zone, weight, rnd), d, v)
  {
    var s1 := AddDevice(s, zone, weight);
    var Q := r => StaleOrFault(r, d, v);
    AddDeviceKeeps(e, s, zone, weight);
    forall avg: int
      ensures Q(MoveDonors(e, s1, 0, |s.devices|, avg, rnd, 0))
    {
      StaleThroughMoveDonors(e, s1, |s.devices|, avg, rnd, d, v);
    }
    AnyAverage(Q, e, s, zone, weight, rnd);
  }

  lemma StaleThroughJoin(e: Edition, s: State, zone: int, weight: int, rnd: nat -> nat, d: nat, v: nat)
    requires Inv(e, s) && Stale(s, d, v)
    ensures StaleOrFault(Join(e, s, zone, weight, rnd), d, v)
  {
    if |s.devices| < s.replicaCount {
      AddDeviceKeeps(e, s, zone, weight);
      StaleThroughCopyFrom(e, AddDevice(s, zone, weight), |s.devices|, d, v);
    } else {
      StaleThroughMoveJoin(e, s, zone, weight, rnd, d, v);
    }
  }

  lemma StaleThroughHeartbeat(e: Edition, s: State, c: nat, reports: seq<Report>, d: nat, v: nat)
    requires Inv(e, s) && c < |s.devices| && Stale(s, d, v)
    ensures Heartbeat(s, c, reports).Ok? ==> c != d && Stale(Heartbeat(s, c, reports).value.0, d, v)
  {
    HeartbeatKeeps(e, s, c, reports);
    if Heartbeat(s, c, reports).Ok? {
      var s' := Heartbeat(s, c, reports).value.0;
      SameFind(s.vnodes[v].replicas, s'.vnodes[v].replicas, d);
    }
  }

  lemma StaleThroughRead(e: Edition, s: State, w: nat, d: nat, v: nat)
    requires Stale(s, d, v)
    ensures StaleOrFault(Handle(e, s, ReadMsg(w)), d, v)
  {
  }

  lemma StaleThroughWrite(e: Edition, s: State, w: nat, d: nat, v: nat)
    requires Stale(s, d, v)
    ensures StaleOrFault(Handle(e, s, WriteMsg(w)), d, v)
  {
    if w < |s.vnodes| {
      WriteHandled(e, s, w);
    }
  }

  lemma StaleThroughHandle(e: Edition, s: State, m: Message, d: nat, v: nat)
    requires Inv(e, s) && Counted(s) && !e.erasesMoved && Stale(s, d, v)
    ensures Handle(e, s, m).Ok? ==> Stale(Handle(e, s, m).value, d, v)
    ensures m.HeartbeatMsg? && m.dev == d ==> Handle(e, s, m).Fault?
  {
    match m
    case JoinMsg(zone, weight, rnd) =>
      StaleThroughJoin(e, s, zone, weight, rnd, d, v);
    case HeartbeatMsg(c, reports) =>
      if c < |s.devices| {
        StaleThroughHeartbeat(e, s, c, reports, d, v);
      }
    case SyncDownMsg(c, ids) =>
      if c < |s.devices| {
        StaleThroughSyncDown(e, s, c, ids, d, v);
      }
    case ReadMsg(w) => StaleThroughRead(e, s, w, d, v);
    case WriteMsg(w) => StaleThroughWrite(e, s, w, d, v);
  }

  /**
   Without the erase, a device that finished moving a vnode away can never heartbeat again: every later run that
   has a heartbeat of it faults, there or earlier.
   */
  lemma {:induction false} StaleDeviceIsDoomed(e: Edition, s: State, d: nat, v: nat, ms: seq<Message>)
    requires Inv(e, s) && Counted(s) && !e.erasesMoved && Stale(s, d, v)
    requires exists m :: m in ms && m.HeartbeatMsg? && m.dev == d
    ensures Run(e, s, ms).Fault?
    decreases |ms|
  {
    StaleThroughHandle(e, s, ms[0], d, v);
    HandleKeeps(e, s, ms[0]);
    if Handle(e, s, ms[0]).Ok? {
      assert forall m :: m in ms ==> m == ms[0] || m in ms[1..];
      StaleDeviceIsDoomed(e, Handle(e, s, ms[0]).value, d, v, ms[1..]);
    }
  }

  // ---------------------------------------------------------------------------------------------
  // A lagging replica chosen as its own source
  // ---------------------------------------------------------------------------------------------

  /**
   A lagging replica becomes its own source, with an event to itself, exactly when the read scan stops at it: only
   if it is ACTIVE, and always if no other replica is. It is told WAIT_SYNC all the same.
   */
  lemma SelfSync(s: State, v: nat, d: nat)
    requires v < |s.vnodes| && Distinct(s.vnodes[v].replicas)
    requires StatusOf(s.vnodes[v].replicas, d).Some? && Neutral(StatusOf(s.vnodes[v].replicas, d))
    requires Lag(s, v, d).Ok?
    ensures var (s', told) := Lag(s, v, d).value;
            var rs := s.vnodes[v].replicas;
            && (StatusOf(s'.vnodes[v].replicas, d) == Some(CopySrc) <==>
                ReadReplica(s.vnodes[v]).1 == Some(Find(rs, d)))
            && (StatusOf(s'.vnodes[v].replicas, d) == Some(CopySrc) ==>
                  told == WaitSync && rs[Find(rs, d)].status.Active? && d < |s.devices|
                    && Event(v, d) in s'.devices[d].pending)
            && (ActiveSet(rs) == {Find(rs, d)} ==> StatusOf(s'.vnodes[v].replicas, d) == Some(CopySrc))
  {
    var rs := s.vnodes[v].replicas;
    var pos := ReadReplica(s.vnodes[v]).1;
    var i := Find(rs, d);
    assert rs[i] in rs;
    if pos.None? {
      SetStatusIs(rs, d, Online);
      assert i !in ActiveSet(rs);
    } else {
      PlanReplicas(rs, pos.value, d);
      FindAt(rs, pos.value);
      assert pos.value in ActiveSet(rs);
    }
  }
}
