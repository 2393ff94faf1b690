/**
 How much a moving join takes from each donor, and whether it looked far enough.
 */
module Rebalance {
  import opened ProxyTypes
  import opened NodeInfo
  import opened NodeObjects
  import opened Protocol
  import opened Invariant
  import opened Steps
  import opened HeartbeatSteps
  import opened JoinSteps
  import opened JoinLoops
  import opened JoinInduction

  // ---------------------------------------------------------------------------------------------
  // Quotas
  // ---------------------------------------------------------------------------------------------

  /** What all donors together are asked for. */
  function TotalQuota(devices: seq<Device>, avg: int): int {
    if devices == [] then 0
    else (if Quota(devices[0], avg) > 0 then Quota(devices[0], avg) else 0) + TotalQuota(devices[1..], avg)
  }

  lemma {:induction false} QuotaSum(devices: seq<Device>, avg: int)
    ensures TotalQuota(devices, avg) >= TotalCount(devices) - avg * TotalWeight(devices)
  {
    if devices != [] {
      QuotaSum(devices[1..], avg);
      var w, rest := devices[0].weight, TotalWeight(devices[1..]);
      assert avg * (w + rest) == avg * w + avg * rest;
    }
  }

  lemma TruncatedAtMost(a: nat, b: int)
    requires b != 0
    ensures Truncated(a, b) * b <= a
  {
    var q := Abs(a) / Abs(b);
    assert q * Abs(b) <= a;
    if b < 0 {
      if a == 0 {
        assert q == 0;
      }
      assert (-q) * b == q * (-b);
    }
  }

  lemma Distribute(avg: int, a: int, b: int)
    ensures avg * (a + b) == avg * a + avg * b
  {
  }

  /** The quotas suffice for the joiner's share, whatever the weights. */
  lemma QuotasSuffice(devices: seq<Device>, weight: int)
    requires TotalWeight(devices) + weight != 0
    ensures var avg := Truncated(TotalCount(devices), TotalWeight(devices) + weight);
            TotalQuota(devices, avg) >= avg * weight
  {
    var w, count := TotalWeight(devices), TotalCount(devices);
    var avg := Truncated(count, w + weight);
    QuotaSum(devices, avg);
    TruncatedAtMost(count, w + weight);
    Distribute(avg, w, weight);
  }

  // ---------------------------------------------------------------------------------------------
  // One donor
  // ---------------------------------------------------------------------------------------------

  /** How many vnodes `nd` gained. */
  ghost function Gained(s: State, s': State, nd: nat): int
    requires nd < |s.devices| && nd < |s'.devices|
  {
    |s'.devices[nd].listed| - |s.devices[nd].listed|
  }

  lemma MoveOneGains(e: Edition, s: State, donor: nat, v: nat, nd: nat)
    requires donor < nd < |s.devices| && MoveOne(e, s, donor, v, nd).Ok?
    ensures var (s', moved) := MoveOne(e, s, donor, v, nd).value;
            && |s'.devices| == |s.devices| && s'.devices[donor].listed == s.devices[donor].listed
            && Gained(s, s', nd) == (if moved then 1 else 0)
  {
    MoveOneIs(e, s, donor, v, nd);
  }

  /** Of the quota, `left` is left. */
  ghost predicate Spent(s: State, x: State, donor: nat, nd: nat, quota: int, left: int) {
    && donor < nd < |s.devices| == |x.devices| && left <= quota && Gained(s, x, nd) == quota - left
    && x.devices[donor].listed == s.devices[donor].listed
  }

  lemma SpentLook(e: Edition, s: State, x: State, donor: nat, v: nat, nd: nat, quota: int, left: int)
    requires Spent(s, x, donor, nd, quota, left) && left >= 1
    ensures LookKeeps((q: int, y: State) => Spent(s, y, donor, nd, quota, q), e, x, donor, v, nd, left)
  {
    if MoveOne(e, x, donor, v, nd).Ok? {
      MoveOneGains(e, x, donor, v, nd);
    }
  }

  lemma MoveFromWithinQuota(e: Edition, s: State, donor: nat, nd: nat, working: seq<nat>, quota: int,
                            rnd: nat -> nat, drawn: nat)
    requires donor < nd < |s.devices| && quota >= 1
    requires |working| <= |s.devices[donor].listed|
    ensures var r := MoveFrom(e, s, donor, nd, working, quota, rnd, drawn);
            r.Ok? ==> exists left :: left >= 0 && Spent(s, r.value.s, donor, nd, quota, left)
  {
    var P := (q: int, x: State) => Spent(s, x, donor, nd, quota, q);
    forall x: State, v: nat, q: int | P(q, x) && q >= 1
      ensures LookKeeps(P, e, x, donor, v, nd, q)
    {
      SpentLook(e, s, x, donor, v, nd, quota, q);
    }
    assert Spent(s, s, donor, nd, quota, quota);
    QuotaInduction(P, e, s, donor, nd, working, quota, rnd, drawn);
    var r := MoveFrom(e, s, donor, nd, working, quota, rnd, drawn);
    if r.Ok? {
      var q :| 0 <= q && P(q, r.value.s);
      assert Spent(s, r.value.s, donor, nd, quota, q);
    }
  }

  /**
   A donor gives up no more than it holds over its share, and nothing at all when it holds no more than that:
   at least avg * weight of its vnodes are left unmarked.
   */
  lemma DonorKeepsItsShare(e: Edition, s: State, donor: nat, nd: nat, avg: int, rnd: nat -> nat, drawn: nat)
    requires donor < nd < |s.devices| && DonorTurn(e, s, donor, nd, avg, rnd, drawn).Ok?
    ensures var s' := DonorTurn(e, s, donor, nd, avg, rnd, drawn).value.s;
            && s'.devices[donor].listed == s.devices[donor].listed
            && (|s.devices[donor].listed| <= avg * s.devices[donor].weight ==> s' == s)
            && (|s.devices[donor].listed| > avg * s.devices[donor].weight ==>
                  |s.devices[donor].listed| - Gained(s, s', nd) >= avg * s.devices[donor].weight)
  {
    if Quota(s.devices[donor], avg) > 0 {
      MoveFromWithinQuota(e, s, donor, nd, s.devices[donor].listed, Quota(s.devices[donor], avg), rnd, drawn);
    }
  }

  lemma MovedIsUnmovable(e: Edition, s: State, donor: nat, v: nat, nd: nat)
    requires Inv(e, s) && donor < |s.devices| && nd < |s.devices| && donor != nd && v < |s.vnodes|
             && Movable(s, donor, v, nd)
    ensures var s' := MovedState(s, donor, v, nd); SameSizes(s, s') && !Movable(s', donor, v, nd)
  {
    MovedIs(s, donor, v, nd);
    assert VnodeInv(e, s.devices, s.vnodes[v].replicas, v);
    assert multiset(s.devices[nd].listed)[v] == 0;
    PlantingIs(s.vnodes[v].replicas, donor, nd, MoveSrc);
  }

  lemma OtherStaysUnmovable(s: State, donor: nat, w: nat, nd: nat, v: nat)
    requires donor < |s.devices| && nd < |s.devices| && donor != nd && w < |s.vnodes| && v < |s.vnodes| && v != w
    requires Movable(s, donor, w, nd) && !Movable(s, donor, v, nd)
    ensures var s' := MovedState(s, donor, w, nd); SameSizes(s, s') && !Movable(s', donor, v, nd)
  {
    MovedIs(s, donor, w, nd);
  }

  /** A vnode that cannot be moved stays so while others move. */
  lemma StaysUnmovable(e: Edition, s: State, donor: nat, w: nat, nd: nat, v: nat)
    requires Inv(e, s) && donor < |s.devices| && nd < |s.devices| && donor != nd && w < |s.vnodes| && v < |s.vnodes|
    requires Movable(s, donor, w, nd) && (v == w || !Movable(s, donor, v, nd))
    ensures var s' := MovedState(s, donor, w, nd); SameSizes(s, s') && !Movable(s', donor, v, nd)
  {
    if v == w {
      MovedIsUnmovable(e, s, donor, w, nd);
    } else {
      OtherStaysUnmovable(s, donor, w, nd, v);
    }
  }

  /** No vnode of the list can be moved. */
  ghost predicate NoneMovable(s: State, donor: nat, nd: nat, list: seq<nat>)
    requires donor < |s.devices| && nd < |s.devices|
  {
    forall v :: v in list && v < |s.vnodes| ==> !Movable(s, donor, v, nd)
  }

  lemma NoneMovableAfter(e: Edition, s: State, donor: nat, nd: nat, v: nat, done: seq<nat>)
    requires Inv(e, s) && e.keepsReplica && donor < |s.devices| && nd < |s.devices| && donor != nd && v < |s.vnodes|
    requires Movable(s, donor, v, nd) && NoneMovable(s, donor, nd, done)
    ensures var s' := MovedState(s, donor, v, nd); SameSizes(s, s') && NoneMovable(s', donor, nd, done + [v])
  {
    MovedIs(s, donor, v, nd);
    forall w | w in done + [v] && w < |s.vnodes|
      ensures !Movable(MovedState(s, donor, v, nd), donor, w, nd)
    {
      StaysUnmovable(e, s, donor, v, nd, w);
    }
  }

  /** One look at `v`: whatever comes of it, `v` cannot be moved afterwards. */
  lemma LookedAt(e: Edition, s: State, donor: nat, v: nat, nd: nat, done: seq<nat>)
    requires Inv(e, s) && donor < |s.devices| && nd < |s.devices| && donor != nd && NoneMovable(s, donor, nd, done)
    requires MoveOne(e, s, donor, v, nd).Ok?
    ensures var (s', moved) := MoveOne(e, s, donor, v, nd).value;
            && Inv(e, s') && SameSizes(s, s') && s'.devices[donor].listed == s.devices[donor].listed
            && Gained(s, s', nd) == (if moved then 1 else 0)
            && NoneMovable(s', donor, nd, done + [v])
  {
    MoveOneIs(e, s, donor, v, nd);
    assert v in [v];
    if Movable(s, donor, v, nd) {
      MovedKeeps(e, s, donor, v, nd);
      MovedIs(s, donor, v, nd);
      NoneMovableAfter(e, s, donor, nd, v, done);
    }
  }

  lemma InRest(done: seq<nat>, working: seq<nat>, i: nat)
    requires i < |working|
    ensures forall w :: w in done + working <==> w in done + [working[i]] + RemoveAt(working, i)
  {
    var rest := RemoveAt(working, i);
    forall w
      ensures w in working <==> w == working[i] || w in rest
    {
      if w in working && w != working[i] {
        assert multiset(working)[w] > 0;
        assert multiset(rest)[w] > 0;
      }
      if w in rest {
        assert multiset(rest)[w] > 0;
        assert multiset(working)[w] > 0;
      }
    }
  }

  /** Quota met, or none of the list is movable. */
  ghost predicate Exhausted(s: State, r: Outcome<Draws>, donor: nat, nd: nat, quota: int, list: seq<nat>)
    requires donor < |s.devices| && nd < |s.devices|
  {
    r.Ok? && |r.value.s.devices| == |s.devices| ==>
      Gained(s, r.value.s, nd) == quota || NoneMovable(r.value.s, donor, nd, list)
  }

  /** The loop from here is its first draw and the loop from there. */
  lemma CopyDraw(e: Edition, s: State, donor: nat, nd: nat, working: seq<nat>, quota: int, rnd: nat -> nat, drawn: nat)
    requires e.drawsFromCopy && donor < |s.devices| && nd < |s.devices| && donor != nd
    requires 0 < |working| <= |s.devices[donor].listed|
    ensures var i := rnd(drawn) % |working|;
            var r := MoveOne(e, s, donor, working[i], nd);
            && (r.Ok? ==>
                  |r.value.0.devices| == |s.devices| && r.value.0.devices[donor].listed == s.devices[donor].listed)
            && MoveFrom(e, s, donor, nd, working, quota, rnd, drawn) ==
               if r.Fault? then Fault
               else if r.value.1 && quota <= 1 then Ok(Draws(r.value.0, drawn + 1))
               else MoveFrom(e, r.value.0, donor, nd, RemoveAt(working, i), if r.value.1 then quota - 1 else quota,
                             rnd, drawn + 1)
  {
  }

  lemma ExhaustedBefore(s: State, s': State, r: Outcome<Draws>, donor: nat, nd: nat, quota: int, moved: bool,
                        list: seq<nat>, list': seq<nat>)
    requires donor < |s.devices| && nd < |s.devices| && |s'.devices| == |s.devices|
             && Gained(s, s', nd) == (if moved then 1 else 0)
    requires Exhausted(s', r, donor, nd, if moved then quota - 1 else quota, list') && forall w :: w in list ==>
               w in list'
    ensures Exhausted(s, r, donor, nd, quota, list)
  {
  }

  lemma {:induction false} MoveFromExhausts(e: Edition, s: State, donor: nat, nd: nat, working: seq<nat>, quota: int,
                                            rnd: nat -> nat, drawn: nat, done: seq<nat>)
    requires Inv(e, s) && e.drawsFromCopy && donor < |s.devices| && nd < |s.devices| && donor != nd && quota >= 1
    requires |working| <= |s.devices[donor].listed| && NoneMovable(s, donor, nd, done)
    ensures Exhausted(s, MoveFrom(e, s, donor, nd, working, quota, rnd, drawn), donor, nd, quota, done + working)
    decreases |working|
  {
    if working == [] {
      assert done + working == done;
    } else {
      var i := rnd(drawn) % |working|;
      var r := MoveOne(e, s, donor, working[i], nd);
      CopyDraw(e, s, donor, nd, working, quota, rnd, drawn);
      if r.Ok? {
        var (s', moved) := r.value;
        LookedAt(e, s, donor, working[i], nd, done);
        if !(moved && quota <= 1) {
          var rest, quota' := RemoveAt(working, i), if moved then quota - 1 else quota;
          MoveFromExhausts(e, s', donor, nd, rest, quota', rnd, drawn + 1, done + [working[i]]);
          InRest(done, working, i);
          ExhaustedBefore(s, s', MoveFrom(e, s', donor, nd, rest, quota', rnd, drawn + 1), donor, nd, quota, moved,
                          done + working, done + [working[i]] + rest);
        }
      }
    }
  }

  /**
   When draws are taken from the working copy, a donor's turn ends with its quota met or with no vnode of it
   that could be moved.
   */
  lemma TurnExhausts(e: Edition, s: State, donor: nat, nd: nat, avg: int, rnd: nat -> nat, drawn: nat)
    requires Inv(e, s) && e.drawsFromCopy && donor < nd < |s.devices| && DonorTurn(e, s, donor, nd, avg, rnd, drawn).Ok?
    requires Quota(s.devices[donor], avg) > 0
    ensures var s' := DonorTurn(e, s, donor, nd, avg, rnd, drawn).value.s;
            Gained(s, s', nd) == Quota(s.devices[donor], avg) || NoneMovable(s', donor, nd, s.devices[donor].listed)
  {
    var list := s.devices[donor].listed;
    MoveFromExhausts(e, s, donor, nd, list, Quota(s.devices[donor], avg), rnd, drawn, []);
    assert [] + list == list;
  }

  // ---------------------------------------------------------------------------------------------
  // Draws taken from the donor's own list, as written
  // ---------------------------------------------------------------------------------------------

  /** The vnodes a selection loop looks at, in order. */
  ghost function Tried(e: Edition, s: State, donor: nat, nd: nat, working: seq<nat>, quota: int, rnd: nat -> nat,
                       drawn: nat): seq<nat>
    requires donor < |s.devices| && nd < |s.devices| && donor != nd
    requires |working| <= |s.devices[donor].listed|
    decreases |working|
  {
    if working == [] then []
    else
      var i := rnd(drawn) % |working|;
      var v := if e.drawsFromCopy then working[i] else s.devices[donor].listed[i];
      match MoveOne(e, s, donor, v, nd)
      case Fault => [v]
      case Ok((s', moved)) =>
        if moved && quota <= 1 then [v]
        else [v] + Tried(e, s', donor, nd, RemoveAt(working, i), if moved then quota - 1 else quota, rnd, drawn + 1)
  }

  /** The positions drawn when each of `m` draws is bounded by what is left. */
  function Positions(m: nat, rnd: nat -> nat, drawn: nat): (ps: seq<nat>)
    ensures |ps| == m
  {
    if m == 0 then [] else [rnd(drawn) % m] + Positions(m - 1, rnd, drawn + 1)
  }

  /** Every draw takes the last of what is left. */
  ghost predicate AlwaysLast(m: nat, rnd: nat -> nat, drawn: nat) {
    m == 0 || (rnd(drawn) % m == m - 1 && AlwaysLast(m - 1, rnd, drawn + 1))
  }

  lemma {:induction false} PositionsBelow(m: nat, rnd: nat -> nat, drawn: nat)
    ensures forall p :: p in Positions(m, rnd, drawn) ==> p < m
  {
    if m > 0 {
      PositionsBelow(m - 1, rnd, drawn + 1);
    }
  }

  ghost predicate Covers(ps: seq<nat>, m: nat) {
    forall p: nat :: p < m ==> p in ps
  }

  lemma HeadCovers(i: nat, rest: seq<nat>, m: nat)
    requires i < m && forall p :: p in rest ==> p < m - 1
    ensures Covers([i] + rest, m) <==> i == m - 1 && Covers(rest, m - 1)
  {
    var ps := [i] + rest;
    assert forall p: nat :: p in ps <==> p == i || p in rest;
    if Covers(ps, m) {
      assert m - 1 in ps;
    }
  }

  /** All positions are drawn exactly when every draw takes the last one: each draw can reach one position less. */
  lemma {:induction false} CoveredIffAlwaysLast(m: nat, rnd: nat -> nat, drawn: nat)
    ensures Covers(Positions(m, rnd, drawn), m) <==> AlwaysLast(m, rnd, drawn)
  {
    if m > 0 {
      PositionsBelow(m - 1, rnd, drawn + 1);
      CoveredIffAlwaysLast(m - 1, rnd, drawn + 1);
      HeadCovers(rnd(drawn) % m, Positions(m - 1, rnd, drawn + 1), m);
    }
  }

  /** A loop that misses its quota goes on after its first draw. */
  lemma GoesOn(e: Edition, s: State, donor: nat, nd: nat, working: seq<nat>, quota: int, rnd: nat -> nat, drawn: nat)
    requires donor < |s.devices| && nd < |s.devices| && donor != nd && !e.drawsFromCopy && quota >= 1
    requires 0 < |working| <= |s.devices[donor].listed|
    requires MissesQuota(s, MoveFrom(e, s, donor, nd, working, quota, rnd, drawn), nd, quota)
    ensures var i := rnd(drawn) % |working|;
            var list := s.devices[donor].listed;
            MoveOne(e, s, donor, list[i], nd).Ok? &&
            var (s', moved) := MoveOne(e, s, donor, list[i], nd).value;
            var quota' := if moved then quota - 1 else quota;
            && quota' >= 1 && |s'.devices| == |s.devices| && s'.devices[donor].listed == list
            && MissesQuota(s', MoveFrom(e, s', donor, nd, RemoveAt(working, i), quota', rnd, drawn + 1), nd, quota')
            && Tried(e, s, donor, nd, working, quota, rnd, drawn) ==
               [list[i]] + Tried(e, s', donor, nd, RemoveAt(working, i), quota', rnd, drawn + 1)
  {
    MoveOneIs(e, s, donor, s.devices[donor].listed[rnd(drawn) % |working|], nd);
  }

  ghost predicate MissesQuota(s: State, r: Outcome<Draws>, nd: nat, quota: int) {
    nd < |s.devices| && r.Ok? && nd < |r.value.s.devices| && Gained(s, r.value.s, nd) < quota
  }

  /** Such a loop looks at as many vnodes as it has to choose from. */
  lemma {:induction false} TriedAsMany(e: Edition, s: State, donor: nat, nd: nat, working: seq<nat>, quota: int,
                                       rnd: nat -> nat, drawn: nat)
    requires donor < |s.devices| && nd < |s.devices| && donor != nd && !e.drawsFromCopy && quota >= 1
    requires |working| <= |s.devices[donor].listed|
    requires MissesQuota(s, MoveFrom(e, s, donor, nd, working, quota, rnd, drawn), nd, quota)
    ensures |Tried(e, s, donor, nd, working, quota, rnd, drawn)| == |working|
    decreases |working|
  {
    if working != [] {
      var i := rnd(drawn) % |working|;
      GoesOn(e, s, donor, nd, working, quota, rnd, drawn);
      var (s', moved) := MoveOne(e, s, donor, s.devices[donor].listed[i], nd).value;
      TriedAsMany(e, s', donor, nd, RemoveAt(working, i), if moved then quota - 1 else quota, rnd, drawn + 1);
    }
  }

  /** The vnodes tried are those at the first positions. */
  ghost predicate TriedAt(list: seq<nat>, ps: seq<nat>, ts: seq<nat>) {
    |ts| <= |ps| && forall k :: 0 <= k < |ts| ==> ps[k] < |list| && ts[k] == list[ps[k]]
  }

  lemma TriedCons(list: seq<nat>, i: nat, ps: seq<nat>, ts: seq<nat>)
    requires i < |list|
    ensures TriedAt(list, [i] + ps, [list[i]])
    ensures TriedAt(list, ps, ts) ==> TriedAt(list, [i] + ps, [list[i]] + ts)
  {
  }

  lemma MoveOneSame(e: Edition, s: State, donor: nat, v: nat, nd: nat)
    requires donor < |s.devices| && nd < |s.devices| && donor != nd && MoveOne(e, s, donor, v, nd).Ok?
    ensures var s' := MoveOne(e, s, donor, v, nd).value.0;
            |s'.devices| == |s.devices| && s'.devices[donor].listed == s.devices[donor].listed
  {
  }

  /** As written, a loop looks at the drawn positions of the donor's list. */
  lemma {:induction false} TriedPositions(e: Edition, s: State, donor: nat, nd: nat, working: seq<nat>, quota: int,
                                          rnd: nat -> nat, drawn: nat)
    requires donor < |s.devices| && nd < |s.devices| && donor != nd && !e.drawsFromCopy
    requires |working| <= |s.devices[donor].listed|
    ensures TriedAt(s.devices[donor].listed, Positions(|working|, rnd, drawn),
                    Tried(e, s, donor, nd, working, quota, rnd, drawn))
    decreases |working|
  {
    if working != [] {
      var i := rnd(drawn) % |working|;
      var list := s.devices[donor].listed;
      var ps := Positions(|working| - 1, rnd, drawn + 1);
      var r := MoveOne(e, s, donor, list[i], nd);
      if r.Ok? && !(r.value.1 && quota <= 1) {
        MoveOneSame(e, s, donor, list[i], nd);
        var quota' := if r.value.1 then quota - 1 else quota;
        TriedPositions(e, r.value.0, donor, nd, RemoveAt(working, i), quota', rnd, drawn + 1);
        TriedCons(list, i, ps, Tried(e, r.value.0, donor, nd, RemoveAt(working, i), quota', rnd, drawn + 1));
      } else {
        TriedCons(list, i, ps, []);
      }
    }
  }

  /**
   As written, a donor's turn that misses its quota has looked at every vnode of the donor exactly when every
   random draw was the last position left.
   */
  lemma TurnTriesAllIffAlwaysLast(e: Edition, s: State, donor: nat, nd: nat, avg: int, rnd: nat -> nat, drawn: nat)
    requires Inv(e, s) && !e.drawsFromCopy && donor < nd < |s.devices|
             && DonorTurn(e, s, donor, nd, avg, rnd, drawn).Ok?
    requires Quota(s.devices[donor], avg) > Gained(s, DonorTurn(e, s, donor, nd, avg, rnd, drawn).value.s, nd)
    requires Quota(s.devices[donor], avg) > 0
    ensures var list := s.devices[donor].listed;
            var ts := Tried(e, s, donor, nd, list, Quota(s.devices[donor], avg), rnd, drawn);
            (forall v :: v in list ==> v in ts) <==> AlwaysLast(|list|, rnd, drawn)
  {
    var list := s.devices[donor].listed;
    var ts := Tried(e, s, donor, nd, list, Quota(s.devices[donor], avg), rnd, drawn);
    var ps := Positions(|list|, rnd, drawn);
    TriedPositions(e, s, donor, nd, list, Quota(s.devices[donor], avg), rnd, drawn);
    TriedAsMany(e, s, donor, nd, list, Quota(s.devices[donor], avg), rnd, drawn);
    CoveredIffAlwaysLast(|list|, rnd, drawn);
    ListedOnce(e, s, donor);
    TriedCovers(list, ps, ts);
  }

  lemma TriedCovers(list: seq<nat>, ps: seq<nat>, ts: seq<nat>)
    requires TriedAt(list, ps, ts) && |ts| == |ps|
    requires forall i, j :: 0 <= i < j < |list| ==> list[i] != list[j]
    ensures (forall v :: v in list ==> v in ts) <==> Covers(ps, |list|)
  {
    if forall v :: v in list ==> v in ts {
      forall p: nat | p < |list|
        ensures p in ps
      {
        assert list[p] in ts;
        var k :| 0 <= k < |ts| && ts[k] == list[p];
        assert ps[k] == p;
      }
    }
    if Covers(ps, |list|) {
      forall v | v in list
        ensures v in ts
      {
        var p: nat :| p < |list| && list[p] == v;
        assert p in ps;
        var k :| 0 <= k < |ps| && ps[k] == p;
        assert ts[k] == v;
      }
    }
  }

  // ---------------------------------------------------------------------------------------------
  // The whole join
  // ---------------------------------------------------------------------------------------------

  /** No vnode is moved twice in one join: the joining device lists no vnode twice. */
  lemma NoneMovedTwice(e: Edition, s: State, zone: int, weight: int, rnd: nat -> nat)
    requires Inv(e, s) && MoveJoin(e, s, zone, weight, rnd).Ok?
    ensures var s' := MoveJoin(e, s, zone, weight, rnd).value;
            && |s'.devices| == |s.devices| + 1
            && var list := s'.devices[|s.devices|].listed;
               forall i, j :: 0 <= i < j < |list| ==> list[i] != list[j]
  {
    var avg := Truncated(TotalCount(s.devices), TotalWeight(s.devices) + weight);
    MoveJoinIs(e, s, zone, weight, rnd, avg);
    AddDeviceKeeps(e, s, zone, weight);
    MoveDonorsKeeps(e, AddDevice(s, zone, weight), |s.devices|, avg, rnd);
    ListedOnce(e, MoveJoin(e, s, zone, weight, rnd).value, |s.devices|);
  }

  /** What a device is asked for. */
  function Allowance(dev: Device, avg: int): nat {
    if Quota(dev, avg) > 0 then Quota(dev, avg) else 0
  }

  /** What the donors below `d` are asked for. */
  function QuotasBelow(devices: seq<Device>, d: nat, avg: int): nat
    requires d <= |devices|
  {
    if d == 0 then 0 else QuotasBelow(devices, d - 1, avg) + Allowance(devices[d - 1], avg)
  }

  lemma {:induction false} TotalQuotaAppend(devices: seq<Device>, dev: Device, avg: int)
    ensures TotalQuota(devices + [dev], avg) == TotalQuota(devices, avg) + Allowance(dev, avg)
  {
    if devices != [] {
      TotalQuotaAppend(devices[1..], dev, avg);
      assert (devices + [dev])[1..] == devices[1..] + [dev];
    } else {
      assert [dev][1..] == [];
    }
  }

  lemma {:induction false} QuotasBelowIs(devices: seq<Device>, d: nat, avg: int)
    requires d <= |devices|
    ensures QuotasBelow(devices, d, avg) == TotalQuota(devices[..d], avg)
  {
    if d > 0 {
      QuotasBelowIs(devices, d - 1, avg);
      assert devices[..d] == devices[..d - 1] + [devices[d - 1]];
      TotalQuotaAppend(devices[..d - 1], devices[d - 1], avg);
    }
  }

  /** The donors are as they were, as far as their quotas go. */
  ghost predicate SameDonors(s: State, s': State, nd: nat) {
    && nd < |s.devices| == |s'.devices|
    && forall d: nat :: d < nd ==>
         s'.devices[d].listed == s.devices[d].listed && s'.devices[d].weight == s.devices[d].weight
  }

  /** Some donor below `d` is over its quota and has no vnode left that could be moved. */
  ghost predicate SomeExhausted(s: State, d: nat, nd: nat, avg: int) {
    exists c: nat :: c < d <= nd < |s.devices| && Quota(s.devices[c], avg) > 0
      && NoneMovable(s, c, nd, s.devices[c].listed)
  }

  /** A vnode that cannot be moved stays so while any donor gives. */
  lemma UnmovableStays(s: State, donor: nat, w: nat, d: nat, nd: nat, v: nat)
    requires donor < nd < |s.devices| && d < nd && w < |s.vnodes| && v < |s.vnodes|
    requires Movable(s, donor, w, nd) && !Movable(s, d, v, nd)
    ensures var s' := MovedState(s, donor, w, nd); SameSizes(s, s') && !Movable(s', d, v, nd)
  {
    MovedIs(s, donor, w, nd);
    assert w in s.devices[nd].listed + [w];
  }

  lemma ExhaustedStays(e: Edition, s: State, donor: nat, v: nat, d: nat, nd: nat, list: seq<nat>)
    requires donor < nd < |s.devices| && d < nd && NoneMovable(s, d, nd, list) && MoveOne(e, s, donor, v, nd).Ok?
    ensures var s' := MoveOne(e, s, donor, v, nd).value.0; SameDonors(s, s', nd) && NoneMovable(s', d, nd, list)
  {
    MoveOneIs(e, s, donor, v, nd);
    assert v in [v];
    if Movable(s, donor, v, nd) {
      forall w | w in list && w < |s.vnodes|
        ensures !Movable(MovedState(s, donor, v, nd), d, w, nd)
      {
        UnmovableStays(s, donor, v, d, nd, w);
      }
    }
  }

  /** A donor's turn leaves an exhausted donor exhausted. */
  lemma TurnLeavesExhausted(e: Edition, s: State, donor: nat, d: nat, nd: nat, avg: int, rnd: nat -> nat, drawn: nat)
    requires donor < nd < |s.devices| && d < nd && NoneMovable(s, d, nd, s.devices[d].listed)
    ensures var r := DonorTurn(e, s, donor, nd, avg, rnd, drawn);
            r.Ok? ==> SameDonors(s, r.value.s, nd) && NoneMovable(r.value.s, d, nd, s.devices[d].listed)
  {
    var P := x => SameDonors(s, x, nd) && NoneMovable(x, d, nd, s.devices[d].listed);
    forall x: State, c: nat, v: nat | P(x) && c < |x.devices| && v in x.devices[c].listed
      ensures MoveKeeps(P, false, e, x, c, v, nd)
    {
      if c < nd < |x.devices| && MoveOne(e, x, c, v, nd).Ok? {
        ExhaustedStays(e, x, c, v, d, nd, s.devices[d].listed);
      }
    }
    TurnInduction(P, false, e, s, donor, nd, avg, rnd, drawn);
  }

  lemma TurnKeepsDonors(e: Edition, s: State, donor: nat, nd: nat, avg: int, rnd: nat -> nat, drawn: nat)
    requires donor < nd < |s.devices|
    ensures var r := DonorTurn(e, s, donor, nd, avg, rnd, drawn); r.Ok? ==> SameDonors(s, r.value.s, nd)
  {
    var P := x => SameDonors(s, x, nd);
    forall x: State, c: nat, v: nat | P(x) && c < |x.devices| && v in x.devices[c].listed
      ensures MoveKeeps(P, false, e, x, c, v, nd)
    {
      if c < nd < |x.devices| {
        MoveOneIs(e, x, c, v, nd);
      }
    }
    TurnInduction(P, false, e, s, donor, nd, avg, rnd, drawn);
  }

  lemma TurnKeepsInv(e: Edition, s: State, donor: nat, nd: nat, avg: int, rnd: nat -> nat, drawn: nat)
    requires Inv(e, s) && donor < nd < |s.devices|
    ensures var r := DonorTurn(e, s, donor, nd, avg, rnd, drawn); r.Ok? ==> Inv(e, r.value.s)
  {
    var P := x => Inv(e, x);
    forall x: State, c: nat, v: nat | P(x) && c < |x.devices| && v in x.devices[c].listed
      ensures MoveKeeps(P, false, e, x, c, v, nd)
    {
      if c < nd < |x.devices| {
        MoveOneKeeps(e, x, c, v, nd);
      }
    }
    TurnInduction(P, false, e, s, donor, nd, avg, rnd, drawn);
  }

  /** The turns below `d` filled all their quotas, or left some donor exhausted. */
  ghost predicate Filled(s: State, x: State, d: nat, nd: nat, avg: int) {
    && SameDonors(s, x, nd) && d <= nd
    && (Gained(s, x, nd) >= QuotasBelow(s.devices, d, avg) || SomeExhausted(x, d, nd, avg))
  }

  /** A turn fills its quota or exhausts its donor. */
  lemma TurnFills(e: Edition, s: State, donor: nat, nd: nat, avg: int, rnd: nat -> nat, drawn: nat)
    requires Inv(e, s) && e.drawsFromCopy && donor < nd < |s.devices| && DonorTurn(e, s, donor, nd, avg, rnd, drawn).Ok?
    ensures var s1 := DonorTurn(e, s, donor, nd, avg, rnd, drawn).value.s;
            || Gained(s, s1, nd) == Allowance(s.devices[donor], avg)
            || (Quota(s.devices[donor], avg) > 0 && NoneMovable(s1, donor, nd, s.devices[donor].listed))
  {
    if Quota(s.devices[donor], avg) > 0 {
      TurnExhausts(e, s, donor, nd, avg, rnd, drawn);
    }
  }

  lemma FilledNext(e: Edition, s: State, x: State, d: nat, nd: nat, avg: int, rnd: nat -> nat, drawn: nat)
    requires Inv(e, x) && e.drawsFromCopy && d < nd && Filled(s, x, d, nd, avg)
             && DonorTurn(e, x, d, nd, avg, rnd, drawn).Ok?
    ensures Filled(s, DonorTurn(e, x, d, nd, avg, rnd, drawn).value.s, d + 1, nd, avg)
  {
    var y := DonorTurn(e, x, d, nd, avg, rnd, drawn).value.s;
    TurnKeepsDonors(e, x, d, nd, avg, rnd, drawn);
    TurnFills(e, x, d, nd, avg, rnd, drawn);
    if SomeExhausted(x, d, nd, avg) {
      var c: nat :| c < d <= nd < |x.devices| && Quota(x.devices[c], avg) > 0
        && NoneMovable(x, c, nd, x.devices[c].listed);
      TurnLeavesExhausted(e, x, d, c, nd, avg, rnd, drawn);
      assert c < d + 1;
    }
  }

  lemma JoinFills(e: Edition, s: State, nd: nat, avg: int, rnd: nat -> nat)
    requires Inv(e, s) && e.drawsFromCopy && nd < |s.devices|
    ensures var r := MoveDonors(e, s, 0, nd, avg, rnd, 0); r.Ok? ==> Filled(s, r.value, nd, nd, avg)
  {
    var P := (d: nat, x: State) => Inv(e, x) && Filled(s, x, d, nd, avg);
    forall x: State, d: nat, drawn: nat | P(d, x)
      ensures TurnKeeps(P, e, x, d, nd, avg, rnd, drawn)
    {
      if d < nd < |x.devices| && DonorTurn(e, x, d, nd, avg, rnd, drawn).Ok? {
        TurnKeepsInv(e, x, d, nd, avg, rnd, drawn);
        FilledNext(e, s, x, d, nd, avg, rnd, drawn);
      }
    }
    TurnsInduction(P, e, s, 0, nd, avg, rnd, 0);
  }

  /**
   Repaired, a moving join gives the joining device its share, at least avg * weight vnodes, unless it ends with some
   donor that is over its quota and has no vnode left that could be moved.
   */
  lemma JoinerGetsItsShare(e: Edition, s: State, zone: int, weight: int, rnd: nat -> nat, avg: int)
    requires Inv(e, s) && e.drawsFromCopy && TotalWeight(s.devices) + weight != 0
    requires avg == Truncated(TotalCount(s.devices), TotalWeight(s.devices) + weight)
    requires MoveJoin(e, s, zone, weight, rnd).Ok?
    ensures var (s', nd) := (MoveJoin(e, s, zone, weight, rnd).value, |s.devices|);
            && |s'.devices| == nd + 1 && (|s'.devices[nd].listed| >= avg * weight || SomeExhausted(s', nd, nd, avg))
  {
    QuotasSuffice(s.devices, weight);
    ShareAtLeast(e, s, zone, weight, avg, rnd, avg * weight);
  }

  lemma ShareAtLeast(e: Edition, s: State, zone: int, weight: int, avg: int, rnd: nat -> nat, share: int)
    requires Inv(e, s) && e.drawsFromCopy && MoveJoin(e, s, zone, weight, rnd).Ok?
             && TotalWeight(s.devices) + weight != 0
    requires avg == Truncated(TotalCount(s.devices), TotalWeight(s.devices) + weight)
             && TotalQuota(s.devices, avg) >= share
    ensures var (s', nd) := (MoveJoin(e, s, zone, weight, rnd).value, |s.devices|);
            && |s'.devices| == nd + 1 && (|s'.devices[nd].listed| >= share || SomeExhausted(s', nd, nd, avg))
  {
    MoveJoinIs(e, s, zone, weight, rnd, avg);
    ShareIsQuotas(e, s, zone, weight, avg, rnd);
  }

  lemma ShareIsQuotas(e: Edition, s: State, zone: int, weight: int, avg: int, rnd: nat -> nat)
    requires var s1 := AddDevice(s, zone, weight);
             Inv(e, s) && e.drawsFromCopy && |s.devices| < |s1.devices|
               && MoveDonors(e, s1, 0, |s.devices|, avg, rnd, 0).Ok?
    ensures var (s', nd) := (MoveDonors(e, AddDevice(s, zone, weight), 0, |s.devices|, avg, rnd, 0).value, |s.devices|);
            && |s'.devices| == nd + 1
            && (|s'.devices[nd].listed| >= TotalQuota(s.devices, avg) || SomeExhausted(s', nd, nd, avg))
  {
    var s1 := AddDevice(s, zone, weight);
    AddDeviceKeeps(e, s, zone, weight);
    JoinFills(e, s1, |s.devices|, avg, rnd);
    QuotasBelowIs(s1.devices, |s.devices|, avg);
    assert s1.devices[..|s.devices|] == s.devices;
  }

  // ---------------------------------------------------------------------------------------------
  // Marks
  // ---------------------------------------------------------------------------------------------

  /** The vnodes a device is giving up. */
  ghost function Marked(s: State, d: nat): set<nat> {
    set v: nat | v < |s.vnodes| && StatusOf(s.vnodes[v].replicas, d) == Some(MoveSrc)
  }

  lemma MovedMarks(s: State, donor: nat, v: nat, nd: nat, d: nat)
    requires donor < nd < |s.devices| && d < nd && v < |s.vnodes| && Movable(s, donor, v, nd)
    requires Distinct(s.vnodes[v].replicas) && StatusOf(s.vnodes[v].replicas, nd).None?
    ensures v !in Marked(s, donor)
    ensures Marked(MovedState(s, donor, v, nd), d) == if d == donor then Marked(s, d) + {v} else Marked(s, d)
  {
    MovedIs(s, donor, v, nd);
    PlantingIs(s.vnodes[v].replicas, donor, nd, MoveSrc);
  }

  /** A look marks at most the one vnode on the donor, and none on another device. */
  lemma MoveOneMarks(e: Edition, s: State, donor: nat, v: nat, nd: nat, d: nat)
    requires Inv(e, s) && donor < nd < |s.devices| && d < nd && MoveOne(e, s, donor, v, nd).Ok?
    ensures var (s', moved) := MoveOne(e, s, donor, v, nd).value;
            MarksAtMost(s, s', d, if moved && d == donor then 1 else 0)
  {
    MoveOneIs(e, s, donor, v, nd);
    assert v in [v];
    if Movable(s, donor, v, nd) {
      assert VnodeInv(e, s.devices, s.vnodes[v].replicas, v);
      assert multiset(s.devices[nd].listed)[v] == 0;
      MovedMarks(s, donor, v, nd, d);
    }
  }

  lemma AnyMoveKeeps(e: Edition, s: State, donor: nat, v: nat, nd: nat)
    requires Inv(e, s) && donor < nd < |s.devices| && MoveOne(e, s, donor, v, nd).Ok?
    ensures var s' := MoveOne(e, s, donor, v, nd).value.0; Inv(e, s') && SameSizes(s, s')
  {
    MoveOneIs(e, s, donor, v, nd);
    assert v in [v];
    if Movable(s, donor, v, nd) {
      MovedKeeps(e, s, donor, v, nd);
    }
  }

  lemma MarksAdd(s: State, s1: State, s': State, d: nat, n: int, m: int)
    requires MarksAtMost(s, s1, d, n) && MarksAtMost(s1, s', d, m)
    ensures MarksAtMost(s, s', d, n + m)
  {
  }

  /** On the way: so many marks at most. */
  ghost predicate Marking(e: Edition, s: State, x: State, d: nat, n: int) {
    Inv(e, x) && |x.devices| == |s.devices| && MarksAtMost(s, x, d, n)
  }

  lemma MarkingLook(e: Edition, s: State, x: State, donor: nat, v: nat, nd: nat, d: nat, n: int)
    requires Marking(e, s, x, d, n) && donor < nd < |x.devices| && d < nd && MoveOne(e, x, donor, v, nd).Ok?
    ensures var (y, moved) := MoveOne(e, x, donor, v, nd).value;
            Marking(e, s, y, d, if moved && d == donor then n + 1 else n)
  {
    AnyMoveKeeps(e, x, donor, v, nd);
    MoveOneMarks(e, x, donor, v, nd, d);
    var (y, moved) := MoveOne(e, x, donor, v, nd).value;
    MarksAdd(s, x, y, d, n, if moved && d == donor then 1 else 0);
  }

  /** Of the donor's quota `left` is left, and each mark used one of it. */
  ghost predicate MarkingLeft(e: Edition, s: State, x: State, donor: nat, d: nat, quota: int, left: int) {
    left <= quota && Marking(e, s, x, d, if d == donor then quota - left else 0)
  }

  lemma MarkingLeftNext(e: Edition, s: State, x: State, donor: nat, v: nat, nd: nat, d: nat, quota: int, left: int)
    requires MarkingLeft(e, s, x, donor, d, quota, left) && left >= 1 && donor < nd < |x.devices| && d < nd
    requires MoveOne(e, x, donor, v, nd).Ok?
    ensures var (y, moved) := MoveOne(e, x, donor, v, nd).value;
            MarkingLeft(e, s, y, donor, d, quota, if moved then left - 1 else left)
  {
    MarkingLook(e, s, x, donor, v, nd, d, if d == donor then quota - left else 0);
  }

  lemma MarkingLeftLook(e: Edition, s: State, x: State, donor: nat, v: nat, nd: nat, d: nat, quota: int, left: int)
    requires MarkingLeft(e, s, x, donor, d, quota, left) && left >= 1 && donor < nd < |x.devices| && d < nd
    ensures LookKeeps((q: int, y: State) => MarkingLeft(e, s, y, donor, d, quota, q), e, x, donor, v, nd, left)
  {
    if MoveOne(e, x, donor, v, nd).Ok? {
      MarkingLeftNext(e, s, x, donor, v, nd, d, quota, left);
    }
  }

  lemma MoveFromMarks(e: Edition, s: State, donor: nat, nd: nat, working: seq<nat>, quota: int, rnd: nat -> nat,
                      drawn: nat, d: nat)
    requires Inv(e, s) && donor < nd < |s.devices| && d < nd && quota >= 1
    requires |working| <= |s.devices[donor].listed|
    ensures var r := MoveFrom(e, s, donor, nd, working, quota, rnd, drawn);
            r.Ok? ==> Marking(e, s, r.value.s, d, if d == donor then quota else 0)
  {
    var P := (q: int, x: State) => MarkingLeft(e, s, x, donor, d, quota, q);
    forall x: State, v: nat, q: int | P(q, x) && q >= 1
      ensures LookKeeps(P, e, x, donor, v, nd, q)
    {
      if nd < |x.devices| {
        MarkingLeftLook(e, s, x, donor, v, nd, d, quota, q);
      }
    }
    assert MarkingLeft(e, s, s, donor, d, quota, quota);
    QuotaInduction(P, e, s, donor, nd, working, quota, rnd, drawn);
    var r := MoveFrom(e, s, donor, nd, working, quota, rnd, drawn);
    if r.Ok? {
      var q :| 0 <= q && P(q, r.value.s);
      MarkingMore(e, s, r.value.s, donor, d, quota, q);
    }
  }

  lemma MarkingMore(e: Edition, s: State, x: State, donor: nat, d: nat, quota: int, left: int)
    requires MarkingLeft(e, s, x, donor, d, quota, left) && left >= 0
    ensures Marking(e, s, x, d, if d == donor then quota else 0)
  {
  }

  /** At most so many new marks on `d`, and none of the old ones gone. */
  ghost predicate MarksAtMost(s: State, s': State, d: nat, n: int) {
    Marked(s, d) <= Marked(s', d) && |Marked(s', d)| <= |Marked(s, d)| + n
  }

  lemma TurnMarks(e: Edition, s: State, donor: nat, nd: nat, avg: int, rnd: nat -> nat, drawn: nat, d: nat)
    requires Inv(e, s) && donor < nd < |s.devices| && d < nd
    ensures var r := DonorTurn(e, s, donor, nd, avg, rnd, drawn);
            r.Ok? ==> Marking(e, s, r.value.s, d, if d == donor then Allowance(s.devices[d], avg) else 0)
  {
    if Quota(s.devices[donor], avg) > 0 {
      MoveFromMarks(e, s, donor, nd, s.devices[donor].listed, Quota(s.devices[donor], avg), rnd, drawn, d);
    }
  }

  /** After the turns below `c`: as many marks on `d` as it is allowed, once it had its turn. */
  ghost predicate MarkedSoFar(e: Edition, s: State, x: State, d: nat, c: nat, nd: nat, avg: int) {
    && SameDonors(s, x, nd) && d < nd
    && Marking(e, s, x, d, if d < c then Allowance(s.devices[d], avg) else 0)
  }

  lemma MarkedNext(e: Edition, s: State, x: State, d: nat, c: nat, nd: nat, avg: int, rnd: nat -> nat, drawn: nat)
    requires MarkedSoFar(e, s, x, d, c, nd, avg) && c < nd && DonorTurn(e, x, c, nd, avg, rnd, drawn).Ok?
    ensures MarkedSoFar(e, s, DonorTurn(e, x, c, nd, avg, rnd, drawn).value.s, d, c + 1, nd, avg)
  {
    TurnKeepsDonors(e, x, c, nd, avg, rnd, drawn);
    TurnMarks(e, x, c, nd, avg, rnd, drawn, d);
    var y, allowed := DonorTurn(e, x, c, nd, avg, rnd, drawn).value.s, Allowance(s.devices[d], avg);
    assert Allowance(x.devices[d], avg) == allowed;
    MarksAdd(s, x, y, d, if d < c then allowed else 0, if d == c then allowed else 0);
  }

  lemma DonorsMark(e: Edition, s: State, nd: nat, avg: int, rnd: nat -> nat, d: nat)
    requires Inv(e, s) && d < nd < |s.devices|
    ensures var r := MoveDonors(e, s, 0, nd, avg, rnd, 0);
            r.Ok? ==> MarksAtMost(s, r.value, d, Allowance(s.devices[d], avg))
  {
    var P := (c: nat, x: State) => MarkedSoFar(e, s, x, d, c, nd, avg);
    forall x: State, c: nat, drawn: nat | P(c, x)
      ensures TurnKeeps(P, e, x, c, nd, avg, rnd, drawn)
    {
      if c < nd < |x.devices| && DonorTurn(e, x, c, nd, avg, rnd, drawn).Ok? {
        MarkedNext(e, s, x, d, c, nd, avg, rnd, drawn);
      }
    }
    TurnsInduction(P, e, s, 0, nd, avg, rnd, 0);
  }

  /**
   Over a whole moving join, a donor marks no more vnodes MOVE_SRC than it holds over its share, and none if it holds
   less.
   */
  lemma MarksWithinQuota(e: Edition, s: State, zone: int, weight: int, rnd: nat -> nat, d: nat, avg: int)
    requires Inv(e, s) && d < |s.devices| && TotalWeight(s.devices) + weight != 0
    requires avg == Truncated(TotalCount(s.devices), TotalWeight(s.devices) + weight)
    requires MoveJoin(e, s, zone, weight, rnd).Ok?
    ensures MarksAtMost(s, MoveJoin(e, s, zone, weight, rnd).value, d, Allowance(s.devices[d], avg))
  {
    MoveJoinIs(e, s, zone, weight, rnd, avg);
    JoinMarks(e, s, zone, weight, avg, rnd, d);
  }

  lemma JoinMarks(e: Edition, s: State, zone: int, weight: int, avg: int, rnd: nat -> nat, d: nat)
    requires var s1 := AddDevice(s, zone, weight);
             Inv(e, s) && d < |s.devices| < |s1.devices| && MoveDonors(e, s1, 0, |s.devices|, avg, rnd, 0).Ok?
    ensures MarksAtMost(s, MoveDonors(e, AddDevice(s, zone, weight), 0, |s.devices|, avg, rnd, 0).value, d,
                        Allowance(s.devices[d], avg))
  {
    AddDeviceKeeps(e, s, zone, weight);
    DonorsMark(e, AddDevice(s, zone, weight), |s.devices|, avg, rnd, d);
    assert Marked(AddDevice(s, zone, weight), d) == Marked(s, d);
  }
}
