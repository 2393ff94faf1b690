/**
 Induction over the loops of a join: what every single copy or move keeps, the whole loop keeps.
 */
module JoinInduction {
  import opened ProxyTypes
  import opened NodeInfo
  import opened NodeObjects
  import opened Protocol

  // ---------------------------------------------------------------------------------------------
  // Copies
  // ---------------------------------------------------------------------------------------------

  /** From here, `r` keeps `P` (with `sure`, without a fault). */
  ghost predicate Ends(P: State -> bool, sure: bool, r: Outcome<State>) {
    (sure ==> r.Ok?) && (r.Ok? ==> P(r.value))
  }

  /** `P(s, v)` is what holds when the vnodes below `v` are done. */
  ghost predicate CopyKeeps(P: (State, nat) -> bool, s: State, v: nat, nd: nat) {
    v < |s.vnodes| && nd < |s.devices| ==> CopyOne(s, v, nd).Ok? && P(CopyOne(s, v, nd).value, v + 1)
  }

  ghost predicate EveryCopyKeeps(P: (State, nat) -> bool, nd: nat) {
    forall s: State, v: nat :: P(s, v) ==> CopyKeeps(P, s, v, nd)
  }

  lemma CopyOneShape(s: State, v: nat, nd: nat)
    requires v < |s.vnodes| && nd < |s.devices| && CopyOne(s, v, nd).Ok?
    ensures var s' := CopyOne(s, v, nd).value; |s'.vnodes| == |s.vnodes| && |s'.devices| == |s.devices|
  {
  }

  lemma {:induction false} CopyInduction(P: (State, nat) -> bool, s: State, v: nat, nd: nat)
    requires EveryCopyKeeps(P, nd) && P(s, v) && v <= |s.vnodes| && nd < |s.devices|
    ensures CopyFrom(s, v, nd).Ok? && P(CopyFrom(s, v, nd).value, |s.vnodes|)
    decreases |s.vnodes| - v
  {
    if v < |s.vnodes| {
      assert CopyKeeps(P, s, v, nd);
      CopyOneShape(s, v, nd);
      CopyInduction(P, CopyOne(s, v, nd).value, v + 1, nd);
    }
  }

  // ---------------------------------------------------------------------------------------------
  // Moves
  // ---------------------------------------------------------------------------------------------

  ghost predicate MoveKeeps(P: State -> bool, sure: bool, e: Edition, s: State, donor: nat, v: nat, nd: nat) {
    donor < nd < |s.devices| ==>
      var r := MoveOne(e, s, donor, v, nd);
      (sure ==> r.Ok?) && (r.Ok? ==> P(r.value.0))
  }

  ghost predicate EveryMoveKeeps(P: State -> bool, sure: bool, e: Edition, nd: nat) {
    forall s: State, donor: nat, v: nat ::
      P(s) && donor < |s.devices| && v in s.devices[donor].listed ==> MoveKeeps(P, sure, e, s, donor, v, nd)
  }

  ghost predicate DrawsKeep(P: State -> bool, sure: bool, r: Outcome<Draws>) {
    (sure ==> r.Ok?) && (r.Ok? ==> P(r.value.s))
  }

  lemma MoveOneShape(e: Edition, s: State, donor: nat, v: nat, nd: nat)
    requires donor < nd < |s.devices| && MoveOne(e, s, donor, v, nd).Ok?
    ensures var s' := MoveOne(e, s, donor, v, nd).value.0;
            |s'.devices| == |s.devices| && s'.devices[donor].listed == s.devices[donor].listed
  {
  }

  lemma {:induction false} MoveFromInduction(P: State -> bool, sure: bool, e: Edition, s: State, donor: nat, nd: nat,
                                             working: seq<nat>, quota: int, rnd: nat -> nat, drawn: nat)
    requires EveryMoveKeeps(P, sure, e, nd) && P(s) && donor < nd < |s.devices|
    requires |working| <= |s.devices[donor].listed| && forall v :: v in working ==> v in s.devices[donor].listed
    ensures DrawsKeep(P, sure, MoveFrom(e, s, donor, nd, working, quota, rnd, drawn))
    decreases |working|
  {
    if working != [] {
      var i := rnd(drawn) % |working|;
      var v := if e.drawsFromCopy then working[i] else s.devices[donor].listed[i];
      assert v in s.devices[donor].listed;
      assert MoveKeeps(P, sure, e, s, donor, v, nd);
      var r := MoveOne(e, s, donor, v, nd);
      if r.Ok? {
        MoveOneShape(e, s, donor, v, nd);
        var (s', moved) := r.value;
        if !(moved && quota <= 1) {
          MoveFromInduction(P, sure, e, s', donor, nd, RemoveAt(working, i), if moved then quota - 1 else quota, rnd,
                            drawn + 1);
        }
      }
    }
  }

  lemma TurnInduction(P: State -> bool, sure: bool, e: Edition, s: State, donor: nat, nd: nat, avg: int,
                      rnd: nat -> nat, drawn: nat)
    requires EveryMoveKeeps(P, sure, e, nd) && P(s) && donor < nd < |s.devices|
    ensures DrawsKeep(P, sure, DonorTurn(e, s, donor, nd, avg, rnd, drawn))
  {
    MoveFromInduction(P, sure, e, s, donor, nd, s.devices[donor].listed, Quota(s.devices[donor], avg), rnd, drawn);
  }

  lemma {:induction false} MoveInduction(P: State -> bool, sure: bool, e: Edition, s: State, donor: nat, nd: nat,
                                         avg: int, rnd: nat -> nat, drawn: nat)
    requires EveryMoveKeeps(P, sure, e, nd) && P(s) && donor <= nd < |s.devices|
    ensures Ends(P, sure, MoveDonors(e, s, donor, nd, avg, rnd, drawn))
    decreases nd - donor
  {
    if donor < nd {
      TurnInduction(P, sure, e, s, donor, nd, avg, rnd, drawn);
      var r := DonorTurn(e, s, donor, nd, avg, rnd, drawn);
      if r.Ok? {
        MoveInduction(P, sure, e, r.value.s, donor + 1, nd, avg, rnd, r.value.drawn);
      }
    }
  }

  // ---------------------------------------------------------------------------------------------
  // Turn by turn
  // ---------------------------------------------------------------------------------------------

  /** `P(d, s)` is what holds when the turns of the donors below `d` are over. */
  ghost predicate TurnKeeps(P: (nat, State) -> bool, e: Edition, s: State, d: nat, nd: nat, avg: int,
                            rnd: nat -> nat, drawn: nat)
  {
    d < nd < |s.devices| ==>
      var r := DonorTurn(e, s, d, nd, avg, rnd, drawn);
      r.Ok? ==> P(d + 1, r.value.s)
  }

  ghost predicate EveryTurnKeeps(P: (nat, State) -> bool, e: Edition, nd: nat, avg: int, rnd: nat -> nat) {
    forall s: State, d: nat, drawn: nat :: P(d, s) ==> TurnKeeps(P, e, s, d, nd, avg, rnd, drawn)
  }

  lemma {:induction false} TurnsInduction(P: (nat, State) -> bool, e: Edition, s: State, donor: nat, nd: nat, avg: int,
                                          rnd: nat -> nat, drawn: nat)
    requires EveryTurnKeeps(P, e, nd, avg, rnd) && P(donor, s) && donor <= nd < |s.devices|
    ensures var r := MoveDonors(e, s, donor, nd, avg, rnd, drawn); r.Ok? ==> P(nd, r.value)
    decreases nd - donor
  {
    if donor < nd {
      assert TurnKeeps(P, e, s, donor, nd, avg, rnd, drawn);
      MoveDonorsStep(e, s, donor, nd, avg, rnd, drawn);
      var r := DonorTurn(e, s, donor, nd, avg, rnd, drawn);
      if r.Ok? {
        TurnsInduction(P, e, r.value.s, donor + 1, nd, avg, rnd, r.value.drawn);
      }
    }
  }

  // ---------------------------------------------------------------------------------------------
  // Quota by quota
  // ---------------------------------------------------------------------------------------------

  /** `P(q, s)` is what holds when `q` of the quota is left. */
  ghost predicate LookKeeps(P: (int, State) -> bool, e: Edition, s: State, donor: nat, v: nat, nd: nat, q: int) {
    donor < nd < |s.devices| ==>
      var r := MoveOne(e, s, donor, v, nd);
      r.Ok? ==> P(if r.value.1 then q - 1 else q, r.value.0)
  }

  ghost predicate EveryLookKeeps(P: (int, State) -> bool, e: Edition, donor: nat, nd: nat) {
    forall s: State, v: nat, q: int :: P(q, s) && q >= 1 ==> LookKeeps(P, e, s, donor, v, nd, q)
  }

  ghost predicate SomeLeft(P: (int, State) -> bool, s: State) {
    exists q: int :: 0 <= q && P(q, s)
  }

  lemma {:induction false} QuotaInduction(P: (int, State) -> bool, e: Edition, s: State, donor: nat, nd: nat,
                                          working: seq<nat>, quota: int, rnd: nat -> nat, drawn: nat)
    requires EveryLookKeeps(P, e, donor, nd) && P(quota, s) && quota >= 1 && donor < nd < |s.devices|
    requires |working| <= |s.devices[donor].listed|
    ensures var r := MoveFrom(e, s, donor, nd, working, quota, rnd, drawn); r.Ok? ==> SomeLeft(P, r.value.s)
    decreases |working|
  {
    if working != [] {
      var i := rnd(drawn) % |working|;
      var v := if e.drawsFromCopy then working[i] else s.devices[donor].listed[i];
      assert LookKeeps(P, e, s, donor, v, nd, quota);
      var r := MoveOne(e, s, donor, v, nd);
      if r.Ok? {
        MoveOneShape(e, s, donor, v, nd);
        var (s', moved) := r.value;
        if moved && quota <= 1 {
          assert P(quota - 1, s');
        } else {
          QuotaInduction(P, e, s', donor, nd, RemoveAt(working, i), if moved then quota - 1 else quota, rnd, drawn + 1);
        }
      }
    }
  }

  // ---------------------------------------------------------------------------------------------
  // Unfolding
  // ---------------------------------------------------------------------------------------------

  /** One donor's turn, then the others'. */
  lemma MoveDonorsStep(e: Edition, s: State, donor: nat, nd: nat, avg: int, rnd: nat -> nat, drawn: nat)
    requires donor < nd < |s.devices|
    ensures var t := DonorTurn(e, s, donor, nd, avg, rnd, drawn);
            MoveDonors(e, s, donor, nd, avg, rnd, drawn) ==
            if t.Ok? then MoveDonors(e, t.value.s, donor + 1, nd, avg, rnd, t.value.drawn) else Fault
  {
  }

  /** A moving join, with the average a number like any other. */
  lemma MoveJoinIs(e: Edition, s: State, zone: int, weight: int, rnd: nat -> nat, avg: int)
    requires TotalWeight(s.devices) + weight != 0
    requires avg == Truncated(TotalCount(s.devices), TotalWeight(s.devices) + weight)
    ensures |s.devices| < |AddDevice(s, zone, weight).devices|
    ensures MoveJoin(e, s, zone, weight, rnd) == MoveDonors(e, AddDevice(s, zone, weight), 0, |s.devices|, avg, rnd, 0)
  {
  }

  /** What holds whatever the average is. */
  lemma AnyAverage(Q: Outcome<State> -> bool, e: Edition, s: State, zone: int, weight: int, rnd: nat -> nat)
    requires Q(Fault) && forall avg: int :: Q(MoveDonors(e, AddDevice(s, zone, weight), 0, |s.devices|, avg, rnd, 0))
    ensures Q(MoveJoin(e, s, zone, weight, rnd))
  {
    if TotalWeight(s.devices) + weight != 0 {
      MoveJoinIs(e, s, zone, weight, rnd, Truncated(TotalCount(s.devices), TotalWeight(s.devices) + weight));
    }
  }
}
