/**
 The address handler: which replicas a client is sent to, for reading and for writing.
 */
module WriteAddress {
  import opened ProxyTypes
  import opened NodeInfo
  import opened NodeObjects

  function CursorAfter(rs: seq<Replica>, c: nat, m: nat): nat
    requires rs != []
    decreases m
  {
    if m == 0 then c else CursorAfter(rs, ScanFrom(rs, c).cursor, m - 1)
  }

  lemma {:induction false} PicksAppend(rs: seq<Replica>, c: nat, m: nat)
    requires rs != []
    ensures Picks(rs, c, m + 1) == Picks(rs, c, m) + [ScanFrom(rs, CursorAfter(rs, c, m)).found]
    ensures CursorAfter(rs, c, m + 1) == ScanFrom(rs, CursorAfter(rs, c, m)).cursor
    decreases m
  {
    var r := ScanFrom(rs, c);
    assert Picks(rs, c, m + 1) == [r.found] + Picks(rs, r.cursor, m);
    if m > 0 {
      PicksAppend(rs, r.cursor, m - 1);
      assert Picks(rs, c, m) == [r.found] + Picks(rs, r.cursor, m - 1);
    }
  }

  /** With k ACTIVE replicas and a limit of `count`, how many addresses a write is promised. */
  ghost function Promised(rs: seq<Replica>, count: int): int {
    if |ActiveSet(rs)| <= count then |ActiveSet(rs)| else count
  }

  /** The read request: one ACTIVE replica, refused exactly when there is none. */
  method ReadAddress(vn: VnodeInfo) returns (pos: Option<nat>)
    modifies vn`rd
    ensures pos.Some? <==> ActiveSet(vn.replicas) != {}
    ensures pos.Some? ==> pos.value in ActiveSet(vn.replicas)
    ensures pos.Some? ==> ComesNext(vn.replicas, old(vn.rd), pos.value) && vn.rd == pos.value + 1
  {
    if vn.replicas != [] {
      ScanComplete(vn.replicas, vn.rd);
    }
    ghost var rs := vn.replicas;
    ghost var was := vn.View();
    pos := vn.GetReadReplica();
    ReadReplicaIs(was, if pos.Some? then pos.value else 0);
    if i: nat :| i < |rs| && rs[i].status.Active? {
      assert i in ActiveSet(rs);
    }
  }

  /** What a client is answered: fewer than two addresses are a refusal. */
  function Answer(list: seq<nat>): Option<seq<nat>> {
    if |list| < 2 then None else Some(list)
  }

  /** The address loop with these positions already on the list. */
  function WriteFrom(vn: Vnode, ownCursor: bool, count: int, list: seq<nat>): Outcome<(Vnode, Option<seq<nat>>)>
    decreases count - |list|
  {
    if |list| >= count then Ok((vn, Answer(list)))
    else
      var (vn', pos) :- WriteReplica(vn, ownCursor);
      match pos
      case None => Ok((vn', None))
      case Some(p) =>
        if list != [] && list[0] == p then Ok((vn', Answer(list))) else WriteFrom(vn', ownCursor, count, list + [p])
  }

  /** A write request to a vnode, with the vnode it leaves and the replicas it offers; None is a refusal. */
  function WriteRequest(vn: Vnode, ownCursor: bool, count: int): Outcome<(Vnode, Option<seq<nat>>)> {
    WriteFrom(vn, ownCursor, count, [])
  }

  /** The answer is the first `m` of a round's choices, `m` being the smaller of their number and `count`. */
  ghost predicate AnswersRound(rs: seq<Replica>, c: nat, count: int, answer: Option<seq<nat>>)
    requires rs != []
  {
    && (answer.Some? <==> Promised(rs, count) >= 2)
    && (answer.Some? ==>
          && |answer.value| == Promised(rs, count)
          && forall j :: 0 <= j < |answer.value| ==> Some(answer.value[j]) == Picks(rs, c, |ActiveSet(rs)|)[j])
  }

  lemma {:induction false} WriteFromOwn(vn: Vnode, c: nat, count: int, list: seq<nat>)
    requires var (rs, i) := (vn.replicas, |list|);
             && rs != [] && i <= |ActiveSet(rs)| && (i <= count || i == 0) && vn.wr == CursorAfter(rs, c, i)
             && forall j :: 0 <= j < i ==> Some(list[j]) == Picks(rs, c, |ActiveSet(rs)|)[j]
    ensures WriteFrom(vn, true, count, list).Ok?
    ensures var (vn', answer) := WriteFrom(vn, true, count, list).value;
            && vn'.replicas == vn.replicas && vn'.version == vn.version && vn'.rd == vn.rd
            && AnswersRound(vn.replicas, c, count, answer)
    decreases count - |list|
  {
    var rs, i := vn.replicas, |list|;
    if i < count {
      NextPick(rs, c, i);
      RoundIs(rs, c);
      var (vn', pos) := WriteReplica(vn, true).value;
      if pos.Some? && !(list != [] && list[0] == pos.value) {
        WriteFromOwn(vn', c, count, list + [pos.value]);
      }
    }
  }

  /** With its own cursor, the request never faults, and answers with the promised number of ACTIVE replicas. */
  lemma WriteRequestOwn(vn: Vnode, count: int)
    ensures WriteRequest(vn, true, count).Ok?
    ensures var (vn', answer) := WriteRequest(vn, true, count).value;
            && vn'.replicas == vn.replicas && vn'.version == vn.version && vn'.rd == vn.rd
            && (answer.Some? <==> Promised(vn.replicas, count) >= 2)
            && (answer.Some? ==>
                  && |answer.value| == Promised(vn.replicas, count)
                  && (forall i :: 0 <= i < |answer.value| ==> answer.value[i] in ActiveSet(vn.replicas))
                  && (forall i, j :: 0 <= i < j < |answer.value| ==> answer.value[i] != answer.value[j]))
  {
    if vn.replicas == [] {
      assert ActiveSet(vn.replicas) == {};
    } else {
      WriteFromOwn(vn, vn.wr, count, []);
      RoundIs(vn.replicas, vn.wr);
      var answer := WriteRequest(vn, true, count).value.1;
      if answer.Some? {
        FromRound(vn.replicas, Picks(vn.replicas, vn.wr, |ActiveSet(vn.replicas)|), answer.value);
      }
    }
  }

  /** What is taken from the front of a round is different ACTIVE replicas. */
  lemma FromRound(rs: seq<Replica>, ps: seq<Option<nat>>, list: seq<nat>)
    requires |list| <= |ps| && IsRound(rs, ps) && forall j :: 0 <= j < |list| ==> Some(list[j]) == ps[j]
    ensures forall i :: 0 <= i < |list| ==> list[i] in ActiveSet(rs)
    ensures forall i, j :: 0 <= i < j < |list| ==> list[i] != list[j]
  {
  }

  lemma WriteReplicaShared(vn: Vnode)
    ensures var r := WriteReplica(vn, false);
            && (r.Fault? <==> vn.replicas != [] && vn.rd >= |vn.replicas|)
            && (r.Ok? ==> && r.value.0.replicas == vn.replicas && r.value.0.version == vn.version
                          && r.value.0.rd == vn.rd
                          && (r.value.1 == None || r.value.1 == Some(vn.rd)))
  {
  }

  /** The scan after the first one stops at the same replica again. */
  lemma SecondShared(vn: Vnode, count: int)
    requires vn.replicas != [] && vn.rd < |vn.replicas|
    ensures var r := WriteFrom(vn, false, count, [vn.rd]);
            && r.Ok? && r.value.1 == None
            && r.value.0.replicas == vn.replicas && r.value.0.version == vn.version && r.value.0.rd == vn.rd
  {
    WriteReplicaShared(vn);
  }

  /** As written, the request is never granted, and it faults exactly when the read cursor is past the end. */
  lemma WriteRequestShared(vn: Vnode, count: int)
    ensures var r := WriteRequest(vn, false, count);
            && (r.Fault? <==> count > 0 && vn.replicas != [] && vn.rd >= |vn.replicas|)
            && (r.Ok? ==> && r.value.0.replicas == vn.replicas && r.value.0.version == vn.version
                          && r.value.0.rd == vn.rd
                          && r.value.1 == None)
  {
    WriteReplicaShared(vn);
    if count > 0 && WriteReplica(vn, false).Ok? && WriteReplica(vn, false).value.1.Some? {
      assert [] + [vn.rd] == [vn.rd];
      SecondShared(WriteReplica(vn, false).value.0, count);
    }
  }

  /**
   The write request in place: it is the request on values.

   With the write cursor counting its own steps, the request succeeds exactly when two replicas or more can be
   offered, and then offers pairwise different ACTIVE replicas, as many as promised.

   As written it never succeeds: every scan walks to the read cursor's replica, so the second one repeats the first.
   */
  method WriteAddresses(vn: VnodeInfo, count: int, ownCursor: bool) returns (positions: Outcome<Option<seq<nat>>>)
    modifies vn`wr
    ensures match WriteRequest(old(vn.View()), ownCursor, count)
            case Fault => positions == Fault
            case Ok((v, answer)) => vn.View() == v && positions == Ok(answer)
    ensures ownCursor ==> positions.Ok? && (positions.value.Some? <==> Promised(vn.replicas, count) >= 2)
    ensures ownCursor && positions.value.Some? ==>
              var ps := positions.value.value;
              && |ps| == Promised(vn.replicas, count)
              && (forall i :: 0 <= i < |ps| ==> ps[i] in ActiveSet(vn.replicas))
              && (forall i, j :: 0 <= i < j < |ps| ==> ps[i] != ps[j])
    ensures !ownCursor && (count <= 0 || vn.replicas == [] || vn.rd < |vn.replicas|) ==> positions == Ok(None)
    ensures !ownCursor && count > 0 && vn.replicas != [] && vn.rd >= |vn.replicas| ==> positions == Fault
  {
    WriteRequestOwn(vn.View(), count);
    WriteRequestShared(vn.View(), count);
    positions := OfferAddresses(vn, count, ownCursor);
  }

  /** The loop of the write request. */
  method OfferAddresses(vn: VnodeInfo, count: int, ownCursor: bool) returns (positions: Outcome<Option<seq<nat>>>)
    modifies vn`wr
    ensures match WriteRequest(old(vn.View()), ownCursor, count)
            case Fault => positions == Fault
            case Ok((v, answer)) => vn.View() == v && positions == Ok(answer)
  {
    var list: seq<nat> := [];
    var i := 0;
    while i < count
      invariant 0 <= i == |list|
      invariant WriteFrom(vn.View(), ownCursor, count, list) == WriteRequest(old(vn.View()), ownCursor, count)
    {
      var res := vn.GetWriteReplica(ownCursor);
      if res.Fault? {
        return Fault;
      }
      if res.value.None? {
        return Ok(None);
      }
      var pos := res.value.value;
      if i != 0 && list[0] == pos {
        break;
      }
      list := list + [pos];
      i := i + 1;
    }
    return Ok(Answer(list));
  }

  /** Different ACTIVE replicas. */
  ghost predicate IsRound(rs: seq<Replica>, ps: seq<Option<nat>>) {
    && (forall i :: 0 <= i < |ps| ==> ps[i].Some? && ps[i].value in ActiveSet(rs))
    && (forall i, j :: 0 <= i < j < |ps| ==> ps[i] != ps[j])
  }

  /** A round's choices are as many different ACTIVE replicas as there are. */
  lemma RoundIs(rs: seq<Replica>, c: nat)
    requires rs != []
    ensures IsRound(rs, Picks(rs, c, |ActiveSet(rs)|))
  {
    ScanFair(rs, c);
  }

  lemma PickAt(rs: seq<Replica>, c: nat, i: nat, m: nat)
    requires rs != [] && i < m
    ensures Picks(rs, c, m)[i] == ScanFrom(rs, CursorAfter(rs, c, i)).found
  {
    PicksAppend(rs, c, i);
    PicksPrefix(rs, c, i + 1, m);
    assert Picks(rs, c, i + 1)[i] == ScanFrom(rs, CursorAfter(rs, c, i)).found;
  }

  lemma NoPick(rs: seq<Replica>, c: nat)
    requires rs != [] && |ActiveSet(rs)| == 0
    ensures ScanFrom(rs, c).found == None
  {
    ScanComplete(rs, c);
    assert forall p: nat :: p < |rs| && rs[p].status.Active? ==> p in ActiveSet(rs);
  }

  /** The choice after `i` of a round of k: the next of the round, or the first again, or none. */
  lemma NextPick(rs: seq<Replica>, c: nat, i: nat)
    requires rs != [] && i <= |ActiveSet(rs)|
    ensures var k := |ActiveSet(rs)|; var r := ScanFrom(rs, CursorAfter(rs, c, i));
            && CursorAfter(rs, c, i + 1) == r.cursor
            && (i < k ==> r.found == Picks(rs, c, k)[i])
            && (0 < i == k ==> r.found == Picks(rs, c, k)[0])
            && (k == 0 ==> r.found == None)
  {
    var k := |ActiveSet(rs)|;
    PicksAppend(rs, c, i);
    if k == 0 {
      NoPick(rs, CursorAfter(rs, c, i));
    } else if i < k {
      PickAt(rs, c, i, k);
    } else {
      RoundAgain(rs, c);
    }
  }

  lemma RoundAgain(rs: seq<Replica>, c: nat)
    requires rs != [] && |ActiveSet(rs)| > 0
    ensures var k := |ActiveSet(rs)|; ScanFrom(rs, CursorAfter(rs, c, k)).found == Picks(rs, c, k)[0]
  {
    var k := |ActiveSet(rs)|;
    ScanFair(rs, c);
    PickAt(rs, c, k, k + 1);
    PickAt(rs, c, 0, k);
    PickAt(rs, c, 0, 1);
  }

  lemma {:induction false} PicksPrefix(rs: seq<Replica>, c: nat, m: nat, m': nat)
    requires rs != [] && m <= m'
    ensures Picks(rs, c, m) == Picks(rs, c, m')[..m]
    decreases m'
  {
    if m < m' {
      PicksPrefix(rs, c, m, m' - 1);
      PicksAppend(rs, c, m' - 1);
    }
  }

  // ---------------------------------------------------------------------------------------------
  // Which replicas, in which order
  // ---------------------------------------------------------------------------------------------

  /** A write scan with its own cursor answers the ACTIVE replica that comes next and moves the cursor behind it. */
  lemma WriteReplicaIs(vn: Vnode, p: nat)
    ensures WriteReplica(vn, true).Ok?
    ensures var (vn', pos) := WriteReplica(vn, true).value;
            && (pos == Some(p) <==> ComesNext(vn.replicas, vn.wr, p))
            && (pos == Some(p) ==> vn' == vn.(wr := p + 1))
            && vn' == vn.(wr := vn'.wr)
  {
    if vn.replicas != [] {
      ScanIs(vn.replicas, vn.wr, p);
    }
  }

  /** Where the cursor stands behind these choices. */
  function Behind(c: nat, list: seq<nat>): nat {
    if list == [] then c else list[|list| - 1] + 1
  }

  /** Each choice is the ACTIVE replica that comes next after the one before; the first is that from the cursor on. */
  ghost predicate InTurn(rs: seq<Replica>, c: nat, list: seq<nat>) {
    forall j :: 0 <= j < |list| ==> ComesNext(rs, Behind(c, list[..j]), list[j])
  }

  lemma InTurnMore(rs: seq<Replica>, c: nat, list: seq<nat>, p: nat)
    requires InTurn(rs, c, list) && ComesNext(rs, Behind(c, list), p)
    ensures InTurn(rs, c, list + [p]) && Behind(c, list + [p]) == p + 1
  {
    var more := list + [p];
    forall j | 0 <= j < |more|
      ensures ComesNext(rs, Behind(c, more[..j]), more[j])
    {
      assert more[..j] == list[..j];
      assert j == |list| ==> list[..j] == list;
    }
  }

  /** Where a granted request leaves the cursor: behind its last choice, or once more behind the first. */
  ghost predicate LeavesCursor(rs: seq<Replica>, count: int, answer: seq<nat>, wr: nat) {
    && answer != []
    && if |answer| >= count then wr == answer[|answer| - 1] + 1
       else ComesNext(rs, answer[|answer| - 1] + 1, answer[0]) && wr == answer[0] + 1
  }

  lemma {:induction false} WriteFromInTurn(vn: Vnode, c: nat, count: int, list: seq<nat>)
    requires InTurn(vn.replicas, c, list) && vn.wr == Behind(c, list)
    ensures var r := WriteFrom(vn, true, count, list);
            r.Ok? && (r.value.1.Some? ==>
              && InTurn(vn.replicas, c, r.value.1.value)
              && LeavesCursor(vn.replicas, count, r.value.1.value, r.value.0.wr))
    decreases count - |list|
  {
    if |list| < count {
      var (vn', pos) := WriteReplica(vn, true).value;
      WriteReplicaIs(vn, if pos.Some? then pos.value else 0);
      if pos.Some? && !(list != [] && list[0] == pos.value) {
        InTurnMore(vn.replicas, c, list, pos.value);
        WriteFromInTurn(vn', c, count, list + [pos.value]);
      }
    }
  }

  /** A granted write request offers the ACTIVE replicas in turn, from the one that its cursor comes to next. */
  lemma WriteRequestInTurn(vn: Vnode, count: int)
    requires WriteRequest(vn, true, count).Ok? && WriteRequest(vn, true, count).value.1.Some?
    ensures var (vn', answer) := WriteRequest(vn, true, count).value;
            InTurn(vn.replicas, vn.wr, answer.value) && LeavesCursor(vn.replicas, count, answer.value, vn'.wr)
  {
    WriteFromInTurn(vn, vn.wr, count, []);
  }
}
