/**
 Vnodes and devices: lookup by device, the zone test, and the round-robin choice of a replica.
 */
module NodeInfo {
  import opened ProxyTypes

  /** Position of the first replica on `dev`, or |rs| if there is none. */
  function Find(rs: seq<Replica>, dev: nat): (i: nat)
    ensures i <= |rs|
    ensures i < |rs| ==> rs[i].dev == dev
    ensures forall j :: 0 <= j < i ==> rs[j].dev != dev
  {
    if rs == [] then 0
    else if rs[0].dev == dev then 0
    else 1 + Find(rs[1..], dev)
  }

  /** Status of the replica on `dev`, as get_replica_info sees it. */
  function StatusOf(rs: seq<Replica>, dev: nat): Option<Status> {
    var i := Find(rs, dev);
    if i < |rs| then Some(rs[i].status) else None
  }

  predicate Distinct(rs: seq<Replica>) {
    forall i, j :: 0 <= i < j < |rs| ==> rs[i].dev != rs[j].dev
  }

  lemma FindAt(rs: seq<Replica>, i: nat)
    requires Distinct(rs) && i < |rs|
    ensures Find(rs, rs[i].dev) == i
  {
  }

  /** With the devices in the same places, a device is found in the same place. */
  lemma SameFind(rs: seq<Replica>, rs': seq<Replica>, d: nat)
    requires |rs'| == |rs| && forall i :: 0 <= i < |rs| ==> rs'[i].dev == rs[i].dev
    ensures Find(rs', d) == Find(rs, d)
  {
    var i, i' := Find(rs, d), Find(rs', d);
    assert i < |rs| ==> rs'[i].dev == d;
    assert i' < |rs| ==> rs[i'].dev == d;
  }

  /** Overwrites the status of the replica on `dev`. */
  function SetStatus(rs: seq<Replica>, dev: nat, status: Status): (rs': seq<Replica>)
    requires Find(rs, dev) < |rs|
  {
    rs[Find(rs, dev) := Replica(status, dev)]
  }

  /** Drops the first replica on `dev`, if any. */
  function Destroy(rs: seq<Replica>, dev: nat): (rs': seq<Replica>) {
    var i := Find(rs, dev);
    if i < |rs| then rs[..i] + rs[i + 1..] else rs
  }

  lemma SetStatusIs(rs: seq<Replica>, dev: nat, status: Status)
    requires Distinct(rs) && Find(rs, dev) < |rs|
    ensures Distinct(SetStatus(rs, dev, status))
    ensures forall d: nat ::
              StatusOf(SetStatus(rs, dev, status), d) == if d == dev then Some(status) else StatusOf(rs, d)
  {
    var rs' := SetStatus(rs, dev, status);
    assert forall i :: 0 <= i < |rs| ==> rs'[i].dev == rs[i].dev;
    forall d: nat
      ensures Find(rs', d) == Find(rs, d)
    {
      var i, i' := Find(rs, d), Find(rs', d);
      assert i < |rs| ==> rs'[i].dev == d;
      assert i' < |rs| ==> rs[i'].dev == d;
    }
  }

  lemma DestroyIs(rs: seq<Replica>, dev: nat)
    requires Distinct(rs)
    ensures Distinct(Destroy(rs, dev))
    ensures forall d: nat :: StatusOf(Destroy(rs, dev), d) == if d == dev then None else StatusOf(rs, d)
  {
    var rs' := Destroy(rs, dev);
    var k := Find(rs, dev);
    assert forall i :: 0 <= i < |rs'| ==> rs'[i] == rs[if i < k then i else i + 1];
    assert forall i :: 0 <= i < |rs'| ==> rs'[i].dev != dev;
    forall d: nat | d != dev
      ensures StatusOf(rs', d) == StatusOf(rs, d)
    {
      var i, i' := Find(rs, d), Find(rs', d);
      if i < |rs| {
        FindAt(rs', if i < k then i else i - 1);
      }
      assert i' < |rs'| ==> rs[if i' < k then i' else i' + 1].dev == d;
    }
  }

  lemma AppendIs(rs: seq<Replica>, r: Replica)
    requires Distinct(rs) && Find(rs, r.dev) == |rs|
    ensures Distinct(rs + [r])
    ensures forall d: nat :: StatusOf(rs + [r], d) == if d == r.dev then Some(r.status) else StatusOf(rs, d)
  {
    var rs' := rs + [r];
    FindAt(rs', |rs|);
    forall d: nat | d != r.dev
      ensures StatusOf(rs', d) == StatusOf(rs, d)
    {
      var i, i' := Find(rs, d), Find(rs', d);
      if i < |rs| {
        FindAt(rs', i);
        assert rs'[i].dev == d;
      }
      if i' < |rs| {
        assert rs[i'].dev == d;
      }
    }
  }

  /** The zone test: `dev` shares its zone with no replica of the vnode. */
  predicate IsDiffZones(rs: seq<Replica>, devices: seq<Device>, zone: int) {
    forall r :: r in rs && r.dev < |devices| ==> devices[r.dev].zone != zone
  }

  // ---------------------------------------------------------------------------------------------
  // The round-robin scan
  // ---------------------------------------------------------------------------------------------

  /** Position `o` steps after `start` on a ring of `n`. */
  function Around(start: nat, o: nat, n: nat): (p: nat)
    requires start < n && o <= n
    ensures o < n ==> p < n
  {
    if start + o < n then start + o else start + o - n
  }

  /** Where a scan with cursor `c` begins. */
  function Start(c: nat, n: nat): (s: nat)
    requires n > 0
    ensures s < n
  {
    if c >= n then 0 else c
  }

  /** First offset in [o, n) at which the ring seen from `start` holds an ACTIVE replica; n if there is none. */
  function NextActive(rs: seq<Replica>, start: nat, o: nat): (j: nat)
    requires start < |rs| && o <= |rs|
    ensures o <= j <= |rs|
    ensures j < |rs| ==> rs[Around(start, j, |rs|)].status.Active?
    ensures forall k :: o <= k < j ==> !rs[Around(start, k, |rs|)].status.Active?
    decreases |rs| - o
  {
    if o == |rs| then o
    else if rs[Around(start, o, |rs|)].status.Active? then o
    else NextActive(rs, start, o + 1)
  }

  /** Outcome of one scan: the chosen position, if any, and the new cursor. */
  datatype Scan = Scan(found: Option<nat>, cursor: nat)

  function ScanFrom(rs: seq<Replica>, c: nat): (r: Scan)
    requires rs != []
  {
    var n := |rs|;
    var start := Start(c, n);
    var j := NextActive(rs, start, 0);
    if j < n then
      var p := Around(start, j, n);
      Scan(Some(p), p + 1)
    else
      Scan(None, Around(start, n - 1, n) + 1)
  }

  /** The scan finds an ACTIVE replica exactly when there is one. */
  lemma ScanComplete(rs: seq<Replica>, c: nat)
    requires rs != []
    ensures ScanFrom(rs, c).found.Some? <==> exists i :: 0 <= i < |rs| && rs[i].status.Active?
    ensures ScanFrom(rs, c).found.Some? ==>
              var p := ScanFrom(rs, c).found.value; p < |rs| && rs[p].status.Active?
  {
    var n := |rs|;
    var start := Start(c, n);
    if i :| 0 <= i < n && rs[i].status.Active? {
      var o := if i >= start then i - start else i - start + n;
      assert Around(start, o, n) == i;
    }
  }

  /** How many steps lead from position `a` to `b` on a ring of `n`. */
  function StepsTo(a: nat, b: nat, n: nat): nat
    requires a < n && b < n
  {
    if b >= a then b - a else n - a + b
  }

  /** Of the ACTIVE replicas, the one at `p` is the first that a walk from the cursor meets; past the end it wraps. */
  ghost predicate ComesNext(rs: seq<Replica>, c: nat, p: nat) {
    && p < |rs| && rs[p].status.Active?
    && var start := if c < |rs| then c else 0;
       forall q: nat :: q < |rs| && rs[q].status.Active? ==> StepsTo(start, p, |rs|) <= StepsTo(start, q, |rs|)
  }

  lemma OffsetIs(start: nat, o: nat, p: nat, n: nat)
    requires start < n && o < n && p < n
    ensures Around(start, o, n) == p <==> StepsTo(start, p, n) == o
  {
  }

  /** The scan chooses the next ACTIVE replica on the ring and leaves the cursor behind it. */
  lemma ScanIs(rs: seq<Replica>, c: nat, p: nat)
    requires rs != []
    ensures ScanFrom(rs, c).found == Some(p) <==> ComesNext(rs, c, p)
    ensures ScanFrom(rs, c).found == Some(p) ==> ScanFrom(rs, c).cursor == p + 1
  {
    var n, start := |rs|, if c < |rs| then c else 0;
    var j := NextActive(rs, start, 0);
    forall q: nat | q < n && rs[q].status.Active?
      ensures j <= StepsTo(start, q, n)
    {
      OffsetIs(start, StepsTo(start, q, n), q, n);
    }
    if j < n {
      OffsetIs(start, j, Around(start, j, n), n);
      if ComesNext(rs, c, p) {
        assert StepsTo(start, p, n) <= StepsTo(start, Around(start, j, n), n);
        OffsetIs(start, j, p, n);
      }
    }
  }

  ghost function ActiveSet(rs: seq<Replica>): set<nat> {
    set i: nat | i < |rs| && rs[i].status.Active?
  }

  /** What `m` scans in a row choose when no status changes in between. */
  function Picks(rs: seq<Replica>, c: nat, m: nat): (ps: seq<Option<nat>>)
    requires rs != []
    ensures |ps| == m
    decreases m
  {
    if m == 0 then []
    else
      var r := ScanFrom(rs, c);
      [r.found] + Picks(rs, r.cursor, m - 1)
  }

  /** The ACTIVE positions at offsets [o, n) from `start`, in ring order. */
  function InRingOrder(rs: seq<Replica>, start: nat, o: nat): (ps: seq<Option<nat>>)
    requires start < |rs| && o <= |rs|
    decreases |rs| - o
  {
    var j := NextActive(rs, start, o);
    if j == |rs| then []
    else [Some(Around(start, j, |rs|))] + InRingOrder(rs, start, j + 1)
  }

  /** A scan whose cursor stands at offset `o` continues the scan that began at `start`. */
  lemma ScanContinues(rs: seq<Replica>, start: nat, o: nat, c: nat)
    requires start < |rs| && o < |rs| && Start(c, |rs|) == Around(start, o, |rs|)
    requires NextActive(rs, start, o) < |rs|
    ensures var p := Around(start, NextActive(rs, start, o), |rs|); ScanFrom(rs, c) == Scan(Some(p), p + 1)
  {
    var n := |rs|;
    var s' := Around(start, o, n);
    var j := NextActive(rs, start, o);
    var j' := NextActive(rs, s', 0);
    assert forall k :: 0 <= k && o + k < n ==> Around(s', k, n) == Around(start, o + k, n);
    assert rs[Around(s', j - o, n)].status.Active?;
    assert forall k :: 0 <= k < j - o ==> !rs[Around(s', k, n)].status.Active? by {
      forall k | 0 <= k < j - o
        ensures !rs[Around(s', k, n)].status.Active?
      {
        assert Around(s', k, n) == Around(start, o + k, n);
      }
    }
  }

  lemma {:induction false} PicksInOrder(rs: seq<Replica>, start: nat, o: nat, c: nat)
    requires start < |rs| && o <= |rs|
    requires Start(c, |rs|) == if o < |rs| then Around(start, o, |rs|) else start
    ensures Picks(rs, c, |InRingOrder(rs, start, o)|) == InRingOrder(rs, start, o)
    decreases |rs| - o
  {
    var j := NextActive(rs, start, o);
    if j < |rs| {
      ScanContinues(rs, start, o, c);
      CursorAt(start, j, |rs|);
      PicksInOrder(rs, start, j + 1, ScanFrom(rs, c).cursor);
      PicksFirst(rs, c, |InRingOrder(rs, start, j + 1)|);
    }
  }

  lemma PicksFirst(rs: seq<Replica>, c: nat, m: nat)
    requires rs != []
    ensures Picks(rs, c, m + 1) == [ScanFrom(rs, c).found] + Picks(rs, ScanFrom(rs, c).cursor, m)
  {
  }

  /**
   The offset of each ACTIVE position of InRingOrder is its own; positions not listed are not ACTIVE or come earlier.
   */
  lemma {:induction false} RingOrderIs(rs: seq<Replica>, start: nat, o: nat)
    requires start < |rs| && o <= |rs|
    ensures var ps := InRingOrder(rs, start, o);
            && (forall i :: 0 <= i < |ps| ==> ps[i].Some? && ps[i].value in ActiveSet(rs))
            && (forall i, k :: 0 <= i < |ps| && 0 <= k < o ==> ps[i] != Some(Around(start, k, |rs|)))
            && (forall i, k :: 0 <= i < k < |ps| ==> ps[i] != ps[k])
            && (forall k :: o <= k < |rs| && rs[Around(start, k, |rs|)].status.Active?
                  ==> Some(Around(start, k, |rs|)) in ps)
    decreases |rs| - o
  {
    var n := |rs|;
    var j := NextActive(rs, start, o);
    if j < n {
      RingOrderIs(rs, start, j + 1);
      var tail := InRingOrder(rs, start, j + 1);
      var ps := InRingOrder(rs, start, o);
      assert ps == [Some(Around(start, j, n))] + tail;
      assert forall k :: 0 <= k < o ==> Around(start, k, n) != Around(start, j, n);
      assert forall i :: 0 < i < |ps| ==> ps[i] == tail[i - 1];
      forall k | o <= k < n && rs[Around(start, k, n)].status.Active?
        ensures Some(Around(start, k, n)) in ps
      {
        if k > j {
          assert Some(Around(start, k, n)) in tail;
        }
      }
    }
  }

  lemma {:induction false} DistinctCount(ps: seq<Option<nat>>, s: set<nat>)
    requires forall i :: 0 <= i < |ps| ==> ps[i].Some? && ps[i].value in s
    requires forall i, k :: 0 <= i < k < |ps| ==> ps[i] != ps[k]
    requires forall x :: x in s ==> Some(x) in ps
    ensures |ps| == |s|
  {
    if ps != [] {
      var x := ps[0].value;
      assert forall y :: y in s - {x} ==> Some(y) in ps[1..];
      DistinctCount(ps[1..], s - {x});
    } else {
      assert s == {};
    }
  }

  /**
   Fairness: with k ACTIVE replicas, from any cursor, k scans in a row choose each ACTIVE replica exactly once,
   and the next scan starts the same round again.
   */
  lemma ScanFair(rs: seq<Replica>, c: nat)
    requires rs != []
    ensures var k := |ActiveSet(rs)|; var ps := Picks(rs, c, k);
            && (forall i :: 0 <= i < k ==> ps[i].Some? && ps[i].value in ActiveSet(rs))
            && (forall i, j :: 0 <= i < j < k ==> ps[i] != ps[j])
            && (forall p :: p in ActiveSet(rs) ==> Some(p) in ps)
    ensures var k := |ActiveSet(rs)|; k > 0 ==> Picks(rs, c, k + 1)[k] == Picks(rs, c, 1)[0]
  {
    var n := |rs|;
    var start := Start(c, n);
    var order := InRingOrder(rs, start, 0);
    assert Around(start, 0, n) == start;
    PicksInOrder(rs, start, 0, c);
    RingOrderIs(rs, start, 0);
    forall p | p in ActiveSet(rs)
      ensures Some(p) in order
    {
      var o := if p >= start then p - start else p - start + n;
      assert Around(start, o, n) == p;
    }
    DistinctCount(order, ActiveSet(rs));
    if order != [] {
      NextRound(rs, start, 0, c, NextActive(rs, start, 0));
      assert Picks(rs, c, 1) == [ScanFrom(rs, c).found];
    }
  }

  /** After `m` choices, the next one is `p`. */
  ghost predicate ChoosesAfter(rs: seq<Replica>, c: nat, m: nat, p: nat)
    requires rs != []
  {
    Picks(rs, c, m + 1)[m] == Some(p)
  }

  lemma PicksStep(rs: seq<Replica>, c: nat, m: nat, p: nat)
    requires rs != []
    ensures ChoosesAfter(rs, c, m + 1, p) <==> ChoosesAfter(rs, ScanFrom(rs, c).cursor, m, p)
  {
    var r := ScanFrom(rs, c);
    assert Picks(rs, c, m + 2) == [r.found] + Picks(rs, r.cursor, m + 1);
  }

  /** How many choices are left in the round from offset `o` on. */
  function LeftInRound(rs: seq<Replica>, start: nat, o: nat): nat
    requires start < |rs| && o <= |rs|
  {
    |InRingOrder(rs, start, o)|
  }

  lemma LeftIs(rs: seq<Replica>, start: nat, o: nat)
    requires start < |rs| && o <= |rs|
    ensures var j := NextActive(rs, start, o);
            LeftInRound(rs, start, o) == if j == |rs| then 0 else LeftInRound(rs, start, j + 1) + 1
  {
  }

  lemma CursorAt(start: nat, j: nat, n: nat)
    requires start < n && j < n
    ensures Start(Around(start, j, n) + 1, n) == if j + 1 < n then Around(start, j + 1, n) else start
  {
  }

  /** One choice later, the round is one choice shorter. */
  lemma RoundShortens(rs: seq<Replica>, start: nat, o: nat, c: nat, p: nat)
    requires start < |rs| && o < |rs| && Start(c, |rs|) == Around(start, o, |rs|) && NextActive(rs, start, o) < |rs|
    ensures var j, c' := NextActive(rs, start, o), ScanFrom(rs, c).cursor;
            && Start(c', |rs|) == (if j + 1 < |rs| then Around(start, j + 1, |rs|) else start)
            && (ChoosesAfter(rs, c', LeftInRound(rs, start, j + 1), p) ==>
                  ChoosesAfter(rs, c, LeftInRound(rs, start, o), p))
  {
    var j := NextActive(rs, start, o);
    LeftIs(rs, start, o);
    ScanContinues(rs, start, o, c);
    CursorAt(start, j, |rs|);
    PicksStep(rs, c, LeftInRound(rs, start, j + 1), p);
  }

  /** After the ACTIVE positions from offset `o` on, the scan wraps to the first ACTIVE position of all. */
  lemma {:induction false} NextRound(rs: seq<Replica>, start: nat, o: nat, c: nat, first: nat)
    requires start < |rs| && o <= |rs|
    requires Start(c, |rs|) == if o < |rs| then Around(start, o, |rs|) else start
    requires first == NextActive(rs, start, 0) && first < |rs|
    ensures ChoosesAfter(rs, c, LeftInRound(rs, start, o), Around(start, first, |rs|))
    decreases |rs| - o
  {
    var j := NextActive(rs, start, o);
    if j < |rs| {
      RoundShortens(rs, start, o, c, Around(start, first, |rs|));
      NextRound(rs, start, j + 1, ScanFrom(rs, c).cursor, first);
    } else {
      LeftIs(rs, start, o);
      WrapScan(rs, start, o, c, first);
    }
  }

  lemma WrapScan(rs: seq<Replica>, start: nat, o: nat, c: nat, first: nat)
    requires start < |rs| && o <= |rs|
    requires Start(c, |rs|) == if o < |rs| then Around(start, o, |rs|) else start
    requires NextActive(rs, start, o) == |rs| && first == NextActive(rs, start, 0) && first < |rs|
    ensures ChoosesAfter(rs, c, 0, Around(start, first, |rs|))
  {
    var n := |rs|;
    assert Picks(rs, c, 1) == [ScanFrom(rs, c).found];
    assert Around(start, 0, n) == start;
    if o < n {
      WrapsTo(rs, start, o, first);
    }
  }

  /** From offset `o`, behind which nothing is ACTIVE, the next ACTIVE position is the first one of the round. */
  lemma WrapsTo(rs: seq<Replica>, start: nat, o: nat, first: nat)
    requires start < |rs| && o < |rs|
    requires NextActive(rs, start, o) == |rs| && first == NextActive(rs, start, 0) && first < |rs|
    ensures var s' := Around(start, o, |rs|);
            first < o && NextActive(rs, s', 0) == |rs| - o + first
            && Around(s', |rs| - o + first, |rs|) == Around(start, first, |rs|)
  {
    var n := |rs|;
    var s' := Around(start, o, n);
    assert first < o;
    assert Around(s', n - o + first, n) == Around(start, first, n);
    forall k | 0 <= k < n - o + first
      ensures !rs[Around(s', k, n)].status.Active?
    {
      if o + k < n {
        assert Around(s', k, n) == Around(start, o + k, n);
      } else {
        assert Around(s', k, n) == Around(start, o + k - n, n);
      }
    }
  }
}
