/**
 The share of a moving join, stated without the handler's division, and what the sums behind it count.
 */
module JoinShare {
  import opened ProxyTypes
  import opened NodeInfo
  import opened NodeObjects
  import opened Protocol
  import opened Invariant
  import opened Steps
  import opened HeartbeatSteps
  import opened Rebalance

  // ---------------------------------------------------------------------------------------------
  // The quotient
  // ---------------------------------------------------------------------------------------------

  /** `q` is a/b without its fraction: what is left over is less than the divisor and has the sign of `a`. */
  predicate IsQuotient(q: int, a: int, b: int) {
    var left := a - q * b;
    if a >= 0 then 0 <= left && (left < b || left < -b) else left <= 0 && (left > b || left > -b)
  }

  lemma QuotientOfAbs(a: nat, b: nat)
    requires b > 0
    ensures (a / b) * b <= a && a < (a / b) * b + b
  {
  }

  lemma TruncatedLeaves(a: int, b: int)
    requires b != 0
    ensures IsQuotient(Truncated(a, b), a, b)
  {
    var q := Abs(a) / Abs(b);
    QuotientOfAbs(Abs(a), Abs(b));
    assert q * (-b) == -(q * b) && (-q) * b == -(q * b) && (-q) * (-b) == q * b;
  }

  lemma StepAway(k: int, b: int)
    requires b > 0
    ensures k >= 1 ==> k * b >= b
    ensures k <= -1 ==> k * b <= -b
  {
  }

  /** Two multiples of `b` that are closer than `b` are the same. */
  lemma SameMultiple(p: int, q: int, b: int)
    requires b > 0 && -b < p * b - q * b < b
    ensures p == q
  {
    assert p * b - q * b == (p - q) * b;
    StepAway(p - q, b);
  }

  /** There is exactly one such quotient, for all signs of the two numbers. */
  lemma TruncatedIs(a: int, b: int, q: int)
    requires b != 0
    ensures IsQuotient(q, a, b) <==> q == Truncated(a, b)
  {
    var t := Truncated(a, b);
    TruncatedLeaves(a, b);
    if IsQuotient(q, a, b) {
      if b > 0 {
        SameMultiple(t, q, b);
      } else {
        assert t * (-b) == -(t * b) && q * (-b) == -(q * b);
        SameMultiple(t, q, -b);
      }
    }
  }

  // ---------------------------------------------------------------------------------------------
  // The join's average, without the division
  // ---------------------------------------------------------------------------------------------

  /** No more marks on `d` than it lists over q times its weight, and none if it lists no more. */
  ghost predicate MarksOver(s: State, s': State, d: nat, q: int)
    requires d < |s.devices|
  {
    var over := |s.devices[d].listed| - q * s.devices[d].weight;
    MarksAtMost(s, s', d, if over > 0 then over else 0)
  }

  /** The last device lists q times its weight, or some other lists more than that and has none left that could move. */
  ghost predicate ListsShare(s: State, weight: int, q: int)
    requires s.devices != []
  {
    var nd := |s.devices| - 1;
    || |s.devices[nd].listed| >= q * weight
    || exists c: nat :: c < nd && |s.devices[c].listed| > q * s.devices[c].weight
         && NoneMovable(s, c, nd, s.devices[c].listed)
  }

  lemma AverageIs(count: nat, total: int, q: int)
    requires IsQuotient(q, count, total)
    ensures total != 0 && q == Truncated(count, total)
  {
    TruncatedIs(count, total, q);
  }

  lemma MarksOverAverage(e: Edition, s: State, zone: int, weight: int, rnd: nat -> nat, d: nat, q: int)
    requires Inv(e, s) && d < |s.devices| && MoveJoin(e, s, zone, weight, rnd).Ok?
    requires TotalWeight(s.devices) + weight != 0
    requires q == Truncated(TotalCount(s.devices), TotalWeight(s.devices) + weight)
    ensures MarksOver(s, MoveJoin(e, s, zone, weight, rnd).value, d, q)
  {
    MarksWithinQuota(e, s, zone, weight, rnd, d, q);
  }

  lemma ListsAverage(e: Edition, s: State, zone: int, weight: int, rnd: nat -> nat, q: int)
    requires Inv(e, s) && e.drawsFromCopy && MoveJoin(e, s, zone, weight, rnd).Ok?
    requires TotalWeight(s.devices) + weight != 0
    requires q == Truncated(TotalCount(s.devices), TotalWeight(s.devices) + weight)
    ensures var s' := MoveJoin(e, s, zone, weight, rnd).value;
            |s'.devices| == |s.devices| + 1 && ListsShare(s', weight, q)
  {
    JoinerGetsItsShare(e, s, zone, weight, rnd, q);
  }

  /**
   Over a whole moving join: with `q` the number of listed vnodes per unit of weight, the joiner's included, rounded
   toward zero, no donor marks more than it lists over q times its weight, and one that lists no more marks none.
   */
  lemma MarksWithinShare(e: Edition, s: State, zone: int, weight: int, rnd: nat -> nat, d: nat, q: int)
    requires Inv(e, s) && d < |s.devices| && MoveJoin(e, s, zone, weight, rnd).Ok?
    requires IsQuotient(q, TotalCount(s.devices), TotalWeight(s.devices) + weight)
    ensures MarksOver(s, MoveJoin(e, s, zone, weight, rnd).value, d, q)
  {
    AverageIs(TotalCount(s.devices), TotalWeight(s.devices) + weight, q);
    MarksOverAverage(e, s, zone, weight, rnd, d, q);
  }

  /** Repaired: with the same `q`, the joining device lists at least q times its weight, or some donor is exhausted. */
  lemma JoinerListsItsShare(e: Edition, s: State, zone: int, weight: int, rnd: nat -> nat, q: int)
    requires Inv(e, s) && e.drawsFromCopy && MoveJoin(e, s, zone, weight, rnd).Ok?
    requires IsQuotient(q, TotalCount(s.devices), TotalWeight(s.devices) + weight)
    ensures var s' := MoveJoin(e, s, zone, weight, rnd).value;
            |s'.devices| == |s.devices| + 1 && ListsShare(s', weight, q)
  {
    AverageIs(TotalCount(s.devices), TotalWeight(s.devices) + weight, q);
    ListsAverage(e, s, zone, weight, rnd, q);
  }

  // ---------------------------------------------------------------------------------------------
  // What is counted
  // ---------------------------------------------------------------------------------------------

  /** The weights of all devices are summed, each once. */
  lemma {:induction false} TotalWeightIs(devices: seq<Device>, dev: Device)
    ensures TotalWeight([]) == 0 && TotalWeight(devices + [dev]) == TotalWeight(devices) + dev.weight
    ensures TotalCount([]) == 0 && TotalCount(devices + [dev]) == TotalCount(devices) + |dev.listed|
  {
    if devices != [] {
      TotalWeightIs(devices[1..], dev);
      assert (devices + [dev])[1..] == devices[1..] + [dev];
    } else {
      assert [dev][1..] == [];
    }
  }

  /** The devices that list `v`. */
  ghost function Listing(devices: seq<Device>, v: nat): set<nat> {
    set d: nat | d < |devices| && v in devices[d].listed
  }

  /** Of the vnodes below `n`: by how many devices each is listed, summed. */
  ghost function Listings(devices: seq<Device>, n: nat): nat {
    if n == 0 then 0 else Listings(devices, n - 1) + |Listing(devices, n - 1)|
  }

  ghost function Among(list: seq<nat>, n: nat): set<nat> {
    set v | v in list && v < n
  }

  lemma ListingMore(devices: seq<Device>, dev: Device, v: nat)
    ensures |Listing(devices + [dev], v)| == |Listing(devices, v)| + if v in dev.listed then 1 else 0
  {
    var more := Listing(devices + [dev], v);
    assert more == Listing(devices, v) + if v in dev.listed then {|devices|} else {};
  }

  lemma AmongMore(list: seq<nat>, n: nat)
    ensures |Among(list, n + 1)| == |Among(list, n)| + if n in list then 1 else 0
  {
    assert Among(list, n + 1) == Among(list, n) + if n in list then {n} else {};
  }

  lemma {:induction false} ListingsMore(devices: seq<Device>, dev: Device, n: nat)
    ensures Listings(devices + [dev], n) == Listings(devices, n) + |Among(dev.listed, n)|
  {
    if n == 0 {
      assert Among(dev.listed, 0) == {};
    } else {
      ListingsMore(devices, dev, n - 1);
      ListingMore(devices, dev, n - 1);
      AmongMore(dev.listed, n - 1);
    }
  }

  lemma RestOnce(list: seq<nat>)
    requires list != [] && NoDuplicates(list)
    ensures NoDuplicates(list[1..]) && forall v :: v in list <==> v == list[0] || v in list[1..]
    ensures list[0] !in list[1..]
  {
    assert list == [list[0]] + list[1..];
    forall i, j | 0 <= i < j < |list[1..]|
      ensures list[1..][i] != list[1..][j]
    {
      assert list[i + 1] != list[j + 1];
    }
  }

  lemma {:induction false} AllAmong(list: seq<nat>, n: nat)
    requires NoDuplicates(list) && forall v :: v in list ==> v < n
    ensures |Among(list, n)| == |list|
  {
    if list == [] {
      assert Among(list, n) == {};
    } else {
      RestOnce(list);
      AllAmong(list[1..], n);
      assert Among(list, n) == Among(list[1..], n) + {list[0]};
    }
  }

  lemma {:induction false} CountIsListings(devices: seq<Device>, n: nat)
    requires forall d: nat :: d < |devices| ==>
               NoDuplicates(devices[d].listed) && forall v :: v in devices[d].listed ==> v < n
    ensures TotalCount(devices) == Listings(devices, n)
    decreases |devices|
  {
    if devices == [] {
      NoListings(n);
    } else {
      var rest, dev := devices[..|devices| - 1], devices[|devices| - 1];
      assert devices == rest + [dev];
      CountIsListings(rest, n);
      TotalWeightIs(rest, dev);
      ListingsMore(rest, dev, n);
      AllAmong(dev.listed, n);
    }
  }

  lemma {:induction false} NoListings(n: nat)
    ensures Listings([], n) == 0
  {
    if n > 0 {
      NoListings(n - 1);
      assert Listing([], n - 1) == {};
    }
  }

  /** The replicas of the vnodes below `n`. */
  function ReplicasBelow(s: State, n: nat): nat
    requires n <= |s.vnodes|
  {
    if n == 0 then 0 else ReplicasBelow(s, n - 1) + |s.vnodes[n - 1].replicas|
  }

  ghost function Devs(rs: seq<Replica>): set<nat> {
    set r | r in rs :: r.dev
  }

  lemma {:induction false} DevsCount(rs: seq<Replica>)
    requires Distinct(rs)
    ensures |Devs(rs)| == |rs|
  {
    if rs != [] {
      DevsCount(rs[1..]);
      assert rs == [rs[0]] + rs[1..];
      assert Devs(rs) == Devs(rs[1..]) + {rs[0].dev};
    }
  }

  lemma DevIsThere(rs: seq<Replica>, d: nat)
    ensures d in Devs(rs) <==> StatusOf(rs, d).Some?
  {
    var i := Find(rs, d);
    if i < |rs| {
      assert rs[i] in rs;
    }
  }

  lemma ListingIsDevs(e: Edition, s: State, v: nat)
    requires Inv(e, s) && Exact(e) && v < |s.vnodes|
    ensures |Listing(s.devices, v)| == |s.vnodes[v].replicas|
  {
    var rs := s.vnodes[v].replicas;
    assert VnodeInv(e, s.devices, rs, v);
    forall d: nat
      ensures d in Listing(s.devices, v) <==> d in Devs(rs)
    {
      DevIsThere(rs, d);
      if d < |s.devices| {
        assert v in s.devices[d].listed <==> multiset(s.devices[d].listed)[v] > 0;
      }
    }
    assert Listing(s.devices, v) == Devs(rs);
    DevsCount(rs);
  }

  lemma {:induction false} ListingsAreReplicas(s: State, n: nat)
    requires n <= |s.vnodes|
    requires forall v: nat :: v < |s.vnodes| ==> |Listing(s.devices, v)| == |s.vnodes[v].replicas|
    ensures Listings(s.devices, n) == ReplicasBelow(s, n)
  {
    if n > 0 {
      ListingsAreReplicas(s, n - 1);
    }
  }

  /** What the devices list, counted together, is the number of replicas of all vnodes, in the exact editions. */
  lemma TotalCountIsReplicas(e: Edition, s: State)
    requires Inv(e, s) && Exact(e)
    ensures TotalCount(s.devices) == ReplicasBelow(s, |s.vnodes|)
  {
    forall d: nat | d < |s.devices|
      ensures NoDuplicates(s.devices[d].listed)
    {
      ListedOnce(e, s, d);
    }
    CountIsListings(s.devices, |s.vnodes|);
    forall v: nat | v < |s.vnodes|
      ensures |Listing(s.devices, v)| == |s.vnodes[v].replicas|
    {
      ListingIsDevs(e, s, v);
    }
    ListingsAreReplicas(s, |s.vnodes|);
  }
}
