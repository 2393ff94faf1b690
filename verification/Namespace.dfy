/**
 The namespace: which vnode a path belongs to, and how evenly the keys are shared out.
 */
module Namespace {
  import opened ProxyTypes
  import opened Framing
  import opened Hex
  import opened Md5

  const LONG: int := 0x1_0000_0000_0000_0000

  // ---------------------------------------------------------------------------------------------
  // The string hash
  // ---------------------------------------------------------------------------------------------

  /** The polynomial hash of `s` with seed 131 behind `acc`, modulo 2^64. */
  function Hash(s: seq<Byte>, acc: nat): nat {
    if s == [] then acc else Hash(s[1..], (acc * 131 + s[0]) % LONG)
  }

  /** Every second element, the first included. */
  function EverySecond(s: seq<Byte>): (t: seq<Byte>)
    ensures |t| == (|s| + 1) / 2
    ensures forall i :: 0 <= i < |t| ==> t[i] == s[2 * i]
  {
    if s == [] then [] else if |s| == 1 then s else [s[0]] + EverySecond(s[2..])
  }

  lemma {:induction false} HashAppend(s: seq<Byte>, b: Byte, acc: nat)
    ensures Hash(s + [b], acc) == (Hash(s, acc) * 131 + b) % LONG
    decreases |s|
  {
    if s != [] {
      assert (s + [b])[1..] == s[1..] + [b];
      HashAppend(s[1..], b, (acc * 131 + s[0]) % LONG);
    } else {
      assert (s + [b])[1..] == [];
    }
  }

  /** bkdr_hash. Its pointer moves twice in a round, so every second byte is left out. */
  method BkdrHash(str: seq<Byte>) returns (hash: nat)
    ensures hash == Hash(EverySecond(str), 0)
    ensures hash < LONG
  {
    hash := 0;
    var p := 0;
    ghost var every, k := EverySecond(str), 0;
    while p < |str|
      invariant p == 2 * k && 0 <= k <= |every|
      invariant hash == Hash(every[..k], 0) && hash < LONG
    {
      assert every[..k + 1] == every[..k] + [str[p]];
      HashAppend(every[..k], str[p], 0);
      hash := (hash * 131 + str[p]) % LONG;
      p := p + 1;
      p, k := p + 1, k + 1;
    }
    assert every[..k] == every;
  }

  // ---------------------------------------------------------------------------------------------
  // The partition
  // ---------------------------------------------------------------------------------------------

  /** The vnode of a key, when there are `n` keys and `c` vnodes. */
  function VnodeOf(key: nat, n: nat, c: nat): (id: nat)
    requires 0 < c <= n
    ensures id < c
  {
    Quotient(n, c);
    VnodeAt(key, n / c, c)
  }

  function VnodeAt(key: nat, partition: nat, c: nat): (id: nat)
    requires partition > 0 && c > 0
    ensures id < c
  {
    (key / partition + 1) % c
  }

  lemma Quotient(n: nat, c: nat)
    requires 0 < c <= n
    ensures n / c >= 1 && n == n / c * c + n % c
  {
    var q := n / c;
    assert n == q * c + n % c;
    assert q <= 0 ==> q * c <= 0;
  }

  /** The keys of a vnode. */
  ghost function Keys(n: nat, c: nat, id: nat): set<nat>
    requires 0 < c <= n
  {
    set k: nat | k < n && VnodeOf(k, n, c) == id
  }

  predicate NotBelow(k: int, a: int) {
    a <= k
  }

  ghost function Range(a: int, b: int): set<nat> {
    set k: nat | k < b && NotBelow(k, a)
  }

  lemma {:induction false} RangeSize(a: nat, b: int)
    ensures |Range(a, b)| == if a < b then b - a else 0
    decreases b - a
  {
    if a < b {
      RangeSize(a + 1, b);
      assert Range(a, b) == {a} + Range(a + 1, b);
    } else {
      assert Range(a, b) == {};
    }
  }

  /** Being in the `b`-th stretch of `q` keys. */
  lemma InStretch(k: nat, q: nat, b: nat)
    requires q > 0
    ensures k / q == b <==> b * q <= k < b * q + q
  {
    var d := k / q - b;
    assert k == k / q * q + k % q;
    assert d * q == k / q * q - b * q;
    assert d >= 1 ==> (d - 1) * q >= 0;
    assert d <= -1 ==> (-1 - d) * q >= 0;
  }

  /** Which stretches go to a vnode: stretch `First`, and that `c` further on. */
  function First(c: nat, id: nat): (j: nat)
    requires id < c
    ensures j < c
  {
    if id == 0 then c - 1 else id - 1
  }

  lemma Wraps(x: nat, c: nat)
    requires 0 < c && x <= 2 * c
    ensures x % c == if x < c then x else if x < 2 * c then x - c else 0
  {
    var q := x / c;
    assert x == q * c + x % c;
    assert q >= 3 ==> (q - 3) * c >= 0;
    assert q <= 2 ==> q == 0 || q == 1 || q == 2;
  }

  lemma StretchesOf(b: nat, c: nat, id: nat)
    requires id < c && b < 2 * c
    ensures (b + 1) % c == id <==> b == First(c, id) || b == First(c, id) + c
  {
    Wraps(b + 1, c);
  }

  lemma Sum(a: int, b: int, q: int)
    ensures (a + b) * q == a * q + b * q
  {
  }

  lemma AtLeastZero(a: nat, q: nat)
    ensures a * q >= 0
  {
  }

  lemma Ordered(a: nat, b: nat, q: nat)
    requires a <= b
    ensures a * q <= b * q
  {
    Sum(a, b - a, q);
    AtLeastZero(b - a, q);
  }

  lemma Fewer(a: nat, b: nat, q: nat, x: int)
    requires a * q <= x < b * q
    ensures a < b
  {
    if b <= a {
      Ordered(b, a, q);
    }
  }

  lemma FewStretches(k: nat, n: nat, c: nat)
    requires 0 < c <= n && k < n
    ensures n / c > 0 && k / (n / c) < 2 * c
  {
    Quotient(n, c);
    var q := n / c;
    assert k == k / q * q + k % q;
    Ordered(1, q, c);
    Commute(q, c);
    Sum(c, c, q);
    Fewer(k / q, 2 * c, q, k);
  }

  lemma Commute(a: int, b: int)
    ensures a * b == b * a
  {
  }

  lemma Products(c: nat, q: nat, j: nat)
    requires j < c && q > 0
    ensures c <= c * q && 0 <= j * q && j * q + q <= c * q && (j + c) * q == j * q + c * q
  {
    Ordered(1, q, c);
    Commute(q, c);
    AtLeastZero(j, q);
    Sum(j, 1, q);
    Ordered(j + 1, c, q);
    Sum(j, c, q);
  }

  lemma InStretchOf(k: nat, q: nat, b: nat, c: nat)
    requires q > 0 && c > 0 && b * q <= k < b * q + q
    ensures VnodeAt(k, q, c) == (b + 1) % c
  {
    InStretch(k, q, b);
  }

  /** The keys of the `b`-th stretch of `q` keys, counted from 0, go to the vnode after `b`, counted round. */
  lemma StretchGoesTo(k: nat, n: nat, c: nat, b: nat, q: nat)
    requires 0 < c <= n && q == n / c && b * q <= k < b * q + q
    ensures VnodeOf(k, n, c) == (b + 1) % c
  {
    Quotient(n, c);
    InStretchOf(k, q, b, c);
  }

  /** How many keys a vnode has: `q`, and what reaches into its second stretch. */
  function Load(n: nat, c: nat, id: nat): int
    requires 0 < c <= n && id < c
  {
    Share(n / c, n % c - First(c, id) * (n / c))
  }

  function Share(q: int, excess: int): int {
    q + if excess <= 0 then 0 else if excess <= q then excess else q
  }

  lemma KeyIs(k: nat, n: nat, c: nat, id: nat)
    requires 0 < c <= n && id < c && k < n
    ensures var q, j := n / c, First(c, id);
            VnodeOf(k, n, c) == id <==> j * q <= k < j * q + q || j * q + c * q <= k < j * q + c * q + q
  {
    Quotient(n, c);
    var q, j := n / c, First(c, id);
    FewStretches(k, n, c);
    StretchesOf(k / q, c, id);
    InStretch(k, q, j);
    InStretch(k, q, j + c);
    Products(c, q, j);
  }

  /** A vnode's keys are its two stretches. */
  lemma KeysAre(n: nat, c: nat, id: nat, first: nat, second: nat, q: nat)
    requires 0 < c <= n && id < c && q == n / c && first == First(c, id) * q && second == first + c * q
    requires first + q <= n
    ensures Keys(n, c, id) == Range(first, first + q) + Range(second, if second + q < n then second + q else n)
  {
    var end := if second + q < n then second + q else n;
    forall k: nat
      ensures k in Keys(n, c, id) <==> k in Range(first, first + q) || k in Range(second, end)
    {
      if k < n {
        KeyIs(k, n, c, id);
      }
    }
  }

  lemma StretchSizes(n: nat, first: nat, second: nat, q: nat)
    requires first + q <= second
    ensures var end := if second + q < n then second + q else n;
            |Range(first, first + q) + Range(second, end)| ==
            q + if n <= second then 0 else if n - second <= q then n - second else q
  {
    var end := if second + q < n then second + q else n;
    RangeSize(first, first + q);
    RangeSize(second, end);
    Disjoint(first, first + q, second, end);
  }

  lemma StretchCount(n: nat, c: nat, id: nat, q: nat, r: nat, first: nat, all: nat)
    requires 0 < c <= n && id < c && n == all + r && r <= all && first + q <= all
    requires Keys(n, c, id) ==
             Range(first, first + q) + Range(first + all, if first + all + q < n then first + all + q else n)
    ensures |Keys(n, c, id)| == Share(q, r - first)
  {
    StretchSizes(n, first, first + all, q);
  }

  /** The two stretches, when `all` of the `n` keys are in whole stretches and `first` is where the first one begins. */
  lemma TwoStretches(n: nat, c: nat, id: nat, q: nat, r: nat, first: nat, all: nat)
    requires 0 < c <= n && id < c && q == n / c && first == First(c, id) * q && all == c * q
    requires n == all + r && r <= all && first + q <= all
    ensures |Keys(n, c, id)| == Share(q, r - first)
  {
    KeysAre(n, c, id, first, first + all, q);
    StretchCount(n, c, id, q, r, first, all);
  }

  /** Exactly so many keys go to each vnode. */
  lemma LoadIs(n: nat, c: nat, id: nat)
    requires 0 < c <= n && id < c
    ensures |Keys(n, c, id)| == Load(n, c, id)
  {
    Quotient(n, c);
    var q := n / c;
    Products(c, q, First(c, id));
    Commute(q, c);
    TwoStretches(n, c, id, q, n % c, First(c, id) * q, c * q);
  }

  lemma Disjoint(a: nat, b: int, c: nat, d: int)
    requires b <= c
    ensures |Range(a, b) + Range(c, d)| == |Range(a, b)| + |Range(c, d)|
  {
    assert Range(a, b) !! Range(c, d);
  }

  /**
   Every vnode gets at least q = n / c keys. When q is at least the remainder, all the excess goes to vnode
   (c + 1) % c, and no two loads differ by c or more.
   */
  lemma EvenShares(n: nat, c: nat, id: nat)
    requires 1 < c <= n && id < c
    ensures |Keys(n, c, id)| >= n / c >= 1
    ensures n / c >= n % c ==> |Keys(n, c, id)| == n / c + if id == (c + 1) % c then n % c else 0
    ensures forall other: nat :: other < c ==> |Keys(n, c, id)| - |Keys(n, c, other)| < c
  {
    Quotient(n, c);
    LoadIs(n, c, id);
    Wraps(c + 1, c);
    LoadBounds(n, c, id);
    forall other: nat | other < c
      ensures |Keys(n, c, id)| - |Keys(n, c, other)| < c
    {
      LoadIs(n, c, other);
      LoadBounds(n, c, other);
    }
  }

  lemma LoadBounds(n: nat, c: nat, id: nat)
    requires 0 < c <= n && id < c
    ensures n / c <= Load(n, c, id) <= n / c + n % c
    ensures n / c >= n % c ==> Load(n, c, id) == n / c + if First(c, id) == 0 then n % c else 0
  {
    Quotient(n, c);
    var q, j := n / c, First(c, id);
    AtLeastZero(j, q);
    if j >= 1 {
      Ordered(1, j, q);
    }
  }

  // ---------------------------------------------------------------------------------------------
  // Paths
  // ---------------------------------------------------------------------------------------------

  function PowerOfTwo(p: nat): (n: nat)
    ensures n > 0
  {
    if p == 0 then 1 else 2 * PowerOfTwo(p - 1)
  }

  /** The key of a path: its MD5 digest in hexadecimal, hashed. */
  function KeyOf(h: Transform, path: seq<Byte>, n: nat): (key: nat)
    requires n > 0
    ensures key < n
  {
    Hash(EverySecond(ToHex(Digest(h, path))), 0) % n
  }

  /** The bytes before the first zero byte, as strlen counts them. */
  function Terminated(s: seq<Byte>): (t: seq<Byte>) {
    if s == [] || s[0] == 0 then [] else [s[0]] + Terminated(s[1..])
  }

  lemma {:induction false} TerminatedIs(s: seq<Byte>, n: nat)
    requires n <= |s| && (forall i :: 0 <= i < n ==> s[i] != 0) && (n < |s| ==> s[n] == 0)
    ensures Terminated(s) == s[..n]
    decreases n
  {
    if n > 0 {
      TerminatedIs(s[1..], n - 1);
    }
  }

  lemma TextIs(buffer: seq<Byte>, digest: seq<Byte>)
    requires |buffer| == 33 && |digest| == 16 && buffer[..32] == ToHex(digest) && buffer[32] == 0
    ensures Terminated(buffer) == ToHex(digest)
  {
    HexHasNoZero(digest);
    assert forall i :: 0 <= i < 32 ==> buffer[i] == buffer[..32][i];
    TerminatedIs(buffer, 32);
  }

  function Power131(k: nat): nat {
    if k == 0 then 1 else 131 * Power131(k - 1)
  }

  /** The elements from position `i` on, each times the power of 131 of its distance from the end. */
  function Weighted(s: seq<Byte>, i: nat): nat
    requires i <= |s|
    decreases |s| - i
  {
    if i == |s| then 0 else s[i] * Power131(|s| - 1 - i) + Weighted(s, i + 1)
  }

  lemma ModLong(a: nat, b: nat)
    ensures (a % LONG * 131 + b) % LONG == (a * 131 + b) % LONG
  {
    assert a == a / LONG * LONG + a % LONG;
    assert a * 131 + b == a / LONG * 131 * LONG + (a % LONG * 131 + b);
  }

  lemma {:induction false} WeightedMore(s: seq<Byte>, b: Byte, i: nat)
    requires i <= |s|
    ensures Weighted(s + [b], i) == 131 * Weighted(s, i) + b
    decreases |s| - i
  {
    var more := s + [b];
    if i < |s| {
      WeightedMore(s, b, i + 1);
      var (x: int, p: int) := (s[i], Power131(|s| - 1 - i));
      assert more[i] == s[i] && Power131(|more| - 1 - i) == 131 * p;
      assert x * (131 * p) == 131 * (x * p);
    } else {
      assert more[i] == b && Power131(0) == 1;
      assert Weighted(more, i + 1) == 0;
    }
  }

  /** The string hash is the weighted sum modulo 2^64. */
  lemma {:induction false} HashIsSum(s: seq<Byte>)
    ensures Hash(s, 0) == Weighted(s, 0) % LONG
    decreases |s|
  {
    if s != [] {
      var rest, b := s[..|s| - 1], s[|s| - 1];
      assert s == rest + [b];
      HashIsSum(rest);
      HashAppend(rest, b, 0);
      WeightedMore(rest, b, 0);
      ModLong(Weighted(rest, 0), b);
    }
  }

  /** '0' to '9' and 'A' to 'F'. */
  predicate IsUpperHex(digit: nat -> int) {
    (forall d: nat :: d < 10 ==> digit(d) == 48 + d) && (forall d: nat :: 10 <= d < 16 ==> digit(d) == 65 + d - 10)
  }

  /** The high digit of each byte from position `i` on, times the power of 131 of the byte's distance from the end. */
  function HighDigits(bytes: seq<Byte>, digit: nat -> int, i: nat): int
    requires i <= |bytes|
    decreases |bytes| - i
  {
    if i == |bytes| then 0
    else digit(bytes[i] / 16) * Power131(|bytes| - 1 - i) + HighDigits(bytes, digit, i + 1)
  }

  lemma {:induction false} WeightedHighs(bytes: seq<Byte>, highs: seq<Byte>, digit: nat -> int, i: nat)
    requires |highs| == |bytes| && i <= |bytes|
    requires forall j :: 0 <= j < |bytes| ==> highs[j] == digit(bytes[j] / 16)
    ensures Weighted(highs, i) == HighDigits(bytes, digit, i)
    decreases |bytes| - i
  {
    if i < |bytes| {
      WeightedHighs(bytes, highs, digit, i + 1);
    }
  }

  lemma HashOfHex(bytes: seq<Byte>, digit: nat -> int)
    requires IsUpperHex(digit)
    ensures Hash(EverySecond(ToHex(bytes)), 0) == HighDigits(bytes, digit, 0) % LONG
  {
    var highs := EverySecond(ToHex(bytes));
    HashIsSum(highs);
    forall j | 0 <= j < |bytes|
      ensures highs[j] == digit(bytes[j] / 16)
    {
      ToHexAt(bytes, j);
      assert highs[j] == ToHex(bytes)[2 * j];
    }
    WeightedHighs(bytes, highs, digit, 0);
  }

  /**
   Since the hash leaves out every second character, the key is made of the high digits of the digest alone: their
   characters, weighted with powers of 131, modulo 2^64 and then modulo the number of keys.
   */
  lemma KeyIsSum(h: Transform, digit: nat -> int, path: seq<Byte>, n: nat)
    requires n > 0 && IsUpperHex(digit)
    ensures KeyOf(h, path, n) == HighDigits(Digest(h, path), digit, 0) % LONG % n
  {
    HashOfHex(Digest(h, path), digit);
  }

  lemma {:induction false} SameHighDigits(a: seq<Byte>, b: seq<Byte>, digit: nat -> int, i: nat)
    requires |a| == |b| && i <= |a| && forall j :: 0 <= j < |a| ==> a[j] / 16 == b[j] / 16
    ensures HighDigits(a, digit, i) == HighDigits(b, digit, i)
    decreases |a| - i
  {
    if i < |a| {
      SameHighDigits(a, b, digit, i + 1);
    }
  }

  /** Two paths whose digests differ in low digits only have the same key, and so the same vnode. */
  lemma LowDigitsDoNotMatter(h: Transform, a: seq<Byte>, b: seq<Byte>, n: nat)
    requires n > 0
    requires forall i :: 0 <= i < 16 ==> Digest(h, a)[i] / 16 == Digest(h, b)[i] / 16
    ensures KeyOf(h, a, n) == KeyOf(h, b, n)
  {
    var digit := (d: nat) => if d < 10 then 48 + d else 55 + d;
    KeyIsSum(h, digit, a, n);
    KeyIsSum(h, digit, b, n);
    SameHighDigits(Digest(h, a), Digest(h, b), digit, 0);
  }

  type Int32 = i: int | -0x8000_0000 <= i < 0x8000_0000

  class NameSpaceHash {
    const namePower: nat
    const vnodeCount: Int32

    constructor (namePower: nat, vnodeCount: Int32)
      requires namePower < 64
      ensures this.namePower == namePower && this.vnodeCount == vnodeCount
    {
      this.namePower, this.vnodeCount := namePower, vnodeCount;
    }

    /**
     get_vnode_id. A vnode count that is negative, as an unsigned number, or larger than the number of keys makes the
     partition empty; that or a count of zero is a division by zero. A path may also be too long for the digest.
     */
    method GetVnodeId(h: Transform, path: seq<Byte>) returns (id: Outcome<int>)
      requires namePower < 64
      ensures id.Ok? <==> 1 <= vnodeCount <= PowerOfTwo(namePower) && !Overruns(0, |path|)
      ensures id.Ok? ==> var n := PowerOfTwo(namePower); id == Ok(VnodeOf(KeyOf(h, path, n), n, vnodeCount))
      ensures forall digit: nat -> int :: id.Ok? && IsUpperHex(digit) ==>
                var n := PowerOfTwo(namePower);
                id == Ok(VnodeOf(HighDigits(Digest(h, path), digit, 0) % LONG % n, n, vnodeCount))
    {
      var n := PowerOfTwo(namePower);
      var text := TextOf(h, path);
      if text.Fault? {
        return Fault;
      }
      var hash := BkdrHash(text.value);
      id := Partition(n, hash % n);
      forall digit: nat -> int | IsUpperHex(digit)
        ensures KeyOf(h, path, n) == HighDigits(Digest(h, path), digit, 0) % LONG % n
      {
        KeyIsSum(h, digit, path, n);
      }
    }

    method Partition(n: nat, key: nat) returns (id: Outcome<int>)
      requires namePower < 64 && n == PowerOfTwo(namePower) && key < n
      ensures id.Ok? <==> 1 <= vnodeCount <= n
      ensures id.Ok? ==> id == Ok(VnodeOf(key, n, vnodeCount))
    {
      var count: int := vnodeCount;
      if count < 0 {
        count := count + LONG;
      }
      if count == 0 {
        return Fault;
      }
      PartitionIs(n, vnodeCount, namePower, count);
      var partition := n / count;
      if partition == 0 {
        return Fault;
      }
      return Ok(VnodeAt(key, partition, count));
    }

    /** The digest of the path as text, up to the zero byte behind it. */
    method TextOf(h: Transform, path: seq<Byte>) returns (text: Outcome<seq<Byte>>)
      ensures text == if Overruns(0, |path|) then Fault else Ok(ToHex(Digest(h, path)))
    {
      var md5 := new MD5(h);
      md5.Reset();
      IndexIs(h, md5.View(), []);
      if !Overruns(0, |path|) {
        UpdateTakesIn(h, md5.View(), [], path);
        assert [] + path == path;
      }
      var ok := md5.Update(path);
      if !ok {
        return Fault;
      }
      FinalCovers(h, md5.View(), path);
      var buffer := new Byte[33];
      ok := md5.ToString(buffer);
      TextIs(buffer[..], md5.result);
      return Ok(Terminated(buffer[..]));
    }
  }

  lemma KeysFit(p: nat)
    requires p < 64
    ensures PowerOfTwo(p) <= 0x8000_0000_0000_0000
  {
    PowerSum(p, 63 - p);
    Power63();
    assert PowerOfTwo(p) * (PowerOfTwo(63 - p) - 1) >= 0;
  }

  lemma Power63()
    ensures PowerOfTwo(63) == 0x8000_0000_0000_0000
  {
    assert PowerOfTwo(16) == 0x1_0000;
    PowerSum(16, 16);
    PowerSum(32, 16);
    PowerSum(48, 15);
    assert PowerOfTwo(15) == 0x8000;
  }

  lemma Twice(a: int, b: int)
    ensures a * (2 * b) == 2 * (a * b)
  {
  }

  lemma {:induction false} PowerSum(a: nat, b: nat)
    ensures PowerOfTwo(a + b) == PowerOfTwo(a) * PowerOfTwo(b)
    decreases b
  {
    if b > 0 {
      PowerSum(a, b - 1);
      Twice(PowerOfTwo(a), PowerOfTwo(b - 1));
    }
  }

  lemma QuotientZero(n: nat, c: nat)
    requires c > 0
    ensures n / c >= 0 && (n / c == 0 <==> n < c)
  {
    if c <= n {
      Quotient(n, c);
    } else {
      assert n / c == 0;
    }
  }

  lemma PartitionIs(n: nat, count: Int32, p: nat, c: nat)
    requires p < 64 && n == PowerOfTwo(p) && count != 0 && c == if count < 0 then count + LONG else count
    ensures c > 0 && (n / c == 0 <==> !(1 <= count <= n))
  {
    KeysFit(p);
    QuotientZero(n, c);
    var signed: int := count;
    assert n < c <==> !(1 <= signed <= n);
  }
}
