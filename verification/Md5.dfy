/**
 The incremental MD5 object: buffering, bit count, padding and the digest. The transformation of one block is a
 parameter, `h`; what is proved holds for any.
 */
module Md5 {
  import opened ProxyTypes
  import opened Framing
  import opened Hex

  const WORD: int := 0x1_0000_0000

  /** A word; the arithmetic on words is modulo WORD. */
  type Word = w: int | 0 <= w < 0x1_0000_0000

  datatype Words = Words(a: Word, b: Word, c: Word, d: Word)

  /** How much of a file is read at once, KL_COMMON_BUF_SIZE. */
  const CHUNK: nat := 4096

  const INIT := Words(0x67452301, 0xefcdab89, 0x98badcfe, 0x10325476)

  type Transform = (Words, seq<Byte>) -> Words

  // ---------------------------------------------------------------------------------------------
  // The standard
  // ---------------------------------------------------------------------------------------------

  /** Four bytes, lowest first. */
  function EncodeWord(w: Word): (s: seq<Byte>)
    ensures |s| == 4
  {
    [w % 256, w / 0x100 % 256, w / 0x1_0000 % 256, w / 0x100_0000 % 256]
  }

  function DecodeWord(s: seq<Byte>): Word
    requires |s| == 4
  {
    var (a: int, b: int, c: int, d: int) := (s[0], s[1], s[2], s[3]);
    a + b * 0x100 + c * 0x1_0000 + d * 0x100_0000
  }

  lemma DecodeEncoded(w: Word)
    ensures DecodeWord(EncodeWord(w)) == w
  {
    var x: int := w;
    var q := x / 0x100;
    var q' := q / 0x100;
    assert x / 0x1_0000 == q' && x / 0x100_0000 == q' / 0x100;
    assert x == x % 256 + 0x100 * (q % 256 + 0x100 * (q' % 256 + 0x100 * (q' / 0x100)));
  }

  lemma EncodeDecoded(s: seq<Byte>)
    requires |s| == 4
    ensures EncodeWord(DecodeWord(s)) == s
  {
    var (b: int, c: int, d: int) := (s[1], s[2], s[3]);
    var x := DecodeWord(s);
    assert x / 0x100 == b + c * 0x100 + d * 0x1_0000;
    assert x / 0x1_0000 == c + d * 0x100;
    assert x / 0x100_0000 == d;
  }

  /** encode and decode undo each other, word by word. */
  lemma WordRoundTrip(w: Word, s: seq<Byte>)
    ensures DecodeWord(EncodeWord(w)) == w
    ensures |s| == 4 ==> EncodeWord(DecodeWord(s)) == s
  {
    DecodeEncoded(w);
    if |s| == 4 {
      EncodeDecoded(s);
    }
  }

  function EncodeWords(w: Words): seq<Byte> {
    EncodeWord(w.a) + EncodeWord(w.b) + EncodeWord(w.c) + EncodeWord(w.d)
  }

  /** The state after all whole blocks of `data`. */
  function Blocks(h: Transform, s: Words, data: seq<Byte>): Words
    decreases |data|
  {
    if |data| < 64 then s else Blocks(h, h(s, data[..64]), data[64..])
  }

  /** What is left of `data` behind its whole blocks. */
  function Tail(data: seq<Byte>): (t: seq<Byte>)
    ensures |t| < 64 && |t| <= |data|
    decreases |data|
  {
    if |data| < 64 then data else Tail(data[64..])
  }

  function Zeros(n: nat): (s: seq<Byte>)
    ensures |s| == n && forall i :: 0 <= i < n ==> s[i] == 0
  {
    seq(n, _ => 0)
  }

  /** The length in bits, modulo 2^64, low-order word first. */
  function LengthBytes(n: nat): (s: seq<Byte>)
    ensures |s| == 8
  {
    EncodeWord(8 * n % WORD) + EncodeWord(8 * n / WORD % WORD)
  }

  /** How many padding bytes bring a length of `n` to 56 modulo 64: at least one. */
  function PadCount(n: nat): (k: nat)
    ensures 1 <= k <= 64 && (n + k) % 64 == 56
  {
    if n % 64 < 56 then 56 - n % 64 else 120 - n % 64
  }

  /** Sections 3.1 and 3.2 of RFC 1321: a one bit, zeros, the length. */
  function Padding(n: nat): seq<Byte> {
    [0x80] + Zeros(PadCount(n) - 1) + LengthBytes(n)
  }

  /** Sections 3.1 to 3.5 of RFC 1321. */
  function Digest(h: Transform, message: seq<Byte>): seq<Byte> {
    EncodeWords(Blocks(h, INIT, message + Padding(|message|)))
  }

  // ---------------------------------------------------------------------------------------------
  // The object's operations on values
  // ---------------------------------------------------------------------------------------------

  /** `lo` and `hi` are m_count. */
  datatype Context = Context(state: Words, lo: Word, hi: Word, buffer: seq<Byte>)

  function Index(c: Context): (i: nat)
    ensures i < 64
  {
    c.lo / 8 % 64
  }

  /** The bit count after `n` more bytes, with the carry as the source computes it. */
  function CountLow(lo: Word, n: nat): Word {
    (lo + n % WORD * 8 % WORD) % WORD
  }

  function CountHigh(lo: Word, hi: Word, n: nat): Word {
    var carried := if CountLow(lo, n) < n % WORD * 8 % WORD then (hi + 1) % WORD else hi;
    (carried + n % WORD / 0x2000_0000) % WORD
  }

  /** The 32-bit counter of the block loop wraps before it gets to the last byte. */
  predicate Overruns(index: nat, n: nat)
    requires index < 64
  {
    n >= 64 - index && 64 - index + (n - (64 - index)) / 64 * 64 + 63 >= WORD
  }

  /** update. */
  function Updated(h: Transform, c: Context, input: seq<Byte>): (r: Outcome<Context>)
    requires |c.buffer| == 64
    ensures r.Ok? ==> |r.value.buffer| == 64
  {
    var i := Index(c);
    if Overruns(i, |input|) then Fault
    else
      var all := c.buffer[..i] + input;
      var tail := Tail(all);
      var old_ := if |all| < 64 then c.buffer else all[..64];
      Ok(Context(Blocks(h, c.state, all), CountLow(c.lo, |input|), CountHigh(c.lo, c.hi, |input|),
                 tail + old_[|tail|..]))
  }

  function PADDING(): (s: seq<Byte>)
    ensures |s| == 64
  {
    [0x80] + Zeros(63)
  }

  /** final: the digest, and the object with state and count restored, but not the buffer. */
  function Finished(h: Transform, c: Context): (r: Outcome<(seq<Byte>, Context)>)
    requires |c.buffer| == 64
    ensures r.Ok? ==> |r.value.1.buffer| == 64
  {
    var bits := EncodeWord(c.lo) + EncodeWord(c.hi);
    var c1 :- Updated(h, c, PADDING()[..PadCount(Index(c))]);
    var c2 :- Updated(h, c1, bits);
    Ok((EncodeWords(c2.state), c.(buffer := c2.buffer)))
  }

  // ---------------------------------------------------------------------------------------------
  // What the object represents
  // ---------------------------------------------------------------------------------------------

  /** The object has taken in `message`. */
  ghost predicate Represents(h: Transform, c: Context, message: seq<Byte>) {
    && |c.buffer| == 64
    && c.state == Blocks(h, INIT, message)
    && c.buffer[..|Tail(message)|] == Tail(message)
    && c.lo == 8 * |message| % WORD && c.hi == 8 * |message| / WORD % WORD
  }

  lemma {:induction false} TailLength(data: seq<Byte>)
    ensures |Tail(data)| == |data| % 64
    decreases |data|
  {
    if |data| >= 64 {
      TailLength(data[64..]);
      assert |data[64..]| % 64 == |data| % 64;
    }
  }

  lemma {:induction false} BlocksAppend(h: Transform, s: Words, a: seq<Byte>, b: seq<Byte>)
    ensures Blocks(h, s, a + b) == Blocks(h, Blocks(h, s, a), Tail(a) + b)
    ensures Tail(a + b) == Tail(Tail(a) + b)
    decreases |a|
  {
    if |a| >= 64 {
      assert (a + b)[..64] == a[..64] && (a + b)[64..] == a[64..] + b;
      BlocksAppend(h, h(s, a[..64]), a[64..], b);
    }
  }

  /** Two numbers of a low and a high part, added. */
  lemma Carry(q: nat, lo: nat, y: nat, x: nat)
    requires lo < WORD && x < WORD
    ensures var carry := if lo + x >= WORD then 1 else 0;
            var sum := q * WORD + lo + (y * WORD + x);
            sum % WORD == lo + x - carry * WORD && sum / WORD == q + y + carry
  {
    var carry := if lo + x >= WORD then 1 else 0;
    assert q * WORD + lo + (y * WORD + x) == (q + y + carry) * WORD + (lo + x - carry * WORD);
  }

  lemma Reduced(a: nat, b: nat)
    ensures (a % WORD + b) % WORD == (a + b) % WORD
  {
    assert a == a / WORD * WORD + a % WORD;
  }

  lemma LowCount(n: nat, k: nat)
    requires k < WORD
    ensures CountLow(8 * n % WORD, k) == 8 * (n + k) % WORD
    ensures CountHigh(8 * n % WORD, 8 * n / WORD % WORD, k) == 8 * (n + k) / WORD % WORD
  {
    var lo, q, x, y := 8 * n % WORD, 8 * n / WORD, 8 * k % WORD, 8 * k / WORD;
    assert 8 * (n + k) == q * WORD + lo + (y * WORD + x);
    Carry(q, lo, y, x);
    AddedCount(lo, q % WORD, k, x, y);
    Reduced(q, 1);
    Reduced(q + 1, y);
    Reduced(q, y);
  }

  /** What the source's additions come to. */
  lemma AddedCount(lo: Word, hi: Word, k: nat, x: nat, y: nat)
    requires k < WORD && x == 8 * k % WORD && y == 8 * k / WORD
    ensures var carry := if lo + x >= WORD then 1 else 0;
            && CountLow(lo, k) == lo + x - carry * WORD
            && CountHigh(lo, hi, k) == ((if carry == 1 then (hi + 1) % WORD else hi) + y) % WORD
  {
    assert k % WORD == k && k / 0x2000_0000 == y;
  }

  /** The bit count is eight times the length, modulo 2^64. */
  lemma CountIsBits(h: Transform, c: Context, message: seq<Byte>)
    requires Represents(h, c, message)
    ensures c.hi * WORD + c.lo == 8 * |message| % (WORD * WORD)
  {
    var n := 8 * |message|;
    var q := n / WORD;
    assert n == q * WORD + c.lo;
    assert q == q / WORD * WORD + c.hi;
    assert n == q / WORD * (WORD * WORD) + (c.hi * WORD + c.lo);
  }

  lemma MultipleOf64(m: nat, r: nat)
    ensures (64 * m + r) % 64 == r % 64
  {
  }

  /** Eight times a length, cut to a word, tells the length modulo 64. */
  lemma Eighth(n: nat)
    ensures 8 * n % WORD / 8 % 64 == n % 64
  {
    var q, r := n / 0x2000_0000, n % 0x2000_0000;
    assert n == 64 * (q * 0x80_0000) + r;
    Carry(q, 8 * r, 0, 0);
    assert 8 * n % WORD == 8 * r;
    assert 8 * r / 8 == r;
    MultipleOf64(q * 0x80_0000, r);
  }

  lemma IndexIs(h: Transform, c: Context, message: seq<Byte>)
    requires Represents(h, c, message)
    ensures Index(c) == |message| % 64 == |Tail(message)|
  {
    TailLength(message);
    Eighth(|message|);
  }

  lemma ShortEnough(index: nat, n: nat)
    requires index < 64 && !Overruns(index, n)
    ensures n < WORD
  {
  }

  /** An update that does not overrun takes its input in. */
  lemma UpdateTakesIn(h: Transform, c: Context, message: seq<Byte>, input: seq<Byte>)
    requires Represents(h, c, message) && !Overruns(Index(c), |input|)
    ensures Updated(h, c, input).Ok? && Represents(h, Updated(h, c, input).value, message + input)
  {
    IndexIs(h, c, message);
    BlocksAppend(h, INIT, message, input);
    ShortEnough(Index(c), |input|);
    LowCount(|message|, |input|);
    assert c.buffer[..Index(c)] == Tail(message);
    var c' := Updated(h, c, input).value;
    assert c'.buffer[..|Tail(message + input)|] == Tail(message + input);
  }

  // ---------------------------------------------------------------------------------------------
  // The digest
  // ---------------------------------------------------------------------------------------------

  lemma PaddingIs(n: nat)
    ensures Padding(n) == PADDING()[..PadCount(n % 64)] + LengthBytes(n)
  {
    assert PadCount(n % 64) == PadCount(n);
    assert [0x80] + Zeros(PadCount(n) - 1) == PADDING()[..PadCount(n)];
  }

  /** The message that the object represents after a digest. */
  function Remembered(message: seq<Byte>): seq<Byte> {
    var tail := Tail(message);
    if |tail| < 56 then message
    else message[..|message| - |tail|] + (Zeros(56) + LengthBytes(|message|))[..|tail|]
  }

  lemma {:induction false} OtherTail(h: Transform, s: Words, a: seq<Byte>, x: seq<Byte>)
    requires |x| == |Tail(a)|
    ensures var b := a[..|a| - |Tail(a)|] + x; Blocks(h, s, b) == Blocks(h, s, a) && Tail(b) == x
    decreases |a|
  {
    var b := a[..|a| - |Tail(a)|] + x;
    if |a| >= 64 {
      assert |Tail(a)| == |Tail(a[64..])| <= |a| - 64;
      OtherTail(h, h(s, a[..64]), a[64..], x);
      assert b[..64] == a[..64] && b[64..] == a[64..][..|a[64..]| - |Tail(a[64..])|] + x;
    } else {
      assert b == x;
    }
  }

  /** What the two updates of final leave in the buffer. */
  lemma FinalBuffer(h: Transform, c: Context, p: nat, bits: seq<Byte>)
    requires |c.buffer| == 64 && Index(c) == p && |bits| == 8
    ensures var r := Updated(h, c, PADDING()[..PadCount(p)]);
            && r.Ok? && Index(r.value) == 56
            && var r' := Updated(h, r.value, bits);
               && r'.Ok?
               && (p < 56 ==> r'.value.buffer[..p] == c.buffer[..p])
               && (p >= 56 ==> r'.value.buffer == Zeros(56) + bits)
  {
    var pad := PADDING()[..PadCount(p)];
    var c1 := Updated(h, c, pad).value;
    var all := c.buffer[..p] + pad;
    IndexAfter(c, |pad|);
    var all' := c1.buffer[..56] + bits;
    assert Tail(all'[64..]) == [];
    assert all'[..64] == all';
    if p < 56 {
      assert Tail(all) == all;
      assert c1.buffer[..56] == all;
    } else {
      assert Tail(all[64..]) == all[64..];
      assert all[64..] == Zeros(56);
      assert c1.buffer[..56] == Zeros(56);
    }
  }

  lemma IndexAfter(c: Context, n: nat)
    requires n <= 64
    ensures CountLow(c.lo, n) / 8 % 64 == (Index(c) + n) % 64
  {
    var lo: int := c.lo;
    var a, b := lo / 8, lo % 8;
    assert n % WORD * 8 % WORD == 8 * n;
    EighthAfter(a, b, n);
    Mod64(a, n);
  }

  lemma EighthAfter(a: nat, b: nat, n: nat)
    requires b < 8 && a < 0x2000_0000 && n <= 64
    ensures (8 * a + b + 8 * n) % WORD / 8 % 64 == (a + n) % 64
  {
    var sum := 8 * (a + n) + b;
    if sum < WORD {
      assert sum % WORD / 8 == a + n;
    } else {
      assert sum % WORD == sum - WORD;
      assert (sum - WORD) / 8 == a + n - 0x2000_0000;
      assert (a + n - 64 * 0x80_0000) % 64 == (a + n) % 64;
    }
  }

  lemma Mod64(a: nat, n: nat)
    ensures (a % 64 + n) % 64 == (a + n) % 64
  {
    assert a == a / 64 * 64 + a % 64;
  }

  lemma PaddedCovers(h: Transform, c: Context, message: seq<Byte>)
    requires Represents(h, c, message)
    ensures Represents(h, Padded(h, c), message + PADDING()[..PadCount(Index(c))])
  {
    PaddedIs(h, c);
    UpdateTakesIn(h, c, message, PADDING()[..PadCount(Index(c))]);
  }

  lemma PaddingInParts(h: Transform, c: Context, message: seq<Byte>)
    requires Represents(h, c, message)
    ensures message + PADDING()[..PadCount(Index(c))] + (EncodeWord(c.lo) + EncodeWord(c.hi)) ==
            message + Padding(|message|)
  {
    var pad, bits := PADDING()[..PadCount(Index(c))], EncodeWord(c.lo) + EncodeWord(c.hi);
    IndexIs(h, c, message);
    PaddingIs(|message|);
    assert message + pad + bits == message + (pad + bits);
  }

  lemma ClosedCovers(h: Transform, c: Context, message: seq<Byte>)
    requires Represents(h, c, message)
    ensures Represents(h, Closed(h, c), message + Padding(|message|))
  {
    var pad, bits := PADDING()[..PadCount(Index(c))], EncodeWord(c.lo) + EncodeWord(c.hi);
    PaddedCovers(h, c, message);
    ClosedIs(h, c, bits);
    UpdateTakesIn(h, Padded(h, c), message + pad, bits);
    PaddingInParts(h, c, message);
  }

  lemma FinalCovers(h: Transform, c: Context, message: seq<Byte>)
    requires Represents(h, c, message)
    ensures Finished(h, c).Ok? && Finished(h, c).value.0 == Digest(h, message)
  {
    ClosedCovers(h, c, message);
    FinishedIs(h, c);
  }

  /**
   A digest is that of the message taken in. The object then represents the message still, if less than 56 bytes
   were pending; otherwise one whose last bytes are those final left in the buffer.
   */
  lemma DigestIs(h: Transform, c: Context, message: seq<Byte>)
    requires Represents(h, c, message)
    ensures Finished(h, c).Ok?
    ensures var (digest, c') := Finished(h, c).value;
            digest == Digest(h, message) && Represents(h, c', Remembered(message))
  {
    FinalCovers(h, c, message);
    IndexIs(h, c, message);
    var tail := Tail(message);
    var bits := EncodeWord(c.lo) + EncodeWord(c.hi);
    FinalBuffer(h, c, |tail|, bits);
    if |tail| >= 56 {
      var x := (Zeros(56) + LengthBytes(|message|))[..|tail|];
      OtherTail(h, INIT, message, x);
    }
  }

  /** Representing two messages of one length is having their last bytes alike. */
  lemma SameTail(h: Transform, c: Context, a: seq<Byte>, x: seq<Byte>)
    requires |x| == |Tail(a)|
    requires Represents(h, c, a[..|a| - |Tail(a)|] + x)
    ensures Represents(h, c, a) <==> x == Tail(a)
  {
    OtherTail(h, INIT, a, x);
    TailEnds(a);
    assert a == a[..|a| - |Tail(a)|] + Tail(a);
  }

  /** After a digest the object still represents the message exactly when this holds. */
  lemma StillRepresents(h: Transform, c: Context, message: seq<Byte>)
    requires Represents(h, c, message)
    ensures Finished(h, c).Ok?
    ensures var tail := Tail(message);
            Represents(h, Finished(h, c).value.1, message) <==>
            |tail| < 56 || tail == (Zeros(56) + LengthBytes(|message|))[..|tail|]
  {
    DigestIs(h, c, message);
    var tail := Tail(message);
    if |tail| >= 56 {
      SameTail(h, Finished(h, c).value.1, message, (Zeros(56) + LengthBytes(|message|))[..|tail|]);
    }
  }

  lemma {:induction false} TailEnds(data: seq<Byte>)
    ensures data[|data| - |Tail(data)|..] == Tail(data)
    decreases |data|
  {
    if |data| >= 64 {
      TailEnds(data[64..]);
    }
  }

  // ---------------------------------------------------------------------------------------------
  // Sessions
  // ---------------------------------------------------------------------------------------------

  /** What is done with an object after reset. */
  datatype Use = Update(input: seq<Byte>) | Ask

  /** The digests given; None when an update overruns. */
  function Session(h: Transform, c: Context, uses: seq<Use>): Outcome<seq<seq<Byte>>>
    requires |c.buffer| == 64
    decreases |uses|
  {
    if uses == [] then Ok([])
    else
      match uses[0]
      case Update(input) =>
        var c' :- Updated(h, c, input);
        Session(h, c', uses[1..])
      case Ask =>
        var (digest, c') :- Finished(h, c);
        var rest :- Session(h, c', uses[1..]);
        Ok([digest] + rest)
  }

  /** The digests that the messages taken in have; `remembers` tells what a digest does to the message. */
  function Digests(h: Transform, message: seq<Byte>, uses: seq<Use>, remembers: seq<Byte> -> seq<Byte>): seq<seq<Byte>>
    decreases |uses|
  {
    if uses == [] then []
    else
      match uses[0]
      case Update(input) => Digests(h, message + input, uses[1..], remembers)
      case Ask => [Digest(h, message)] + Digests(h, remembers(message), uses[1..], remembers)
  }

  /** No update overruns: a matter of lengths only. */
  predicate Fits(length: nat, uses: seq<Use>)
    decreases |uses|
  {
    uses == [] ||
    match uses[0]
    case Update(input) => !Overruns(length % 64, |input|) && Fits(length + |input|, uses[1..])
    case Ask => Fits(length, uses[1..])
  }

  lemma RememberedLength(message: seq<Byte>)
    ensures |Remembered(message)| == |message|
  {
  }

  /**
   A session fails exactly when an update overruns. Otherwise every digest is that of the message taken in, and each
   digest may change that message.
   */
  lemma {:induction false} SessionIs(h: Transform, c: Context, message: seq<Byte>, uses: seq<Use>)
    requires Represents(h, c, message)
    ensures Session(h, c, uses) == if Fits(|message|, uses) then Ok(Digests(h, message, uses, Remembered)) else Fault
    decreases |uses|
  {
    if uses != [] {
      match uses[0]
      case Update(input) =>
        IndexIs(h, c, message);
        if !Overruns(Index(c), |input|) {
          UpdateTakesIn(h, c, message, input);
          SessionIs(h, Updated(h, c, input).value, message + input, uses[1..]);
        }
      case Ask =>
        DigestIs(h, c, message);
        RememberedLength(message);
        SessionIs(h, Finished(h, c).value.1, Remembered(message), uses[1..]);
    }
  }

  /** Each digest is asked for with less than 56 bytes pending, or is the last thing done. */
  ghost predicate AskedInTime(message: seq<Byte>, uses: seq<Use>)
    decreases |uses|
  {
    uses == [] ||
    match uses[0]
    case Update(input) => AskedInTime(message + input, uses[1..])
    case Ask => uses[1..] == [] || (|message| % 64 < 56 && AskedInTime(message, uses[1..]))
  }

  lemma {:induction false} AskedInTimeIs(h: Transform, message: seq<Byte>, uses: seq<Use>)
    requires AskedInTime(message, uses)
    ensures Digests(h, message, uses, Remembered) == Digests(h, message, uses, m => m)
    decreases |uses|
  {
    if uses != [] {
      match uses[0]
      case Update(input) => AskedInTimeIs(h, message + input, uses[1..]);
      case Ask =>
        TailLength(message);
        if uses[1..] != [] {
          AskedInTimeIs(h, message, uses[1..]);
        }
    }
  }

  lemma ResetRepresents(h: Transform, buffer: seq<Byte>)
    requires |buffer| == 64
    ensures Represents(h, Context(INIT, 0, 0, buffer), [])
  {
  }

  /**
   From reset on, updates and digests in any order give the digests of what was taken in so far, when digests are
   asked for in time.
   */
  lemma SessionIsRight(h: Transform, buffer: seq<Byte>, uses: seq<Use>)
    requires |buffer| == 64 && Fits(0, uses) && AskedInTime([], uses)
    ensures Session(h, Context(INIT, 0, 0, buffer), uses) == Ok(Digests(h, [], uses, m => m))
  {
    ResetRepresents(h, buffer);
    SessionIs(h, Context(INIT, 0, 0, buffer), [], uses);
    AskedInTimeIs(h, [], uses);
  }

  /** Updates, then one digest. */
  function UpdatesAndAsk(parts: seq<seq<Byte>>): (uses: seq<Use>) {
    seq(|parts|, i requires 0 <= i < |parts| => Update(parts[i])) + [Ask]
  }

  lemma {:induction false} OneDigest(h: Transform, message: seq<Byte>, parts: seq<seq<Byte>>)
    ensures AskedInTime(message, UpdatesAndAsk(parts))
    ensures Digests(h, message, UpdatesAndAsk(parts), m => m) == [Digest(h, message + Concat(parts))]
    decreases |parts|
  {
    var uses := UpdatesAndAsk(parts);
    if parts == [] {
      assert uses == [Ask] && message + Concat(parts) == message;
    } else {
      OneDigest(h, message + parts[0], parts[1..]);
      assert uses[1..] == UpdatesAndAsk(parts[1..]);
      assert message + parts[0] + Concat(parts[1..]) == message + Concat(parts);
    }
  }

  /** From reset on, updates that do not overrun and then one digest give the digest of all parts together. */
  lemma UpdatesThenDigest(h: Transform, buffer: seq<Byte>, parts: seq<seq<Byte>>)
    requires |buffer| == 64 && Fits(0, UpdatesAndAsk(parts))
    ensures Session(h, Context(INIT, 0, 0, buffer), UpdatesAndAsk(parts)) == Ok([Digest(h, Concat(parts))])
  {
    OneDigest(h, [], parts);
    SessionIsRight(h, buffer, UpdatesAndAsk(parts));
    assert [] + Concat(parts) == Concat(parts);
  }

  /** Two digests in a row: the second is of what the first one left. */
  lemma SecondDigest(h: Transform, c: Context, message: seq<Byte>)
    requires Represents(h, c, message)
    ensures Finished(h, c).Ok? && Finished(h, Finished(h, c).value.1).Ok?
    ensures Finished(h, Finished(h, c).value.1).value.0 == Digest(h, Remembered(message))
  {
    DigestIs(h, c, message);
    DigestIs(h, Finished(h, c).value.1, Remembered(message));
  }

  /** With 56 bytes that is another message. */
  lemma SecondDigestForgets()
    ensures Remembered(seq(56, _ => 1)) == Zeros(56) != seq(56, _ => 1)
  {
    var message: seq<Byte> := seq(56, _ => 1);
    assert Tail(message) == message;
    assert message[0] == 1;
  }

  // ---------------------------------------------------------------------------------------------
  // The object
  // ---------------------------------------------------------------------------------------------

  class MD5 {
    const h: Transform
    var state: Words
    var lo: Word
    var hi: Word
    const buffer: array<Byte>
    var result: seq<Byte>
    var finished: bool

    ghost predicate Valid()
      reads this
    {
      buffer.Length == 64 && |result| == 16
    }

    ghost function View(): Context
      reads this, buffer
    {
      Context(state, lo, hi, buffer[..])
    }

    constructor (h: Transform)
      ensures Valid() && this.h == h && fresh(buffer) && !finished
      ensures Represents(h, View(), [])
    {
      this.h := h;
      state, lo, hi, result, finished := INIT, 0, 0, Zeros(16), false;
      buffer := new Byte[64](_ => 0);
    }

    method Reset()
      requires Valid()
      modifies this
      ensures Valid() && !finished && Represents(h, View(), [])
    {
      finished := false;
      lo, hi := 0, 0;
      state := INIT;
    }

    /** memcpy into the buffer. */
    method Buffer(at: nat, bytes: seq<Byte>)
      requires Valid() && at + |bytes| <= 64
      modifies buffer
      ensures buffer[..] == old(buffer[..at]) + bytes + old(buffer[at + |bytes|..])
    {
      forall k | 0 <= k < |bytes| {
        buffer[at + k] := bytes[k];
      }
      assert forall k :: 0 <= k < 64 ==>
                           buffer[k] == if k < at then old(buffer[k]) else if k < at + |bytes| then bytes[k - at]
                             else old(buffer[k]);
    }

    method Count(n: nat)
      modifies this`lo, this`hi
      ensures lo == CountLow(old(lo), n) && hi == CountHigh(old(lo), old(hi), n)
    {
      var added := n % WORD * 8 % WORD;
      lo := (lo + added) % WORD;
      if lo < added {
        hi := (hi + 1) % WORD;
      }
      hi := (hi + n % WORD / 0x2000_0000) % WORD;
    }

    /** The block loop, with its 32-bit counter; `all` is what the first block began with. */
    method TransformRest(input: seq<Byte>, first: nat) returns (i: nat, ok: bool)
      requires 0 < first <= 64 && first <= |input|
      modifies this`state
      ensures ok <==> !Overruns(64 - first, |input|)
      ensures ok ==>
                && i <= |input| < i + 64 && state == Blocks(h, old(state), input[first..])
                && input[i..] == Tail(input[first..])
    {
      i := first;
      ghost var k := 0;
      while (i + 63) % WORD < |input|
        invariant i <= |input| && i < WORD && i == first + 64 * k
        invariant Blocks(h, state, input[i..]) == Blocks(h, old(state), input[first..])
        invariant Tail(input[i..]) == Tail(input[first..])
        decreases |input| - i
      {
        if i + 64 > |input| || i + 64 >= WORD {
          EndOfBlocks(first, |input|, k);
          return i, false;
        }
        state := h(state, input[i..i + 64]);
        assert input[i..][..64] == input[i..i + 64] && input[i..][64..] == input[i + 64..];
        i, k := i + 64, k + 1;
      }
      EndOfBlocks(first, |input|, k);
      return i, true;
    }

    /** The branch that fills the buffer and goes on block by block. */
    method Absorb(index: nat, input: seq<Byte>) returns (ok: bool)
      requires Valid() && index < 64 && |input| >= 64 - index
      modifies this`state, buffer
      ensures ok <==> !Overruns(index, |input|)
      ensures ok ==> var all := old(buffer[..index]) + input; var tail := Tail(all);
                     |all| >= 64 && state == Blocks(h, old(state), all) && buffer[..] == tail + all[..64][|tail|..]
    {
      ghost var all := buffer[..index] + input;
      var first := 64 - index;
      Buffer(index, input[..first]);
      assert buffer[..] == all[..64] && all[64..] == input[first..];
      state := h(state, buffer[..]);
      var i;
      i, ok := TransformRest(input, first);
      if ok {
        Buffer(0, input[i..]);
      }
    }

    method Update(input: seq<Byte>) returns (ok: bool)
      requires Valid()
      modifies this, buffer
      ensures Valid() && !finished
      ensures match Updated(h, old(View()), input)
              case Fault => !ok
              case Ok(c) => ok && View() == c && result == old(result)
    {
      finished := false;
      var index := lo / 8 % 64;
      Count(|input|);
      if |input| < 64 - index {
        Buffer(index, input);
        return true;
      }
      ok := Absorb(index, input);
    }

    /** The first update of final. */
    method Pad()
      requires Valid()
      modifies this, buffer
      ensures Valid() && !finished && View() == Padded(h, old(View()))
    {
      var index := lo / 8 % 64;
      PaddedIs(h, View());
      var count := if index < 56 then 56 - index else 120 - index;
      var _ := Update(PADDING()[..count]);
    }

    /** The second one. */
    method AppendLength(bits: seq<Byte>, ghost c: Context)
      requires Valid() && |c.buffer| == 64 && View() == Padded(h, c) && bits == EncodeWord(c.lo) + EncodeWord(c.hi)
      modifies this, buffer
      ensures Valid() && !finished && View() == Closed(h, c)
    {
      ClosedIs(h, c, bits);
      var _ := Update(bits);
    }

    method Final()
      requires Valid()
      modifies this, buffer
      ensures Valid() && !finished
      ensures Finished(h, old(View())) == Ok((result, View()))
    {
      ghost var c := View();
      var oldState, oldLo, oldHi := state, lo, hi;
      var bits := EncodeWord(lo) + EncodeWord(hi);
      Pad();
      AppendLength(bits, c);
      result := EncodeWords(state);
      state, lo, hi := oldState, oldLo, oldHi;
      FinishedIs(h, c);
    }

    /**
     The flag that should keep a digest from being computed twice is reset by final's own updates. Were it on, the last
     digest would be given again.
     */
    method GetDigest() returns (digest: seq<Byte>)
      requires Valid()
      modifies this, buffer
      ensures Valid() && digest == result
      ensures !old(finished) ==> !finished && Finished(h, old(View())) == Ok((digest, View()))
      ensures old(finished) ==> finished && digest == old(result) && View() == old(View())
    {
      if !finished {
        finished := true;
        Final();
      }
      return result;
    }

    /** to_string: the digest as 32 hexadecimal digits and a zero byte, if the text has room for them. */
    method ToString(text: array<Byte>) returns (ok: bool)
      requires Valid() && text != buffer
      modifies this, buffer, text
      ensures Valid() && (ok <==> text.Length >= 33)
      ensures !old(finished) ==> !finished && Finished(h, old(View())) == Ok((result, View()))
      ensures old(finished) ==> finished && result == old(result) && View() == old(View())
      ensures ok ==> text[..32] == ToHex(result)
      ensures forall i :: (if ok then 32 else 0) <= i < text.Length ==> text[i] == 0
    {
      var digest := GetDigest();
      ok := Bin2Hex(text, digest);
    }

    /** update with a file of this size: `reads_` is what its reads return, None an error. */
    method UpdateFile(size: int, reads_: seq<Option<seq<Byte>>>, ghost message: seq<Byte>) returns (end: Reading)
      requires Valid() && Represents(h, View(), message) && AsAsked(size, reads_)
      modifies this, buffer
      ensures Valid() && end == ReadAll(size, reads_).1
      ensures Represents(h, View(), message + ReadAll(size, reads_).0)
    {
      var left, k := size, 0;
      ghost var done, all := message, message + ReadAll(size, reads_).0;
      while left > 0
        invariant Valid() && Represents(h, View(), done) && k <= |reads_| && AsAsked(left, reads_[k..])
        invariant all == done + ReadAll(left, reads_[k..]).0 && ReadAll(size, reads_).1 == ReadAll(left, reads_[k..]).1
        decreases |reads_| - k
      {
        if k == |reads_| {
          assert all == done;
          return Unread;
        }
        ReadStep(done, left, reads_, k);
        if reads_[k].None? {
          assert all == done;
          return Failed;
        }
        var read := reads_[k].value;
        ShortUpdate(h, View(), done, read);
        var _ := Update(read);
        done, left, k := done + read, left - |read|, k + 1;
      }
      assert all == done;
      return AtEnd;
    }
  }

  /** How reading a file ends: with all of it read, at an error, or not yet. */
  datatype Reading = AtEnd | Failed | Unread

  /** What is read of a file, and how that ends. */
  function ReadAll(size: int, reads_: seq<Option<seq<Byte>>>): (seq<Byte>, Reading)
    decreases |reads_|
  {
    if size <= 0 then ([], AtEnd)
    else if reads_ == [] then ([], Unread)
    else
      match reads_[0]
      case None => ([], Failed)
      case Some(r) =>
        var (rest, end) := ReadAll(size - |r|, reads_[1..]);
        (r + rest, end)
  }

  /** No read returns more than was asked for: a chunk, or what is left of the file. */
  predicate AsAsked(size: int, reads_: seq<Option<seq<Byte>>>)
    decreases |reads_|
  {
    size <= 0 || reads_ == [] || reads_[0].None? ||
    var n := |reads_[0].value|;
    n <= size && n <= CHUNK && AsAsked(size - n, reads_[1..])
  }

  /** A file that is read to the end is read whole. */
  lemma {:induction false} ReadWhole(size: nat, reads_: seq<Option<seq<Byte>>>)
    requires AsAsked(size, reads_) && ReadAll(size, reads_).1.AtEnd?
    ensures |ReadAll(size, reads_).0| == size
    decreases |reads_|
  {
    if size > 0 {
      ReadWhole(size - |reads_[0].value|, reads_[1..]);
    }
  }

  lemma ReadStep(done: seq<Byte>, left: int, reads_: seq<Option<seq<Byte>>>, k: nat)
    requires k < |reads_| && left > 0
    ensures var (taken, end) := ReadAll(left, reads_[k..]);
            match reads_[k]
            case None => taken == [] && end == Failed
            case Some(r) =>
              var (rest, end') := ReadAll(left - |r|, reads_[k + 1..]);
              done + taken == done + r + rest && end == end'
  {
    assert reads_[k..][0] == reads_[k] && reads_[k..][1..] == reads_[k + 1..];
    if reads_[k].Some? {
      var r, rest := reads_[k].value, ReadAll(left - |reads_[k].value|, reads_[k + 1..]).0;
      assert done + (r + rest) == done + r + rest;
    }
  }

  /** The object after the first update of final. */
  ghost function Padded(h: Transform, c: Context): (c': Context)
    requires |c.buffer| == 64
    ensures |c'.buffer| == 64
  {
    FinalBuffer(h, c, Index(c), EncodeWord(c.lo) + EncodeWord(c.hi));
    Updated(h, c, PADDING()[..PadCount(Index(c))]).value
  }

  /** After the second one, before state and count are restored. */
  ghost function Closed(h: Transform, c: Context): (c': Context)
    requires |c.buffer| == 64
    ensures |c'.buffer| == 64
  {
    var bits := EncodeWord(c.lo) + EncodeWord(c.hi);
    FinalBuffer(h, c, Index(c), bits);
    Updated(h, Padded(h, c), bits).value
  }

  lemma PaddedIs(h: Transform, c: Context)
    requires |c.buffer| == 64
    ensures var index := Index(c);
            && PadCount(index) == (if index < 56 then 56 - index else 120 - index)
            && Updated(h, c, PADDING()[..PadCount(index)]) == Ok(Padded(h, c))
  {
    FinalBuffer(h, c, Index(c), EncodeWord(c.lo) + EncodeWord(c.hi));
  }

  lemma ClosedIs(h: Transform, c: Context, bits: seq<Byte>)
    requires |c.buffer| == 64 && bits == EncodeWord(c.lo) + EncodeWord(c.hi)
    ensures Updated(h, Padded(h, c), bits) == Ok(Closed(h, c))
  {
    FinalBuffer(h, c, Index(c), bits);
  }

  lemma FinishedIs(h: Transform, c: Context)
    requires |c.buffer| == 64
    ensures Finished(h, c) == Ok((EncodeWords(Closed(h, c).state), Context(c.state, c.lo, c.hi, Closed(h, c).buffer)))
  {
    PaddedIs(h, c);
    ClosedIs(h, c, EncodeWord(c.lo) + EncodeWord(c.hi));
  }

  lemma ShortUpdate(h: Transform, c: Context, message: seq<Byte>, input: seq<Byte>)
    requires Represents(h, c, message) && |input| + 63 < WORD
    ensures Updated(h, c, input).Ok? && Represents(h, Updated(h, c, input).value, message + input)
  {
    UpdateTakesIn(h, c, message, input);
  }

  /** Where the block loop is when it should end, and whether its counter can tell. */
  lemma EndOfBlocks(first: nat, n: nat, k: nat)
    requires 0 < first <= 64 && first + 64 * k <= n
    ensures first + 64 * k + 64 > n ==> (Overruns(64 - first, n) <==> first + 64 * k + 63 >= WORD)
    ensures first + 64 * k + 64 <= n && first + 64 * k + 64 >= WORD ==> Overruns(64 - first, n)
  {
    var m := (n - first) / 64;
    assert first + 64 * k + 64 > n ==> m == k;
    assert first + 64 * k + 64 <= n ==> m >= k + 1;
  }
}
