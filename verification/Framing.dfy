/**
 Messages on a stream: a header with the body's length, big-endian, then command and status; then the body.
 */
module Framing {

  type Byte = b: int | 0 <= b < 256

  // ---------------------------------------------------------------------------------------------
  // The serializer
  // ---------------------------------------------------------------------------------------------

  function Power(k: nat): (p: nat)
    ensures p > 0
  {
    if k == 0 then 1 else 256 * Power(k - 1)
  }

  /** The `k` low bytes of `n`, highest first. */
  function ToBytes(n: int, k: nat): (s: seq<Byte>)
    ensures |s| == k
    decreases k
  {
    if k == 0 then [] else ToBytes(n / 256, k - 1) + [n % 256]
  }

  function FromBytes(s: seq<Byte>): nat
    decreases |s|
  {
    if s == [] then 0 else 256 * FromBytes(s[..|s| - 1]) + s[|s| - 1]
  }

  /** The value of `u` as a two's complement number of `k` bytes. */
  function Signed(u: nat, k: nat): int {
    if 2 * u < Power(k) then u else u - Power(k)
  }

  function Long2Buff(n: int): seq<Byte> {
    ToBytes(n, 8)
  }

  function Buff2Int64(s: seq<Byte>): int
    requires |s| == 8
  {
    Signed(FromBytes(s), 8)
  }

  function Int2Buff(n: int): seq<Byte> {
    ToBytes(n, 4)
  }

  function Buff2Int32(s: seq<Byte>): int
    requires |s| == 4
  {
    Signed(FromBytes(s), 4)
  }

  lemma {:induction false} BytesRoundTrip(n: int, k: nat)
    ensures exists q :: n == q * Power(k) + FromBytes(ToBytes(n, k))
    ensures FromBytes(ToBytes(n, k)) < Power(k)
    decreases k
  {
    if k == 0 {
      assert n == n * Power(0) + FromBytes(ToBytes(n, 0));
    } else {
      BytesRoundTrip(n / 256, k - 1);
      var q :| n / 256 == q * Power(k - 1) + FromBytes(ToBytes(n / 256, k - 1));
      LastByte(n, k);
      Scaled(q, Power(k - 1));
      assert n == q * Power(k) + FromBytes(ToBytes(n, k));
    }
  }

  lemma LastByte(n: int, k: nat)
    requires k > 0
    ensures FromBytes(ToBytes(n, k)) == 256 * FromBytes(ToBytes(n / 256, k - 1)) + n % 256
  {
    var s := ToBytes(n, k);
    assert s[..|s| - 1] == ToBytes(n / 256, k - 1);
  }

  lemma Scaled(q: int, p: int)
    ensures 256 * (q * p) == q * (256 * p)
  {
  }

  lemma SmallQuotient(n: int, q: int, p: int, u: int)
    requires p > 0 && 0 <= u < p && n == q * p + u && -p <= 2 * n < p
    ensures q == 0 || q == -1
  {
    assert q >= 1 ==> (q - 1) * p >= 0;
    assert q <= -2 ==> (-2 - q) * p >= 0;
  }

  /** A signed number that fits comes back. */
  lemma SignedRoundTrip(n: int, k: nat)
    requires 0 - Power(k) <= 2 * n < Power(k)
    ensures Signed(FromBytes(ToBytes(n, k)), k) == n
  {
    BytesRoundTrip(n, k);
    var u: int, p: int := FromBytes(ToBytes(n, k)), Power(k);
    var q :| n == q * Power(k) + FromBytes(ToBytes(n, k));
    SmallQuotient(n, q, p, u);
    assert (-1) * p == 0 - p;
  }

  lemma {:induction false} BytesOfValue(s: seq<Byte>)
    ensures ToBytes(FromBytes(s), |s|) == s
    decreases |s|
  {
    if s != [] {
      BytesOfValue(s[..|s| - 1]);
      assert FromBytes(s) / 256 == FromBytes(s[..|s| - 1]) && FromBytes(s) % 256 == s[|s| - 1];
    }
  }

  /** Dividing twice. */
  lemma DivideTwice(n: int, p: int)
    requires p > 0
    ensures n / 256 / p == n / (256 * p)
  {
    var q, r := n / 256 / p, n / 256 % p;
    assert n / 256 == q * p + r;
    var rest := 256 * r + n % 256;
    Scaled(q, p);
    assert n == q * (256 * p) + rest && 0 <= rest < 256 * p;
    QuotientIs(n, q, 256 * p, rest);
  }

  lemma QuotientIs(n: int, q: int, p: int, rest: int)
    requires p > 0 && n == q * p + rest && 0 <= rest < p
    ensures n / p == q
  {
    var d := n / p - q;
    assert n == n / p * p + n % p;
    assert d * p == n / p * p - q * p;
    assert d >= 1 ==> (d - 1) * p >= 0;
    assert d <= -1 ==> (-1 - d) * p >= 0;
  }

  /** The bytes are those of the number in base 256, the highest first. */
  lemma {:induction false} ToBytesAt(n: int, k: nat, i: nat)
    requires i < k
    ensures ToBytes(n, k)[i] == n / Power(k - 1 - i) % 256
    decreases k
  {
    if i < k - 1 {
      ToBytesAt(n / 256, k - 1, i);
      DivideTwice(n, Power(k - 2 - i));
    } else {
      assert n / Power(0) == n;
    }
  }

  lemma PowerIs()
    ensures Power(8) == 0x1_0000_0000_0000_0000 && Power(4) == 0x1_0000_0000
  {
    assert Power(4) == 256 * (256 * (256 * (256 * Power(0))));
    assert Power(8) == 256 * (256 * (256 * (256 * Power(4))));
  }

  /** Serialized 64-bit and 32-bit numbers are read back. */
  lemma SerializerRoundTrip(n: int)
    ensures -0x8000_0000_0000_0000 <= n < 0x8000_0000_0000_0000 ==> Buff2Int64(Long2Buff(n)) == n
    ensures -0x8000_0000 <= n < 0x8000_0000 ==> Buff2Int32(Int2Buff(n)) == n
  {
    PowerIs();
    if -0x8000_0000_0000_0000 <= n < 0x8000_0000_0000_0000 {
      SignedRoundTrip(n, 8);
    }
    if -0x8000_0000 <= n < 0x8000_0000 {
      SignedRoundTrip(n, 4);
    }
  }

  // ---------------------------------------------------------------------------------------------
  // Frames
  // ---------------------------------------------------------------------------------------------

  const HEADER: nat := 10

  datatype Message = Message(cmd: Byte, status: Byte, body: seq<Byte>)

  function Encode(m: Message): seq<Byte> {
    Long2Buff(|m.body|) + [m.cmd, m.status] + m.body
  }

  /**
   A frame on the wire: the length of the body in eight bytes, the highest first, then the command, the status and the
   body.
   */
  lemma LayoutIs(m: Message, i: nat)
    requires i < 8
    ensures var frame := Encode(m);
            && |frame| == 10 + |m.body|
            && frame[i] == |m.body| / Power(7 - i) % 256
            && frame[8] == m.cmd && frame[9] == m.status && frame[10..] == m.body
  {
    ToBytesAt(|m.body|, 8, i);
    var head := Long2Buff(|m.body|);
    assert head[i] == Encode(m)[i];
    assert Encode(m) == head + ([m.cmd, m.status] + m.body);
  }

  function EncodeAll(ms: seq<Message>): seq<Byte> {
    if ms == [] then [] else Encode(ms[0]) + EncodeAll(ms[1..])
  }

  /** Where the reading of a stream ends: waiting, with the bytes of an unfinished message; at a fault; or never. */
  datatype End = Waiting(rest: seq<Byte>) | Broken | Stuck

  datatype Parsed = Parsed(messages: seq<Message>, end: End)

  function BodyLength(bytes: seq<Byte>): int
    requires |bytes| >= HEADER
  {
    Buff2Int64(bytes[..8])
  }

  /**
   The messages in a stream. A negative length breaks the reader; with a length of zero it never gets on to the
   bytes that follow.
   */
  function Parse(bytes: seq<Byte>): Parsed
    decreases |bytes|
  {
    if |bytes| < HEADER then Parsed([], Waiting(bytes))
    else
      var n := BodyLength(bytes);
      if n < 0 then Parsed([], Broken)
      else if n == 0 then Parsed([], if |bytes| == HEADER then Waiting(bytes) else Stuck)
      else if |bytes| < HEADER + n then Parsed([], Waiting(bytes))
      else
        var m := Message(bytes[8], bytes[9], bytes[HEADER..HEADER + n]);
        After([m], Parse(bytes[HEADER + n..]))
  }

  function After(ms: seq<Message>, p: Parsed): Parsed {
    Parsed(ms + p.messages, p.end)
  }

  /** Goes on reading where `p` ended. */
  function More(p: Parsed, bytes: seq<Byte>): Parsed {
    if p.end.Waiting? then After(p.messages, Parse(p.end.rest + bytes)) else p
  }

  lemma AfterAfter(ms: seq<Message>, ms': seq<Message>, p: Parsed)
    ensures After(ms, After(ms', p)) == After(ms + ms', p)
  {
    assert ms + (ms' + p.messages) == ms + ms' + p.messages;
  }

  /** The first message is complete. */
  predicate Complete(bytes: seq<Byte>) {
    |bytes| >= HEADER && 0 < BodyLength(bytes) <= |bytes| - HEADER
  }

  function FirstOf(bytes: seq<Byte>): Message
    requires Complete(bytes)
  {
    Message(bytes[8], bytes[9], bytes[HEADER..HEADER + BodyLength(bytes)])
  }

  function RestOf(bytes: seq<Byte>): (rest: seq<Byte>)
    requires Complete(bytes)
    ensures |rest| < |bytes|
  {
    bytes[HEADER + BodyLength(bytes)..]
  }

  lemma ParseStep(bytes: seq<Byte>)
    requires Complete(bytes)
    ensures Parse(bytes) == After([FirstOf(bytes)], Parse(RestOf(bytes)))
  {
  }

  lemma CompleteAppend(a: seq<Byte>, b: seq<Byte>)
    requires Complete(a)
    ensures Complete(a + b) && FirstOf(a + b) == FirstOf(a) && RestOf(a + b) == RestOf(a) + b
  {
    var n := BodyLength(a);
    assert (a + b)[..8] == a[..8];
    assert (a + b)[HEADER..HEADER + n] == a[HEADER..HEADER + n];
    assert (a + b)[HEADER + n..] == a[HEADER + n..] + b;
  }

  lemma SplitUnfinished(a: seq<Byte>, b: seq<Byte>)
    requires !Complete(a) && b != []
    ensures Parse(a + b) == More(Parse(a), b)
  {
    if |a| >= HEADER {
      assert (a + b)[..8] == a[..8];
    }
    assert [] + Parse(a + b).messages == Parse(a + b).messages;
  }

  /** Reading in two parts is reading at once. */
  lemma {:induction false} ParseSplit(a: seq<Byte>, b: seq<Byte>)
    ensures Parse(a + b) == if b == [] then Parse(a) else More(Parse(a), b)
    decreases |a|
  {
    if b == [] {
      assert a + b == a;
    } else if Complete(a) {
      ParseSplit(RestOf(a), b);
      CompleteAppend(a, b);
      var q := Parse(RestOf(a));
      assert Parse(a + b) == After([FirstOf(a)], More(q, b)) by {
        ParseStep(a + b);
      }
      assert Parse(a) == After([FirstOf(a)], q) by {
        ParseStep(a);
      }
      if q.end.Waiting? {
        AfterAfter([FirstOf(a)], q.messages, Parse(q.end.rest + b));
      }
    } else {
      SplitUnfinished(a, b);
    }
  }

  /** What is left over waits: reading it again gives nothing. */
  lemma {:induction false} RestWaits(bytes: seq<Byte>)
    ensures Parse(bytes).end.Waiting? ==> Parse(Parse(bytes).end.rest) == Parsed([], Parse(bytes).end)
    decreases |bytes|
  {
    if |bytes| >= HEADER && 0 < BodyLength(bytes) <= |bytes| - HEADER {
      RestWaits(bytes[HEADER + BodyLength(bytes)..]);
    }
  }

  function Concat(chunks: seq<seq<Byte>>): seq<Byte> {
    if chunks == [] then [] else chunks[0] + Concat(chunks[1..])
  }

  /**
   Reads chunk after chunk. With `byteOffset` the rest of a header goes behind its first bytes. As written the offset
   is a multiple of the header's size, so a chunk that finds an unfinished header breaks the reader.
   */
  function Feed(byteOffset: bool, p: Parsed, chunk: seq<Byte>): Parsed {
    if p.end.Waiting? && !byteOffset && 0 < |p.end.rest| < HEADER then p.(end := Broken)
    else More(p, chunk)
  }

  function FeedAll(byteOffset: bool, p: Parsed, chunks: seq<seq<Byte>>): Parsed
    decreases |chunks|
  {
    if chunks == [] then p else FeedAll(byteOffset, Feed(byteOffset, p, chunks[0]), chunks[1..])
  }

  const START := Parsed([], Waiting([]))

  ghost predicate NonEmpty(chunks: seq<seq<Byte>>) {
    forall i :: 0 <= i < |chunks| ==> chunks[i] != []
  }

  lemma MoreMore(p: Parsed, a: seq<Byte>, b: seq<Byte>)
    requires b != []
    ensures More(More(p, a), b) == More(p, a + b)
  {
    if p.end.Waiting? {
      var rest := p.end.rest;
      var q := Parse(rest + a);
      ParseSplit(rest + a, b);
      assert rest + (a + b) == rest + a + b;
      assert More(p, a + b) == After(p.messages, More(q, b));
      if q.end.Waiting? {
        AfterAfter(p.messages, q.messages, Parse(q.end.rest + b));
      }
    }
  }

  /** With byte offsets, only the bytes matter, not how they are cut into chunks. */
  lemma {:induction false} ChunksDoNotMatter(p: Parsed, chunks: seq<seq<Byte>>)
    requires NonEmpty(chunks)
    ensures FeedAll(true, p, chunks) == if chunks == [] then p else More(p, Concat(chunks))
    decreases |chunks|
  {
    if chunks != [] {
      var rest := chunks[1..];
      assert NonEmpty(rest);
      ChunksDoNotMatter(More(p, chunks[0]), rest);
      if rest == [] {
        assert Concat(chunks) == chunks[0];
      } else {
        assert Concat(rest) != [];
        MoreMore(p, chunks[0], Concat(rest));
      }
    }
  }

  /** All chunks of a new stream. */
  lemma FeedIsParse(chunks: seq<seq<Byte>>)
    requires NonEmpty(chunks)
    ensures FeedAll(true, START, chunks) == Parse(Concat(chunks))
  {
    ChunksDoNotMatter(START, chunks);
    if chunks != [] {
      var bytes := Concat(chunks);
      assert [] + bytes == bytes;
      assert [] + Parse(bytes).messages == Parse(bytes).messages;
    }
  }

  // ---------------------------------------------------------------------------------------------
  // Encoded messages
  // ---------------------------------------------------------------------------------------------

  ghost predicate Encodable(ms: seq<Message>) {
    forall m :: m in ms ==> |m.body| < 0x8000_0000_0000_0000
  }

  /** How many messages come before the first one with an empty body. */
  function Readable(ms: seq<Message>): (k: nat)
    ensures k <= |ms|
    ensures k == |ms| <==> forall i :: 0 <= i < |ms| ==> ms[i].body != []
  {
    if ms == [] || ms[0].body == [] then 0 else 1 + Readable(ms[1..])
  }

  lemma EncodeIs(m: Message, rest: seq<Byte>)
    requires |m.body| < 0x8000_0000_0000_0000
    ensures var bytes := Encode(m) + rest;
            && |Encode(m)| == HEADER + |m.body|
            && BodyLength(bytes) == |m.body| && bytes[8] == m.cmd && bytes[9] == m.status
            && bytes[HEADER..HEADER + |m.body|] == m.body && bytes[HEADER + |m.body|..] == rest
  {
    SerializerRoundTrip(|m.body|);
    var bytes := Encode(m) + rest;
    assert bytes[..8] == Long2Buff(|m.body|);
  }

  lemma ParseFirst(m: Message, rest: seq<Byte>)
    requires |m.body| < 0x8000_0000_0000_0000
    ensures Parse(Encode(m) + rest) ==
            if m.body != [] then After([m], Parse(rest))
            else Parsed([], if rest == [] then Waiting(Encode(m)) else Stuck)
  {
    var bytes := Encode(m) + rest;
    EncodeIs(m, rest);
    if m.body != [] {
      ParseStep(bytes);
    } else {
      assert rest == [] ==> bytes == Encode(m);
    }
  }

  /** How reading the encoded messages ends when the first `k` of them have bodies. */
  function EncodedEnd(ms: seq<Message>, k: nat): End
    requires k <= |ms|
  {
    if k == |ms| then Waiting([]) else if k == |ms| - 1 then Waiting(Encode(ms[k])) else Stuck
  }

  /**
   Reading what was encoded: all messages, and nothing is left, exactly when no body is empty. Otherwise the messages
   before the first empty one come out, and the reader waits behind that one's header if nothing follows, or never
   ends.
   */
  lemma {:induction false} ParseEncoded(ms: seq<Message>)
    requires Encodable(ms)
    ensures var k := Readable(ms); Parse(EncodeAll(ms)) == Parsed(ms[..k], EncodedEnd(ms, k))
  {
    if ms != [] {
      var m, rest := ms[0], ms[1..];
      assert m in ms;
      ParseFirst(m, EncodeAll(rest));
      if m.body != [] {
        ParseEncoded(rest);
        ReadableRest(ms);
      } else if rest != [] {
        EncodeLength(rest);
      }
    }
  }

  lemma ReadableRest(ms: seq<Message>)
    requires ms != [] && ms[0].body != []
    ensures var rest := ms[1..]; var k := Readable(rest);
            Readable(ms) == k + 1 && ms[..k + 1] == [ms[0]] + rest[..k] && EncodedEnd(ms, k + 1) == EncodedEnd(rest, k)
  {
  }

  lemma EncodeLength(ms: seq<Message>)
    requires ms != []
    ensures |EncodeAll(ms)| >= HEADER
  {
  }

  /** Encoded messages with bodies arrive whole and in order, however the stream is cut, and nothing is left over. */
  lemma Delivery(ms: seq<Message>, chunks: seq<seq<Byte>>)
    requires Encodable(ms) && NonEmpty(chunks) && Concat(chunks) == EncodeAll(ms)
    ensures FeedAll(true, START, chunks) == Parsed(ms, Waiting([])) <==> forall m :: m in ms ==> m.body != []
  {
    FeedIsParse(chunks);
    ParseEncoded(ms);
    assert ms[..|ms|] == ms;
  }

  // ---------------------------------------------------------------------------------------------
  // As written
  // ---------------------------------------------------------------------------------------------

  /** A chunk ends inside a header, and another chunk comes. */
  ghost predicate CutsHeader(p: Parsed, chunks: seq<seq<Byte>>)
    decreases |chunks|
  {
    && chunks != [] && p.end.Waiting?
    && (0 < |p.end.rest| < HEADER || CutsHeader(More(p, chunks[0]), chunks[1..]))
  }

  lemma {:induction false} BrokenStays(byteOffset: bool, p: Parsed, chunks: seq<seq<Byte>>)
    requires !p.end.Waiting?
    ensures FeedAll(byteOffset, p, chunks) == p
    decreases |chunks|
  {
    if chunks != [] {
      BrokenStays(byteOffset, p, chunks[1..]);
    }
  }

  /**
   As written, a chunk that ends inside a header breaks the reader if another follows; else all is as it should be.
   */
  lemma {:induction false} HeaderCutBreaks(p: Parsed, chunks: seq<seq<Byte>>)
    ensures if CutsHeader(p, chunks) then FeedAll(false, p, chunks).end.Broken?
            else FeedAll(false, p, chunks) == FeedAll(true, p, chunks)
    decreases |chunks|
  {
    if chunks != [] {
      if !p.end.Waiting? {
        BrokenStays(false, p, chunks);
        BrokenStays(true, p, chunks);
      } else if 0 < |p.end.rest| < HEADER {
        BrokenStays(false, p.(end := Broken), chunks[1..]);
      } else {
        HeaderCutBreaks(More(p, chunks[0]), chunks[1..]);
      }
    }
  }

  /** As written, encoded messages arrive exactly when, besides, no chunk but the last ends inside a header. */
  lemma DeliveryAsWritten(ms: seq<Message>, chunks: seq<seq<Byte>>)
    requires Encodable(ms) && NonEmpty(chunks) && Concat(chunks) == EncodeAll(ms)
    ensures FeedAll(false, START, chunks) == Parsed(ms, Waiting([])) <==>
            (forall m :: m in ms ==> m.body != []) && !CutsHeader(START, chunks)
  {
    Delivery(ms, chunks);
    HeaderCutBreaks(START, chunks);
  }
}
