/**
 The digest of RFC 1321, byte by byte: what the padding, the first state and the order of the words are.
 */
module Md5Standard {
  import opened Framing
  import opened Md5

  /** The bytes as a number, the first byte lowest. */
  function Little(s: seq<Byte>): nat {
    if s == [] then 0 else (s[0] as nat) + 256 * Little(s[1..])
  }

  lemma LittleFour(s: seq<Byte>)
    requires |s| == 4
    ensures Little(s) == DecodeWord(s)
  {
    assert s[1..][1..] == s[2..] && s[2..][1..] == s[3..] && s[3..][1..] == [];
    assert Little(s[3..]) == s[3];
    assert Little(s[2..]) == s[2] + 256 * Little(s[3..]);
    assert Little(s[1..]) == s[1] + 256 * Little(s[2..]);
  }

  /** A word is stored with its low-order byte first. */
  lemma EncodedIs(w: Word)
    ensures |EncodeWord(w)| == 4 && Little(EncodeWord(w)) == w
  {
    DecodeEncoded(w);
    LittleFour(EncodeWord(w));
  }

  lemma {:induction false} LittleBoth(a: seq<Byte>, b: seq<Byte>, scale: nat)
    requires scale == Power256(|a|)
    ensures Little(a + b) == Little(a) + scale * Little(b)
  {
    if a == [] {
      assert a + b == b;
    } else {
      assert (a + b)[0] == a[0] && (a + b)[1..] == a[1..] + b;
      LittleBoth(a[1..], b, Power256(|a| - 1));
      assert 256 * (Power256(|a| - 1) * Little(b)) == scale * Little(b);
    }
  }

  function Power256(n: nat): nat {
    if n == 0 then 1 else 256 * Power256(n - 1)
  }

  /** The last eight bytes of the padding are the length in bits, modulo 2^64, low-order byte first. */
  lemma LengthIs(n: nat)
    ensures Little(LengthBytes(n)) == 8 * n % (WORD * WORD)
  {
    var lo, hi := 8 * n % WORD, 8 * n / WORD % WORD;
    EncodedIs(lo);
    EncodedIs(hi);
    assert Power256(4) == WORD;
    LittleBoth(EncodeWord(lo), EncodeWord(hi), WORD);
    WordsOf(8 * n);
  }

  lemma WordsOf(n: nat)
    ensures n % WORD + WORD * (n / WORD % WORD) == n % (WORD * WORD)
  {
    var q := n / WORD;
    assert n == q * WORD + n % WORD;
    assert q == q / WORD * WORD + q % WORD;
    assert n == q / WORD * (WORD * WORD) + (q % WORD * WORD + n % WORD);
  }

  /**
   Sections 3.1 and 3.2 of RFC 1321: a one bit, zeros up to 56 bytes modulo 64 and no further than that, and the length
   in bits.
   */
  predicate IsPadding(n: nat, p: seq<Byte>) {
    && 9 <= |p| <= 72 && (n + |p|) % 64 == 0 && p[0] == 0x80
    && (forall i :: 1 <= i < |p| - 8 ==> p[i] == 0)
    && Little(p[|p| - 8..]) == 8 * n % (WORD * WORD)
  }

  lemma PaddingShape(n: nat, k: nat)
    requires k == PadCount(n)
    ensures var p := Padding(n);
            && |p| == k + 8 && p[0] == 0x80 && (forall i :: 1 <= i < k ==> p[i] == 0) && p[k..] == LengthBytes(n)
  {
    var front := [0x80] + Zeros(k - 1);
    assert |front| == k && Padding(n) == front + LengthBytes(n);
  }

  lemma PaddedLength(n: nat, k: nat)
    requires (n + k) % 64 == 56
    ensures (n + (k + 8)) % 64 == 0
  {
  }

  lemma PaddingIsThat(n: nat)
    ensures IsPadding(n, Padding(n))
  {
    LengthIs(n);
    PaddingShape(n, PadCount(n));
    PaddedLength(n, PadCount(n));
  }

  /** Numbers of as many bytes are equal only byte by byte. */
  lemma {:induction false} LittleOnce(a: seq<Byte>, b: seq<Byte>)
    requires |a| == |b| && Little(a) == Little(b)
    ensures a == b
  {
    if a != [] {
      var (x: int, y: int) := (a[0], b[0]);
      assert x == y && Little(a[1..]) == Little(b[1..]);
      LittleOnce(a[1..], b[1..]);
      assert a == [a[0]] + a[1..] && b == [b[0]] + b[1..];
    }
  }

  /** No other bytes are a padding for the length. */
  lemma OnlyPadding(n: nat, p: seq<Byte>)
    requires IsPadding(n, p)
    ensures p == Padding(n)
  {
    var p' := Padding(n);
    PaddingIsThat(n);
    SameLength(n, |p|, |p'|);
    LittleOnce(p[|p| - 8..], p'[|p| - 8..]);
    forall i | 0 <= i < |p|
      ensures p[i] == p'[i]
    {
      if i >= |p| - 8 {
        assert p[i] == p[|p| - 8..][i - (|p| - 8)] && p'[i] == p'[|p| - 8..][i - (|p| - 8)];
      }
    }
  }

  lemma SameLength(n: nat, a: nat, b: nat)
    requires 9 <= a <= 72 && 9 <= b <= 72 && (n + a) % 64 == 0 && (n + b) % 64 == 0
    ensures a == b
  {
    var x, y := (n + a) / 64, (n + b) / 64;
    assert n + a == 64 * x && n + b == 64 * y;
  }

  /** Section 3.3 of RFC 1321, in the order in which it gives the bytes of the four registers. */
  lemma InitialBytes()
    ensures EncodeWords(INIT) == [0x01, 0x23, 0x45, 0x67, 0x89, 0xab, 0xcd, 0xef,
                                  0xfe, 0xdc, 0xba, 0x98, 0x76, 0x54, 0x32, 0x10]
  {
    assert EncodeWord(INIT.a) == [0x01, 0x23, 0x45, 0x67] && EncodeWord(INIT.b) == [0x89, 0xab, 0xcd, 0xef];
    assert EncodeWord(INIT.c) == [0xfe, 0xdc, 0xba, 0x98] && EncodeWord(INIT.d) == [0x76, 0x54, 0x32, 0x10];
  }

  /** The bytes tell the four words, in this order. */
  lemma WordsInOrder(s: Words)
    ensures var bytes := EncodeWords(s);
            && |bytes| == 16
            && Little(bytes[..4]) == s.a && Little(bytes[4..8]) == s.b
            && Little(bytes[8..12]) == s.c && Little(bytes[12..]) == s.d
  {
    EncodedIs(s.a);
    EncodedIs(s.b);
    EncodedIs(s.c);
    EncodedIs(s.d);
    var bytes := EncodeWords(s);
    assert bytes[..4] == EncodeWord(s.a) && bytes[4..8] == EncodeWord(s.b);
    assert bytes[8..12] == EncodeWord(s.c) && bytes[12..] == EncodeWord(s.d);
  }

  lemma SameWords(s: Words, t: Words)
    requires EncodeWords(s) == EncodeWords(t)
    ensures s == t
  {
    WordsInOrder(s);
    WordsInOrder(t);
  }

  /** Section 3.4: `states` begins with the first state and holds the next one after each block of 64 bytes. */
  ghost predicate Chained(h: Transform, data: seq<Byte>, states: seq<Words>) {
    && |data| % 64 == 0 && |states| == |data| / 64 + 1
    && forall i :: 0 <= i < |states| - 1 ==> states[i + 1] == h(states[i], data[64 * i..64 * i + 64])
  }

  lemma {:induction false} BlocksAre(h: Transform, data: seq<Byte>, states: seq<Words>)
    requires Chained(h, data, states)
    ensures Blocks(h, states[0], data) == states[|states| - 1]
    decreases |data|
  {
    if |data| >= 64 {
      var rest, next := data[64..], states[1..];
      assert states[1] == h(states[0], data[64 * 0..64 * 0 + 64]);
      forall i | 0 <= i < |next| - 1
        ensures next[i + 1] == h(next[i], rest[64 * i..64 * i + 64])
      {
        assert states[i + 1 + 1] == h(states[i + 1], data[64 * (i + 1)..64 * (i + 1) + 64]);
        assert rest[64 * i..64 * i + 64] == data[64 * (i + 1)..64 * (i + 1) + 64];
      }
      BlocksAre(h, rest, next);
    }
  }

  /**
   RFC 1321, sections 3.1 to 3.5, as bytes: with the padding of the message's length, the state that section 3.3 gives
   byte by byte, and one application of `h` for each block of 64 bytes, the digest is the last state, its words in
   order.
   */
  lemma DigestAsBytes(h: Transform, message: seq<Byte>, padding: seq<Byte>, states: seq<Words>)
    requires IsPadding(|message|, padding) && Chained(h, message + padding, states)
    requires EncodeWords(states[0]) == [0x01, 0x23, 0x45, 0x67, 0x89, 0xab, 0xcd, 0xef,
                                        0xfe, 0xdc, 0xba, 0x98, 0x76, 0x54, 0x32, 0x10]
    ensures var (digest, last) := (Digest(h, message), states[|states| - 1]);
            && |digest| == 16
            && Little(digest[..4]) == last.a && Little(digest[4..8]) == last.b
            && Little(digest[8..12]) == last.c && Little(digest[12..]) == last.d
  {
    OnlyPadding(|message|, padding);
    InitialBytes();
    SameWords(states[0], INIT);
    BlocksAre(h, message + padding, states);
    WordsInOrder(states[|states| - 1]);
  }

  /** The digest of the empty message: one application, to 0x80 and 63 zeros. */
  lemma EmptyDigest(h: Transform, first: Words)
    requires EncodeWords(first) == [0x01, 0x23, 0x45, 0x67, 0x89, 0xab, 0xcd, 0xef,
                                    0xfe, 0xdc, 0xba, 0x98, 0x76, 0x54, 0x32, 0x10]
    ensures Digest(h, []) == EncodeWords(h(first, [0x80] + Zeros(63)))
  {
    InitialBytes();
    SameWords(first, INIT);
    assert LengthBytes(0) == Zeros(8);
    assert [] + Padding(0) == [0x80] + Zeros(63);
    var block := [0x80] + Zeros(63);
    assert block[..64] == block && Blocks(h, h(INIT, block), block[64..]) == h(INIT, block);
  }
}
