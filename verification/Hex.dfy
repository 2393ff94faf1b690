/**
 Bytes as hexadecimal text, and back.
 */
module Hex {
  import opened Framing

  /** '0' to '9' and 'A' to 'F'. */
  function Digit(n: nat): (c: Byte)
    requires n < 16
    ensures c != 0 && IsDigit(c)
  {
    if n < 10 then 48 + n else 55 + n
  }

  predicate IsDigit(c: Byte) {
    48 <= c <= 57 || 65 <= c <= 70
  }

  function ValueOf(c: Byte): (n: nat)
    requires IsDigit(c)
    ensures n < 16
  {
    if c >= 65 then c - 55 else c - 48
  }

  /** Each byte as its high digit and then its low one. */
  function ToHex(bytes: seq<Byte>): (text: seq<Byte>)
    ensures |text| == 2 * |bytes|
  {
    seq(2 * |bytes|, i requires 0 <= i < 2 * |bytes| => DigitAt(bytes, i))
  }

  function DigitAt(bytes: seq<Byte>, i: nat): Byte
    requires i < 2 * |bytes|
  {
    if i % 2 == 0 then Digit(bytes[i / 2] / 16) else Digit(bytes[i / 2] % 16)
  }

  lemma ToHexAt(bytes: seq<Byte>, i: nat)
    requires i < |bytes|
    ensures ToHex(bytes)[2 * i] == Digit(bytes[i] / 16) && ToHex(bytes)[2 * i + 1] == Digit(bytes[i] % 16)
  {
    assert 2 * i / 2 == i && (2 * i + 1) / 2 == i;
  }

  predicate AllDigits(text: seq<Byte>) {
    forall i :: 0 <= i < |text| ==> IsDigit(text[i])
  }

  /** The bytes that pairs of digits stand for. */
  function FromHex(text: seq<Byte>): (bytes: seq<Byte>)
    requires |text| % 2 == 0 && AllDigits(text)
    ensures |bytes| == |text| / 2
  {
    seq(|text| / 2, i requires 0 <= i < |text| / 2 => Pair(text[2 * i], text[2 * i + 1]))
  }

  function Pair(high: Byte, low: Byte): Byte
    requires IsDigit(high) && IsDigit(low)
  {
    16 * ValueOf(high) + ValueOf(low)
  }

  lemma PairIs(b: Byte, high: Byte, low: Byte)
    ensures Pair(Digit(b / 16), Digit(b % 16)) == b
    ensures IsDigit(high) && IsDigit(low) ==>
              Digit(Pair(high, low) / 16) == high && Digit(Pair(high, low) % 16) == low
  {
  }

  /** Bytes written as text are read back, and text read as bytes is written back. */
  lemma HexRoundTrip(bytes: seq<Byte>, text: seq<Byte>)
    ensures AllDigits(ToHex(bytes)) && FromHex(ToHex(bytes)) == bytes
    ensures |text| % 2 == 0 && AllDigits(text) ==> ToHex(FromHex(text)) == text
  {
    forall i | 0 <= i < |bytes|
      ensures FromHex(ToHex(bytes))[i] == bytes[i]
    {
      ToHexAt(bytes, i);
      PairIs(bytes[i], 0, 0);
    }
    if |text| % 2 == 0 && AllDigits(text) {
      forall i | 0 <= i < |text|
        ensures ToHex(FromHex(text))[i] == text[i]
      {
        var k := i / 2;
        PairIs(0, text[2 * k], text[2 * k + 1]);
      }
    }
  }

  method Clear(a: array<Byte>)
    modifies a
    ensures forall i :: 0 <= i < a.Length ==> a[i] == 0
  {
    for i := 0 to a.Length
      invariant forall j :: 0 <= j < i ==> a[j] == 0
    {
      a[i] := 0;
    }
  }

  /** kl_bin2hex: the text with a zero byte behind it, if the buffer has room for both. */
  method Bin2Hex(hex: array<Byte>, bin: seq<Byte>) returns (ok: bool)
    modifies hex
    ensures ok <==> hex.Length >= 2 * |bin| + 1
    ensures ok ==> hex[..2 * |bin|] == ToHex(bin)
    ensures forall i :: (if ok then 2 * |bin| else 0) <= i < hex.Length ==> hex[i] == 0
  {
    Clear(hex);
    if hex.Length < 2 * |bin| + 1 {
      return false;
    }
    for i := 0 to |bin|
      invariant forall j :: 0 <= j < 2 * i ==> hex[j] == DigitAt(bin, j)
      invariant forall j :: 2 * i <= j < hex.Length ==> hex[j] == 0
    {
      hex[2 * i + 1] := Digit(bin[i] % 16);
      hex[2 * i] := Digit(bin[i] / 16);
      assert 2 * i / 2 == i && (2 * i + 1) / 2 == i;
    }
    hex[2 * |bin|] := 0;
    return true;
  }

  /** kl_hex2bin: reads two digits for each byte of the buffer. */
  method Hex2Bin(bin: array<Byte>, hex: seq<Byte>) returns (ok: bool)
    modifies bin
    ensures ok <==> |hex| >= 2 * bin.Length && AllDigits(hex[..2 * bin.Length])
    ensures ok ==> bin[..] == FromHex(hex[..2 * bin.Length])
  {
    Clear(bin);
    if |hex| < 2 * bin.Length {
      return false;
    }
    ghost var text := hex[..2 * bin.Length];
    for i := 0 to bin.Length
      invariant AllDigits(hex[..2 * i])
      invariant forall j :: 0 <= j < i ==> bin[j] == Pair(hex[2 * j], hex[2 * j + 1])
    {
      if !IsDigit(hex[2 * i]) {
        assert !IsDigit(text[2 * i]);
        return false;
      }
      bin[i] := 16 * ValueOf(hex[2 * i]);
      if !IsDigit(hex[2 * i + 1]) {
        assert !IsDigit(text[2 * i + 1]);
        return false;
      }
      bin[i] := bin[i] + ValueOf(hex[2 * i + 1]);
    }
    return true;
  }

  lemma HexHasNoZero(bytes: seq<Byte>)
    ensures forall i :: 0 <= i < 2 * |bytes| ==> ToHex(bytes)[i] != 0
  {
  }
}
