/** The per-record integrity check: the XOR of the code points of every payload character,
    written as upper-case hexadecimal padded to at least two digits. */
module Checksums {
  import opened Text

  /** `ord(c)`. A code point has at most 21 bits, and so has the XOR of any number of them:
      a 21-bit accumulator holds exactly the value of the source's unbounded integer. */
  function Ord(c: char): bv21 {
    c as int as bv21
  }

  /** The XOR of the code points of all characters of `s`, in order. */
  function XorAll(s: string): bv21 {
    if |s| == 0 then 0 else XorAll(s[..|s| - 1]) ^ Ord(s[|s| - 1])
  }

  /** What `get_checksum` returns: `hex(sum)[2:].upper().zfill(2)`. The digits denote the XOR of
      the payload's code points; there are exactly two of them when that XOR fits one byte. */
  function Checksum(data: string): (r: string)
    ensures |r| >= 2
    ensures forall i :: 0 <= i < |r| ==> IsHexDigit(r[i])
    ensures NumeralValue(r, 16) == XorAll(data) as int
    ensures |r| == 2 <==> XorAll(data) as int < 0x100
  {
    var n := XorAll(data) as int;
    PaddedHex(n);
    ZFill(Numeral(n, 16), 2)
  }

  lemma PaddedHex(n: nat)
    ensures var r := ZFill(Numeral(n, 16), 2);
      |r| >= 2 && (forall i :: 0 <= i < |r| ==> IsHexDigit(r[i])) && NumeralValue(r, 16) == n
      && (|r| == 2 <==> n < 0x100)
  {
    var digits := Numeral(n, 16);
    HexLength(n);
    var r := ZFill(digits, 2);
    LeadingZeros(r[..|r| - |digits|], digits, 16);
    assert r == r[..|r| - |digits|] + digits;
  }

  /** `get_checksum`: the loop folds each character's code point into the accumulator. */
  method GetChecksum(data: string) returns (checksum: string)
    ensures checksum == Checksum(data)
  {
    var sum: bv21 := 0;
    for i := 0 to |data|
      invariant sum == XorAll(data[..i])
    {
      assert data[..i + 1][..i] == data[..i];
      sum := sum ^ Ord(data[i]);
    }
    assert data[..|data|] == data;
    checksum := ZFill(Numeral(sum as int, 16), 2);
  }

  /** One more character folds its code point into the XOR of the prefix before it. */
  lemma XorAllStep(s: string, k: nat)
    requires k < |s|
    ensures XorAll(s[..k + 1]) == XorAll(s[..k]) ^ Ord(s[k])
  {
    assert s[..k + 1][..k] == s[..k];
  }

  /** The XOR of a concatenation is the XOR of the XORs of its parts. */
  lemma {:induction false} XorAllConcat(s: string, t: string)
    ensures XorAll(s + t) == XorAll(s) ^ XorAll(t)
    decreases |t|
  {
    if t == [] {
      assert s + t == s;
    } else {
      var u := t[..|t| - 1];
      assert (s + t)[..|s + t| - 1] == s + u;
      XorAllConcat(s, u);
    }
  }

  /** The checksum depends only on the multiset of characters, not on their order. */
  lemma {:induction false} XorAllPermutation(s: string, t: string)
    requires multiset(s) == multiset(t)
    ensures XorAll(s) == XorAll(t)
    decreases |s|
  {
    if s == [] {
      assert |t| == |multiset(t)| == 0;
    } else {
      var c := s[|s| - 1];
      var s' := s[..|s| - 1];
      assert s == s' + [c];
      assert c in multiset(t);
      var j :| 0 <= j < |t| && t[j] == c;
      var a, b := t[..j], t[j + 1..];
      assert t == a + [c] + b;
      RemoveOne(s', c, a, b);
      XorAllPermutation(s', a + b);
      XorAllMiddle(a, c, b);
      XorAllSnoc(s', c);
    }
  }

  /** Taking one occurrence of `c` out of two equal multisets leaves equal multisets. */
  lemma RemoveOne(s': string, c: char, a: string, b: string)
    requires multiset(s' + [c]) == multiset(a + [c] + b)
    ensures multiset(s') == multiset(a + b)
  {
    var m1, m2 := multiset(s'), multiset(a + b);
    assert m1 + multiset{c} == m2 + multiset{c};
    forall x
      ensures m1[x] == m2[x]
    {
      assert (m1 + multiset{c})[x] == (m2 + multiset{c})[x];
    }
  }

  lemma XorAllSnoc(a: string, c: char)
    ensures XorAll(a + [c]) == XorAll(a) ^ Ord(c)
  {
    assert (a + [c])[..|a|] == a;
  }

  /** Taking one character out of the middle of a string takes its code point out of the XOR. */
  lemma XorAllMiddle(a: string, c: char, b: string)
    ensures XorAll(a + [c] + b) == XorAll(a + b) ^ Ord(c)
  {
    XorAllConcat(a + [c], b);
    XorAllSnoc(a, c);
    XorAllConcat(a, b);
    var x, y, z := XorAll(a), Ord(c), XorAll(b);
    assert (x ^ y) ^ z == (x ^ z) ^ y;
  }

  lemma ChecksumPermutation(s: string, t: string)
    requires multiset(s) == multiset(t)
    ensures Checksum(s) == Checksum(t)
  {
    XorAllPermutation(s, t);
  }

  /** Swapping the two halves of a payload never changes its checksum. */
  lemma ChecksumConcatCommutes(s: string, t: string)
    ensures Checksum(s + t) == Checksum(t + s)
  {
    XorAllConcat(s, t);
    XorAllConcat(t, s);
  }

  /** A payload repeated twice cancels out: its checksum is "00". */
  lemma ChecksumOfDouble(s: string)
    ensures Checksum(s + s) == "00"
  {
    XorAllConcat(s, s);
    assert Numeral(0, 16) == "0";
  }

  /** ASCII characters XOR to an ASCII value. */
  lemma {:induction false} XorAllAscii(s: string)
    requires IsAscii(s)
    ensures XorAll(s) as int < 0x80
    decreases |s|
  {
    if s != [] {
      XorAllAscii(s[..|s| - 1]);
      var a, b := XorAll(s[..|s| - 1]), Ord(s[|s| - 1]);
      assert a < 0x80 && b < 0x80;
      assert a ^ b < 0x80;
    }
  }

  /** For an ASCII payload the checksum is exactly two digits: the high and the low half of the XOR. */
  lemma ChecksumAscii(s: string)
    requires IsAscii(s)
    ensures XorAll(s) as int < 0x80
    ensures var n := XorAll(s) as int;
      n < 0x100 && Checksum(s) == [DigitChar(n / 16), DigitChar(n % 16)]
  {
    XorAllAscii(s);
    ChecksumByte(s);
  }

  /** A checksum of two digits holds the high and the low half of the XOR. */
  lemma ChecksumByte(s: string)
    requires XorAll(s) as int < 0x100
    ensures var n := XorAll(s) as int;
      Checksum(s) == [DigitChar(n / 16), DigitChar(n % 16)]
  {
    var r := Checksum(s);
    DigitsOfByte(r, XorAll(s) as int);
  }

  /** The checksum of a payload whose XOR is `hi * 16 + lo` is the digit of `hi` then that of `lo`. */
  lemma ChecksumDigits(s: string, hi: nat, lo: nat)
    requires hi < 16 && lo < 16 && XorAll(s) as int == hi * 16 + lo
    ensures Checksum(s) == [DigitChar(hi), DigitChar(lo)]
  {
    Div16(hi, lo);
    ChecksumByte(s);
  }

  lemma Div16(hi: nat, lo: nat)
    requires lo < 16
    ensures (hi * 16 + lo) / 16 == hi && (hi * 16 + lo) % 16 == lo
  {
  }

  /** Two hex digits are determined by the value they denote. */
  lemma DigitsOfByte(r: string, n: nat)
    requires |r| == 2 && IsHexDigit(r[0]) && IsHexDigit(r[1]) && NumeralValue(r, 16) == n
    ensures n < 0x100 && r == [DigitChar(n / 16), DigitChar(n % 16)]
  {
    assert r[..1][..0] == [];
    assert NumeralValue(r[..1], 16) == DigitValue(r[0]);
    assert NumeralValue(r, 16) == DigitValue(r[0]) * 16 + DigitValue(r[1]);
    DigitRoundTrip(r[0]);
    DigitRoundTrip(r[1]);
  }

  lemma DigitRoundTrip(c: char)
    requires IsHexDigit(c)
    ensures DigitChar(DigitValue(c)) == c
  {
  }
}
