/** The string primitives the codec is built from: splitting on a separator (in full and at the
    first occurrence only), numerals in base 10 and 16, Python's int() on field text, and the
    UTF-8 encoding that turns a frame into bytes. */
module Text {
  import opened Outcomes

  type Byte = b: int | 0 <= b < 0x100

  predicate IsAscii(s: string) {
    forall i :: 0 <= i < |s| ==> s[i] as int < 0x80
  }

  lemma AsciiConcat(a: string, b: string)
    ensures IsAscii(a + b) <==> IsAscii(a) && IsAscii(b)
  {
    if IsAscii(a) && IsAscii(b) {
      forall i | 0 <= i < |a + b|
        ensures (a + b)[i] as int < 0x80
      {
        if i >= |a| {
          assert (a + b)[i] == b[i - |a|];
        }
      }
    }
    if IsAscii(a + b) {
      forall i | 0 <= i < |a|
        ensures a[i] as int < 0x80
      {
        assert (a + b)[i] == a[i];
      }
      forall i | 0 <= i < |b|
        ensures b[i] as int < 0x80
      {
        assert (a + b)[|a| + i] == b[i];
      }
    }
  }

  // ---------------------------------------------------------------------------------------------
  // Splitting and joining

  /** `sep.join(parts)`: the inverse of Split. */
  function Join(parts: seq<string>, sep: char): string
  {
    if |parts| == 0 then ""
    else if |parts| == 1 then parts[0]
    else parts[0] + [sep] + Join(parts[1..], sep)
  }

  /** Joining a first piece in front of a non-empty list puts one separator between them. */
  lemma JoinCons(head: string, rest: seq<string>, sep: char)
    requires |rest| >= 1
    ensures Join([head] + rest, sep) == head + [sep] + Join(rest, sep)
  {
    assert ([head] + rest)[1..] == rest;
  }

  /** Joining two non-empty lists one after the other puts one separator between their joins. */
  lemma {:induction false} JoinAppend(p: seq<string>, q: seq<string>, sep: char)
    requires |p| >= 1 && |q| >= 1
    ensures Join(p + q, sep) == Join(p, sep) + [sep] + Join(q, sep)
    decreases |p|
  {
    if |p| == 1 {
      assert p + q == [p[0]] + q;
      JoinCons(p[0], q, sep);
    } else {
      var p' := p[1..];
      assert p + q == [p[0]] + (p' + q);
      JoinCons(p[0], p' + q, sep);
      JoinAppend(p', q, sep);
      assert Join(p, sep) == p[0] + [sep] + Join(p', sep);
    }
  }


  /** Joining ASCII pieces with an ASCII separator gives ASCII text. */
  lemma {:induction false} JoinAscii(parts: seq<string>, sep: char)
    requires sep as int < 0x80
    requires forall i :: 0 <= i < |parts| ==> IsAscii(parts[i])
    ensures IsAscii(Join(parts, sep))
    decreases |parts|
  {
    if |parts| > 1 {
      JoinAscii(parts[1..], sep);
      AsciiConcat(parts[0], [sep]);
      AsciiConcat(parts[0] + [sep], Join(parts[1..], sep));
    }
  }

  /** A character that is neither the separator nor in any piece is not in the joined text. */
  lemma {:induction false} JoinAvoids(parts: seq<string>, sep: char, x: char)
    requires x != sep
    requires forall i :: 0 <= i < |parts| ==> x !in parts[i]
    ensures x !in Join(parts, sep)
    decreases |parts|
  {
    if |parts| > 1 {
      JoinAvoids(parts[1..], sep, x);
    }
  }

  /** `s.split(sep)`: the maximal separator-free pieces of `s`, in order; an empty `s` gives [""]. */
  function Split(s: string, sep: char): (parts: seq<string>)
    ensures |parts| >= 1
    ensures forall i :: 0 <= i < |parts| ==> sep !in parts[i]
    ensures Join(parts, sep) == s
    decreases |s|
  {
    if s == [] then [""]
    else
      var rest := Split(s[1..], sep);
      if s[0] == sep then
        assert s == [sep] + s[1..];
        [""] + rest
      else
        var parts := [[s[0]] + rest[0]] + rest[1..];
        assert parts[1..] == rest[1..];
        assert s == [s[0]] + s[1..];
        parts
  }

  lemma {:induction false} SplitNoSeparator(a: string, sep: char)
    requires sep !in a
    ensures Split(a, sep) == [a]
    decreases |a|
  {
    if a != [] {
      assert sep !in a[1..];
      SplitNoSeparator(a[1..], sep);
    }
  }

  /** Splitting at the first separator leaves the later pieces exactly as splitting the rest gives them. */
  lemma {:induction false} SplitAtFirst(a: string, b: string, sep: char)
    requires sep !in a
    ensures Split(a + [sep] + b, sep) == [a] + Split(b, sep)
    decreases |a|
  {
    var s := a + [sep] + b;
    if a == [] {
      assert s[1..] == b;
    } else {
      assert s[1..] == a[1..] + [sep] + b;
      assert sep !in a[1..];
      SplitAtFirst(a[1..], b, sep);
      assert [a[0]] + a[1..] == a;
    }
  }

  /** Join followed by Split gives the pieces back, provided none of them holds the separator. */
  lemma {:induction false} SplitJoin(parts: seq<string>, sep: char)
    requires |parts| >= 1
    requires forall i :: 0 <= i < |parts| ==> sep !in parts[i]
    ensures Split(Join(parts, sep), sep) == parts
    decreases |parts|
  {
    if |parts| == 1 {
      SplitNoSeparator(parts[0], sep);
    } else {
      SplitJoin(parts[1..], sep);
      SplitAtFirst(parts[0], Join(parts[1..], sep), sep);
      assert [parts[0]] + parts[1..] == parts;
    }
  }

  /** `s.split(sep, 1)` unpacked into two names: the text before the first separator and the text
      after it; None where Python's unpacking raises because there is no separator. */
  function SplitFirst(s: string, sep: char): (r: Option<(string, string)>)
    ensures r.None? <==> sep !in s
    ensures r.Some? ==> sep !in r.value.0 && s == r.value.0 + [sep] + r.value.1
  {
    if s == [] then None
    else if s[0] == sep then
      assert s == [sep] + s[1..];
      Some(("", s[1..]))
    else
      match SplitFirst(s[1..], sep)
      case None => None
      case Some((head, tail)) =>
        assert s == [s[0]] + s[1..];
        Some(([s[0]] + head, tail))
  }

  /** The split at the first separator is determined by where that separator stands. */
  lemma SplitFirstAt(a: string, b: string, sep: char)
    requires sep !in a
    ensures SplitFirst(a + [sep] + b, sep) == Some((a, b))
  {
    var s := a + [sep] + b;
    var r := SplitFirst(s, sep);
    var h := r.value.0;
    assert s == h + [sep] + r.value.1;
    assert forall i :: 0 <= i < |a| ==> s[i] == a[i];
    assert forall i :: 0 <= i < |h| ==> s[i] == h[i];
    assert s[|a|] == sep && s[|h|] == sep;
    assert |h| == |a|;
    assert h == s[..|h|] == a;
    assert r.value.1 == s[|a| + 1..] == b;
  }

  /** `s.split(sep, 1)` and `s.split(sep)` agree: the first piece is the head, the rest splits the same. */
  lemma SplitFirstThenSplit(s: string, sep: char)
    requires SplitFirst(s, sep).Some?
    ensures var (head, tail) := SplitFirst(s, sep).value;
      Split(s, sep) == [head] + Split(tail, sep)
  {
    var (head, tail) := SplitFirst(s, sep).value;
    SplitAtFirst(head, tail, sep);
  }

  // ---------------------------------------------------------------------------------------------
  // Digits and numerals

  predicate IsDecDigit(c: char) {
    '0' <= c <= '9'
  }

  /** An upper-case hexadecimal digit, the class `[0-9A-F]` of the frame grammar. */
  predicate IsHexDigit(c: char) {
    IsDecDigit(c) || 'A' <= c <= 'F'
  }

  function DigitValue(c: char): (v: nat)
    requires IsHexDigit(c)
    ensures v < 16
    ensures IsDecDigit(c) <==> v < 10
  {
    if IsDecDigit(c) then c as int - '0' as int else c as int - 'A' as int + 10
  }

  /** The upper-case digit of value `v`. */
  function DigitChar(v: nat): (c: char)
    requires v < 16
    ensures IsHexDigit(c) && DigitValue(c) == v
  {
    if v < 10 then ('0' as int + v) as char else ('A' as int + (v - 10)) as char
  }

  /** The value of a string of digits, most significant first. */
  function NumeralValue(s: string, base: nat): nat
    requires forall i :: 0 <= i < |s| ==> IsHexDigit(s[i])
  {
    if s == [] then 0 else NumeralValue(s[..|s| - 1], base) * base + DigitValue(s[|s| - 1])
  }

  /** The digits of `n` without leading zeros: `str(n)` for base 10, `hex(n)[2:].upper()` for base 16. */
  function Numeral(n: nat, base: nat): (r: string)
    requires 2 <= base <= 16
    ensures |r| >= 1
    ensures forall i :: 0 <= i < |r| ==> IsHexDigit(r[i]) && DigitValue(r[i]) < base
    ensures NumeralValue(r, base) == n
    ensures r[0] == '0' ==> r == "0"
    decreases n
  {
    if n < base then [DigitChar(n)]
    else
      DivMod(n, base);
      var high := Numeral(n / base, base);
      var r := high + [DigitChar(n % base)];
      assert r[..|r| - 1] == high;
      r
  }

  lemma DivMod(n: nat, base: nat)
    requires 2 <= base <= n
    ensures n == (n / base) * base + n % base
    ensures 1 <= n / base < n
  {
  }

  /** A hexadecimal numeral has one digit below 0x10, two below 0x100, and more from there on. */
  lemma HexLength(n: nat)
    ensures n < 0x10 ==> |Numeral(n, 16)| == 1
    ensures 0x10 <= n < 0x100 ==> |Numeral(n, 16)| == 2
    ensures 0x100 <= n ==> |Numeral(n, 16)| >= 3
  {
    if 0x10 <= n {
      HexLength(n / 16);
    }
  }

  /** Leading zeros do not change the value of a numeral. */
  lemma {:induction false} LeadingZeros(zeros: string, s: string, base: nat)
    requires forall i :: 0 <= i < |zeros| ==> zeros[i] == '0'
    requires forall i :: 0 <= i < |s| ==> IsHexDigit(s[i])
    ensures forall i :: 0 <= i < |zeros + s| ==> IsHexDigit((zeros + s)[i])
    ensures NumeralValue(zeros + s, base) == NumeralValue(s, base)
    decreases |s|
  {
    if s == [] {
      AllZeros(zeros, base);
      assert zeros + s == zeros;
    } else {
      var t := zeros + s;
      assert t[..|t| - 1] == zeros + s[..|s| - 1];
      LeadingZeros(zeros, s[..|s| - 1], base);
    }
  }

  lemma {:induction false} AllZeros(zeros: string, base: nat)
    requires forall i :: 0 <= i < |zeros| ==> zeros[i] == '0'
    ensures forall i :: 0 <= i < |zeros| ==> IsHexDigit(zeros[i])
    ensures NumeralValue(zeros, base) == 0
    decreases |zeros|
  {
    if zeros != [] {
      AllZeros(zeros[..|zeros| - 1], base);
    }
  }

  /** `s.zfill(width)` for text without a sign: `s` padded on the left with '0' up to `width`
      characters. */
  function ZFill(s: string, width: nat): (r: string)
    ensures |r| == if |s| >= width then |s| else width
    ensures r[|r| - |s|..] == s
    ensures forall i :: 0 <= i < |r| - |s| ==> r[i] == '0'
  {
    if |s| >= width then s else seq(width - |s|, _ => '0') + s
  }

  // ---------------------------------------------------------------------------------------------
  // Integers in field text

  /** One or more decimal digits. */
  predicate IsDigits(s: string) {
    |s| > 0 && forall i :: 0 <= i < |s| ==> IsDecDigit(s[i])
  }

  /** The texts `int()` accepts in this model: an optional sign followed by decimal digits. */
  predicate IsIntText(s: string) {
    IsDigits(s) || (|s| > 1 && (s[0] == '+' || s[0] == '-') && IsDigits(s[1..]))
  }

  /** Python's `int(s)` on a field: the decimal value of the digits after an optional sign,
      negated when the sign is '-'. */
  function ParseInt(s: string): (r: Result<int>)
    ensures r.Ok? <==> IsIntText(s)
    ensures r.Err? ==> r.error == NotAnInteger(s)
    ensures r.Ok? && IsDecDigit(s[0]) ==> r.value == NumeralValue(s, 10)
    ensures r.Ok? && s[0] == '+' ==> IsDigits(s[1..]) && r.value == NumeralValue(s[1..], 10)
    ensures r.Ok? && s[0] == '-' ==> IsDigits(s[1..]) && r.value == -(NumeralValue(s[1..], 10) as int)
    ensures r.Ok? && s[0] == '-' ==> r.value <= 0
    ensures r.Ok? && s[0] != '-' ==> r.value >= 0
  {
    if IsDigits(s) then Ok(NumeralValue(s, 10))
    else if |s| > 1 && (s[0] == '+' || s[0] == '-') && IsDigits(s[1..]) then
      var magnitude: int := NumeralValue(s[1..], 10);
      Ok(if s[0] == '-' then -magnitude else magnitude)
    else Err(NotAnInteger(s))
  }

  /** `str(n)`: the decimal text of an integer, with a '-' for negative values. */
  function IntText(n: int): (r: string)
    ensures forall i :: 0 <= i < |r| ==> IsDecDigit(r[i]) || r[i] == '-'
  {
    if n < 0 then "-" + Numeral(-n, 10) else Numeral(n, 10)
  }

  /** `int(str(n)) == n`. */
  lemma ParseIntText(n: int)
    ensures ParseInt(IntText(n)) == Ok(n)
  {
    if n < 0 {
      var digits := Numeral(-n, 10);
      assert IntText(n)[1..] == digits;
      assert IntText(n)[0] == '-' && !IsDecDigit('-');
      assert !IsDigits(IntText(n));
    }
  }

  /** Leading zeros and a sign around decimal text: "019", "+19" and "+0019" read as 19, and
      "-0" and "-00" read as 0. */
  lemma ParseIntPadded(sign: string, zeros: string, n: nat)
    requires sign == "" || sign == "+" || sign == "-"
    requires forall i :: 0 <= i < |zeros| ==> zeros[i] == '0'
    ensures ParseInt(sign + zeros + IntText(n)) == Ok(if sign == "-" then -(n as int) else n)
  {
    var t := zeros + IntText(n);
    PaddedDigits(zeros, n);
    if sign == "" {
      assert sign + t == t;
    } else {
      assert (sign + t)[1..] == t;
      assert (sign + t)[0] == sign[0] && !IsDecDigit(sign[0]);
    }
    assert sign + zeros + IntText(n) == sign + t;
  }

  /** Zeros in front of the decimal text of a natural number leave digits of the same value. */
  lemma PaddedDigits(zeros: string, n: nat)
    requires forall i :: 0 <= i < |zeros| ==> zeros[i] == '0'
    ensures IsDigits(zeros + IntText(n)) && NumeralValue(zeros + IntText(n), 10) == n
  {
    var digits := IntText(n);
    var t := zeros + digits;
    LeadingZeros(zeros, digits, 10);
    forall i | 0 <= i < |t|
      ensures IsDecDigit(t[i])
    {
      if i >= |zeros| {
        assert t[i] == digits[i - |zeros|];
        assert DigitValue(digits[i - |zeros|]) < 10;
      }
    }
  }

  /** Decimal text is ASCII and holds none of the protocol's separators. */
  lemma IntTextAlphabet(n: int)
    ensures IsAscii(IntText(n))
    ensures '^' !in IntText(n) && ',' !in IntText(n) && '\n' !in IntText(n)
  {
  }

  // ---------------------------------------------------------------------------------------------
  // UTF-8

  /** The code point carried by a one- to four-byte UTF-8 sequence, read from its payload bits. */
  function Utf8CodePoint(b: seq<Byte>): int
    requires 1 <= |b| <= 4
  {
    var b0: int := b[0];
    if |b| == 1 then b0
    else if |b| == 2 then (b0 % 0x20) * 0x40 + Low6(b[1])
    else if |b| == 3 then (b0 % 0x10) * 0x1000 + Low6(b[1]) * 0x40 + Low6(b[2])
    else (b0 % 0x08) * 0x40000 + Low6(b[1]) * 0x1000 + Low6(b[2]) * 0x40 + Low6(b[3])
  }

  /** The six payload bits of a continuation byte. */
  function Low6(b: Byte): int {
    b as int % 0x40
  }

  /** The UTF-8 encoding of one character. */
  function Utf8Char(c: char): (b: seq<Byte>)
    ensures 1 <= |b| <= 4
    ensures |b| == 1 <==> c as int < 0x80
    ensures |b| == 2 <==> 0x80 <= c as int < 0x800
    ensures |b| == 3 <==> 0x800 <= c as int < 0x10000
    ensures |b| == 4 <==> 0x10000 <= c as int
    ensures |b| == 1 ==> b[0] < 0x80
    ensures |b| == 2 ==> 0xC0 <= b[0] < 0xE0
    ensures |b| == 3 ==> 0xE0 <= b[0] < 0xF0
    ensures |b| == 4 ==> 0xF0 <= b[0] < 0xF8
    ensures forall i :: 1 <= i < |b| ==> 0x80 <= b[i] < 0xC0
    ensures Utf8CodePoint(b) == c as int
  {
    var n := c as int;
    if n < 0x80 then [n]
    else if n < 0x800 then
      var b := [0xC0 + n / 0x40, 0x80 + n % 0x40];
      TwoByteValue(n, b);
      b
    else if n < 0x10000 then
      var b := [0xE0 + n / 0x1000, 0x80 + (n / 0x40) % 0x40, 0x80 + n % 0x40];
      ThreeByteValue(n, b);
      b
    else
      var b := [0xF0 + n / 0x40000, 0x80 + (n / 0x1000) % 0x40, 0x80 + (n / 0x40) % 0x40, 0x80 + n % 0x40];
      FourByteValue(n, b);
      b
  }

  lemma TwoByteValue(n: int, b: seq<Byte>)
    requires 0x80 <= n < 0x800 && b == [0xC0 + n / 0x40, 0x80 + n % 0x40]
    ensures Utf8CodePoint(b) == n
  {
    assert (0xC0 + n / 0x40) % 0x20 == n / 0x40;
  }

  lemma ThreeByteValue(n: int, b: seq<Byte>)
    requires 0x800 <= n < 0x10000
    requires b == [0xE0 + n / 0x1000, 0x80 + (n / 0x40) % 0x40, 0x80 + n % 0x40]
    ensures Utf8CodePoint(b) == n
  {
    assert (0xE0 + n / 0x1000) % 0x10 == n / 0x1000;
    assert n / 0x40 == (n / 0x1000) * 0x40 + (n / 0x40) % 0x40;
  }

  lemma FourByteValue(n: int, b: seq<Byte>)
    requires 0x10000 <= n < 0x110000
    requires b == [0xF0 + n / 0x40000, 0x80 + (n / 0x1000) % 0x40, 0x80 + (n / 0x40) % 0x40, 0x80 + n % 0x40]
    ensures Utf8CodePoint(b) == n
  {
    var d0, d1, d2, d3 := n / 0x40000, n / 0x1000 % 0x40, n / 0x40 % 0x40, n % 0x40;
    SixBitGroups(n);
    assert b[0] as int % 0x08 == d0 by {
      assert d0 < 0x08;
      assert b[0] as int == 0xF0 + d0;
    }
    assert Low6(b[1]) == d1 && Low6(b[2]) == d2 && Low6(b[3]) == d3;
  }

  /** A number is its bits from the eighteenth up, then three groups of six bits. */
  lemma SixBitGroups(n: nat)
    ensures n == n / 0x40000 * 0x40000 + n / 0x1000 % 0x40 * 0x1000 + n / 0x40 % 0x40 * 0x40 + n % 0x40
  {
    var q1 := n / 0x40;
    var q2 := q1 / 0x40;
    var q3 := q2 / 0x40;
    SixBitsTwice(n);
    SixBitsTwice(q1);
    assert q2 == n / 0x1000 && q3 == n / 0x40000;
    assert n == q1 * 0x40 + n % 0x40;
    assert q1 == q2 * 0x40 + q1 % 0x40;
    assert q2 == q3 * 0x40 + q2 % 0x40;
  }

  /** Dropping six bits twice drops twelve, and twice that drops eighteen. */
  lemma SixBitsTwice(n: nat)
    ensures n / 0x40 / 0x40 == n / 0x1000
    ensures n / 0x40 / 0x1000 == n / 0x40000
  {
    var m := n / 0x40;
    assert n == 0x40 * m + n % 0x40;
    assert n == 0x1000 * (m / 0x40) + (0x40 * (m % 0x40) + n % 0x40);
    assert n == 0x40000 * (m / 0x1000) + (0x40 * (m % 0x1000) + n % 0x40);
  }

  /** `s.encode()`: the UTF-8 bytes of a string, character by character; for ASCII text, one byte
      per character. */
  function Utf8(s: string): (b: seq<Byte>)
    ensures |b| >= |s|
    ensures |s| == 1 ==> b == Utf8Char(s[0])
    ensures IsAscii(s) ==> |b| == |s| && forall i :: 0 <= i < |s| ==> b[i] == s[i] as int
  {
    if s == [] then [] else Utf8Char(s[0]) + Utf8(s[1..])
  }

  /** Encoding works character by character: the bytes of a concatenation are the bytes of its
      parts, one after the other. */
  lemma {:induction false} Utf8Concat(s: string, t: string)
    ensures Utf8(s + t) == Utf8(s) + Utf8(t)
    decreases |s|
  {
    if s == [] {
      assert s + t == t;
    } else {
      assert (s + t)[1..] == s[1..] + t;
      Utf8Concat(s[1..], t);
    }
  }
}
