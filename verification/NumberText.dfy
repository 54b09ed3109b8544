/** Printing 64-bit numbers into a buffer and parsing them back. */
module NumberText {
  import opened Basics
  import opened SizeBits
  import Align

  const U2S_BUFSIZE: nat := 65

  // --------------------------------------------------------------------------
  // Digits
  // --------------------------------------------------------------------------

  function DigitChar(d: nat, uppercase: bool): char
    requires d < 36
  {
    if d < 10 then ('0' as int + d) as char
    else if uppercase then ('A' as int + d - 10) as char
    else ('a' as int + d - 10) as char
  }

  /** The value of a digit in the largest base, or 36. */
  function DigitVal(c: char): (d: nat)
    ensures d <= 36
  {
    if '0' <= c <= '9' then c as int - '0' as int
    else if 'A' <= c <= 'Z' then 10 + c as int - 'A' as int
    else if 'a' <= c <= 'z' then 10 + c as int - 'a' as int
    else 36
  }

  lemma DigitBack(d: nat, uppercase: bool)
    requires d < 36
    ensures DigitVal(DigitChar(d, uppercase)) == d
  {
  }

  /** The digits of a number, most significant first. */
  function Digits(x: nat, base: nat, uppercase: bool): (s: string)
    requires 2 <= base <= 36
    ensures |s| >= 1
  {
    if x < base then [DigitChar(x, uppercase)]
    else
      Smaller(x, base);
      Digits(x / base, base, uppercase) + [DigitChar(x % base, uppercase)]
  }

  lemma Smaller(x: nat, base: nat)
    requires base >= 2 && x >= base
    ensures 1 <= x / base && 2 * (x / base) <= x
  {
    Align.DivBound(x, base, 1);
    Align.MulMono(2, base, x / base);
    Rebuild(x, base);
  }

  lemma Rebuild(x: nat, base: nat)
    requires base > 0
    ensures x == x / base * base + x % base && 0 <= x % base < base
    ensures x < base ==> x % base == x
  {
    if x < base {
      Align.DivMod(x, base, 0, x);
    }
  }

  /** A number below a power of two has at most as many digits as its exponent. */
  lemma {:induction false} DigitsShort(x: nat, base: nat, uppercase: bool, k: nat)
    requires 2 <= base <= 36 && k >= 1 && x < Pow2(k)
    ensures |Digits(x, base, uppercase)| <= k
    decreases k
  {
    if x >= base {
      Smaller(x, base);
      assert Pow2(k) == 2 * Pow2(k - 1);
      DigitsShort(x / base, base, uppercase, k - 1);
    }
  }

  /** What a string of digits denotes. */
  function Value(s: string, base: nat): nat {
    if s == [] then 0 else Value(s[..|s| - 1], base) * base + DigitVal(s[|s| - 1])
  }

  predicate AllDigits(s: string, base: nat) {
    forall i :: 0 <= i < |s| ==> DigitVal(s[i]) < base
  }

  lemma {:induction false} DigitsDenote(x: nat, base: nat, uppercase: bool)
    requires 2 <= base <= 36
    ensures Value(Digits(x, base, uppercase), base) == x && AllDigits(Digits(x, base, uppercase), base)
    decreases x
  {
    var s := Digits(x, base, uppercase);
    if x < base {
      DigitBack(x, uppercase);
      assert s[..|s| - 1] == [];
    } else {
      Smaller(x, base);
      DigitsDenote(x / base, base, uppercase);
      DigitBack(x % base, uppercase);
      assert s[..|s| - 1] == Digits(x / base, base, uppercase);
      Rebuild(x, base);
    }
  }

  /** Only zero is printed with a leading zero. */
  lemma {:induction false} FirstDigit(x: nat, base: nat, uppercase: bool)
    requires 2 <= base <= 36
    ensures Digits(x, base, uppercase)[0] == '0' <==> x == 0
    ensures DigitVal(Digits(x, base, uppercase)[0]) < base
    ensures x == 0 ==> Digits(x, base, uppercase) == "0"
    decreases x
  {
    if x < base {
      DigitBack(x, uppercase);
    } else {
      Smaller(x, base);
      FirstDigit(x / base, base, uppercase);
    }
  }

  // --------------------------------------------------------------------------
  // Printing
  // --------------------------------------------------------------------------

  /** u2s: the digits end at the end of the buffer and never run over its start. */
  method U2S(x0: nat, base: nat, uppercase: bool, s: array<char>) returns (i: nat, slen: nat)
    requires x0 < TWO_64 && 2 <= base <= 36 && s.Length >= U2S_BUFSIZE
    modifies s
    ensures i + slen == U2S_BUFSIZE - 1 && s[i..i + slen] == Digits(x0, base, uppercase) && s[U2S_BUFSIZE - 1] == '\0'
    ensures forall j :: U2S_BUFSIZE <= j < s.Length ==> s[j] == old(s[j])
  {
    DigitsFit(x0, base, uppercase);
    i := U2S_BUFSIZE - 1;
    s[i] := '\0';
    var x: nat := x0;
    while true
      invariant x < TWO_64 && i < U2S_BUFSIZE && s[U2S_BUFSIZE - 1] == '\0'
      invariant Digits(x, base, uppercase) + s[i..U2S_BUFSIZE - 1] == Digits(x0, base, uppercase)
      invariant |Digits(x, base, uppercase)| <= i
      invariant forall j :: U2S_BUFSIZE <= j < s.Length ==> s[j] == old(s[j])
      decreases x
    {
      ghost var tail := s[i..U2S_BUFSIZE - 1];
      Rebuild(x, base);
      if x >= base {
        Smaller(x, base);
      }
      i := i - 1;
      s[i] := DigitChar(x % base, uppercase);
      assert s[i..U2S_BUFSIZE - 1] == [DigitChar(x % base, uppercase)] + tail;
      if x < base {
        slen := U2S_BUFSIZE - 1 - i;
        return;
      }
      x := x / base;
    }
  }

  lemma DigitsFit(x: nat, base: nat, uppercase: bool)
    requires x < TWO_64 && 2 <= base <= 36
    ensures |Digits(x, base, uppercase)| <= U2S_BUFSIZE - 1
  {
    Pow2Table();
    DigitsShort(x, base, uppercase, 64);
  }

  /** With four or more digits to choose from, half as many places are enough. */
  lemma {:induction false} DigitsShorter(x: nat, base: nat, uppercase: bool, k: nat)
    requires 4 <= base <= 36 && k >= 1 && x < Pow2(2 * k)
    ensures |Digits(x, base, uppercase)| <= k
    decreases k
  {
    if x >= base {
      Align.DivBound(x, base, 1);
      Align.MulMono(4, base, x / base);
      Rebuild(x, base);
      assert Pow2(2 * k) == 4 * Pow2(2 * (k - 1));
      DigitsShorter(x / base, base, uppercase, k - 1);
    }
  }

  /** o2s: in the alternate form the number starts with a zero. */
  method O2S(x: nat, altForm: bool, s: array<char>) returns (i: nat, slen: nat)
    requires x < TWO_64 && s.Length >= 1 + U2S_BUFSIZE
    modifies s
    ensures i + slen == U2S_BUFSIZE - 1 && s[U2S_BUFSIZE - 1] == '\0'
    ensures s[i..i + slen] == if altForm then OctalText(x) else Digits(x, 8, false)
  {
    Pow2Table();
    DigitsShorter(x, 8, false, 32);
    FirstDigit(x, 8, false);
    i, slen := U2S(x, 8, false, s);
    assert s[i] == s[i..i + slen][0];
    if altForm && s[i] != '0' {
      ghost var digits := s[i..i + slen];
      i, slen := i - 1, slen + 1;
      s[i] := '0';
      assert s[i..i + slen] == "0" + digits;
    }
  }

  function OctalText(x: nat): string {
    if x == 0 then "0" else "0" + Digits(x, 8, false)
  }

  function HexText(x: nat, uppercase: bool): string {
    (if uppercase then "0X" else "0x") + Digits(x, 16, uppercase)
  }

  /** x2s: in the alternate form the number starts with 0x or 0X. */
  method X2S(x: nat, altForm: bool, uppercase: bool, s: array<char>) returns (i: nat, slen: nat)
    requires x < TWO_64 && s.Length >= 2 + U2S_BUFSIZE
    modifies s
    ensures i + slen == U2S_BUFSIZE - 1 && s[U2S_BUFSIZE - 1] == '\0'
    ensures s[i..i + slen] == if altForm then HexText(x, uppercase) else Digits(x, 16, uppercase)
  {
    Pow2Table();
    DigitsShorter(x, 16, uppercase, 32);
    i, slen := U2S(x, 16, uppercase, s);
    if altForm {
      ghost var digits := s[i..i + slen];
      i, slen := i - 2, slen + 2;
      s[i], s[i + 1] := '0', if uppercase then 'X' else 'x';
      assert s[i..i + slen] == [s[i], s[i + 1]] + digits;
    }
  }

  // --------------------------------------------------------------------------
  // Parsing
  // --------------------------------------------------------------------------

  datatype Parsed = Invalid | Range | Ok(value: nat, end: nat)

  /** A C string: behind its last character there is a null. */
  function CharAt(s: string, i: nat): char {
    if i < |s| then s[i] else '\0'
  }

  predicate IsSpace(c: char) {
    c == '\t' || c == '\n' || c == 11 as char || c == 12 as char || c == '\r' || c == ' '
  }

  function SkipSpaces(s: string, i: nat): nat
    decreases |s| - i
  {
    if i < |s| && IsSpace(s[i]) then SkipSpaces(s, i + 1) else i
  }

  /** Where the number starts, behind spaces and a sign. */
  function NumberStart(s: string): nat {
    var i := SkipSpaces(s, 0);
    if CharAt(s, i) == '-' || CharAt(s, i) == '+' then i + 1 else i
  }

  predicate Negative(s: string) {
    CharAt(s, SkipSpaces(s, 0)) == '-'
  }

  /** The base in force, and where the digits start behind a prefix. */
  function BaseAndDigits(s: string, ns: nat, base: nat): (nat, nat) {
    if CharAt(s, ns) == '0' && '0' <= CharAt(s, ns + 1) <= '7' then
      if base == 0 || base == 8 then (8, ns + 1) else (base, ns)
    else if CharAt(s, ns) == '0' && CharAt(s, ns + 1) == 'x' && DigitVal(CharAt(s, ns + 2)) < 16 then
      if base == 0 || base == 16 then (16, ns + 2) else (base, ns)
    else (if base == 0 then 10 else base, ns)
  }

  /** The end of the digits that start at `p`. */
  function DigitsEnd(s: string, p: nat, base: nat): (e: nat)
    ensures p <= e && (p <= |s| ==> e <= |s|)
    decreases |s| - p
  {
    if p < |s| && DigitVal(s[p]) < base then DigitsEnd(s, p + 1, base) else p
  }

  /** Modulo 2^64, some digit makes the number smaller. */
  ghost predicate Wraps(t: string, base: nat) {
    exists k :: 0 <= k < |t| && WrapsAt(t, base, k)
  }

  ghost predicate WrapsAt(t: string, base: nat, k: nat)
    requires k < |t|
  {
    Value(t[..k + 1], base) % TWO_64 < Value(t[..k], base) % TWO_64
  }

  lemma ValueStep(t: string, base: nat, k: nat)
    requires k < |t|
    ensures Value(t[..k + 1], base) == Value(t[..k], base) * base + DigitVal(t[k])
  {
    assert t[..k + 1][..k] == t[..k];
  }

  lemma {:induction false} PrefixValue(t: string, base: nat, k: nat)
    requires k <= |t| && base >= 1
    ensures Value(t[..k], base) <= Value(t, base)
    decreases |t| - k
  {
    if k == |t| {
      assert t[..k] == t;
    } else {
      ValueStep(t, base, k);
      Grows(Value(t[..k], base), base, DigitVal(t[k]));
      PrefixValue(t, base, k + 1);
    }
  }

  lemma Grows(v: nat, base: nat, d: nat)
    requires base >= 1
    ensures v <= v * base + d
  {
    Align.MulMono(1, base, v);
  }

  /** The overflow test never goes off for a number that fits. */
  lemma NoFalseAlarm(t: string, base: nat)
    requires base >= 1 && Value(t, base) < TWO_64
    ensures !Wraps(t, base)
  {
    forall k | 0 <= k < |t| ensures !WrapsAt(t, base, k) {
      PrefixValue(t, base, k + 1);
      ValueStep(t, base, k);
      Grows(Value(t[..k], base), base, DigitVal(t[k]));
      NotSmaller(Value(t[..k], base), Value(t[..k + 1], base));
    }
  }

  lemma NotSmaller(v: nat, w: nat)
    requires v <= w < TWO_64
    ensures v % TWO_64 <= w % TWO_64
  {
  }

  /** A number that fits is read, with its sign modulo 2^64, and one that does not is reported. */
  ghost predicate ReadRight(v: nat, negative: bool, r: Parsed) {
    if v < TWO_64 then r.Ok? && r.value == (if negative && v > 0 then TWO_64 - v else v) else r.Range?
  }

  ghost function BaseOf(s: string, base: nat): nat {
    BaseAndDigits(s, NumberStart(s), base).0
  }

  ghost function DigitsOf(s: string, base: nat): string {
    var p := BaseAndDigits(s, NumberStart(s), base).1;
    if p <= |s| then s[p..DigitsEnd(s, p, BaseOf(s, base))] else ""
  }

  /** A text is read right exactly when its number fits or the overflow test goes off. */
  lemma ReadRightIff(s: string, base: nat, r: Parsed)
    requires base != 1 && Means(s, base, r) && !r.Invalid?
    ensures ReadRight(Value(DigitsOf(s, base), BaseOf(s, base)), Negative(s), r) <==>
      Value(DigitsOf(s, base), BaseOf(s, base)) < TWO_64 || Wraps(DigitsOf(s, base), BaseOf(s, base))
  {
    DigitsReadRightIff(DigitsOf(s, base), BaseOf(s, base), Negative(s), r);
  }

  lemma DigitsReadRightIff(t: string, b: nat, negative: bool, r: Parsed)
    requires b >= 1 && !r.Invalid? && (r.Range? <==> Wraps(t, b))
    requires r.Ok? ==> r.value == (if negative then TWO_64 - Value(t, b) % TWO_64 else Value(t, b)) % TWO_64
    ensures ReadRight(Value(t, b), negative, r) <==> Value(t, b) < TWO_64 || Wraps(t, b)
  {
    if Value(t, b) < TWO_64 {
      NoFalseAlarm(t, b);
      Negated(Value(t, b));
    }
  }

  /**
   * When only the last digit takes the number beyond 64 bits, that is noticed exactly when what
   * is left of it modulo 2^64 is less than the number without the digit.
   */
  lemma LastDigitNoticed(t: string, b: nat)
    requires b >= 1 && |t| > 0 && Value(t[..|t| - 1], b) < TWO_64 <= Value(t, b)
    ensures Wraps(t, b) <==> Value(t, b) % TWO_64 < Value(t[..|t| - 1], b)
  {
    var n := |t| - 1;
    assert t[..n + 1] == t;
    assert WrapsAt(t, b, n) <==> Value(t, b) % TWO_64 < Value(t[..n], b) % TWO_64;
    NoFalseAlarm(t[..n], b);
    forall k | 0 <= k < n ensures !WrapsAt(t, b, k) {
      assert t[..n][..k + 1] == t[..k + 1] && t[..n][..k] == t[..k];
      assert !WrapsAt(t[..n], b, k);
    }
    Negated(Value(t[..n], b));
  }

  lemma Negated(v: nat)
    requires v < TWO_64
    ensures v % TWO_64 == v && (TWO_64 - v % TWO_64) % TWO_64 == if v > 0 then TWO_64 - v else 0
  {
  }

  /** One digit more, in 64-bit arithmetic. */
  lemma WrapStep(v: nat, base: nat, d: nat)
    ensures ((v % TWO_64) * base + d) % TWO_64 == (v * base + d) % TWO_64
  {
    var q := v / TWO_64;
    assert v == q * TWO_64 + v % TWO_64;
    assert v * base + d == (v % TWO_64) * base + d + (q * base) * TWO_64;
    ModShift((v % TWO_64) * base + d, q * base);
  }

  lemma ModShift(x: nat, q: nat)
    ensures (x + q * TWO_64) % TWO_64 == x % TWO_64
  {
    var r := x / TWO_64;
    Align.DivMod(x + q * TWO_64, TWO_64, r + q, x % TWO_64);
  }

  /**
   * malloc_strtoumax.  Overflow is reported exactly when a digit makes the wrapped number
   * smaller; without a report the result is the number modulo 2^64.
   */
  method StrToUMax(s: string, base0: int) returns (r: Parsed)
    ensures r.Invalid? <==> base0 < 0 || base0 == 1 || base0 > 36
    ensures !r.Invalid? ==> Means(s, base0, r)
  {
    if base0 < 0 || base0 == 1 || base0 > 36 {
      return Invalid;
    }
    var p := SkipBlanks(s);
    var neg := CharAt(s, p) == '-';
    if CharAt(s, p) == '-' || CharAt(s, p) == '+' {
      p := p + 1;
    }
    var ns := p;
    var (b, start) := BaseAndDigits(s, ns, base0);
    assert ns == NumberStart(s) && b == BaseOf(s, base0);
    assert DigitsOf(s, base0) == if start <= |s| then s[start..DigitsEnd(s, start, b)] else "";
    var range, ret, e := Convert(s, start, b);
    if range {
      return Range;
    }
    if neg {
      ret := (TWO_64 - ret) % TWO_64;
    }
    r := Ok(ret, if e == ns then 0 else e);
  }

  /** What the result says about the text. */
  ghost predicate Means(s: string, base: int, r: Parsed)
    requires base >= 0
  {
    var b, t := BaseOf(s, base), DigitsOf(s, base);
    var e := DigitsEnd(s, BaseAndDigits(s, NumberStart(s), base).1, b);
    && (r.Range? <==> Wraps(t, b))
    && (r.Ok? ==> r.value == (if Negative(s) then TWO_64 - Value(t, b) % TWO_64 else Value(t, b)) % TWO_64)
    && (r.Ok? ==> r.end == if e == NumberStart(s) then 0 else e)
  }

  method SkipBlanks(s: string) returns (p: nat)
    ensures p == SkipSpaces(s, 0) && p <= |s|
  {
    p := 0;
    while p < |s| && IsSpace(s[p])
      invariant p <= |s| && SkipSpaces(s, p) == SkipSpaces(s, 0)
    {
      p := p + 1;
    }
  }

  /** The conversion loop. */
  method Convert(s: string, start: nat, b: nat) returns (range: bool, ret: nat, e: nat)
    requires 2 <= b <= 36
    ensures var t := if start <= |s| then s[start..DigitsEnd(s, start, b)] else "";
      && (range <==> Wraps(t, b))
      && (!range ==> e == DigitsEnd(s, start, b) && ret == Value(t, b) % TWO_64)
  {
    e, ret := start, 0;
    if start > |s| {
      return false, 0, start;
    }
    ghost var end := DigitsEnd(s, start, b);
    ghost var t := s[start..end];
    assert t[..0] == "";
    while e < |s| && DigitVal(s[e]) < b
      invariant start <= e <= end <= |s| && DigitsEnd(s, e, b) == end
      invariant ret == Value(t[..e - start], b) % TWO_64
      invariant forall k :: 0 <= k < e - start ==> !WrapsAt(t, b, k)
      decreases |s| - e
    {
      ghost var k := e - start;
      var pret := ret;
      assert DigitsEnd(s, e + 1, b) == end;
      ValueStep(t, b, k);
      WrapStep(Value(t[..k], b), b, DigitVal(s[e]));
      ret := (ret * b + DigitVal(s[e])) % TWO_64;
      if ret < pret {
        assert WrapsAt(t, b, k);
        return true, ret, e;
      }
      assert !WrapsAt(t, b, k);
      e := e + 1;
    }
    assert t[..e - start] == t;
    range := false;
  }

  // --------------------------------------------------------------------------
  // Round trips
  // --------------------------------------------------------------------------

  lemma {:induction false} DigitsEndAll(s: string, p: nat, base: nat)
    requires p <= |s| && AllDigits(s[p..], base)
    ensures DigitsEnd(s, p, base) == |s|
    decreases |s| - p
  {
    if p < |s| {
      assert s[p] == s[p..][0];
      assert s[p..][1..] == s[p + 1..];
      DigitsEndAll(s, p + 1, base);
    }
  }

  /** A digit is neither a space nor a sign. */
  lemma DigitFirst(s: string)
    requires s != [] && DigitVal(s[0]) < 36
    ensures NumberStart(s) == 0 && !Negative(s)
  {
  }

  /** The text is nothing but digits of the base in force, behind a prefix of `p` characters. */
  ghost predicate Plain(s: string, base: nat, b: nat, p: nat) {
    && NumberStart(s) == 0 && !Negative(s) && p < |s| && b >= 2
    && BaseAndDigits(s, 0, base) == (b, p) && DigitsEnd(s, p, b) == |s|
  }

  lemma PlainIsRead(s: string, base: nat, b: nat, p: nat, r: Parsed)
    requires Plain(s, base, b, p) && Value(s[p..], b) < TWO_64 && Means(s, base, r) && !r.Invalid?
    ensures r == Ok(Value(s[p..], b), |s|)
  {
    assert DigitsOf(s, base) == s[p..];
    NoFalseAlarm(s[p..], b);
  }

  /** What u2s prints, malloc_strtoumax reads back in the same base, to the last digit. */
  lemma PrintParse(x: nat, base: nat, uppercase: bool, r: Parsed)
    requires x < TWO_64 && 2 <= base <= 36 && Means(Digits(x, base, uppercase), base, r) && !r.Invalid?
    ensures r == Ok(x, |Digits(x, base, uppercase)|)
  {
    DigitsPlain(x, base, uppercase);
    PlainIsRead(Digits(x, base, uppercase), base, base, 0, r);
  }

  lemma DigitsPlain(x: nat, base: nat, uppercase: bool)
    requires 2 <= base <= 36
    ensures var s := Digits(x, base, uppercase); Plain(s, base, base, 0) && Value(s[0..], base) == x
  {
    var s := Digits(x, base, uppercase);
    FirstDigit(x, base, uppercase);
    DigitsDenote(x, base, uppercase);
    DigitFirst(s);
    assert s[0..] == s;
    DigitsEndAll(s, 0, base);
  }

  /** The alternate octal form is read back with base 0. */
  lemma OctalParse(x: nat, r: Parsed)
    requires x < TWO_64 && Means(OctalText(x), 0, r) && !r.Invalid?
    ensures r == Ok(x, |OctalText(x)|)
  {
    if x == 0 {
      ZeroPlain();
      PlainIsRead("0", 0, 10, 0, r);
    } else {
      OctalPlain(x);
      PlainIsRead(OctalText(x), 0, 8, 1, r);
    }
  }

  lemma ZeroPlain()
    ensures OctalText(0) == "0" && Plain("0", 0, 10, 0) && Value("0"[0..], 10) == 0
  {
    assert "0"[0..] == "0";
    DigitsEndAll("0", 0, 10);
  }

  lemma OctalPlain(x: nat)
    requires x > 0
    ensures var s := OctalText(x); Plain(s, 0, 8, 1) && Value(s[1..], 8) == x
  {
    var s, digits := OctalText(x), Digits(x, 8, false);
    FirstDigit(x, 8, false);
    DigitsDenote(x, 8, false);
    DigitFirst(s);
    OctalDigit(digits[0]);
    assert s[1] == digits[0];
    assert s[1..] == digits;
    DigitsEndAll(s, 1, 8);
  }

  lemma OctalDigit(c: char)
    ensures DigitVal(c) < 8 <==> '0' <= c <= '7'
  {
  }

  /** The alternate hexadecimal form is read back with base 0 if it is in lower case. */
  lemma HexParse(x: nat, r: Parsed)
    requires x < TWO_64 && Means(HexText(x, false), 0, r) && !r.Invalid?
    ensures r == Ok(x, |HexText(x, false)|)
  {
    HexPlain(x);
    PlainIsRead(HexText(x, false), 0, 16, 2, r);
  }

  lemma HexPlain(x: nat)
    ensures var s := HexText(x, false); Plain(s, 0, 16, 2) && Value(s[2..], 16) == x
  {
    var s, digits := HexText(x, false), Digits(x, 16, false);
    FirstDigit(x, 16, false);
    DigitsDenote(x, 16, false);
    DigitFirst(s);
    assert s[2] == digits[0];
    assert s[2..] == digits;
    DigitsEndAll(s, 2, 16);
  }

  /** In upper case the prefix is not known: only the zero before the X is read. */
  lemma UpperHexStops(x: nat, r: Parsed)
    requires x < TWO_64 && Means(HexText(x, true), 0, r) && !r.Invalid?
    ensures r == Ok(0, 1)
  {
    var s := HexText(x, true);
    DigitFirst(s);
    assert s[0] == '0' && s[1] == 'X';
    assert BaseAndDigits(s, 0, 0) == (10, 0);
    assert DigitsEnd(s, 1, 10) == 1;
    assert DigitsEnd(s, 0, 10) == 1;
    assert s[0..1] == "0" && Value("0", 10) == 0;
    NoFalseAlarm("0", 10);
  }

  // --------------------------------------------------------------------------
  // Overflow that is not noticed
  // --------------------------------------------------------------------------

  function Zeros(n: nat): string {
    if n == 0 then "" else Zeros(n - 1) + "0"
  }

  function Pow10(n: nat): nat {
    if n == 0 then 1 else 10 * Pow10(n - 1)
  }

  lemma {:induction false} ThreeZeros(n: nat, k: nat)
    requires k <= n
    ensures |Zeros(n)| == n && (['3'] + Zeros(n))[..k + 1] == ['3'] + Zeros(k) && Value(['3'] + Zeros(k), 10) == 3 * Pow10(k)
    decreases n + k
  {
    if k == n {
      if n == 0 {
        assert ['3'] + Zeros(0) == "3";
        assert Value("3", 10) == 3;
      } else {
        ThreeZeros(n - 1, n - 1);
        var t := ['3'] + Zeros(n);
        assert t[..|t| - 1] == ['3'] + Zeros(n - 1);
        assert t[..n + 1] == t;
      }
    } else {
      ThreeZeros(n - 1, k);
      ThreeZeros(k, k);
      assert (['3'] + Zeros(n))[..k + 1] == (['3'] + Zeros(n - 1))[..k + 1];
    }
  }

  lemma {:induction false} Pow10Grows(k: nat, n: nat)
    requires k <= n
    ensures Pow10(k) <= Pow10(n)
    decreases n - k
  {
    if k < n {
      Pow10Grows(k, n - 1);
    }
  }

  lemma Pow10Table()
    ensures Pow10(18) == 1_000_000_000_000_000_000 && Pow10(19) == 10_000_000_000_000_000_000
  {
    assert Pow10(6) == 1_000_000;
    assert Pow10(12) == 1_000_000_000_000;
  }

  /**
   * The overflow test is not complete: 30000000000000000000 does not fit into 64 bits, and is
   * read as 11553255926290448384 without a report.
   */
  lemma MissedOverflow(r: Parsed)
    requires Means(['3'] + Zeros(19), 10, r) && !r.Invalid?
    ensures Value(['3'] + Zeros(19), 10) == 30_000_000_000_000_000_000 > TWO_64
    ensures r == Ok(11_553_255_926_290_448_384, 20)
  {
    var s := ['3'] + Zeros(19);
    ThreeZeros(19, 19);
    Pow10Table();
    DigitFirst(s);
    AllZeros(19);
    assert s[0..] == s && s[0..|s|] == s;
    DigitsEndAll(s, 0, 10);
    forall k | 0 <= k < |s| ensures !WrapsAt(s, 10, k) {
      MissedAt(s, k);
    }
  }

  lemma MissedAt(s: string, k: nat)
    requires s == ['3'] + Zeros(19) && k < |s|
    ensures !WrapsAt(s, 10, k)
  {
    AllZeros(19);
    ThreeZeros(19, k);
    assert Value(s[..k + 1], 10) == 3 * Pow10(k);
    if k > 0 {
      ThreeZeros(19, k - 1);
      assert Value(s[..k], 10) == 3 * Pow10(k - 1);
      ThreeTens(k);
    } else {
      assert Value(s[..k], 10) == 0;
    }
  }

  lemma ThreeTens(k: nat)
    requires 0 < k <= 19
    ensures 3 * Pow10(k - 1) % TWO_64 <= 3 * Pow10(k) % TWO_64
  {
    Pow10Table();
    if k < 19 {
      Pow10Grows(k, 18);
      NotSmaller(3 * Pow10(k - 1), 3 * Pow10(k));
    }
  }

  lemma {:induction false} AllZeros(n: nat)
    ensures |Zeros(n)| == n && forall i :: 0 <= i < n ==> Zeros(n)[i] == '0'
  {
    if n > 0 {
      AllZeros(n - 1);
    }
  }
}
