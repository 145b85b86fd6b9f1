/** The C library's view of a text: it ends at its first NUL. Only base 10 and base 16 are converted. */
module CString {
  const NUL := '\0'
  /** ULONG_MAX of a 64-bit host. */
  const ULONG_MAX := 0xFFFF_FFFF_FFFF_FFFF

  /** buf[i] of a zero-filled buffer that holds s. */
  function CharAt(s: string, i: nat): char {
    if i < |s| then s[i] else NUL
  }

  /** The part of s before the first of the two characters. */
  function CutAt(s: string, c: char, d: char): string {
    if s == [] || s[0] == c || s[0] == d then [] else [s[0]] + CutAt(s[1..], c, d)
  }

  lemma {:induction false} CutNowhere(s: string, c: char, d: char)
    requires c !in s && d !in s
    ensures CutAt(s, c, d) == s
  {
    if s != [] { CutNowhere(s[1..], c, d); }
  }

  lemma {:induction false} CutThere(s: string, c: char, d: char)
    requires c !in s && d !in s
    ensures CutAt(s + [c], c, d) == s
  {
    if s != [] {
      assert (s + [c])[1..] == s[1..] + [c];
      CutThere(s[1..], c, d);
    }
  }

  function From(s: string, i: nat): string {
    if i < |s| then s[i..] else []
  }

  function Take(s: string, n: nat): string {
    if n < |s| then s[..n] else s
  }

  predicate IsDigit(c: char) { '0' <= c <= '9' }

  predicate IsXDigit(c: char) { IsDigit(c) || 'a' <= c <= 'f' || 'A' <= c <= 'F' }

  predicate IsSpace(c: char) { c == ' ' || '\t' <= c <= '\r' }

  predicate InBase(c: char, hex: bool) { if hex then IsXDigit(c) else IsDigit(c) }

  predicate AllInBase(s: string, hex: bool) { forall i :: 0 <= i < |s| ==> InBase(s[i], hex) }

  function DigitValue(c: char): nat
    requires IsXDigit(c)
  {
    if IsDigit(c) then (c - '0') as nat else if 'a' <= c then 10 + (c - 'a') as nat else 10 + (c - 'A') as nat
  }

  function Times(hex: bool, n: nat): nat { if hex then 16 * n else 10 * n }

  /** The value of a string of digits. */
  function Value(s: string, hex: bool): nat
    requires AllInBase(s, hex)
  {
    if s == [] then 0 else Times(hex, Value(s[..|s| - 1], hex)) + DigitValue(s[|s| - 1])
  }

  /** The longest prefix of digits. */
  function Run(s: string, hex: bool): (r: string)
    ensures AllInBase(r, hex) && r <= s
    ensures |r| < |s| ==> !InBase(s[|r|], hex)
  {
    if s == [] || !InBase(s[0], hex) then [] else [s[0]] + Run(s[1..], hex)
  }

  function SkipSpace(s: string): string {
    if s != [] && IsSpace(s[0]) then SkipSpace(s[1..]) else s
  }

  function SkipPrefix(s: string, hex: bool): string {
    if hex && |s| > 2 && s[0] == '0' && (s[1] == 'x' || s[1] == 'X') && IsXDigit(s[2]) then s[2..] else s
  }

  /** strtoul(s, NULL, 10) or strtoul(s, NULL, 16): white space, a sign, digits; too large a value saturates. */
  function Strtoul(s: string, hex: bool): (r: nat)
    ensures r <= ULONG_MAX
  {
    var t := SkipSpace(s);
    var negative := t != [] && t[0] == '-';
    var u := if t != [] && (t[0] == '-' || t[0] == '+') then t[1..] else t;
    var v := Value(Run(SkipPrefix(u, hex), hex), hex);
    if v > ULONG_MAX then ULONG_MAX else if negative && v > 0 then ULONG_MAX + 1 - v else v
  }

  lemma {:induction false} RunStops(s: string, rest: string, hex: bool)
    requires AllInBase(s, hex) && (rest == [] || !InBase(rest[0], hex))
    ensures Run(s + rest, hex) == s
  {
    if s != [] {
      assert InBase(s[0], hex);
      assert (s + rest)[1..] == s[1..] + rest;
      RunStops(s[1..], rest, hex);
    } else {
      assert s + rest == rest;
    }
  }

  lemma NothingToSkip(s: string, rest: string, hex: bool)
    requires AllInBase(s, hex) && s != [] && (rest == [] || (rest[0] != 'x' && rest[0] != 'X'))
    ensures SkipSpace(s + rest) == s + rest && SkipPrefix(s + rest, hex) == s + rest && s[0] != '-' && s[0] != '+'
  {
    assert InBase(s[0], hex);
    assert |s| > 1 ==> InBase(s[1], hex);
  }

  /** Digits alone convert to their value; the conversion stops at the first other character. */
  lemma StrtoulDigits(s: string, rest: string, hex: bool)
    requires AllInBase(s, hex) && s != []
    requires rest == [] || (!InBase(rest[0], hex) && rest[0] != 'x' && rest[0] != 'X')
    ensures Strtoul(s + rest, hex) == if Value(s, hex) > ULONG_MAX then ULONG_MAX else Value(s, hex)
  {
    hide Value, Run, AllInBase;
    NothingToSkip(s, rest, hex);
    RunStops(s, rest, hex);
  }

  /** The characters of a number, and white space. */
  lemma Characters(c: char)
    ensures IsDigit(c) <==> c in "0123456789"
    ensures IsXDigit(c) <==> c in "0123456789abcdefABCDEF"
    ensures IsSpace(c) <==> c in {' ', '\t', '\n', '\U{0B}', '\U{0C}', '\r'}
  {}

  lemma DigitValues()
    ensures DigitValue('0') == 0 && DigitValue('9') == 9
    ensures DigitValue('a') == DigitValue('A') == 10 && DigitValue('c') == DigitValue('C') == 12
    ensures DigitValue('f') == DigitValue('F') == 15
  {}

  /** The number that digits make in an unsigned long of 64 bits. */
  function Saturated(v: nat): nat {
    if v < 0x1_0000_0000_0000_0000 then v else 0xFFFF_FFFF_FFFF_FFFF
  }

  /** What strtoul makes of digits, also with white space, a sign, or in base 16 a prefix in front. */
  lemma StrtoulForms(s: string, hex: bool)
    requires s != [] && AllInBase(s, hex)
    ensures Strtoul(s, hex) == Strtoul("+" + s, hex) == Strtoul(" " + s, hex) == Saturated(Value(s, hex))
    ensures var v := Value(s, hex);
            Strtoul("-" + s, hex) == if v == 0 || v >= 0x1_0000_0000_0000_0000 then Saturated(v) else 0x1_0000_0000_0000_0000 - v
  {
    hide Value, Run, AllInBase, SkipSpace, SkipPrefix;
    AllRun(s, hex);
    FirstIsDigit(s, hex);
    SpaceSkipped(s);
    assert ("+" + s)[1..] == s && ("-" + s)[1..] == s;
  }

  lemma SpaceSkipped(s: string)
    ensures SkipSpace(" " + s) == SkipSpace(s) && SkipSpace("+" + s) == "+" + s && SkipSpace("-" + s) == "-" + s
  {
    assert (" " + s)[1..] == s;
  }

  lemma StrtoulPrefix(s: string)
    requires s != [] && AllInBase(s, true)
    ensures Strtoul("0x" + s, true) == Strtoul("0X" + s, true) == Strtoul(s, true)
  {
    hide Value, Run;
    FirstIsDigit(s, true);
    assert ("0x" + s)[2..] == s && ("0X" + s)[2..] == s;
  }

  lemma AllRun(s: string, hex: bool)
    requires AllInBase(s, hex)
    ensures Run(s, hex) == s
  {
    RunStops(s, [], hex);
    assert s + [] == s;
  }

  lemma FirstIsDigit(s: string, hex: bool)
    requires s != [] && AllInBase(s, hex)
    ensures InBase(s[0], hex) && SkipSpace(s) == s && s[0] != '-' && s[0] != '+' && SkipPrefix(s, hex) == s
  {
    assert |s| > 1 ==> InBase(s[1], hex);
  }

  /** A prefix without a digit behind it is the number 0. */
  lemma PrefixAlone()
    ensures Strtoul("0xg", true) == 0 && Strtoul("z", true) == 0
  {
    assert "0xg"[0] == '0' && "0xg"[1] == 'x' && "0xg"[2] == 'g' && "z"[0] == 'z';
    assert Run("0xg", true) == "0" by { assert Run("xg", true) == []; }
    assert Value("0", true) == 0;
  }

  function DigitChar(d: nat): (c: char)
    requires d < 16
    ensures IsXDigit(c) && DigitValue(c) == d && (d < 10 ==> IsDigit(c))
  {
    if d < 10 then '0' + d as char else 'a' + (d - 10) as char
  }

  /** What %d and %x print for n. */
  function Digits(n: nat, hex: bool): (s: string)
    ensures AllInBase(s, hex) && s != []
    decreases n
  {
    if n < (if hex then 16 else 10) then [DigitChar(n)]
    else if hex then Digits(n / 16, hex) + [DigitChar(n % 16)]
    else Digits(n / 10, hex) + [DigitChar(n % 10)]
  }

  /** Printing and converting back. */
  lemma {:induction false} ValueOfDigits(n: nat, hex: bool)
    ensures Value(Digits(n, hex), hex) == n
    decreases n
  {
    var base := if hex then 16 else 10;
    if n < base {
      assert [DigitChar(n)][..0] == [];
    } else {
      var front := Digits(n / base, hex);
      ValueOfDigits(n / base, hex);
      assert Digits(n, hex)[..|front|] == front;
    }
  }

  function Zeros(k: nat): (s: string)
    ensures |s| == k && forall i :: 0 <= i < k ==> s[i] == '0'
  {
    if k == 0 then [] else Zeros(k - 1) + ['0']
  }

  lemma {:induction false} LeadingZeros(k: nat, s: string, hex: bool)
    requires AllInBase(s, hex)
    ensures AllInBase(Zeros(k) + s, hex) && Value(Zeros(k) + s, hex) == Value(s, hex)
    decreases |s|, k
  {
    if s != [] {
      LeadingZeros(k, s[..|s| - 1], hex);
      assert (Zeros(k) + s)[..|Zeros(k) + s| - 1] == Zeros(k) + s[..|s| - 1];
    } else if k > 0 {
      LeadingZeros(k - 1, [], hex);
      assert Zeros(k) + s == Zeros(k);
      assert Zeros(k - 1) + [] == Zeros(k - 1);
      assert Zeros(k)[..k - 1] == Zeros(k - 1);
    }
  }

  /** What %0<width>x prints for n. */
  function Padded(n: nat, width: nat): (s: string)
    ensures AllInBase(s, true) && s != [] && |s| >= width
  {
    var s := Digits(n, true);
    if |s| < width then Zeros(width - |s|) + s else s
  }

  function Power(hex: bool, k: nat): nat {
    if k == 0 then 1 else Times(hex, Power(hex, k - 1))
  }

  /** A number prints in at most k digits exactly when it is below base^k. */
  lemma {:induction false} DigitCount(n: nat, k: nat, hex: bool)
    requires k > 0
    ensures |Digits(n, hex)| <= k <==> n < Power(hex, k)
  {
    var base := if hex then 16 else 10;
    if k == 1 {
      assert Power(hex, 1) == base by { assert Power(hex, 0) == 1; }
      if n >= base { assert |Digits(n / base, hex)| >= 1; }
    } else if n < base {
      PowerGrows(hex, k);
    } else {
      DigitCount(n / base, k - 1, hex);
    }
  }

  lemma {:induction false} PowerGrows(hex: bool, k: nat)
    ensures Power(hex, k) >= 1 && (k > 0 ==> Power(hex, k) >= (if hex then 16 else 10))
  {
    if k > 0 { PowerGrows(hex, k - 1); }
  }

  lemma PaddedLength(n: nat, width: nat, k: nat)
    requires 0 < k && width <= k && n < Power(true, k)
    ensures |Padded(n, width)| <= k
  {
    DigitCount(n, k, true);
  }

  /** strtoul undoes %0<width>x and %x on everything an unsigned long can hold. */
  lemma PaddedConverts(n: nat, width: nat, rest: string)
    requires n <= ULONG_MAX && (rest == [] || (!IsXDigit(rest[0]) && rest[0] != 'x' && rest[0] != 'X'))
    ensures Strtoul(Padded(n, width) + rest, true) == n
  {
    hide Strtoul, Value, Digits, AllInBase;
    var s := Digits(n, true);
    ValueOfDigits(n, true);
    if |s| < width {
      LeadingZeros(width - |s|, s, true);
    }
    StrtoulDigits(Padded(n, width), rest, true);
  }

  /** strtoul undoes %d on non-negative numbers. */
  lemma DecimalConverts(n: nat)
    requires n <= ULONG_MAX
    ensures Strtoul(Digits(n, false), false) == n
  {
    ValueOfDigits(n, false);
    StrtoulDigits(Digits(n, false), [], false);
    assert Digits(n, false) + [] == Digits(n, false);
  }

  /** A token, the text after it, and what the string looks like from its old start once the token is cut off. */
  datatype Token = NoToken | Token(text: string, rest: string, head: string)

  function Skip(s: string, d: char): (r: string)
    ensures |r| <= |s|
  {
    if s != [] && s[0] == d then Skip(s[1..], d) else s
  }

  /** strtok_r with the one delimiter d: leading delimiters are skipped, the token ends at the next one. */
  function Strtok(s: string, d: char): Token {
    var t := Skip(s, d);
    if t == [] then NoToken
    else
      var text := CutAt(t, d, d);
      CutAtBound(t, d);
      Token(text, From(t, |text| + 1), s[..|s| - |t|] + text)
  }

  lemma {:induction false} CutAtBound(s: string, d: char)
    ensures |CutAt(s, d, d)| <= |s|
  {
    if s != [] && s[0] != d { CutAtBound(s[1..], d); }
  }

  /** A token that ends the string. */
  lemma {:induction false} LastToken(a: string, d: char)
    requires a != [] && d !in a
    ensures Strtok(a, d) == Token(a, [], a)
  {
    CutWhole(a, [], d);
    assert a[0] in a;
    assert a + [] == a && a[..0] + a == a;
  }

  /** A token followed by a delimiter. */
  lemma {:induction false} FirstToken(a: string, d: char, b: string)
    requires a != [] && d !in a
    ensures Strtok(a + [d] + b, d) == Token(a, b, a)
  {
    var s := a + [d] + b;
    CutWhole(a, [d] + b, d);
    assert s == a + ([d] + b);
    assert s[0] == a[0] && a[0] in a;
    assert s[|a| + 1..] == b;
    assert s[..0] + a == a;
  }

  lemma {:induction false} CutWhole(a: string, b: string, d: char)
    requires d !in a && (b == [] || b[0] == d)
    ensures CutAt(a + b, d, d) == a
  {
    if a != [] {
      assert a[0] in a;
      assert (a + b)[1..] == a[1..] + b;
      CutWhole(a[1..], b, d);
    } else {
      assert a + b == b;
    }
  }
}
