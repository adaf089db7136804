/** The JavaScript string and number primitives the randomizer leans on:
    `String.prototype.trim`, the global `parseInt` (radix left undefined),
    integer-to-string conversion used when an id is written into an HTML
    attribute, and the `/\.[^/.]+$/` extension-stripping replace. */
module JsText {
  import opened Wrappers

  /** The WhiteSpace and LineTerminator code points of ECMAScript. Both
      `trim` and the leading-blank skip of `parseInt` remove exactly these. */
  predicate IsJsSpace(c: char) {
    || c == '\t' || c == '\n' || c == '\U{000B}' || c == '\U{000C}' || c == '\r' || c == ' '
    || c == '\U{00A0}' || c == '\U{1680}' || ('\U{2000}' <= c <= '\U{200A}')
    || c == '\U{2028}' || c == '\U{2029}' || c == '\U{202F}' || c == '\U{205F}'
    || c == '\U{3000}' || c == '\U{FEFF}'
  }

  predicate AllSpace(s: string) {
    forall i :: 0 <= i < |s| ==> IsJsSpace(s[i])
  }

  /** Drops leading blanks: the result is a suffix of `s`, everything dropped
      is blank, and the result does not itself start with a blank. */
  function TrimStart(s: string): (r: string)
    ensures |r| <= |s| && r == s[|s| - |r|..]
    ensures AllSpace(s[..|s| - |r|])
    ensures r == [] || !IsJsSpace(r[0])
  {
    if |s| > 0 && IsJsSpace(s[0]) then
      var r := TrimStart(s[1..]);
      BlankPrefixGrows(s, r);
      r
    else s
  }

  /** Trimming the tail of a string that starts with a blank trims the whole
      string: the blank joins the dropped prefix. */
  lemma BlankPrefixGrows(s: string, r: string)
    requires |s| > 0 && IsJsSpace(s[0])
    requires |r| <= |s| - 1 && r == s[1..][|s| - 1 - |r|..] && AllSpace(s[1..][..|s| - 1 - |r|])
    ensures r == s[|s| - |r|..] && AllSpace(s[..|s| - |r|])
  {
    var k := |s| - |r|;
    assert s[1..][|s| - 1 - |r|..] == s[k..];
    forall i | 1 <= i < k
      ensures IsJsSpace(s[i])
    {
      assert s[i] == s[1..][..k - 1][i - 1];
    }
  }

  /** Drops trailing blanks: the result is a prefix of `s`, everything
      dropped is blank, and the result does not itself end with a blank. */
  function TrimEnd(s: string): (r: string)
    ensures |r| <= |s| && r == s[..|r|]
    ensures AllSpace(s[|r|..])
    ensures r == [] || !IsJsSpace(r[|r| - 1])
  {
    if |s| > 0 && IsJsSpace(s[|s| - 1]) then
      var r := TrimEnd(s[..|s| - 1]);
      assert s[|r|..] == s[..|s| - 1][|r|..] + [s[|s| - 1]];
      r
    else s
  }

  /** `r` is the slice of `s` starting at i, and only blanks lie outside it. */
  predicate SliceWithin(s: string, r: string, i: int) {
    && 0 <= i && i + |r| <= |s| && r == s[i..i + |r|]
    && AllSpace(s[..i]) && AllSpace(s[i + |r|..])
  }

  /** `String.prototype.trim`: the slice of `s` that neither starts nor ends
      with a blank, with only blanks cut off on either side. */
  function Trim(s: string): (r: string)
    ensures exists i :: SliceWithin(s, r, i)
    ensures r == [] || (!IsJsSpace(r[0]) && !IsJsSpace(r[|r| - 1]))
  {
    var t := TrimStart(s);
    var r := TrimEnd(t);
    TrimmedBothEnds(s, t, r);
    r
  }

  /** Cutting a blank prefix and then a blank suffix leaves a slice with
      only blanks outside it. */
  lemma TrimmedBothEnds(s: string, t: string, r: string)
    requires |t| <= |s| && t == s[|s| - |t|..] && AllSpace(s[..|s| - |t|])
    requires |r| <= |t| && r == t[..|r|] && AllSpace(t[|r|..])
    ensures SliceWithin(s, r, |s| - |t|)
  {
    var i := |s| - |t|;
    assert r == s[i..i + |r|];
    assert s[i + |r|..] == t[|r|..];
  }

  /** A string trims to empty exactly when it consists of blanks only. */
  lemma TrimEmptyIff(s: string)
    ensures Trim(s) == [] <==> AllSpace(s)
  {
    var r := Trim(s);
    var i :| SliceWithin(s, r, i);
    if r == [] {
      forall k | 0 <= k < |s| ensures IsJsSpace(s[k]) {
        if k < i { assert s[k] == s[..i][k]; } else { assert s[k] == s[i..][k - i]; }
      }
    } else {
      assert r[0] == s[i];
    }
  }

  /** Trimming an already trimmed string changes nothing. */
  lemma TrimIdempotent(s: string)
    ensures Trim(Trim(s)) == Trim(s)
  {
    var r := Trim(s);
    assert TrimStart(r) == r;
    assert TrimEnd(r) == r;
  }

  // ----- Number to string -------------------------------------------------

  /** The value of a digit character in radix up to 36 (`0`-`9`, then the
      letters in either case), or None for any other character. */
  function DigitValue(c: char): (d: Option<nat>)
    ensures d.Some? ==> d.value < 36
  {
    if '0' <= c <= '9' then Some(c as int - '0' as int)
    else if 'a' <= c <= 'z' then Some(c as int - 'a' as int + 10)
    else if 'A' <= c <= 'Z' then Some(c as int - 'A' as int + 10)
    else None
  }

  predicate IsDigitIn(c: char, radix: nat) {
    DigitValue(c).Some? && DigitValue(c).value < radix
  }

  predicate AllDigitsIn(s: string, radix: nat) {
    forall i :: 0 <= i < |s| ==> IsDigitIn(s[i], radix)
  }

  function DigitChar(d: nat): (c: char)
    requires d < 10
    ensures DigitValue(c) == Some(d)
  {
    (d + '0' as int) as char
  }

  /** How JavaScript writes a whole number's digits: at least one decimal
      digit, and no leading zero unless the number is zero itself. */
  predicate CanonicalDecimal(d: string) {
    |d| >= 1 && AllDigitsIn(d, 10) && (|d| > 1 ==> d[0] != '0')
  }

  /** Decimal digits of a natural number, most significant first, no
      leading zeros. */
  function NatToDecimal(n: nat): (r: string)
    ensures CanonicalDecimal(r)
    ensures r[0] == '0' <==> n == 0
    decreases n
  {
    if n < 10 then [DigitChar(n)] else NatToDecimal(n / 10) + [DigitChar(n % 10)]
  }

  /** How an integral JavaScript number is written by `String(n)` or a
      template literal: a minus sign exactly for negatives, then the
      canonical decimal digits of its magnitude. */
  function IntToString(n: int): (r: string)
    ensures |r| >= 1 && (r[0] == '-' <==> n < 0)
    ensures n < 0 ==> CanonicalDecimal(r[1..]) && DigitsValue(r[1..], 10) == -n
    ensures n >= 0 ==> CanonicalDecimal(r) && DigitsValue(r, 10) == n
  {
    if n < 0 then
      var d := NatToDecimal(-n);
      DecimalValue(-n);
      assert ("-" + d)[1..] == d;
      "-" + d
    else
      DecimalValue(n);
      NatToDecimal(n)
  }

  // ----- parseInt ---------------------------------------------------------

  /** The numeric value of a string of radix digits, most significant first. */
  function DigitsValue(ds: string, radix: nat): nat
    requires AllDigitsIn(ds, radix)
  {
    if |ds| == 0 then 0
    else DigitsValue(ds[..|ds| - 1], radix) * radix + DigitValue(ds[|ds| - 1]).value
  }

  /** Length of the longest prefix of `s` made of radix digits. */
  function DigitRun(s: string, radix: nat): (k: nat)
    ensures k <= |s| && AllDigitsIn(s[..k], radix)
    ensures k < |s| ==> !IsDigitIn(s[k], radix)
  {
    if |s| > 0 && IsDigitIn(s[0], radix) then 1 + DigitRun(s[1..], radix) else 0
  }

  /** The longest run of radix digits at the start of `v`, read as a
      number; None when `v` does not start with a digit. */
  function ReadDigits(v: string, radix: nat): (r: Option<nat>)
    ensures r.None? <==> (|v| == 0 || !IsDigitIn(v[0], radix))
  {
    var k := DigitRun(v, radix);
    if k == 0 then None else Some(DigitsValue(v[..k], radix))
  }

  /** The unsigned part of `parseInt`: radix 16 after a `0x`/`0X` prefix,
      radix 10 otherwise. */
  function ParseMagnitude(u: string): Option<nat>
  {
    if |u| >= 2 && u[0] == '0' && (u[1] == 'x' || u[1] == 'X') then ReadDigits(u[2..], 16)
    else ReadDigits(u, 10)
  }

  /** Number of blanks at the start of `s`. */
  function BlankRun(s: string): (k: nat)
    ensures k <= |s| && AllSpace(s[..k])
    ensures k < |s| ==> !IsJsSpace(s[k])
  {
    if |s| > 0 && IsJsSpace(s[0]) then 1 + BlankRun(s[1..]) else 0
  }

  /** The global `parseInt(s)` with no radix argument: skip leading blanks,
      read an optional sign, switch to radix 16 after a `0x`/`0X` prefix,
      then read the longest run of digits. No digit at all gives `NaN`,
      here None. */
  function ParseInt(s: string): (r: Option<int>)
    ensures AllSpace(s) ==> r.None?
  {
    var k := BlankRun(s);
    ParseTrimmed(s[k..])
  }

  /** `parseInt` once the leading blanks are gone: an optional sign, then
      the unsigned part. */
  function ParseTrimmed(t: string): Option<int>
  {
    if |t| > 0 && t[0] == '-' then WithSign(true, ParseMagnitude(t[1..]))
    else if |t| > 0 && t[0] == '+' then WithSign(false, ParseMagnitude(t[1..]))
    else WithSign(false, ParseMagnitude(t))
  }

  /** Applies the sign read by `parseInt` to the unsigned part; NaN stays NaN. */
  function WithSign(negative: bool, m: Option<nat>): Option<int>
  {
    match m
    case Some(v) => Some(if negative then -(v as int) else v)
    case None => None
  }

  lemma {:induction false} DigitRunOfDigits(s: string, radix: nat)
    requires AllDigitsIn(s, radix)
    ensures DigitRun(s, radix) == |s|
    decreases |s|
  {
    if |s| > 0 {
      DigitRunOfDigits(s[1..], radix);
    }
  }

  lemma {:induction false} DecimalValue(n: nat)
    ensures DigitsValue(NatToDecimal(n), 10) == n
    decreases n
  {
    var r := NatToDecimal(n);
    if n >= 10 {
      DecimalValue(n / 10);
      assert r[..|r| - 1] == NatToDecimal(n / 10);
    }
  }

  lemma DecimalDigitIsPlain(c: char)
    requires IsDigitIn(c, 10)
    ensures '0' <= c <= '9'
  {
  }

  /** A non-empty run of decimal digits, read as the unsigned part. */
  lemma MagnitudeOfDigits(r: string)
    requires |r| >= 1 && AllDigitsIn(r, 10)
    ensures ParseMagnitude(r) == Some(DigitsValue(r, 10))
  {
    if |r| >= 2 {
      DecimalDigitIsPlain(r[1]);
    }
    DigitRunOfDigits(r, 10);
    assert r[..|r|] == r;
  }

  /** The decimal form of a natural number reads back as that number. */
  lemma MagnitudeOfDecimal(n: nat)
    ensures ParseMagnitude(NatToDecimal(n)) == Some(n)
  {
    MagnitudeOfDigits(NatToDecimal(n));
    DecimalValue(n);
  }

  /** Without a sign, a string starting with a decimal digit reads as its
      unsigned part. */
  lemma ParseUnsigned(d: string)
    requires |d| >= 1 && IsDigitIn(d[0], 10)
    ensures ParseInt(d) == WithSign(false, ParseMagnitude(d))
  {
    DecimalDigitIsPlain(d[0]);
    assert BlankRun(d) == 0;
    assert d[0..] == d;
  }

  lemma SignedValue(negative: bool, v: nat)
    ensures WithSign(negative, Some(v)) == Some(if negative then -(v as int) else v)
  {
  }

  /** Writing an integer into an attribute and reading it back with
      `parseInt` gives the same integer: an id survives the round trip
      through an `<option value>` or a `data-id`. */
  lemma ParseIntToString(n: int)
    ensures ParseInt(IntToString(n)) == Some(n)
  {
    if n < 0 {
      ParseNegative(n);
    } else {
      ParseNonNegative(n);
    }
  }

  /** A negative number is written as a minus sign before the decimal
      digits of its magnitude, so it reads back as the negated magnitude. */
  lemma ParseNegativeForm(n: int)
    requires n < 0
    ensures ParseInt(IntToString(n)) == WithSign(true, ParseMagnitude(NatToDecimal(-n)))
  {
    var r := IntToString(n);
    assert r == "-" + NatToDecimal(-n);
    assert r[0] == '-' && !IsJsSpace(r[0]);
    assert BlankRun(r) == 0;
    assert r[0..] == r;
    assert r[1..] == NatToDecimal(-n);
  }

  lemma ParseNegative(n: int)
    requires n < 0
    ensures ParseInt(IntToString(n)) == Some(n)
  {
    var m: nat := -n;
    ParseNegativeForm(n);
    MagnitudeOfDecimal(m);
    assert ParseMagnitude(NatToDecimal(-n)) == Some(m);
    SignedValue(true, m);
  }

  lemma ParseNonNegative(n: nat)
    ensures ParseInt(IntToString(n)) == Some(n)
  {
    var d := NatToDecimal(n);
    ParseUnsigned(d);
    MagnitudeOfDecimal(n);
    SignedValue(false, n);
  }

  // ----- Extension stripping ----------------------------------------------

  /** A file extension as the pattern `[^/.]+` reads it: non-empty, no dot,
      no slash. */
  predicate IsExtension(e: string) {
    |e| > 0 && forall i :: 0 <= i < |e| ==> e[i] != '.' && e[i] != '/'
  }

  /** `f` ends in `.` followed by an extension, with the dot at index k. */
  predicate HasExtensionAt(f: string, k: int) {
    0 <= k < |f| && f[k] == '.' && IsExtension(f[k + 1..])
  }

  /** A file name has at most one place where `/\.[^/.]+$/` can match. */
  lemma ExtensionDotUnique(f: string, k1: int, k2: int)
    requires HasExtensionAt(f, k1) && HasExtensionAt(f, k2)
    ensures k1 == k2
  {
  }

  /** A dot or slash at index p rules out every extension dot before p. */
  lemma NoExtensionBefore(f: string, p: nat)
    requires p < |f| && (f[p] == '.' || f[p] == '/')
    ensures forall k :: k < p ==> !HasExtensionAt(f, k)
  {
    forall k | 0 <= k < p ensures !HasExtensionAt(f, k) {
      assert f[k + 1..][p - k - 1] == f[p];
    }
  }

  /** Scans leftwards from index j for the dot that starts the extension;
      everything at or after j is known to be free of dots and slashes. */
  function ExtensionDot(f: string, j: nat): (r: Option<nat>)
    requires j <= |f|
    requires forall i :: j <= i < |f| ==> f[i] != '.' && f[i] != '/'
    ensures r.Some? ==> HasExtensionAt(f, r.value)
    ensures r.None? ==> forall k :: !HasExtensionAt(f, k)
    decreases j
  {
    if j == 0 then None
    else if f[j - 1] == '.' then
      if j < |f| then
        assert forall i :: 0 <= i < |f[j..]| ==> f[j..][i] == f[j + i];
        Some(j - 1)
      else
        NoExtensionBefore(f, j - 1);
        None
    else if f[j - 1] == '/' then
      NoExtensionBefore(f, j - 1);
      None
    else
      ExtensionDot(f, j - 1)
  }

  /** `filename.replace(/\.[^/.]+$/, '')`: removes the final `.ext` when the
      name ends in one and leaves the name unchanged otherwise. */
  function StripExtension(f: string): (r: string)
    ensures r == f <==> forall k :: !HasExtensionAt(f, k)
    ensures r != f ==> |r| < |f| && r == f[..|r|] && HasExtensionAt(f, |r|)
  {
    match ExtensionDot(f, |f|)
    case Some(k) => f[..k]
    case None => f
  }

  /** Whatever precedes the extension is kept, dots and all. */
  lemma StripExtensionOfSplit(base: string, ext: string)
    requires IsExtension(ext)
    ensures StripExtension(base + "." + ext) == base
  {
    var f := base + "." + ext;
    assert f[|base| + 1..] == ext;
    assert HasExtensionAt(f, |base|);
    var r := StripExtension(f);
    ExtensionDotUnique(f, |r|, |base|);
    assert r == f[..|base|];
  }
}
