/** String helpers that stand for the Python built-ins the pipeline uses:
    `str.strip`, `str.endswith`, `str.replace(pat, "")` and `float(str)`. */
module Text {
  import opened Common

  /** The characters `str.isspace()` accepts, which `str.strip()` and
      `float()` remove: the ASCII controls 9-13 and 28-31, the space, and
      the Unicode separators (NEL, no-break space, ogham space mark, the
      spaces U+2000-U+200A, line and paragraph separator, narrow no-break
      space, medium mathematical space, ideographic space). */
  predicate IsSpace(c: char) {
    CodeIn(c as int, AsciiSpaceCodes) || CodeIn(c as int, UnicodeSpaceCodes)
  }

  const AsciiSpaceCodes: seq<int> := [0x09, 0x0A, 0x0B, 0x0C, 0x0D, 0x1C, 0x1D, 0x1E, 0x1F, 0x20]

  const UnicodeSpaceCodes: seq<int> := [
    0x85, 0xA0, 0x1680,
    0x2000, 0x2001, 0x2002, 0x2003, 0x2004, 0x2005, 0x2006, 0x2007, 0x2008, 0x2009, 0x200A,
    0x2028, 0x2029, 0x202F, 0x205F, 0x3000]

  /** `n` is one of `codes`. */
  predicate CodeIn(n: int, codes: seq<int>) {
    codes != [] && (codes[0] == n || CodeIn(n, codes[1..]))
  }

  /** A code among `codes` lies within any bounds they all lie within. */
  lemma {:induction false} CodeInBetween(n: int, codes: seq<int>, lo: int, hi: int)
    requires forall k :: 0 <= k < |codes| ==> lo <= codes[k] <= hi
    ensures CodeIn(n, codes) ==> lo <= n <= hi
  {
    if codes != [] {
      CodeInBetween(n, codes[1..], lo, hi);
    }
  }

  /** No printable ASCII character other than the space is white space. */
  lemma GraphicNotSpace(c: char)
    requires 0x21 <= c as int <= 0x7E
    ensures !IsSpace(c)
  {
    CodeInBetween(c as int, AsciiSpaceCodes, 0x09, 0x20);
    CodeInBetween(c as int, UnicodeSpaceCodes, 0x85, 0x3000);
  }

  function StripLeft(s: string): (r: string)
    ensures |r| <= |s| && r == s[|s| - |r|..]
    ensures r == [] || !IsSpace(r[0])
    ensures forall i :: 0 <= i < |s| - |r| ==> IsSpace(s[i])
  {
    if s != [] && IsSpace(s[0]) then StripLeft(s[1..]) else s
  }

  function StripRight(s: string): (r: string)
    ensures |r| <= |s| && r == s[..|r|]
    ensures r == [] || !IsSpace(r[|r| - 1])
    ensures forall i :: |r| <= i < |s| ==> IsSpace(s[i])
  {
    if s != [] && IsSpace(s[|s| - 1]) then StripRight(s[..|s| - 1]) else s
  }

  /** Where `Strip(s)` starts inside `s`. */
  function StripOffset(s: string): nat
  {
    |s| - |StripLeft(s)|
  }

  /** `s.strip()`: the longest infix of `s` that neither starts nor ends with
      white space; everything cut off on either side is white space. */
  function Strip(s: string): (r: string)
    ensures StripOffset(s) + |r| <= |s|
    ensures r == s[StripOffset(s)..StripOffset(s) + |r|]
    ensures forall i :: 0 <= i < StripOffset(s) ==> IsSpace(s[i])
    ensures forall i :: StripOffset(s) + |r| <= i < |s| ==> IsSpace(s[i])
    ensures r == [] || (!IsSpace(r[0]) && !IsSpace(r[|r| - 1]))
  {
    StripRight(StripLeft(s))
  }

  /** A string that neither starts nor ends with white space is its own
      strip. */
  lemma StripTrimmed(s: string)
    requires s == [] || (!IsSpace(s[0]) && !IsSpace(s[|s| - 1]))
    ensures Strip(s) == s
  {
    assert StripLeft(s) == s;
  }

  /** `s.endswith(suffix)` */
  predicate EndsWith(s: string, suffix: string) {
    |suffix| <= |s| && s[|s| - |suffix|..] == suffix
  }

  lemma AppendSuffixInjective(p: string, q: string, suffix: string)
    requires p + suffix == q + suffix
    ensures p == q
  {
    assert p == (p + suffix)[..|p|];
    assert q == (q + suffix)[..|q|];
  }

  /** `s.replace(pat, "")`: left-to-right removal of non-overlapping
      occurrences of `pat`. */
  function RemoveAll(s: string, pat: string): (r: string)
    requires pat != []
    ensures |r| <= |s|
    decreases |s|
  {
    if |s| < |pat| then s
    else if s[..|pat|] == pat then RemoveAll(s[|pat|..], pat)
    else [s[0]] + RemoveAll(s[1..], pat)
  }

  /** `pat` occurs somewhere in `s`. */
  ghost predicate OccursIn(pat: string, s: string)
  {
    exists i :: OccursAt(pat, s, i)
  }

  predicate OccursAt(pat: string, s: string, i: int)
  {
    0 <= i <= |s| - |pat| && s[i..i + |pat|] == pat
  }

  /** Removing a pattern whose first character does not recur in it from
      a label that ends in it, and has it nowhere else, gives back what
      precedes it: no occurrence can straddle the join. */
  lemma {:induction false} RemoveAllSuffix(p: string, pat: string)
    requires pat != [] && forall k :: 0 < k < |pat| ==> pat[k] != pat[0]
    requires !OccursIn(pat, p)
    ensures RemoveAll(p + pat, pat) == p
    decreases |p|
  {
    var s := p + pat;
    if p == [] {
      assert s == pat && s[..|pat|] == pat && s[|pat|..] == [];
    } else {
      NoOccurrenceAtJoin(p, pat);
      NoOccurrenceInTail(p, pat);
      assert RemoveAll(s, pat) == [s[0]] + RemoveAll(s[1..], pat);
      assert s[1..] == p[1..] + pat;
      RemoveAllSuffix(p[1..], pat);
      assert [s[0]] + p[1..] == p;
    }
  }

  /** The label followed by the pattern does not start with the pattern. */
  lemma NoOccurrenceAtJoin(p: string, pat: string)
    requires pat != [] && forall k :: 0 < k < |pat| ==> pat[k] != pat[0]
    requires p != [] && !OccursIn(pat, p)
    ensures |p + pat| >= |pat| && (p + pat)[..|pat|] != pat
  {
    var s := p + pat;
    if |p| >= |pat| {
      assert s[..|pat|] == p[0..0 + |pat|];
      assert !OccursAt(pat, p, 0);
    } else {
      assert s[..|pat|][|p|] == pat[0] != pat[|p|];
    }
  }

  /** A pattern absent from a label is absent from its tail. */
  lemma NoOccurrenceInTail(p: string, pat: string)
    requires p != [] && !OccursIn(pat, p)
    ensures !OccursIn(pat, p[1..])
  {
    forall i ensures !OccursAt(pat, p[1..], i) {
      if 0 <= i <= |p[1..]| - |pat| {
        assert p[1..][i..i + |pat|] == p[i + 1..i + 1 + |pat|];
        assert !OccursAt(pat, p, i + 1);
      }
    }
  }

  predicate IsDigit(c: char) { '0' <= c <= '9' }

  predicate AllDigits(s: string) { forall i :: 0 <= i < |s| ==> IsDigit(s[i]) }

  function DigitValue(c: char): nat
    requires IsDigit(c)
  {
    c as int - '0' as int
  }

  /** The natural number a decimal digit string denotes. */
  function DigitsValue(s: string): nat
    requires AllDigits(s)
  {
    if s == [] then 0 else 10 * DigitsValue(s[..|s| - 1]) + DigitValue(s[|s| - 1])
  }

  /** The value of the digits after a decimal point: "d1d2..." denotes
      (d1 + 0.d2...) / 10, which is at least 0 and below 1. */
  function FractionValue(s: string): (r: real)
    requires AllDigits(s)
    ensures 0.0 <= r < 1.0
  {
    if s == [] then 0.0 else (DigitValue(s[0]) as real + FractionValue(s[1..])) / 10.0
  }

  /** `x` shifted `n` decimal places to the left: x·10^n. */
  function Shift(x: nat, n: nat): nat
  {
    if n == 0 then x else 10 * Shift(x, n - 1)
  }

  /** `x` scaled by 10^n, over the reals. */
  function Scale(x: real, n: nat): real
  {
    if n == 0 then x else 10.0 * Scale(x, n - 1)
  }

  /** Scaling is linear: it distributes over a sum and commutes with a
      factor of ten. */
  lemma {:induction false} ScaleLinear(x: real, y: real, n: nat)
    ensures Scale(x + y, n) == Scale(x, n) + Scale(y, n)
    ensures Scale(10.0 * x, n) == 10.0 * Scale(x, n)
  {
    if n > 0 {
      ScaleLinear(x, y, n - 1);
    }
  }

  /** Shifting a natural number and scaling it as a real agree. */
  lemma {:induction false} ShiftAsReal(x: nat, n: nat)
    ensures Shift(x, n) as real == Scale(x as real, n)
  {
    if n > 0 {
      ShiftAsReal(x, n - 1);
    }
  }

  /** Digits written after other digits shift them: the value of `w + f`
      is `w` shifted by |f| places plus the value of `f`. */
  lemma {:induction false} DigitsValueConcat(w: string, f: string)
    requires AllDigits(w) && AllDigits(f)
    ensures AllDigits(w + f)
    ensures DigitsValue(w + f) == Shift(DigitsValue(w), |f|) + DigitsValue(f)
    decreases |f|
  {
    var s := w + f;
    assert AllDigits(s) by {
      forall i | 0 <= i < |s| ensures IsDigit(s[i]) {
        if i < |w| { assert s[i] == w[i]; } else { assert s[i] == f[i - |w|]; }
      }
    }
    if f == [] {
      assert s == w;
    } else {
      var g := f[..|f| - 1];
      assert AllDigits(g) by {
        forall i | 0 <= i < |g| ensures IsDigit(g[i]) { assert g[i] == f[i]; }
      }
      DigitsValueConcat(w, g);
      assert s[..|s| - 1] == w + g;
      assert s[|s| - 1] == f[|f| - 1];
    }
  }

  /** The fractional digits `f` scaled by 10^|f| are the number the digits
      denote: "25" after a point is 0.25, and 0.25·10^2 = 25. */
  lemma {:induction false} FractionValueScaled(f: string)
    requires AllDigits(f)
    ensures Scale(FractionValue(f), |f|) == DigitsValue(f) as real
    decreases |f|
  {
    if f != [] {
      var d, g := f[..1], f[1..];
      assert AllDigits(d) && AllDigits(g);
      FractionValueScaled(g);
      DigitsValueConcat(d, g);
      assert d + g == f;
      assert DigitsValue(d) == DigitValue(f[0]) by {
        assert d[..0] == [];
      }
      var a := DigitValue(f[0]) as real;
      var v := FractionValue(f);
      assert 10.0 * v == a + FractionValue(g);
      ScaleLinear(v, 0.0, |g|);
      ScaleLinear(a, FractionValue(g), |g|);
      ShiftAsReal(DigitValue(f[0]), |g|);
      calc {
        Scale(v, |f|);
        10.0 * Scale(v, |g|);
        Scale(10.0 * v, |g|);
        Scale(a, |g|) + Scale(FractionValue(g), |g|);
        DigitsValue(f) as real;
      }
    }
  }

  /** `str(n)` for a natural number: its shortest decimal rendering. */
  function NatToString(n: nat): (s: string)
    ensures s != [] && AllDigits(s)
    ensures |s| > 1 ==> s[0] != '0'
  {
    var d := ['0' + (n % 10) as char];
    if n < 10 then d else NatToString(n / 10) + d
  }

  lemma {:induction false} DigitsOfNatToString(n: nat)
    ensures DigitsValue(NatToString(n)) == n
  {
    var s := NatToString(n);
    if n >= 10 {
      DigitsOfNatToString(n / 10);
      assert s[..|s| - 1] == NatToString(n / 10);
    }
  }

  /** Index of the first '.' in `s`, or `|s|` when there is none. */
  function IndexOfDot(s: string): (k: nat)
    ensures k <= |s|
    ensures k < |s| ==> s[k] == '.'
    ensures forall i :: 0 <= i < k ==> s[i] != '.'
  {
    if s == [] then 0 else if s[0] == '.' then 0 else 1 + IndexOfDot(s[1..])
  }

  /** An unsigned decimal literal `digits[.digits]` with at least one digit. */
  function ParseUnsigned(t: string): (r: Option<real>)
    ensures r.Some? ==> r.value >= 0.0
  {
    var k := IndexOfDot(t);
    var whole := t[..k];
    var frac := if k < |t| then t[k + 1..] else [];
    if AllDigits(whole) && AllDigits(frac) && |whole| + |frac| > 0 then
      Some(DigitsValue(whole) as real + FractionValue(frac))
    else None
  }

  /** The first dot after some digits is found past them. */
  lemma {:induction false} IndexOfDotAfterDigits(w: string, rest: string)
    requires AllDigits(w)
    ensures IndexOfDot(w + rest) == |w| + IndexOfDot(rest)
    decreases |w|
  {
    if w != [] {
      assert (w + rest)[0] == w[0] && (w + rest)[1..] == w[1..] + rest;
      IndexOfDotAfterDigits(w[1..], rest);
    } else {
      assert w + rest == rest;
    }
  }

  /** A literal `w.f` is read as the number that, scaled by 10^|f|, is
      the digits `w + f`. */
  lemma ParseUnsignedDecimal(w: string, f: string)
    requires AllDigits(w) && AllDigits(f) && |w| + |f| > 0
    ensures ParseUnsigned(w + "." + f).Some?
    ensures AllDigits(w + f) && Scale(ParseUnsigned(w + "." + f).value, |f|) == DigitsValue(w + f) as real
  {
    var v := DigitsValue(w) as real + FractionValue(f);
    assert ParseUnsigned(w + "." + f) == Some(v) by {
      DecimalParts(w, f);
    }
    assert AllDigits(w + f) && Scale(v, |f|) == DigitsValue(w + f) as real by {
      DecimalScaled(w, f);
    }
  }

  /** A literal `w.f` is read as the whole part `w` plus the fraction `f`. */
  lemma DecimalParts(w: string, f: string)
    requires AllDigits(w) && AllDigits(f) && |w| + |f| > 0
    ensures ParseUnsigned(w + "." + f) == Some(DigitsValue(w) as real + FractionValue(f))
  {
    DecimalSplit(w, f);
    SplitLiteral(w + "." + f, w, f);
  }

  /** A literal whose first dot has the digits `w` before it and the digits
      `f` after it is read as `w` plus the fraction `f`. */
  lemma SplitLiteral(t: string, w: string, f: string)
    requires AllDigits(w) && AllDigits(f) && |w| + |f| > 0
    requires IndexOfDot(t) == |w| < |t| && t[..|w|] == w && t[|w| + 1..] == f
    ensures ParseUnsigned(t) == Some(DigitsValue(w) as real + FractionValue(f))
  {
  }

  /** The first dot of `w.f` is the one after `w`, with `w` before it and
      `f` after it. */
  lemma DecimalSplit(w: string, f: string)
    requires AllDigits(w)
    ensures var t := w + "." + f;
      IndexOfDot(t) == |w| && t[..|w|] == w && t[|w| + 1..] == f
  {
    var t := w + "." + f;
    assert t == w + ("." + f);
    IndexOfDotAfterDigits(w, "." + f);
  }

  /** The whole part `w` plus the fraction `f`, scaled by 10^|f|, is the
      number the digits `w + f` denote. */
  lemma DecimalScaled(w: string, f: string)
    requires AllDigits(w) && AllDigits(f)
    ensures AllDigits(w + f)
    ensures Scale(DigitsValue(w) as real + FractionValue(f), |f|) == DigitsValue(w + f) as real
  {
    var x, y := DigitsValue(w) as real, FractionValue(f);
    DigitsValueConcat(w, f);
    FractionValueScaled(f);
    ScaleLinear(x, y, |f|);
    ShiftAsReal(DigitsValue(w), |f|);
  }

  /** `float()` of a decimal literal `w.f` (either side may be empty, not
      both) is the number that, scaled by 10^|f|, is the digits `w + f`:
      "2.5" is read as 2.5 because 2.5·10 = 25. */
  lemma ParseDecimal(w: string, f: string)
    requires AllDigits(w) && AllDigits(f) && |w| + |f| > 0
    ensures ParseFloat(w + "." + f) == ParseUnsigned(w + "." + f)
    ensures ParseFloat(w + "." + f).Some?
    ensures AllDigits(w + f) && Scale(ParseFloat(w + "." + f).value, |f|) == DigitsValue(w + f) as real
  {
    var s := w + "." + f;
    assert ParseFloat(s) == ParseUnsigned(s) by {
      DecimalEnds(w, f);
      UnsignedText(s);
    }
    assert ParseUnsigned(s).Some? && AllDigits(w + f) && Scale(ParseUnsigned(s).value, |f|) == DigitsValue(w + f) as real by {
      ParseUnsignedDecimal(w, f);
    }
  }

  /** A literal `w.f` starts and ends with a digit or its dot: no white
      space and no sign. */
  lemma DecimalEnds(w: string, f: string)
    requires AllDigits(w) && AllDigits(f)
    ensures var s := w + "." + f;
      && s != [] && !IsSpace(s[0]) && !IsSpace(s[|s| - 1])
      && s[0] != '-' && s[0] != '+'
  {
    var s := w + "." + f;
    var first, last := if w == [] then '.' else w[0], if f == [] then '.' else f[|f| - 1];
    assert s[0] == first && s[|s| - 1] == last;
    GraphicNotSpace(first);
    GraphicNotSpace(last);
  }

  /** Text without surrounding white space and without a sign is read as
      an unsigned literal. */
  lemma UnsignedText(s: string)
    requires s != [] && !IsSpace(s[0]) && !IsSpace(s[|s| - 1])
    requires s[0] != '-' && s[0] != '+'
    ensures ParseFloat(s) == ParseUnsigned(s)
  {
    StripTrimmed(s);
  }

  /** `float(s)` on a string: surrounding white space is ignored, then an
      optional sign and an unsigned decimal literal; anything else raises,
      which is `None` here. */
  function ParseFloat(s: string): Option<real>
  {
    var t := Strip(s);
    if t != [] && (t[0] == '-' || t[0] == '+') then
      match ParseUnsigned(t[1..])
      case None => None
      case Some(v) => Some(if t[0] == '-' then -v else v)
    else ParseUnsigned(t)
  }

  /** Blank text does not parse, and the sign of a parsed value follows its
      leading minus sign. */
  lemma ParseFloatSign(s: string)
    ensures Strip(s) == [] ==> ParseFloat(s) == None
    ensures ParseFloat(s).Some? && Strip(s)[0] == '-' ==> ParseFloat(s).value <= 0.0
    ensures ParseFloat(s).Some? && Strip(s)[0] != '-' ==> ParseFloat(s).value >= 0.0
  {
  }

  /** The characters of a signed decimal literal. */
  predicate LiteralChar(c: char) { IsDigit(c) || c == '.' || c == '-' || c == '+' }

  /** The characters a string accepted by `ParseFloat` is made of. */
  predicate NumeralChar(c: char) { LiteralChar(c) || IsSpace(c) }

  lemma {:induction false} ParseUnsignedChars(t: string)
    requires ParseUnsigned(t).Some?
    ensures forall i :: 0 <= i < |t| ==> IsDigit(t[i]) || t[i] == '.'
  {
    var k := IndexOfDot(t);
    forall i | 0 <= i < |t| ensures IsDigit(t[i]) || t[i] == '.' {
      if i < k {
        assert t[i] == t[..k][i];
      } else if i > k {
        assert t[i] == t[k + 1..][i - k - 1];
      }
    }
  }

  /** The stripped text of a string `float()` accepts is a signed literal. */
  lemma {:induction false} ParsedLiteralChars(s: string)
    requires ParseFloat(s).Some?
    ensures forall i :: 0 <= i < |Strip(s)| ==> LiteralChar(Strip(s)[i])
  {
    var t := Strip(s);
    if t != [] && (t[0] == '-' || t[0] == '+') {
      ParseUnsignedChars(t[1..]);
      forall i | 1 <= i < |t| ensures LiteralChar(t[i]) {
        assert t[i] == t[1..][i - 1];
      }
    } else {
      ParseUnsignedChars(t);
    }
  }

  /** Every character of a string is white space or lies inside its strip. */
  lemma StripCovers(s: string, i: nat)
    requires i < |s|
    ensures IsSpace(s[i]) || (StripOffset(s) <= i < StripOffset(s) + |Strip(s)| && s[i] == Strip(s)[i - StripOffset(s)])
  {
  }

  /** Every string `float()` accepts is made of digits, one dot, a sign and
      white space only. */
  lemma ParseFloatChars(s: string)
    ensures ParseFloat(s).Some? ==> forall i :: 0 <= i < |s| ==> NumeralChar(s[i])
  {
    if ParseFloat(s).Some? {
      ParsedLiteralChars(s);
      forall i | 0 <= i < |s| ensures NumeralChar(s[i]) {
        StripCovers(s, i);
      }
    }
  }

  /** A fractional quotation such as "5/1" is not a Python float literal. */
  lemma FractionalOddsDoNotParse(s: string, i: nat)
    requires i < |s| && s[i] == '/'
    ensures ParseFloat(s) == None
  {
    ParseFloatChars(s);
    GraphicNotSpace(s[i]);
    assert !NumeralChar(s[i]);
  }

  lemma {:induction false} DotFreeDigits(s: string)
    requires AllDigits(s)
    ensures IndexOfDot(s) == |s|
  {
    forall i | 0 <= i < |s| ensures s[i] != '.' {
      assert IsDigit(s[i]);
    }
  }

  /** A plain digit string is read as the number it denotes. */
  lemma ParseDigits(s: string)
    requires s != [] && AllDigits(s)
    ensures ParseFloat(s) == Some(DigitsValue(s) as real)
  {
    assert IsDigit(s[0]) && IsDigit(s[|s| - 1]);
    GraphicNotSpace(s[0]);
    GraphicNotSpace(s[|s| - 1]);
    StripTrimmed(s);
    assert Strip(s) == s;
    assert !(s[0] == '-' || s[0] == '+');
    ParseWholeNumber(s);
  }

  /** A literal without a dot is read as its whole part. */
  lemma ParseWholeNumber(s: string)
    requires s != [] && AllDigits(s)
    ensures ParseUnsigned(s) == Some(DigitsValue(s) as real)
  {
    DotFreeDigits(s);
    assert s[..|s|] == s;
  }

  /** The literal `w.f` reads as `w` plus the fraction `0.f`. */
  lemma DecimalValue(w: string, f: string)
    requires AllDigits(w) && AllDigits(f) && |w| + |f| > 0
    ensures ParseFloat(w + "." + f) == Some(DigitsValue(w) as real + FractionValue(f))
  {
    var s := w + "." + f;
    assert ParseFloat(s) == ParseUnsigned(s) by {
      DecimalEnds(w, f);
      UnsignedText(s);
    }
    DecimalParts(w, f);
  }

  /** `float("2.5")` is 2.5; the text is written as the parts `DecimalValue` joins. */
  lemma ParseDecimalExample()
    ensures ParseFloat("2" + "." + "5") == Some(2.5)
  {
    DecimalValue("2", "5");
    assert DigitsValue("2") == 2 by { assert "2"[..0] == []; }
    assert FractionValue("5") == 0.5 by { assert "5"[1..] == []; }
  }

  /** `float(str(n)) == n` for every natural number. */
  lemma ParseFloatOfNatToString(n: nat)
    ensures ParseFloat(NatToString(n)) == Some(n as real)
  {
    ParseDigits(NatToString(n));
    DigitsOfNatToString(n);
  }
}
