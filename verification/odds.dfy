/** One odds cell and its conversion to an implied probability. */
module Odds {
  import opened Common
  import opened Text

  /** A pandas cell: NaN (missing), a string, or a number. */
  datatype Cell = NaN | Str(s: string) | Num(x: real)

  /** The numeric view of a cell: NaN and text are undefined. */
  function AsNumber(c: Cell): Option<real>
  {
    if c.Num? then Some(c.x) else None
  }

  /** The cell a possibly undefined number is stored as. */
  function FromNumber(v: Option<real>): (c: Cell)
    ensures AsNumber(c) == v
  {
    match v
    case Some(x) => Num(x)
    case None => NaN
  }

  /** The quotation `d` the conversion works with: NaN and the sentinel "N/A"
      give nothing, a number is itself, text goes through `float()`. */
  function QuotedDecimal(c: Cell): (r: Option<real>)
  {
    match c
    case NaN => None
    case Str(s) => if s == "N/A" then None else ParseFloat(s)
    case Num(x) => Some(x)
  }

  /** `odds_to_probability`: total; undefined unless the quotation is a
      positive decimal `d`, and then the fair-price probability 1/(d+1),
      which is strictly between 0 and 1. */
  function OddsToProbability(c: Cell): (r: Option<real>)
    ensures r.Some? <==> QuotedDecimal(c).Some? && QuotedDecimal(c).value > 0.0
    ensures r.Some? ==> 0.0 < r.value < 1.0
  {
    FairProbability(QuotedDecimal(c))
  }

  /** The conversion once the quotation is known: nothing unless it is a
      positive decimal `d`, and then 1/(d+1). */
  function FairProbability(q: Option<real>): (r: Option<real>)
    ensures r.Some? <==> q.Some? && q.value > 0.0
    ensures r.Some? ==> 0.0 < r.value < 1.0
  {
    match q
    case None => None
    case Some(d) => if d <= 0.0 then None else Some(1.0 / (d + 1.0))
  }

  /** A defined probability is the fair price of its quotation:
      p·(d+1) = 1. */
  lemma FairPrice(q: Option<real>)
    ensures FairProbability(q).Some? ==> FairProbability(q).value * (q.value + 1.0) == 1.0
  {
    if q.Some? && q.value > 0.0 {
      var d := q.value;
      assert FairProbability(q).value == 1.0 / (d + 1.0);
    }
  }

  /** The decimal odds a fair bookmaker quotes for probability `p`; the
      inverse of the conversion. */
  function ImpliedOdds(p: real): (d: real)
    requires 0.0 < p < 1.0
    ensures d > 0.0
  {
    1.0 / p - 1.0
  }

  lemma OddsRoundTrip(d: real)
    requires d > 0.0
    ensures OddsToProbability(Num(d)).Some?
    ensures ImpliedOdds(OddsToProbability(Num(d)).value) == d
  {
    var p := OddsToProbability(Num(d)).value;
    FairPrice(Some(d));
    assert p * (d + 1.0) == 1.0;
    assert 1.0 / p == d + 1.0;
  }

  lemma ProbabilityRoundTrip(p: real)
    requires 0.0 < p < 1.0
    ensures OddsToProbability(Num(ImpliedOdds(p))) == Some(p)
  {
    var e := ImpliedOdds(p) + 1.0;
    var q := OddsToProbability(Num(ImpliedOdds(p))).value;
    FairPrice(Some(ImpliedOdds(p)));
    assert q * e == 1.0;
    assert e * p == 1.0;
    calc {
      q;
      q * (e * p);
      (q * e) * p;
      p;
    }
  }

  /** Longer odds mean a smaller implied probability. */
  lemma ConversionIsDecreasing(d1: real, d2: real)
    requires 0.0 < d1 < d2
    ensures OddsToProbability(Num(d1)).value > OddsToProbability(Num(d2)).value
  {
    assert OddsToProbability(Num(d1)).value == 1.0 / (d1 + 1.0);
    assert OddsToProbability(Num(d2)).value == 1.0 / (d2 + 1.0);
    ReciprocalDecreasing(d1 + 1.0, d2 + 1.0);
  }

  lemma ReciprocalDecreasing(x: real, y: real)
    requires 0.0 < x < y
    ensures 1.0 / x > 1.0 / y
  {
    var a, b := 1.0 / x, 1.0 / y;
    assert a * x == 1.0 && b * y == 1.0;
    assert b > 0.0;
    assert b * x < b * y;
    assert (a - b) * x > 0.0;
  }

  /** Evens (1) is a 50% chance; a non-positive quotation and the missing
      ones are undefined. */
  lemma ConversionExamples()
    ensures OddsToProbability(Num(1.0)) == Some(0.5)
    ensures OddsToProbability(Num(-1.0)) == None
    ensures OddsToProbability(Str("N/A")) == None
    ensures OddsToProbability(NaN) == None
  {
  }

  /** A fractional quotation such as "5/1" is undefined: `float()` refuses it. */
  lemma FractionalQuotationUndefined(s: string, i: nat)
    requires i < |s| && s[i] == '/'
    ensures OddsToProbability(Str(s)) == None
  {
    FractionalOddsDoNotParse(s, i);
  }

  /** A decimal quotation `w.f` stored as text converts like the number
      `float()` reads from it. */
  lemma DecimalQuotationAgrees(w: string, f: string)
    requires AllDigits(w) && AllDigits(f) && |w| + |f| > 0
    ensures ParseFloat(w + "." + f).Some?
    ensures OddsToProbability(Str(w + "." + f)) == OddsToProbability(Num(ParseFloat(w + "." + f).value))
  {
    ParseDecimal(w, f);
    var s := w + "." + f;
    assert s != "N/A" by {
      assert s[|w|] == '.';
    }
  }

  /** The scraped price "2.5", written as its parts, is a probability of 1/3.5. */
  lemma ScrapedPriceConverts()
    ensures OddsToProbability(Str("2" + "." + "5")) == Some(1.0 / 3.5)
  {
    ParseDecimalExample();
  }

  /** An integer quotation stored as text converts like the number itself. */
  lemma TextQuotationAgrees(n: nat)
    ensures OddsToProbability(Str(NatToString(n))) == OddsToProbability(Num(n as real))
  {
    ParseFloatOfNatToString(n);
    var s := NatToString(n);
    assert s != "N/A" by { assert IsDigit(s[0]); }
  }
}
