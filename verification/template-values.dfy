/** What the numerals of template expressions denote. */
module TemplateValues {
  import opened TemplateScan
  import R = TemplateResolve

  predicate AllDigits(s: string) {
    forall i :: 0 <= i < |s| ==> IsDigit(s[i])
  }

  lemma DigitsLast(s: string, c: char)
    requires AllDigits(s) && IsDigit(c)
    ensures AllDigits(s + [c]) && R.Digits(s + [c]) == 10 * R.Digits(s) + (c as int - '0' as int)
  {
    assert (s + [c])[..|s|] == s;
  }

  /** Every digit times ten for each digit behind it, added up. */
  function PlaceValue(s: string): nat
    requires AllDigits(s)
  {
    if s == "" then 0 else (s[0] as int - 48) * Tens(|s| - 1) + PlaceValue(s[1..])
  }

  function Tens(n: nat): nat {
    if n == 0 then 1 else 10 * Tens(n - 1)
  }

  lemma {:induction false} PlaceLast(s: string, c: char)
    requires AllDigits(s) && IsDigit(c)
    ensures AllDigits(s + [c]) && PlaceValue(s + [c]) == 10 * PlaceValue(s) + (c as int - 48)
  {
    var t := s + [c];
    assert AllDigits(t);
    if s != "" {
      PlaceLast(s[1..], c);
      assert t[1..] == s[1..] + [c];
      var d := t[0] as int - 48;
      assert d * (10 * Tens(|s| - 1)) == 10 * (d * Tens(|s| - 1));
    }
  }

  /** The digits of a numeral are read by their places. */
  lemma {:induction false} DigitsByPlace(s: string)
    requires AllDigits(s)
    ensures R.Digits(s) == PlaceValue(s)
    decreases |s|
  {
    if s != "" {
      var n := |s| - 1;
      DigitsByPlace(s[..n]);
      PlaceLast(s[..n], s[n]);
      assert s == s[..n] + [s[n]];
    }
  }

  /** A run of digits is a numeral and denotes what its digits are worth at their places. */
  lemma WholeNumber(w: string)
    requires w != "" && AllDigits(w)
    ensures IsNumber(w) && R.NumberOf(w) == PlaceValue(w) as real
  {
    DigitRunEndAt(w, 0, |w|);
    DigitsByPlace(w);
    assert IsDigit(w[0]) && w[0..|w|] == w;
  }

  function TimesTen(x: real, k: nat): real {
    if k == 0 then x else 10.0 * TimesTen(x, k - 1)
  }

  lemma {:induction false} TimesTenSum(x: real, y: real, k: nat)
    ensures TimesTen(x + y, k) == TimesTen(x, k) + TimesTen(y, k)
  {
    if k > 0 {
      TimesTenSum(x, y, k - 1);
    }
  }

  lemma Tenth(x: real, p: real)
    requires p >= 1.0
    ensures x / (10.0 * p) == x / 10.0 / p
  {
  }

  lemma {:induction false} Undone(x: real, k: nat)
    ensures TimesTen(x / R.PowerOfTen(k), k) == x
    decreases k
  {
    if k > 0 {
      Tenth(x, R.PowerOfTen(k - 1));
      Undone(x / 10.0, k - 1);
      TimesTenTenth(x, k - 1);
    }
  }

  lemma TimesTenTenth(x: real, k: nat)
    requires TimesTen(x / 10.0 / R.PowerOfTen(k), k) == x / 10.0
    ensures 10.0 * TimesTen(x / 10.0 / R.PowerOfTen(k), k) == x
  {
  }

  lemma {:induction false} DigitsJoin(w: string, f: string)
    requires AllDigits(w) && AllDigits(f)
    ensures AllDigits(w + f)
    ensures R.Digits(w + f) as real == TimesTen(R.Digits(w) as real, |f|) + R.Digits(f) as real
    decreases |f|
  {
    if f == "" {
      assert w + f == w;
    } else {
      var n := |f| - 1;
      var g, c := f[..n], f[n];
      DigitsJoin(w, g);
      DigitsLast(w + g, c);
      DigitsLast(g, c);
      assert f == g + [c] && w + f == (w + g) + [c];
    }
  }

  /** The text has digits, a point and digits. */
  ghost predicate HasPoint(s: string, w: string, f: string) {
    && |s| == |w| + 1 + |f| && s[0..|w|] == w && s[|w| + 1..] == f
    && w != "" && AllDigits(w) && AllDigits(f) && IsNumber(s)
    && DigitRunEnd(s, 0) == |w|
  }

  lemma PointValue(s: string, w: string, f: string)
    requires HasPoint(s, w, f)
    ensures R.NumberOf(s) == R.Digits(w) as real + R.Digits(f) as real / R.PowerOfTen(|f|)
  {
    assert s[0] == w[0];
    assert |s| - |w| - 1 == |f|;
  }

  lemma Pointed(s: string, w: string, f: string)
    requires HasPoint(s, w, f)
    ensures TimesTen(R.NumberOf(s), |f|) == R.Digits(w + f) as real && AllDigits(w + f)
  {
    PointValue(s, w, f);
    DigitsJoin(w, f);
    TimesTenSum(R.Digits(w) as real, R.Digits(f) as real / R.PowerOfTen(|f|), |f|);
    Undone(R.Digits(f) as real, |f|);
  }

  lemma PointAt(w: string, f: string)
    requires w != "" && f != "" && AllDigits(w) && AllDigits(f)
    ensures HasPoint(w + "." + f, w, f)
  {
    var s := w + "." + f;
    assert forall k :: 0 <= k < |w| ==> s[k] == w[k];
    assert forall k :: |w| < k < |s| ==> s[k] == f[k - |w| - 1];
    assert s[|w|] == '.';
    DigitRunEndAt(s, 0, |w|);
    DigitRunEndAt(s, |w| + 1, |s|);
    assert IsDigit(s[0]);
  }

  /** Moving the decimal point to the end gives the number that all the digits write. */
  lemma DecimalPoint(w: string, f: string)
    requires w != "" && f != "" && AllDigits(w) && AllDigits(f)
    ensures IsNumber(w + "." + f) && AllDigits(w + f)
    ensures TimesTen(R.NumberOf(w + "." + f), |f|) == PlaceValue(w + f) as real
  {
    DigitsByPlace(w + f);
    PointAt(w, f);
    Pointed(w + "." + f, w, f);
  }

  lemma {:induction false} RunAfterMinus(s: string, i: nat)
    requires i <= |s|
    ensures DigitRunEnd("-" + s, i + 1) == DigitRunEnd(s, i) + 1
    decreases |s| - i
  {
    assert i < |s| ==> ("-" + s)[i + 1] == s[i];
    if i < |s| && IsDigit(s[i]) {
      RunAfterMinus(s, i + 1);
    }
  }

  /** The runs of digits of a numeral with a minus in front are those of the numeral, one place further on. */
  lemma MinusRuns(s: string, e: nat)
    requires IsNumber(s) && s[0] != '-' && e == DigitRunEnd(s, 0)
    ensures var m := "-" + s;
      && DigitRunEnd(m, 1) == e + 1 && m[1..e + 1] == s[0..e]
      && (e < |s| ==> m[e + 1] == s[e] && m[e + 2..] == s[e + 1..] && DigitRunEnd(m, e + 2) == |m|)
  {
    RunAfterMinus(s, 0);
    if e < |s| {
      RunAfterMinus(s, e + 1);
    }
  }

  /** A leading minus negates. */
  lemma MinusNegates(s: string)
    requires IsNumber(s) && s[0] != '-'
    ensures IsNumber("-" + s) && R.NumberOf("-" + s) == -R.NumberOf(s)
  {
    MinusRuns(s, DigitRunEnd(s, 0));
  }

  // ---- which texts are numerals

  lemma DigitExactly(c: char)
    ensures IsDigit(c) <==> c in {'0', '1', '2', '3', '4', '5', '6', '7', '8', '9'}
  {
  }

  /** At least one digit and nothing else. */
  predicate Decimal(s: string) {
    s != "" && AllDigits(s)
  }

  /** Digits, or digits, a point and digits. */
  ghost predicate Unsigned(s: string) {
    Decimal(s) || exists w, f :: Decimal(w) && Decimal(f) && s == w + "." + f
  }

  lemma UnsignedNumber(s: string)
    requires Unsigned(s)
    ensures IsNumber(s) && s[0] != '-'
  {
    if Decimal(s) {
      WholeNumber(s);
      assert IsDigit(s[0]);
    } else {
      var w, f :| Decimal(w) && Decimal(f) && s == w + "." + f;
      DecimalPoint(w, f);
      assert IsDigit(w[0]) && s[0] == w[0];
    }
  }

  lemma NumberUnsigned(s: string)
    requires IsNumber(s) && s[0] != '-'
    ensures Unsigned(s)
  {
    var e := DigitRunEnd(s, 0);
    var w := s[..e];
    assert AllDigits(w);
    if e < |s| {
      var f := s[e + 1..];
      assert Decimal(w) && Decimal(f) && s == w + "." + f;
    } else {
      assert w == s;
    }
  }

  lemma MinusOff(s: string)
    requires IsNumber(s) && s[0] == '-'
    ensures IsNumber(s[1..]) && s[1..][0] != '-' && s == "-" + s[1..]
  {
    var t := s[1..];
    assert s == "-" + t;
    RunAfterMinus(t, 0);
    var e := DigitRunEnd(t, 0);
    assert IsDigit(t[0]);
    if e < |t| {
      RunAfterMinus(t, e + 1);
    }
  }

  /** A text is taken for a numeral exactly when it is digits with at most one point between them, and at most a minus
      in front. */
  lemma NumeralExactly(s: string)
    ensures IsNumber(s) <==> Unsigned(s) || (s != "" && s[0] == '-' && Unsigned(s[1..]))
  {
    if IsNumber(s) {
      if s[0] == '-' {
        MinusOff(s);
        NumberUnsigned(s[1..]);
      } else {
        NumberUnsigned(s);
      }
    }
    if Unsigned(s) {
      UnsignedNumber(s);
    }
    if s != "" && s[0] == '-' && Unsigned(s[1..]) {
      UnsignedNumber(s[1..]);
      MinusNegates(s[1..]);
      assert s == "-" + s[1..];
    }
  }
}
