/** The rolling hash that keys inline content: 32-bit arithmetic against its closed form. */
module ContentKey {

  const WORD: int := 0x1_0000_0000
  const SEED: int := 5381

  type CodeUnit = c: int | 0 <= c < 0x1_0000

  /** Conversion to a signed 32-bit integer, as the bitwise operators apply it. */
  function ToInt32(n: int): (r: int)
    ensures -0x8000_0000 <= r < 0x8000_0000 && r % WORD == n % WORD
  {
    var m := n % WORD;
    if m >= 0x8000_0000 then m - WORD else m
  }

  /** `n << 5` on a signed 32-bit integer. */
  function ShiftLeft5(n: int): int {
    ToInt32(n * 32)
  }

  function ToUint32(n: int): (r: int)
    ensures 0 <= r < WORD
  {
    n % WORD
  }

  function Power33(n: nat): (r: nat)
    ensures r > 0
  {
    if n == 0 then 1 else 33 * Power33(n - 1)
  }

  /** The sum of the code units, the one at index `i` weighted by 33 to the number of units after it. */
  function Weighted(s: seq<CodeUnit>, i: nat): int
    requires i <= |s|
    decreases |s| - i
  {
    if i == |s| then 0 else s[i] * Power33(|s| - 1 - i) + Weighted(s, i + 1)
  }

  /** The base-33 polynomial of the code units with the seed as its leading coefficient. */
  function Polynomial(s: seq<CodeUnit>): int {
    SEED * Power33(|s|) + Weighted(s, 0)
  }

  /** One more code unit multiplies the weighted sum by 33 and adds the unit. */
  lemma {:induction false} WeightedAppend(s: seq<CodeUnit>, c: CodeUnit, i: nat)
    requires i <= |s|
    ensures Weighted(s + [c], i) == 33 * Weighted(s, i) + c
    decreases |s| - i
  {
    if i < |s| {
      WeightedAppend(s, c, i + 1);
      assert Power33(|s| - i) == 33 * Power33(|s| - 1 - i);
      Scale(s[i], Power33(|s| - 1 - i));
    } else {
      assert Weighted(s + [c], i + 1) == 0 && Power33(0) == 1;
    }
  }

  lemma Scale(a: int, p: int)
    ensures a * (33 * p) == 33 * (a * p)
  {
  }

  lemma PolynomialAppend(s: seq<CodeUnit>, c: CodeUnit)
    ensures Polynomial(s + [c]) == 33 * Polynomial(s) + c
  {
    WeightedAppend(s, c, 0);
    Scale(SEED, Power33(|s|));
  }

  /** A turn of the loop wraps twice, and neither wrap changes the class modulo the word size. */
  lemma TurnModulo(h: int, p: int, c: int)
    requires h % WORD == p % WORD
    ensures ToInt32(ShiftLeft5(h) + h + c) % WORD == (33 * p + c) % WORD
  {
    var a, b := h / WORD, p / WORD;
    assert h - p == WORD * (a - b);
    var q := ShiftLeft5(h) / WORD - (h * 32) / WORD;
    assert ShiftLeft5(h) == h * 32 + WORD * q;
    var n := ShiftLeft5(h) + h + c;
    assert n == (33 * p + c) + WORD * (33 * (a - b) + q);
    AddMultiple(33 * p + c, 33 * (a - b) + q);
  }

  lemma AddMultiple(n: int, k: int)
    ensures (n + WORD * k) % WORD == n % WORD
  {
  }

  /** The loop over the code units. */
  method Hash(s: seq<CodeUnit>) returns (h: int)
    ensures h == Polynomial(s) % WORD
  {
    var h2 := SEED;
    var i := 0;
    assert s[..0] == [];
    while i < |s|
      invariant 0 <= i <= |s|
      invariant h2 % WORD == Polynomial(s[..i]) % WORD
    {
      assert s[..i + 1] == s[..i] + [s[i]];
      PolynomialAppend(s[..i], s[i]);
      TurnModulo(h2, Polynomial(s[..i]), s[i]);
      h2 := ToInt32(ShiftLeft5(h2) + h2 + s[i]);
      i := i + 1;
    }
    assert s[..|s|] == s;
    h := ToUint32(h2);
  }

  // ---- the key as text

  function DigitChar(d: nat): char
    requires d < 36
  {
    if d < 10 then '0' + d as char else 'a' + (d - 10) as char
  }

  datatype Radix = Decimal | Base36

  function Quotient(n: nat, radix: Radix): nat {
    if radix.Decimal? then n / 10 else n / 36
  }

  function Remainder(n: nat, radix: Radix): (r: nat)
    ensures r < 36
  {
    if radix.Decimal? then n % 10 else n % 36
  }

  /** A natural number in the given radix, most significant digit first. */
  function Render(n: nat, radix: Radix): (r: string)
    ensures r != "" && '.' !in r
  {
    var last := [DigitChar(Remainder(n, radix))];
    if Quotient(n, radix) == 0 then last else Render(Quotient(n, radix), radix) + last
  }

  /** The digits in the order of what they are worth. */
  const DIGITS: string := "0123456789abcdefghijklmnopqrstuvwxyz"

  /** The number that digits write in a base, the last one counting once. */
  function Read(s: string, base: nat): nat {
    if s == "" then 0 else base * Read(s[..|s| - 1], base) + WorthOf(s[|s| - 1], 0)
  }

  /** The place of a digit among the digits from `i` on; their number when it is none of them. */
  function WorthOf(c: char, i: nat): nat
    requires i <= 36
    decreases 36 - i
  {
    if i == 36 || DIGITS[i] == c then i else WorthOf(c, i + 1)
  }

  lemma {:induction false} DigitWorth(d: nat, i: nat)
    requires i <= d < 36
    ensures WorthOf(DigitChar(d), i) == d && DIGITS[d] == DigitChar(d)
    decreases d - i
  {
    DigitListed(d);
    DigitListed(i);
    if i < d {
      DigitWorth(d, i + 1);
    }
  }

  lemma DigitListed(d: nat)
    requires d < 36
    ensures DIGITS[d] == DigitChar(d)
  {
    if d < 10 {
      assert DIGITS[..10] == "0123456789";
      assert "0123456789"[d] == DigitChar(d);
    } else {
      assert DIGITS[10..] == "abcdefghijklmnopqrstuvwxyz";
      assert "abcdefghijklmnopqrstuvwxyz"[d - 10] == DigitChar(d);
    }
  }

  function Base(radix: Radix): nat {
    match radix
    case Decimal => 10
    case Base36 => 36
  }

  /** What is rendered reads back as the number, in its base, and starts with a zero only when it is zero. */
  lemma {:induction false} RenderReads(n: nat, radix: Radix)
    ensures Read(Render(n, radix), Base(radix)) == n
    ensures Render(n, radix)[0] == '0' ==> n == 0
  {
    var r := Render(n, radix);
    DigitWorth(Remainder(n, radix), 0);
    assert r[|r| - 1] == DigitChar(Remainder(n, radix));
    if Quotient(n, radix) == 0 {
      assert r[..|r| - 1] == "";
    } else {
      RenderReads(Quotient(n, radix), radix);
      assert r[..|r| - 1] == Render(Quotient(n, radix), radix);
    }
  }

  lemma {:induction false} RenderInjective(m: nat, n: nat, radix: Radix)
    requires Render(m, radix) == Render(n, radix)
    ensures m == n
  {
    var a, b := Render(m, radix), Render(n, radix);
    assert a[|a| - 1] == DigitChar(Remainder(m, radix)) && b[|b| - 1] == DigitChar(Remainder(n, radix));
    if Quotient(m, radix) != 0 && Quotient(n, radix) != 0 {
      assert a[..|a| - 1] == Render(Quotient(m, radix), radix);
      assert b[..|b| - 1] == Render(Quotient(n, radix), radix);
      RenderInjective(Quotient(m, radix), Quotient(n, radix), radix);
    }
  }

  function Key(s: seq<CodeUnit>): string {
    Render(|s|, Decimal) + "." + Render(Polynomial(s) % WORD, Base36)
  }

  method ContentKey(s: seq<CodeUnit>) returns (key: string)
    ensures key == Key(s)
  {
    var h := Hash(s);
    key := Render(|s|, Decimal) + "." + Render(h, Base36);
  }

  /** A key is two numbers with a dot between them: in base 10 the length, and in base 36 the hash. */
  lemma KeyReads(s: seq<CodeUnit>) returns (length: string, hash: string)
    ensures Key(s) == length + "." + hash && '.' !in length && '.' !in hash
    ensures Read(length, 10) == |s| && Read(hash, 36) == Polynomial(s) % 0x1_0000_0000
  {
    length, hash := Render(|s|, Decimal), Render(Polynomial(s) % WORD, Base36);
    RenderReads(|s|, Decimal);
    RenderReads(Polynomial(s) % WORD, Base36);
  }

  /** The hash starts from 5381, and one code unit is added to 33 times that. */
  lemma FirstHashes(c: CodeUnit)
    ensures Polynomial([]) == 5381
    ensures Polynomial([c]) == 33 * 5381 + c
  {
    assert [] + [c] == [c];
    PolynomialAppend([], c);
  }

  /** Two contents share a key exactly when they have the same length and congruent polynomials. */
  lemma SameKey(s: seq<CodeUnit>, t: seq<CodeUnit>)
    ensures Key(s) == Key(t) <==> |s| == |t| && Polynomial(s) % WORD == Polynomial(t) % WORD
  {
    if Key(s) == Key(t) {
      var a, b := Render(|s|, Decimal), Render(|t|, Decimal);
      var c, d := Render(Polynomial(s) % WORD, Base36), Render(Polynomial(t) % WORD, Base36);
      DotSeparates(a, c, b, d);
      RenderInjective(|s|, |t|, Decimal);
      RenderInjective(Polynomial(s) % WORD, Polynomial(t) % WORD, Base36);
    }
  }

  function FirstDot(s: string): nat {
    if s == "" || s[0] == '.' then 0 else 1 + FirstDot(s[1..])
  }

  lemma {:induction false} FirstDotAfter(a: string, c: string)
    requires '.' !in a
    ensures FirstDot(a + "." + c) == |a|
  {
    if a != "" {
      assert (a + "." + c)[1..] == a[1..] + "." + c;
      FirstDotAfter(a[1..], c);
    }
  }

  lemma DotSeparates(a: string, c: string, b: string, d: string)
    requires '.' !in a && '.' !in b && a + "." + c == b + "." + d
    ensures a == b && c == d
  {
    var whole := a + "." + c;
    FirstDotAfter(a, c);
    FirstDotAfter(b, d);
    assert whole[..|a|] == a && whole[..|b|] == b;
    assert whole[|a| + 1..] == c && whole[|b| + 1..] == d;
  }

  // ---- a change of one code unit

  /** The multiplicative inverse of 33 modulo the word size. */
  const INVERSE33: int := 1041204193

  lemma Cancel33(d: int)
    requires (33 * d) % WORD == 0
    ensures d % WORD == 0
  {
    var k := (33 * d) / WORD;
    assert 33 * d == WORD * k;
    assert 33 * INVERSE33 == 1 + 8 * WORD;
    assert INVERSE33 * (33 * d) == d + WORD * (8 * d);
    assert INVERSE33 * (WORD * k) == WORD * (INVERSE33 * k);
    AddMultiple(d, 8 * d);
    AddMultiple(0, INVERSE33 * k);
  }

  lemma {:induction false} CancelPower(d: int, n: nat)
    requires (d * Power33(n)) % WORD == 0
    ensures d % WORD == 0
  {
    if n > 0 {
      Scale(d, Power33(n - 1));
      Cancel33(d * Power33(n - 1));
      CancelPower(d, n - 1);
    }
  }

  lemma {:induction false} WeightedUpdate(s: seq<CodeUnit>, k: nat, c: CodeUnit, i: nat)
    requires k < |s| && i <= |s|
    ensures Weighted(s[k := c], i) == Weighted(s, i) + if i <= k then (c - s[k]) * Power33(|s| - 1 - k) else 0
    decreases |s| - i
  {
    if i < |s| {
      WeightedUpdate(s, k, c, i + 1);
    }
  }

  lemma MultipleOfWord(p: int, d: int)
    requires (p + d) % WORD == p % WORD
    ensures d % WORD == 0
  {
    var q := (p + d) / WORD - p / WORD;
    assert d == WORD * q;
    AddMultiple(0, q);
  }

  /** A change that is not a multiple of the word moves the remainder, whatever power of 33 it is weighted by. */
  lemma ChangeMoves(p: int, change: int, n: nat, q: int)
    requires q == p + change * Power33(n) && change % WORD != 0
    ensures q % WORD != p % WORD
  {
    if q % WORD == p % WORD {
      MultipleOfWord(p, change * Power33(n));
      CancelPower(change, n);
    }
  }

  lemma NotAMultiple(change: int)
    requires -0x1_0000 < change < 0x1_0000 && change != 0
    ensures change % WORD != 0
  {
  }

  lemma PolynomialUpdate(s: seq<CodeUnit>, k: nat, c: CodeUnit)
    requires k < |s|
    ensures Polynomial(s[k := c]) == Polynomial(s) + (c - s[k]) * Power33(|s| - 1 - k)
  {
    WeightedUpdate(s, k, c, 0);
  }

  /** Changing one code unit of a content always changes its key. */
  lemma OneEditChangesKey(s: seq<CodeUnit>, k: nat, c: CodeUnit)
    requires k < |s| && c != s[k]
    ensures Key(s[k := c]) != Key(s)
  {
    PolynomialUpdate(s, k, c);
    NotAMultiple(c - s[k]);
    ChangeMoves(Polynomial(s), c - s[k], |s| - 1 - k, Polynomial(s[k := c]));
    SameKey(s[k := c], s);
  }
}
