/**
 * The amount reader of the checkout review page
 * (page-objects/checkout-step-two.page.ts). `getSubtotal`, `getTax` and
 * `getTotal` each take the text of one summary label, replace a missing or
 * empty text by "0", look for the leftmost match of the regular expression
 * `/\$(\d+\.\d+)/` and return the captured number, or 0 when nothing matches.
 *
 * The model keeps the captured number exact, as a decimal mantissa with a
 * count of fractional digits, instead of the float `parseFloat` returns.
 */
module CheckoutStepTwo {

  /** What `textContent()` returns: a string, or null. */
  datatype Option<T> = None | Some(value: T)

  /** An exact decimal amount, `mantissa / 10^scale`. */
  datatype Decimal = Decimal(mantissa: nat, scale: nat)

  /** The getters' fallback `0`. */
  const Zero: Decimal := Decimal(0, 0)

  function Pow10(n: nat): (p: nat)
    ensures p >= 1
  {
    if n == 0 then 1 else 10 * Pow10(n - 1)
  }

  /** The number a decimal denotes. */
  function Value(d: Decimal): real {
    d.mantissa as real / Pow10(d.scale) as real
  }

  // ------------------------------------------------------------------
  // Digit strings
  // ------------------------------------------------------------------

  /** The class `\d`: ASCII decimal digits only. */
  predicate IsDigit(c: char) {
    '0' <= c <= '9'
  }

  predicate AllDigits(s: string) {
    forall i :: 0 <= i < |s| ==> IsDigit(s[i])
  }

  function DigitValue(c: char): nat
    requires IsDigit(c)
  {
    c as int - '0' as int
  }

  function DigitChar(n: nat): (c: char)
    requires n < 10
    ensures IsDigit(c) && DigitValue(c) == n
  {
    ('0' as int + n) as char
  }

  /** The number a string of decimal digits denotes (0 for the empty string). */
  function DigitsValue(s: string): nat
    requires AllDigits(s)
  {
    if s == [] then 0 else DigitsValue(s[..|s| - 1]) * 10 + DigitValue(s[|s| - 1])
  }

  /** Reading two digit strings one after the other shifts the first by the length of the second. */
  lemma {:induction false} DigitsValueAppend(a: string, b: string)
    requires AllDigits(a) && AllDigits(b)
    ensures AllDigits(a + b)
    ensures DigitsValue(a + b) == DigitsValue(a) * Pow10(|b|) + DigitsValue(b)
    decreases |b|
  {
    if b == [] {
      assert a + b == a;
    } else {
      var b' := b[..|b| - 1];
      assert (a + b)[..|a + b| - 1] == a + b';
      assert (a + b)[|a + b| - 1] == b[|b| - 1];
      assert b[..|b| - 1] == b';
      DigitsValueAppend(a, b');
      var x, p, y, d := DigitsValue(a), Pow10(|b'|), DigitsValue(b'), DigitValue(b[|b| - 1]);
      assert DigitsValue(a + b) == DigitsValue(a + b') * 10 + d;
      assert DigitsValue(b) == y * 10 + d;
      assert Pow10(|b|) == p * 10;
      ShiftDigit(x, p, y, d);
    }
  }

  lemma ShiftDigit(x: int, p: int, y: int, d: int)
    ensures (x * p + y) * 10 + d == x * (p * 10) + (y * 10 + d)
  {
  }

  /**
   * Length of the longest run of digits starting at `i`: what a greedy
   * `\d+` consumes there (0 when `s[i]` is not a digit).
   */
  function DigitRun(s: string, i: nat): (n: nat)
    requires i <= |s|
    ensures i + n <= |s|
    ensures AllDigits(s[i..i + n])
    ensures i + n == |s| || !IsDigit(s[i + n])
    decreases |s| - i
  {
    if i < |s| && IsDigit(s[i]) then
      var rest := DigitRun(s, i + 1);
      assert s[i..i + 1 + rest] == [s[i]] + s[i + 1..i + 1 + rest];
      1 + rest
    else 0
  }

  /** A run of `n` digits that is followed by a non-digit or the end is the run `DigitRun` finds. */
  lemma {:induction false} DigitRunExact(s: string, i: nat, n: nat)
    requires i + n <= |s|
    requires forall k :: i <= k < i + n ==> IsDigit(s[k])
    requires i + n == |s| || !IsDigit(s[i + n])
    ensures DigitRun(s, i) == n
    decreases n
  {
    if n > 0 {
      DigitRunExact(s, i + 1, n - 1);
    }
  }

  // ------------------------------------------------------------------
  // The regular expression `/\$(\d+\.\d+)/`
  // ------------------------------------------------------------------

  /** `g` is digits, a point at `k`, digits, each part non-empty. */
  predicate PointAt(g: string, k: nat) {
    0 < k < |g| - 1 && g[k] == '.' && AllDigits(g[..k]) && AllDigits(g[k + 1..])
  }

  /** The shape of the capture group `\d+\.\d+`. */
  predicate IsAmountText(g: string) {
    exists k: nat :: k < |g| && PointAt(g, k)
  }

  /**
   * The match JavaScript reports at position `p` with capture `g`: a '$' at
   * `p`, then `g`, which has the capture's shape, and after it no further
   * digit (the second `\d+` is greedy).
   */
  predicate MatchesAt(s: string, p: nat, g: string) {
    p + 1 + |g| <= |s| && s[p] == '$' && s[p + 1..p + 1 + |g|] == g && IsAmountText(g)
    && (p + 1 + |g| == |s| || !IsDigit(s[p + 1 + |g|]))
  }

  /**
   * Attempt the pattern at position `p`. Backtracking cannot help the first
   * `\d+`: giving back a digit leaves a digit where the point must be. So the
   * pattern matches at `p` exactly when the longest digit run after the '$'
   * is followed by a point and a non-empty digit run.
   */
  function MatchAt(s: string, p: nat): (m: Option<string>)
    requires p <= |s|
    ensures m.Some? ==> p < |s| && s[p] == '$'
  {
    if p < |s| && s[p] == '$' then
      var whole := DigitRun(s, p + 1);
      var dot := p + 1 + whole;
      if whole > 0 && dot < |s| && s[dot] == '.' then
        var frac := DigitRun(s, dot + 1);
        if frac > 0 then Some(s[p + 1..dot + 1 + frac]) else None
      else None
    else None
  }

  /** `MatchAt` reports only real matches. */
  lemma MatchAtSound(s: string, p: nat)
    requires p <= |s| && MatchAt(s, p).Some?
    ensures MatchesAt(s, p, MatchAt(s, p).value)
  {
    var whole := DigitRun(s, p + 1);
    var dot := p + 1 + whole;
    var frac := DigitRun(s, dot + 1);
    var end := dot + 1 + frac;
    var g := s[p + 1..end];
    assert MatchAt(s, p) == Some(g);
    assert g[..whole] == s[p + 1..dot];
    assert g[whole + 1..] == s[dot + 1..end];
    assert g[whole] == s[dot] == '.';
    assert PointAt(g, whole);
    assert end == p + 1 + |g|;
  }

  /** A slice is all digits exactly when every position it covers holds a digit. */
  lemma AllDigitsSlice(s: string, lo: nat, hi: nat)
    requires lo <= hi <= |s|
    ensures AllDigits(s[lo..hi]) <==> forall j :: lo <= j < hi ==> IsDigit(s[j])
  {
    if AllDigits(s[lo..hi]) {
      forall j | lo <= j < hi ensures IsDigit(s[j]) {
        assert s[j] == s[lo..hi][j - lo];
      }
    }
  }

  /** A digit slice that ends where the digits stop is the run `DigitRun` finds from its start. */
  lemma RunOfSlice(s: string, lo: nat, hi: nat)
    requires lo <= hi <= |s| && AllDigits(s[lo..hi])
    requires hi == |s| || !IsDigit(s[hi])
    ensures DigitRun(s, lo) == hi - lo
  {
    AllDigitsSlice(s, lo, hi);
    DigitRunExact(s, lo, hi - lo);
  }

  /** When the runs around a point after a '$' are known, `MatchAt` captures them. */
  lemma MatchAtOfRuns(s: string, p: nat, whole: nat, frac: nat, g: string)
    requires p + 1 + whole < |s| && s[p] == '$' && s[p + 1 + whole] == '.'
    requires whole > 0 && frac > 0 && p + 1 + whole + 1 + frac <= |s|
    requires DigitRun(s, p + 1) == whole && DigitRun(s, p + 1 + whole + 1) == frac
    requires s[p + 1..p + 1 + whole + 1 + frac] == g
    ensures MatchAt(s, p) == Some(g)
  {
  }

  /** `MatchAt` misses no match: whenever the pattern matches at `p`, it reports that match. */
  lemma MatchAtComplete(s: string, p: nat, g: string)
    requires p <= |s| && MatchesAt(s, p, g)
    ensures MatchAt(s, p) == Some(g)
  {
    var k: nat :| k < |g| && PointAt(g, k);
    MatchWithPointAt(s, p, g, k);
  }

  /** `MatchAtComplete` for a capture whose point is known to be at `k`. */
  lemma MatchWithPointAt(s: string, p: nat, g: string, k: nat)
    requires p + 1 + |g| <= |s| && s[p] == '$' && s[p + 1..p + 1 + |g|] == g && PointAt(g, k)
    requires p + 1 + |g| == |s| || !IsDigit(s[p + 1 + |g|])
    ensures MatchAt(s, p) == Some(g)
  {
    WholeRun(s, p + 1, g, k);
    FractionRun(s, p + 1, g, k);
    assert p + 1 + k + 1 + (|g| - k - 1) == p + 1 + |g|;
    MatchAtOfRuns(s, p, k, |g| - k - 1, g);
  }

  /** Inside a copy of `g` at `off`, the run of digits before the point is `g[..k]`. */
  lemma WholeRun(s: string, off: nat, g: string, k: nat)
    requires off + |g| <= |s| && s[off..off + |g|] == g && PointAt(g, k)
    ensures s[off + k] == '.'
    ensures DigitRun(s, off) == k
  {
    assert s[off..off + k] == g[..k];
    assert s[off + k] == g[k];
    RunOfSlice(s, off, off + k);
  }

  /** Inside a copy of `g` at `off` followed by no digit, the run after the point is `g[k + 1..]`. */
  lemma FractionRun(s: string, off: nat, g: string, k: nat)
    requires off + |g| <= |s| && s[off..off + |g|] == g && PointAt(g, k)
    requires off + |g| == |s| || !IsDigit(s[off + |g|])
    ensures DigitRun(s, off + k + 1) == |g| - k - 1
  {
    assert s[off + k + 1..off + |g|] == g[k + 1..];
    RunOfSlice(s, off + k + 1, off + |g|);
  }

  /** A match: where its '$' is and the text of its capture group. */
  datatype Match = Match(start: nat, group: string)

  /**
   * `text.match(re)` for a regular expression without the `g` flag: the
   * match that starts leftmost at or after `from`.
   */
  function Search(s: string, from: nat): (m: Option<Match>)
    requires from <= |s|
    ensures m.Some? ==> from <= m.value.start <= |s| && MatchAt(s, m.value.start) == Some(m.value.group)
    ensures forall q :: from <= q <= |s| && (m.None? || q < m.value.start) ==> MatchAt(s, q).None?
    decreases |s| - from
  {
    match MatchAt(s, from)
    case Some(g) => Some(Match(from, g))
    case None => if from == |s| then None else Search(s, from + 1)
  }

  /** No match starts before position `p`. */
  predicate NoMatchBefore(s: string, p: nat) {
    forall q :: 0 <= q < p && q <= |s| ==> MatchAt(s, q).None?
  }

  /** A match at `p` with none before it is the one `Search` returns. */
  lemma SearchFindsLeftmost(s: string, p: nat, g: string)
    requires p <= |s| && MatchAt(s, p) == Some(g) && NoMatchBefore(s, p)
    ensures Search(s, 0) == Some(Match(p, g))
  {
    var m := Search(s, 0);
    assert m.Some?;
    assert m.value.start == p;
  }

  /** Positions that hold no '$' start no match. */
  lemma NoDollarNoMatch(s: string, p: nat)
    requires p <= |s|
    requires forall q :: 0 <= q < p ==> s[q] != '$'
    ensures NoMatchBefore(s, p)
  {
  }

  // ------------------------------------------------------------------
  // `parseFloat(match[1])` and the getters
  // ------------------------------------------------------------------

  /** The number the capture group denotes, kept exact: all its digits, and as many fractional digits as follow the point. */
  function ParseDecimal(g: string): (d: Decimal)
    requires IsAmountText(g)
    ensures 1 <= d.scale < |g| - 1
  {
    var k := DigitRun(g, 0);
    assert PointAt(g, k) by {
      var j: nat :| j < |g| && PointAt(g, j);
      AllDigitsSlice(g, 0, j);
      DigitRunExact(g, 0, j);
    }
    DigitsValueAppend(g[..k], g[k + 1..]);
    Decimal(DigitsValue(g[..k] + g[k + 1..]), |g| - k - 1)
  }

  /** The decimal literal `a.b` denotes `a + b / 10^|b|`. */
  lemma ParseDecimalSplit(a: string, b: string)
    requires |a| > 0 && |b| > 0 && AllDigits(a) && AllDigits(b)
    ensures IsAmountText(a + "." + b)
    ensures ParseDecimal(a + "." + b) == Decimal(DigitsValue(a) * Pow10(|b|) + DigitsValue(b), |b|)
  {
    var g := a + "." + b;
    assert g[..|a|] == a && g[|a| + 1..] == b && g[|a|] == '.';
    assert PointAt(g, |a|);
    AllDigitsSlice(g, 0, |a|);
    DigitRunExact(g, 0, |a|);
    DigitsValueAppend(a, b);
  }

  /** The decimal with integer part `x` and `n` fractional digits `y` denotes `x + y / 10^n`. */
  lemma DecimalValue(x: nat, y: nat, n: nat)
    ensures Value(Decimal(x * Pow10(n) + y, n)) == x as real + y as real / Pow10(n) as real
  {
    ShiftedFraction(x, y, Pow10(n));
  }

  lemma ShiftedFraction(x: int, y: int, p: int)
    requires p > 0
    ensures (x * p + y) as real / p as real == x as real + y as real / p as real
  {
    var P := p as real;
    assert (x * p) as real == x as real * P;
    assert (x as real * P + y as real) / P == x as real + y as real / P;
  }

  /**
   * `textContent() || "0"`: null and the empty string become "0". The text
   * scanned is never empty, and it holds a '$' exactly when the label did.
   */
  function TextOrZero(text: Option<string>): (t: string)
    ensures |t| > 0
    ensures '$' in t <==> text.Some? && '$' in text.value
  {
    if text.None? || text.value == [] then "0" else text.value
  }

  /**
   * The rule shared by `getSubtotal`, `getTax` and `getTotal`: the leftmost
   * dollar amount in the label's text, or 0. It never fails, and a result
   * other than 0 comes from a '$' in a non-empty text.
   */
  function ExtractAmount(text: Option<string>): (d: Decimal)
    ensures d == Zero || (d.scale >= 1 && text.Some? && '$' in text.value)
  {
    var t := TextOrZero(text);
    match Search(t, 0)
    case None => Zero
    case Some(m) =>
      MatchAtSound(t, m.start);
      ParseDecimal(m.group)
  }

  // ------------------------------------------------------------------
  // Properties of the rule
  // ------------------------------------------------------------------

  /** The result is 0 exactly when the pattern matches nowhere in the text scanned. */
  lemma ZeroIffNoMatch(text: Option<string>)
    ensures var t := TextOrZero(text);
      ExtractAmount(text) == Zero <==> forall p :: 0 <= p <= |t| ==> MatchAt(t, p).None?
  {
    var t := TextOrZero(text);
    match Search(t, 0)
    case None =>
    case Some(m) =>
      assert MatchAt(t, m.start).Some?;
  }

  /** A missing label, an empty label and a text with no '$' all read as 0. */
  lemma NoDollarIsZero(text: Option<string>)
    requires text.Some? ==> '$' !in text.value
    ensures ExtractAmount(text) == Zero
  {
    var t := TextOrZero(text);
    assert '$' !in t;
    forall p | 0 <= p <= |t| ensures MatchAt(t, p).None? {
      if p < |t| {
        assert t[p] in t;
      }
    }
    ZeroIffNoMatch(text);
  }

  /** The pattern accepts no sign, so no label reads as a negative amount. */
  lemma ExtractNeverNegative(text: Option<string>)
    ensures Value(ExtractAmount(text)) >= 0.0
  {
    ValueNonNegative(ExtractAmount(text));
  }

  /** A decimal has no sign: its value is never negative. */
  lemma ValueNonNegative(d: Decimal)
    ensures Value(d) >= 0.0
  {
    assert Pow10(d.scale) as real >= 1.0;
  }

  /** When the leftmost match in a non-empty text captures `g`, the getters read `g`. */
  lemma ExtractLeftmost(s: string, p: nat, g: string)
    requires p <= |s| && MatchesAt(s, p, g) && NoMatchBefore(s, p)
    ensures ExtractAmount(Some(s)) == ParseDecimal(g)
  {
    MatchAtComplete(s, p, g);
    SearchFindsLeftmost(s, p, g);
  }

  /** `$a.b` followed by a non-digit or the end is a match at its '$'. */
  lemma DollarAmountMatches(prefix: string, a: string, b: string, suffix: string)
    requires |a| > 0 && |b| > 0 && AllDigits(a) && AllDigits(b)
    requires suffix == [] || !IsDigit(suffix[0])
    ensures MatchesAt(prefix + "$" + a + "." + b + suffix, |prefix|, a + "." + b)
  {
    var g := a + "." + b;
    var s := prefix + "$" + a + "." + b + suffix;
    assert s == prefix + "$" + g + suffix;
    var p := |prefix|;
    assert s[p + 1..p + 1 + |g|] == g;
    assert g[..|a|] == a && g[|a| + 1..] == b && g[|a|] == '.';
    assert PointAt(g, |a|);
    assert p + 1 + |g| == |s| || s[p + 1 + |g|] == suffix[0];
  }

  /**
   * When the first match in a text is `$a.b`, the getters read `a.b`
   * exactly: whatever precedes it is skipped and amounts after it are
   * ignored.
   */
  lemma ExtractFirstAmount(prefix: string, a: string, b: string, suffix: string)
    requires |a| > 0 && |b| > 0 && AllDigits(a) && AllDigits(b)
    requires suffix == [] || !IsDigit(suffix[0])
    requires NoMatchBefore(prefix + "$" + a + "." + b + suffix, |prefix|)
    ensures ExtractAmount(Some(prefix + "$" + a + "." + b + suffix))
            == Decimal(DigitsValue(a) * Pow10(|b|) + DigitsValue(b), |b|)
  {
    DollarAmountMatches(prefix, a, b, suffix);
    ExtractLeftmost(prefix + "$" + a + "." + b + suffix, |prefix|, a + "." + b);
    ParseDecimalSplit(a, b);
  }

  /** Text without any '$' in front of `$a.b` is label text the getters skip. */
  lemma LabelIsSkipped(prefix: string, a: string, b: string, suffix: string)
    requires |a| > 0 && |b| > 0 && AllDigits(a) && AllDigits(b)
    requires suffix == [] || !IsDigit(suffix[0])
    requires '$' !in prefix
    ensures ExtractAmount(Some(prefix + "$" + a + "." + b + suffix))
            == Decimal(DigitsValue(a) * Pow10(|b|) + DigitsValue(b), |b|)
  {
    var s := prefix + "$" + a + "." + b + suffix;
    forall q | 0 <= q < |prefix| ensures s[q] != '$' {
      assert s[q] == prefix[q] && prefix[q] in prefix;
    }
    NoDollarNoMatch(s, |prefix|);
    ExtractFirstAmount(prefix, a, b, suffix);
  }

  /**
   * A '$' followed by digits and then neither a point nor a digit does not
   * match there; the scan moves on past those digits.
   */
  lemma DollarWithoutFractionSkipped(s: string, p: nat, n: nat)
    requires 0 < n && p + 1 + n <= |s| && s[p] == '$'
    requires forall k :: p + 1 <= k < p + 1 + n ==> IsDigit(s[k])
    requires p + 1 + n == |s| || (s[p + 1 + n] != '.' && !IsDigit(s[p + 1 + n]))
    ensures MatchAt(s, p).None?
    ensures Search(s, p) == Search(s, p + 1 + n)
  {
    assert MatchAt(s, p).None? by {
      DigitRunExact(s, p + 1, n);
    }
    assert Search(s, p) == Search(s, p + 1 + n) by {
      forall q | p + 1 <= q < p + 1 + n ensures MatchAt(s, q).None? {
        assert IsDigit(s[q]);
      }
      SearchSkips(s, p, p + 1 + n);
    }
  }

  /** Positions where nothing matches do not change what the scan finds. */
  lemma {:induction false} SearchSkips(s: string, from: nat, to: nat)
    requires from <= to <= |s|
    requires forall q :: from <= q < to ==> MatchAt(s, q).None?
    ensures Search(s, from) == Search(s, to)
    decreases |s| - from
  {
    if from < to {
      SearchSkips(s, from + 1, to);
      assert Search(s, from) == Search(s, from + 1) by {
        assert MatchAt(s, from).None?;
      }
    }
  }

  // ------------------------------------------------------------------
  // The round trip with the storefront's price format
  // ------------------------------------------------------------------

  /** The shortest decimal numeral of `n`. */
  function Digits(n: nat): (s: string)
    ensures |s| > 0 && AllDigits(s) && DigitsValue(s) == n
    decreases n
  {
    if n < 10 then
      var s := [DigitChar(n)];
      assert s[..0] == [];
      s
    else
      var init := Digits(n / 10);
      var s := init + [DigitChar(n % 10)];
      assert s[..|s| - 1] == init;
      s
  }

  /** `m` without its last `k` decimal digits: `m / 10^k`, one digit at a time. */
  function High(m: nat, k: nat): nat {
    if k == 0 then m else High(m / 10, k - 1)
  }

  /** The last `k` decimal digits of `m` as a number: `m % 10^k`, one digit at a time. */
  function Low(m: nat, k: nat): nat {
    if k == 0 then 0 else Low(m / 10, k - 1) * 10 + m % 10
  }

  /** Cutting `m` after its last `k` digits and joining the parts again gives `m` back. */
  lemma {:induction false} HighLow(m: nat, k: nat)
    ensures High(m, k) * Pow10(k) + Low(m, k) == m
    ensures Low(m, k) < Pow10(k)
  {
    if k > 0 {
      HighLow(m / 10, k - 1);
      var h, l, p := High(m / 10, k - 1), Low(m / 10, k - 1), Pow10(k - 1);
      calc {
        High(m, k) * Pow10(k) + Low(m, k);
        h * (10 * p) + (l * 10 + m % 10);
        (h * p + l) * 10 + m % 10;
        (m / 10) * 10 + m % 10;
        m;
      }
    }
  }

  /** The last `w` digits of `m`, with leading zeros: exactly `w` digits. */
  function PadDigits(m: nat, w: nat): (s: string)
    ensures |s| == w && AllDigits(s) && DigitsValue(s) == Low(m, w)
  {
    if w == 0 then []
    else
      var init := PadDigits(m / 10, w - 1);
      var s := init + [DigitChar(m % 10)];
      assert s[..|s| - 1] == init;
      s
  }

  /** How the storefront prints an amount with `scale` fractional digits, without the '$'. */
  function Render(d: Decimal): (s: string)
    requires d.scale >= 1
    ensures IsAmountText(s)
  {
    var whole := Digits(High(d.mantissa, d.scale));
    var frac := PadDigits(d.mantissa, d.scale);
    var s := whole + "." + frac;
    assert s[..|whole|] == whole && s[|whole| + 1..] == frac && s[|whole|] == '.';
    assert PointAt(s, |whole|);
    s
  }

  /** Parsing a printed amount gives the amount back. */
  lemma RenderRoundTrip(d: Decimal)
    requires d.scale >= 1
    ensures ParseDecimal(Render(d)) == d
  {
    var whole := Digits(High(d.mantissa, d.scale));
    var frac := PadDigits(d.mantissa, d.scale);
    assert Render(d) == whole + "." + frac;
    ParseDecimalSplit(whole, frac);
    HighLow(d.mantissa, d.scale);
  }

  /** A printed amount behind a '$', after label text, is read back exactly. */
  lemma ExtractRendered(prefix: string, d: Decimal, suffix: string)
    requires d.scale >= 1
    requires '$' !in prefix
    requires suffix == [] || !IsDigit(suffix[0])
    ensures ExtractAmount(Some(prefix + "$" + Render(d) + suffix)) == d
  {
    var whole := Digits(High(d.mantissa, d.scale));
    var frac := PadDigits(d.mantissa, d.scale);
    assert Render(d) == whole + "." + frac;
    assert prefix + "$" + Render(d) + suffix == prefix + "$" + whole + "." + frac + suffix;
    LabelIsSkipped(prefix, whole, frac, suffix);
    ParseDecimalSplit(whole, frac);
    RenderRoundTrip(d);
  }

  // ------------------------------------------------------------------
  // The texts the page shows
  // ------------------------------------------------------------------

  /** The value of a numeral of one or two digits. */
  lemma ShortNumeral(s: string)
    requires 1 <= |s| <= 2 && AllDigits(s)
    ensures DigitsValue(s) == if |s| == 1 then DigitValue(s[0]) else 10 * DigitValue(s[0]) + DigitValue(s[1])
  {
    assert s[..|s| - 1][..0] == [];
    if |s| == 2 {
      assert s[..1][..0] == [] && s[..1][0] == s[0];
    }
  }

  /** The mantissa of `a.b` for short numerals `a` and `b`. */
  lemma NumeralPair(a: string, b: string, m: nat)
    requires 1 <= |a| <= 2 && 1 <= |b| <= 2 && AllDigits(a) && AllDigits(b)
    requires m == (if |a| == 1 then DigitValue(a[0]) else 10 * DigitValue(a[0]) + DigitValue(a[1])) * Pow10(|b|)
                 + (if |b| == 1 then DigitValue(b[0]) else 10 * DigitValue(b[0]) + DigitValue(b[1]))
    ensures DigitsValue(a) * Pow10(|b|) + DigitsValue(b) == m
  {
    ShortNumeral(a);
    ShortNumeral(b);
  }

  /** The example in the source's comment: `"$12.34"` reads as 12.34. */
  lemma CommentExample()
    ensures ExtractAmount(Some("$12.34")) == Decimal(1234, 2)
  {
    NumeralPair("12", "34", 1234);
    assert "" + "$" + "12" + "." + "34" + "" == "$12.34";
    LabelIsSkipped("", "12", "34", "");
  }

  /** The decimal read from `"$12.34"` is exactly 12.34. */
  lemma CommentExampleValue()
    ensures Value(Decimal(1234, 2)) == 12.34
  {
    assert Pow10(2) == 100;
  }

  /** The subtotal label's caption is skipped. */
  lemma SubtotalLabelExample()
    ensures ExtractAmount(Some("Item total: $29.99")) == Decimal(2999, 2)
  {
    NumeralPair("29", "99", 2999);
    assert "Item total: " + "$" + "29" + "." + "99" + "" == "Item total: $29.99";
    LabelIsSkipped("Item total: ", "29", "99", "");
  }

  /** Of two amounts, the leftmost is read. */
  lemma LeftmostExample()
    ensures ExtractAmount(Some("Tax: $2.40 Total: $32.39")) == Decimal(240, 2)
  {
    NumeralPair("2", "40", 240);
    assert "Tax: " + "$" + "2" + "." + "40" + " Total: $32.39" == "Tax: $2.40 Total: $32.39";
    LabelIsSkipped("Tax: ", "2", "40", " Total: $32.39");
  }

  /** `"$12"` has no fractional part and reads as 0. */
  lemma WholeDollarsExample()
    ensures ExtractAmount(Some("$12")) == Zero
  {
    var t := "$12";
    assert Search(t, 0) == None by {
      DollarWithoutFractionSkipped(t, 0, 2);
      assert Search(t, 3) == None;
    }
    assert TextOrZero(Some(t)) == t;
  }

  /** After a '$' without a fractional part, a later amount is still found. */
  lemma LaterAmountExample()
    ensures ExtractAmount(Some("$12 or $3.45")) == Decimal(345, 2)
  {
    NumeralPair("3", "45", 345);
    assert "$12 or " + "$" + "3" + "." + "45" + "" == "$12 or $3.45";
    LaterAmountNoEarlierMatch();
    ExtractFirstAmount("$12 or ", "3", "45", "");
  }

  lemma LaterAmountNoEarlierMatch()
    ensures NoMatchBefore("$12 or $3.45", 7)
  {
    var s := "$12 or $3.45";
    forall q | 0 <= q < 7 ensures MatchAt(s, q).None? {
      if q == 0 {
        DollarWithoutFractionSkipped(s, 0, 2);
      } else {
        assert s[q] != '$';
      }
    }
  }

  /**
   * A matched amount of zero is not the fallback: `"$0.00"` reads as two
   * fractional digits of zero, yet its value is 0 like the fallback's.
   */
  lemma ZeroAmountExample()
    ensures ExtractAmount(Some("$0.00")) == Decimal(0, 2) != Zero
  {
    NumeralPair("0", "00", 0);
    assert "" + "$" + "0" + "." + "00" + "" == "$0.00";
    LabelIsSkipped("", "0", "00", "");
  }

  /** The number the getters return cannot tell that zero amount from the fallback. */
  lemma ZeroAmountValue()
    ensures Value(Decimal(0, 2)) == Value(Zero) == 0.0
  {
  }

  /** A minus sign before the '$' is label text: `"-$5.00"` reads as 5.00. */
  lemma SignBeforeDollarExample()
    ensures ExtractAmount(Some("-$5.00")) == Decimal(500, 2)
  {
    NumeralPair("5", "00", 500);
    assert "-" + "$" + "5" + "." + "00" + "" == "-$5.00";
    LabelIsSkipped("-", "5", "00", "");
  }

  /** A minus sign after the '$' stops the match: `"$-5.00"` reads as the fallback. */
  lemma SignAfterDollarExample()
    ensures ExtractAmount(Some("$-5.00")) == Zero
  {
    var s := "$-5.00";
    assert MatchAt(s, 0).None? by {
      DigitRunExact(s, 1, 0);
    }
    assert Search(s, 0) == None by {
      forall q | 1 <= q < |s| ensures MatchAt(s, q).None? {
        assert s[q] != '$';
      }
      SearchSkips(s, 0, |s|);
    }
    assert TextOrZero(Some(s)) == s;
  }

  /** A missing label and an empty label both read as 0. */
  lemma MissingLabelExample()
    ensures ExtractAmount(None) == Zero
    ensures ExtractAmount(Some("")) == Zero
  {
    NoDollarIsZero(None);
    NoDollarIsZero(Some(""));
  }
}
