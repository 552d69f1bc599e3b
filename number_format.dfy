/**
 * `formatNumber` of the comment list (js/components/comment-list.js,
 * lines 263-273): like counts printed in full below 1000, otherwise
 * abbreviated to one decimal of thousands (`K`) or millions (`M`) with a
 * trailing `.0` removed.
 */
module NumberFormat {
  import opened JsValues

  const Zero: CodeUnit := '0' as int
  const Dot: CodeUnit := '.' as int
  const KiloSuffix: CodeUnit := 'K' as int
  const MegaSuffix: CodeUnit := 'M' as int

  /** The pattern `.replace('.0', '')` looks for. */
  const DotZero: JsString := [Dot, Zero]

  predicate IsDigit(c: CodeUnit) {
    Zero <= c <= Zero + 9
  }

  predicate IsDigits(s: JsString) {
    forall i :: 0 <= i < |s| ==> IsDigit(s[i])
  }

  function DigitUnit(d: nat): (c: CodeUnit)
    requires d < 10
    ensures IsDigit(c) && c - Zero == d
  {
    Zero + d
  }

  /** `Number.prototype.toString()` on a non-negative integer: its decimal digits, no leading zero. */
  function Decimal(n: nat): (r: JsString)
    ensures |r| >= 1 && IsDigits(r)
    ensures r[0] == Zero ==> n == 0
    decreases n
  {
    if n < 10 then [DigitUnit(n)] else Decimal(n / 10) + [DigitUnit(n % 10)]
  }

  /** Reads a string of decimal digits back as a number. */
  function ParseDecimal(s: JsString): (v: int)
    ensures IsDigits(s) ==> v >= 0
  {
    if s == [] then 0 else 10 * ParseDecimal(s[..|s| - 1]) + (s[|s| - 1] - Zero)
  }

  lemma {:induction false} ParseDecimalOfDecimal(n: nat)
    ensures ParseDecimal(Decimal(n)) == n
    decreases n
  {
    if n >= 10 {
      ParseDecimalOfDecimal(n / 10);
      var r := Decimal(n);
      assert r[..|r| - 1] == Decimal(n / 10);
    }
  }

  /** `x.toFixed(1)` where x is `tenths / 10`: the integer part, a dot and one digit. */
  function ToFixed1(tenths: nat): (r: JsString)
    ensures |r| >= 3 && r[|r| - 2] == Dot && IsDigit(r[|r| - 1])
    ensures IsDigits(r[..|r| - 2]) && r[0] != Dot
    ensures 10 * ParseDecimal(r[..|r| - 2]) + (r[|r| - 1] - Zero) == tenths
  {
    var whole := Decimal(tenths / 10);
    ParseDecimalOfDecimal(tenths / 10);
    var r := whole + [Dot, DigitUnit(tenths % 10)];
    assert r[..|r| - 2] == whole;
    r
  }

  /** `String.prototype.replace` with a string pattern: replaces the first occurrence only. */
  function ReplaceFirst(s: JsString, pattern: JsString, replacement: JsString): JsString
    requires |pattern| > 0
    decreases |s|
  {
    if |s| < |pattern| then s
    else if s[..|pattern|] == pattern then replacement + s[|pattern|..]
    else [s[0]] + ReplaceFirst(s[1..], pattern, replacement)
  }

  predicate OccursAt(s: JsString, pattern: JsString, i: int) {
    0 <= i && i + |pattern| <= |s| && s[i..i + |pattern|] == pattern
  }

  lemma OccursAtShift(s: JsString, pattern: JsString, i: int)
    requires |s| >= 1 && i >= 1
    ensures OccursAt(s, pattern, i) <==> OccursAt(s[1..], pattern, i - 1)
  {
    if i + |pattern| <= |s| {
      assert s[i..i + |pattern|] == s[1..][i - 1..i - 1 + |pattern|];
    }
  }

  /** `replace` with a string pattern leaves a string without the pattern alone. */
  lemma {:induction false} ReplaceFirstAbsent(s: JsString, pattern: JsString, replacement: JsString)
    requires |pattern| > 0
    requires forall i :: 0 <= i <= |s| - |pattern| ==> !OccursAt(s, pattern, i)
    ensures ReplaceFirst(s, pattern, replacement) == s
    decreases |s|
  {
    if |s| >= |pattern| {
      assert !OccursAt(s, pattern, 0);
      forall i | 0 <= i <= |s[1..]| - |pattern|
        ensures !OccursAt(s[1..], pattern, i)
      {
        OccursAtShift(s, pattern, i + 1);
      }
      ReplaceFirstAbsent(s[1..], pattern, replacement);
      assert [s[0]] + s[1..] == s;
    }
  }

  /** `replace` with a string pattern substitutes exactly the first occurrence. */
  lemma {:induction false} ReplaceFirstOccurrence(s: JsString, pattern: JsString, replacement: JsString, i: nat)
    requires |pattern| > 0
    requires OccursAt(s, pattern, i)
    requires forall j :: 0 <= j < i ==> !OccursAt(s, pattern, j)
    ensures ReplaceFirst(s, pattern, replacement) == s[..i] + replacement + s[i + |pattern|..]
    decreases |s|
  {
    if i > 0 {
      assert !OccursAt(s, pattern, 0);
      var t := s[1..];
      OccursAtShift(s, pattern, i);
      forall j | 0 <= j < i - 1
        ensures !OccursAt(t, pattern, j)
      {
        OccursAtShift(s, pattern, j + 1);
      }
      ReplaceFirstOccurrence(t, pattern, replacement, i - 1);
      assert ReplaceFirst(s, pattern, replacement) == [s[0]] + ReplaceFirst(t, pattern, replacement);
      var pre, post := t[..i - 1], t[i - 1 + |pattern|..];
      assert s[..i] == [s[0]] + pre;
      assert s[i + |pattern|..] == post;
      assert [s[0]] + (pre + replacement + post) == ([s[0]] + pre) + replacement + post;
    }
  }

  /** In digits followed by `.d`, the only place `.0` can occur is the end. */
  lemma {:induction false} ReplaceDotZeroAfterDigits(digits: JsString, d: CodeUnit)
    requires IsDigits(digits) && IsDigit(d)
    ensures ReplaceFirst(digits + [Dot, d], DotZero, []) == if d == Zero then digits else digits + [Dot, d]
    decreases |digits|
  {
    var s := digits + [Dot, d];
    if digits != [] {
      assert s[0] != Dot;
      assert s[1..] == digits[1..] + [Dot, d];
      ReplaceDotZeroAfterDigits(digits[1..], d);
      assert [digits[0]] + digits[1..] == digits;
      assert [digits[0]] + (digits[1..] + [Dot, d]) == digits + [Dot, d];
    } else {
      assert s == [Dot, d];
      assert s[..2] == s;
    }
  }

  /** `Math.round`-style rounding of n to a multiple of step, halves upward. */
  function RoundToStep(n: nat, step: nat): (q: nat)
    requires step > 0 && step % 2 == 0
    ensures q * step <= n + step / 2 < q * step + step
  {
    (n + step / 2) / step
  }

  /** The abbreviated label for `n` counted in tenths of a unit of `10 * step`. */
  function Abbreviate(n: nat, step: nat, suffix: CodeUnit): JsString
    requires step > 0 && step % 2 == 0
  {
    ReplaceFirst(ToFixed1(RoundToStep(n, step)), DotZero, []) + [suffix]
  }

  /** `formatNumber(num)` for a like count. */
  function FormatNumber(n: nat): (r: JsString)
    ensures |r| >= 1
    ensures n < 1000 ==> IsDigits(r) && ParseDecimal(r) == n
    ensures 1000 <= n < 1000000 ==> r[|r| - 1] == KiloSuffix
    ensures n >= 1000000 ==> r[|r| - 1] == MegaSuffix
  {
    ParseDecimalOfDecimal(n);
    if n >= 1000000 then Abbreviate(n, 100000, MegaSuffix)
    else if n >= 1000 then Abbreviate(n, 100, KiloSuffix)
    else Decimal(n)
  }

  /** No `.0` anywhere in a string. */
  predicate NoDotZero(s: JsString) {
    forall i :: 0 <= i < |s| - 1 ==> !(s[i] == Dot && s[i + 1] == Zero)
  }

  /** Reads an abbreviated label back as a count of tenths of its unit. */
  function DisplayedTenths(r: JsString): Option<nat> {
    if |r| < 2 then None
    else
      var body := r[..|r| - 1];
      if |body| >= 2 && body[|body| - 2] == Dot then
        var whole := body[..|body| - 2];
        if whole != [] && IsDigits(whole) && IsDigit(body[|body| - 1])
        then Some(10 * ParseDecimal(whole) + (body[|body| - 1] - Zero))
        else None
      else if IsDigits(body) then Some(10 * ParseDecimal(body))
      else None
  }

  /** The shape of an abbreviated label: digits, then `.d` with d nonzero or nothing, then the suffix. */
  lemma AbbreviateShape(n: nat, step: nat, suffix: CodeUnit)
    requires step > 0 && step % 2 == 0
    ensures var q := RoundToStep(n, step);
            Abbreviate(n, step, suffix) ==
              Decimal(q / 10) + (if q % 10 == 0 then [] else [Dot, DigitUnit(q % 10)]) + [suffix]
  {
    var q := RoundToStep(n, step);
    ReplaceDotZeroAfterDigits(Decimal(q / 10), DigitUnit(q % 10));
  }

  /** Below 1000 the label is exactly the decimal numeral of n. */
  lemma FormatNumberSmall(n: nat)
    requires n < 1000
    ensures var r := FormatNumber(n);
            IsDigits(r) && ParseDecimal(r) == n && (r[0] == Zero ==> r == [Zero])
  {
    ParseDecimalOfDecimal(n);
  }

  /** No label contains `.0`: the trailing `.0` of `toFixed(1)` is always removed. */
  lemma FormatNumberNoDotZero(n: nat)
    ensures NoDotZero(FormatNumber(n))
  {
    if n >= 1000 {
      var step := if n >= 1000000 then 100000 else 100;
      var suffix := if n >= 1000000 then MegaSuffix else KiloSuffix;
      AbbreviateShape(n, step, suffix);
      var q := RoundToStep(n, step);
      var d := Decimal(q / 10);
      var r := FormatNumber(n);
      assert r == d + (if q % 10 == 0 then [] else [Dot, DigitUnit(q % 10)]) + [suffix];
      forall i | 0 <= i < |r| - 1
        ensures !(r[i] == Dot && r[i + 1] == Zero)
      {
        if i < |d| {
          assert IsDigit(r[i]);
        }
      }
    }
  }

  /** Reading an abbreviated label back gives n rounded to the nearest tenth of the unit. */
  lemma FormatNumberRounds(n: nat)
    requires n >= 1000
    ensures var step := if n >= 1000000 then 100000 else 100;
            var t := DisplayedTenths(FormatNumber(n));
            t.Some? && t.value * step <= n + step / 2 < t.value * step + step
  {
    var step := if n >= 1000000 then 100000 else 100;
    var suffix := if n >= 1000000 then MegaSuffix else KiloSuffix;
    AbbreviateShape(n, step, suffix);
    var q := RoundToStep(n, step);
    var d := Decimal(q / 10);
    ParseDecimalOfDecimal(q / 10);
    var r := FormatNumber(n);
    var body := r[..|r| - 1];
    if q % 10 == 0 {
      assert body == d;
      assert |body| >= 2 ==> IsDigit(body[|body| - 2]);
      assert DisplayedTenths(r) == Some(10 * (q / 10));
    } else {
      assert body == d + [Dot, DigitUnit(q % 10)];
      assert body[..|body| - 2] == d;
      assert DisplayedTenths(r) == Some(10 * (q / 10) + q % 10);
    }
  }

  /** Examples: a count below 1000 prints in full; 1000 and 1500 are thousands; two
      million is millions. */
  lemma FormatNumberOf999()
    ensures FormatNumber(999) == Lit("999")
  {
    assert Decimal(999) == Decimal(99) + [DigitUnit(9)];
  }

  lemma FormatNumberOf1000()
    ensures FormatNumber(1000) == Lit("1K")
  {
    AbbreviateShape(1000, 100, KiloSuffix);
  }

  lemma FormatNumberOf1500()
    ensures FormatNumber(1500) == Lit("1.5K")
  {
    AbbreviateShape(1500, 100, KiloSuffix);
  }

  lemma FormatNumberOf2000000()
    ensures FormatNumber(2000000) == Lit("2M")
  {
    AbbreviateShape(2000000, 100000, MegaSuffix);
  }

  /** Just below a million the label rounds up to `1000K` rather than switching to `M`. */
  lemma FormatNumberJustBelowMillion(n: nat)
    requires 999950 < n < 1000000
    ensures FormatNumber(n) == Lit("1000K")
  {
    AbbreviateShape(n, 100, KiloSuffix);
    assert RoundToStep(n, 100) == 10000;
    assert Decimal(1000) == Decimal(100) + [Zero];
    assert Decimal(100) == Decimal(10) + [Zero];
  }
}
