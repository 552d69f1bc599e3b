/**
 * JavaScript values the component works with: strings as sequences of
 * UTF-16 code units, the signed 32-bit conversion used by the bitwise
 * operators, and optional (undefined-able) fields.
 */
module JsValues {

  /** One UTF-16 code unit, as returned by `String.prototype.charCodeAt`. */
  type CodeUnit = c: int | 0 <= c < 0x1_0000

  /** A JavaScript string: a sequence of UTF-16 code units. */
  type JsString = seq<CodeUnit>

  /** A field that may be `undefined` (or `null`). */
  datatype Option<+T> = None | Some(value: T)

  /** The code units of a literal; every literal used here is ASCII. */
  function Lit(s: string): (r: JsString)
    ensures |r| == |s|
    ensures forall i :: 0 <= i < |s| && s[i] as int < 0x1_0000 ==> r[i] == s[i] as int
  {
    seq(|s|, i requires 0 <= i < |s| => if s[i] as int < 0x1_0000 then s[i] as int else 0xFFFD)
  }

  const TwoTo32: int := 0x1_0000_0000
  const TwoTo31: int := 0x8000_0000

  predicate IsInt32(x: int) {
    -TwoTo31 <= x < TwoTo31
  }

  /** ECMAScript ToInt32 on an integral number: wrap modulo 2^32 into the signed range. */
  function ToInt32(x: int): (r: int)
    ensures IsInt32(r)
    ensures (x - r) % TwoTo32 == 0
  {
    var m := x % TwoTo32;
    if m < TwoTo31 then m else m - TwoTo32
  }

  /** ToInt32 depends only on the residue modulo 2^32. */
  lemma ToInt32Congruent(x: int, y: int, k: int)
    requires x == y + k * TwoTo32
    ensures ToInt32(x) == ToInt32(y)
  {
    assert x % TwoTo32 == y % TwoTo32;
  }

  /** Wrapping an operand first does not change a wrapped affine result. */
  lemma ToInt32Affine(x: int, a: int, b: int)
    ensures ToInt32(a * ToInt32(x) + b) == ToInt32(a * x + b)
  {
    var d := x - ToInt32(x);
    var k := d / TwoTo32;
    assert d == k * TwoTo32;
    assert a * x + b == (a * ToInt32(x) + b) + a * d;
    assert a * d == (a * k) * TwoTo32;
    ToInt32Congruent(a * x + b, a * ToInt32(x) + b, a * k);
  }

  /** ToInt32 is the identity on the signed 32-bit range. */
  lemma ToInt32OfInt32(x: int)
    requires IsInt32(x)
    ensures ToInt32(x) == x
  {
  }

  /** `Math.abs` on an integral number. */
  function JsAbs(x: int): (r: nat)
    ensures r == x || r == -x
  {
    if x < 0 then -x else x
  }

  /** `String.prototype.toUpperCase` restricted to ASCII: `a`-`z` become `A`-`Z`. */
  function ToUpperAscii(c: CodeUnit): (u: CodeUnit)
    ensures !('a' as int <= u <= 'z' as int)
    ensures !('a' as int <= c <= 'z' as int) ==> u == c
  {
    if 'a' as int <= c <= 'z' as int then c - 32 else c
  }
}
