/**
 * `hashString` and `generateAvatarColor` of the comment list
 * (js/components/comment-list.js, lines 239-260).
 */
module Hashing {
  import opened JsValues

  /** One step of the hash as the code writes it: `((hash << 5) - hash) + char`,
      followed by `hash & hash`, which converts the number back to int32. */
  function SourceStep(hash: int, c: CodeUnit): (r: int)
    ensures IsInt32(r)
  {
    var shifted := ToInt32(ToInt32(hash) * 32);   // hash << 5
    ToInt32(shifted - hash + c)                    // (...) & (...)
  }

  /** The rolling hash: a left fold of `h := ToInt32(31 * h + c)` from 0. */
  function HashFold(s: JsString): (h: int)
    ensures IsInt32(h)
  {
    if s == [] then 0 else ToInt32(31 * HashFold(s[..|s| - 1]) + s[|s| - 1])
  }

  /** The unwrapped polynomial sum of s[i] * 31^(|s|-1-i). */
  function Polynomial(s: JsString): int {
    if s == [] then 0 else 31 * Polynomial(s[..|s| - 1]) + s[|s| - 1]
  }

  /** The value `hashString` returns: `Math.abs` of the fold. */
  function HashValue(s: JsString): (r: nat)
    ensures r <= TwoTo31
  {
    JsAbs(HashFold(s))
  }

  /** The shift-and-subtract step agrees with multiplying by 31, for any int32 hash. */
  lemma SourceStepIsTimes31(hash: int, c: CodeUnit)
    requires IsInt32(hash)
    ensures SourceStep(hash, c) == ToInt32(31 * hash + c)
  {
    ToInt32OfInt32(hash);
    ToInt32Affine(hash * 32, 1, c - hash);
  }

  /** The fold is the classic polynomial string hash reduced to int32. */
  lemma {:induction false} HashFoldIsPolynomial(s: JsString)
    ensures HashFold(s) == ToInt32(Polynomial(s))
  {
    if s != [] {
      var p := s[..|s| - 1];
      HashFoldIsPolynomial(p);
      ToInt32Affine(Polynomial(p), 31, s[|s| - 1]);
    }
  }

  /** `hashString(str)`: the loop over the code units, as in the source. */
  method HashString(str: JsString) returns (r: int)
    ensures r == HashValue(str)
    ensures 0 <= r <= TwoTo31
    ensures str == [] ==> r == 0
  {
    var hash := 0;
    for i := 0 to |str|
      invariant hash == HashFold(str[..i])
    {
      var ch := str[i];
      assert str[..i + 1][..i] == str[..i];
      SourceStepIsTimes31(hash, ch);
      hash := ((ToInt32(ToInt32(hash) * 32)) - hash) + ch;
      hash := ToInt32(hash);
    }
    assert str[..|str|] == str;
    r := JsAbs(hash);
  }

  /** The fixed avatar palette, in the order the source lists it. */
  const Palette: seq<JsString> := [
    Lit("#FF6B6B"), Lit("#4ECDC4"), Lit("#45B7D1"), Lit("#96CEB4"),
    Lit("#FFEAA7"), Lit("#DDA0DD"), Lit("#98D8C8"), Lit("#F39C12"),
    Lit("#E74C3C"), Lit("#9B59B6"), Lit("#3498DB"), Lit("#2ECC71")
  ]

  /** The palette slot `hash % colors.length` selects (the hash is never negative). */
  function AvatarColorIndex(username: JsString): (i: nat)
    ensures i < |Palette| == 12
    ensures (HashValue(username) - i) % 12 == 0
  {
    HashValue(username) % |Palette|
  }

  /** `generateAvatarColor(username)`. */
  function AvatarColor(username: JsString): (color: JsString)
    ensures color in Palette
    ensures |color| == 7 && color[0] == '#' as int
  {
    Palette[AvatarColorIndex(username)]
  }

  /** The empty name (hash 0) gets the first palette entry. */
  lemma AvatarColorOfEmptyName()
    ensures AvatarColor([]) == Palette[0]
  {
    assert HashValue([]) == 0;
  }
}
