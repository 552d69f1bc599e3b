/**
 * The two escapers of the comment list (js/components/comment-list.js):
 * `escapeRegex` (lines 232-234) and `escapeHTML` (lines 278-282), plus the
 * attribute escaping the avatar's `alt` needs.
 */
module Escaping {
  import opened JsValues

  const Backslash: CodeUnit := '\\' as int
  const Ampersand: CodeUnit := '&' as int
  const LessThan: CodeUnit := '<' as int
  const GreaterThan: CodeUnit := '>' as int
  const Quote: CodeUnit := '"' as int
  const NoBreakSpace: CodeUnit := 0xA0

  // ---------------------------------------------------------------------------
  // escapeRegex: `string.replace(/[.*+?^${}()|[\]\\]/g, '\\$&')`
  // ---------------------------------------------------------------------------

  /** The characters of the bracket class in the source's regular expression. */
  predicate IsRegexMeta(c: CodeUnit) {
    c == '.' as int || c == '*' as int || c == '+' as int || c == '?' as int ||
    c == '^' as int || c == '$' as int || c == '{' as int || c == '}' as int ||
    c == '(' as int || c == ')' as int || c == '|' as int || c == '[' as int ||
    c == ']' as int || c == '\\' as int
  }

  /** Replacement `\\$&`: a backslash followed by the matched character. */
  function EscapeRegexUnit(c: CodeUnit): JsString {
    if IsRegexMeta(c) then [Backslash, c] else [c]
  }

  function CountMeta(s: JsString): nat {
    if s == [] then 0 else (if IsRegexMeta(s[0]) then 1 else 0) + CountMeta(s[1..])
  }

  /** A pattern that matches its text literally: every metacharacter is escaped. */
  predicate LiteralPattern(p: JsString)
    decreases |p|
  {
    if p == [] then true
    else if p[0] == Backslash then |p| >= 2 && IsRegexMeta(p[1]) && LiteralPattern(p[2..])
    else !IsRegexMeta(p[0]) && LiteralPattern(p[1..])
  }

  /** The text a literal pattern matches: each escaped character stands for itself. */
  function PatternText(p: JsString): JsString
    decreases |p|
  {
    if p == [] then []
    else if p[0] == Backslash && |p| >= 2 then [p[1]] + PatternText(p[2..])
    else [p[0]] + PatternText(p[1..])
  }

  /** `escapeRegex(string)`. */
  function EscapeRegex(s: JsString): (r: JsString)
    ensures |r| == |s| + CountMeta(s)
    ensures LiteralPattern(r)
    ensures CountMeta(s) == 0 ==> r == s
  {
    if s == [] then [] else EscapeRegexUnit(s[0]) + EscapeRegex(s[1..])
  }

  /** Dropping the added backslashes gives back the input. */
  lemma {:induction false} EscapeRegexRoundTrip(s: JsString)
    ensures PatternText(EscapeRegex(s)) == s
  {
    if s != [] {
      EscapeRegexRoundTrip(s[1..]);
      var r := EscapeRegex(s);
      if IsRegexMeta(s[0]) {
        assert r[2..] == EscapeRegex(s[1..]);
      } else {
        assert r[1..] == EscapeRegex(s[1..]);
      }
    }
  }

  // ---------------------------------------------------------------------------
  // escapeHTML: setting `textContent` then reading `innerHTML`, i.e. the text
  // serialization of the HTML standard ("escaping a string", attribute mode off)
  // ---------------------------------------------------------------------------

  const AmpEntity: JsString := Lit("&amp;")
  const NbspEntity: JsString := Lit("&nbsp;")
  const LtEntity: JsString := Lit("&lt;")
  const GtEntity: JsString := Lit("&gt;")
  const QuotEntity: JsString := Lit("&quot;")

  function EscapeTextUnit(c: CodeUnit): JsString {
    if c == Ampersand then AmpEntity
    else if c == NoBreakSpace then NbspEntity
    else if c == LessThan then LtEntity
    else if c == GreaterThan then GtEntity
    else [c]
  }

  /** No `<` and no `>`: the string cannot open or close a tag. */
  predicate NoTagDelimiters(s: JsString) {
    forall i :: 0 <= i < |s| ==> s[i] != LessThan && s[i] != GreaterThan
  }

  /** `escapeHTML(text)`. */
  function EscapeHtml(s: JsString): (r: JsString)
    ensures NoTagDelimiters(r)
    ensures |r| >= |s|
  {
    if s == [] then [] else EscapeTextUnit(s[0]) + EscapeHtml(s[1..])
  }

  /** Attribute-value escaping: the text escaping plus `"`. */
  function EscapeAttributeUnit(c: CodeUnit): JsString {
    if c == Quote then QuotEntity else EscapeTextUnit(c)
  }

  /** Escaping fit for a double-quoted attribute value such as `alt="..."`. */
  function EscapeAttribute(s: JsString): (r: JsString)
    ensures NoTagDelimiters(r)
    ensures forall i :: 0 <= i < |r| ==> r[i] != Quote
  {
    if s == [] then [] else EscapeAttributeUnit(s[0]) + EscapeAttribute(s[1..])
  }

  predicate StartsWith(s: JsString, prefix: JsString) {
    |prefix| <= |s| && s[..|prefix|] == prefix
  }

  /** What a parser reads back as characters: the five character references above decoded. */
  function DecodeReferences(r: JsString): JsString
    decreases |r|
  {
    if r == [] then []
    else if StartsWith(r, AmpEntity) then [Ampersand] + DecodeReferences(r[|AmpEntity|..])
    else if StartsWith(r, NbspEntity) then [NoBreakSpace] + DecodeReferences(r[|NbspEntity|..])
    else if StartsWith(r, LtEntity) then [LessThan] + DecodeReferences(r[|LtEntity|..])
    else if StartsWith(r, GtEntity) then [GreaterThan] + DecodeReferences(r[|GtEntity|..])
    else if StartsWith(r, QuotEntity) then [Quote] + DecodeReferences(r[|QuotEntity|..])
    else [r[0]] + DecodeReferences(r[1..])
  }

  /** A unit other than `&` is read back as itself. */
  lemma DecodePlainUnit(c: CodeUnit, rest: JsString)
    requires c != Ampersand
    ensures DecodeReferences([c] + rest) == [c] + DecodeReferences(rest)
  {
    var r := [c] + rest;
    assert r[0] == c && r[1..] == rest;
    assert AmpEntity[0] == NbspEntity[0] == LtEntity[0] == GtEntity[0] == QuotEntity[0] == Ampersand;
  }

  /** Each character reference is read back as the unit it stands for. */
  lemma DecodeReference(entity: JsString, c: CodeUnit, rest: JsString)
    requires (entity == AmpEntity && c == Ampersand) || (entity == NbspEntity && c == NoBreakSpace)
          || (entity == LtEntity && c == LessThan) || (entity == GtEntity && c == GreaterThan)
          || (entity == QuotEntity && c == Quote)
    ensures DecodeReferences(entity + rest) == [c] + DecodeReferences(rest)
  {
    var r := entity + rest;
    assert r[..|entity|] == entity && r[|entity|..] == rest;
    assert r[1] == entity[1];
    assert AmpEntity[1] == 'a' as int && NbspEntity[1] == 'n' as int && LtEntity[1] == 'l' as int;
    assert GtEntity[1] == 'g' as int && QuotEntity[1] == 'q' as int;
  }

  /** Decoding one escaped unit followed by anything. */
  lemma DecodeEscapedUnit(c: CodeUnit, escaped: JsString, rest: JsString)
    requires escaped == EscapeAttributeUnit(c) || escaped == EscapeTextUnit(c)
    ensures DecodeReferences(escaped + rest) == [c] + DecodeReferences(rest)
  {
    if c == Ampersand {
      DecodeReference(AmpEntity, c, rest);
    } else if c == NoBreakSpace {
      DecodeReference(NbspEntity, c, rest);
    } else if c == LessThan {
      DecodeReference(LtEntity, c, rest);
    } else if c == GreaterThan {
      DecodeReference(GtEntity, c, rest);
    } else if c == Quote && escaped == QuotEntity {
      DecodeReference(QuotEntity, c, rest);
    } else {
      DecodePlainUnit(c, rest);
    }
  }

  /** The escaped text reads back as the original characters. */
  lemma {:induction false} EscapeHtmlRoundTrip(s: JsString)
    ensures DecodeReferences(EscapeHtml(s)) == s
  {
    if s != [] {
      EscapeHtmlRoundTrip(s[1..]);
      DecodeEscapedUnit(s[0], EscapeTextUnit(s[0]), EscapeHtml(s[1..]));
    }
  }

  /** The escaped attribute value reads back as the original characters. */
  lemma {:induction false} EscapeAttributeRoundTrip(s: JsString)
    ensures DecodeReferences(EscapeAttribute(s)) == s
  {
    if s != [] {
      EscapeAttributeRoundTrip(s[1..]);
      DecodeEscapedUnit(s[0], EscapeAttributeUnit(s[0]), EscapeAttribute(s[1..]));
    }
  }

  /** For a string without `"` the two escapings agree. */
  lemma {:induction false} EscapeAttributeWithoutQuote(s: JsString)
    ensures Quote !in s ==> EscapeAttribute(s) == EscapeHtml(s)
  {
    if s != [] && Quote !in s {
      assert s[0] in s;
      assert forall c :: c in s[1..] ==> c in s;
      EscapeAttributeWithoutQuote(s[1..]);
    }
  }

  /** Text escaping leaves `"` as it is, so inside `alt="..."` it ends the attribute. */
  lemma EscapeHtmlKeepsQuote()
    ensures EscapeHtml([Quote]) == [Quote]
  {
  }
}
