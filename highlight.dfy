/**
 * `highlightText` of the comment list (js/components/comment-list.js,
 * lines 222-227): wrap every case-insensitive occurrence of the search term
 * in a highlight marker. The text is kept as a sequence of pieces, plain
 * units and marked runs, instead of markup.
 */
module Highlight {
  import opened JsValues
  import Escaping

  /** A unit of text outside any match, or one matched run wrapped in `<mark>`. */
  datatype Piece = Plain(unit: CodeUnit) | Marked(units: JsString)

  function PieceText(p: Piece): JsString {
    match p
    case Plain(u) => [u]
    case Marked(m) => m
  }

  /** The characters a reader sees, with the markers taken away. */
  function Flatten(ps: seq<Piece>): JsString {
    if ps == [] then [] else PieceText(ps[0]) + Flatten(ps[1..])
  }

  /** The matching the `i` flag performs, for ASCII letters. */
  predicate SameIgnoringCase(a: JsString, b: JsString) {
    |a| == |b| && forall i :: 0 <= i < |a| ==> ToUpperAscii(a[i]) == ToUpperAscii(b[i])
  }

  predicate MatchAt(text: JsString, j: int, term: JsString) {
    0 <= j && j + |term| <= |text| && SameIgnoringCase(text[j..j + |term|], term)
  }

  predicate AllPlain(ps: seq<Piece>) {
    forall i :: 0 <= i < |ps| ==> ps[i].Plain?
  }

  lemma FlattenCons(p: Piece, rest: seq<Piece>)
    ensures Flatten([p] + rest) == PieceText(p) + Flatten(rest)
  {
    assert ([p] + rest)[1..] == rest;
  }

  /** No plain unit starts an occurrence of the term: the scan missed no match. */
  predicate NoMatchMissed(ps: seq<Piece>, term: JsString) {
    forall i :: 0 <= i < |ps| && ps[i].Plain? ==> !MatchAt(Flatten(ps[i..]), 0, term)
  }

  lemma NoMatchMissedCons(p: Piece, rest: seq<Piece>, term: JsString)
    requires NoMatchMissed(rest, term)
    requires p.Plain? ==> !MatchAt(Flatten([p] + rest), 0, term)
    ensures NoMatchMissed([p] + rest, term)
  {
    var ps := [p] + rest;
    forall i | 0 <= i < |ps| && ps[i].Plain?
      ensures !MatchAt(Flatten(ps[i..]), 0, term)
    {
      if i == 0 {
        assert ps[0..] == ps;
      } else {
        assert ps[i] == rest[i - 1] && ps[i..] == rest[i - 1..];
      }
    }
  }

  /** `text.replace(/(term)/gi, ...)` for a literal term: the leftmost match is
      marked, the scan resumes after it, and units not in a match stay plain. */
  function MarkMatches(text: JsString, term: JsString): (ps: seq<Piece>)
    requires |term| > 0
    ensures Flatten(ps) == text
    ensures forall i :: 0 <= i < |ps| && ps[i].Marked? ==> SameIgnoringCase(ps[i].units, term)
    ensures NoMatchMissed(ps, term)
    ensures MatchAt(text, 0, term) ==> ps[0] == Marked(text[..|term|])
    decreases |text|
  {
    if text == [] then []
    else if MatchAt(text, 0, term) then
      var rest := MarkMatches(text[|term|..], term);
      FlattenCons(Marked(text[..|term|]), rest);
      NoMatchMissedCons(Marked(text[..|term|]), rest, term);
      assert text[..|term|] + text[|term|..] == text;
      [Marked(text[..|term|])] + rest
    else
      var rest := MarkMatches(text[1..], term);
      FlattenCons(Plain(text[0]), rest);
      assert [text[0]] + text[1..] == text;
      NoMatchMissedCons(Plain(text[0]), rest, term);
      [Plain(text[0])] + rest
  }

  /** The three properties above determine the marking: any pieces that spell the text,
      mark only runs equal to the term and miss no match are the ones the scan yields. */
  lemma {:induction false} MarkMatchesUnique(ps: seq<Piece>, text: JsString, term: JsString)
    requires |term| > 0
    requires Flatten(ps) == text
    requires forall i :: 0 <= i < |ps| && ps[i].Marked? ==> SameIgnoringCase(ps[i].units, term)
    requires NoMatchMissed(ps, term)
    ensures ps == MarkMatches(text, term)
    decreases |ps|
  {
    if ps != [] {
      var rest := ps[1..];
      assert ps == [ps[0]] + rest;
      FlattenCons(ps[0], rest);
      assert NoMatchMissed(rest, term) by {
        forall i | 0 <= i < |rest| && rest[i].Plain?
          ensures !MatchAt(Flatten(rest[i..]), 0, term)
        {
          assert rest[i] == ps[i + 1] && rest[i..] == ps[i + 1..];
        }
      }
      assert forall i :: 0 <= i < |rest| && rest[i].Marked? ==> SameIgnoringCase(rest[i].units, term) by {
        forall i | 0 <= i < |rest| && rest[i].Marked?
          ensures SameIgnoringCase(rest[i].units, term)
        {
          assert rest[i] == ps[i + 1];
        }
      }
      var tail := Flatten(rest);
      match ps[0]
      case Marked(m) =>
        assert text == m + tail;
        assert text[..|term|] == m && text[|term|..] == tail;
        assert MatchAt(text, 0, term);
        MarkMatchesUnique(rest, tail, term);
      case Plain(u) =>
        assert ps[0..] == ps;
        assert !MatchAt(text, 0, term);
        assert text == [u] + tail && text[1..] == tail;
        MarkMatchesUnique(rest, tail, term);
    }
  }

  /** A text without any occurrence of the term comes back with nothing marked. */
  lemma {:induction false} NoMatchNoMark(text: JsString, term: JsString)
    requires |term| > 0
    requires forall j :: 0 <= j <= |text| - |term| ==> !MatchAt(text, j, term)
    ensures AllPlain(MarkMatches(text, term))
    decreases |text|
  {
    if text != [] {
      assert !MatchAt(text, 0, term);
      forall j | 0 <= j <= |text[1..]| - |term|
        ensures !MatchAt(text[1..], j, term)
      {
        assert text[1..][j..j + |term|] == text[j + 1..j + 1 + |term|];
        assert !MatchAt(text, j + 1, term);
      }
      NoMatchNoMark(text[1..], term);
    }
  }

  /** `highlightText(text, searchTerm)`: a falsy (empty) term returns the text unchanged;
      otherwise the term, passed through `escapeRegex`, is matched literally. */
  function HighlightText(text: JsString, searchTerm: JsString): (ps: seq<Piece>)
    ensures Flatten(ps) == text
    ensures searchTerm == [] ==> AllPlain(ps)
    ensures forall i :: 0 <= i < |ps| && ps[i].Marked? ==> SameIgnoringCase(ps[i].units, searchTerm)
    ensures searchTerm != [] ==> NoMatchMissed(ps, searchTerm)
  {
    if searchTerm == [] then PlainPieces(text)
    else
      Escaping.EscapeRegexRoundTrip(searchTerm);
      MarkMatches(text, Escaping.PatternText(Escaping.EscapeRegex(searchTerm)))
  }

  function PlainPieces(text: JsString): (ps: seq<Piece>)
    ensures AllPlain(ps) && Flatten(ps) == text
  {
    if text == [] then [] else [Plain(text[0])] + PlainPieces(text[1..])
  }
}
