/**
 * The card renderer of the comment list (js/components/comment-list.js,
 * lines 56 and 73-172): every top-level comment becomes one card followed by
 * one card per direct reply. A card is kept as a record of what the markup
 * shows instead of the markup itself.
 */
module Cards {
  import opened JsValues
  import Hashing
  import NumberFormat
  import Escaping
  import Highlight

  /** A comment as the data source supplies it; `None` is an absent (undefined or null) field. */
  datatype Comment = Comment(
    commentId: JsString,               // `comment_id`, as interpolated into `data-comment-id`
    author: JsString,
    text: Option<JsString>,
    content: Option<JsString>,
    likeCount: Option<nat>,            // `like_count`
    reactionsCount: Option<nat>,
    channelOwnerLiked: bool,           // truthiness of `channel_owner_liked`
    avatar: Option<JsString>,
    replies: seq<Comment>)             // an absent `replies` is the empty sequence

  /** The avatar block: an image with a hidden initial to fall back to, or the initial alone. */
  datatype Avatar =
    | ImageWithFallback(src: JsString, alt: JsString, color: JsString, initial: CodeUnit)
    | InitialOnly(color: JsString, initial: CodeUnit)

  /** What one rendered card shows. */
  datatype Card = Card(
    isReply: bool,
    cssClass: JsString,
    avatarSize: nat,
    avatar: Avatar,
    author: JsString,                  // escaped
    text: seq<Highlight.Piece>,        // escaped, then highlighted
    likes: JsString,
    heart: bool,
    commentId: JsString)

  const CardClass: JsString := Lit("comment-card")
  const ReplyCardClass: JsString := Lit("reply-card comment-card")
  const LocalAvatarAuthor: JsString := Lit("medicalmedium")
  const LocalAvatarPath: JsString := Lit("MMCommentExplorer.webp")
  const LikesWord: JsString := Lit(" likes")

  // ---------------------------------------------------------------------------
  // Initial letter: `author[1]?.toUpperCase() || author[0]?.toUpperCase() || 'U'`
  // ---------------------------------------------------------------------------

  /** `s[i]`: undefined past the end. */
  function UnitAt(s: JsString, i: nat): Option<CodeUnit> {
    if i < |s| then Some(s[i]) else None
  }

  /** `x?.toUpperCase()`. */
  function UpperOf(x: Option<CodeUnit>): Option<CodeUnit> {
    match x
    case None => None
    case Some(c) => Some(ToUpperAscii(c))
  }

  /** `a || b` where `a` is a one-unit string or undefined (a one-unit string is truthy). */
  function OrElse(a: Option<CodeUnit>, b: CodeUnit): CodeUnit {
    match a
    case Some(c) => c
    case None => b
  }

  function InitialLetter(author: JsString): (r: CodeUnit)
    ensures |author| >= 2 ==> r == ToUpperAscii(author[1])
    ensures |author| == 1 ==> r == ToUpperAscii(author[0])
    ensures author == [] ==> r == 'U' as int
    ensures !('a' as int <= r <= 'z' as int)
  {
    OrElse(UpperOf(UnitAt(author, 1)), OrElse(UpperOf(UnitAt(author, 0)), 'U' as int))
  }

  /** Examples: "bob" gives O, "b" gives B, "" gives U. */
  lemma InitialLetterExamples()
    ensures InitialLetter(Lit("bob")) == 'O' as int
    ensures InitialLetter(Lit("b")) == 'B' as int
    ensures InitialLetter([]) == 'U' as int
  {
  }

  // ---------------------------------------------------------------------------
  // The code as written and the corrected card
  // ---------------------------------------------------------------------------

  /** Which card the renderer builds: the one lines 90-172 build, or the corrected one,
      with the search term passed to `highlightText`, a missing like count read as 0
      and the `alt` value escaped for an attribute. */
  datatype Variant = AsWritten | Corrected(searchTerm: JsString)

  // ---------------------------------------------------------------------------
  // Likes: `formatNumber(comment.like_count || comment.reactionsCount)` + " likes"
  // ---------------------------------------------------------------------------

  /** `comment.like_count || comment.reactionsCount`: a zero like count is falsy. */
  function LikesOperand(c: Comment): (r: Option<nat>)
    ensures c.likeCount.Some? && c.likeCount.value != 0 ==> r == c.likeCount
    ensures (c.likeCount.None? || c.likeCount == Some(0)) ==> r == c.reactionsCount
    ensures r.None? <==> (c.likeCount.None? || c.likeCount == Some(0)) && c.reactionsCount.None?
  {
    if c.likeCount.Some? && c.likeCount.value != 0 then c.likeCount else c.reactionsCount
  }

  /** `formatNumber(undefined)` throws at `undefined.toString()`. */
  predicate Throws(c: Comment) {
    LikesOperand(c).None?
  }

  /** The likes label as the code computes it; `None` where the code throws. */
  function LikesLabelAsWritten(c: Comment): (r: Option<JsString>)
    ensures r.None? <==> Throws(c)
  {
    match LikesOperand(c)
    case None => None
    case Some(n) => Some(NumberFormat.FormatNumber(n) + LikesWord)
  }

  /** The like count with an absent value read as 0. */
  function LikeCount(c: Comment): (n: nat)
    ensures c.likeCount.Some? && c.likeCount.value != 0 ==> n == c.likeCount.value
    ensures (c.likeCount.None? || c.likeCount == Some(0)) && c.reactionsCount.Some? ==> n == c.reactionsCount.value
    ensures Throws(c) ==> n == 0
  {
    match LikesOperand(c)
    case None => 0
    case Some(n) => n
  }

  /** The likes label, always the plural word, with the missing count read as 0. */
  function LikesLabel(c: Comment): (r: JsString)
    ensures |r| > |LikesWord| && r[|r| - |LikesWord|..] == LikesWord
    ensures LikesLabelAsWritten(c).Some? ==> LikesLabelAsWritten(c) == Some(r)
    ensures Throws(c) ==> r == Lit("0 likes")
  {
    var figure := NumberFormat.FormatNumber(LikeCount(c));
    assert (figure + LikesWord)[|figure|..] == LikesWord;
    figure + LikesWord
  }

  // ---------------------------------------------------------------------------
  // Text: `highlightText(escapeHTML(comment.text || comment.content))`
  // ---------------------------------------------------------------------------

  /** `comment.text || comment.content`; an absent result escapes to the empty string. */
  function ResolvedText(c: Comment): (r: JsString)
    ensures c.text.Some? && c.text.value != [] ==> r == c.text.value
    ensures (c.text.None? || c.text == Some([])) && c.content.Some? ==> r == c.content.value
    ensures (c.text.None? || c.text == Some([])) && c.content.None? ==> r == []
  {
    if c.text.Some? && c.text.value != [] then c.text.value
    else match c.content
      case Some(s) => s
      case None => []
  }

  /** The card text as line 153 computes it: the search term is never passed, so the
      escaped text comes back with nothing marked. */
  function RenderedTextAsWritten(c: Comment): (ps: seq<Highlight.Piece>)
    ensures Highlight.AllPlain(ps)
    ensures Highlight.Flatten(ps) == Escaping.EscapeHtml(ResolvedText(c))
    ensures Escaping.DecodeReferences(Highlight.Flatten(ps)) == ResolvedText(c)
  {
    Escaping.EscapeHtmlRoundTrip(ResolvedText(c));
    Highlight.HighlightText(Escaping.EscapeHtml(ResolvedText(c)), [])
  }

  /** The card text with the search term passed to `highlightText`: every occurrence the
      `gi` scan meets in the escaped text is marked, and nothing else is. */
  function RenderedText(c: Comment, searchTerm: JsString): (ps: seq<Highlight.Piece>)
    ensures Highlight.Flatten(ps) == Escaping.EscapeHtml(ResolvedText(c))
    ensures Escaping.DecodeReferences(Highlight.Flatten(ps)) == ResolvedText(c)
    ensures Escaping.NoTagDelimiters(Highlight.Flatten(ps))
    ensures forall i :: 0 <= i < |ps| && ps[i].Marked? ==> Highlight.SameIgnoringCase(ps[i].units, searchTerm)
    ensures searchTerm != [] ==> Highlight.NoMatchMissed(ps, searchTerm)
    ensures searchTerm == [] ==> ps == RenderedTextAsWritten(c)
  {
    Escaping.EscapeHtmlRoundTrip(ResolvedText(c));
    Highlight.HighlightText(Escaping.EscapeHtml(ResolvedText(c)), searchTerm)
  }

  /** With the term passed, a comment reading "a" searched for "a" is marked; as
      written it is not. */
  lemma SearchTermMarksText(c: Comment)
    requires c.text == Some(Lit("a"))
    ensures !Highlight.AllPlain(RenderedText(c, Lit("a")))
    ensures Highlight.AllPlain(RenderedTextAsWritten(c))
  {
    var a := Lit("a");
    assert Escaping.EscapeHtml(a) == a;
    assert Escaping.EscapeRegex(a) == a;
    assert Escaping.PatternText(a) == a;
    assert Highlight.MatchAt(a, 0, a);
  }

  // ---------------------------------------------------------------------------
  // Avatar
  // ---------------------------------------------------------------------------

  /** `comment.author === 'medicalmedium' ? 'MMCommentExplorer.webp' : comment.avatar`. */
  function AvatarUrl(c: Comment): (r: Option<JsString>)
    ensures c.author == LocalAvatarAuthor ==> r == Some(LocalAvatarPath)
    ensures c.author != LocalAvatarAuthor ==> r == c.avatar
  {
    if c.author == LocalAvatarAuthor then Some(LocalAvatarPath) else c.avatar
  }

  /** The `alt` text as line 105 writes it: text escaping, which leaves `"` unescaped. */
  function AvatarAltAsWritten(c: Comment): (alt: JsString)
    ensures Escaping.NoTagDelimiters(alt)
    ensures Escaping.DecodeReferences(alt) == c.author
  {
    Escaping.EscapeHtmlRoundTrip(c.author);
    Escaping.EscapeHtml(c.author)
  }

  /** The `alt` text escaped for a double-quoted attribute. */
  function AvatarAlt(c: Comment): (alt: JsString)
    ensures Escaping.Quote !in alt && Escaping.NoTagDelimiters(alt)
    ensures Escaping.DecodeReferences(alt) == c.author
    ensures Escaping.Quote !in c.author ==> alt == AvatarAltAsWritten(c)
  {
    Escaping.EscapeAttributeRoundTrip(c.author);
    Escaping.EscapeAttributeWithoutQuote(c.author);
    Escaping.EscapeAttribute(c.author)
  }

  /** An author name with a `"` ends the `alt` attribute early as written. */
  lemma QuoteInAltAsWritten(c: Comment)
    requires c.author == [Escaping.Quote]
    ensures Escaping.Quote in AvatarAltAsWritten(c)
    ensures Escaping.Quote !in AvatarAlt(c)
  {
    Escaping.EscapeHtmlKeepsQuote();
  }

  /** The avatar block of lines 102-143, with the given `alt` value. */
  function AvatarFor(c: Comment, alt: JsString): (a: Avatar)
    ensures a.color == Hashing.AvatarColor(c.author) && a.color in Hashing.Palette
    ensures a.initial == InitialLetter(c.author)
    ensures c.author == LocalAvatarAuthor ==> a.ImageWithFallback? && a.src == LocalAvatarPath
    ensures c.author != LocalAvatarAuthor && c.avatar.Some? && c.avatar.value != [] ==>
              a.ImageWithFallback? && a.src == c.avatar.value
    ensures c.author != LocalAvatarAuthor && (c.avatar.None? || c.avatar == Some([])) ==> a.InitialOnly?
    ensures a.ImageWithFallback? ==> a.alt == alt
  {
    var color := Hashing.AvatarColor(c.author);
    var initial := InitialLetter(c.author);
    match AvatarUrl(c)
    case Some(url) =>
      if url != [] then ImageWithFallback(url, alt, color, initial)
      else InitialOnly(color, initial)
    case None => InitialOnly(color, initial)
  }

  // ---------------------------------------------------------------------------
  // Cards
  // ---------------------------------------------------------------------------

  function CardText(c: Comment, v: Variant): seq<Highlight.Piece> {
    match v
    case AsWritten => RenderedTextAsWritten(c)
    case Corrected(t) => RenderedText(c, t)
  }

  function CardAlt(c: Comment, v: Variant): JsString {
    if v.AsWritten? then AvatarAltAsWritten(c) else AvatarAlt(c)
  }

  function CardLikes(c: Comment, v: Variant): Option<JsString> {
    if v.AsWritten? then LikesLabelAsWritten(c) else Some(LikesLabel(c))
  }

  /** What `card` shows for comment `c`: the reply class and avatar size, the avatar with
      the variant's `alt`, the escaped author, the variant's text and likes label, the heart
      exactly when the channel owner liked it, and the comment id of the export button. */
  predicate Builds(c: Comment, isReply: bool, v: Variant, card: Card) {
    && card.isReply == isReply && card.commentId == c.commentId
    && card.cssClass == (if isReply then ReplyCardClass else CardClass)
    && card.avatarSize == (if isReply then 28 else 32)
    && card.avatar == AvatarFor(c, CardAlt(c, v))
    && CardLikes(c, v) == Some(card.likes)
    && card.heart == c.channelOwnerLiked
    && Escaping.NoTagDelimiters(card.author)
    && Escaping.DecodeReferences(card.author) == c.author
    && card.text == CardText(c, v)
  }

  /** `createSingleComment(comment, isReply)`; `None` where it throws. */
  function CreateSingleComment(c: Comment, isReply: bool, v: Variant): (r: Option<Card>)
    ensures r.None? <==> v.AsWritten? && Throws(c)
    ensures r.Some? ==> Builds(c, isReply, v, r.value)
  {
    Escaping.EscapeHtmlRoundTrip(c.author);
    match CardLikes(c, v)
    case None => None
    case Some(likes) =>
      Some(Card(
        isReply := isReply,
        cssClass := if isReply then ReplyCardClass else CardClass,
        avatarSize := if isReply then 28 else 32,
        avatar := AvatarFor(c, CardAlt(c, v)),
        author := Escaping.EscapeHtml(c.author),
        text := CardText(c, v),
        likes := likes,
        heart := c.channelOwnerLiked,
        commentId := c.commentId))
  }

  /** A comment with a zero `like_count` and no `reactionsCount` makes the card throw as
      written; the corrected card reads "0 likes". */
  lemma ZeroLikesThrowsAsWritten(c: Comment, isReply: bool)
    requires c.likeCount == Some(0) && c.reactionsCount.None?
    ensures CreateSingleComment(c, isReply, AsWritten).None?
    ensures CreateSingleComment(c, isReply, Corrected([])).value.likes == Lit("0 likes")
  {
    assert NumberFormat.FormatNumber(0) == [NumberFormat.Zero];
    assert LikesLabel(c) == [NumberFormat.Zero] + LikesWord;
    assert Lit("0 likes") == [NumberFormat.Zero] + LikesWord;
    var card := CreateSingleComment(c, isReply, Corrected([]));
    assert CardLikes(c, Corrected([])) == Some(card.value.likes);
  }

  /** Where the code does not throw and the author has no `"`, the card as written is the
      corrected card with an empty search term. */
  lemma AsWrittenIsCorrectedWithoutTerm(c: Comment, isReply: bool)
    requires !Throws(c) && Escaping.Quote !in c.author
    ensures CreateSingleComment(c, isReply, AsWritten) == CreateSingleComment(c, isReply, Corrected([]))
  {
    assert AvatarAlt(c) == AvatarAltAsWritten(c);
  }

  /** Some comment of the sequence throws. */
  predicate AnyThrows(cs: seq<Comment>) {
    cs != [] && (Throws(cs[0]) || AnyThrows(cs[1..]))
  }

  lemma {:induction false} AnyThrowsExists(cs: seq<Comment>)
    ensures AnyThrows(cs) <==> exists i :: 0 <= i < |cs| && Throws(cs[i])
  {
    if cs != [] {
      AnyThrowsExists(cs[1..]);
      assert forall i :: 1 <= i < |cs| ==> cs[i] == cs[1..][i - 1];
    }
  }

  /** A comment or one of its direct replies throws. */
  predicate CardThrows(c: Comment) {
    Throws(c) || AnyThrows(c.replies)
  }

  /** Some comment of the list, or a direct reply of one, throws. */
  predicate ListThrows(cs: seq<Comment>) {
    cs != [] && (CardThrows(cs[0]) || ListThrows(cs[1..]))
  }

  lemma {:induction false} ListThrowsExists(cs: seq<Comment>)
    ensures ListThrows(cs) <==>
              exists i :: 0 <= i < |cs| && (Throws(cs[i]) || exists j :: 0 <= j < |cs[i].replies| && Throws(cs[i].replies[j]))
  {
    if cs != [] {
      ListThrowsExists(cs[1..]);
      AnyThrowsExists(cs[0].replies);
      assert forall i :: 1 <= i < |cs| ==> cs[i] == cs[1..][i - 1];
    }
  }

  /** `replies.map(reply => createSingleComment(reply, true))`. */
  function ReplyCards(replies: seq<Comment>, v: Variant): (r: Option<seq<Card>>)
    ensures r.None? <==> v.AsWritten? && AnyThrows(replies)
    ensures r.Some? ==> |r.value| == |replies|
    ensures r.Some? ==> forall i :: 0 <= i < |replies| ==> CreateSingleComment(replies[i], true, v) == Some(r.value[i])
  {
    if replies == [] then Some([])
    else
      var first := CreateSingleComment(replies[0], true, v);
      var rest := ReplyCards(replies[1..], v);
      if first.Some? && rest.Some? then Some([first.value] + rest.value) else None
  }

  /** `createCommentCard(comment)`: the parent's card, then its direct replies' cards in order. */
  function CreateCommentCard(c: Comment, v: Variant): (r: Option<seq<Card>>)
    ensures r.None? <==> v.AsWritten? && CardThrows(c)
    ensures r.Some? ==> |r.value| == 1 + |c.replies|
    ensures r.Some? ==> Some(r.value[0]) == CreateSingleComment(c, false, v)
    ensures r.Some? ==> ReplyCards(c.replies, v) == Some(r.value[1..])
    ensures r.Some? ==> forall i :: 0 <= i < |r.value| ==> (r.value[i].isReply <==> i > 0)
  {
    var parent := CreateSingleComment(c, false, v);
    var replies := ReplyCards(c.replies, v);
    if parent.Some? && replies.Some? then Some([parent.value] + replies.value) else None
  }

  /** Both renderings, concatenated, or `None` if either threw. */
  function JoinCards(x: Option<seq<Card>>, y: Option<seq<Card>>): Option<seq<Card>> {
    if x.Some? && y.Some? then Some(x.value + y.value) else None
  }

  /** `comments.map(comment => createCommentCard(comment)).join('')`; `None` where the
      `map` throws. */
  function RenderCards(comments: seq<Comment>, v: Variant): (r: Option<seq<Card>>)
    ensures r.None? <==> v.AsWritten? && ListThrows(comments)
  {
    if comments == [] then Some([])
    else
      JoinCards(CreateCommentCard(comments[0], v), RenderCards(comments[1..], v))
  }

  /** The number of cards a list yields: one per comment plus one per direct reply. */
  function TotalCards(comments: seq<Comment>): nat {
    if comments == [] then 0 else 1 + |comments[0].replies| + TotalCards(comments[1..])
  }

  lemma {:induction false} RenderCardsCount(comments: seq<Comment>, v: Variant)
    ensures RenderCards(comments, v).Some? ==> |RenderCards(comments, v).value| == TotalCards(comments)
  {
    if comments != [] {
      RenderCardsCount(comments[1..], v);
    }
  }

  lemma RenderCardsCons(c: Comment, rest: seq<Comment>, v: Variant)
    ensures RenderCards([c] + rest, v) == JoinCards(CreateCommentCard(c, v), RenderCards(rest, v))
  {
    var cs := [c] + rest;
    assert cs != [] && cs[0] == c && cs[1..] == rest;
  }

  lemma JoinCardsAssociative(x: Option<seq<Card>>, y: Option<seq<Card>>, z: Option<seq<Card>>)
    ensures JoinCards(x, JoinCards(y, z)) == JoinCards(JoinCards(x, y), z)
  {
    if x.Some? && y.Some? && z.Some? {
      assert x.value + (y.value + z.value) == (x.value + y.value) + z.value;
    }
  }

  /** Rendering a concatenation is the concatenation of the renderings. */
  lemma {:induction false} RenderCardsAppend(a: seq<Comment>, b: seq<Comment>, v: Variant)
    ensures RenderCards(a + b, v) == JoinCards(RenderCards(a, v), RenderCards(b, v))
  {
    if a == [] {
      assert a + b == b;
      var rb := RenderCards(b, v);
      if rb.Some? {
        assert [] + rb.value == rb.value;
      }
    } else {
      var a1 := a[1..];
      assert a == [a[0]] + a1;
      assert a + b == [a[0]] + (a1 + b);
      RenderCardsCons(a[0], a1 + b, v);
      RenderCardsCons(a[0], a1, v);
      RenderCardsAppend(a1, b, v);
      JoinCardsAssociative(CreateCommentCard(a[0], v), RenderCards(a1, v), RenderCards(b, v));
    }
  }

  /** No card of the sequence has anything marked. */
  predicate PlainCards(cards: seq<Card>) {
    forall k :: 0 <= k < |cards| ==> Highlight.AllPlain(cards[k].text)
  }

  lemma PlainCommentCard(c: Comment)
    requires CreateCommentCard(c, AsWritten).Some?
    ensures PlainCards(CreateCommentCard(c, AsWritten).value)
  {
    var cards := CreateCommentCard(c, AsWritten).value;
    forall k | 0 <= k < |cards|
      ensures Highlight.AllPlain(cards[k].text)
    {
      if k == 0 {
        assert Some(cards[0]) == CreateSingleComment(c, false, AsWritten);
      } else {
        var replies := ReplyCards(c.replies, AsWritten).value;
        assert cards[k] == replies[k - 1];
        assert Some(replies[k - 1]) == CreateSingleComment(c.replies[k - 1], true, AsWritten);
      }
    }
  }

  /** Every card the code renders has nothing marked, whatever search term is set. */
  lemma {:induction false} SearchTermIgnoredAsWritten(comments: seq<Comment>)
    ensures RenderCards(comments, AsWritten).Some? ==> PlainCards(RenderCards(comments, AsWritten).value)
  {
    if comments != [] && RenderCards(comments, AsWritten).Some? {
      var rest := comments[1..];
      assert comments == [comments[0]] + rest;
      RenderCardsCons(comments[0], rest, AsWritten);
      SearchTermIgnoredAsWritten(rest);
      PlainCommentCard(comments[0]);
      var x := CreateCommentCard(comments[0], AsWritten).value;
      var y := RenderCards(rest, AsWritten).value;
      var all: seq<Card> := x + y;
      assert RenderCards(comments, AsWritten).value == all;
      forall k | 0 <= k < |all|
        ensures Highlight.AllPlain(all[k].text)
      {
        if k >= |x| {
          assert all[k] == y[k - |x|];
        } else {
          assert all[k] == x[k];
        }
      }
    }
  }

  /** The replies with each reply's own replies removed. */
  function DropNested(replies: seq<Comment>): (r: seq<Comment>)
    ensures |r| == |replies|
    ensures forall i :: 0 <= i < |r| ==> r[i] == replies[i].(replies := [])
  {
    seq(|replies|, i requires 0 <= i < |replies| => replies[i].(replies := []))
  }

  /** A card reads nothing of the comment's replies. */
  lemma SingleIgnoresReplies(c: Comment, isReply: bool, v: Variant)
    ensures CreateSingleComment(c, isReply, v) == CreateSingleComment(c.(replies := []), isReply, v)
  {
    var d := c.(replies := []);
    assert c.author == d.author && c.avatar == d.avatar && c.commentId == d.commentId;
    assert CardAlt(c, v) == CardAlt(d, v);
    assert AvatarUrl(c) == AvatarUrl(d);
    assert AvatarFor(c, CardAlt(c, v)) == AvatarFor(d, CardAlt(d, v));
    assert LikesOperand(c) == LikesOperand(d);
    assert CardLikes(c, v) == CardLikes(d, v);
    assert ResolvedText(c) == ResolvedText(d);
    assert CardText(c, v) == CardText(d, v);
  }

  lemma {:induction false} ReplyCardsIgnoreNested(replies: seq<Comment>, v: Variant)
    ensures ReplyCards(replies, v) == ReplyCards(DropNested(replies), v)
  {
    if replies != [] {
      var flat := DropNested(replies);
      assert flat[1..] == DropNested(replies[1..]);
      ReplyCardsIgnoreNested(replies[1..], v);
      SingleIgnoresReplies(replies[0], true, v);
      SingleIgnoresReplies(flat[0], true, v);
      assert flat[0].(replies := []) == replies[0].(replies := []);
    }
  }

  /** A reply's own replies are never visited. */
  lemma NestedRepliesIgnored(c: Comment, v: Variant)
    ensures CreateCommentCard(c, v) == CreateCommentCard(c.(replies := DropNested(c.replies)), v)
  {
    var d := c.(replies := DropNested(c.replies));
    ReplyCardsIgnoreNested(c.replies, v);
    SingleIgnoresReplies(c, false, v);
    SingleIgnoresReplies(d, false, v);
    assert d.(replies := []) == c.(replies := []);
  }
}
