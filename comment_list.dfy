/**
 * `CommentListComponent` (js/components/comment-list.js, lines 5-333): the
 * stored comments, the loading flag, the search term, the optional handlers,
 * the scroll-throttle flag and the container's content. The container is an
 * abstract sequence of nodes: cards, skeleton placeholders, or one empty-state
 * message.
 */
module CommentListComponent {
  import opened JsValues
  import opened Cards
  import ScrollThrottle
  import ClickRouting

  /** One top-level node of the container. */
  datatype Node = CardNode(card: Card) | SkeletonCard | EmptyState(message: JsString)

  function CardNodes(cards: seq<Card>): (nodes: seq<Node>)
    ensures |nodes| == |cards|
    ensures forall i :: 0 <= i < |cards| ==> nodes[i] == CardNode(cards[i])
  {
    seq(|cards|, i requires 0 <= i < |cards| => CardNode(cards[i]))
  }

  lemma CardNodesAppend(a: seq<Card>, b: seq<Card>)
    ensures CardNodes(a + b) == CardNodes(a) + CardNodes(b)
  {
  }

  /** The markup `renderSkeleton(count)` writes: `count` placeholder cards. */
  function Skeletons(count: nat): (nodes: seq<Node>)
    ensures |nodes| == count && forall i :: 0 <= i < count ==> nodes[i] == SkeletonCard
  {
    seq(count, _ => SkeletonCard)
  }

  class CommentList {
    var comments: seq<Comment>
    var isLoading: bool
    var searchTerm: JsString           // `this.searchTerm`; stored, never read by the renderer
    var view: seq<Node>                // the container's children
    var hasExportHandler: bool         // `this.onCommentExport` is set
    var hasScrollHandler: bool         // `this.onScroll` is set
    var isScrolling: bool              // the closure flag of `setupVirtualScrolling`
    var pendingFrames: nat             // animation-frame callbacks requested, not yet run
    ghost var framesRun: nat
    ghost var notifications: nat

    ghost function Throttle(): ScrollThrottle.Throttle
      reads this
    {
      ScrollThrottle.Throttle(isScrolling, pendingFrames, hasScrollHandler, framesRun, notifications)
    }

    /** The throttle invariant, and the stored comments render without throwing (they are
        only stored after their cards were built). */
    ghost predicate Valid()
      reads this
    {
      ScrollThrottle.Inv(Throttle()) && RenderCards(comments, AsWritten).Some?
    }

    /** The container shows exactly the cards of the stored comments. */
    ghost predicate InSync()
      reads this
    {
      var cards := RenderCards(comments, AsWritten);
      cards.Some? && view == CardNodes(cards.value)
    }

    /** `new CommentListComponent(container, exportService)` on an empty container. */
    constructor ()
      ensures Valid() && InSync()
      ensures comments == [] && !isLoading && view == [] && searchTerm == []
      ensures !hasExportHandler && Throttle() == ScrollThrottle.Initial
    {
      comments := [];
      isLoading := false;
      searchTerm := [];
      view := [];
      hasExportHandler := false;
      hasScrollHandler := false;
      isScrolling := false;
      pendingFrames := 0;
      framesRun := 0;
      notifications := 0;
    }

    /** `render(comments, append)`. `threw` tells that building the cards threw: then the
        container and the stored comments are as before and `isLoading` stays set. */
    method Render(xs: seq<Comment>, append: bool) returns (threw: bool)
      requires Valid()
      modifies this
      ensures Valid()
      ensures threw <==> ListThrows(xs)
      ensures threw ==> isLoading && comments == old(comments) && view == old(view)
      ensures !threw ==>
                && !isLoading
                && comments == (if append then old(comments) + xs else xs)
                && view == (if append then old(view) else []) + CardNodes(RenderCards(xs, AsWritten).value)
      ensures !threw && (!append || old(InSync())) ==> InSync()
      ensures searchTerm == old(searchTerm) && hasExportHandler == old(hasExportHandler)
      ensures Throttle() == old(Throttle())
    {
      isLoading := true;
      var rendered := RenderCards(xs, AsWritten);
      if rendered.None? {
        threw := true;
        return;
      }
      threw := false;
      var cards := rendered.value;
      if append {
        RenderCardsAppend(comments, xs, AsWritten);
        CardNodesAppend(RenderCards(comments, AsWritten).value, cards);
        view := view + CardNodes(cards);
        comments := comments + xs;
      } else {
        view := CardNodes(cards);
        comments := xs;
      }
      isLoading := false;
    }

    /** `renderSkeleton(count)`: placeholders only; the stored comments stay. */
    method RenderSkeleton(count: nat)
      requires Valid()
      modifies this
      ensures Valid()
      ensures view == Skeletons(count)
      ensures comments == old(comments) && isLoading == old(isLoading) && searchTerm == old(searchTerm)
      ensures hasExportHandler == old(hasExportHandler) && Throttle() == old(Throttle())
    {
      view := Skeletons(count);
    }

    /** `showEmptyState(message)`: one message node; the stored comments stay. */
    method ShowEmptyState(message: JsString)
      requires Valid()
      modifies this
      ensures Valid()
      ensures view == [EmptyState(message)]
      ensures comments == old(comments) && isLoading == old(isLoading) && searchTerm == old(searchTerm)
      ensures hasExportHandler == old(hasExportHandler) && Throttle() == old(Throttle())
    {
      view := [EmptyState(message)];
    }

    /** `clear()`. */
    method Clear()
      requires Valid()
      modifies this
      ensures Valid() && InSync()
      ensures view == [] && comments == []
      ensures isLoading == old(isLoading) && searchTerm == old(searchTerm)
      ensures hasExportHandler == old(hasExportHandler) && Throttle() == old(Throttle())
    {
      view := [];
      comments := [];
    }

    /** `setSearchTerm(term)`: store the term, then `render(this.comments)`. The stored
        comments always render, and the cards do not read the term. */
    method SetSearchTerm(term: JsString)
      requires Valid()
      modifies this
      ensures Valid() && InSync() && !isLoading
      ensures searchTerm == term && comments == old(comments)
      ensures view == CardNodes(RenderCards(old(comments), AsWritten).value)
      ensures hasExportHandler == old(hasExportHandler) && Throttle() == old(Throttle())
    {
      searchTerm := term;
      var threw := Render(comments, false);
    }

    /** `setCommentExportHandler(handler)`; only whether a handler is set is observable here. */
    method SetCommentExportHandler(present: bool)
      requires Valid()
      modifies this
      ensures Valid() && hasExportHandler == present
      ensures comments == old(comments) && view == old(view) && isLoading == old(isLoading)
      ensures searchTerm == old(searchTerm) && Throttle() == old(Throttle())
    {
      hasExportHandler := present;
    }

    /** `setScrollHandler(handler)`. */
    method SetScrollHandler(present: bool)
      requires Valid()
      modifies this
      ensures Valid()
      ensures Throttle() == ScrollThrottle.Step(old(Throttle()), ScrollThrottle.SetScrollHandler(present))
      ensures comments == old(comments) && view == old(view) && isLoading == old(isLoading)
      ensures searchTerm == old(searchTerm) && hasExportHandler == old(hasExportHandler)
    {
      hasScrollHandler := present;
    }

    /** `getComments()`: a copy of the stored comments. */
    method GetComments() returns (r: seq<Comment>)
      ensures r == comments
    {
      r := comments;
    }

    /** The container's click listener for a click whose target and ancestors are `chain`. */
    method HandleClick(chain: seq<ClickRouting.Element>) returns (effect: ClickRouting.ClickEffect)
      ensures effect == ClickRouting.RouteClick(chain, hasExportHandler)
      ensures |effect.exportCalls| <= 1
      ensures !hasExportHandler ==> effect.exportCalls == []
    {
      effect := ClickRouting.RouteClick(chain, hasExportHandler);
    }

    /** The container's scroll listener. */
    method HandleScroll()
      requires Valid()
      modifies this
      ensures Valid()
      ensures Throttle() == ScrollThrottle.Step(old(Throttle()), ScrollThrottle.Scroll)
      ensures comments == old(comments) && view == old(view) && isLoading == old(isLoading)
      ensures searchTerm == old(searchTerm) && hasExportHandler == old(hasExportHandler)
    {
      if !isScrolling {
        pendingFrames := pendingFrames + 1;   // window.requestAnimationFrame(...)
        isScrolling := true;
      }
    }

    /** The next animation frame: runs the pending callback, if any; `notified` tells
        whether it called `onScroll`. */
    method HandleAnimationFrame() returns (notified: bool)
      requires Valid()
      modifies this
      ensures Valid()
      ensures Throttle() == ScrollThrottle.Step(old(Throttle()), ScrollThrottle.Frame)
      ensures notified <==> old(pendingFrames) > 0 && hasScrollHandler
      ensures comments == old(comments) && view == old(view) && isLoading == old(isLoading)
      ensures searchTerm == old(searchTerm) && hasExportHandler == old(hasExportHandler)
    {
      notified := false;
      if pendingFrames > 0 {
        pendingFrames := pendingFrames - 1;
        framesRun := framesRun + 1;
        if hasScrollHandler {
          notified := true;                   // this.onScroll?.()
          notifications := notifications + 1;
        }
        isScrolling := false;
      }
    }
  }

  /** Rendering the same list twice without appending shows the same cards both times. */
  method RenderTwice(list: CommentList, xs: seq<Comment>) returns (first: seq<Node>, second: seq<Node>)
    requires list.Valid() && !ListThrows(xs)
    modifies list
    ensures first == second == list.view == CardNodes(RenderCards(xs, AsWritten).value)
    ensures list.Valid() && list.InSync() && list.comments == xs
    ensures list.searchTerm == old(list.searchTerm)
  {
    var threw := list.Render(xs, false);
    first := list.view;
    threw := list.Render(xs, false);
    second := list.view;
  }

  /** `render(a)` then `render(b, true)` stores `a ++ b` and shows their cards in that order. */
  method RenderThenAppend(list: CommentList, a: seq<Comment>, b: seq<Comment>)
    requires list.Valid() && !ListThrows(a) && !ListThrows(b)
    modifies list
    ensures list.Valid() && list.InSync() && list.comments == a + b
    ensures list.view == CardNodes(RenderCards(a, AsWritten).value + RenderCards(b, AsWritten).value)
  {
    var threw := list.Render(a, false);
    threw := list.Render(b, true);
    RenderCardsAppend(a, b, AsWritten);
  }

  /** As written, changing the search term re-renders the same cards. */
  method SearchTermKeepsView(list: CommentList, t1: JsString, t2: JsString) returns (before: seq<Node>, after: seq<Node>)
    requires list.Valid()
    modifies list
    ensures before == after == list.view
    ensures list.searchTerm == t2
  {
    list.SetSearchTerm(t1);
    before := list.view;
    list.SetSearchTerm(t2);
    after := list.view;
  }

  /** A comment whose like count is 0 and that has no reaction count makes `render` throw:
      nothing is stored, the container is unchanged and `isLoading` stays set. */
  method ZeroLikesRenderThrows(list: CommentList, c: Comment, append: bool)
    requires list.Valid() && c.likeCount == Some(0) && c.reactionsCount.None?
    modifies list
    ensures list.isLoading && list.comments == old(list.comments) && list.view == old(list.view)
  {
    assert CardThrows([c][0]);
    var threw := list.Render([c], append);
  }
}
