/**
 * The scroll throttle of the comment list (js/components/comment-list.js,
 * lines 35-47): a scroll event requests an animation frame only while no
 * request is outstanding; the frame callback calls `onScroll` if it is set
 * and clears the flag. Frames are explicit events here.
 */
module ScrollThrottle {

  datatype Event = Scroll | Frame | SetScrollHandler(present: bool)

  /** The closure flag `isScrolling`, the frame callbacks requested and not yet run,
      whether `onScroll` is set, and how many frames ran and called `onScroll`. */
  datatype Throttle = Throttle(
    isScrolling: bool,
    pending: nat,
    hasHandler: bool,
    framesRun: nat,
    notifications: nat)

  const Initial: Throttle := Throttle(false, 0, false, 0, 0)

  /** At most one callback is pending, exactly when the flag is set, and `onScroll`
      never ran more often than the frames did. */
  predicate Inv(t: Throttle) {
    t.pending <= 1 && (t.isScrolling <==> t.pending == 1) && t.notifications <= t.framesRun
  }

  /** One event. A frame with no callback pending runs nothing. */
  function Step(t: Throttle, e: Event): (u: Throttle)
    ensures Inv(t) ==> Inv(u)
    ensures e == Scroll && t.isScrolling ==> u == t
    ensures e == Scroll && !t.isScrolling ==> u == t.(isScrolling := true, pending := t.pending + 1)
    ensures e == Frame && t.pending == 0 ==> u == t
    ensures e.SetScrollHandler? ==> u == t.(hasHandler := e.present)
    ensures u.framesRun + u.pending <= t.framesRun + t.pending + (if e == Scroll then 1 else 0)
    ensures u.framesRun <= t.framesRun + (if e == Frame then 1 else 0)
    ensures e == Frame && t.pending > 0 ==>
              u == t.(isScrolling := false, pending := t.pending - 1, framesRun := t.framesRun + 1,
                      notifications := t.notifications + (if t.hasHandler then 1 else 0))
  {
    match e
    case Scroll =>
      if !t.isScrolling then t.(pending := t.pending + 1, isScrolling := true) else t
    case Frame =>
      if t.pending > 0 then
        t.(pending := t.pending - 1,
           framesRun := t.framesRun + 1,
           notifications := t.notifications + (if t.hasHandler then 1 else 0),
           isScrolling := false)
      else t
    case SetScrollHandler(present) =>
      t.(hasHandler := present)
  }

  function Run(t: Throttle, events: seq<Event>): Throttle
    decreases |events|
  {
    if events == [] then t else Run(Step(t, events[0]), events[1..])
  }

  function CountScrolls(events: seq<Event>): nat {
    if events == [] then 0 else (if events[0] == Scroll then 1 else 0) + CountScrolls(events[1..])
  }

  function CountFrames(events: seq<Event>): nat {
    if events == [] then 0 else (if events[0] == Frame then 1 else 0) + CountFrames(events[1..])
  }

  /** Over any sequence of events the invariant holds, every frame that ran was
      requested by a distinct scroll, and no more frames ran than were fired. */
  lemma {:induction false} RunBounds(t: Throttle, events: seq<Event>)
    requires Inv(t)
    ensures var u := Run(t, events);
            && Inv(u)
            && u.framesRun + u.pending <= t.framesRun + t.pending + CountScrolls(events)
            && u.framesRun <= t.framesRun + CountFrames(events)
    decreases |events|
  {
    if events != [] {
      RunBounds(Step(t, events[0]), events[1..]);
    }
  }

  /** From the initial state: `onScroll` calls <= frames run <= frame events, and
      frames run <= scroll events. */
  lemma ThrottleFromStart(events: seq<Event>)
    ensures var u := Run(Initial, events);
            && u.pending <= 1
            && u.notifications <= u.framesRun <= CountFrames(events)
            && u.framesRun <= CountScrolls(events)
  {
    RunBounds(Initial, events);
  }

  function Scrolls(n: nat): (events: seq<Event>)
    ensures |events| == n && forall i :: 0 <= i < n ==> events[i] == Scroll
  {
    seq(n, _ => Scroll)
  }

  /** Once a frame is pending, further scrolls change nothing. */
  lemma {:induction false} ScrollsWhilePending(t: Throttle, n: nat)
    requires t.isScrolling
    ensures Run(t, Scrolls(n)) == t
    decreases n
  {
    if n > 0 {
      assert Scrolls(n)[1..] == Scrolls(n - 1);
      ScrollsWhilePending(t, n - 1);
    }
  }

  lemma {:induction false} RunAppend(t: Throttle, a: seq<Event>, b: seq<Event>)
    ensures Run(t, a + b) == Run(Run(t, a), b)
    decreases |a|
  {
    if a != [] {
      assert (a + b)[0] == a[0] && (a + b)[1..] == a[1..] + b;
      RunAppend(Step(t, a[0]), a[1..], b);
    } else {
      assert a + b == b;
    }
  }

  /** The throttle at work: from an idle state with a handler set, a burst of n >= 1
      scrolls followed by one frame calls `onScroll` exactly once and ends idle. */
  lemma ScrollBurstNotifiesOnce(t: Throttle, n: nat)
    requires Inv(t) && !t.isScrolling && t.hasHandler && n >= 1
    ensures var u := Run(t, Scrolls(n) + [Frame]);
            u == t.(notifications := t.notifications + 1, framesRun := t.framesRun + 1)
  {
    var s1 := Step(t, Scroll);
    assert Scrolls(n) == [Scroll] + Scrolls(n - 1);
    ScrollsWhilePending(s1, n - 1);
    assert Run(t, Scrolls(n)) == s1;
    RunAppend(t, Scrolls(n), [Frame]);
  }

  /** The handler stays set after a burst, so every later burst notifies again. */
  lemma TwoBurstsNotifyTwice(t: Throttle, m: nat, n: nat)
    requires Inv(t) && !t.isScrolling && t.hasHandler && m >= 1 && n >= 1
    ensures var u := Run(t, Scrolls(m) + [Frame] + Scrolls(n) + [Frame]);
            u == t.(notifications := t.notifications + 2, framesRun := t.framesRun + 2)
  {
    var first := Scrolls(m) + [Frame];
    ScrollBurstNotifiesOnce(t, m);
    var mid := Run(t, first);
    ScrollBurstNotifiesOnce(mid, n);
    assert first + Scrolls(n) + [Frame] == first + (Scrolls(n) + [Frame]);
    RunAppend(t, first, Scrolls(n) + [Frame]);
  }
}
