/** The interaction controller of the carousel, as a value: the page
    script's module-level variables gathered into one state, and for each
    event the state it leads to. Timers are events here: `Settle` is the
    600 ms timeout that ends a transition and `Tick` one firing of the
    4000 ms autoplay interval. */
module Controller {

  import G = Geometry
  import M = Modular

  datatype Option<T> = None | Some(value: T)

  /** The text shown under the carousel for one item. */
  datatype Caption = Caption(title: string, description: string)

  /** The captions, indexed by item position. */
  const ImgData: seq<Caption> := [
    Caption("Mountain Landscape", "Majestic peaks covered in snow during golden hour"),
    Caption("Forest Path", "A winding trail through ancient woodland"),
    Caption("Ocean Sunset", "Golden hour at the beach with waves crashing"),
    Caption("Rolling Sand Dunes", "Wind-swept dunes under a clear blue sky"),
    Caption("Serene Water", "Calm lake reflecting the surrounding mountains"),
    Caption("Starry Night", "A breathtaking view of the Milky Way"),
    Caption("Waterfall", "Cascading water through lush green forest")
  ]

  /** A handle returned by setInterval. The HTML timer API hands out
      integers greater than zero, so testing the handle for truthiness is
      the same as testing it against null. */
  type TimerHandle = x: int | 0 < x witness 1

  /** Horizontal travel (px) a touch must exceed to count as a swipe. */
  const SwipeThreshold: int := 30

  datatype Key = ArrowLeft | ArrowRight | OtherKey

  /** The controller's state. `shown` is the selection the items, dots and
      caption were last laid out for; it differs from `current` only after
      an autoplay tick that arrived during a transition. */
  datatype Snapshot = Snapshot(
    count: int,                      // items.length, fixed
    current: int,                    // currentItem
    animating: bool,                 // isAnimation
    shown: int,                      // selection of the last layout
    playing: bool,                   // isPlaying
    interval: Option<TimerHandle>,   // autoplayInterval; None is null
    swiping: bool,                   // isSwiping
    startX: int, startY: int,        // touchStartX, touchStartY
    endX: int, endY: int)            // touchEndX, touchEndY

  /** Indices in range: there is at least one item, no more items than
      captions, and both selections name an item. */
  predicate Ranges(s: Snapshot)
  {
    1 <= s.count <= |ImgData| && 0 <= s.current < s.count && 0 <= s.shown < s.count
  }

  /** The state after initialisation and after every event: in range, and
      autoplay is on exactly when an interval is set. */
  predicate Valid(s: Snapshot)
  {
    Ranges(s) && (s.playing <==> s.interval.Some?)
  }

  /** updateCoverflow's effect on the state: unless a transition is in
      flight, start one and lay everything out for the current selection. */
  function Update(s: Snapshot): (r: Snapshot)
    ensures r.animating
    ensures s.animating ==> r == s
    ensures !s.animating ==> r.shown == s.current
    ensures r.(animating := s.animating, shown := s.shown) == s
    ensures Ranges(s) ==> Ranges(r)
  {
    if s.animating then s else s.(animating := true, shown := s.current)
  }

  /** navigate(direction): dropped during a transition, otherwise one step
      round the circle and a new layout. */
  function Navigate(s: Snapshot, direction: int): (r: Snapshot)
    requires Valid(s) && (direction == 1 || direction == -1)
    ensures Valid(r)
    ensures s.animating ==> r == s
    ensures !s.animating ==>
              var target := (s.current + direction) % s.count;
              r == s.(current := target, animating := true, shown := target)
  {
    if s.animating then s
    else
      var stepped := s.current + direction;
      var wrapped := if stepped < 0 then s.count - 1 else if stepped >= s.count then 0 else stepped;
      StepWraps(s.current, direction, s.count);
      Update(s.(current := wrapped))
  }

  /** For a step of one, navigate's two wrap-around branches compute the
      remainder modulo the item count. */
  lemma StepWraps(current: int, direction: int, n: int)
    requires 0 <= current < n && (direction == 1 || direction == -1)
    ensures (current + direction) % n ==
              if current + direction < 0 then n - 1
              else if current + direction >= n then 0
              else current + direction
  {
  }

  /** goToIndex(index): dropped during a transition and when `index` is
      already selected; otherwise select it and lay out anew. */
  function GoToIndex(s: Snapshot, index: int): (r: Snapshot)
    requires Valid(s) && 0 <= index < s.count
    ensures Valid(r)
    ensures r.current == (if s.animating then s.current else index)
    ensures r.animating <==> s.animating || index != s.current
    ensures !s.animating && index != s.current ==> r.shown == index
    ensures r.(current := s.current, animating := s.animating, shown := s.shown) == s
    ensures s.animating || index == s.current ==> r == s
  {
    if s.animating || index == s.current then s
    else Update(s.(current := index))
  }

  /** One firing of the autoplay interval. The selection always advances;
      the layout follows only if no transition is in flight. */
  function Tick(s: Snapshot): (r: Snapshot)
    requires Valid(s)
    ensures Valid(r)
    ensures r.current == (s.current + 1) % s.count && r.animating
    ensures r.shown == (if s.animating then s.shown else r.current)
    ensures r.(current := s.current, animating := s.animating, shown := s.shown) == s
  {
    Update(s.(current := (s.current + 1) % s.count))
  }

  /** The 600 ms timeout scheduled by updateCoverflow: the transition ends. */
  function Settle(s: Snapshot): (r: Snapshot)
    ensures !r.animating && r.(animating := s.animating) == s
    ensures Valid(s) ==> Valid(r)
  {
    s.(animating := false)
  }

  /** startAutoplay, where `timer` is the handle setInterval returned. */
  function Start(s: Snapshot, timer: TimerHandle): (r: Snapshot)
    ensures r.playing && r.interval == Some(timer)
    ensures r.(playing := s.playing, interval := s.interval) == s
    ensures Ranges(s) ==> Valid(r)
  {
    s.(interval := Some(timer), playing := true)
  }

  /** stopAutoplay: clear the interval if one is set, and mark autoplay off. */
  function Stop(s: Snapshot): (r: Snapshot)
    ensures !r.playing && r.interval == None
    ensures r.(playing := s.playing, interval := s.interval) == s
    ensures Ranges(s) ==> Valid(r)
  {
    var cleared := if s.interval.Some? then s.(interval := None) else s;
    cleared.(playing := false)
  }

  /** toggleAutoplay: stop when playing, start otherwise. */
  function Toggle(s: Snapshot, timer: TimerHandle): (r: Snapshot)
    requires Valid(s)
    ensures Valid(r)
    ensures r.playing == !s.playing
    ensures r.interval == (if s.playing then None else Some(timer))
    ensures r.(playing := s.playing, interval := s.interval) == s
  {
    if s.playing then Stop(s) else Start(s, timer)
  }

  /** The navigation a touch that moved by (-diffX, -diffY) asks for: 1
      (forward) for a mostly horizontal move of more than 30 px to the left,
      -1 for one to the right, 0 for anything else. */
  function SwipeDirection(diffX: int, diffY: int): (r: int)
    ensures r == 0 || r == 1 || r == -1
    ensures r == 1 <==> diffX > SwipeThreshold && diffX > G.Abs(diffY)
    ensures r == -1 <==> -diffX > SwipeThreshold && -diffX > G.Abs(diffY)
  {
    if G.Abs(diffX) > G.Abs(diffY) && G.Abs(diffX) > SwipeThreshold then
      (if diffX > 0 then 1 else -1)
    else 0
  }

  /** handleSwipe: a qualifying swipe stops autoplay and then navigates. */
  function HandleSwipe(s: Snapshot): (r: Snapshot)
    requires Valid(s)
    ensures Valid(r)
    ensures SwipeDirection(s.startX - s.endX, s.startY - s.endY) == 0 ==> r == s
    ensures var d := SwipeDirection(s.startX - s.endX, s.startY - s.endY);
            d != 0 ==>
              && !r.playing && r.interval == None
              && r.current == (if s.animating then s.current else (s.current + d) % s.count)
              && r.animating && (!s.animating ==> r.shown == r.current)
    ensures r.(playing := s.playing, interval := s.interval, current := s.current,
               animating := s.animating, shown := s.shown) == s
  {
    var direction := SwipeDirection(s.startX - s.endX, s.startY - s.endY);
    if direction == 0 then s else Navigate(Stop(s), direction)
  }

  /** touchstart: remember where the touch began. */
  function TouchStart(s: Snapshot, x: int, y: int): (r: Snapshot)
    ensures r.swiping && r.startX == x && r.startY == y
    ensures r.(swiping := s.swiping, startX := s.startX, startY := s.startY) == s
    ensures Valid(s) ==> Valid(r)
  {
    s.(startX := x, startY := y, swiping := true)
  }

  /** touchend: ignored unless a touch began; otherwise classify the gesture,
      act on it, and forget the touch. A qualifying swipe stops autoplay
      even when the navigation itself is dropped. */
  function TouchEnd(s: Snapshot, x: int, y: int): (r: Snapshot)
    requires Valid(s)
    ensures Valid(r)
    ensures !s.swiping ==> r == s
    ensures s.swiping ==> !r.swiping && r.endX == x && r.endY == y
    ensures s.swiping && SwipeDirection(s.startX - x, s.startY - y) == 0 ==>
              r == s.(swiping := false, endX := x, endY := y)
    ensures s.swiping && SwipeDirection(s.startX - x, s.startY - y) != 0 ==>
              !r.playing && r.interval == None
              && r.current == (if s.animating then s.current
                               else (s.current + SwipeDirection(s.startX - x, s.startY - y)) % s.count)
              && r.animating && (!s.animating ==> r.shown == r.current)
    ensures s.swiping ==>
              r.(playing := s.playing, interval := s.interval, current := s.current,
                 animating := s.animating, shown := s.shown,
                 swiping := s.swiping, endX := s.endX, endY := s.endY) == s
  {
    if !s.swiping then s
    else HandleSwipe(s.(endX := x, endY := y)).(swiping := false)
  }

  /** A click on item `index` or on dot `index`: the goToIndex listener was
      registered before the one that stops autoplay, so it runs first. */
  function Select(s: Snapshot, index: int): (r: Snapshot)
    requires Valid(s) && 0 <= index < s.count
    ensures Valid(r)
    ensures !r.playing && r.interval == None
    ensures r.current == (if s.animating then s.current else index)
    ensures r.animating <==> s.animating || index != s.current
    ensures !s.animating && index != s.current ==> r.shown == index
    ensures r.(playing := s.playing, interval := s.interval, current := s.current,
               animating := s.animating, shown := s.shown) == s
  {
    Stop(GoToIndex(s, index))
  }

  /** A click on the left (-1) or right (1) button: autoplay is stopped
      first, then the carousel navigates. */
  function ClickButton(s: Snapshot, direction: int): (r: Snapshot)
    requires Valid(s) && (direction == 1 || direction == -1)
    ensures Valid(r)
    ensures !r.playing && r.interval == None
    ensures r.current == (if s.animating then s.current else (s.current + direction) % s.count)
    ensures r.animating && (!s.animating ==> r.shown == r.current)
    ensures r.(playing := s.playing, interval := s.interval, current := s.current,
               animating := s.animating, shown := s.shown) == s
  {
    Navigate(Stop(s), direction)
  }

  /** A key press: the navigating listener was registered before the one
      that stops autoplay, so an arrow key navigates first. */
  function KeyDown(s: Snapshot, key: Key): (r: Snapshot)
    requires Valid(s)
    ensures Valid(r)
    ensures key == OtherKey ==> r == s
    ensures key != OtherKey ==>
              var direction := if key == ArrowLeft then -1 else 1;
              && !r.playing && r.interval == None
              && r.current == (if s.animating then s.current else (s.current + direction) % s.count)
              && r.animating && (!s.animating ==> r.shown == r.current)
    ensures r.(playing := s.playing, interval := s.interval, current := s.current,
               animating := s.animating, shown := s.shown) == s
  {
    match key
    case ArrowLeft => Stop(Navigate(s, -1))
    case ArrowRight => Stop(Navigate(s, 1))
    case OtherKey => s
  }

  /** The initialisation sequence: the variables as declared, then
      updateCoverflow, then startAutoplay. */
  function Init(n: int, timer: TimerHandle): (r: Snapshot)
    requires 1 <= n <= |ImgData|
    ensures Valid(r)
    ensures r.count == n && r.current == 0 && r.shown == 0
    ensures r.animating && r.playing && r.interval == Some(timer) && !r.swiping
  {
    var declared := Snapshot(n, 0, false, 0, true, None, false, 0, 0, 0, 0);
    Start(Update(declared), timer)
  }

  /** `k` accepted forward navigations, each allowed to settle. */
  function Forward(s: Snapshot, k: nat): (r: Snapshot)
    requires Valid(s) && !s.animating
    ensures Valid(r) && !r.animating && r.count == s.count
    decreases k
  {
    if k == 0 then s else Forward(Settle(Navigate(s, 1)), k - 1)
  }

  /** `k` firings of the autoplay interval, with or without settling. */
  function Ticks(s: Snapshot, k: nat): (r: Snapshot)
    requires Valid(s)
    ensures Valid(r) && r.count == s.count
    decreases k
  {
    if k == 0 then s else Ticks(Tick(s), k - 1)
  }

  /** Stopping autoplay and navigating touch disjoint parts of the state,
      so the order in which the listeners run does not matter: a key press
      and a button press in the same direction end in the same state, and
      so do the two orders of goToIndex and stopAutoplay. */
  lemma StopCommutesWithNavigation(s: Snapshot, direction: int, index: int)
    requires Valid(s) && (direction == 1 || direction == -1) && 0 <= index < s.count
    ensures Stop(Navigate(s, direction)) == Navigate(Stop(s), direction)
    ensures Stop(GoToIndex(s, index)) == GoToIndex(Stop(s), index)
    ensures KeyDown(s, ArrowLeft) == ClickButton(s, -1)
    ensures KeyDown(s, ArrowRight) == ClickButton(s, 1)
  {
  }

  /** stopAutoplay is idempotent. */
  lemma StopIdempotent(s: Snapshot)
    ensures Stop(Stop(s)) == Stop(s)
  {
  }

  /** Going one way and then back, with the transition allowed to settle in
      between, restores the selection and the layout. */
  lemma NavigateRoundTrip(s: Snapshot, direction: int)
    requires Valid(s) && !s.animating && (direction == 1 || direction == -1)
    ensures Navigate(Settle(Navigate(s, direction)), -direction).current == s.current
    ensures Navigate(Settle(Navigate(s, direction)), -direction).shown == s.current
  {
  }

  /** While a transition is in flight, a second navigation intent of any
      kind is dropped. */
  lemma SecondIntentDropped(s: Snapshot, first: int, second: int, index: int)
    requires Valid(s) && (first == 1 || first == -1) && (second == 1 || second == -1)
    requires 0 <= index < s.count
    ensures Navigate(Navigate(s, first), second) == Navigate(s, first)
    ensures GoToIndex(Navigate(s, first), index) == Navigate(s, first)
  {
  }

  /** `k` settled forward navigations advance the selection by `k` round
      the circle. */
  lemma {:induction false} ForwardAdvances(s: Snapshot, k: nat)
    requires Valid(s) && !s.animating
    ensures Forward(s, k).current == (s.current + k) % s.count
    decreases k
  {
    if k == 0 {
      M.ModInRange(s.current, s.count);
    } else {
      var t := Settle(Navigate(s, 1));
      ForwardAdvances(t, k - 1);
      M.ModAdd(s.current + 1, k - 1, s.count);
    }
  }

  /** `k` autoplay ticks advance the selection by `k` round the circle,
      whether or not the transitions settle in between. */
  lemma {:induction false} TicksAdvance(s: Snapshot, k: nat)
    requires Valid(s)
    ensures Ticks(s, k).current == (s.current + k) % s.count
    decreases k
  {
    if k == 0 {
      M.ModInRange(s.current, s.count);
    } else {
      TicksAdvance(Tick(s), k - 1);
      M.ModAdd(s.current + 1, k - 1, s.count);
    }
  }

  /** A full turn of `n` settled forward navigations, `n` being the item
      count, comes back to the starting item. */
  lemma ForwardFullTurn(s: Snapshot, n: nat)
    requires Valid(s) && !s.animating && n == s.count
    ensures Forward(s, n).current == s.current
  {
    ForwardAdvances(s, n);
    M.ModAbove(s.current, n);
  }

  /** A full turn of `n` autoplay ticks, `n` being the item count, comes
      back to the starting item. */
  lemma TicksFullTurn(s: Snapshot, n: nat)
    requires Valid(s) && n == s.count
    ensures Ticks(s, n).current == s.current
  {
    TicksAdvance(s, n);
    M.ModAbove(s.current, n);
  }

  /** An autoplay tick during a transition moves the selection but not the
      layout, and the mismatch outlasts the transition. */
  lemma TickDuringTransitionLeavesLayoutStale(s: Snapshot)
    requires Valid(s) && s.animating && s.shown == s.current && s.count >= 2
    ensures Tick(s).current != Tick(s).shown
    ensures Settle(Tick(s)).current != Settle(Tick(s)).shown
  {
  }

  /** Every event except a tick during a transition keeps the layout on the
      current selection; an accepted tick or navigation also repairs a
      stale layout. */
  lemma EventsKeepLayoutInStep(s: Snapshot, direction: int, index: int, x: int, y: int,
                               timer: TimerHandle, key: Key)
    requires Valid(s) && (direction == 1 || direction == -1) && 0 <= index < s.count
    ensures !s.animating ==> Navigate(s, direction).shown == Navigate(s, direction).current
    ensures !s.animating ==> Tick(s).shown == Tick(s).current
    ensures s.shown == s.current ==>
              && Navigate(s, direction).shown == Navigate(s, direction).current
              && GoToIndex(s, index).shown == GoToIndex(s, index).current
              && Settle(s).shown == Settle(s).current
              && Stop(s).shown == Stop(s).current
              && Toggle(s, timer).shown == Toggle(s, timer).current
              && TouchStart(s, x, y).shown == TouchStart(s, x, y).current
              && TouchEnd(s, x, y).shown == TouchEnd(s, x, y).current
              && Select(s, index).shown == Select(s, index).current
              && ClickButton(s, direction).shown == ClickButton(s, direction).current
              && KeyDown(s, key).shown == KeyDown(s, key).current
  {
  }

  /** A transition, once started, lasts until its timeout: every event but
      `Settle` leaves `animating` set, and `Settle` clears it. */
  lemma TransitionHeldUntilSettle(s: Snapshot, direction: int, index: int, x: int, y: int,
                                  timer: TimerHandle, key: Key)
    requires Valid(s) && s.animating && (direction == 1 || direction == -1) && 0 <= index < s.count
    ensures Navigate(s, direction).animating && GoToIndex(s, index).animating && Tick(s).animating
    ensures Start(s, timer).animating && Stop(s).animating && Toggle(s, timer).animating
    ensures TouchStart(s, x, y).animating && TouchEnd(s, x, y).animating
    ensures Select(s, index).animating && ClickButton(s, direction).animating
    ensures KeyDown(s, key).animating
    ensures !Settle(s).animating
  {
  }

  /** A swipe in the opposite direction asks for the opposite navigation. */
  lemma SwipeReversal(diffX: int, diffY: int)
    ensures SwipeDirection(-diffX, -diffY) == -SwipeDirection(diffX, diffY)
  {
  }
}
