# Coverflow carousel — a verified Dafny model

This project models the coverflow carousel of a marketing page's script
(`main.js`). It has two parts:

- the **layout engine** (`geometry.dfy`, module `Geometry`). For the selected
  item it computes each item's signed circular offset and, from that, its
  horizontal and depth translation, rotation, scale, opacity and stacking
  order. It also marks the selected item and dot active.
- the **interaction controller**. It is given twice:
  - `controller.dfy`, module `Controller`: the state as a value (`Snapshot`)
    and one pure step function per event.
  - `carousel.dfy`, module `Carousel`: class `Coverflow`, whose fields are the
    script's module-level variables. The item placements and dot flags are
    arrays written in place by `UpdateCoverflow`'s two loops. Each event
    handler is a method whose `ensures` ties the new state to the
    controller's step function for that event.

`modular.dfy` (module `Modular`) holds the facts about `%` that the
wrap-around proofs need.

Timers are events. `Settle` is the 600 ms timeout that clears
`isAnimation`. `Tick` is one firing of the 4000 ms autoplay interval. The
handle `setInterval` returns is a parameter of `Start`, `Toggle` and the
constructor. Touch coordinates are parameters of `TouchStart` and `TouchEnd`.

Opacity and scale are exact reals: 0.2 and 0.1 per step, with no
floating-point rounding. The source tests `offset > items.length / 2` over
the reals; the model tests `2 * offset > n`, which is the same comparison.

Two behaviours of `main.js` are worth knowing before reading the model:

- Not every listener stops autoplay at the same point. The keyboard, item
  and dot listeners navigate first and stop autoplay second: the navigating
  handlers (main.js:49 and 138-146) are registered before the stopping ones
  (main.js:250-252 and 263-271). The arrow buttons and swipes stop autoplay
  first (main.js:187 and 254-261). `Controller.StopCommutesWithNavigation`
  proves that both orders end in the same state.
- An autoplay tick during a transition advances `currentItem`
  (main.js:218), but `updateCoverflow` then returns early (main.js:59), so
  the items, dots and caption stay on the previous item. The model keeps
  the selection last laid out as `shown`, and
  `Controller.TickDuringTransitionLeavesLayoutStale` proves the mismatch
  and that it outlasts the transition. With the 600 ms and 4000 ms timings
  this needs a settle timer delayed past the next tick, so no concrete
  event timing is claimed.

## Model

| member | source | states |
|---|---|---|
| `Geometry.Offset` | main.js:63-70 | the offset is index - current shifted by at most one turn; for in-range positions -n <= 2*offset <= n and it is 0 exactly for the selected item (the congruence is in `Geometry.OffsetIsShortestArc`) |
| `Geometry.Place` | main.js:72-93 | keeps the offset and the active flag, is invisible exactly beyond three steps, and stacks at most at 100, reaching it exactly at offset 0 (every field is in `Geometry.PlaceGeometry`) |
| `Geometry.ItemAt` | main.js:62-94 | for in-range positions, an item is active exactly when its offset is 0, and exactly when it is stacked at 100 |
| `Geometry.Layout` | main.js:62-95 | one placement per item, in item order, with the selected item active at offset 0 (properties in `Geometry.SelectionOnTop` and `Geometry.ExactlyOneActive`) |
| `Geometry.Dots` | main.js:96-99 | one flag per dot, set exactly at the selection |
| `Geometry.OffsetIsShortestArc` | main.js:63-70 | the normalised offset satisfies -n <= 2*offset <= n, is congruent to index - current modulo n, walking it from the selection reaches the item, and it is 0 exactly for the selected item |
| `Geometry.HalfWayTies` | main.js:65-70 | for an even item count and any selection, exactly one item has distance n/2; its offset is +n/2 when the selection is in the first half and -n/2 otherwise, because the strict comparisons leave it unchanged |
| `Geometry.PlaceGeometry` | main.js:72-93 | translateZ = -200*abs; rotateY = -60*sign and lies in {-60, 0, 60} because the 60-degree clamp never bites; scale = 1 - 0.1*abs; zIndex = 100 - abs; within three steps translateX = 220*offset and opacity = 1 - 0.2*abs >= 0.4; beyond three steps opacity = 0 and translateX = 800*sign; opacity is 0 exactly beyond three steps; translateX lies in [-800, 800] with the offset's sign |
| `Geometry.PlaceMirror` | main.js:72-84 | items at offsets o and -o are mirror images: translateX and rotateY negate, depth, scale, opacity and stacking order agree |
| `Geometry.NearerIsInFront` | main.js:72-93 | an item nearer the selection has a higher zIndex, is further forward, is larger and is at least as opaque |
| `Geometry.SelectionOnTop` | main.js:63-94 | the selected item alone has offset 0 and zIndex 100; every other item has zIndex 100 - abs(offset) < 100 |
| `Geometry.ExactlyOneActive` | main.js:94-98 | the items' active flags equal the dots' flags, and exactly one of each is set |
| `Geometry.SevenItemsFromFirst` | main.js:63-94 | with 7 items and item 0 selected, item 5 sits at offset -2 (translateX -440, opacity 0.6, rotateY 60) and item 1 at offset 1 |
| `Controller.Update` | main.js:58-60 | during a transition nothing changes; otherwise a transition starts and the layout moves to the current selection; nothing else changes and indices stay in range |
| `Controller.Navigate` | main.js:117-129 | dropped (state unchanged) while a transition is in flight; otherwise the selection becomes (current + direction) mod n, a transition starts and the layout follows the new selection |
| `Controller.StepWraps` | main.js:120-126 | for a step of plus or minus one, navigate's two wrap branches compute (current + direction) mod n |
| `Controller.GoToIndex` | main.js:131-135 | dropped during a transition and a no-op for the already selected index even when idle; otherwise selects the index, starts a transition and lays it out |
| `Controller.Tick` | main.js:217-219 | the selection always advances to (current + 1) mod n; the layout follows only when no transition was in flight |
| `Controller.Settle` | main.js:112-114 | the transition ends and nothing else changes |
| `Controller.Start` | main.js:216-224 | autoplay is on with the new interval handle; nothing else changes |
| `Controller.Stop` | main.js:226-234 | autoplay is off with no interval, whatever the state before; nothing else changes |
| `Controller.Toggle` | main.js:236-242 | flips isPlaying, keeps "playing exactly when an interval is set", and leaves the selection alone |
| `Controller.SwipeDirection` | main.js:181-193 | forward exactly for a move of more than 30 px to the left that exceeds the vertical move; backward exactly for the same to the right; otherwise nothing |
| `Controller.HandleSwipe` | main.js:181-195 | a gesture that is no swipe changes nothing; a qualifying swipe always stops autoplay and, when idle, moves the selection by its direction mod n, starts a transition and lays the new selection out; a transition in flight stays in flight; count, touch state and coordinates are unchanged |
| `Controller.TouchStart` | main.js:155-159 | records the start coordinates and sets isSwiping; nothing else changes |
| `Controller.TouchEnd` | main.js:172-179 | ignored unless a touch began; otherwise records the end point and clears isSwiping; a qualifying swipe stops autoplay even when its navigation is dropped and, when idle, moves the selection by its direction mod n, starts a transition and lays it out; count and start coordinates are unchanged |
| `Controller.Select` | main.js:144-145 | a click on an item (or a dot, main.js:49 and 264) always stops autoplay; when idle and on another item it selects it, starts a transition and lays it out; otherwise the selection and transition stay; nothing else changes |
| `Controller.ClickButton` | main.js:254-261 | an arrow button always stops autoplay and, when idle, moves the selection by its direction mod n, starts a transition and lays it out; a transition in flight stays in flight; nothing else changes |
| `Controller.KeyDown` | main.js:138-141 | an arrow key always stops autoplay (listener at main.js:267) and, when idle, moves the selection by one step mod n (left back, right forward), starts a transition and lays it out; nothing else changes; other keys change nothing |
| `Controller.Init` | main.js:331-334 | after initialisation item 0 is selected and laid out, a transition is in flight, and autoplay is on with the interval handle setInterval returned |
| `Controller.Forward` | main.js:117-129 | repeated settled forward navigations keep the invariant and end idle |
| `Controller.Ticks` | main.js:217-219 | repeated ticks keep the invariant |
| `Controller.StopCommutesWithNavigation` | main.js:244-271 | stopping autoplay commutes with navigate and goToIndex, so an arrow key (navigate first) and the matching arrow button (stop first) end in the same state |
| `Controller.StopIdempotent` | main.js:226-234 | stopping twice is stopping once |
| `Controller.NavigateRoundTrip` | main.js:117-129 | one step and one step back, with a settle between, restore the selection and its layout |
| `Controller.SecondIntentDropped` | main.js:117-135 | a second navigate or goToIndex during the first one's transition changes nothing |
| `Controller.ForwardAdvances` | main.js:117-129 | k settled forward navigations move the selection to (current + k) mod n |
| `Controller.TicksAdvance` | main.js:216-220 | k ticks move the selection to (current + k) mod n, settled or not |
| `Controller.ForwardFullTurn` | main.js:117-129 | n settled forward navigations return to the starting item |
| `Controller.TicksFullTurn` | main.js:216-220 | n ticks return to the starting item |
| `Controller.TickDuringTransitionLeavesLayoutStale` | main.js:217-219 | a tick during a transition moves the selection but not the layout, and the mismatch survives the settle |
| `Controller.EventsKeepLayoutInStep` | main.js:58-135 | every event except a tick during a transition keeps the layout on the selection; an accepted navigation or tick repairs a stale layout |
| `Controller.TransitionHeldUntilSettle` | main.js:59-114 | once a transition is in flight, every event except the 600 ms timeout leaves isAnimation set, and the timeout clears it |
| `Controller.SwipeReversal` | main.js:181-193 | the reverse gesture asks for the reverse navigation |
| `Carousel.Coverflow.constructor` | main.js:331-334 | the object starts in the state `Controller.Init` describes, with the items, dots and caption laid out for item 0 |
| `Carousel.Coverflow.UpdateCoverflow` | main.js:58-115 | returns at once during a transition; otherwise sets isAnimation, writes every item's placement and every dot's flag for the current selection in two loops, and shows its caption |
| `Carousel.Coverflow.Navigate` | main.js:117-129 | the new state is `Controller.Navigate` of the old, with the arrays laid out for the shown selection |
| `Carousel.Coverflow.GoToIndex` | main.js:131-135 | the new state is `Controller.GoToIndex` of the old |
| `Carousel.Coverflow.Tick` | main.js:217-219 | the new state is `Controller.Tick` of the old, while an interval is set |
| `Carousel.Coverflow.Settle` | main.js:112-114 | the new state is `Controller.Settle` of the old |
| `Carousel.Coverflow.Start` | main.js:216-224 | the new state is `Controller.Start` of the old |
| `Carousel.Coverflow.Stop` | main.js:226-234 | the new state is `Controller.Stop` of the old |
| `Carousel.Coverflow.Toggle` | main.js:236-242 | the new state is `Controller.Toggle` of the old |
| `Carousel.Coverflow.TouchStart` | main.js:155-159 | the new state is `Controller.TouchStart` of the old |
| `Carousel.Coverflow.TouchEnd` | main.js:172-179 | the new state is `Controller.TouchEnd` of the old |
| `Carousel.Coverflow.HandleSwipe` | main.js:181-195 | the new state is `Controller.HandleSwipe` of the old |
| `Carousel.Coverflow.Select` | main.js:144-145 | the new state is `Controller.Select` of the old |
| `Carousel.Coverflow.ClickButton` | main.js:254-261 | the new state is `Controller.ClickButton` of the old |
| `Carousel.Coverflow.KeyDown` | main.js:138-141 | the new state is `Controller.KeyDown` of the old (the listeners at main.js:138 and main.js:267, in that order) |
| `Carousel.Coverflow.ActiveIsShown` | main.js:94-98 | in any valid state exactly one item and one dot are active, both at the shown selection |

## Left out

- Building the CSS transform string, writing `style` and `classList`, and the play/pause icon display (main.js:86-92, 222-223, 232-233). Placements and flags are record fields and array elements instead.
- The 1000 ms caption fade re-trigger (main.js:105-110). It is cosmetic and touches no state.
- Real time. The 600 ms and 4000 ms timers are the events `Settle` and `Tick`, which may arrive in any order.
- Floating-point rounding of opacity and scale. They are exact reals.
- Touch coordinates are integers. Browsers may report fractional screen coordinates.
- The touchmove listener (main.js:161-170). It only suppresses page scrolling.
- Image load and error handling, and the reflections (main.js:197-213).
- Scroll-driven menu highlighting, header styling, scroll-to-top and the form stub (main.js:274-328), and `container.focus()` (main.js:333). None of them touch carousel state.
- The wiring of the play/pause button to `toggleAutoplay`. It is not in main.js.
- Carousel.Coverflow.Start: does not capture that `startAutoplay` leaves an interval that is already set running. The model keeps one handle. In main.js it is called only at initialisation (no interval yet) and from `toggleAutoplay` when paused (no interval).
- Carousel.Coverflow.Tick: requires an interval to be set. The browser fires the callback only then.
- Carousel.Coverflow.Navigate: requires a direction of 1 or -1. For other steps the source's two wrap branches do not compute a remainder, and no caller passes one.
- Controller.Init: requires between 1 and 7 items, one per caption. With more items, selecting an item without a caption makes main.js:101-102 throw after main.js:60 has set `isAnimation`; the 600 ms reset is then never scheduled, so every later navigation is dropped and ticks advance `currentItem` without redrawing. With no items a tick sets `currentItem` to NaN (main.js:218). The model does not capture these states; `Carousel.Coverflow.constructor` and `Controller.Ranges` carry the same bound.
