/** The carousel as the page script runs it: the module-level variables are
    the fields of one object, the item elements' placements and the dots'
    `active` flags are arrays written in place, and each event handler is a
    method. Every method is specified by the controller's step function for
    the same event, and keeps the items, dots and caption laid out for the
    selection `shown`. */
module Carousel {

  import G = Geometry
  import C = Controller

  class Coverflow {
    const count: nat                      // items.length
    const items: array<G.Placement>       // each item's style and class
    const dots: array<bool>               // each dot's `active` class

    var currentItem: int
    var isAnimation: bool
    var autoplayInterval: C.Option<C.TimerHandle>
    var isPlaying: bool
    var isSwiping: bool
    var touchStartX: int
    var touchStartY: int
    var touchEndX: int
    var touchEndY: int
    var title: string                     // the title element's text
    var description: string               // the description element's text

    /** The selection the items, dots and caption were last laid out for. */
    ghost var shown: int

    /** Sizes and indices in range. */
    ghost predicate Shape()
      reads this
    {
      1 <= count <= |C.ImgData| && items.Length == count && dots.Length == count
      && 0 <= currentItem < count && 0 <= shown < count
    }

    /** Items, dots and caption show selection `k`. */
    ghost predicate Shows(k: int)
      reads this, items, dots
    {
      0 <= k < |C.ImgData|
      && items[..] == G.Layout(k, count) && dots[..] == G.Dots(k, count)
      && title == C.ImgData[k].title && description == C.ImgData[k].description
    }

    /** The controller state these fields hold. */
    ghost function Snap(): C.Snapshot
      reads this
    {
      C.Snapshot(count, currentItem, isAnimation, shown, isPlaying, autoplayInterval,
                 isSwiping, touchStartX, touchStartY, touchEndX, touchEndY)
    }

    ghost predicate Valid()
      reads this, items, dots
    {
      Shape() && Shows(shown) && C.Valid(Snap())
    }

    /** The initialisation sequence for a page with `n` items: the variables
        as declared, then updateCoverflow, then startAutoplay, which obtains
        `timer` from setInterval. */
    constructor (n: nat, timer: C.TimerHandle)
      requires 1 <= n <= |C.ImgData|
      ensures Valid() && Snap() == C.Init(n, timer)
      ensures fresh(items) && fresh(dots)
    {
      count := n;
      items := new G.Placement[n];
      dots := new bool[n];
      currentItem, isAnimation := 0, false;
      autoplayInterval, isPlaying := C.None, true;
      isSwiping := false;
      touchStartX, touchStartY, touchEndX, touchEndY := 0, 0, 0, 0;
      title, description := "", "";
      shown := 0;
      new;
      UpdateCoverflow();
      Start(timer);
    }

    /** updateCoverflow: unless a transition is in flight, start one, place
        every item and set every dot for the current selection, and show its
        caption. */
    method UpdateCoverflow()
      requires Shape()
      modifies this`isAnimation, this`shown, this`title, this`description, items, dots
      ensures Shape()
      ensures old(isAnimation) ==> unchanged(this, items, dots)
      ensures !old(isAnimation) ==> isAnimation && shown == currentItem && Shows(currentItem)
      ensures Snap() == C.Update(old(Snap()))
    {
      if isAnimation {
        return;
      }
      isAnimation := true;

      var i := 0;
      while i < items.Length
        invariant 0 <= i <= items.Length && isAnimation
        invariant forall k :: 0 <= k < i ==> items[k] == G.ItemAt(k, currentItem, count)
      {
        items[i] := G.ItemAt(i, currentItem, count);
        i := i + 1;
      }
      assert items[..] == G.Layout(currentItem, count);

      i := 0;
      while i < dots.Length
        invariant 0 <= i <= dots.Length && isAnimation
        invariant forall k :: 0 <= k < i ==> dots[k] == (k == currentItem)
        invariant items[..] == G.Layout(currentItem, count)
      {
        dots[i] := i == currentItem;
        i := i + 1;
      }
      assert dots[..] == G.Dots(currentItem, count);

      var currentData := C.ImgData[currentItem];
      title := currentData.title;
      description := currentData.description;
      shown := currentItem;
    }

    /** navigate(direction), for the steps of one its callers make. */
    method Navigate(direction: int)
      requires Valid() && (direction == 1 || direction == -1)
      modifies this, items, dots
      ensures Valid() && Snap() == C.Navigate(old(Snap()), direction)
    {
      if isAnimation {
        return;
      }
      currentItem := currentItem + direction;
      if currentItem < 0 {
        currentItem := count - 1;
      } else if currentItem >= count {
        currentItem := 0;
      }
      UpdateCoverflow();
    }

    /** goToIndex(index), for the item and dot positions its callers pass. */
    method GoToIndex(index: int)
      requires Valid() && 0 <= index < count
      modifies this, items, dots
      ensures Valid() && Snap() == C.GoToIndex(old(Snap()), index)
    {
      if isAnimation || index == currentItem {
        return;
      }
      currentItem := index;
      UpdateCoverflow();
    }

    /** One firing of the autoplay interval, which can only happen while the
        interval is set. */
    method Tick()
      requires Valid() && autoplayInterval.Some?
      modifies this, items, dots
      ensures Valid() && Snap() == C.Tick(old(Snap()))
    {
      currentItem := (currentItem + 1) % count;
      UpdateCoverflow();
    }

    /** The 600 ms timeout that ends a transition. */
    method Settle()
      requires Valid()
      modifies this`isAnimation
      ensures Valid() && Snap() == C.Settle(old(Snap()))
    {
      isAnimation := false;
    }

    /** startAutoplay, where `timer` is the handle setInterval returned. */
    method Start(timer: C.TimerHandle)
      requires Shape() && Shows(shown)
      modifies this`autoplayInterval, this`isPlaying
      ensures Valid() && Snap() == C.Start(old(Snap()), timer)
    {
      autoplayInterval := C.Some(timer);
      isPlaying := true;
    }

    /** stopAutoplay (and handleUserInteraction, which only calls it). */
    method Stop()
      requires Valid()
      modifies this`autoplayInterval, this`isPlaying
      ensures Valid() && Snap() == C.Stop(old(Snap()))
    {
      if autoplayInterval.Some? {
        autoplayInterval := C.None;
      }
      isPlaying := false;
    }

    /** toggleAutoplay; `timer` is the handle setInterval returns if it starts. */
    method Toggle(timer: C.TimerHandle)
      requires Valid()
      modifies this`autoplayInterval, this`isPlaying
      ensures Valid() && Snap() == C.Toggle(old(Snap()), timer)
    {
      if isPlaying {
        Stop();
      } else {
        Start(timer);
      }
    }

    /** The touchstart listener, given the touch's screen coordinates. */
    method TouchStart(x: int, y: int)
      requires Valid()
      modifies this`touchStartX, this`touchStartY, this`isSwiping
      ensures Valid() && Snap() == C.TouchStart(old(Snap()), x, y)
    {
      touchStartX := x;
      touchStartY := y;
      isSwiping := true;
    }

    /** The touchend listener, given the touch's screen coordinates. */
    method TouchEnd(x: int, y: int)
      requires Valid()
      modifies this, items, dots
      ensures Valid() && Snap() == C.TouchEnd(old(Snap()), x, y)
    {
      if !isSwiping {
        return;
      }
      touchEndX := x;
      touchEndY := y;
      HandleSwipe();
      isSwiping := false;
    }

    /** handleSwipe: a mostly horizontal move of more than 30 px stops
        autoplay and then navigates against the finger's direction. */
    method HandleSwipe()
      requires Valid()
      modifies this, items, dots
      ensures Valid() && Snap() == C.HandleSwipe(old(Snap()))
    {
      var diffX := touchStartX - touchEndX;
      var diffY := touchStartY - touchEndY;
      if G.Abs(diffX) > G.Abs(diffY) && G.Abs(diffX) > C.SwipeThreshold {
        Stop();
        if diffX > 0 {
          Navigate(1);
        } else {
          Navigate(-1);
        }
      }
    }

    /** A click on item `index` or on dot `index`: goToIndex, then stopAutoplay. */
    method Select(index: int)
      requires Valid() && 0 <= index < count
      modifies this, items, dots
      ensures Valid() && Snap() == C.Select(old(Snap()), index)
    {
      GoToIndex(index);
      Stop();
    }

    /** A click on the left (-1) or right (1) button: stopAutoplay, then navigate. */
    method ClickButton(direction: int)
      requires Valid() && (direction == 1 || direction == -1)
      modifies this, items, dots
      ensures Valid() && Snap() == C.ClickButton(old(Snap()), direction)
    {
      Stop();
      Navigate(direction);
    }

    /** A key press reaches both keydown listeners, the navigating one first. */
    method KeyDown(key: C.Key)
      requires Valid()
      modifies this, items, dots
      ensures Valid() && Snap() == C.KeyDown(old(Snap()), key)
    {
      if key == C.ArrowLeft {
        Navigate(-1);
      }
      if key == C.ArrowRight {
        Navigate(1);
      }
      if key == C.ArrowLeft || key == C.ArrowRight {
        Stop();
      }
    }

    /** The active item and the active dot are the shown selection, and no
        other item or dot is active. */
    lemma ActiveIsShown()
      requires Valid()
      ensures forall i :: 0 <= i < count ==> (items[i].active <==> i == shown)
      ensures forall i :: 0 <= i < count ==> (dots[i] <==> i == shown)
      ensures G.CountTrue(G.ActiveFlags(items[..])) == 1 && G.CountTrue(dots[..]) == 1
    {
      G.ExactlyOneActive(shown, count);
    }
  }
}
