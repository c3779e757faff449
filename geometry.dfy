/** The layout engine of the coverflow carousel: for the current selection,
    where each item is drawn (horizontal and depth translation, rotation,
    scale, opacity, stacking order) and which item and dot are active.
    Lengths are CSS pixels, angles degrees; opacity and scale are exact reals. */
module Geometry {

  import M = Modular

  /** Math.abs on the integer offsets the layout works with. */
  function Abs(x: int): nat
  {
    if x < 0 then -x else x
  }

  /** Math.sign: -1, 0 or 1. */
  function Sign(x: int): int
  {
    if x > 0 then 1 else if x < 0 then -1 else 0
  }

  /** Math.min. */
  function Min(a: int, b: int): int
  {
    if a <= b then a else b
  }

  /** Signed circular distance from the selection `current` to item `index`
      among `n` items, moved to the shorter way round. The source compares
      `offset > n / 2` over the reals; doubling both sides keeps the
      comparison exact over the integers. */
  function Offset(index: int, current: int, n: int): (r: int)
    ensures r == index - current || r == index - current - n || r == index - current + n
    ensures 0 <= index < n && 0 <= current < n ==> -n <= 2 * r <= n
    ensures 0 <= index < n && 0 <= current < n ==> (r == 0 <==> index == current)
  {
    var raw := index - current;
    if 2 * raw > n then raw - n
    else if 2 * raw < -n then raw + n
    else raw
  }

  /** What the source writes into one item's style and class list. */
  datatype Placement = Placement(
    offset: int,      // the normalised circular offset
    translateX: int,  // px
    translateZ: int,  // px
    rotateY: int,     // degrees
    scale: real,
    opacity: real,
    zIndex: int,
    active: bool)

  /** The placement of an item at circular distance `offset`: proportional
      placement along the arc, and items more than three steps away hidden
      and pushed to the side. */
  function Place(offset: int, active: bool): (r: Placement)
    ensures r.offset == offset && r.active == active
    ensures r.opacity == 0.0 <==> Abs(offset) > 3
    ensures r.zIndex <= 100 && (r.zIndex == 100 <==> offset == 0)
  {
    var absOffset: int := Abs(offset);
    var sign := Sign(offset);
    var translateX := offset * 220;
    var translateZ := -absOffset * 200;
    var rotateY := -sign * Min(absOffset * 60, 60);
    var opacity := 1.0 - (absOffset as real) * 0.2;
    var scale := 1.0 - (absOffset as real) * 0.1;
    if absOffset > 3 then
      Placement(offset, sign * 800, translateZ, rotateY, scale, 0.0, 100 - absOffset, active)
    else
      Placement(offset, translateX, translateZ, rotateY, scale, opacity, 100 - absOffset, active)
  }

  /** The placement of item `index` among `n` items when `current` is selected. */
  function ItemAt(index: int, current: int, n: int): (r: Placement)
    ensures 0 <= index < n && 0 <= current < n ==>
              (r.active <==> r.offset == 0) && (r.active <==> r.zIndex == 100)
  {
    Place(Offset(index, current, n), index == current)
  }

  /** The placements of all `n` items, in item order. */
  function Layout(current: int, n: nat): (r: seq<Placement>)
    ensures |r| == n && forall i :: 0 <= i < n ==> r[i] == ItemAt(i, current, n)
    ensures 0 <= current < n ==> r[current].active && r[current].offset == 0
  {
    seq(n, i => ItemAt(i, current, n))
  }

  /** The `active` flags of the `n` position dots. */
  function Dots(current: int, n: nat): (r: seq<bool>)
    ensures |r| == n && forall i :: 0 <= i < n ==> (r[i] <==> i == current)
  {
    seq(n, i => i == current)
  }

  /** The `active` flags of a sequence of placements. */
  function ActiveFlags(ps: seq<Placement>): seq<bool>
  {
    seq(|ps|, i requires 0 <= i < |ps| => ps[i].active)
  }

  /** The number of set flags. */
  function CountTrue(flags: seq<bool>): nat
  {
    if flags == [] then 0 else (if flags[0] then 1 else 0) + CountTrue(flags[1..])
  }

  /** The offset is the representative of `index - current` modulo `n` that
      lies in the half-open-on-neither-side window `-n/2 .. n/2`: walking
      `offset` steps round the circle from the selection reaches the item,
      and the offset is zero exactly for the selected item. */
  lemma OffsetIsShortestArc(index: int, current: int, n: int)
    requires 0 <= index < n && 0 <= current < n
    ensures -n <= 2 * Offset(index, current, n) <= n
    ensures Offset(index, current, n) % n == (index - current) % n
    ensures (current + Offset(index, current, n)) % n == index
    ensures Offset(index, current, n) == 0 <==> index == current
  {
    var raw := index - current;
    if raw >= 0 {
      M.ModInRange(raw, n);
      M.ModBelow(raw, n);
    } else {
      M.ModInRange(raw + n, n);
      M.ModBelow(raw + n, n);
    }
    M.ModInRange(index, n);
    M.ModBelow(index, n);
    M.ModAbove(index, n);
  }

  /** For an even number of items exactly one item lies half-way round
      from the selection, at distance n/2. The source's strict comparisons
      leave its offset as it comes: +n/2 when the selection is in the first
      half (the item is further along), -n/2 when it is in the second half. */
  lemma HalfWayTies(current: int, n: int)
    requires n >= 2 && n % 2 == 0 && 0 <= current < n
    ensures 0 <= (current + n / 2) % n < n
    ensures Offset((current + n / 2) % n, current, n) == (if current < n / 2 then n / 2 else -(n / 2))
    ensures forall i :: 0 <= i < n ==>
              (2 * Abs(Offset(i, current, n)) == n <==> i == (current + n / 2) % n)
  {
    var h := n / 2;
    if current < h {
      M.ModInRange(current + h, n);
    } else {
      M.ModAbove(current - h, n);
      assert (current - h) + n == current + h;
    }
  }

  /** The geometry of one item: depth, rotation and scale follow the
      distance; an item at most three steps away is placed 220 px per step
      with opacity at least 0.4, and one further away is invisible and
      parked 800 px to its side. The 60-degree clamp on the rotation never
      bites between whole steps, so the rotation is -60, 0 or 60. */
  lemma PlaceGeometry(offset: int, active: bool)
    ensures Place(offset, active).offset == offset && Place(offset, active).active == active
    ensures Place(offset, active).translateZ == -200 * Abs(offset)
    ensures Place(offset, active).rotateY == -60 * Sign(offset)
    ensures Place(offset, active).rotateY in {-60, 0, 60}
    ensures Place(offset, active).scale == 1.0 - 0.1 * (Abs(offset) as real)
    ensures Place(offset, active).zIndex == 100 - Abs(offset)
    ensures Abs(offset) <= 3 ==>
              Place(offset, active).translateX == 220 * offset
              && Place(offset, active).opacity == 1.0 - 0.2 * (Abs(offset) as real)
              && 0.4 <= Place(offset, active).opacity <= 1.0
    ensures Abs(offset) > 3 ==>
              Place(offset, active).opacity == 0.0
              && Place(offset, active).translateX == 800 * Sign(offset)
    ensures Place(offset, active).opacity == 0.0 <==> Abs(offset) > 3
    ensures -800 <= Place(offset, active).translateX <= 800
    ensures Sign(Place(offset, active).translateX) == Sign(offset)
  {
  }

  /** The arc is symmetric: the item `offset` steps to the left is the mirror
      image of the one `offset` steps to the right. */
  lemma PlaceMirror(offset: int, active: bool)
    ensures Place(-offset, active).translateX == -Place(offset, active).translateX
    ensures Place(-offset, active).rotateY == -Place(offset, active).rotateY
    ensures Place(-offset, active).translateZ == Place(offset, active).translateZ
    ensures Place(-offset, active).scale == Place(offset, active).scale
    ensures Place(-offset, active).opacity == Place(offset, active).opacity
    ensures Place(-offset, active).zIndex == Place(offset, active).zIndex
  {
  }

  /** Items nearer the selection are drawn above, in front of, larger than
      and at least as opaque as items further away. */
  lemma NearerIsInFront(o1: int, o2: int, a1: bool, a2: bool)
    requires Abs(o1) < Abs(o2)
    ensures Place(o1, a1).zIndex > Place(o2, a2).zIndex
    ensures Place(o1, a1).translateZ > Place(o2, a2).translateZ
    ensures Place(o1, a1).scale > Place(o2, a2).scale
    ensures Place(o1, a1).opacity >= Place(o2, a2).opacity
  {
  }

  /** The selected item alone has offset 0 and stacking order 100; every
      other item sits strictly below it at 100 - |offset|. */
  lemma SelectionOnTop(current: int, n: nat)
    requires 0 <= current < n
    ensures forall i :: 0 <= i < n ==> (Layout(current, n)[i].offset == 0 <==> i == current)
    ensures forall i :: 0 <= i < n ==> (Layout(current, n)[i].zIndex == 100 <==> i == current)
    ensures forall i :: 0 <= i < n && i != current ==>
              Layout(current, n)[i].zIndex == 100 - Abs(Layout(current, n)[i].offset) < 100
  {
  }

  /** Exactly one item and exactly one dot are active, and they are the same
      position: the one at `current`. */
  lemma ExactlyOneActive(current: int, n: nat)
    requires 0 <= current < n
    ensures ActiveFlags(Layout(current, n)) == Dots(current, n)
    ensures CountTrue(ActiveFlags(Layout(current, n))) == 1
    ensures CountTrue(Dots(current, n)) == 1
  {
    assert ActiveFlags(Layout(current, n)) == Dots(current, n);
    CountTrueOfSingle(Dots(current, n), current);
  }

  /** A flag sequence set at exactly one position counts one. */
  lemma {:induction false} CountTrueOfSingle(flags: seq<bool>, k: int)
    requires 0 <= k < |flags|
    requires forall i :: 0 <= i < |flags| ==> (flags[i] <==> i == k)
    ensures CountTrue(flags) == 1
  {
    if k == 0 {
      CountTrueOfNone(flags[1..]);
    } else {
      CountTrueOfSingle(flags[1..], k - 1);
    }
  }

  /** A flag sequence with nothing set counts zero. */
  lemma {:induction false} CountTrueOfNone(flags: seq<bool>)
    requires forall i :: 0 <= i < |flags| ==> !flags[i]
    ensures CountTrue(flags) == 0
  {
    if flags != [] {
      CountTrueOfNone(flags[1..]);
    }
  }

  /** Seven items with the first selected: item 5 is two steps to the left
      and item 1 one step to the right. */
  lemma SevenItemsFromFirst()
    ensures ItemAt(5, 0, 7) == Placement(-2, -440, -400, 60, 0.8, 0.6, 98, false)
    ensures ItemAt(1, 0, 7) == Placement(1, 220, -200, -60, 0.9, 0.8, 99, false)
    ensures ItemAt(0, 0, 7) == Placement(0, 0, 0, 0, 1.0, 1.0, 100, true)
  {
  }
}
