/**
 * The 3D carousel of ime.js (lines 143-206): one current index over a fixed
 * circular list of `.c-item` elements, and the classes `active`, `left` and
 * `right` recomputed from that index on every change.
 *
 * JavaScript's `%` truncates toward zero while Dafny's is Euclidean; they agree
 * here because every numerator the carousel divides is non-negative (the index
 * starts at 1 and afterwards is always a remainder or an item position).
 */
module Carousel {

  /** The three position classes of one item; other classes are not modelled. */
  datatype Classes = Classes(active: bool, left: bool, right: bool)

  const Plain := Classes(false, false, false)

  /** `(currentIndex + 1) % totalItems`, the index after `goNext`. */
  function Next(cur: nat, n: nat): (r: nat)
    requires n >= 1
    ensures r < n
    ensures cur < n ==> r == if cur == n - 1 then 0 else cur + 1
  {
    (cur + 1) % n
  }

  /** `(currentIndex - 1 + totalItems) % totalItems`, the index after `goPrev`. */
  function Prev(cur: nat, n: nat): (r: nat)
    requires n >= 1
    ensures r < n
    ensures cur < n ==> r == if cur == 0 then n - 1 else cur - 1
  {
    (cur - 1 + n) % n
  }

  /** The classes `updateCarousel` gives item `index` when the current index is `cur`. */
  function Render(index: nat, cur: nat, n: nat): (c: Classes)
    requires n >= 1
    ensures !(c.active && c.left) && !(c.active && c.right) && !(c.left && c.right)
    ensures c.active <==> index == cur
  {
    if index == cur then Classes(true, false, false)
    else if index == Prev(cur, n) then Classes(false, true, false)
    else if index == Next(cur, n) then Classes(false, false, true)
    else Plain
  }

  /** `goNext` applied k times. */
  function NextTimes(cur: nat, n: nat, k: nat): (r: nat)
    requires n >= 1
    ensures k > 0 ==> r < n
  {
    if k == 0 then cur else Next(NextTimes(cur, n, k - 1), n)
  }

  /** Within one lap, k steps forward from cur land on cur + k, wrapped once. */
  lemma {:induction false} NextTimesWraps(cur: nat, n: nat, k: nat)
    requires cur < n && k <= n
    ensures NextTimes(cur, n, k) == if cur + k < n then cur + k else cur + k - n
  {
    if k > 0 {
      NextTimesWraps(cur, n, k - 1);
    }
  }

  /** Advancing n times returns to the start. */
  lemma FullLap(cur: nat, n: nat)
    requires cur < n
    ensures NextTimes(cur, n, n) == cur
  {
    NextTimesWraps(cur, n, n);
  }

  /** `goPrev` undoes `goNext` and `goNext` undoes `goPrev`. */
  lemma NextPrevInverse(cur: nat, n: nat)
    requires cur < n
    ensures Prev(Next(cur, n), n) == cur
    ensures Next(Prev(cur, n), n) == cur
  {
  }

  /**
   * On a ring of at least three items exactly three are classed: the current one
   * is `active`, its predecessor `left` and its successor `right`.
   */
  lemma RenderRing(cur: nat, n: nat)
    requires 3 <= n && cur < n
    ensures Render(cur, cur, n) == Classes(true, false, false)
    ensures Render(Prev(cur, n), cur, n) == Classes(false, true, false)
    ensures Render(Next(cur, n), cur, n) == Classes(false, false, true)
    ensures forall i :: 0 <= i < n && i != cur && i != Prev(cur, n) && i != Next(cur, n) ==> Render(i, cur, n) == Plain
    ensures Prev(cur, n) != Next(cur, n)
  {
  }

  /** With two items the single neighbour is both predecessor and successor, and the else-if gives it `left`. */
  lemma RenderPair(cur: nat)
    requires cur < 2
    ensures Render(1 - cur, cur, 2) == Classes(false, true, false)
    ensures Render(cur, cur, 2) == Classes(true, false, false)
  {
  }

  /**
   * The start index 1 lies outside [0, 1) when there is a single item: that item
   * is then rendered `left`, and no item is `active`.
   */
  lemma RenderSingleFromStart()
    ensures Render(0, 1, 1) == Classes(false, true, false)
    ensures Next(1, 1) == 0 && Prev(1, 1) == 0
  {
  }

  /** Three items, index 1, then `goNext`: index 2 with {2: active, 1: left, 0: right}. */
  lemma ThreeItemsNext()
    ensures Next(1, 3) == 2
    ensures Render(2, 2, 3).active && Render(1, 2, 3).left && Render(0, 2, 3).right
  {
  }

  /** The carousel's state: the items' classes and the shared `currentIndex`. */
  class Carousel3D {
    const items: array<Classes>
    var currentIndex: nat
    /** `screenX` of the last touch start and end: CSS pixels, possibly fractional. */
    var touchStartX: real
    var touchEndX: real

    /** Every item carries the classes `Render` gives it for the current index. */
    ghost predicate Rendered()
      reads this, items
    {
      forall i :: 0 <= i < items.Length ==> items[i] == Render(i, currentIndex, items.Length)
    }

    /** Page load: the index starts at 1 and `updateCarousel` runs once (ime.js:146, 188). */
    constructor (markup: seq<Classes>)
      ensures fresh(items) && items.Length == |markup|
      ensures currentIndex == 1 && touchStartX == 0.0 && touchEndX == 0.0
      ensures Rendered()
    {
      items := new Classes[|markup|](i requires 0 <= i < |markup| => markup[i]);
      currentIndex := 1;
      touchStartX, touchEndX := 0.0, 0.0;
      new;
      UpdateCarousel();
    }

    /** Clear the three classes of every item and give each the one its position calls for. */
    method UpdateCarousel()
      modifies items
      ensures Rendered()
    {
      var n := items.Length;
      for i := 0 to n
        invariant forall j :: 0 <= j < i ==> items[j] == Render(j, currentIndex, n)
      {
        items[i] := Plain;
        items[i] := Render(i, currentIndex, n);
      }
    }

    method GoNext()
      modifies this, items
      ensures items.Length >= 1 ==> currentIndex == Next(old(currentIndex), items.Length) && Rendered()
      ensures items.Length == 0 ==> currentIndex == old(currentIndex)
      ensures touchStartX == old(touchStartX) && touchEndX == old(touchEndX)
    {
      if items.Length >= 1 {
        currentIndex := Next(currentIndex, items.Length);
        UpdateCarousel();
      }
    }

    method GoPrev()
      modifies this, items
      ensures items.Length >= 1 ==> currentIndex == Prev(old(currentIndex), items.Length) && Rendered()
      ensures items.Length == 0 ==> currentIndex == old(currentIndex)
      ensures touchStartX == old(touchStartX) && touchEndX == old(touchEndX)
    {
      if items.Length >= 1 {
        currentIndex := Prev(currentIndex, items.Length);
        UpdateCarousel();
      }
    }

    /** The rotation listener of item i: jump straight to i unless it is already current. */
    method ClickItem(i: nat)
      requires i < items.Length
      modifies this, items
      ensures currentIndex == i
      ensures old(currentIndex) == i ==> items[..] == old(items[..])
      ensures old(currentIndex) != i ==> Rendered()
      ensures touchStartX == old(touchStartX) && touchEndX == old(touchEndX)
    {
      if i != currentIndex {
        currentIndex := i;
        UpdateCarousel();
      }
    }

    method TouchStart(x: real)
      modifies this
      ensures touchStartX == x && touchEndX == old(touchEndX) && currentIndex == old(currentIndex)
    {
      touchStartX := x;
    }

    /** A swipe left by more than 50px goes forward, right by more than 50px goes back. */
    method TouchEnd(x: real)
      modifies this, items
      ensures touchEndX == x && touchStartX == old(touchStartX)
      ensures items.Length >= 1 && x < touchStartX - 50.0 ==> currentIndex == Next(old(currentIndex), items.Length) && Rendered()
      ensures items.Length >= 1 && x > touchStartX + 50.0 ==> currentIndex == Prev(old(currentIndex), items.Length) && Rendered()
      ensures touchStartX - 50.0 <= x <= touchStartX + 50.0 ==> currentIndex == old(currentIndex) && items[..] == old(items[..])
    {
      touchEndX := x;
      if touchEndX < touchStartX - 50.0 {
        GoNext();
      }
      if touchEndX > touchStartX + 50.0 {
        GoPrev();
      }
    }
  }
}
