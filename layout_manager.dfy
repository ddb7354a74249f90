/**
 * CLLayoutManager: a centre-locking, horizontal layout manager. It keeps the position of its
 * first attached child and the attached children, and edits that list in place as it lays out,
 * fills, prunes and scrolls. Each method is proved to leave the window that the matching
 * function of LayoutWindow computes from the old one.
 *
 * The host's recycler is abstracted away: attaching a view for position i adds a child showing i,
 * measured at widths[i]; recycling a view removes its child from the list.
 */
module CenterLockLayout {
  import opened JavaInt
  import opened LayoutWindow

  class LayoutManager {
    /** The position shown by the first attached child, which is always child 0. */
    var firstPosition: int
    /** The attached children, in order. */
    var children: seq<Child>
    /** The parent's width (getWidth). */
    const width: nat
    /** The host's measure: widths[i] is the decorated width of item i; |widths| is the item count. */
    const widths: seq<nat>

    function State(): Layout
      reads this
    {
      Layout(firstPosition, children)
    }

    ghost predicate Valid()
      reads this
    {
      WellFormed(State(), widths)
    }

    constructor (width: nat, widths: seq<nat>)
      ensures Valid() && State() == Layout(0, [])
      ensures this.width == width && this.widths == widths
    {
      this.width := width;
      this.widths := widths;
      firstPosition := 0;
      children := [];
    }

    /** onLayoutChildren: detach everything when there are no items, otherwise lay out again when the structure changed. */
    method OnLayoutChildren(preLayout: bool, structureChanged: bool)
      requires Valid()
      modifies this
      ensures Valid()
      ensures State() == Relayout(old(State()), widths, width, preLayout, structureChanged)
    {
      if |widths| == 0 {
        children := [];
        return;
      }
      if preLayout || (|widths| != 0 && !structureChanged) {
        return;
      }
      var parentRight: int := width;
      var count := |widths|;
      var left: int := 0;
      if |children| > 0 {
        left := children[0].left;
      } else {
        var w := widths[0];
        left := JavaDiv(parentRight - w, 2);
      }
      RelayoutAttachesFrom(State(), widths, width, left);
      LayOutFrom(left);
    }

    /** The loop of onLayoutChildren: detach everything, then attach from firstPosition at `left` until the parent's right edge. */
    method LayOutFrom(left: int)
      requires firstPosition >= 0
      modifies this
      ensures firstPosition == old(firstPosition)
      ensures children == Appended(widths, firstPosition, left, width)
    {
      var parentRight: int := width;
      var count := |widths|;
      var offsetX := left;
      children := [];
      var i: nat := firstPosition;
      while i < count && offsetX < parentRight
        invariant firstPosition == old(firstPosition)
        invariant children + Appended(widths, i, offsetX, parentRight) == Appended(widths, firstPosition, left, parentRight)
        decreases count - i
      {
        var w := widths[i];
        AppendedStep(children, widths, i, offsetX, parentRight);
        children := children + [Child(i, offsetX, offsetX + w, false)];
        i, offsetX := i + 1, offsetX + w;
      }
    }

    /** fillWhenScrollLeft: attach children at the trailing edge while the content moves left. */
    method FillWhenScrollLeft(dx: int)
      requires Valid()
      modifies this
      ensures Valid()
      ensures State() == FillTrailing(old(State()), widths, width, dx)
    {
      if |children| <= 0 || dx <= 0 {
        return;
      }
      var last := children[|children| - 1];
      var position := last.index;
      var offsetX := last.right;
      var count := |widths|;
      var hangingRight := width + dx;
      var i: nat := position + 1;
      while i < count && offsetX < hangingRight
        invariant firstPosition == old(firstPosition)
        invariant children + Appended(widths, i, offsetX, hangingRight)
               == old(children) + Appended(widths, position + 1, last.right, hangingRight)
        decreases count - i
      {
        var w := widths[i];
        AppendedStep(children, widths, i, offsetX, hangingRight);
        children := children + [Child(i, offsetX, offsetX + w, false)];
        offsetX := offsetX + w;
        i := i + 1;
      }
      assert State() == FillTrailing(old(State()), widths, width, dx);
      FillTrailingWellFormed(old(State()), widths, width, dx);
    }

    /** fillWhenScrollRight: attach children at the leading edge while the content moves right. */
    method FillWhenScrollRight(dx: int)
      requires Valid()
      modifies this
      ensures Valid()
      ensures State() == FillLeading(old(State()), widths, dx)
    {
      if |children| <= 0 || dx >= 0 {
        return;
      }
      var first := children[0];
      var position := first.index;
      var offsetX := first.left;
      var hangingLeft := dx;
      var i := position - 1;
      while i >= 0 && offsetX > hangingLeft
        invariant -1 <= i < position
        invariant firstPosition == i + 1
        invariant firstPosition == old(firstPosition) - (|children| - |old(children)|)
        invariant Prepended(widths, i, offsetX, hangingLeft) + children
               == Prepended(widths, position - 1, first.left, hangingLeft) + old(children)
        decreases i
      {
        var w := widths[i];
        PrependedStep(children, widths, i, offsetX, hangingLeft);
        children := [Child(i, offsetX - w, offsetX, false)] + children;
        offsetX := offsetX - w;
        firstPosition := i;
        i := i - 1;
      }
      assert State() == FillLeading(old(State()), widths, dx);
      FillLeadingWellFormed(old(State()), widths, dx);
    }

    /**
     * The first loop of recycleViewsOutOfBounds: the slots of the first and the last child that
     * holds focus or is within the parent's bounds, both 0 when there is none.
     */
    method ScanRetained() returns (first: int, last: int)
      ensures children == [] ==> first == 0 && last == 0
      ensures children != [] ==> first == PruneFront(children, width) && last + 1 == PruneEnd(children, width)
    {
      var childCount := |children|;
      var parentWidth := width;
      var foundFirst := false;
      first, last := 0, 0;
      var i := 0;
      while i < childCount
        invariant 0 <= i <= childCount
        invariant !foundFirst ==> first == 0 && last == 0 && forall j :: 0 <= j < i ==> !Retained(children[j], parentWidth)
        invariant foundFirst ==> first <= last < i && Retained(children[first], parentWidth) && Retained(children[last], parentWidth)
        invariant foundFirst ==> forall j :: 0 <= j < first ==> !Retained(children[j], parentWidth)
        invariant foundFirst ==> forall j :: last < j < i ==> !Retained(children[j], parentWidth)
      {
        var v := children[i];
        if v.focused || InParentBound(v, parentWidth) {
          if !foundFirst {
            first := i;
            foundFirst := true;
          }
          last := i;
        }
        i := i + 1;
      }
      RetainedSpan(children, parentWidth);
      FirstRetainedIsFirst(children, parentWidth);
      RetainedEndIsLast(children, parentWidth);
      var f, e := FirstRetained(children, parentWidth), RetainedEnd(children, parentWidth);
      if foundFirst {
        assert f <= first;
        assert last < e;
      }
    }

    /** recycleViewsOutOfBounds: remove the children outside the span of focused or visible ones. */
    method RecycleViewsOutOfBounds()
      requires Valid()
      modifies this
      ensures Valid()
      ensures State() == Prune(old(State()), width)
    {
      ghost var l0 := State();
      PruneWellFormed(l0, widths, width);
      var childCount := |children|;
      var first, last := ScanRetained();
      ghost var keepEnd := Min(last + 1, childCount);
      if childCount > 0 {
        PruneIsSlice(l0, width, first, keepEnd);
      }
      RemoveAfter(last);
      RemoveBefore(first);
      assert children == l0.children[..keepEnd][first..];
      assert Prune(l0, width) == Layout(if childCount == 0 then 0 else l0.first + first, children);
      ghost var kept := children;
      assert |children| == 0 <==> childCount == 0;

      if |children| == 0 {
        firstPosition := 0;
      } else {
        firstPosition := firstPosition + first;
      }
      assert children == kept;
    }

    /** The second loop of recycleViewsOutOfBounds: remove, from the back, every child after slot `last`. */
    method RemoveAfter(last: int)
      requires 0 <= last
      modifies this
      ensures firstPosition == old(firstPosition)
      ensures children == old(children)[..Min(last + 1, |old(children)|)]
    {
      ghost var cs := children;
      var i := |children| - 1;
      while i > last
        invariant -1 <= i < |cs|
        invariant i == |cs| - 1 || last <= i
        invariant children == cs[..i + 1]
        invariant firstPosition == old(firstPosition)
      {
        RemoveLastSlot(cs, i);
        children := children[..i] + children[i + 1..];
        i := i - 1;
      }
    }

    /** The third loop of recycleViewsOutOfBounds: remove, from slot first - 1 down to 0, every child before slot `first`. */
    method RemoveBefore(first: int)
      requires 0 <= first <= |children|
      modifies this
      ensures firstPosition == old(firstPosition)
      ensures children == old(children)[first..]
    {
      ghost var cs := children;
      var i := first - 1;
      while i >= 0
        invariant -1 <= i < first
        invariant children == cs[..i + 1] + cs[first..]
        invariant firstPosition == old(firstPosition)
      {
        RemoveSlotBeforeRun(cs, i, first, |cs|);
        children := children[..i] + children[i + 1..];
        i := i - 1;
      }
    }

    /**
     * The host moves focus (requestFocus, clearFocus) onto the child in `slot`, or off every child
     * when the slot is outside the window. recycleViewsOutOfBounds reads that focus.
     */
    method SetFocus(slot: int)
      requires Valid()
      modifies this
      ensures Valid()
      ensures State() == WithFocus(old(State()), slot)
    {
      WithFocusWellFormed(State(), widths, slot);
      children := WithFocus(State(), slot).children;
    }

    /**
     * The first half of scrollHorizontallyBy: the offset the children will move by. It is -dx,
     * except that at the last position a leftward move and at position 0 a rightward move stop
     * when the edge child's centre reaches the parent's midpoint.
     */
    method ClampedDelta(dx: int) returns (delta: int)
      requires |children| > 0
      ensures -delta == ScrollClamp(State(), |widths|, width, dx)
    {
      delta := -dx;
      var mid := JavaDiv(width, 2);
      if dx > 0 {
        if children[|children| - 1].index == |widths| - 1 {
          var child := children[|children| - 1];
          delta := -Max(0, Min(dx, JavaDiv(child.right - child.left, 2) + child.left - mid));
        }
      } else {
        if firstPosition == 0 {
          var child := children[0];
          delta := -Min(0, Max(dx, (JavaDiv(child.right - child.left, 2) + child.left) - mid));
        }
      }
    }

    /**
     * scrollHorizontallyBy: clamp the request at the ends, fill the edge being revealed, prune,
     * move every child left by the consumed amount, and report that amount.
     */
    method ScrollHorizontallyBy(dx: int) returns (consumed: int)
      requires Valid()
      modifies this
      ensures Valid()
      ensures consumed == ScrollClamp(old(State()), |widths|, width, dx)
      ensures State() == Scroll(old(State()), widths, width, dx)
    {
      ghost var l0 := State();
      if |children| == 0 {
        return 0;
      }
      var delta := ClampedDelta(dx);

      if dx > 0 {
        FillWhenScrollLeft(dx);
      } else {
        FillWhenScrollRight(dx);
      }
      assert State() == Fill(l0, widths, width, dx);

      RecycleViewsOutOfBounds();

      var pruned := State();
      ScrollShiftsPruned(l0, widths, width, dx, pruned, delta);
      ShiftWellFormed(pruned, widths, delta);
      children := Shift(pruned, delta).children;
      assert State() == Shift(pruned, delta);
      return -delta;
    }
  }
}
