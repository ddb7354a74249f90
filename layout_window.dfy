/**
 * The window of a centre-locking horizontal layout manager, as values: which adapter positions
 * are attached, in which order, and at which horizontal extents. The layout manager's methods
 * (module CenterLockLayout) are proved against the functions of this module; the lemmas here
 * state what those functions promise.
 */
module LayoutWindow {
  import opened JavaInt
  import opened Wrappers

  /** An attached child view: the adapter position it shows, its extent [left, right] and focus. */
  datatype Child = Child(index: int, left: int, right: int, focused: bool)

  /** The window: the adapter position of the first attached child and the children in order. */
  datatype Layout = Layout(first: int, children: seq<Child>)

  // ---------------------------------------------------------------------------------------------
  // Window invariants

  /** Child k shows adapter position first + k. */
  predicate IndexedFrom(cs: seq<Child>, first: int)
  {
    forall k :: 0 <= k < |cs| ==> cs[k].index == first + k
  }

  /** Each child starts where its predecessor ends. */
  predicate Contiguous(cs: seq<Child>)
  {
    forall k :: 0 < k < |cs| ==> cs[k - 1].right == cs[k].left
  }

  /** Every child shows an existing position and is exactly as wide as the host measures it. */
  predicate Measured(cs: seq<Child>, widths: seq<nat>)
  {
    forall k :: 0 <= k < |cs| ==> 0 <= cs[k].index < |widths| && cs[k].right == cs[k].left + widths[cs[k].index]
  }

  predicate WellFormed(l: Layout, widths: seq<nat>)
  {
    l.first >= 0 && IndexedFrom(l.children, l.first) && Contiguous(l.children) && Measured(l.children, widths)
  }

  /** Two well-formed runs that abut form one well-formed run. */
  lemma JoinWellFormed(a: seq<Child>, b: seq<Child>, first: int, widths: seq<nat>)
    requires IndexedFrom(a, first) && Contiguous(a) && Measured(a, widths)
    requires IndexedFrom(b, first + |a|) && Contiguous(b) && Measured(b, widths)
    requires a != [] && b != [] ==> a[|a| - 1].right == b[0].left
    ensures IndexedFrom(a + b, first) && Contiguous(a + b) && Measured(a + b, widths)
  {
    var ab := a + b;
    forall k | 0 < k < |ab| ensures ab[k - 1].right == ab[k].left {
      if k < |a| {
        assert ab[k - 1] == a[k - 1] && ab[k] == a[k];
      } else if k == |a| {
        assert ab[k - 1] == a[|a| - 1] && ab[k] == b[0];
      } else {
        assert ab[k - 1] == b[k - 1 - |a|] && ab[k] == b[k - |a|];
      }
    }
  }

  /** Dropping a prepended run gives back the original children. */
  lemma DropPrefix(a: seq<Child>, b: seq<Child>)
    ensures (a + b)[|a|..] == b
  {
  }

  // ---------------------------------------------------------------------------------------------
  // Filling: the loops that attach children at either edge

  /**
   * The children attached by a left-to-right fill loop that starts at position i with its left
   * edge at x, and goes on while a position remains and the edge is short of limit
   * (the loops of onLayoutChildren and fillWhenScrollLeft).
   */
  function Appended(widths: seq<nat>, i: nat, x: int, limit: int): seq<Child>
    decreases |widths| - i
  {
    if i < |widths| && x < limit then
      [Child(i, x, x + widths[i], false)] + Appended(widths, i + 1, x + widths[i], limit)
    else
      []
  }

  /**
   * A left-to-right fill attaches consecutive positions from i, abutting from x on, each as wide
   * as measured, unfocused and starting short of the limit; it attaches nothing exactly when no
   * position remains or x already reaches the limit, and otherwise stops only once the limit is
   * reached or the last position is attached.
   */
  lemma {:induction false} AppendedShape(widths: seq<nat>, i: nat, x: int, limit: int)
    decreases |widths| - i
    ensures var r := Appended(widths, i, x, limit);
      && IndexedFrom(r, i) && Contiguous(r) && Measured(r, widths)
      && (r == [] <==> i >= |widths| || x >= limit)
      && (r != [] ==> r[0].left == x)
      && (forall k :: 0 <= k < |r| ==> r[k].left < limit && !r[k].focused)
      && (r != [] ==> r[|r| - 1].right >= limit || r[|r| - 1].index == |widths| - 1)
  {
    if i < |widths| && x < limit {
      var c := Child(i, x, x + widths[i], false);
      var rest := Appended(widths, i + 1, x + widths[i], limit);
      AppendedShape(widths, i + 1, x + widths[i], limit);
      JoinWellFormed([c], rest, i, widths);
      var r := [c] + rest;
      forall k | 0 <= k < |r| ensures r[k].left < limit && !r[k].focused {
        if k > 0 {
          assert r[k] == rest[k - 1];
        }
      }
    }
  }

  /** One iteration of a left-to-right fill loop: attaching position i moves it from the pending run to the done run. */
  lemma AppendedStep(done: seq<Child>, widths: seq<nat>, i: nat, x: int, limit: int)
    requires i < |widths| && x < limit
    ensures done + Appended(widths, i, x, limit)
         == (done + [Child(i, x, x + widths[i], false)]) + Appended(widths, i + 1, x + widths[i], limit)
  {
  }

  /**
   * The children attached by the right-to-left fill loop of fillWhenScrollRight: position i,
   * then i - 1, ..., each ending where the previous one starts (x first), while a position
   * remains and the edge is beyond limit. The result is in left-to-right order.
   */
  function Prepended(widths: seq<nat>, i: int, x: int, limit: int): seq<Child>
    requires -1 <= i < |widths|
    decreases i + 1
  {
    if i >= 0 && x > limit then
      Prepended(widths, i - 1, x - widths[i], limit) + [Child(i, x - widths[i], x, false)]
    else
      []
  }

  /** One iteration of a right-to-left fill loop: attaching position i moves it from the pending run to the done run. */
  lemma PrependedStep(done: seq<Child>, widths: seq<nat>, i: int, x: int, limit: int)
    requires 0 <= i < |widths| && x > limit
    ensures Prepended(widths, i, x, limit) + done
         == Prepended(widths, i - 1, x - widths[i], limit) + ([Child(i, x - widths[i], x, false)] + done)
  {
  }

  /** A right-to-left fill attaches consecutive positions ending at i, abutting, each as wide as measured. */
  lemma {:induction false} PrependedWindow(widths: seq<nat>, i: int, x: int, limit: int)
    requires -1 <= i < |widths|
    decreases i + 1
    ensures var r := Prepended(widths, i, x, limit);
      && IndexedFrom(r, i + 1 - |r|) && Contiguous(r) && Measured(r, widths)
      && |r| <= i + 1
      && (r != [] ==> r[|r| - 1].right == x)
  {
    if i >= 0 && x > limit {
      var c := Child(i, x - widths[i], x, false);
      var rest := Prepended(widths, i - 1, x - widths[i], limit);
      PrependedWindow(widths, i - 1, x - widths[i], limit);
      JoinWellFormed(rest, [c], i - |rest|, widths);
    }
  }

  /**
   * A right-to-left fill attaches unfocused children ending beyond the limit; it attaches nothing
   * exactly when no position remains or x is already at or before the limit, and otherwise stops
   * only once the limit is reached or position 0 is attached.
   */
  lemma {:induction false} PrependedEdges(widths: seq<nat>, i: int, x: int, limit: int)
    requires -1 <= i < |widths|
    decreases i + 1
    ensures var r := Prepended(widths, i, x, limit);
      && (r == [] <==> i < 0 || x <= limit)
      && (forall k :: 0 <= k < |r| ==> r[k].right > limit && !r[k].focused)
      && (r != [] ==> r[0].left <= limit || r[0].index == 0)
  {
    if i >= 0 && x > limit {
      var c := Child(i, x - widths[i], x, false);
      var rest := Prepended(widths, i - 1, x - widths[i], limit);
      PrependedEdges(widths, i - 1, x - widths[i], limit);
      var r := rest + [c];
      forall k | 0 <= k < |r| ensures r[k].right > limit && !r[k].focused {
        if k < |rest| {
          assert r[k] == rest[k];
        }
      }
      if rest != [] {
        assert r[0] == rest[0];
      }
    }
  }

  /**
   * fillWhenScrollLeft: when the content moves left (dx > 0), attach the following positions
   * at the trailing edge until that edge reaches width + dx or the positions run out.
   */
  function FillTrailing(l: Layout, widths: seq<nat>, width: nat, dx: int): Layout
    requires WellFormed(l, widths)
  {
    if |l.children| <= 0 || dx <= 0 then l
    else
      var last := l.children[|l.children| - 1];
      Layout(l.first, l.children + Appended(widths, last.index + 1, last.right, width + dx))
  }

  /** The trailing fill keeps the window well formed, its first position and the old children in front. */
  lemma FillTrailingWellFormed(l: Layout, widths: seq<nat>, width: nat, dx: int)
    requires WellFormed(l, widths)
    ensures var r := FillTrailing(l, widths, width, dx);
      && WellFormed(r, widths) && r.first == l.first
      && |l.children| <= |r.children| && r.children[..|l.children|] == l.children
  {
    if |l.children| > 0 && dx > 0 {
      var last := l.children[|l.children| - 1];
      var added := Appended(widths, last.index + 1, last.right, width + dx);
      AppendedShape(widths, last.index + 1, last.right, width + dx);
      JoinWellFormed(l.children, added, l.first, widths);
      assert (l.children + added)[..|l.children|] == l.children;
    }
  }

  /**
   * The trailing fill is a no-op on an empty window or unless dx > 0; what it adds starts short
   * of width + dx, unfocused, and it stops only once the trailing edge reaches width + dx or the
   * last position is attached.
   */
  lemma FillTrailingEdges(l: Layout, widths: seq<nat>, width: nat, dx: int)
    requires WellFormed(l, widths)
    ensures var r := FillTrailing(l, widths, width, dx);
      && (l.children == [] || dx <= 0 ==> r == l)
      && (forall k :: |l.children| <= k < |r.children| ==>
            r.children[k].left < width + dx && !r.children[k].focused)
      && (l.children != [] && dx > 0 ==>
            r.children[|r.children| - 1].right >= width + dx || r.children[|r.children| - 1].index == |widths| - 1)
  {
    if |l.children| > 0 && dx > 0 {
      var last := l.children[|l.children| - 1];
      var added := Appended(widths, last.index + 1, last.right, width + dx);
      AppendedShape(widths, last.index + 1, last.right, width + dx);
      var r := l.children + added;
      forall k | |l.children| <= k < |r| ensures r[k].left < width + dx && !r[k].focused {
        assert r[k] == added[k - |l.children|];
      }
    }
  }

  /**
   * fillWhenScrollRight: when the content moves right (dx < 0), attach the preceding positions
   * at the leading edge until that edge reaches dx or position 0 is attached; the first
   * position moves back by the number attached.
   */
  function FillLeading(l: Layout, widths: seq<nat>, dx: int): Layout
    requires WellFormed(l, widths)
  {
    if |l.children| <= 0 || dx >= 0 then l
    else
      var added := Prepended(widths, l.first - 1, l.children[0].left, dx);
      Layout(l.first - |added|, added + l.children)
  }

  /**
   * The leading fill keeps the window well formed and the old children at the back, moving the
   * first position back by the number of children added.
   */
  lemma FillLeadingWellFormed(l: Layout, widths: seq<nat>, dx: int)
    requires WellFormed(l, widths)
    ensures var r := FillLeading(l, widths, dx);
      && WellFormed(r, widths)
      && |l.children| <= |r.children| && r.first == l.first - (|r.children| - |l.children|)
      && r.children[|r.children| - |l.children|..] == l.children
  {
    if |l.children| > 0 && dx < 0 {
      var added := Prepended(widths, l.first - 1, l.children[0].left, dx);
      var r := Layout(l.first - |added|, added + l.children);
      assert FillLeading(l, widths, dx) == r;
      PrependedWindow(widths, l.first - 1, l.children[0].left, dx);
      JoinWellFormed(added, l.children, l.first - |added|, widths);
      DropPrefix(added, l.children);
    }
  }

  /**
   * The leading fill is a no-op on an empty window or unless dx < 0; what it adds ends beyond dx,
   * unfocused, and it stops only once the leading edge reaches dx or position 0 is attached.
   */
  lemma FillLeadingEdges(l: Layout, widths: seq<nat>, dx: int)
    requires WellFormed(l, widths)
    ensures var r := FillLeading(l, widths, dx);
      && (l.children == [] || dx >= 0 ==> r == l)
      && (forall k :: 0 <= k < |r.children| - |l.children| ==>
            r.children[k].right > dx && !r.children[k].focused)
      && (l.children != [] && dx < 0 ==> r.children[0].left <= dx || r.first == 0)
  {
    if |l.children| > 0 && dx < 0 {
      var added := Prepended(widths, l.first - 1, l.children[0].left, dx);
      PrependedWindow(widths, l.first - 1, l.children[0].left, dx);
      PrependedEdges(widths, l.first - 1, l.children[0].left, dx);
      var r := added + l.children;
      forall k | 0 <= k < |added| ensures r[k].right > dx && !r[k].focused {
        assert r[k] == added[k];
      }
      if added != [] {
        assert r[0] == added[0];
      }
    }
  }

  // ---------------------------------------------------------------------------------------------
  // Pruning: recycleViewsOutOfBounds

  /**
   * inParentBound: the child's box meets the parent's, edges included. Children are always laid
   * out over the full height [0, height] with height >= 0, so the vertical half of the test
   * always holds and only the horizontal half is kept.
   */
  predicate InParentBound(c: Child, width: nat)
  {
    c.right >= 0 && c.left <= width
  }

  /** A child that pruning must keep: it holds focus or it is within the parent's bounds. */
  predicate Retained(c: Child, width: nat)
  {
    c.focused || InParentBound(c, width)
  }

  /** The slot of the first retained child, or |cs| when none is retained. */
  function FirstRetained(cs: seq<Child>, width: nat): (k: nat)
    ensures k <= |cs|
  {
    if cs == [] then 0
    else if Retained(cs[0], width) then 0
    else 1 + FirstRetained(cs[1..], width)
  }

  /** FirstRetained finds a retained child, and no child before it is retained. */
  lemma {:induction false} FirstRetainedIsFirst(cs: seq<Child>, width: nat)
    ensures var k := FirstRetained(cs, width);
      && (k < |cs| ==> Retained(cs[k], width))
      && (forall j :: 0 <= j < k ==> !Retained(cs[j], width))
  {
    if cs != [] && !Retained(cs[0], width) {
      FirstRetainedIsFirst(cs[1..], width);
      var k := FirstRetained(cs, width);
      forall j | 0 < j < k ensures !Retained(cs[j], width) {
        assert cs[j] == cs[1..][j - 1];
      }
    }
  }

  /** One past the slot of the last retained child, or 0 when none is retained. */
  function RetainedEnd(cs: seq<Child>, width: nat): (e: nat)
    ensures e <= |cs|
  {
    if cs == [] then 0
    else if Retained(cs[|cs| - 1], width) then |cs|
    else RetainedEnd(cs[..|cs| - 1], width)
  }

  /** RetainedEnd - 1 is a retained child, and no child from RetainedEnd on is retained. */
  lemma {:induction false} RetainedEndIsLast(cs: seq<Child>, width: nat)
    ensures var e := RetainedEnd(cs, width);
      && (e > 0 ==> Retained(cs[e - 1], width))
      && (forall j :: e <= j < |cs| ==> !Retained(cs[j], width))
  {
    if cs != [] && !Retained(cs[|cs| - 1], width) {
      var front := cs[..|cs| - 1];
      RetainedEndIsLast(front, width);
      var e := RetainedEnd(cs, width);
      forall j | e <= j < |cs| - 1 ensures !Retained(cs[j], width) {
        assert cs[j] == front[j];
      }
      if e > 0 {
        assert cs[e - 1] == front[e - 1];
      }
    }
  }

  /** Either no child is retained, or the first retained slot comes no later than the last. */
  lemma RetainedSpan(cs: seq<Child>, width: nat)
    ensures FirstRetained(cs, width) < |cs| <==> RetainedEnd(cs, width) > 0
    ensures FirstRetained(cs, width) < |cs| ==> FirstRetained(cs, width) < RetainedEnd(cs, width)
  {
    FirstRetainedIsFirst(cs, width);
    RetainedEndIsLast(cs, width);
    var f, e := FirstRetained(cs, width), RetainedEnd(cs, width);
    if f < |cs| {
      assert Retained(cs[f], width);
    }
    if e > 0 {
      assert Retained(cs[e - 1], width);
    }
  }

  /** `first` of recycleViewsOutOfBounds: the number of children removed from the front. */
  function PruneFront(cs: seq<Child>, width: nat): nat
  {
    if FirstRetained(cs, width) < |cs| then FirstRetained(cs, width) else 0
  }

  /** `last + 1` of recycleViewsOutOfBounds: children from this slot on are removed. */
  function PruneEnd(cs: seq<Child>, width: nat): nat
  {
    if RetainedEnd(cs, width) > 0 then RetainedEnd(cs, width) else Min(1, |cs|)
  }

  /**
   * recycleViewsOutOfBounds: keep the children from the first to the last retained one and
   * advance the first position past those removed from the front; an empty window resets the
   * first position to 0.
   */
  function Prune(l: Layout, width: nat): (r: Layout)
    ensures l.children == [] ==> r == Layout(0, [])
    ensures l.children != [] ==> r.children != []
    ensures l.children != [] ==> l.first <= r.first
  {
    RetainedSpan(l.children, width);
    if l.children == [] then Layout(0, [])
    else
      Layout(l.first + PruneFront(l.children, width),
             l.children[PruneFront(l.children, width)..PruneEnd(l.children, width)])
  }

  /**
   * Pruning keeps exactly the run between the first and the last retained child: it is a slice of
   * the old window, every retained child is in it, and it begins and ends with retained children;
   * when nothing is retained only the first child stays.
   */
  lemma PruneKeepsRetainedSpan(l: Layout, width: nat)
    requires l.children != []
    ensures var r := Prune(l, width); var f := r.first - l.first;
      && 0 <= f && f + |r.children| <= |l.children|
      && r.children == l.children[f..f + |r.children|]
      && (forall k :: 0 <= k < |l.children| && Retained(l.children[k], width) ==> f <= k < f + |r.children|)
      && ((exists k :: 0 <= k < |l.children| && Retained(l.children[k], width)) ==>
            Retained(r.children[0], width) && Retained(r.children[|r.children| - 1], width))
      && ((forall k :: 0 <= k < |l.children| ==> !Retained(l.children[k], width)) ==>
            r.children == l.children[..1])
  {
    RetainedSpan(l.children, width);
    FirstRetainedIsFirst(l.children, width);
    RetainedEndIsLast(l.children, width);
  }

  /** Pruning a non-empty window keeps the slice between its front and end cuts, which is not empty. */
  lemma PruneIsSlice(l: Layout, width: nat, from: nat, to: nat)
    requires l.children != []
    requires from == PruneFront(l.children, width) && to == PruneEnd(l.children, width)
    ensures from < to <= |l.children|
    ensures Prune(l, width) == Layout(l.first + from, l.children[from..to])
  {
    RetainedSpan(l.children, width);
  }

  /** One iteration of the loop that removes children from the back: removing slot i of cs[..i + 1]. */
  lemma RemoveLastSlot(cs: seq<Child>, i: nat)
    requires i < |cs|
    ensures cs[..i + 1][..i] + cs[..i + 1][i + 1..] == cs[..i]
  {
  }

  /** One iteration of the loop that removes children from the front: removing slot i before the kept run. */
  lemma RemoveSlotBeforeRun(cs: seq<Child>, i: nat, from: nat, to: nat)
    requires i < from <= to <= |cs|
    ensures var c := cs[..i + 1] + cs[from..to]; c[..i] + c[i + 1..] == cs[..i] + cs[from..to]
  {
    var c := cs[..i + 1] + cs[from..to];
    assert c[..i] == cs[..i];
    assert c[i + 1..] == cs[from..to];
  }

  /** Pruning a well-formed window leaves a well-formed window. */
  lemma PruneWellFormed(l: Layout, widths: seq<nat>, width: nat)
    requires WellFormed(l, widths)
    ensures WellFormed(Prune(l, width), widths)
  {
    if l.children != [] {
      var f, e := PruneFront(l.children, width), PruneEnd(l.children, width);
      PruneIsSlice(l, width, f, e);
      var cs := l.children[f..e];
      forall k | 0 <= k < |cs| ensures cs[k] == l.children[f + k] { }
      forall k | 0 < k < |cs| ensures cs[k - 1].right == cs[k].left {
        assert cs[k - 1] == l.children[f + k - 1];
      }
    }
  }

  // ---------------------------------------------------------------------------------------------
  // Shifting: offsetChildrenHorizontal

  /** Move every child horizontally by `offset`. */
  function Shift(l: Layout, offset: int): (r: Layout)
    ensures r.first == l.first && |r.children| == |l.children|
    ensures forall k :: 0 <= k < |r.children| ==>
              r.children[k] == l.children[k].(left := l.children[k].left + offset, right := l.children[k].right + offset)
  {
    Layout(l.first, seq(|l.children|, k requires 0 <= k < |l.children| =>
      l.children[k].(left := l.children[k].left + offset, right := l.children[k].right + offset)))
  }

  /** Shifting keeps positions, contiguity and widths. */
  lemma ShiftWellFormed(l: Layout, widths: seq<nat>, offset: int)
    requires WellFormed(l, widths)
    ensures WellFormed(Shift(l, offset), widths)
  {
    var r := Shift(l, offset);
    forall k | 0 < k < |r.children| ensures r.children[k - 1].right == r.children[k].left {
      assert r.children[k - 1].right == l.children[k - 1].right + offset;
    }
  }

  // ---------------------------------------------------------------------------------------------
  // Focus: set by the host, read by recycleViewsOutOfBounds

  /** The host gives focus to the child in `slot` and takes it from every other one; a slot outside the window clears focus. */
  function WithFocus(l: Layout, slot: int): (r: Layout)
    ensures r.first == l.first && |r.children| == |l.children|
    ensures forall k :: 0 <= k < |r.children| ==>
              r.children[k].index == l.children[k].index && r.children[k].left == l.children[k].left
              && r.children[k].right == l.children[k].right && (r.children[k].focused <==> k == slot)
  {
    Layout(l.first, seq(|l.children|, k requires 0 <= k < |l.children| => l.children[k].(focused := k == slot)))
  }

  /** Moving focus keeps positions, contiguity and widths. */
  lemma WithFocusWellFormed(l: Layout, widths: seq<nat>, slot: int)
    requires WellFormed(l, widths)
    ensures WellFormed(WithFocus(l, slot), widths)
  {
    var r := WithFocus(l, slot);
    forall k | 0 < k < |r.children| ensures r.children[k - 1].right == r.children[k].left {
      assert r.children[k - 1].right == l.children[k - 1].right;
    }
  }

  /**
   * Pruning never removes the focused child, however far outside the parent it lies: its slot is
   * within the kept run, and the child there still shows its position and holds focus.
   */
  lemma PruneKeepsFocused(l: Layout, width: nat, slot: int)
    requires 0 <= slot < |l.children|
    ensures var fl := WithFocus(l, slot); var r := Prune(fl, width); var f := r.first - l.first;
      && 0 <= f <= slot < f + |r.children|
      && r.children[slot - f].index == l.children[slot].index && r.children[slot - f].focused
  {
    var fl := WithFocus(l, slot);
    assert Retained(fl.children[slot], width);
    PruneKeepsRetainedSpan(fl, width);
  }

  // ---------------------------------------------------------------------------------------------
  // Scrolling: scrollHorizontallyBy

  /** The horizontal centre of a child, rounding its half-width toward zero. */
  function Center(c: Child): int
  {
    JavaDiv(c.right - c.left, 2) + c.left
  }

  /**
   * The amount scrollHorizontallyBy reports as consumed by a request of dx: the whole request,
   * except that at the last position a leftward move stops when the last child's centre reaches
   * the parent's midpoint, and at position 0 a rightward move stops when the first child's
   * centre reaches it.
   */
  function ScrollClamp(l: Layout, itemCount: int, width: nat, dx: int): int
  {
    if l.children == [] then 0
    else
      var mid := JavaDiv(width, 2);
      if dx > 0 then
        var last := l.children[|l.children| - 1];
        if last.index == itemCount - 1 then Max(0, Min(dx, Center(last) - mid)) else dx
      else if l.first == 0 then Min(0, Max(dx, Center(l.children[0]) - mid))
      else dx
  }

  /** The consumed amount has the request's direction and at most its size; away from the ends it is the whole request. */
  lemma ScrollClampBounds(l: Layout, itemCount: int, width: nat, dx: int)
    ensures var r := ScrollClamp(l, itemCount, width, dx);
      && (l.children == [] ==> r == 0)
      && (dx >= 0 ==> 0 <= r <= dx)
      && (dx <= 0 ==> dx <= r <= 0)
      && (l.children != [] && dx > 0 && l.children[|l.children| - 1].index != itemCount - 1 ==> r == dx)
      && (l.children != [] && dx <= 0 && l.first != 0 ==> r == dx)
  {
  }

  /**
   * At the last position, consuming r moves the last child's centre left by r but never past the
   * midpoint it had not yet passed, and a shortened move stops exactly on the midpoint.
   */
  lemma ScrollClampStopsAtTrailingCentre(l: Layout, itemCount: int, width: nat, dx: int)
    requires l.children != [] && dx > 0 && l.children[|l.children| - 1].index == itemCount - 1
    ensures var r := ScrollClamp(l, itemCount, width, dx); var c := Center(l.children[|l.children| - 1]);
      && c - r >= Min(c, JavaDiv(width, 2))
      && (0 < r < dx ==> c - r == JavaDiv(width, 2))
      && (r == 0 <==> c <= JavaDiv(width, 2))
  {
  }

  /**
   * At position 0, consuming r (r <= 0) moves the first child's centre right by -r but never past
   * the midpoint it had not yet passed, and a shortened move stops exactly on the midpoint.
   */
  lemma ScrollClampStopsAtLeadingCentre(l: Layout, itemCount: int, width: nat, dx: int)
    requires l.children != [] && dx <= 0 && l.first == 0
    ensures var r := ScrollClamp(l, itemCount, width, dx); var c := Center(l.children[0]);
      && c - r <= Max(c, JavaDiv(width, 2))
      && (dx < r < 0 ==> c - r == JavaDiv(width, 2))
      && (r == 0 <==> c >= JavaDiv(width, 2) || dx == 0)
  {
  }

  /** The fill step of scrollHorizontallyBy: the trailing edge for dx > 0, the leading edge otherwise. */
  function Fill(l: Layout, widths: seq<nat>, width: nat, dx: int): (r: Layout)
    requires WellFormed(l, widths)
    ensures WellFormed(r, widths)
  {
    FillTrailingWellFormed(l, widths, width, dx);
    FillLeadingWellFormed(l, widths, dx);
    if dx > 0 then FillTrailing(l, widths, width, dx) else FillLeading(l, widths, dx)
  }

  /** The window after scrollHorizontallyBy(dx): clamp, fill, prune, then shift by the consumed amount. */
  function Scroll(l: Layout, widths: seq<nat>, width: nat, dx: int): Layout
    requires WellFormed(l, widths)
  {
    if l.children == [] then l
    else Shift(Prune(Fill(l, widths, width, dx), width), -ScrollClamp(l, |widths|, width, dx))
  }

  /** A scroll of a non-empty window moves the pruned, filled window by the negated consumed amount. */
  lemma ScrollShiftsPruned(l: Layout, widths: seq<nat>, width: nat, dx: int, pruned: Layout, delta: int)
    requires WellFormed(l, widths) && l.children != []
    requires pruned == Prune(Fill(l, widths, width, dx), width)
    requires delta == -ScrollClamp(l, |widths|, width, dx)
    ensures Scroll(l, widths, width, dx) == Shift(pruned, delta)
  {
  }

  /** Scrolling keeps the window well formed, and a non-empty window never becomes empty. */
  lemma ScrollWellFormed(l: Layout, widths: seq<nat>, width: nat, dx: int)
    requires WellFormed(l, widths)
    ensures WellFormed(Scroll(l, widths, width, dx), widths)
    ensures l.children != [] <==> Scroll(l, widths, width, dx).children != []
  {
    if l.children != [] {
      var filled := Fill(l, widths, width, dx);
      PruneWellFormed(filled, widths, width);
      ShiftWellFormed(Prune(filled, width), widths, -ScrollClamp(l, |widths|, width, dx));
    }
  }

  /**
   * After a scroll, every child sits where the fill and prune steps left it, moved left by the
   * consumed amount; positions and focus are untouched.
   */
  lemma ScrollShiftsByConsumed(l: Layout, widths: seq<nat>, width: nat, dx: int)
    requires WellFormed(l, widths) && l.children != []
    ensures var before := Prune(Fill(l, widths, width, dx), width);
      var after := Scroll(l, widths, width, dx);
      var r := ScrollClamp(l, |widths|, width, dx);
      && after.first == before.first && |after.children| == |before.children|
      && forall k :: 0 <= k < |after.children| ==>
           && after.children[k].left == before.children[k].left - r
           && after.children[k].right == before.children[k].right - r
           && after.children[k].index == before.children[k].index
           && after.children[k].focused == before.children[k].focused
  {
  }

  /**
   * recycleViewsOutOfBounds runs before offsetChildrenHorizontal, so it tests the bounds against
   * where the children are before the move. With five items 100 pixels wide in a 300-pixel
   * parent, the first layout attaches items 0 and 1 at [100, 200] and [200, 300]; a scroll of 150
   * attaches items 2 and 3, prunes item 3 (it starts at 400, beyond the right edge), then moves
   * everything left by 150: the window ends at 250 and [250, 300] stays empty while item 3 exists.
   */
  lemma ScrollLeavesTrailingGap()
    ensures var widths := [100, 100, 100, 100, 100];
      var l := Layout(0, [Child(0, 100, 200, false), Child(1, 200, 300, false)]);
      && Relayout(Layout(0, []), widths, 300, false, true) == l
      && Fill(l, widths, 300, 150).children[3] == Child(3, 400, 500, false)
      && ScrollClamp(l, |widths|, 300, 150) == 150
      && Scroll(l, widths, 300, 150)
         == Layout(0, [Child(0, -50, 50, false), Child(1, 50, 150, false), Child(2, 150, 250, false)])
  {
    var widths := [100, 100, 100, 100, 100];
    var c0, c1, c2, c3 := Child(0, 100, 200, false), Child(1, 200, 300, false), Child(2, 300, 400, false), Child(3, 400, 500, false);
    var l := Layout(0, [c0, c1]);
    GapFirstLayout();
    RelayoutWellFormed(Layout(0, []), widths, 300, false, true);
    assert WellFormed(l, widths);
    GapFill();
    GapPrune();
    var pruned := Layout(0, [c0, c1, c2]);
    assert ScrollClamp(l, |widths|, 300, 150) == 150;
    assert Scroll(l, widths, 300, 150) == Shift(pruned, -150);
  }

  /** The first layout of the example of ScrollLeavesTrailingGap. */
  lemma GapFirstLayout()
    ensures Relayout(Layout(0, []), [100, 100, 100, 100, 100], 300, false, true)
         == Layout(0, [Child(0, 100, 200, false), Child(1, 200, 300, false)])
  {
    var widths := [100, 100, 100, 100, 100];
    assert JavaDiv(300 - 100, 2) == 100;
    assert Appended(widths, 2, 300, 300) == [];
    assert Appended(widths, 1, 200, 300) == [Child(1, 200, 300, false)];
  }

  /** The fill step of the example of ScrollLeavesTrailingGap. */
  lemma GapFill()
    ensures Fill(Layout(0, [Child(0, 100, 200, false), Child(1, 200, 300, false)]), [100, 100, 100, 100, 100], 300, 150)
         == Layout(0, [Child(0, 100, 200, false), Child(1, 200, 300, false), Child(2, 300, 400, false), Child(3, 400, 500, false)])
  {
    var widths := [100, 100, 100, 100, 100];
    assert Appended(widths, 4, 500, 450) == [];
    assert Appended(widths, 3, 400, 450) == [Child(3, 400, 500, false)];
    assert Appended(widths, 2, 300, 450) == [Child(2, 300, 400, false), Child(3, 400, 500, false)];
  }

  /** The prune step of the example of ScrollLeavesTrailingGap. */
  lemma GapPrune()
    ensures Prune(Layout(0, [Child(0, 100, 200, false), Child(1, 200, 300, false), Child(2, 300, 400, false), Child(3, 400, 500, false)]), 300)
         == Layout(0, [Child(0, 100, 200, false), Child(1, 200, 300, false), Child(2, 300, 400, false)])
  {
    var cs := [Child(0, 100, 200, false), Child(1, 200, 300, false), Child(2, 300, 400, false), Child(3, 400, 500, false)];
    assert FirstRetained(cs, 300) == 0;
    assert RetainedEnd(cs, 300) == 3;
  }

  /**
   * The clamp looks only at the children attached before the scroll, so it cannot stop a long
   * request at the last item unless that item is already attached. In the example of
   * ScrollLeavesTrailingGap, a scroll of 1000 is consumed whole: the fill attaches items 2 to 4,
   * item 4 at [500, 600], and the window ends up at [-900, -600], all of it left of the parent,
   * although the last item's centre should have stopped on the midpoint.
   */
  lemma ScrollPastLastItem()
    ensures var widths := [100, 100, 100, 100, 100];
      var l := Layout(0, [Child(0, 100, 200, false), Child(1, 200, 300, false)]);
      && Relayout(Layout(0, []), widths, 300, false, true) == l
      && Fill(l, widths, 300, 1000).children[4] == Child(4, 500, 600, false)
      && ScrollClamp(l, |widths|, 300, 1000) == 1000
      && Scroll(l, widths, 300, 1000)
         == Layout(0, [Child(0, -900, -800, false), Child(1, -800, -700, false), Child(2, -700, -600, false)])
  {
    var widths := [100, 100, 100, 100, 100];
    var c0, c1, c2 := Child(0, 100, 200, false), Child(1, 200, 300, false), Child(2, 300, 400, false);
    var l := Layout(0, [c0, c1]);
    GapFirstLayout();
    RelayoutWellFormed(Layout(0, []), widths, 300, false, true);
    assert WellFormed(l, widths);
    OvershootFill();
    OvershootPrune();
    var pruned := Layout(0, [c0, c1, c2]);
    assert ScrollClamp(l, |widths|, 300, 1000) == 1000;
    assert Scroll(l, widths, 300, 1000) == Shift(pruned, -1000);
  }

  /** The fill step of the example of ScrollPastLastItem: every remaining item is attached. */
  lemma OvershootFill()
    ensures Fill(Layout(0, [Child(0, 100, 200, false), Child(1, 200, 300, false)]), [100, 100, 100, 100, 100], 300, 1000)
         == Layout(0, [Child(0, 100, 200, false), Child(1, 200, 300, false), Child(2, 300, 400, false),
                       Child(3, 400, 500, false), Child(4, 500, 600, false)])
  {
    var widths := [100, 100, 100, 100, 100];
    assert Appended(widths, 5, 600, 1300) == [];
    assert Appended(widths, 4, 500, 1300) == [Child(4, 500, 600, false)];
    assert Appended(widths, 3, 400, 1300) == [Child(3, 400, 500, false), Child(4, 500, 600, false)];
    assert Appended(widths, 2, 300, 1300) == [Child(2, 300, 400, false), Child(3, 400, 500, false), Child(4, 500, 600, false)];
  }

  /** The prune step of the example of ScrollPastLastItem: items 3 and 4 lie beyond the right edge. */
  lemma OvershootPrune()
    ensures Prune(Layout(0, [Child(0, 100, 200, false), Child(1, 200, 300, false), Child(2, 300, 400, false),
                             Child(3, 400, 500, false), Child(4, 500, 600, false)]), 300)
         == Layout(0, [Child(0, 100, 200, false), Child(1, 200, 300, false), Child(2, 300, 400, false)])
  {
    var cs := [Child(0, 100, 200, false), Child(1, 200, 300, false), Child(2, 300, 400, false),
               Child(3, 400, 500, false), Child(4, 500, 600, false)];
    assert FirstRetained(cs, 300) == 0;
    assert cs[..4] == cs[..3] + [cs[3]];
    assert RetainedEnd(cs, 300) == 3;
  }

  /**
   * The scroll with the move applied before the prune, so that the bounds test sees the children
   * where they end up.
   */
  function ScrollShiftingFirst(l: Layout, widths: seq<nat>, width: nat, dx: int): Layout
    requires WellFormed(l, widths)
  {
    if l.children == [] then l
    else Prune(Shift(Fill(l, widths, width, dx), -ScrollClamp(l, |widths|, width, dx)), width)
  }

  /** A contiguous run that starts at or before x and ends at or after x has a child whose extent holds x. */
  lemma {:induction false} ContiguousCrossing(cs: seq<Child>, x: int)
    requires cs != [] && Contiguous(cs) && cs[0].left <= x <= cs[|cs| - 1].right
    ensures exists k :: 0 <= k < |cs| && cs[k].left <= x <= cs[k].right
  {
    if cs[0].right < x {
      var rest := cs[1..];
      assert rest[0].left == cs[0].right;
      ContiguousCrossing(rest, x);
      var k :| 0 <= k < |rest| && rest[k].left <= x <= rest[k].right;
      assert cs[k + 1] == rest[k];
    }
  }

  /** No child holds focus. */
  predicate Unfocused(cs: seq<Child>)
  {
    forall k :: 0 <= k < |cs| ==> !cs[k].focused
  }

  /**
   * In a contiguous run with no focused child that starts at or before the parent's right edge
   * and ends at or after it, the last retained child ends at or after that edge.
   */
  lemma LastRetainedReachesRightEdge(cs: seq<Child>, widths: seq<nat>, width: nat)
    requires Contiguous(cs) && Measured(cs, widths) && Unfocused(cs)
    requires cs != [] && cs[0].left <= width <= cs[|cs| - 1].right
    ensures var e := RetainedEnd(cs, width); e > 0 && cs[e - 1].right >= width
  {
    ContiguousCrossing(cs, width);
    var k :| 0 <= k < |cs| && cs[k].left <= width <= cs[k].right;
    assert Retained(cs[k], width);
    RetainedEndIsLast(cs, width);
    var e := RetainedEnd(cs, width);
    assert k < e;
    if e < |cs| {
      var a, b := cs[e - 1], cs[e];
      assert Retained(a, width);
      assert !a.focused && !b.focused;
      assert b.left == a.right;
      assert b.right >= b.left;
      assert !Retained(b, width);
    }
  }

  /**
   * Pruning a window with no focused child that starts at or before the parent's right edge and
   * ends at or after it keeps a window that still ends at or after it.
   */
  lemma PruneKeepsRightEdge(l: Layout, widths: seq<nat>, width: nat)
    requires WellFormed(l, widths) && l.children != [] && Unfocused(l.children)
    requires l.children[0].left <= width <= l.children[|l.children| - 1].right
    ensures var r := Prune(l, width); r.children != [] && r.children[|r.children| - 1].right >= width
  {
    var cs := l.children;
    LastRetainedReachesRightEdge(cs, widths, width);
    var f, e := PruneFront(cs, width), PruneEnd(cs, width);
    assert e == RetainedEnd(cs, width);
    PruneIsSlice(l, width, f, e);
    assert Prune(l, width).children[|Prune(l, width).children| - 1] == cs[e - 1];
  }

  /** The trailing fill adds only unfocused children behind the old ones. */
  lemma FillTrailingUnfocused(l: Layout, widths: seq<nat>, width: nat, dx: int)
    requires WellFormed(l, widths) && l.children != [] && Unfocused(l.children)
    ensures var r := FillTrailing(l, widths, width, dx);
      Unfocused(r.children) && r.children[0] == l.children[0]
  {
    FillTrailingWellFormed(l, widths, width, dx);
    FillTrailingEdges(l, widths, width, dx);
    var r := FillTrailing(l, widths, width, dx).children;
    forall k | 0 <= k < |r| ensures !r[k].focused {
      if k < |l.children| {
        assert r[k] == r[..|l.children|][k];
      }
    }
    assert r[0] == r[..|l.children|][0];
  }

  /**
   * On a leftward scroll of an unfocused window that starts within the parent, the filled
   * children moved by the consumed amount form an unfocused window that still starts within it.
   */
  lemma ShiftedFillStartsWithin(l: Layout, widths: seq<nat>, width: nat, dx: int)
    requires WellFormed(l, widths) && l.children != [] && dx > 0 && l.children[0].left <= width
    requires Unfocused(l.children)
    ensures var s := Shift(Fill(l, widths, width, dx), -ScrollClamp(l, |widths|, width, dx));
      && WellFormed(s, widths) && s.children != [] && Unfocused(s.children) && s.children[0].left <= width
  {
    var filled := Fill(l, widths, width, dx);
    var c := ScrollClamp(l, |widths|, width, dx);
    assert filled == FillTrailing(l, widths, width, dx);
    FillTrailingUnfocused(l, widths, width, dx);
    ScrollClampBounds(l, |widths|, width, dx);
    ShiftWellFormed(filled, widths, -c);
  }

  /** The corrected scroll of a non-empty window prunes the filled window after moving it. */
  lemma ShiftingFirstPrunesShifted(l: Layout, widths: seq<nat>, width: nat, dx: int, shifted: Layout)
    requires WellFormed(l, widths) && l.children != []
    requires shifted == Shift(Fill(l, widths, width, dx), -ScrollClamp(l, |widths|, width, dx))
    ensures ScrollShiftingFirst(l, widths, width, dx) == Prune(shifted, width)
  {
  }

  /**
   * Moving before pruning leaves no gap at the trailing edge: on a leftward scroll of a window
   * that starts within the parent and holds no focused child, whenever the filled children, once
   * moved, reach the parent's right edge, the pruned window still reaches it.
   */
  lemma ShiftingFirstLeavesNoTrailingGap(l: Layout, widths: seq<nat>, width: nat, dx: int)
    requires WellFormed(l, widths) && l.children != [] && dx > 0 && l.children[0].left <= width
    requires Unfocused(l.children)
    requires var f := Fill(l, widths, width, dx);
      f.children[|f.children| - 1].right - ScrollClamp(l, |widths|, width, dx) >= width
    ensures var r := ScrollShiftingFirst(l, widths, width, dx);
      WellFormed(r, widths) && r.children != [] && r.children[|r.children| - 1].right >= width
  {
    var filled := Fill(l, widths, width, dx);
    var s := Shift(filled, -ScrollClamp(l, |widths|, width, dx));
    ShiftingFirstPrunesShifted(l, widths, width, dx, s);
    assert s.children[|s.children| - 1].right >= width;
    ShiftedFillStartsWithin(l, widths, width, dx);
    PruneWellFormed(s, widths, width);
    PruneKeepsRightEdge(s, widths, width);
  }

  // ---------------------------------------------------------------------------------------------
  // Layout: onLayoutChildren

  /**
   * The window after onLayoutChildren. With no items every child is detached (the first position
   * is kept). A pre-layout pass, or a pass without a structural change, leaves the window alone.
   * Otherwise the children are laid out again from the first position, starting at the current
   * first child's left edge or, with no child attached, at the edge that centres item 0.
   */
  function Relayout(l: Layout, widths: seq<nat>, width: nat, preLayout: bool, structureChanged: bool): Layout
    requires l.first >= 0
  {
    if |widths| == 0 then Layout(l.first, [])
    else if preLayout || (|widths| != 0 && !structureChanged) then l
    else
      var left := if l.children != [] then l.children[0].left else JavaDiv(width - widths[0], 2);
      Layout(l.first, Appended(widths, l.first, left, width))
  }

  /**
   * A relayout places consecutive positions from the first position, abutting, each as wide as
   * measured and starting short of the parent's right edge; it stops only when that edge is
   * reached or the items run out.
   */
  lemma RelayoutPlacesWindow(l: Layout, widths: seq<nat>, width: nat)
    requires l.first >= 0 && |widths| > 0
    ensures var r := Relayout(l, widths, width, false, true);
      var left := if l.children != [] then l.children[0].left else JavaDiv(width - widths[0], 2);
      && WellFormed(r, widths) && r.first == l.first
      && (r.children != [] ==> r.children[0].left == left)
      && (r.children == [] <==> l.first >= |widths| || left >= width)
      && (forall k :: 0 <= k < |r.children| ==> r.children[k].left < width && r.children[k].index < |widths|)
      && (r.children != [] ==> r.children[|r.children| - 1].right >= width || r.children[|r.children| - 1].index == |widths| - 1)
  {
    var left := if l.children != [] then l.children[0].left else JavaDiv(width - widths[0], 2);
    AppendedShape(widths, l.first, left, width);
  }

  /** A pass that lays out attaches the run that starts at the first position and at left. */
  lemma RelayoutAttachesFrom(l: Layout, widths: seq<nat>, width: nat, left: int)
    requires l.first >= 0 && |widths| > 0
    requires left == if l.children != [] then l.children[0].left else JavaDiv(width - widths[0], 2)
    ensures Relayout(l, widths, width, false, true) == Layout(l.first, Appended(widths, l.first, left, width))
    ensures WellFormed(Layout(l.first, Appended(widths, l.first, left, width)), widths)
  {
    AppendedShape(widths, l.first, left, width);
  }

  /** Every layout pass leaves a well-formed window well formed. */
  lemma RelayoutWellFormed(l: Layout, widths: seq<nat>, width: nat, preLayout: bool, structureChanged: bool)
    requires WellFormed(l, widths)
    ensures WellFormed(Relayout(l, widths, width, preLayout, structureChanged), widths)
  {
    if |widths| > 0 {
      RelayoutPlacesWindow(l, widths, width);
    }
  }

  /** With no items, layout detaches every child; a pass that does not lay out changes nothing. */
  lemma RelayoutEmptyOrUnchanged(l: Layout, widths: seq<nat>, width: nat, preLayout: bool, structureChanged: bool)
    requires l.first >= 0
    ensures |widths| == 0 ==> Relayout(l, widths, width, preLayout, structureChanged).children == []
    ensures |widths| != 0 && (preLayout || !structureChanged) ==> Relayout(l, widths, width, preLayout, structureChanged) == l
  {
  }

  /**
   * The first layout of an empty window at position 0 attaches item 0 with its centre at most
   * one pixel from the parent's midpoint, whether item 0 is narrower or wider than the parent.
   */
  lemma {:induction false} InitialLayoutCentresFirstItem(widths: seq<nat>, width: nat)
    requires |widths| > 0 && width > 0
    ensures var r := Relayout(Layout(0, []), widths, width, false, true);
      && r.children != [] && r.children[0].index == 0
      && r.children[0].left == JavaDiv(width - widths[0], 2)
      && -1 <= Center(r.children[0]) - JavaDiv(width, 2) <= 1
  {
    var w := widths[0];
    var left := JavaDiv(width - w, 2);
    if width - w >= 0 {
      assert left == (width - w) / 2;
    } else {
      assert left == -((w - width) / 2);
    }
    var r := Relayout(Layout(0, []), widths, width, false, true);
    assert r.children[0] == Child(0, left, left + w, false);
    assert Center(r.children[0]) == w / 2 + left;
  }

  /** Laying out twice is laying out once, unless the first pass detached every child. */
  lemma RelayoutIdempotent(l: Layout, widths: seq<nat>, width: nat)
    requires l.first >= 0
    requires var r := Relayout(l, widths, width, false, true); r.children != [] || l.children == []
    ensures var r := Relayout(l, widths, width, false, true); Relayout(r, widths, width, false, true) == r
  {
  }

  // ---------------------------------------------------------------------------------------------
  // Programmatic scrolling: smoothScrollToPosition and the scroll vector

  /** smoothScrollToPosition(rv, state, position): the target of the smooth scroll started, if any. */
  function SmoothScrollTarget(itemCount: int, position: int): (r: Option<int>)
    ensures r.Some? ==> r.value == position
    ensures r.Some? <==> 0 <= position < itemCount
  {
    if position >= itemCount || position < 0 then None else Some(position)
  }

  /** calculateScrollDirectionForPosition: -1 toward the start, 1 toward the end. */
  function ScrollDirection(l: Layout, position: int): int
  {
    if l.children == [] then -1
    else if position < l.first then -1 else 1
  }

  /** computeScrollVectorForPosition: a horizontal unit vector, or none for direction 0. */
  function ScrollVector(l: Layout, position: int): Option<(int, int)>
  {
    var direction := ScrollDirection(l, position);
    if direction == 0 then None else Some((direction, 0))
  }

  /**
   * The scroll vector always exists and is horizontal: it points backward exactly when no child
   * is attached or the target lies before the first position, and forward otherwise.
   */
  lemma ScrollVectorHorizontal(l: Layout, position: int)
    ensures ScrollVector(l, position).Some?
    ensures ScrollVector(l, position).value.1 == 0
    ensures ScrollVector(l, position).value.0 == -1 <==> l.children == [] || position < l.first
    ensures ScrollVector(l, position).value.0 == 1 <==> l.children != [] && position >= l.first
  {
  }

  // ---------------------------------------------------------------------------------------------
  // Tapping: smoothScrollToPosition(View) and calculateDxToMakeCentral

  /**
   * smoothScrollToPosition(View): the position requested when the child in slot `tapped` is
   * tapped, given the slot of the snap view, if any. A tap on another view than the snap view
   * requests the tapped position; a tap on the snap view requests it only when the view's centre
   * is within 4 pixels of the midpoint.
   */
  function TapRequest(l: Layout, width: nat, tapped: nat, snap: Option<nat>): Option<int>
    requires tapped < |l.children|
  {
    var v := l.children[tapped];
    if snap != Some(tapped) then Some(v.index)
    else
      var mid := JavaDiv(width, 2);
      var pos := v.left + JavaDiv(v.right - v.left, 2);
      if Abs(mid - pos) < 4 then Some(v.index) else None
  }

  /**
   * A tap requests nothing or the tapped child's own position, never another one; it requests
   * nothing exactly when the tapped child is the snap view and is 4 or more pixels off centre.
   * In a well-formed window the requested position is always accepted as a scroll target.
   */
  lemma TapRequestsTappedPosition(l: Layout, widths: seq<nat>, width: nat, tapped: nat, snap: Option<nat>)
    requires WellFormed(l, widths) && tapped < |l.children|
    ensures var r := TapRequest(l, width, tapped, snap);
      && (r == None || r == Some(l.first + tapped))
      && (r == None <==> snap == Some(tapped) && Abs(JavaDiv(width, 2) - Center(l.children[tapped])) >= 4)
      && (r.Some? ==> SmoothScrollTarget(|widths|, r.value) == Some(l.first + tapped))
  {
  }

  /**
   * calculateDxToMakeCentral: the horizontal move that brings a child with extent [left, right]
   * to the centre of a parent of the given width and paddings. The layout manager always scrolls
   * horizontally, so the early return for a manager that cannot is not reachable.
   */
  function DxToMakeCentral(left: int, right: int, paddingLeft: int, paddingRight: int, width: int): int
  {
    var start := paddingLeft;
    var end := width - paddingRight;
    var childCenter := left + JavaDiv(right - left, 2);
    var containerCenter := JavaDiv(end - start, 2);
    containerCenter - childCenter
  }

  /**
   * Moving a child by the computed amount puts its centre on the centre of the padded area when
   * there is no left padding; a child already there needs no move.
   */
  lemma DxToMakeCentralCentres(c: Child, paddingRight: int, width: int)
    requires c.left <= c.right
    ensures var dx := DxToMakeCentral(c.left, c.right, 0, paddingRight, width);
      var moved := c.(left := c.left + dx, right := c.right + dx);
      && Center(moved) == JavaDiv(width - paddingRight, 2)
      && (Center(c) == JavaDiv(width - paddingRight, 2) ==> dx == 0)
  {
  }

  /**
   * The centre the move aims at is measured from the left padding but used as a parent
   * coordinate: with paddings of 20 in a 300-pixel parent, a child at [0, 100] is moved by 80,
   * which puts its centre at 130 rather than at 150, the middle of the padded area [20, 280].
   */
  lemma DxToMakeCentralIgnoresLeftPadding()
    ensures var dx := DxToMakeCentral(0, 100, 20, 20, 300);
      && dx == 80
      && Center(Child(0, dx, 100 + dx, false)) == 130
      && 20 + JavaDiv(280 - 20, 2) == 150
  {
  }

  /** calculateDxToMakeCentral with the centre of the padded area taken in parent coordinates. */
  function DxToMakeCentralPadded(left: int, right: int, paddingLeft: int, paddingRight: int, width: int): int
  {
    var start := paddingLeft;
    var end := width - paddingRight;
    var childCenter := left + JavaDiv(right - left, 2);
    var containerCenter := start + JavaDiv(end - start, 2);
    containerCenter - childCenter
  }

  /**
   * The corrected move puts the child's centre on the middle of the padded area, which lies within
   * that area; without a left padding it is the move calculateDxToMakeCentral computes.
   */
  lemma DxToMakeCentralPaddedCentres(c: Child, paddingLeft: int, paddingRight: int, width: int)
    requires c.left <= c.right
    ensures var dx := DxToMakeCentralPadded(c.left, c.right, paddingLeft, paddingRight, width);
      var moved := c.(left := c.left + dx, right := c.right + dx);
      var start, end := paddingLeft, width - paddingRight;
      && Center(moved) == start + JavaDiv(end - start, 2)
      && (start <= end ==> start <= Center(moved) <= end)
      && (paddingLeft == 0 ==> dx == DxToMakeCentral(c.left, c.right, paddingLeft, paddingRight, width))
  {
    var start, end := paddingLeft, width - paddingRight;
    if start <= end {
      JavaHalfOfNat(end - start);
    }
  }
}
