/**
 * CLSyncMediator: couples a horizontal recycler view (h, rv1) and a vertical one (v, rv2) so that
 * scrolling one moves the other to the same proportional position. Three pieces of state drive
 * it: which view the current gesture started on (EventSource), how far each view has scrolled
 * (one ScrollWatcher per view), and whether the correcting scroll listeners are registered
 * (sync/unsync).
 *
 * The recycler views themselves are abstracted away. A scroll event is delivered as a call with
 * its dx and dy and a snapshot of what the correction handler reads from the two views; the
 * smoothScrollBy call a handler issues is returned as a ScrollBy request.
 */
module SyncMediation {
  import opened JavaInt
  import opened Wrappers

  /** The two coupled views: h (rv1) scrolls horizontally, v (rv2) scrolls vertically. */
  datatype View = Horizontal | Vertical

  /** What a correction handler reads from a view: getChildCount() and the size of getChildAt(0). */
  datatype Snapshot = Snapshot(childCount: nat, firstWidth: int, firstHeight: int)

  /** A smoothScrollBy(dx, dy) request issued to one of the views. */
  datatype ScrollBy = ScrollBy(dx: int, dy: int)

  // ---------------------------------------------------------------------------------------------
  // The correction rule

  /**
   * The offset at the same proportional position in a view whose unit is `to`, for an offset in a
   * view whose unit is `from`: the ratio offset / from scaled by `to` and truncated toward zero.
   */
  function Proportional(offset: int, from: int, to: int): int
    requires from > 0
  {
    JavaDiv(offset * to, from)
  }

  /**
   * The proportional offset is offset * to / from truncated toward zero: within one `from` below
   * (for a non-negative product) or above (for a negative one) the exact value.
   */
  lemma ProportionalTruncates(offset: int, from: int, to: int)
    requires from > 0
    ensures var p := Proportional(offset, from, to);
      && (offset * to >= 0 ==> p * from <= offset * to < p * from + from)
      && (offset * to < 0 ==> p * from - from < offset * to <= p * from)
  {
    JavaDivBounds(offset * to, from);
  }

  /** Scrolling one view by k whole units moves the other to exactly k of its own units, in either direction. */
  lemma ProportionalWholeUnits(k: int, from: int, to: int)
    requires from > 0
    ensures Proportional(k * from, from, to) == k * to
  {
    assert (k * from) * to == (k * to) * from;
    JavaDivExact(k * to, from);
  }

  /**
   * onHorizontalScroll: nothing when either view has no child; otherwise a vertical-only request
   * that brings the vertical offset to the horizontal offset's proportional position, in units of
   * h's first child width and v's first child height.
   */
  function HorizontalCorrection(offsetX: int, offsetY: int, h: Snapshot, v: Snapshot): (r: Option<ScrollBy>)
    requires h.childCount > 0 && v.childCount > 0 ==> h.firstWidth > 0
    ensures r == None <==> h.childCount == 0 || v.childCount == 0
    ensures r != None ==>
              r.value.dx == 0 && offsetY + r.value.dy == Proportional(offsetX, h.firstWidth, v.firstHeight)
  {
    if h.childCount == 0 || v.childCount == 0 then None
    else
      var position := Proportional(offsetX, h.firstWidth, v.firstHeight);
      Some(ScrollBy(0, position - offsetY))
  }

  /**
   * onVerticalScroll: the mirror image; a horizontal-only request that brings the horizontal offset
   * to the vertical offset's proportional position.
   */
  function VerticalCorrection(offsetX: int, offsetY: int, h: Snapshot, v: Snapshot): (r: Option<ScrollBy>)
    requires h.childCount > 0 && v.childCount > 0 ==> v.firstHeight > 0
    ensures r == None <==> h.childCount == 0 || v.childCount == 0
    ensures r != None ==>
              r.value.dy == 0 && offsetX + r.value.dx == Proportional(offsetY, v.firstHeight, h.firstWidth)
  {
    if h.childCount == 0 || v.childCount == 0 then None
    else
      var position := Proportional(offsetY, v.firstHeight, h.firstWidth);
      Some(ScrollBy(position - offsetX, 0))
  }

  /** Once the vertical view has absorbed a horizontal correction, the same correction asks for nothing more. */
  lemma HorizontalCorrectionSettles(offsetX: int, offsetY: int, h: Snapshot, v: Snapshot)
    requires h.childCount > 0 && v.childCount > 0 && h.firstWidth > 0
    ensures var r := HorizontalCorrection(offsetX, offsetY, h, v);
      r != None && HorizontalCorrection(offsetX, offsetY + r.value.dy, h, v) == Some(ScrollBy(0, 0))
  {
  }

  /** Once the horizontal view has absorbed a vertical correction, the same correction asks for nothing more. */
  lemma VerticalCorrectionSettles(offsetX: int, offsetY: int, h: Snapshot, v: Snapshot)
    requires h.childCount > 0 && v.childCount > 0 && v.firstHeight > 0
    ensures var r := VerticalCorrection(offsetX, offsetY, h, v);
      r != None && VerticalCorrection(offsetX + r.value.dx, offsetY, h, v) == Some(ScrollBy(0, 0))
  {
  }

  /**
   * Why the corrections are gated by the gesture's source: if the vertical view's echo of a
   * horizontal correction were corrected back, truncation would move the horizontal view. With
   * items 3 pixels wide and 2 pixels tall, a 1-pixel horizontal scroll asks the vertical view for
   * nothing, and correcting back would then pull the horizontal view back by 1 pixel.
   */
  lemma UngatedEchoDrifts()
    ensures var h, v := Snapshot(1, 3, 0), Snapshot(1, 0, 2);
      && HorizontalCorrection(1, 0, h, v) == Some(ScrollBy(0, 0))
      && VerticalCorrection(1, 0, h, v) == Some(ScrollBy(-1, 0))
  {
    var h, v := Snapshot(1, 3, 0), Snapshot(1, 0, 2);
    var forward := HorizontalCorrection(1, 0, h, v);
    assert forward.value.dy == Proportional(1, h.firstWidth, v.firstHeight);
    assert Proportional(1, 3, 2) == 0;
    var back := VerticalCorrection(1, 0, h, v);
    assert back.value.dx == Proportional(0, v.firstHeight, h.firstWidth) - 1;
    assert Proportional(0, 2, 3) == 0;
  }

  // ---------------------------------------------------------------------------------------------
  // The mediator's state

  /** EventSource: remembers which view intercepted the touch that started the current gesture. */
  class EventSource {
    var fromRv1: bool
    var fromRv2: bool

    /** Neither view is the source before any touch. */
    constructor ()
      ensures !fromRv1 && !fromRv2
    {
      fromRv1 := false;
      fromRv2 := false;
    }

    /** At most one view is the source of the current gesture. */
    predicate Exclusive()
      reads this
    {
      !(fromRv1 && fromRv2)
    }

    /** The touch listener on rv1: a touch intercepted on h makes h the only source. */
    method InterceptOnRv1()
      modifies this
      ensures fromRv1 && !fromRv2
    {
      fromRv1 := true;
      fromRv2 := false;
    }

    /** The touch listener on rv2: a touch intercepted on v makes v the only source. */
    method InterceptOnRv2()
      modifies this
      ensures fromRv2 && !fromRv1
    {
      fromRv2 := true;
      fromRv1 := false;
    }

    /** From(rv): whether the given view is the source of the current gesture. */
    function From(view: View): bool
      reads this
    {
      match view
      case Horizontal => fromRv1
      case Vertical => fromRv2
    }
  }

  /** ScrollWatcher: accumulates the scroll distances a view reports, in both axes, with their signs. */
  class ScrollWatcher {
    var offsetX: int
    var offsetY: int

    constructor ()
      ensures offsetX == 0 && offsetY == 0
    {
      offsetX := 0;
      offsetY := 0;
    }

    /** onScrolled: add the reported distances. */
    method OnScrolled(dx: int, dy: int)
      modifies this
      ensures offsetX == old(offsetX) + dx && offsetY == old(offsetY) + dy
    {
      offsetX := offsetX + dx;
      offsetY := offsetY + dy;
    }
  }

  /**
   * The mediator. Its watchers are registered on the views when it is built, before sync registers
   * the correcting listeners, so on every scroll event a view's watcher has already counted the
   * event when that view's correcting listener runs.
   */
  class SyncMediator {
    const source: EventSource
    const hWatcher: ScrollWatcher
    const vWatcher: ScrollWatcher
    /** Whether hListener and vListener are registered on the views. */
    var synced: bool

    ghost predicate Valid()
      reads this, source
    {
      hWatcher != vWatcher && source.Exclusive()
    }

    /** The constructor: fresh watchers at offset 0, no source yet, listeners not registered. */
    constructor ()
      ensures Valid() && !synced
      ensures fresh(source) && fresh(hWatcher) && fresh(vWatcher)
      ensures !source.From(Horizontal) && !source.From(Vertical)
      ensures hWatcher.offsetX == 0 && hWatcher.offsetY == 0
      ensures vWatcher.offsetX == 0 && vWatcher.offsetY == 0
    {
      hWatcher := new ScrollWatcher();
      vWatcher := new ScrollWatcher();
      source := new EventSource();
      synced := false;
    }

    /** The static sync(h, v): build a mediator and register its listeners. */
    static method Couple() returns (m: SyncMediator)
      ensures fresh(m) && fresh(m.source) && fresh(m.hWatcher) && fresh(m.vWatcher)
      ensures m.Valid() && m.synced
      ensures !m.source.From(Horizontal) && !m.source.From(Vertical)
    {
      m := new SyncMediator();
      m.Sync();
    }

    /** sync: register the correcting listeners. */
    method Sync()
      modifies this
      ensures synced
    {
      synced := true;
    }

    /** unsync: remove the correcting listeners; the watchers stay registered. */
    method Unsync()
      modifies this
      ensures !synced
    {
      synced := false;
    }

    /** A touch intercepted on the horizontal view. */
    method TouchHorizontal()
      requires Valid()
      modifies source
      ensures Valid() && source.From(Horizontal) && !source.From(Vertical)
    {
      source.InterceptOnRv1();
    }

    /** A touch intercepted on the vertical view. */
    method TouchVertical()
      requires Valid()
      modifies source
      ensures Valid() && source.From(Vertical) && !source.From(Horizontal)
    {
      source.InterceptOnRv2();
    }

    /**
     * A scroll event on the horizontal view: its watcher counts it, then, when the listeners are
     * registered and the gesture started on h, hListener asks v to follow. Only h's watcher changes.
     */
    method OnHorizontalScrolled(dx: int, dy: int, h: Snapshot, v: Snapshot) returns (request: Option<ScrollBy>)
      requires Valid()
      requires synced && source.From(Horizontal) && h.childCount > 0 && v.childCount > 0 ==> h.firstWidth > 0
      modifies hWatcher
      ensures Valid()
      ensures hWatcher.offsetX == old(hWatcher.offsetX) + dx && hWatcher.offsetY == old(hWatcher.offsetY) + dy
      ensures unchanged(source)
      ensures request != None ==> synced && source.From(Horizontal)
      ensures request == if synced && source.From(Horizontal)
                         then HorizontalCorrection(hWatcher.offsetX, vWatcher.offsetY, h, v)
                         else None
    {
      hWatcher.OnScrolled(dx, dy);
      request := None;
      if synced && source.From(Horizontal) {
        request := HorizontalCorrection(hWatcher.offsetX, vWatcher.offsetY, h, v);
      }
    }

    /**
     * A scroll event on the vertical view: its watcher counts it, then, when the listeners are
     * registered and the gesture started on v, vListener asks h to follow. Only v's watcher changes.
     */
    method OnVerticalScrolled(dx: int, dy: int, h: Snapshot, v: Snapshot) returns (request: Option<ScrollBy>)
      requires Valid()
      requires synced && source.From(Vertical) && h.childCount > 0 && v.childCount > 0 ==> v.firstHeight > 0
      modifies vWatcher
      ensures Valid()
      ensures vWatcher.offsetX == old(vWatcher.offsetX) + dx && vWatcher.offsetY == old(vWatcher.offsetY) + dy
      ensures unchanged(source)
      ensures request != None ==> synced && source.From(Vertical)
      ensures request == if synced && source.From(Vertical)
                         then VerticalCorrection(hWatcher.offsetX, vWatcher.offsetY, h, v)
                         else None
    {
      vWatcher.OnScrolled(dx, dy);
      request := None;
      if synced && source.From(Vertical) {
        request := VerticalCorrection(hWatcher.offsetX, vWatcher.offsetY, h, v);
      }
    }
  }

  /**
   * Feedback suppression over a whole exchange: during a gesture that started on h, a horizontal
   * scroll asks v to follow; v's own scroll events for that request leave v's offset at the
   * proportional position and ask h for nothing, and the source flags never change.
   */
  method HorizontalGesture(m: SyncMediator, dx: int, h: Snapshot, v: Snapshot) returns (followed: Option<ScrollBy>, echo: Option<ScrollBy>)
    requires m.Valid() && m.synced
    requires h.childCount > 0 && v.childCount > 0 && h.firstWidth > 0 && v.firstHeight > 0
    modifies m.source, m.hWatcher, m.vWatcher
    ensures m.Valid() && m.source.From(Horizontal)
    ensures followed != None && followed.value.dx == 0
    ensures echo == None
    ensures m.hWatcher.offsetX == old(m.hWatcher.offsetX) + dx
    ensures m.vWatcher.offsetY == Proportional(m.hWatcher.offsetX, h.firstWidth, v.firstHeight)
  {
    m.TouchHorizontal();
    followed := m.OnHorizontalScrolled(dx, 0, h, v);
    echo := m.OnVerticalScrolled(0, followed.value.dy, h, v);
  }
}
