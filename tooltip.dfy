/**
 * The timer discipline of src/components/ui/Tooltip.tsx.
 *
 * A tooltip opens after `delay` ms and closes 50 ms after it is asked to
 * hide. The two refs `openTimeoutRef` and `closeTimeoutRef` hold browser
 * timeout handles; `window.setTimeout` is a table of pending timeouts (handle
 * to due time and to the value the callback gives `isOpen`), and the clock
 * is a parameter. Handles start at 1, as the browser's do, so a held handle
 * is always truthy.
 */
module Tooltip {
  import opened Wrappers
  import Timers

  const DefaultDelay: int := 100
  const CloseDelay: int := 50

  /** A pending timeout: when it is due and what its callback passes to `setIsOpen`. */
  datatype Timeout = Timeout(due: int, opens: bool)

  class TooltipState {
    /** The `delay` prop, with its default applied. */
    const delay: int
    var isOpen: bool
    var openTimeoutRef: Option<nat>
    var closeTimeoutRef: Option<nat>
    var scheduled: map<nat, Timeout>
    var nextHandle: nat

    /** The open timer is armed and has not run. */
    predicate OpenPending()
      reads this
    {
      openTimeoutRef.Some? && openTimeoutRef.value in scheduled
    }

    /** The close timer is armed and has not run. */
    predicate ClosePending()
      reads this
    {
      closeTimeoutRef.Some? && closeTimeoutRef.value in scheduled
    }

    /**
     * Every pending timeout is the one a ref holds, the open ref's opens and
     * the close ref's closes, and the two are never pending together.
     */
    ghost predicate Valid()
      reads this
    {
      && 0 < nextHandle
      && (forall h | h in scheduled :: 0 < h < nextHandle)
      && (openTimeoutRef.Some? ==> 0 < openTimeoutRef.value < nextHandle)
      && (closeTimeoutRef.Some? ==> 0 < closeTimeoutRef.value < nextHandle)
      && (forall h | h in scheduled ::
            (openTimeoutRef == Some(h) && scheduled[h].opens) || (closeTimeoutRef == Some(h) && !scheduled[h].opens))
      && !(OpenPending() && ClosePending())
    }

    /** Mounting with the `delay` prop (None when it is not given). */
    constructor (delayProp: Option<int>)
      ensures Valid() && delay == GetOr(delayProp, DefaultDelay)
      ensures !isOpen && openTimeoutRef.None? && closeTimeoutRef.None? && scheduled == map[]
    {
      delay := GetOr(delayProp, DefaultDelay);
      isOpen := false;
      openTimeoutRef, closeTimeoutRef := None, None;
      scheduled := map[];
      nextHandle := 1;
    }

    /** At most one timeout is ever pending. */
    lemma {:induction false} AtMostOnePending()
      requires Valid()
      ensures |scheduled| <= 1
      ensures scheduled != map[] ==> OpenPending() || ClosePending()
    {
      if scheduled != map[] {
        var h :| h in scheduled;
        assert scheduled.Keys == {h} by {
          forall k | k in scheduled ensures k == h {
          }
        }
      }
    }

    /** `aria-describedby` of the trigger: the tooltip's id exactly while it is open. */
    function AriaDescribedBy(tooltipId: string): (r: Option<string>)
      reads this
      ensures r.Some? <==> isOpen
      ensures r.Some? ==> r.value == tooltipId
    {
      if isOpen then Some(tooltipId) else None
    }

    /** `clearTimers`: clear each held timeout and empty its ref. */
    method ClearTimers()
      requires Valid()
      modifies this
      ensures Valid()
      ensures openTimeoutRef.None? && closeTimeoutRef.None? && scheduled == map[]
      ensures isOpen == old(isOpen) && nextHandle == old(nextHandle)
    {
      if openTimeoutRef.Some? {
        scheduled := scheduled - {openTimeoutRef.value};
        openTimeoutRef := None;
      }
      if closeTimeoutRef.Some? {
        scheduled := scheduled - {closeTimeoutRef.value};
        closeTimeoutRef := None;
      }
    }

    /** `showTooltip`: clear both timers and arm the open timer for `delay` ms. */
    method Show(now: int)
      requires Valid()
      modifies this
      ensures Valid() && OpenPending() && !ClosePending()
      ensures openTimeoutRef == Some(old(nextHandle)) && closeTimeoutRef.None?
      ensures scheduled == map[old(nextHandle) := Timeout(Timers.Due(now, delay), true)]
      ensures isOpen == old(isOpen) && nextHandle == old(nextHandle) + 1
    {
      ClearTimers();
      openTimeoutRef := Some(nextHandle);
      scheduled := scheduled[nextHandle := Timeout(Timers.Due(now, delay), true)];
      nextHandle := nextHandle + 1;
    }

    /** `hideTooltip`: clear both timers and arm the close timer for 50 ms. */
    method Hide(now: int)
      requires Valid()
      modifies this
      ensures Valid() && ClosePending() && !OpenPending()
      ensures closeTimeoutRef == Some(old(nextHandle)) && openTimeoutRef.None?
      ensures scheduled == map[old(nextHandle) := Timeout(Timers.Due(now, CloseDelay), false)]
      ensures isOpen == old(isOpen) && nextHandle == old(nextHandle) + 1
    {
      ClearTimers();
      closeTimeoutRef := Some(nextHandle);
      scheduled := scheduled[nextHandle := Timeout(Timers.Due(now, CloseDelay), false)];
      nextHandle := nextHandle + 1;
    }

    /**
     * The pending timeout `h` runs at `now`: the open timer's callback opens
     * the tooltip and the close timer's closes it. The ref keeps the spent
     * handle, as the source never empties it here.
     */
    method Fire(h: nat, now: int)
      requires Valid() && h in scheduled && scheduled[h].due <= now
      modifies this
      ensures Valid() && scheduled == map[]
      ensures isOpen == old(scheduled[h].opens)
      ensures old(openTimeoutRef) == Some(h) ==> isOpen
      ensures old(closeTimeoutRef) == Some(h) ==> !isOpen
      ensures openTimeoutRef == old(openTimeoutRef) && closeTimeoutRef == old(closeTimeoutRef)
    {
      AtMostOnePending();
      isOpen := scheduled[h].opens;
      scheduled := scheduled - {h};
      assert scheduled.Keys == old(scheduled).Keys - {h};
      assert old(scheduled).Keys == {h} by {
        assert h in old(scheduled).Keys;
      }
    }

    /** The trigger's `onKeyDown`: Escape hides; other keys only reach the child's handler. */
    method KeyDown(key: string, now: int)
      requires Valid()
      modifies this
      ensures Valid() && isOpen == old(isOpen)
      ensures key == "Escape" ==>
                ClosePending() && !OpenPending()
                && closeTimeoutRef == Some(old(nextHandle)) && openTimeoutRef.None? && nextHandle == old(nextHandle) + 1
                && scheduled == map[old(nextHandle) := Timeout(Timers.Due(now, CloseDelay), false)]
      ensures key != "Escape" ==> unchanged(this)
    {
      if key == "Escape" {
        Hide(now);
      }
    }

    /**
     * The document `pointerdown` listener, installed only while the tooltip
     * is open: a press outside the attached trigger hides it.
     */
    method PointerDown(triggerAttached: bool, insideTrigger: bool, now: int)
      requires Valid()
      modifies this
      ensures Valid() && isOpen == old(isOpen)
      ensures old(isOpen) && triggerAttached && !insideTrigger ==>
                ClosePending() && !OpenPending()
                && closeTimeoutRef == Some(old(nextHandle)) && openTimeoutRef.None? && nextHandle == old(nextHandle) + 1
                && scheduled == map[old(nextHandle) := Timeout(Timers.Due(now, CloseDelay), false)]
      ensures !(old(isOpen) && triggerAttached && !insideTrigger) ==> unchanged(this)
    {
      if !isOpen {
        return;
      }
      if !triggerAttached || insideTrigger {
        return;
      }
      Hide(now);
    }

    /** The unmount cleanup: `clearTimers`, so no callback runs afterwards. */
    method Unmount()
      requires Valid()
      modifies this
      ensures Valid() && scheduled == map[]
    {
      ClearTimers();
    }
  }

  /**
   * Hovering a default tooltip at `t`: the open timer is due at `t + 100`
   * and opens it; leaving then arms the close timer, which closes it 50 ms
   * later.
   */
  method HoverExample(t: int) returns (openDue: int, openedAfterDelay: bool, closeDue: int, closedAfterHide: bool)
    ensures openDue == t + 100 && openedAfterDelay
    ensures closeDue == t + 250 && !closedAfterHide
  {
    var tip := new TooltipState(None);
    tip.Show(t);
    var h := tip.openTimeoutRef.value;
    openDue := tip.scheduled[h].due;
    tip.Fire(h, t + 100);
    openedAfterDelay := tip.isOpen;
    tip.Hide(t + 200);
    var k := tip.closeTimeoutRef.value;
    closeDue := tip.scheduled[k].due;
    tip.Fire(k, t + 250);
    closedAfterHide := tip.isOpen;
  }

  /**
   * Passing over the trigger faster than the delay: leaving cancels the open
   * timer, so the tooltip never opens.
   */
  method QuickPassExample(t: int) returns (openPending: bool, isOpen: bool)
    ensures !openPending && !isOpen
  {
    var tip := new TooltipState(None);
    tip.Show(t);
    tip.Hide(t + 40);
    var k := tip.closeTimeoutRef.value;
    tip.Fire(k, t + 90);
    openPending, isOpen := tip.OpenPending(), tip.isOpen;
  }
}
