/**
 * The toast notification engine of src/components/ui/Toast.tsx.
 *
 * The provider's ordered list of toasts and its three operations (publish,
 * dismiss, clear) are list transformations, written as functions. Each
 * rendered toast runs a countdown kept in four mutable refs; that countdown
 * is the class ToastItem, whose methods are the effect body, its cleanup and
 * the event handlers. The clock is a positive, non-decreasing integer passed
 * to every method; `window.setTimeout` is modelled as a table of pending
 * timeouts (handle to due time) that the class owns.
 */
module Toast {
  import opened Wrappers
  import Timers

  datatype Variant = Default | Success | Info | Warning | Error

  /** `ToastAction`: the callback itself is external; invoking it is recorded in ToastItem.calls. */
  datatype ToastAction = ToastAction(caption: string)

  /** `ToastOptions`: every field optional. */
  datatype ToastOptions = ToastOptions(
    id: Option<string>,
    title: Option<string>,
    description: Option<string>,
    variant: Option<Variant>,
    duration: Option<int>,
    action: Option<ToastAction>)

  /** `ToastInternal`: the options with the id resolved. */
  datatype ToastInternal = ToastInternal(id: string, options: ToastOptions)

  /** What `publish` leaves in the provider's state, and the id it returns. */
  datatype Published = Published(toasts: seq<ToastInternal>, id: string)

  const DefaultDuration: int := 5000

  /** The id `publish` uses: the caller's, or a freshly generated one. */
  function ResolveId(options: ToastOptions, generated: string): (id: string)
    ensures options.id.Some? ==> id == options.id.value
    ensures options.id.None? ==> id == generated
  {
    GetOr(options.id, generated)
  }

  /**
   * `publish`: append one entry carrying the resolved id and return that id.
   * An id already in the list is not replaced or rejected; `generated` stands
   * for the value of `generateId()`.
   */
  function Publish(toasts: seq<ToastInternal>, options: ToastOptions, generated: string): (r: Published)
    ensures r.id == ResolveId(options, generated)
    ensures |r.toasts| == |toasts| + 1
    ensures r.toasts[..|toasts|] == toasts
    ensures r.toasts[|toasts|] == ToastInternal(r.id, options)
  {
    var id := ResolveId(options, generated);
    Published(toasts + [ToastInternal(id, options)], id)
  }

  /** `dismiss`: keep, in order, exactly the entries whose id differs from `id`. */
  function Dismiss(toasts: seq<ToastInternal>, id: string): (r: seq<ToastInternal>)
    ensures |r| <= |toasts|
    ensures forall i :: 0 <= i < |r| ==> r[i].id != id
  {
    if toasts == [] then []
    else (if toasts[0].id != id then [toasts[0]] else []) + Dismiss(toasts[1..], id)
  }

  /** An entry survives `dismiss` exactly when it was in the list with a different id. */
  lemma {:induction false} DismissKeeps(toasts: seq<ToastInternal>, id: string)
    ensures forall t :: t in Dismiss(toasts, id) <==> t in toasts && t.id != id
  {
    if toasts != [] {
      DismissKeeps(toasts[1..], id);
      assert forall t :: t in toasts <==> t == toasts[0] || t in toasts[1..];
    }
  }

  /** `clear`: the empty list. */
  function Clear(): (r: seq<ToastInternal>)
    ensures |r| == 0
  {
    []
  }

  /** The number of entries carrying `id`. */
  function CountId(toasts: seq<ToastInternal>, id: string): nat
  {
    if toasts == [] then 0 else (if toasts[0].id == id then 1 else 0) + CountId(toasts[1..], id)
  }

  lemma {:induction false} CountIdAppend(a: seq<ToastInternal>, b: seq<ToastInternal>, id: string)
    ensures CountId(a + b, id) == CountId(a, id) + CountId(b, id)
  {
    if a == [] {
      assert a + b == b;
    } else {
      assert (a + b)[1..] == a[1..] + b;
      CountIdAppend(a[1..], b, id);
    }
  }

  /** Publishing with an id that is already live adds a second entry with that id. */
  lemma {:induction false} PublishKeepsDuplicates(toasts: seq<ToastInternal>, options: ToastOptions, generated: string)
    ensures CountId(Publish(toasts, options, generated).toasts, Publish(toasts, options, generated).id)
         == CountId(toasts, Publish(toasts, options, generated).id) + 1
  {
    var p := Publish(toasts, options, generated);
    CountIdAppend(toasts, [ToastInternal(p.id, options)], p.id);
    assert [ToastInternal(p.id, options)][1..] == [];
  }

  /** Dismissal distributes over concatenation, so it never reorders what it keeps. */
  lemma {:induction false} DismissAppend(a: seq<ToastInternal>, b: seq<ToastInternal>, id: string)
    ensures Dismiss(a + b, id) == Dismiss(a, id) + Dismiss(b, id)
  {
    if a == [] {
      assert a + b == b;
    } else {
      assert (a + b)[0] == a[0] && (a + b)[1..] == a[1..] + b;
      DismissAppend(a[1..], b, id);
    }
  }

  /** Dismissing an id no entry carries leaves the list unchanged. */
  lemma {:induction false} DismissUnknown(toasts: seq<ToastInternal>, id: string)
    requires forall t | t in toasts :: t.id != id
    ensures Dismiss(toasts, id) == toasts
  {
    if toasts != [] {
      assert toasts[0] in toasts;
      DismissUnknown(toasts[1..], id);
    }
  }

  /** Dismissing twice is dismissing once. */
  lemma {:induction false} DismissIdempotent(toasts: seq<ToastInternal>, id: string)
    ensures Dismiss(Dismiss(toasts, id), id) == Dismiss(toasts, id)
  {
    DismissKeeps(toasts, id);
    DismissUnknown(Dismiss(toasts, id), id);
  }

  /** Dismissing the id `publish` returned removes the new entry, together with every older entry carrying that id. */
  lemma {:induction false} PublishThenDismiss(toasts: seq<ToastInternal>, options: ToastOptions, generated: string)
    ensures Dismiss(Publish(toasts, options, generated).toasts, Publish(toasts, options, generated).id)
         == Dismiss(toasts, Publish(toasts, options, generated).id)
  {
    var p := Publish(toasts, options, generated);
    DismissAppend(toasts, [ToastInternal(p.id, options)], p.id);
    assert [ToastInternal(p.id, options)][1..] == [];
  }

  /** Publishing A, B, C, dismissing B, then publishing D gives A, C, D. */
  lemma {:induction false} InsertionOrderExample(a: ToastOptions, b: ToastOptions, c: ToastOptions, d: ToastOptions,
                              ga: string, gb: string, gc: string, gd: string)
    requires ResolveId(b, gb) != ResolveId(a, ga) && ResolveId(b, gb) != ResolveId(c, gc)
    ensures var s1 := Publish(Clear(), a, ga);
            var s2 := Publish(s1.toasts, b, gb);
            var s3 := Publish(s2.toasts, c, gc);
            var s4 := Dismiss(s3.toasts, s2.id);
            Publish(s4, d, gd).toasts
              == [ToastInternal(s1.id, a), ToastInternal(s3.id, c), ToastInternal(ResolveId(d, gd), d)]
  {
    var s1 := Publish(Clear(), a, ga);
    var s2 := Publish(s1.toasts, b, gb);
    var s3 := Publish(s2.toasts, c, gc);
    var ta, tb, tc := ToastInternal(s1.id, a), ToastInternal(s2.id, b), ToastInternal(s3.id, c);
    assert s1.toasts == [ta];
    assert s2.toasts == [ta, tb];
    assert s3.toasts == [ta, tb, tc];
    DismissMiddle(ta, tb, tc);
  }

  lemma {:induction false} DismissMiddle(ta: ToastInternal, tb: ToastInternal, tc: ToastInternal)
    requires tb.id != ta.id && tb.id != tc.id
    ensures Dismiss([ta, tb, tc], tb.id) == [ta, tc]
  {
    assert [ta, tb, tc][1..] == [tb, tc] && [tb, tc][1..] == [tc];
    assert Dismiss([tc], tb.id) == [tc] by {
      DismissSingleton(tc, tb.id);
    }
    assert Dismiss([tb, tc], tb.id) == Dismiss([tc], tb.id);
    assert Dismiss([ta, tb, tc], tb.id) == [ta] + Dismiss([tb, tc], tb.id);
  }

  lemma {:induction false} DismissSingleton(t: ToastInternal, id: string)
    ensures Dismiss([t], id) == if t.id != id then [t] else []
  {
    assert [t][1..] == [];
  }

  /** The variant a toast is rendered with: `'default'` when none is given. */
  function ResolveVariant(options: ToastOptions): (v: Variant)
    ensures options.variant.Some? ==> v == options.variant.value
    ensures options.variant.None? ==> v == Default
  {
    GetOr(options.variant, Default)
  }

  /** The duration a toast counts down from: 5000 ms when none is given. */
  function ResolveDuration(options: ToastOptions): (d: int)
    ensures options.duration.Some? ==> d == options.duration.value
    ensures options.duration.None? ==> d == 5000
  {
    GetOr(options.duration, DefaultDuration)
  }

  /** The ARIA role of a toast: an alert for errors, a status otherwise. */
  function Role(v: Variant): (r: string)
    ensures r == "alert" <==> v == Error
    ensures r != "alert" ==> r == "status"
  {
    if v == Error then "alert" else "status"
  }

  /** The `aria-live` politeness of a toast: assertive for an alert, polite for a status. */
  function AriaLive(v: Variant): (r: string)
    ensures r == "assertive" <==> v == Error
    ensures r != "assertive" ==> r == "polite"
  {
    if Role(v) == "alert" then "assertive" else "polite"
  }

  /** The role and the politeness always agree: an alert is announced assertively. */
  lemma {:induction false} RoleMatchesAriaLive(v: Variant)
    ensures Role(v) == "alert" <==> AriaLive(v) == "assertive"
  {
  }

  /** The callbacks a toast invokes, in order: `onDismiss` and `action.onClick`. */
  datatype Call = RequestedDismiss | RanAction

  /**
   * One rendered toast (`ToastItem`) with the refs its effect mutates.
   * `scheduled` holds this toast's timeouts that the window has not yet run,
   * by handle; `timerRef` is the handle last stored in `timerRef.current`,
   * which may name a timeout that has already run or been cancelled.
   */
  class ToastItem {
    const variant: Variant
    const duration: int
    const action: Option<ToastAction>
    var paused: bool
    var remaining: int
    var startTime: Option<int>
    var timerRef: Option<nat>
    var listening: bool
    var scheduled: map<nat, int>
    var nextHandle: nat
    var calls: seq<Call>
    /** The latest clock reading seen. */
    ghost var clock: int
    /** Total length of the finished intervals during which the countdown timeout was pending. */
    ghost var ran: int

    /** Well-formedness: handles are positive and fresh handles are above every used one; the clock is positive. */
    ghost predicate Valid()
      reads this
    {
      && 0 < clock
      && 1 <= nextHandle
      && (forall h | h in scheduled :: 1 <= h < nextHandle)
      && (timerRef.Some? ==> 1 <= timerRef.value < nextHandle)
      && (startTime.Some? ==> 0 < startTime.value <= clock)
      && (listening ==> 0 < duration)
      && (duration <= 0 ==> scheduled == map[])
    }

    /** The timeout named by `timerRef` is still pending: the countdown is running. */
    predicate Armed()
      reads this
    {
      timerRef.Some? && timerRef.value in scheduled
    }

    /** The countdown's running time up to time `t`: finished intervals plus the current one. */
    ghost function RunningTimeAt(t: int): int
      reads this
    {
      ran + (if Armed() && startTime.Some? then t - startTime.value else 0)
    }

    /**
     * The countdown invariant under alternating pointer-enter/pointer-leave:
     * running time so far plus `remaining` is `duration`; at most one timeout is
     * pending, it is the one `timerRef` names, and it is due exactly `remaining`
     * after the current run started; the countdown runs whenever the pointer is
     * away and time is left. The duration fits a `long`, so no delay wraps.
     */
    ghost predicate Consistent()
      reads this
    {
      && Valid()
      && listening
      && duration <= Timers.MaxDelay
      && 0 <= ran && ran + remaining == duration
      && (timerRef.Some? ==> timerRef.value in scheduled)
      && (Armed() ==> && !paused && startTime.Some? && 0 < remaining
                      && scheduled == map[timerRef.value := startTime.value + remaining])
      && (!Armed() ==> scheduled == map[])
      && (!paused && 0 < remaining ==> Armed())
    }

    /**
     * A countdown that can no longer fire: listening, nothing pending, and no
     * time left. Reached when a pause lands at or after the due time; only an
     * explicit dismissal removes such a toast.
     */
    ghost predicate Stuck()
      reads this
    {
      Valid() && listening && scheduled == map[] && remaining <= 0
    }

    /** A toast whose effect installed nothing (`duration <= 0`, or unmounted): no timeout will ever run. */
    ghost predicate Inert()
      reads this
    {
      Valid() && !listening && scheduled == map[]
    }

    /** Mounting a toast: the refs start at their initial values, then the effect runs. */
    constructor Mount(toast: ToastInternal, now: int)
      requires 0 < now
      ensures Valid()
      ensures variant == ResolveVariant(toast.options) && duration == ResolveDuration(toast.options)
      ensures action == toast.options.action
      ensures !paused && remaining == duration && calls == [] && ran == 0 && clock == now
      ensures duration <= 0 ==> Inert() && timerRef.None? && startTime.None?
      ensures duration > 0 ==> startTime == Some(now) && Armed() && listening
                               && scheduled == map[timerRef.value := Timers.Due(now, duration)]
      ensures 0 < duration <= Timers.MaxDelay ==> Consistent() && scheduled[timerRef.value] == now + duration
    {
      variant := ResolveVariant(toast.options);
      duration := ResolveDuration(toast.options);
      action := toast.options.action;
      paused := false;
      remaining := ResolveDuration(toast.options);
      startTime := None;
      timerRef := None;
      listening := false;
      scheduled := map[];
      nextHandle := 1;
      calls := [];
      clock := now;
      ran := 0;
      new;
      RunEffect(now);
    }

    /** `startTimer`: record the start time and arm a timeout for `remaining`. */
    method StartTimer(now: int)
      requires Valid() && clock <= now && 0 < duration
      modifies this
      ensures Valid() && clock == now
      ensures startTime == Some(now) && timerRef == Some(old(nextHandle)) && nextHandle == old(nextHandle) + 1
      ensures scheduled == old(scheduled)[old(nextHandle) := Timers.Due(now, remaining)]
      ensures old(nextHandle) !in old(scheduled)
      ensures paused == old(paused) && remaining == old(remaining) && listening == old(listening)
      ensures calls == old(calls) && ran == old(ran)
    {
      clock := now;
      startTime := Some(now);
      var h := nextHandle;
      nextHandle := nextHandle + 1;
      scheduled := scheduled[h := Timers.Due(now, remaining)];
      timerRef := Some(h);
    }

    /**
     * `pauseTimer`: cancel the timeout `timerRef` names and subtract the time
     * since `startTime`. Neither clamps `remaining` nor resets `startTime`.
     */
    method PauseTimer(now: int)
      requires Valid() && clock <= now
      modifies this
      ensures Valid() && clock == now
      ensures timerRef.None? && startTime == old(startTime) && nextHandle == old(nextHandle)
      ensures scheduled == if old(timerRef).Some? then old(scheduled) - {old(timerRef).value} else old(scheduled)
      ensures remaining == if old(startTime).Some? then old(remaining) - (now - old(startTime).value) else old(remaining)
      ensures paused == old(paused) && listening == old(listening) && calls == old(calls)
      ensures ran == old(RunningTimeAt(now))
    {
      ghost var was := RunningTimeAt(now);
      clock := now;
      if timerRef.Some? {
        ran := was;
        scheduled := scheduled - {timerRef.value};
        timerRef := None;
      }
      if startTime.Some? {
        remaining := remaining - (now - startTime.value);
      }
    }

    /** `resumeTimer`: restart the countdown unless no time is left or the pointer is over the toast. */
    method ResumeTimer(now: int)
      requires Valid() && clock <= now && 0 < duration
      modifies this
      ensures Valid() && clock == now
      ensures paused == old(paused) && remaining == old(remaining) && listening == old(listening)
      ensures calls == old(calls) && ran == old(ran)
      ensures 0 < remaining && !paused ==>
                startTime == Some(now) && timerRef == Some(old(nextHandle)) && nextHandle == old(nextHandle) + 1
                && scheduled == old(scheduled)[old(nextHandle) := Timers.Due(now, remaining)] && old(nextHandle) !in old(scheduled)
      ensures !(0 < remaining && !paused) ==>
                startTime == old(startTime) && timerRef == old(timerRef) && nextHandle == old(nextHandle)
                && scheduled == old(scheduled)
    {
      if 0 < remaining && !paused {
        StartTimer(now);
      } else {
        clock := now;
      }
    }

    /** The effect body: nothing when `duration <= 0`; otherwise start the countdown and install the listeners. */
    method RunEffect(now: int)
      requires Valid() && clock <= now
      modifies this
      ensures Valid() && clock == now
      ensures paused == old(paused) && remaining == old(remaining) && calls == old(calls) && ran == old(ran)
      ensures duration <= 0 ==>
                listening == old(listening) && scheduled == old(scheduled) && timerRef == old(timerRef)
                && startTime == old(startTime) && nextHandle == old(nextHandle)
      ensures 0 < duration ==>
                listening && startTime == Some(now) && timerRef == Some(old(nextHandle))
                && nextHandle == old(nextHandle) + 1 && old(nextHandle) !in old(scheduled)
                && scheduled == old(scheduled)[old(nextHandle) := Timers.Due(now, remaining)]
    {
      if duration <= 0 {
        clock := now;
        return;
      }
      StartTimer(now);
      listening := true;
    }

    /** `handlePointerEnter`: mark the toast as hovered and pause the countdown. */
    method PointerEnter(now: int)
      requires Valid() && clock <= now
      modifies this
      ensures Valid() && clock == now && calls == old(calls) && listening == old(listening)
      ensures old(listening) ==>
                paused && timerRef.None? && startTime == old(startTime) && nextHandle == old(nextHandle)
                && scheduled == (if old(timerRef).Some? then old(scheduled) - {old(timerRef).value} else old(scheduled))
                && remaining == (if old(startTime).Some? then old(remaining) - (now - old(startTime).value) else old(remaining))
      ensures !old(listening) ==>
                paused == old(paused) && remaining == old(remaining) && startTime == old(startTime)
                && timerRef == old(timerRef) && scheduled == old(scheduled) && nextHandle == old(nextHandle)
      ensures old(Consistent() && Armed()) ==> Consistent() && scheduled == map[] && ran == old(RunningTimeAt(now))
      ensures old(Stuck()) ==> Stuck()
      ensures old(Inert()) ==> Inert()
    {
      if listening {
        paused := true;
        PauseTimer(now);
      } else {
        clock := now;
      }
    }

    /** `handlePointerLeave`: clear the hover mark and resume for the remaining time only. */
    method PointerLeave(now: int)
      requires Valid() && clock <= now
      modifies this
      ensures Valid() && clock == now && calls == old(calls) && listening == old(listening)
      ensures remaining == old(remaining) && ran == old(ran)
      ensures old(listening) && 0 < remaining ==>
                !paused && startTime == Some(now) && timerRef == Some(old(nextHandle))
                && nextHandle == old(nextHandle) + 1 && old(nextHandle) !in old(scheduled)
                && scheduled == old(scheduled)[old(nextHandle) := Timers.Due(now, remaining)]
      ensures !(old(listening) && 0 < remaining) ==>
                startTime == old(startTime) && timerRef == old(timerRef)
                && scheduled == old(scheduled) && nextHandle == old(nextHandle)
      ensures old(listening) ==> !paused
      ensures !old(listening) ==> paused == old(paused)
      ensures old(Consistent() && paused) ==> Consistent()
      ensures old(Stuck()) ==> Stuck()
      ensures old(Inert()) ==> Inert()
    {
      if listening {
        paused := false;
        ResumeTimer(now);
      } else {
        clock := now;
      }
    }

    /**
     * The window runs pending timeout `h`, due at or before `now`: the toast
     * asks to be dismissed. A consistent countdown has run exactly `duration`
     * by the due time.
     */
    method Fire(h: nat, now: int)
      requires Valid() && clock <= now
      requires h in scheduled && scheduled[h] <= now
      modifies this
      ensures Valid() && clock == now
      ensures scheduled == old(scheduled) - {h} && calls == old(calls) + [RequestedDismiss]
      ensures paused == old(paused) && remaining == old(remaining) && startTime == old(startTime)
      ensures timerRef == old(timerRef) && listening == old(listening) && nextHandle == old(nextHandle)
      ensures old(Consistent()) ==> old(timerRef) == Some(h) && old(RunningTimeAt(scheduled[h])) == duration
    {
      clock := now;
      scheduled := scheduled - {h};
      calls := calls + [RequestedDismiss];
    }

    /** The close button: ask to be dismissed. */
    method Close()
      requires Valid()
      modifies this`calls
      ensures calls == old(calls) + [RequestedDismiss]
    {
      calls := calls + [RequestedDismiss];
    }

    /**
     * The action button, present only when the toast has an action: run
     * `action.onClick`, then ask to be dismissed. When the callback throws
     * (`completed` false) the dismissal is not reached.
     */
    method ActionClick(completed: bool)
      requires Valid()
      modifies this`calls
      ensures action.None? ==> calls == old(calls)
      ensures action.Some? && completed ==> calls == old(calls) + [RanAction, RequestedDismiss]
      ensures action.Some? && !completed ==> calls == old(calls) + [RanAction]
    {
      if action.Some? {
        calls := calls + [RanAction];
        if completed {
          calls := calls + [RequestedDismiss];
        }
      }
    }

    /**
     * The effect's cleanup, run on unmount: remove the listeners (installed
     * only when the effect got past `duration <= 0`) and cancel the timeout
     * `timerRef` names. The ref itself is not reset.
     */
    method Unmount(now: int)
      requires Valid() && clock <= now
      modifies this
      ensures Valid() && clock == now
      ensures !listening && timerRef == old(timerRef) && startTime == old(startTime)
      ensures scheduled == if old(listening) && old(timerRef).Some? then old(scheduled) - {old(timerRef).value} else old(scheduled)
      ensures paused == old(paused) && remaining == old(remaining) && calls == old(calls) && nextHandle == old(nextHandle)
      ensures old(listening) ==> ran == old(RunningTimeAt(now))
      ensures old(Consistent() || Stuck() || Inert()) ==> Inert()
    {
      ghost var was := RunningTimeAt(now);
      clock := now;
      if listening {
        listening := false;
        if timerRef.Some? {
          ran := was;
          scheduled := scheduled - {timerRef.value};
        }
      }
    }

    /**
     * The effect re-run React performs when `onDismiss` changes identity
     * (every render of the viewport, i.e. every change of the toast list):
     * the cleanup, then the effect body again. As written this restarts the
     * countdown from the stale `remaining`, so the time already run is
     * counted twice, and it arms a timeout even while the pointer is over the
     * toast.
     */
    method RerunEffect(now: int)
      requires Valid() && clock <= now
      modifies this
      ensures Valid() && clock == now
      ensures paused == old(paused) && remaining == old(remaining) && calls == old(calls)
      ensures 0 < duration ==>
                listening && Armed() && startTime == Some(now)
                && timerRef == Some(old(nextHandle)) && nextHandle == old(nextHandle) + 1
                && scheduled == (if old(listening) && old(timerRef).Some? then old(scheduled) - {old(timerRef).value}
                                 else old(scheduled))[old(nextHandle) := Timers.Due(now, remaining)]
      ensures duration <= 0 ==> Inert() && timerRef == old(timerRef) && startTime == old(startTime)
      ensures old(Consistent() && Armed()) && old(startTime).value < now ==>
                RunningTimeAt(scheduled[timerRef.value]) > duration
      ensures old(Consistent() && paused) ==> paused && Armed()
    {
      Unmount(now);
      RunEffect(now);
    }

    /**
     * The re-run with the intended behaviour: the cleanup first credits the
     * time the countdown has run (as `pauseTimer` does, but only when a
     * timeout was pending), and the effect body arms a timeout only under the
     * conditions `resumeTimer` checks.
     */
    method RerunEffectCorrected(now: int)
      requires Valid() && clock <= now
      modifies this
      ensures Valid() && clock == now
      ensures paused == old(paused) && calls == old(calls)
      ensures old(Consistent()) ==> Consistent() && RunningTimeAt(now) == old(RunningTimeAt(now))
      ensures old(Stuck()) ==> Stuck()
    {
      CorrectedCleanup(now);
      if duration <= 0 {
        return;
      }
      ResumeTimer(now);
      listening := true;
    }

    /**
     * The cleanup of the corrected re-run: remove the listeners and, when a
     * timeout is pending, credit the time run since `startTime` before
     * cancelling it.
     */
    method CorrectedCleanup(now: int)
      requires Valid() && clock <= now
      modifies this
      ensures Valid() && clock == now && !listening
      ensures paused == old(paused) && calls == old(calls) && nextHandle == old(nextHandle)
      ensures old(Consistent()) ==>
                && timerRef.None? && scheduled == map[]
                && ran == old(RunningTimeAt(now)) && ran + remaining == duration
      ensures old(Stuck()) ==> scheduled == map[] && remaining == old(remaining)
    {
      ghost var was := RunningTimeAt(now);
      clock := now;
      if listening {
        listening := false;
        if timerRef.Some? {
          if timerRef.value in scheduled && startTime.Some? {
            remaining := remaining - (now - startTime.value);
          }
          ran := was;
          scheduled := scheduled - {timerRef.value};
          timerRef := None;
        }
      }
    }
  }

  /** The options of a toast that only sets its duration. */
  function WithDuration(d: int): (o: ToastOptions)
    ensures ResolveDuration(o) == d && o.action.None?
  {
    ToastOptions(None, None, None, None, Some(d), None)
  }

  /**
   * A 1000 ms toast mounted at time 1, hovered at 301 and left at 5001: the
   * pause freezes the 700 ms still to run, so the one pending timeout is due
   * at 5701, however long the hover lasted.
   */
  method HoverExample() returns (pending: nat, due: int)
    ensures pending == 1 && due == 5701
  {
    var item := new ToastItem.Mount(ToastInternal("saved", WithDuration(1000)), 1);
    item.PointerEnter(301);
    assert item.remaining == 700;
    item.PointerLeave(5001);
    var h := item.timerRef.value;
    assert item.scheduled == map[h := 5701];
    pending := |item.scheduled.Keys|;
    due := item.scheduled[h];
  }

  /**
   * A 1000 ms toast mounted at time 1 and hovered at 1001, its due time, before
   * the window ran the timeout: the pause cancels it with nothing left to run,
   * so after the pointer-leave no timeout is pending and the toast is `Stuck`.
   */
  method StuckExample() returns (pending: nat, left: int)
    ensures pending == 0 && left == 0
  {
    var item := new ToastItem.Mount(ToastInternal("saved", WithDuration(1000)), 1);
    item.PointerEnter(1001);
    item.PointerLeave(2001);
    assert item.Stuck();
    pending := |item.scheduled.Keys|;
    left := item.remaining;
  }

  /**
   * A toast given a duration of 2^31 ms (about 24.9 days) mounted at time 1:
   * the delay wraps to a negative `long`, so its timeout is due at once.
   */
  method LongDurationExample() returns (pending: nat, due: int)
    ensures pending == 1 && due == 1
  {
    var item := new ToastItem.Mount(ToastInternal("saved", WithDuration(Timers.MaxDelay + 1)), 1);
    Timers.DueWraps(1);
    var h := item.timerRef.value;
    pending := |item.scheduled.Keys|;
    due := item.scheduled[h];
  }

  /**
   * The effect re-run while the pointer is over a toast (another toast was
   * published at 201) arms a timeout under the pointer; the pointer-leave at
   * 301 then arms a second one without cancelling the first. The first is due
   * at 5101, 100 ms before the 5201 that crediting the hover would give.
   */
  method RerunWhileHoveredExample() returns (pending: nat, firstDue: int)
    ensures pending == 2 && firstDue == 5101
  {
    var item := new ToastItem.Mount(ToastInternal("saved", WithDuration(5000)), 1);
    item.PointerEnter(101);
    item.RerunEffect(201);
    var h1 := item.timerRef.value;
    item.PointerLeave(301);
    var h2 := item.timerRef.value;
    assert h1 != h2 && item.scheduled == map[h1 := 5101, h2 := 5201];
    pending := |item.scheduled.Keys|;
    firstDue := item.scheduled[h1];
  }

  /**
   * The same sequence with the corrected re-run: nothing is armed under the
   * pointer, and after the pointer-leave exactly one timeout is pending, due
   * at 5201, when the 5000 ms have run.
   */
  method RerunWhileHoveredCorrectedExample() returns (pending: nat, due: int)
    ensures pending == 1 && due == 5201
  {
    var item := new ToastItem.Mount(ToastInternal("saved", WithDuration(5000)), 1);
    item.PointerEnter(101);
    item.RerunEffectCorrected(201);
    assert item.scheduled == map[];
    item.PointerLeave(301);
    var h := item.timerRef.value;
    assert item.scheduled == map[h := 5201];
    pending := |item.scheduled.Keys|;
    due := item.scheduled[h];
  }
}
