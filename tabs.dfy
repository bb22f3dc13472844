/**
 * The tab logic of src/components/ui/Tabs.tsx: the id sanitiser, the ids a
 * trigger and its panel derive from a tab value, the keyboard navigation of
 * a trigger, and the controlled/uncontrolled active value of `Tabs`.
 *
 * JavaScript strings are UTF-16: the sanitising regular expression has no
 * `u` flag, so it replaces each code unit, and a character outside the Basic
 * Multilingual Plane becomes two dashes.
 */
module Tabs {
  import opened Wrappers
  import Strings

  /** The characters `sanitizeValue` keeps: `[A-Za-z0-9_-]`. */
  predicate Allowed(c: char)
  {
    ('a' <= c <= 'z') || ('A' <= c <= 'Z') || ('0' <= c <= '9') || c == '-' || c == '_'
  }

  predicate AllAllowed(s: string)
  {
    forall i :: 0 <= i < |s| ==> Allowed(s[i])
  }

  /** What one character becomes: itself when allowed, one dash per UTF-16 code unit otherwise. */
  function SanitizeChar(c: char): (r: string)
    ensures AllAllowed(r)
    ensures Allowed(c) ==> r == [c]
    ensures !Allowed(c) && c as int <= 0xFFFF ==> r == "-"
    ensures !Allowed(c) && c as int > 0xFFFF ==> r == "--"
  {
    if Allowed(c) then [c] else if c as int > 0xFFFF then "--" else "-"
  }

  /** `sanitizeValue`: every code unit outside `[A-Za-z0-9_-]` becomes `-`. */
  function Sanitize(s: string): (r: string)
    ensures |r| == Strings.Utf16Length(s)
    ensures AllAllowed(r)
  {
    if s == [] then [] else SanitizeChar(s[0]) + Sanitize(s[1..])
  }

  /** A string of allowed characters is its own sanitised form. */
  lemma {:induction false} SanitizeAllowed(s: string)
    requires AllAllowed(s)
    ensures Sanitize(s) == s
  {
    if s != [] {
      assert AllAllowed(s[1..]) by {
        forall i | 0 <= i < |s[1..]| ensures Allowed(s[1..][i]) {
          assert s[1..][i] == s[i + 1];
        }
      }
      SanitizeAllowed(s[1..]);
    }
  }

  /** Sanitising twice is sanitising once. */
  lemma {:induction false} SanitizeIdempotent(s: string)
    ensures Sanitize(Sanitize(s)) == Sanitize(s)
  {
    SanitizeAllowed(Sanitize(s));
  }

  /**
   * On text of the Basic Multilingual Plane the length is kept and each
   * position is either kept or replaced by `-`.
   */
  lemma {:induction false} SanitizePointwise(s: string)
    requires forall i :: 0 <= i < |s| ==> s[i] as int <= 0xFFFF
    ensures |Sanitize(s)| == |s|
    ensures forall i :: 0 <= i < |s| ==> Sanitize(s)[i] == (if Allowed(s[i]) then s[i] else '-')
  {
    if s != [] {
      SanitizePointwise(s[1..]);
      var r := Sanitize(s);
      assert r == SanitizeChar(s[0]) + Sanitize(s[1..]);
      forall i | 0 <= i < |s| ensures r[i] == (if Allowed(s[i]) then s[i] else '-') {
        if i > 0 {
          assert r[i] == Sanitize(s[1..])[i - 1];
          assert s[1..][i - 1] == s[i];
        }
      }
    }
  }

  /** Distinct values can share a sanitised form, and then their triggers share an id. */
  lemma {:induction false} SanitizeCollides()
    ensures "a b" != "a-b" && Sanitize("a b") == Sanitize("a-b") == "a-b"
  {
    SanitizeAllowed("a-b");
    assert Sanitize("a b") == "a" + Sanitize(" b");
    assert Sanitize(" b") == "-" + Sanitize("b");
  }

  /** `${baseId}-tab-${tabValue}`. */
  function TabId(baseId: string, value: string): (r: string)
    ensures |r| == |baseId| + 5 + |Sanitize(value)|
    ensures r[..|baseId|] == baseId && r[|baseId|..|baseId| + 5] == "-tab-" && r[|baseId| + 5..] == Sanitize(value)
  {
    baseId + "-tab-" + Sanitize(value)
  }

  /** `${baseId}-panel-${tabValue}`. */
  function PanelId(baseId: string, value: string): (r: string)
    ensures |r| == |baseId| + 7 + |Sanitize(value)|
    ensures r[..|baseId|] == baseId && r[|baseId|..|baseId| + 7] == "-panel-" && r[|baseId| + 7..] == Sanitize(value)
  {
    baseId + "-panel-" + Sanitize(value)
  }

  /**
   * A trigger's `aria-controls` is the id of the panel with the same value,
   * and a panel's `aria-labelledby` is the id of that trigger; within one
   * `Tabs`, two values get the same trigger id exactly when they sanitise
   * alike, and no trigger id is a panel id.
   */
  lemma {:induction false} IdsMatch(baseId: string, v: string, w: string)
    ensures (TabId(baseId, v) == TabId(baseId, w)) <==> (Sanitize(v) == Sanitize(w))
    ensures (PanelId(baseId, v) == PanelId(baseId, w)) <==> (Sanitize(v) == Sanitize(w))
    ensures TabId(baseId, v) != PanelId(baseId, w)
  {
    var n := |baseId| + 5;
    if TabId(baseId, v) == TabId(baseId, w) {
      assert Sanitize(v) == TabId(baseId, v)[n..];
      assert Sanitize(w) == TabId(baseId, w)[n..];
    }
    if PanelId(baseId, v) == PanelId(baseId, w) {
      assert Sanitize(v) == PanelId(baseId, v)[n + 2..];
      assert Sanitize(w) == PanelId(baseId, w)[n + 2..];
    }
    assert TabId(baseId, v)[|baseId| + 1] == 't';
    assert PanelId(baseId, w)[|baseId| + 1] == 'p';
  }

  /** `tabs.indexOf(element)`: the first position holding `e`, or -1. */
  function IndexOf(tabs: seq<nat>, e: nat): (i: int)
    ensures -1 <= i < |tabs|
    ensures i >= 0 ==> tabs[i] == e && forall k :: 0 <= k < i ==> tabs[k] != e
    ensures i == -1 <==> e !in tabs
  {
    if tabs == [] then -1
    else if tabs[0] == e then 0
    else var j := IndexOf(tabs[1..], e); if j == -1 then -1 else j + 1
  }

  /** `ArrowLeft`/`ArrowUp`: one step back, wrapping from the first tab to the last. */
  function PreviousIndex(current: int, count: nat): (r: int)
    ensures 0 <= current < count ==> r == (current - 1) % count
  {
    if current > 0 then current - 1 else count - 1
  }

  /** `ArrowRight`/`ArrowDown`: one step on, wrapping from the last tab to the first. */
  function NextIndex(current: int, count: nat): (r: int)
    ensures 0 <= current < count ==> r == (current + 1) % count
  {
    if current < count - 1 then current + 1 else 0
  }

  /** From any tab, both steps stay among the tabs, and each undoes the other. */
  lemma {:induction false} StepsWrap(current: int, count: nat)
    requires 0 <= current < count
    ensures 0 <= PreviousIndex(current, count) < count
    ensures 0 <= NextIndex(current, count) < count
    ensures PreviousIndex(NextIndex(current, count), count) == current
    ensures NextIndex(PreviousIndex(current, count), count) == current
    ensures current == 0 ==> PreviousIndex(current, count) == count - 1
    ensures current == count - 1 ==> NextIndex(current, count) == 0
  {
  }

  predicate IsPreviousKey(key: string) { key == "ArrowLeft" || key == "ArrowUp" }
  predicate IsNextKey(key: string) { key == "ArrowRight" || key == "ArrowDown" }
  predicate IsNavigationKey(key: string) { IsPreviousKey(key) || IsNextKey(key) || key == "Home" || key == "End" }

  /**
   * `handleKeyDown` of the trigger `current`, whose parent is `tablist`
   * (None when it has no parent) listing the `role="tab"` elements `tabs`.
   * Returns whether the default action was prevented and which tab, if any,
   * received `focus()` and `click()` (`tabs[targetIndex]` may be missing).
   */
  method HandleKeyDown(key: string, tablist: Option<seq<nat>>, current: nat)
    returns (prevented: bool, target: Option<nat>)
    ensures tablist.None? || !IsNavigationKey(key) ==> !prevented && target.None?
    ensures tablist.Some? && IsNavigationKey(key) ==> prevented
    ensures target.Some? ==> tablist.Some? && target.value < |tablist.value|
    ensures tablist.Some? && IsPreviousKey(key) ==>
              var i := PreviousIndex(IndexOf(tablist.value, current), |tablist.value|);
              target == (if 0 <= i < |tablist.value| then Some(i) else None)
    ensures tablist.Some? && IsNextKey(key) ==>
              var i := NextIndex(IndexOf(tablist.value, current), |tablist.value|);
              target == (if 0 <= i < |tablist.value| then Some(i) else None)
    ensures tablist.Some? && key == "Home" ==> target == (if tablist.value != [] then Some(0) else None)
    ensures tablist.Some? && key == "End" ==> target == (if tablist.value != [] then Some(|tablist.value| - 1) else None)
    ensures tablist.Some? && IsNavigationKey(key) && current in tablist.value ==> target.Some?
    ensures tablist.Some? && IsPreviousKey(key) && current in tablist.value ==>
              target == Some((IndexOf(tablist.value, current) - 1) % |tablist.value|)
    ensures tablist.Some? && IsNextKey(key) && current in tablist.value ==>
              target == Some((IndexOf(tablist.value, current) + 1) % |tablist.value|)
  {
    prevented, target := false, None;
    if tablist.None? {
      return;
    }
    var tabs := tablist.value;
    var currentIndex := IndexOf(tabs, current);
    var targetIndex := currentIndex;
    if IsPreviousKey(key) {
      prevented := true;
      targetIndex := if currentIndex > 0 then currentIndex - 1 else |tabs| - 1;
    } else if IsNextKey(key) {
      prevented := true;
      targetIndex := if currentIndex < |tabs| - 1 then currentIndex + 1 else 0;
    } else if key == "Home" {
      prevented := true;
      targetIndex := 0;
    } else if key == "End" {
      prevented := true;
      targetIndex := |tabs| - 1;
    } else {
      return;
    }
    if 0 <= targetIndex < |tabs| {
      target := Some(targetIndex);
    }
  }

  /** The state of one `Tabs`: the `value` prop, whether `onValueChange` is given, and `internalValue`. */
  class TabsState {
    const value: Option<string>
    const hasListener: bool
    var internalValue: string
    /** The values passed to `onValueChange`, oldest first. */
    var notified: seq<string>

    constructor (defaultValue: string, value: Option<string>, hasListener: bool)
      ensures internalValue == defaultValue && notified == []
      ensures this.value == value && this.hasListener == hasListener
    {
      internalValue := defaultValue;
      this.value := value;
      this.hasListener := hasListener;
      notified := [];
    }

    /** `activeValue`: the `value` prop when given, the internal value otherwise. */
    function ActiveValue(): (r: string)
      reads this
      ensures r == GetOr(value, internalValue)
    {
      if value.Some? then value.value else internalValue
    }

    /**
     * `setActiveValue`: writes the internal value only when uncontrolled,
     * and always passes `next` to `onValueChange` when there is one.
     */
    method SetActiveValue(next: string)
      modifies this
      ensures value.None? ==> internalValue == next && ActiveValue() == next
      ensures value.Some? ==> internalValue == old(internalValue) && ActiveValue() == old(ActiveValue())
      ensures notified == old(notified) + (if hasListener then [next] else [])
    {
      if value.None? {
        internalValue := next;
      }
      if hasListener {
        notified := notified + [next];
      }
    }
  }

  /**
   * A key press on a trigger followed by the click it causes: in an
   * uncontrolled `Tabs` the tab the key selects becomes active.
   */
  method KeyThenClick(values: seq<string>, current: nat, key: string) returns (active: string, clicked: Option<nat>)
    requires current < |values|
    ensures IsNavigationKey(key) ==> clicked.Some? && clicked.value < |values| && active == values[clicked.value]
    ensures IsNextKey(key) ==> clicked == Some(NextIndex(current, |values|))
    ensures !IsNavigationKey(key) ==> clicked.None? && active == values[current]
  {
    var tabs := seq(|values|, i => i);
    var state := new TabsState(values[current], None, true);
    assert tabs[current] == current;
    var _, target := HandleKeyDown(key, Some(tabs), current);
    clicked := target;
    if target.Some? {
      state.SetActiveValue(values[target.value]);
    }
    active := state.ActiveValue();
  }
}
