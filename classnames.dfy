/**
 * The class-name combiner `cn` of src/lib/utils.ts.
 *
 * `cn` walks its arguments with a recursive `append` that pushes every kept
 * leaf onto a local array, then joins the array with single spaces. The
 * methods Append and Cn follow that walk; the function Leaves is the
 * flatten-and-filter specification they are proved against.
 */
module ClassNames {

  /** `ClassValue`: numbers are modelled as integers. */
  datatype ClassValue =
    | Str(text: string)
    | Num(number: int)
    | False
    | Null
    | Undefined
    | Arr(items: seq<ClassValue>)

  /** JavaScript falsiness of a class value; every array, even an empty one, is truthy. */
  predicate Falsy(v: ClassValue)
  {
    v.False? || v.Null? || v.Undefined? || v == Str("") || v == Num(0)
  }

  /** The decimal digit for `d`. */
  function Digit(d: nat): (c: char)
    requires d < 10
    ensures '0' <= c <= '9' && c as int - '0' as int == d
  {
    ('0' as int + d) as char
  }

  /** The decimal digits of `n`, without leading zeros. */
  function Digits(n: nat): (s: string)
    ensures |s| > 0 && (|s| > 1 ==> s[0] != '0')
    ensures forall i :: 0 <= i < |s| ==> '0' <= s[i] <= '9'
  {
    if n < 10 then [Digit(n)] else Digits(n / 10) + [Digit(n % 10)]
  }

  /** The value of a string of decimal digits. */
  function DigitsValue(s: string): nat
    requires forall i :: 0 <= i < |s| ==> '0' <= s[i] <= '9'
  {
    if s == [] then 0 else 10 * DigitsValue(s[..|s| - 1]) + (s[|s| - 1] as int - '0' as int)
  }

  /** Reading the digits back gives the number. */
  lemma {:induction false} DigitsRoundTrip(n: nat)
    ensures DigitsValue(Digits(n)) == n
  {
    if n >= 10 {
      var s := Digits(n);
      assert s[..|s| - 1] == Digits(n / 10);
      DigitsRoundTrip(n / 10);
    }
  }

  /** `String(n)` for an integer: its digits, after a `-` when negative. */
  function NumberToString(n: int): (s: string)
    ensures |s| > 0
    ensures n >= 0 ==> s == Digits(n)
    ensures n < 0 ==> s == "-" + Digits(-n)
  {
    if n < 0 then "-" + Digits(-n) else Digits(n)
  }

  /** `toString`: numbers through `String`, strings unchanged. */
  function ToString(v: ClassValue): (s: string)
    requires v.Str? || v.Num?
    ensures v.Str? ==> s == v.text
    ensures v.Num? ==> s == NumberToString(v.number)
  {
    if v.Str? then v.text else NumberToString(v.number)
  }

  /** The strings one value contributes: none when falsy, its leaves in order for an array. */
  function LeavesOf(v: ClassValue): seq<string>
    decreases v, 1
  {
    if Falsy(v) then []
    else match v
      case Arr(items) => Leaves(items)
      case Str(_) => [ToString(v)]
      case Num(_) => [ToString(v)]
  }

  /** The strings a sequence of values contributes, left to right, depth first. */
  function Leaves(values: seq<ClassValue>): seq<string>
    decreases values, 0
  {
    if values == [] then [] else LeavesOf(values[0]) + Leaves(values[1..])
  }

  lemma {:induction false} LeavesAppend(a: seq<ClassValue>, b: seq<ClassValue>)
    ensures Leaves(a + b) == Leaves(a) + Leaves(b)
  {
    if a == [] {
      assert a + b == b;
    } else {
      assert (a + b)[1..] == a[1..] + b;
      LeavesAppend(a[1..], b);
    }
  }

  lemma {:induction false} LeavesSingleton(v: ClassValue)
    ensures Leaves([v]) == LeavesOf(v)
  {
    assert [v][1..] == [];
  }

  /** A falsy argument contributes nothing, wherever it stands. */
  lemma {:induction false} FalsyContributesNothing(before: seq<ClassValue>, v: ClassValue, after: seq<ClassValue>)
    requires Falsy(v)
    ensures Leaves(before + [v] + after) == Leaves(before + after)
  {
    LeavesAppend(before + [v], after);
    LeavesAppend(before, [v]);
    LeavesAppend(before, after);
    LeavesSingleton(v);
  }

  /** A nested array contributes exactly what its elements would, in place. */
  lemma {:induction false} ArrayFlattens(before: seq<ClassValue>, items: seq<ClassValue>, after: seq<ClassValue>)
    ensures Leaves(before + [Arr(items)] + after) == Leaves(before + items + after)
  {
    LeavesAppend(before + [Arr(items)], after);
    LeavesAppend(before, [Arr(items)]);
    LeavesAppend(before + items, after);
    LeavesAppend(before, items);
    LeavesSingleton(Arr(items));
  }

  /** No kept leaf is empty: the empty string is falsy and every number renders to something. */
  lemma {:induction false} LeavesNonEmpty(values: seq<ClassValue>)
    ensures forall s :: s in Leaves(values) ==> s != ""
    decreases values, 0
  {
    if values != [] {
      LeavesOfNonEmpty(values[0]);
      LeavesNonEmpty(values[1..]);
    }
  }

  lemma {:induction false} LeavesOfNonEmpty(v: ClassValue)
    ensures forall s :: s in LeavesOf(v) ==> s != ""
    decreases v, 1
  {
    if !Falsy(v) && v.Arr? {
      LeavesNonEmpty(v.items);
    }
  }

  /** `Array.prototype.join(' ')`. */
  function Join(parts: seq<string>): (r: string)
    ensures parts == [] ==> r == ""
    ensures |parts| == 1 ==> r == parts[0]
  {
    if parts == [] then "" else if |parts| == 1 then parts[0] else parts[0] + " " + Join(parts[1..])
  }

  /** The index of the first space in `s`, or `|s|` when there is none. */
  function FirstSpace(s: string): (i: nat)
    ensures i <= |s| && (i < |s| ==> s[i] == ' ')
    ensures forall k :: 0 <= k < i ==> s[k] != ' '
  {
    if s == [] then 0 else if s[0] == ' ' then 0 else 1 + FirstSpace(s[1..])
  }

  /** `s.split(' ')`. */
  function Split(s: string): (parts: seq<string>)
    ensures |parts| > 0
    decreases |s|
  {
    var i := FirstSpace(s);
    if i == |s| then [s] else [s[..i]] + Split(s[i + 1..])
  }

  lemma {:induction false} FirstSpaceAfter(a: string, b: string)
    requires forall k :: 0 <= k < |a| ==> a[k] != ' '
    ensures FirstSpace(a + " " + b) == |a|
  {
    var s := a + " " + b;
    assert s[|a|] == ' ';
    assert forall k :: 0 <= k < |a| ==> s[k] == a[k];
  }

  lemma {:induction false} FirstSpaceNone(s: string)
    requires forall k :: 0 <= k < |s| ==> s[k] != ' '
    ensures FirstSpace(s) == |s|
  {
  }

  /** Splitting on spaces undoes joining with spaces when no part contains a space. */
  lemma {:induction false} SplitJoin(parts: seq<string>)
    requires |parts| > 0
    requires forall p, k :: p in parts && 0 <= k < |p| ==> p[k] != ' '
    ensures Split(Join(parts)) == parts
  {
    if |parts| == 1 {
      FirstSpaceNone(parts[0]);
    } else {
      var a, b := parts[0], Join(parts[1..]);
      assert parts[0] in parts;
      FirstSpaceAfter(a, b);
      var s := a + " " + b;
      assert Join(parts) == s;
      assert s[..|a|] == a && s[|a| + 1..] == b;
      assert Split(s) == [a] + Split(b);
      assert forall p :: p in parts[1..] ==> p in parts;
      SplitJoin(parts[1..]);
    }
  }

  /** `append`: push the leaves of `value` onto `classNames`, recursing through arrays with `forEach`. */
  method Append(value: ClassValue, classNames: seq<string>) returns (out: seq<string>)
    ensures out == classNames + LeavesOf(value)
    decreases value
  {
    if Falsy(value) {
      return classNames;
    }
    if value.Arr? {
      out := classNames;
      var i := 0;
      while i < |value.items|
        invariant 0 <= i <= |value.items|
        invariant out == classNames + Leaves(value.items[..i])
      {
        assert value.items[..i + 1] == value.items[..i] + [value.items[i]];
        LeavesAppend(value.items[..i], [value.items[i]]);
        LeavesSingleton(value.items[i]);
        out := Append(value.items[i], out);
        i := i + 1;
      }
      assert value.items[..i] == value.items;
      return;
    }
    out := classNames + [ToString(value)];
  }

  /** `cn`: the kept leaves of all inputs, in order, joined by single spaces. */
  method Cn(inputs: seq<ClassValue>) returns (r: string)
    ensures r == Join(Leaves(inputs))
  {
    var classNames: seq<string> := [];
    var i := 0;
    while i < |inputs|
      invariant 0 <= i <= |inputs|
      invariant classNames == Leaves(inputs[..i])
    {
      assert inputs[..i + 1] == inputs[..i] + [inputs[i]];
      LeavesAppend(inputs[..i], [inputs[i]]);
      LeavesSingleton(inputs[i]);
      classNames := Append(inputs[i], classNames);
      i := i + 1;
    }
    assert inputs[..i] == inputs;
    r := Join(classNames);
  }

  /** With no inputs, or only falsy ones, `cn` returns the empty string. */
  lemma {:induction false} CnOfNothing(inputs: seq<ClassValue>)
    requires forall k :: 0 <= k < |inputs| ==> Falsy(inputs[k])
    ensures Join(Leaves(inputs)) == ""
  {
    if inputs != [] {
      CnOfNothing(inputs[1..]);
    }
  }

  /** When no leaf contains a space, splitting the output of `cn` on spaces gives back its leaves. */
  lemma {:induction false} CnSplits(inputs: seq<ClassValue>)
    requires Leaves(inputs) != []
    requires forall p, k :: p in Leaves(inputs) && 0 <= k < |p| ==> p[k] != ' '
    ensures Split(Join(Leaves(inputs))) == Leaves(inputs)
  {
    SplitJoin(Leaves(inputs));
  }
}
