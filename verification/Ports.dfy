// Choosing the next published port of a SOCAT container: the list of used ports is sorted as
// text, then walked for the first gap.
module Ports {
  import opened Wrappers
  import opened Text

  /** `a` may stand before `b` after `sort()`: numbers are compared by numeral, not by value. */
  predicate TextAtMost(a: nat, b: nat) {
    !TextLess(Numeral(b), Numeral(a))
  }

  ghost predicate SortedAsText(s: seq<nat>) {
    forall i, j :: 0 <= i < j < |s| ==> TextAtMost(s[i], s[j])
  }

  ghost predicate Ascending(s: seq<nat>) {
    forall i, j :: 0 <= i < j < |s| ==> s[i] <= s[j]
  }

  ghost predicate Within(s: seq<nat>, lo: nat, hi: nat) {
    forall i :: 0 <= i < |s| ==> lo <= s[i] <= hi
  }

  lemma {:induction false} TextLessOrder(a: string, b: string, c: string)
    ensures TextLess(a, b) ==> !TextLess(b, a)
    ensures !TextLess(b, a) && !TextLess(c, b) ==> !TextLess(c, a)
  {
    if a != [] && b != [] {
      TextLessOrder(a[1..], b[1..], if c == [] then [] else c[1..]);
    }
  }

  /** Where `x` goes in a sorted list: after every element that may stand before it. */
  method InsertAsText(sorted: seq<nat>, x: nat) returns (r: seq<nat>)
    requires SortedAsText(sorted)
    ensures SortedAsText(r) && multiset(r) == multiset(sorted) + multiset{x}
  {
    var k := 0;
    while k < |sorted| && TextAtMost(sorted[k], x)
      invariant k <= |sorted|
      invariant forall j :: 0 <= j < k ==> TextAtMost(sorted[j], x)
    {
      k := k + 1;
    }
    forall j | k <= j < |sorted|
      ensures TextAtMost(x, sorted[j])
    {
      TextLessOrder(Numeral(x), Numeral(sorted[k]), Numeral(sorted[j]));
    }
    r := sorted[..k] + [x] + sorted[k..];
    assert sorted == sorted[..k] + sorted[k..];
  }

  /** `sort()` without a comparator: a permutation in the order of the numerals. */
  method SortAsText(list: seq<nat>) returns (sorted: seq<nat>)
    ensures multiset(sorted) == multiset(list)
    ensures SortedAsText(sorted)
  {
    sorted := [];
    for i := 0 to |list|
      invariant multiset(sorted) == multiset(list[..i])
      invariant SortedAsText(sorted)
    {
      sorted := InsertAsText(sorted, list[i]);
      assert list[..i + 1] == list[..i] + [list[i]];
    }
    assert list[..|list|] == list;
  }

  /** The walk from position `i` on: stop at the first gap, else go one past the last port. */
  function Walk(s: seq<nat>, i: nat): (port: nat)
    requires 0 < i <= |s|
    decreases |s| - i
  {
    if i == |s| then s[i - 1] + 1
    else if s[i] > s[i - 1] + 1 then
      (if s[i] - 1 == s[|s| - 1] then s[i] else s[i] - 1)
    else Walk(s, i + 1)
  }

  /** The port offered for a start port and a list of used ports in the order of `sort()`. */
  function ChosenPort(start: nat, s: seq<nat>): nat {
    if s == [] || start < s[0] then start else Walk(s, 1)
  }

  /** The loop of the source, with `undefined` as `None` and `0` as falsy. */
  method GapLoop(start: nat, used: seq<nat>) returns (port: nat)
    requires used != []
    ensures port == ChosenPort(start, used)
  {
    var previousPort := used[0];
    var nextPort: Option<nat> := None;
    if start < previousPort {
      return start;
    }
    var i := 0;
    while i < |used|
      invariant 0 <= i <= |used|
      invariant previousPort == used[if i == 0 then 0 else i - 1]
      invariant 0 < i ==> nextPort == (if i < |used| then Some(used[i]) else None)
      invariant Walk(used, 1) == Walk(used, if i == 0 then 1 else i)
    {
      var diff: int := used[i] - previousPort;
      if diff == 0 {
        previousPort := used[i];
        nextPort := if i + 1 < |used| then Some(used[i + 1]) else None;
      }
      if diff > 1 {
        nextPort := Some(previousPort + diff - 1);
        break;
      }
      previousPort := used[i];
      nextPort := if i + 1 < |used| then Some(used[i + 1]) else None;
      i := i + 1;
    }
    if nextPort.None? || nextPort.value == 0 {
      return previousPort + 1;
    }
    if nextPort.value == used[|used| - 1] {
      return nextPort.value + 1;
    }
    return nextPort.value;
  }

  /** Position `i` is the upper end of the first gap of `s`. */
  ghost predicate FirstGap(s: seq<nat>, i: int) {
    0 < i < |s| && s[i] > s[i - 1] + 1 && forall k :: 0 < k < i ==> s[k] <= s[k - 1] + 1
  }

  lemma {:induction false} WalkAscending(s: seq<nat>, i: nat)
    requires Ascending(s) && 0 < i <= |s|
    requires forall k :: 0 < k < i ==> s[k] <= s[k - 1] + 1
    ensures Walk(s, i) !in s && Walk(s, i) > s[0]
    ensures (exists k :: FirstGap(s, k) && Walk(s, i) + 1 == s[k])
         || ((forall k :: 0 < k < |s| ==> s[k] <= s[k - 1] + 1) && Walk(s, i) == s[|s| - 1] + 1)
    ensures Walk(s, i) <= s[|s| - 1] + 1
    decreases |s| - i
  {
    if i < |s| {
      if s[i] > s[i - 1] + 1 {
        assert FirstGap(s, i);
        assert forall j :: 0 <= j < i ==> s[j] <= s[i - 1];
        assert forall j :: i <= j < |s| ==> s[i] <= s[j];
      } else {
        WalkAscending(s, i + 1);
      }
    }
  }

  lemma {:induction false} WalkStops(s: seq<nat>, i: nat)
    requires 0 < i <= |s| && forall k :: 0 < k < i ==> s[k] <= s[k - 1] + 1
    ensures forall k :: FirstGap(s, k) ==> Walk(s, i) == if s[k] - 1 == s[|s| - 1] then s[k] else s[k] - 1
    ensures (forall k :: 0 < k < |s| ==> s[k] <= s[k - 1] + 1) ==> Walk(s, i) == s[|s| - 1] + 1
    decreases |s| - i
  {
    if i < |s| {
      if s[i] > s[i - 1] + 1 {
        forall k | FirstGap(s, k)
          ensures k == i
        {
        }
      } else {
        WalkStops(s, i + 1);
      }
    }
  }

  /** The port offered on any list: the start port on an empty list or below its first port; else the
      top of the first gap, or the port after it when that top is the last port of the list; else,
      without a gap, one past the last port. */
  lemma OfferMeans(start: nat, s: seq<nat>)
    ensures s == [] || start < s[0] ==> ChosenPort(start, s) == start
    ensures s != [] && start >= s[0] ==>
              forall k :: FirstGap(s, k) ==> ChosenPort(start, s) == if s[k] - 1 == s[|s| - 1] then s[k] else s[k] - 1
    ensures s != [] && start >= s[0] && (forall k :: 0 < k < |s| ==> s[k] <= s[k - 1] + 1) ==>
              ChosenPort(start, s) == s[|s| - 1] + 1
  {
    if s != [] {
      WalkStops(s, 1);
    }
  }

  /** On an ascending list (duplicates allowed) the port offered is never a used one; it is the
      start port below the minimum, otherwise the top of the first gap or one past the maximum. */
  lemma ChosenPortIsFree(start: nat, s: seq<nat>)
    requires s != [] && Ascending(s)
    ensures ChosenPort(start, s) !in s
    ensures start < s[0] ==> ChosenPort(start, s) == start
    ensures start >= s[0] ==>
              || (exists k :: FirstGap(s, k) && ChosenPort(start, s) + 1 == s[k])
              || ((forall k :: 0 < k < |s| ==> s[k] <= s[k - 1] + 1) && ChosenPort(start, s) == s[|s| - 1] + 1)
    ensures (forall i :: 0 <= i < |s| ==> start <= s[i]) ==> ChosenPort(start, s) >= start
    ensures ChosenPort(start, s) <= (if start < s[0] then s[0] else s[|s| - 1] + 1)
  {
    if start >= s[0] {
      WalkAscending(s, 1);
    } else {
      assert forall i :: 0 <= i < |s| ==> s[0] <= s[i];
    }
  }

  lemma SameDigits(n: nat, lo: nat, hi: nat)
    requires lo <= n <= hi && Digits(lo) == Digits(hi)
    ensures Digits(n) == Digits(lo)
  {
    DigitsMonotone(lo, n);
    DigitsMonotone(n, hi);
  }

  /** On ports of one digit count the order of `sort()` is numeric order. */
  lemma SortedAsTextIsAscending(s: seq<nat>, lo: nat, hi: nat)
    requires SortedAsText(s) && Within(s, lo, hi) && Digits(lo) == Digits(hi)
    ensures Ascending(s)
  {
    forall i, j | 0 <= i < j < |s|
      ensures s[i] <= s[j]
    {
      SameDigits(s[i], lo, hi);
      SameDigits(s[j], lo, hi);
      TextOrderIsNumeric(Numeral(s[j]), Numeral(s[i]));
      NumeralRoundTrip(s[i]);
      NumeralRoundTrip(s[j]);
    }
  }

  /** Every offer made while start port and used ports stay in `lo..hi` is an unused port. */
  ghost predicate RangeIsSafe(lo: nat, hi: nat) {
    forall start, s | lo <= start <= hi && s != [] && Within(s, lo, hi) && SortedAsText(s) ::
      ChosenPort(start, s) !in s
  }

  /** The failing input for a range that holds `10^d - 1` and `10^d`: both ports used, the lower
      one the start port. `sort()` puts `10^d` first and the start port is offered again. */
  lemma MixedDigitsOfferUsedPort(d: nat)
    requires d > 0
    ensures var p := Pow10(d);
            SortedAsText([p, p - 1]) && ChosenPort(p - 1, [p, p - 1]) in [p, p - 1]
  {
    LeadingDigits(d);
    var p := Pow10(d);
    assert TextLess(Numeral(p), Numeral(p - 1));
    TextLessOrder(Numeral(p), Numeral(p - 1), Numeral(p));
    assert ChosenPort(p - 1, [p, p - 1]) == p - 1 == [p, p - 1][1];
  }

  /** Sorting ports as text is harmless exactly in ranges whose ends have equally many digits. */
  lemma RangeSafeIffSameDigits(lo: nat, hi: nat)
    requires lo <= hi
    ensures RangeIsSafe(lo, hi) <==> Digits(lo) == Digits(hi)
  {
    if Digits(lo) == Digits(hi) {
      forall start, s | lo <= start <= hi && s != [] && Within(s, lo, hi) && SortedAsText(s)
        ensures ChosenPort(start, s) !in s
      {
        SortedAsTextIsAscending(s, lo, hi);
        ChosenPortIsFree(start, s);
      }
    } else {
      var d := Digits(lo);
      DigitsMonotone(lo, hi);
      DigitsBound(lo);
      DigitsBound(hi);
      Pow10Monotone(d, Digits(hi) - 1);
      MixedDigitsOfferUsedPort(d);
      var p := Pow10(d);
      assert Within([p, p - 1], lo, hi);
    }
  }
}
