// The ports that one call offers over its tries: each try reads the used ports again, adds them to
// the list of the earlier tries and chooses from all of them.
module PortOffers {
  import opened Text
  import opened Ports

  const MAX_RETRY: nat := 3

  ghost predicate Distinct(s: seq<nat>) {
    forall i, j :: 0 <= i < j < |s| ==> s[i] != s[j]
  }

  /** One choice of port: `used` lists ports as they were read, `port` is offered. */
  ghost predicate Offer(start: nat, used: seq<nat>, port: nat) {
    if used == [] then port == start
    else exists s: seq<nat> :: multiset(s) == multiset(used) && SortedAsText(s) && port == ChosenPort(start, s)
  }

  /** The list that the next try chooses from, after the offers made so far: every try adds the ports
      of the containers, among them the one that the try before left behind. */
  function Used(base: seq<nat>, offered: seq<nat>): seq<nat> {
    if offered == [] then base
    else Used(base, offered[..|offered| - 1]) + (base + [offered[|offered| - 1]])
  }

  ghost predicate Offers(start: nat, base: seq<nat>, offered: seq<nat>) {
    offered == []
    || (Offers(start, base, offered[..|offered| - 1])
        && Offer(start, Used(base, offered[..|offered| - 1]), offered[|offered| - 1]))
  }

  /** A whole call while the ports in `bound` are allocated: every offer but the last conflicts, and
      the last does only when there is no further try. */
  ghost predicate Call(start: nat, base: seq<nat>, bound: set<nat>, offered: seq<nat>) {
    && 0 < |offered| <= MAX_RETRY && Offers(start, base, offered)
    && (forall i :: 0 <= i < |offered| - 1 ==> offered[i] in bound)
    && (offered[|offered| - 1] in bound ==> |offered| == MAX_RETRY)
  }

  ghost predicate FreshOffers(base: seq<nat>, offered: seq<nat>) {
    Distinct(offered) && forall p :: p in offered ==> p !in base
  }

  lemma OfferIsUnused(start: nat, used: seq<nat>, port: nat, lo: nat, hi: nat)
    requires Offer(start, used, port)
    requires lo <= start <= hi && Within(used, lo, hi) && Digits(lo) == Digits(hi)
    ensures port !in used && lo <= port <= hi + 1
  {
    if used != [] {
      var s: seq<nat> :| multiset(s) == multiset(used) && SortedAsText(s) && port == ChosenPort(start, s);
      forall i | 0 <= i < |s|
        ensures s[i] in used
      {
        assert s[i] in multiset(s);
      }
      if port in used {
        assert port in multiset(used);
        assert port in s;
      }
      assert s != [] by {
        assert used[0] in multiset(used);
      }
      SortedAsTextIsAscending(s, lo, hi);
      ChosenPortIsFree(start, s);
      if start >= s[0] {
        WalkAscending(s, 1);
      }
    }
  }

  /** The accumulated list makes every offer of a call differ from all earlier ones and from the used
      ports, as long as the last list that is sorted has one digit count. */
  lemma {:induction false} OffersAreFresh(start: nat, base: seq<nat>, offered: seq<nat>, lo: nat, hi: nat)
    requires Offers(start, base, offered) && lo <= start <= hi && Within(base, lo, hi)
    requires offered != [] ==> Digits(lo) == Digits(hi + |offered| - 1)
    ensures FreshOffers(base, offered)
    ensures Within(Used(base, offered), lo, hi + |offered|)
    ensures forall p :: p in base || p in offered ==> p in Used(base, offered)
  {
    hide Digits, Offer;
    if offered != [] {
      var n := |offered| - 1;
      var front, last := offered[..n], offered[n];
      DigitsMonotone(lo, hi + n);
      if n > 0 {
        DigitsMonotone(lo, hi + n - 1);
        DigitsMonotone(hi + n - 1, hi + n);
      }
      OffersAreFresh(start, base, front, lo, hi);
      OfferIsUnused(start, Used(base, front), last, lo, hi + n);
      assert offered == front + [last];
    }
  }

  // Calls that offer a used port, or one port twice.

  lemma TextOrderOf(a: nat, b: nat)
    ensures TextAtMost(a, a) && (TextLess(Numeral(a), Numeral(b)) ==> TextAtMost(a, b))
  {
    TextLessOrder(Numeral(a), Numeral(a), Numeral(a));
    TextLessOrder(Numeral(a), Numeral(b), Numeral(a));
  }

  ghost predicate Reached(start: nat, base: seq<nat>, offered: seq<nat>, used: seq<nat>) {
    Offers(start, base, offered) && Used(base, offered) == used
  }

  /** One more try, on the list `used` in the order `s`. */
  lemma NextTry(start: nat, base: seq<nat>, offered: seq<nat>, used: seq<nat>, s: seq<nat>, port: nat)
    requires Reached(start, base, offered, used)
    requires s != [] && multiset(s) == multiset(used) && SortedAsText(s) && port == ChosenPort(start, s)
    ensures Reached(start, base, offered + [port], used + (base + [port]))
  {
    assert s[0] in multiset(s);
    assert s[0] in multiset(used);
    assert Offer(start, used, port);
    assert (offered + [port])[..|offered|] == offered;
  }

  lemma SortedPair(x: nat, y: nat, s: seq<nat>, k: nat)
    requires TextAtMost(x, x) && TextAtMost(y, y) && TextAtMost(x, y) && k <= |s|
    requires (forall i :: 0 <= i < k ==> s[i] == x) && forall i :: k <= i < |s| ==> s[i] == y
    ensures SortedAsText(s)
  {
    hide TextAtMost;
  }

  /** Every list has a sorted order. */
  lemma {:induction false} Inserted(s: seq<nat>, x: nat) returns (r: seq<nat>)
    requires SortedAsText(s)
    ensures SortedAsText(r) && multiset(r) == multiset(s) + multiset{x}
  {
    hide TextAtMost;
    if s == [] {
      r := [x];
    } else if TextAtMost(s[|s| - 1], x) {
      forall i | 0 <= i < |s|
        ensures TextAtMost(s[i], x)
      {
        AtMostIsTransitive(s[i], s[|s| - 1], x);
      }
      r := s + [x];
    } else {
      var n := |s| - 1;
      var front := Inserted(s[..n], x);
      r := front + [s[n]];
      assert s == s[..n] + [s[n]];
      forall i | 0 <= i < |front|
        ensures TextAtMost(front[i], s[n])
      {
        AtMostIsTransitive(s[n], x, s[n]);
        assert front[i] in multiset(front);
        assert front[i] in multiset(s[..n]) || front[i] == x;
      }
    }
  }

  lemma AtMostIsTransitive(a: nat, b: nat, c: nat)
    ensures TextAtMost(a, b) && TextAtMost(b, c) ==> TextAtMost(a, c)
    ensures TextAtMost(a, b) || TextAtMost(b, a)
  {
    TextLessOrder(Numeral(a), Numeral(b), Numeral(c));
  }

  lemma {:induction false} Sorted(list: seq<nat>) returns (s: seq<nat>)
    ensures SortedAsText(s) && multiset(s) == multiset(list)
  {
    hide TextAtMost;
    if list == [] {
      s := [];
    } else {
      var n := |list| - 1;
      var front := Sorted(list[..n]);
      s := Inserted(front, list[n]);
      assert list == list[..n] + [list[n]];
    }
  }

  /** A used port above the start port that is first as text makes a try offer the start port, used
      or not. */
  lemma StartIsOfferedAgain(start: nat, used: seq<nat>, top: nat)
    requires top in used && start < top
    requires forall x :: x in used ==> x == top || TextLess(Numeral(top), Numeral(x))
    ensures Offer(start, used, start)
  {
    hide TextLess, Numeral, Walk;
    var s := Sorted(used);
    assert top in multiset(used);
    assert top in s;
    var k :| 0 <= k < |s| && s[k] == top;
    assert s[0] in multiset(s);
    assert s[0] in multiset(used);
    assert k > 0 ==> TextAtMost(s[0], s[k]);
    assert s[0] == top;
    assert ChosenPort(start, s) == start;
  }

  lemma {:induction false} UsedMembers(base: seq<nat>, offered: seq<nat>)
    ensures forall x :: x in Used(base, offered) ==> x in base || x in offered
    ensures forall x :: x in base ==> x in Used(base, offered)
    ensures offered != [] ==> offered[|offered| - 1] in Used(base, offered)
  {
    if offered != [] {
      var n := |offered| - 1;
      UsedMembers(base, offered[..n]);
      assert offered == offered[..n] + [offered[n]];
    }
  }

  lemma AgainStep(start: nat, base: seq<nat>, offered: seq<nat>, top: nat)
    requires Offers(start, base, offered) && start < top && (top in base || (offered != [] && top == offered[|offered| - 1]))
    requires forall x :: x in base || x in offered ==> x == top || TextLess(Numeral(top), Numeral(x))
    ensures Offers(start, base, offered + [start])
  {
    hide TextLess, Numeral, Offer;
    UsedMembers(base, offered);
    StartIsOfferedAgain(start, Used(base, offered), top);
    assert (offered + [start])[..|offered|] == offered;
  }

  /** Two used ports, the lower one the start port and the higher one first as text, such as 3128 and
      10080: every try offers the start port again. */
  lemma SameOfferEveryTry(a: nat, b: nat, bound: set<nat>)
    requires a < b && TextLess(Numeral(b), Numeral(a)) && a in bound
    ensures Call(a, [a, b], bound, [a, a, a])
  {
    assert Offers(a, [a, b], []);
    hide Offers, TextLess, Numeral;
    AgainStep(a, [a, b], [], b);
    AgainStep(a, [a, b], [] + [a], b);
    AgainStep(a, [a, b], [] + [a] + [a], b);
    assert [] + [a] + [a] + [a] == [a, a, a];
  }

  /** The default start port of the system with two ports that the API admits. */
  lemma DefaultStartPortRepeats(bound: set<nat>)
    requires 3128 in bound
    ensures Call(3128, [3128, 10080], bound, [3128, 3128, 3128])
  {
    hide Call;
    assert Numeral(1008) == Numeral(100) + [DigitChar(8)] && Numeral(100) == Numeral(10) + [DigitChar(0)];
    assert Numeral(10080)[0] == Numeral(1008)[0] == Numeral(100)[0] == Numeral(10)[0] == '1';
    assert Numeral(3128)[0] == Numeral(312)[0] == Numeral(31)[0] == '3';
    SameOfferEveryTry(3128, 10080, bound);
  }

  lemma AcrossSecond(n: nat)
    requires TextAtMost(n, n)
    ensures Offers(n, [], [n, n + 1])
  {
    hide Offers, Used, SortedAsText, TextAtMost;
    StartIsOffered(n);
    SortedPair(n, n, [n], 1);
    assert ChosenPort(n, [n]) == n + 1;
    NextTry(n, [], [n], [n], [n], n + 1);
    assert [n] + [n + 1] == [n, n + 1];
  }

  /** Without any container, with the last port of a digit count as the start port and it and the next
      one allocated, the third try offers the start port again. */
  lemma OfferRepeatsAcrossDigits(d: nat, bound: set<nat>)
    requires d > 0 && Pow10(d) - 1 in bound && Pow10(d) in bound
    ensures var p := Pow10(d); Call(p - 1, [], bound, [p - 1, p, p - 1])
  {
    hide Offers, Reached, TextAtMost, TextLess, Numeral, Pow10;
    var p := Pow10(d);
    BelowNextDigit(d);
    TextOrderOf(p - 1, p - 1);
    AcrossSecond(p - 1);
    AgainStep(p - 1, [], [p - 1, p], p);
    assert [p - 1, p] + [p - 1] == [p - 1, p, p - 1];
  }

  lemma NoTryYet(start: nat, base: seq<nat>)
    ensures Reached(start, base, [], base)
  {
  }

  lemma StartIsOffered(start: nat)
    ensures Reached(start, [], [start], [start])
  {
    assert [start][..0] == [];
    NoTryYet(start, []);
    assert Offer(start, Used([], []), start);
  }

  lemma BelowNextDigit(d: nat)
    requires d > 0
    ensures Pow10(d) >= 10 && TextLess(Numeral(Pow10(d)), Numeral(Pow10(d) - 2))
    ensures TextLess(Numeral(Pow10(d)), Numeral(Pow10(d) - 1))
    ensures TextAtMost(Pow10(d) - 2, Pow10(d) - 1)
  {
    var p := Pow10(d);
    LeadingDigits(d);
    if d == 1 {
      assert Pow10(1) == 10 * Pow10(0) == 10;
      assert Numeral(10) == Numeral(1) + [DigitChar(0)];
    } else {
      LeadingDigits(d - 1);
      var q := Pow10(d - 1);
      assert p == 10 * q;
      LastDigit(q - 1, 8);
      LastDigit(q - 1, 9);
    }
    SameLengthOrder(p - 2, p - 1);
  }

  lemma LastDigit(n: nat, c: nat)
    requires n > 0 && c < 10
    ensures Numeral(10 * n + c) == Numeral(n) + [DigitChar(c)]
  {
  }

  lemma SameLengthOrder(a: nat, b: nat)
    requires a < b && Digits(a) == Digits(b)
    ensures TextAtMost(a, b)
  {
    hide Numeral;
    TextOrderIsNumeric(Numeral(b), Numeral(a));
    NumeralRoundTrip(a);
    NumeralRoundTrip(b);
  }

  lemma WalkOfThree(h: nat)
    ensures ChosenPort(h, [h, h, h + 1]) == h + 2
  {
    var s := [h, h, h + 1];
    assert Walk(s, 3) == h + 2;
    assert Walk(s, 2) == Walk(s, 3);
  }

  lemma ThirdFirst(h: nat)
    requires TextAtMost(h, h)
    ensures Reached(h, [h], [h + 1], [h, h, h + 1])
  {
    hide Reached, SortedAsText, TextAtMost;
    NoTryYet(h, [h]);
    SortedPair(h, h, [h], 1);
    assert ChosenPort(h, [h]) == h + 1;
    NextTry(h, [h], [], [h], [h], h + 1);
    assert [] + [h + 1] == [h + 1] && [h] + ([h] + [h + 1]) == [h, h, h + 1];
  }

  lemma ThirdSecond(h: nat)
    requires Reached(h, [h], [h + 1], [h, h, h + 1])
    requires TextAtMost(h, h) && TextAtMost(h, h + 1) && TextAtMost(h + 1, h + 1)
    ensures Offers(h, [h], [h + 1, h + 2])
  {
    hide Offers, Used, SortedAsText, TextAtMost, ChosenPort;
    SortedPair(h, h + 1, [h, h, h + 1], 2);
    WalkOfThree(h);
    NextTry(h, [h], [h + 1], [h, h, h + 1], [h, h, h + 1], h + 2);
    assert [h + 1] + [h + 2] == [h + 1, h + 2];
  }

  /** With only the port before the last one of a digit count used, and as the start port, the third
      try offers it. */
  lemma ThirdOfferIsUsed(d: nat, bound: set<nat>)
    requires d > 0 && Pow10(d) >= 10
    requires Pow10(d) - 2 in bound && Pow10(d) - 1 in bound && Pow10(d) in bound
    ensures var h := Pow10(d) - 2; Call(h, [h], bound, [h + 1, h + 2, h])
  {
    hide Offers, Reached, TextAtMost, TextLess, Numeral, Pow10;
    var h := Pow10(d) - 2;
    BelowNextDigit(d);
    TextOrderOf(h, h);
    TextOrderOf(h + 1, h + 1);
    ThirdFirst(h);
    ThirdSecond(h);
    AgainStep(h, [h], [h + 1, h + 2], h + 2);
    assert [h + 1, h + 2] + [h] == [h + 1, h + 2, h];
  }

  /** Every call whose start port and used ports lie in `lo..hi` offers pairwise distinct, unused
      ports, whatever is allocated. */
  ghost predicate CallsAreFresh(lo: nat, hi: nat) {
    forall start, base, bound, offered |
      lo <= start <= hi && Within(base, lo, hi) && Call(start, base, bound, offered) ::
      FreshOffers(base, offered)
  }

  /** The retries of a call work exactly in ranges where the ports that its last try can sort, up to
      two past the range, have as many digits as the lowest. */
  lemma CallsFreshIffSameDigits(lo: nat, hi: nat)
    requires lo <= hi
    ensures CallsAreFresh(lo, hi) <==> Digits(lo) == Digits(hi + MAX_RETRY - 1)
  {
    hide Digits, Offers;
    if Digits(lo) == Digits(hi + MAX_RETRY - 1) {
      forall start, base, bound, offered | lo <= start <= hi && Within(base, lo, hi) && Call(start, base, bound, offered)
        ensures FreshOffers(base, offered)
      {
        DigitsMonotone(lo, hi + |offered| - 1);
        DigitsMonotone(hi + |offered| - 1, hi + MAX_RETRY - 1);
        OffersAreFresh(start, base, offered, lo, hi);
      }
    } else {
      StaleCall(lo, hi);
    }
  }

  lemma StaleCall(lo: nat, hi: nat)
    requires lo <= hi && Digits(lo) != Digits(hi + MAX_RETRY - 1)
    ensures !CallsAreFresh(lo, hi)
  {
    hide Digits, Call, FreshOffers;
    var d := Digits(lo);
    var p := Pow10(d);
    DigitsMonotone(lo, hi + 2);
    DigitsBound(lo);
    DigitsBound(hi + 2);
    Pow10Monotone(d, Digits(hi + 2) - 1);
    assert lo < p <= hi + 2;
    BelowNextDigit(d);
    if p <= hi {
      SameOfferEveryTry(p - 1, p, {p - 1, p});
      Stale([p - 1, p], [p - 1, p - 1, p - 1], 0, 1);
      assert Within([p - 1, p], lo, hi);
    } else if p == hi + 1 {
      OfferRepeatsAcrossDigits(d, {p - 1, p});
      Stale([], [p - 1, p, p - 1], 0, 2);
      assert Within([], lo, hi);
    } else {
      ThirdOfferIsUsed(d, {p - 2, p - 1, p});
      StaleUsed([hi], [hi + 1, hi + 2, hi], 2);
      assert Within([hi], lo, hi);
    }
  }

  lemma Stale(base: seq<nat>, offered: seq<nat>, i: nat, j: nat)
    requires i < j < |offered| && offered[i] == offered[j]
    ensures !FreshOffers(base, offered)
  {
  }

  lemma StaleUsed(base: seq<nat>, offered: seq<nat>, i: nat)
    requires i < |offered| && offered[i] in base
    ensures !FreshOffers(base, offered)
  {
  }
}
