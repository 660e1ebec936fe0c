// One element before another in a list.
module Order {
  /** The one element comes before the other somewhere. */
  ghost predicate Before<T>(list: seq<T>, first: T, second: T) {
    exists i, j :: 0 <= i < j < |list| && list[i] == first && list[j] == second
  }

  lemma NothingBefore<T>(first: T, second: T)
    ensures !Before([], first, second)
  {
  }

  lemma BeforeSnoc<T>(list: seq<T>, last: T, first: T, second: T)
    ensures Before(list + [last], first, second) <==> Before(list, first, second) || (first in list && second == last)
  {
    var all := list + [last];
    if i, j :| 0 <= i < j < |all| && all[i] == first && all[j] == second {
      assert list[i] == first;
      assert j < |list| ==> list[j] == second;
    }
    if i, j :| 0 <= i < j < |list| && list[i] == first && list[j] == second {
      assert all[i] == first && all[j] == second;
    }
    if first in list && second == last {
      var i :| 0 <= i < |list| && list[i] == first;
      assert all[i] == first && all[|list|] == second;
    }
  }

  lemma BeforeGrows<T>(a: seq<T>, b: seq<T>, c: seq<T>, first: T, second: T)
    requires Before(b, first, second)
    ensures Before(a + b + c, first, second)
  {
    var i, j :| 0 <= i < j < |b| && b[i] == first && b[j] == second;
    assert (a + b + c)[|a| + i] == first && (a + b + c)[|a| + j] == second;
  }

  lemma BeforeLater<T>(head: T, list: seq<T>, first: T, second: T)
    requires Before(list, first, second)
    ensures Before([head] + list, first, second)
  {
    BeforeGrows([head], list, [], first, second);
    assert [head] + list + [] == [head] + list;
  }

  lemma BeforeHead<T>(head: T, list: seq<T>, second: T)
    requires second in list
    ensures Before([head] + list, head, second)
  {
    var b :| 0 <= b < |list| && list[b] == second;
    assert ([head] + list)[0] == head && ([head] + list)[b + 1] == second;
  }

  lemma BeforeIsIn<T>(list: seq<T>, first: T, second: T)
    requires Before(list, first, second)
    ensures first in list && second in list
  {
  }
}
