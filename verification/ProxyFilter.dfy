// The filter and page loops over merged upstreams, and the plain filter they amount to.
module ProxyFilter {
  import opened Wrappers
  import opened Order
  import opened ProxyView

  datatype Wanted = ByRef(refId: string) | ByStatus(status: ProxyStatus)

  predicate Matches(d: Downstream, wanted: Wanted) {
    match wanted
    case ByRef(refId) => d.refId == refId
    case ByStatus(status) => d.status == status
  }

  /** Only the DISABLE loop keeps a row without downstreams; the others stop at the first one. */
  predicate KeepsBare(wanted: Wanted) {
    wanted == ByStatus(Disable)
  }

  function Hits(ds: seq<Downstream>, wanted: Wanted): (n: nat)
    ensures n > 0 <==> exists d :: d in ds && Matches(d, wanted)
    ensures n <= |ds|
  {
    if ds == [] then 0
    else
      var k := |ds| - 1;
      var n := Hits(ds[..k], wanted);
      assert ds == ds[..k] + [ds[k]];
      if Matches(ds[k], wanted) then n + 1 else n
  }

  /** What a row should depend on: some downstream matches, or none is there and DISABLE is asked. */
  predicate Keep(u: Upstream, wanted: Wanted) {
    if u.proxyDownstream == [] then KeepsBare(wanted) else exists d :: d in u.proxyDownstream && Matches(d, wanted)
  }

  /** The plain order-preserving filter. */
  function Plain(list: seq<Upstream>, wanted: Wanted): (kept: seq<Upstream>)
    ensures forall u :: u in kept <==> u in list && Keep(u, wanted)
  {
    if list == [] then []
    else
      var n := |list| - 1;
      var kept := Plain(list[..n], wanted);
      assert list == list[..n] + [list[n]];
      if Keep(list[n], wanted) then kept + [list[n]] else kept
  }

  lemma PlainSnoc(list: seq<Upstream>, u: Upstream, wanted: Wanted)
    ensures Plain(list + [u], wanted) == Plain(list, wanted) + (if Keep(u, wanted) then [u] else [])
  {
    assert (list + [u])[..|list|] == list;
  }

  function Copies(u: Upstream, n: nat): (c: seq<Upstream>)
    ensures |c| == n && forall i :: 0 <= i < n ==> c[i] == u
  {
    seq(n, i => u)
  }

  /** The number of rows that the loop reads before it stops. */
  function Reach(list: seq<Upstream>, wanted: Wanted): (n: nat)
    ensures n <= |list|
    ensures forall i :: 0 <= i < n ==> list[i].proxyDownstream != [] || KeepsBare(wanted)
    ensures n < |list| ==> list[n].proxyDownstream == [] && !KeepsBare(wanted)
  {
    if list == [] then 0
    else
      var n := Reach(list[..|list| - 1], wanted);
      if n < |list| - 1 then n
      else if list[n].proxyDownstream == [] && !KeepsBare(wanted) then n else n + 1
  }

  /** The rows pushed for one upstream: one for each downstream that matches. */
  function Pushed(u: Upstream, wanted: Wanted): (rows: seq<Upstream>)
    ensures forall x :: x in rows ==> x == u
  {
    if u.proxyDownstream == [] then (if KeepsBare(wanted) then [u] else [])
    else Copies(u, Hits(u.proxyDownstream, wanted))
  }

  function AllPushed(list: seq<Upstream>, wanted: Wanted): (rows: seq<Upstream>)
    ensures forall x :: x in rows ==> x in list
  {
    if list == [] then []
    else AllPushed(list[..|list| - 1], wanted) + Pushed(list[|list| - 1], wanted)
  }

  lemma PushedSnoc(list: seq<Upstream>, i: nat, wanted: Wanted)
    requires i < |list|
    ensures AllPushed(list[..i + 1], wanted) == AllPushed(list[..i], wanted) + Pushed(list[i], wanted)
  {
    assert list[..i + 1][..i] == list[..i];
  }

  /** The inner loop: one push for each downstream that matches. */
  method PushMatches(kept: seq<Upstream>, u: Upstream, wanted: Wanted) returns (r: seq<Upstream>)
    ensures r == kept + Copies(u, Hits(u.proxyDownstream, wanted))
  {
    hide Matches;
    r := kept;
    for j := 0 to |u.proxyDownstream|
      invariant r == kept + Copies(u, Hits(u.proxyDownstream[..j], wanted))
    {
      assert u.proxyDownstream[..j + 1][..j] == u.proxyDownstream[..j];
      if Matches(u.proxyDownstream[j], wanted) {
        r := r + [u];
      }
    }
    assert u.proxyDownstream[..|u.proxyDownstream|] == u.proxyDownstream;
  }

  /** One of the outer loops, with its `break` or its `continue` at a row without downstreams. */
  method FilterLoop(list: seq<Upstream>, wanted: Wanted) returns (kept: seq<Upstream>)
    ensures kept == AllPushed(list[..Reach(list, wanted)], wanted)
  {
    hide AllPushed, Hits, Copies, KeepsBare;
    assert AllPushed(list[..0], wanted) == [] by { NothingPushed(wanted); }
    kept := [];
    for i := 0 to |list|
      invariant i <= Reach(list, wanted) && kept == AllPushed(list[..i], wanted)
    {
      PushedSnoc(list, i, wanted);
      var u := list[i];
      if |u.proxyDownstream| == 0 {
        if KeepsBare(wanted) {
          kept := kept + [u];
          continue;
        }
        break;
      }
      kept := PushMatches(kept, u, wanted);
    }
  }

  /** The loop for DISABLE reads every row and keeps a row without downstreams once; every other loop
      stops at the first such row. */
  lemma StopsAtBare(list: seq<Upstream>, wanted: Wanted)
    ensures wanted == ByStatus(Disable) ==> Reach(list, wanted) == |list|
    ensures wanted != ByStatus(Disable) ==>
              && (forall i :: 0 <= i < Reach(list, wanted) ==> list[i].proxyDownstream != [])
              && (Reach(list, wanted) < |list| ==> list[Reach(list, wanted)].proxyDownstream == [])
    ensures forall u: Upstream :: u.proxyDownstream == [] ==> Pushed(u, ByStatus(Disable)) == [u]
  {
  }

  lemma NothingPushed(wanted: Wanted)
    ensures AllPushed([], wanted) == []
  {
  }

  predicate MatchesOnce(u: Upstream, wanted: Wanted) {
    u.proxyDownstream != [] ==> Hits(u.proxyDownstream, wanted) <= 1
  }

  /** When a loop equals the plain filter of distinct rows: exactly when no row that it reads matches
      twice and no row beyond the one it stops at should have been kept. */
  lemma LoopIsPlainIff(list: seq<Upstream>, wanted: Wanted)
    requires forall i, j :: 0 <= i < j < |list| ==> list[i] != list[j]
    ensures AllPushed(list[..Reach(list, wanted)], wanted) == Plain(list, wanted) <==>
            && (forall i :: 0 <= i < Reach(list, wanted) ==> MatchesOnce(list[i], wanted))
            && (forall i :: Reach(list, wanted) <= i < |list| ==> !Keep(list[i], wanted))
  {
    hide AllPushed, Plain, Keep, MatchesOnce;
    var n := Reach(list, wanted);
    var head, tail := list[..n], list[n..];
    assert list == head + tail;
    PlainAppend(head, tail, wanted);
    PushedAtLeastPlain(head, wanted);
    PlainEmptyIff(tail, wanted);
    Disjoint(list, n);
    SameRowsIff(AllPushed(head, wanted), Plain(head, wanted), Plain(tail, wanted));
  }

  lemma Disjoint<T>(list: seq<T>, n: nat)
    requires n <= |list| && forall i, j :: 0 <= i < j < |list| ==> list[i] != list[j]
    ensures forall x :: x in list[..n] ==> x !in list[n..]
  {
  }

  lemma SameRowsIff<T>(pushed: seq<T>, plain: seq<T>, rest: seq<T>)
    requires |pushed| == |plain| ==> pushed == plain
    requires forall x :: x in rest ==> x !in pushed
    ensures pushed == plain + rest <==> |pushed| == |plain| && rest == []
  {
    if rest != [] {
      assert rest[|rest| - 1] in rest && rest[|rest| - 1] in plain + rest by {
        assert (plain + rest)[|plain + rest| - 1] == rest[|rest| - 1];
      }
    } else {
      assert plain + rest == plain;
    }
  }

  lemma {:induction false} PlainAppend(a: seq<Upstream>, b: seq<Upstream>, wanted: Wanted)
    ensures Plain(a + b, wanted) == Plain(a, wanted) + Plain(b, wanted)
  {
    hide Keep;
    if b == [] {
      assert a + b == a;
    } else {
      var n := |b| - 1;
      PlainAppend(a, b[..n], wanted);
      assert a + b == a + b[..n] + [b[n]] && b == b[..n] + [b[n]];
      PlainSnoc(a + b[..n], b[n], wanted);
      PlainSnoc(b[..n], b[n], wanted);
    }
  }

  lemma PlainEmptyIff(list: seq<Upstream>, wanted: Wanted)
    ensures Plain(list, wanted) == [] <==> forall u :: u in list ==> !Keep(u, wanted)
  {
    var kept := Plain(list, wanted);
    assert forall i :: 0 <= i < |kept| ==> kept[i] in kept;
  }

  lemma {:induction false} PlainOfOne(list: seq<Upstream>, wanted: Wanted, k: nat)
    requires forall i :: 0 <= i < |list| && i != k ==> !Keep(list[i], wanted)
    ensures Plain(list, wanted) == if k < |list| && Keep(list[k], wanted) then [list[k]] else []
  {
    hide Keep;
    if list != [] {
      PlainOfOne(list[..|list| - 1], wanted, k);
    }
  }

  lemma PushedOfOne(u: Upstream, wanted: Wanted)
    requires u.proxyDownstream != [] || KeepsBare(wanted)
    ensures Keep(u, wanted) <==> |Pushed(u, wanted)| > 0
    ensures MatchesOnce(u, wanted) <==> |Pushed(u, wanted)| <= 1
  {
  }

  /** On rows that the loop reads it pushes at least what the filter keeps, and exactly that when no
      row matches twice. */
  lemma {:induction false} PushedAtLeastPlain(list: seq<Upstream>, wanted: Wanted)
    requires forall u :: u in list ==> u.proxyDownstream != [] || KeepsBare(wanted)
    ensures |AllPushed(list, wanted)| >= |Plain(list, wanted)|
    ensures |AllPushed(list, wanted)| == |Plain(list, wanted)| <==> forall i :: 0 <= i < |list| ==> MatchesOnce(list[i], wanted)
    ensures |AllPushed(list, wanted)| == |Plain(list, wanted)| ==> AllPushed(list, wanted) == Plain(list, wanted)
  {
    if list != [] {
      var n := |list| - 1;
      assert list == list[..n] + [list[n]];
      assert list[n] in list;
      PushedAtLeastPlain(list[..n], wanted);
      hide Keep, MatchesOnce, Pushed, KeepsBare;
      PushedOfOne(list[n], wanted);
      assert forall i :: 0 <= i < n ==> list[..n][i] == list[i];
    }
  }

  /** Merged upstreams have exactly one downstream each, so on them the loops are the filter. */
  lemma OneDownstreamIsPlain(list: seq<Upstream>, wanted: Wanted)
    requires forall u :: u in list ==> |u.proxyDownstream| == 1
    ensures AllPushed(list[..Reach(list, wanted)], wanted) == Plain(list, wanted)
  {
    assert forall i :: 0 <= i < |list| ==> list[i] in list;
    assert list[..Reach(list, wanted)] == list;
    PushedAtLeastPlain(list, wanted);
  }

  // Pages.

  function Min(a: nat, b: nat): (m: nat)
    ensures m <= a && m <= b && (m == a || m == b)
  {
    if a < b then a else b
  }

  /** `slice((page - 1) * limit, page * limit)`, with both ends cut at the length. */
  function Page<T>(list: seq<T>, page: nat, limit: nat): seq<T>
    requires page > 0
  {
    var start := Min((page - 1) * limit, |list|);
    list[start..start + Min(limit, |list| - start)]
  }

  function Pages<T>(list: seq<T>, count: nat, limit: nat): seq<T> {
    if count == 0 then [] else Pages(list, count - 1, limit) + Page(list, count, limit)
  }

  /** The first pages, put together, are the front of the list; enough of them are all of it. */
  lemma {:induction false} PagesAreThePrefix<T>(list: seq<T>, count: nat, limit: nat)
    ensures Pages(list, count, limit) == list[..Min(count * limit, |list|)]
    ensures count * limit >= |list| ==> Pages(list, count, limit) == list
  {
    if count > 0 {
      PagesAreThePrefix(list, count - 1, limit);
      assert count * limit == (count - 1) * limit + limit;
    }
  }

  datatype Filter = Filter(listenPort: Option<nat>, refId: Option<string>, status: Option<ProxyStatus>,
                           page: nat, limit: nat, skipPagination: bool)

  function OnPort(list: seq<Upstream>, port: nat): (kept: seq<Upstream>)
    ensures forall u :: u in kept <==> u in list && u.listenPort == port
  {
    if list == [] then []
    else
      var n := |list| - 1;
      var kept := OnPort(list[..n], port);
      assert list == list[..n] + [list[n]];
      if list[n].listenPort == port then kept + [list[n]] else kept
  }

  /** Everything that the filter asks of a row. */
  function Wished(list: seq<Upstream>, f: Filter): (kept: seq<Upstream>)
    ensures forall u :: u in kept <==> u in list && (f.listenPort.Some? ==> u.listenPort == f.listenPort.value)
                                       && (f.refId.Some? ==> Keep(u, ByRef(f.refId.value)))
                                       && (f.status.Some? ==> Keep(u, ByStatus(f.status.value)))
  {
    var a := if f.listenPort.Some? then OnPort(list, f.listenPort.value) else list;
    var b := if f.refId.Some? then Plain(a, ByRef(f.refId.value)) else a;
    if f.status.Some? then Plain(b, ByStatus(f.status.value)) else b
  }

  /** What the loops keep of the list, one after the other. */
  function Looped(list: seq<Upstream>, f: Filter): seq<Upstream> {
    var a := if f.listenPort.Some? then OnPort(list, f.listenPort.value) else list;
    var b := if f.refId.Some? then AllPushed(a[..Reach(a, ByRef(f.refId.value))], ByRef(f.refId.value)) else a;
    if f.status.Some? then AllPushed(b[..Reach(b, ByStatus(f.status.value))], ByStatus(f.status.value)) else b
  }

  /** On upstreams as the merge makes them the loops keep exactly what the filter asks. */
  lemma MergedIsWished(list: seq<Upstream>, f: Filter)
    requires forall u :: u in list ==> |u.proxyDownstream| == 1
    ensures Looped(list, f) == Wished(list, f)
  {
    hide AllPushed, Reach, Keep;
    var a := if f.listenPort.Some? then OnPort(list, f.listenPort.value) else list;
    if f.refId.Some? {
      OneDownstreamIsPlain(a, ByRef(f.refId.value));
    }
    var b := if f.refId.Some? then Plain(a, ByRef(f.refId.value)) else a;
    if f.status.Some? {
      OneDownstreamIsPlain(b, ByStatus(f.status.value));
    }
  }

  /** What the filter asks of a merged row, by its fields. */
  predicate Meets(u: Upstream, f: Filter) {
    && (f.listenPort.Some? ==> u.listenPort == f.listenPort.value)
    && |u.proxyDownstream| == 1
    && (f.refId.Some? ==> u.proxyDownstream[0].refId == f.refId.value)
    && (f.status.Some? ==> u.proxyDownstream[0].status == f.status.value)
  }

  lemma OnPortSnoc(list: seq<Upstream>, u: Upstream, port: nat)
    ensures OnPort(list + [u], port) == OnPort(list, port) + (if u.listenPort == port then [u] else [])
  {
    assert (list + [u])[..|list|] == list;
  }

  /** A merged row comes at the end when it meets the filter, and adds nothing otherwise. */
  lemma WishedSnoc(list: seq<Upstream>, u: Upstream, f: Filter)
    requires |u.proxyDownstream| == 1
    ensures Wished(list + [u], f) == Wished(list, f) + (if Meets(u, f) then [u] else [])
  {
    hide OnPort, Plain, Keep;
    KeepOfOne(u, f);
    var a, add := list, true;
    if f.listenPort.Some? {
      OnPortSnoc(list, u, f.listenPort.value);
      a, add := OnPort(list, f.listenPort.value), u.listenPort == f.listenPort.value;
    }
    var b, more := a, add;
    NothingAdded(a);
    if f.refId.Some? {
      PlainSnoc(a, u, ByRef(f.refId.value));
      b, more := Plain(a, ByRef(f.refId.value)), add && u.proxyDownstream[0].refId == f.refId.value;
    }
    NothingAdded(b);
    if f.status.Some? {
      PlainSnoc(b, u, ByStatus(f.status.value));
      NothingAdded(Plain(b, ByStatus(f.status.value)));
    }
  }

  lemma KeepOfOne(u: Upstream, f: Filter)
    requires |u.proxyDownstream| == 1
    ensures f.refId.Some? ==> (Keep(u, ByRef(f.refId.value)) <==> u.proxyDownstream[0].refId == f.refId.value)
    ensures f.status.Some? ==> (Keep(u, ByStatus(f.status.value)) <==> u.proxyDownstream[0].status == f.status.value)
  {
    assert u.proxyDownstream[0] in u.proxyDownstream;
  }

  lemma NothingAdded(list: seq<Upstream>)
    ensures list + [] == list
  {
  }

  /** The filtered list: each row that meets the filter as often as in the list, no other row, and the
      order of the list. */
  ghost predicate FilteredAs(list: seq<Upstream>, f: Filter, kept: seq<Upstream>) {
    && (forall u :: multiset(kept)[u] == if Meets(u, f) then multiset(list)[u] else 0)
    && forall u, v :: Meets(u, f) && Meets(v, f) && Before(list, u, v) ==> Before(kept, u, v)
  }

  lemma {:induction false} WishedCounts(list: seq<Upstream>, f: Filter, u: Upstream)
    requires forall v :: v in list ==> |v.proxyDownstream| == 1
    ensures multiset(Wished(list, f))[u] == if Meets(u, f) then multiset(list)[u] else 0
  {
    hide Wished, Meets;
    if list == [] {
      WishedNothing(f);
    } else {
      var n := |list| - 1;
      assert list == list[..n] + [list[n]];
      WishedCounts(list[..n], f, u);
      WishedSnoc(list[..n], list[n], f);
    }
  }

  lemma WishedNothing(f: Filter)
    ensures Wished([], f) == []
  {
  }

  lemma {:induction false} WishedInOrder(list: seq<Upstream>, f: Filter, u: Upstream, v: Upstream)
    requires forall x :: x in list ==> |x.proxyDownstream| == 1
    requires Meets(u, f) && Meets(v, f) && Before(list, u, v)
    ensures Before(Wished(list, f), u, v)
  {
    hide Wished, Meets;
    var n := |list| - 1;
    var init, last := list[..n], list[n];
    assert list == init + [last];
    WishedSnoc(init, last, f);
    var i, j :| 0 <= i < j < |list| && list[i] == u && list[j] == v;
    if j < n {
      assert Before(init, u, v);
      WishedInOrder(init, f, u, v);
      BeforeGrows([], Wished(init, f), if Meets(last, f) then [last] else [], u, v);
      assert [] + Wished(init, f) == Wished(init, f);
    } else {
      assert init[i] == u;
      WishedCounts(init, f, u);
      BeforeSnoc(Wished(init, f), v, u, v);
    }
  }

  /** On merged rows the loops filter by the fields, keeping multiplicity and order. */
  lemma MergedIsFiltered(list: seq<Upstream>, f: Filter)
    requires forall u :: u in list ==> |u.proxyDownstream| == 1
    ensures FilteredAs(list, f, Looped(list, f))
  {
    hide Wished, Meets, Before, Looped;
    MergedIsWished(list, f);
    forall u {
      WishedCounts(list, f, u);
    }
    forall u, v | Meets(u, f) && Meets(v, f) && Before(list, u, v)
      ensures Before(Wished(list, f), u, v)
    {
      WishedInOrder(list, f, u, v);
    }
  }

  /** `filterAndSortProxyUpstream` without a sort, on any upstreams. */
  method FilterUpstreams(list: seq<Upstream>, f: Filter) returns (rows: seq<Upstream>, total: nat)
    requires f.page > 0
    ensures total == |Looped(list, f)|
    ensures rows == if f.skipPagination then Looped(list, f) else Page(Looped(list, f), f.page, f.limit)
    ensures (forall u :: u in list ==> |u.proxyDownstream| == 1) ==>
              Looped(list, f) == Wished(list, f) && FilteredAs(list, f, Looped(list, f))
  {
    hide AllPushed, Reach, OnPort, FilteredAs;
    var dataList := list;
    if f.listenPort.Some? {
      dataList := OnPort(dataList, f.listenPort.value);
    }
    if f.refId.Some? {
      dataList := FilterLoop(dataList, ByRef(f.refId.value));
    }
    if f.status.Some? {
      dataList := FilterLoop(dataList, ByStatus(f.status.value));
    }
    total := |dataList|;
    rows := if f.skipPagination then dataList else Page(dataList, f.page, f.limit);
    if forall u :: u in list ==> |u.proxyDownstream| == 1 {
      MergedIsWished(list, f);
      MergedIsFiltered(list, f);
    }
  }
}
