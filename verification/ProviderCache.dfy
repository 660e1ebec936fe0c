// The provider repository behind its cache of provider identities by id.
module ProviderCache {
  import opened Wrappers
  import PF = ProxyFilter

  /** A proposal of the Mysterium API. */
  datatype Row = Row(identity: string, ipType: string, country: string)

  datatype Provider = Provider(id: string, identity: string, ipType: string, country: string, ip: Option<string>)

  /** What a MYST_CONNECT container reports: its address and its provider, or text that does not parse. */
  datatype Info = Malformed | Info(ip: string, identity: string)

  /** The two groups of keys in the store: `myst_provider:tmp:id` and `myst_provider:info:all`. */
  datatype Store = Store(tmp: map<string, string>, info: map<string, Info>)

  const IP_TYPES := {"hosting", "residential", "business", "mobile", "organization", "education"}

  ghost predicate Injective(idOf: string -> string) {
    forall a, b :: idOf(a) == idOf(b) ==> a == b
  }

  /** `_fillModel`. */
  function Fill(idOf: string -> string, row: Row): Option<Provider> {
    if row.ipType in IP_TYPES then Some(Provider(idOf(row.identity), row.identity, row.ipType, row.country, None)) else None
  }

  function Filled(idOf: string -> string, rows: seq<Row>): seq<Provider> {
    if rows == [] then []
    else
      var n := |rows| - 1;
      var p := Fill(idOf, rows[n]);
      Filled(idOf, rows[..n]) + (if p.Some? then [p.value] else [])
  }

  // The same in plain words.

  predicate Usable(row: Row) {
    row.ipType in ["hosting", "residential", "business", "mobile", "organization", "education"]
  }

  /** The provider is what this row says, its address aside. */
  predicate SaysRow(idOf: string -> string, row: Row, p: Provider) {
    p.id == idOf(row.identity) && p.identity == row.identity && p.ipType == row.ipType && p.country == row.country
  }

  /** Some usable row says the provider. */
  ghost predicate Sourced(idOf: string -> string, rows: seq<Row>, p: Provider) {
    exists r :: r in rows && Usable(r) && SaysRow(idOf, r, p)
  }

  /** Some provider says the row. */
  ghost predicate Served(idOf: string -> string, r: Row, value: seq<Provider>) {
    exists p :: p in value && SaysRow(idOf, r, p)
  }

  lemma FillMeans(idOf: string -> string, row: Row)
    ensures Fill(idOf, row).Some? <==> Usable(row)
    ensures Usable(row) ==> SaysRow(idOf, row, Fill(idOf, row).value) && Fill(idOf, row).value.ip == None
  {
  }

  /** A row adds its provider at the end when it is usable, and nothing otherwise. */
  lemma FilledSnoc(idOf: string -> string, rows: seq<Row>, row: Row)
    ensures Filled(idOf, []) == []
    ensures !Usable(row) ==> Filled(idOf, rows + [row]) == Filled(idOf, rows)
    ensures Usable(row) ==>
              exists p :: SaysRow(idOf, row, p) && p.ip == None && Filled(idOf, rows + [row]) == Filled(idOf, rows) + [p]
  {
    FillMeans(idOf, row);
    assert (rows + [row])[..|rows|] == rows;
    if Usable(row) {
      var p := Fill(idOf, row).value;
      assert SaysRow(idOf, row, p) && p.ip == None && Filled(idOf, rows + [row]) == Filled(idOf, rows) + [p];
    }
  }

  /** A provider is among the served ones exactly when it says a usable row and has no address yet. */
  lemma {:induction false} FilledMeans(idOf: string -> string, rows: seq<Row>, p: Provider)
    ensures p in Filled(idOf, rows) <==> p.ip == None && Sourced(idOf, rows, p)
  {
    if rows != [] {
      var n := |rows| - 1;
      assert rows == rows[..n] + [rows[n]];
      FilledMeans(idOf, rows[..n], p);
      FilledSnoc(idOf, rows[..n], rows[n]);
      hide Filled, Usable;
      OneMore(rows[..n], rows[n]);
    }
  }

  lemma OneMore(rows: seq<Row>, row: Row)
    ensures forall r :: r in rows + [row] <==> r in rows || r == row
  {
  }

  /** When all rows are usable there is one provider for each row, in their order. */
  lemma {:induction false} FilledInOrder(idOf: string -> string, rows: seq<Row>)
    requires forall r :: r in rows ==> Usable(r)
    ensures |Filled(idOf, rows)| == |rows| && forall i :: 0 <= i < |rows| ==> SaysRow(idOf, rows[i], Filled(idOf, rows)[i])
  {
    hide Usable;
    if rows != [] {
      var n := |rows| - 1;
      assert rows == rows[..n] + [rows[n]];
      assert rows[n] in rows;
      FilledInOrder(idOf, rows[..n]);
      FillMeans(idOf, rows[n]);
    }
  }

  /** The proposals of one identity, as the API selects them by `provider_id`. */
  function Of(rows: seq<Row>, identity: string): (own: seq<Row>)
    ensures forall r :: r in own <==> r in rows && r.identity == identity
  {
    if rows == [] then []
    else
      var n := |rows| - 1;
      var own := Of(rows[..n], identity);
      assert rows == rows[..n] + [rows[n]];
      if rows[n].identity == identity then own + [rows[n]] else own
  }

  /** The proposals whose identity generates the id. */
  function WithId(idOf: string -> string, rows: seq<Row>, id: string): seq<Row> {
    if rows == [] then []
    else
      var n := |rows| - 1;
      WithId(idOf, rows[..n], id) + (if idOf(rows[n].identity) == id then [rows[n]] else [])
  }

  /** What a cache hit fetches: the first usable proposal of the identity. */
  function Hit(idOf: string -> string, rows: seq<Row>, identity: string): Option<Provider> {
    var found := PF.Page(Filled(idOf, Of(rows, identity)), 1, 100);
    if found == [] then None else Some(found[0])
  }

  /** What a cache miss fetches: the proposal of the id, when it is the only one. */
  function Miss(idOf: string -> string, rows: seq<Row>, id: string): Option<Provider> {
    var found := WithId(idOf, rows, id);
    if |found| == 1 then Fill(idOf, found[0]) else None
  }

  /** The first usable proposal of the identity stands here. */
  ghost predicate FirstUsable(rows: seq<Row>, identity: string, i: int) {
    && 0 <= i < |rows| && rows[i].identity == identity && Usable(rows[i])
    && forall j :: 0 <= j < i ==> rows[j].identity != identity || !Usable(rows[j])
  }

  lemma NoneUsable(idOf: string -> string, rows: seq<Row>, identity: string)
    ensures Filled(idOf, Of(rows, identity)) == [] <==> forall r :: r in rows && r.identity == identity ==> !Usable(r)
  {
    FilledNonEmpty(idOf, Of(rows, identity));
  }

  lemma {:induction false} FirstOfIdentity(idOf: string -> string, rows: seq<Row>, identity: string, i: int)
    requires FirstUsable(rows, identity, i)
    ensures var found := Filled(idOf, Of(rows, identity));
            found != [] && SaysRow(idOf, rows[i], found[0]) && found[0].ip == None
  {
    hide Usable, SaysRow, Filled;
    var n := |rows| - 1;
    var init := rows[..n];
    FilledSnoc(idOf, Of(init, identity), rows[n]);
    if i < n {
      FirstOfIdentity(idOf, init, identity, i);
    } else {
      NoneUsable(idOf, init, identity);
    }
  }

  lemma {:induction false} FirstExists(rows: seq<Row>, identity: string) returns (i: int)
    requires exists r :: r in rows && r.identity == identity && Usable(r)
    ensures FirstUsable(rows, identity, i)
  {
    hide Usable;
    var n := |rows| - 1;
    var init := rows[..n];
    assert rows == init + [rows[n]];
    if exists r :: r in init && r.identity == identity && Usable(r) {
      i := FirstExists(init, identity);
    } else {
      i := n;
      assert forall j :: 0 <= j < n ==> rows[j] in init;
    }
  }

  /** A hit is the first usable proposal of the identity, and there is none exactly when no proposal
      of the identity is usable. */
  lemma HitMeans(idOf: string -> string, rows: seq<Row>, identity: string)
    ensures Hit(idOf, rows, identity).Some? <==> exists r :: r in rows && r.identity == identity && Usable(r)
    ensures Hit(idOf, rows, identity).Some? ==>
              exists i :: FirstUsable(rows, identity, i) && SaysRow(idOf, rows[i], Hit(idOf, rows, identity).value)
                          && Hit(idOf, rows, identity).value.ip == None
  {
    hide Usable, SaysRow, Filled, Of;
    NoneUsable(idOf, rows, identity);
    if exists r :: r in rows && r.identity == identity && Usable(r) {
      var i := FirstExists(rows, identity);
      FirstOfIdentity(idOf, rows, identity, i);
    }
  }

  /** One proposal, and no other, generates the id. */
  ghost predicate OnlyOne(idOf: string -> string, rows: seq<Row>, id: string, i: int) {
    0 <= i < |rows| && forall j :: 0 <= j < |rows| ==> (idOf(rows[j].identity) == id <==> j == i)
  }

  lemma {:induction false} WithIdNone(idOf: string -> string, rows: seq<Row>, id: string)
    ensures WithId(idOf, rows, id) == [] <==> forall j :: 0 <= j < |rows| ==> idOf(rows[j].identity) != id
  {
    if rows != [] {
      var n := |rows| - 1;
      WithIdNone(idOf, rows[..n], id);
      assert forall j :: 0 <= j < n ==> rows[..n][j] == rows[j];
    }
  }

  lemma {:induction false} WithIdOne(idOf: string -> string, rows: seq<Row>, id: string, i: int)
    requires OnlyOne(idOf, rows, id, i)
    ensures WithId(idOf, rows, id) == [rows[i]]
  {
    var n := |rows| - 1;
    WithIdNone(idOf, rows[..n], id);
    if i < n {
      WithIdOne(idOf, rows[..n], id, i);
    }
  }

  lemma {:induction false} OneWithId(idOf: string -> string, rows: seq<Row>, id: string) returns (i: int)
    requires |WithId(idOf, rows, id)| == 1
    ensures OnlyOne(idOf, rows, id, i)
  {
    var n := |rows| - 1;
    WithIdNone(idOf, rows[..n], id);
    if idOf(rows[n].identity) == id {
      i := n;
      assert forall j :: 0 <= j < n ==> rows[..n][j] == rows[j];
    } else {
      i := OneWithId(idOf, rows[..n], id);
      assert forall j :: 0 <= j < n ==> rows[..n][j] == rows[j];
    }
  }

  /** A miss is the proposal that generates the id, when there is exactly one and it is usable. */
  lemma MissMeans(idOf: string -> string, rows: seq<Row>, id: string)
    ensures Miss(idOf, rows, id).Some? <==> exists i :: OnlyOne(idOf, rows, id, i) && Usable(rows[i])
    ensures Miss(idOf, rows, id).Some? ==>
              exists i :: OnlyOne(idOf, rows, id, i) && SaysRow(idOf, rows[i], Miss(idOf, rows, id).value)
                          && Miss(idOf, rows, id).value.ip == None
  {
    hide Usable, SaysRow, WithId, Fill;
    if Miss(idOf, rows, id).Some? {
      var i := OneWithId(idOf, rows, id);
      WithIdOne(idOf, rows, id, i);
      FillMeans(idOf, rows[i]);
    }
    if i :| OnlyOne(idOf, rows, id, i) && Usable(rows[i]) {
      WithIdOne(idOf, rows, id, i);
      FillMeans(idOf, rows[i]);
    }
  }

  lemma {:induction false} InjectiveSelects(idOf: string -> string, rows: seq<Row>, identity: string)
    requires Injective(idOf)
    ensures WithId(idOf, rows, idOf(identity)) == Of(rows, identity)
  {
    if rows != [] {
      InjectiveSelects(idOf, rows[..|rows| - 1], identity);
    }
  }

  lemma {:induction false} FilledNonEmpty(idOf: string -> string, rows: seq<Row>)
    ensures Filled(idOf, rows) == [] <==> forall r :: r in rows ==> r.ipType !in IP_TYPES
  {
    if rows != [] {
      var n := |rows| - 1;
      FilledNonEmpty(idOf, rows[..n]);
      assert rows == rows[..n] + [rows[n]];
      assert rows[n] in rows;
    }
  }

  /** A hit and a miss agree exactly when the identity has one proposal or no usable one. */
  lemma HitIsMissIff(idOf: string -> string, rows: seq<Row>, identity: string)
    requires Injective(idOf)
    ensures Hit(idOf, rows, identity) == Miss(idOf, rows, idOf(identity)) <==>
            |Of(rows, identity)| == 1 || forall r :: r in rows && r.identity == identity ==> r.ipType !in IP_TYPES
  {
    hide Of, Injective;
    var own := Of(rows, identity);
    InjectiveSelects(idOf, rows, identity);
    FilledNonEmpty(idOf, own);
    if |own| == 1 {
      assert own[..0] == [];
      assert Filled(idOf, own[..0]) == [];
    }
  }

  predicate IdentitiesUnique(rows: seq<Row>) {
    forall i, j :: 0 <= i < j < |rows| ==> rows[i].identity != rows[j].identity
  }

  lemma {:induction false} OfNone(rows: seq<Row>, identity: string)
    requires forall i :: 0 <= i < |rows| ==> rows[i].identity != identity
    ensures Of(rows, identity) == []
  {
    if rows != [] {
      OfNone(rows[..|rows| - 1], identity);
    }
  }

  lemma {:induction false} UniqueHasOne(rows: seq<Row>, identity: string)
    requires IdentitiesUnique(rows)
    ensures |Of(rows, identity)| <= 1
  {
    if rows != [] {
      var n := |rows| - 1;
      if rows[n].identity == identity {
        OfNone(rows[..n], identity);
      } else {
        UniqueHasOne(rows[..n], identity);
      }
    }
  }

  lemma UniqueHitIsMiss(idOf: string -> string, rows: seq<Row>, identity: string)
    requires Injective(idOf) && IdentitiesUnique(rows)
    ensures Hit(idOf, rows, identity) == Miss(idOf, rows, idOf(identity))
  {
    hide Hit, Miss, Injective;
    UniqueHasOne(rows, identity);
    HitIsMissIff(idOf, rows, identity);
    assert forall r :: r in rows && r.identity == identity ==> r in Of(rows, identity);
  }

  // What the store holds over any run.

  /** Every cached id is the id of the identity that it maps to. */
  ghost predicate Faithful(idOf: string -> string, s: Store) {
    && (forall id :: id in s.tmp ==> idOf(s.tmp[id]) == id)
    && forall id :: id in s.info && s.info[id].Info? ==> idOf(s.info[id].identity) == id
  }

  /** What changes the store: a listing, keys that expire, a MYST_CONNECT container that reports on
      the provider it was started for, a report that is damaged, and one that is taken back. */
  datatype Event = Listed(providers: seq<Provider>) | Expired(gone: set<string>) | Reported(identity: string, ip: string)
                 | Damaged(id: string) | TakenBack(id: string)

  function Cached(tmp: map<string, string>, providers: seq<Provider>): map<string, string> {
    if providers == [] then tmp
    else
      var p := providers[|providers| - 1];
      Cached(tmp, providers[..|providers| - 1])[p.id := p.identity]
  }

  function After(idOf: string -> string, s: Store, e: Event): Store {
    match e
    case Listed(providers) => s.(tmp := Cached(s.tmp, providers))
    case Expired(gone) => s.(tmp := s.tmp - gone)
    case Reported(identity, ip) => s.(info := s.info[idOf(identity) := Info(ip, identity)])
    case Damaged(id) => s.(info := s.info[id := Malformed])
    case TakenBack(id) => s.(info := s.info - {id})
  }

  /** A listing holds providers as `Fill` makes them. */
  ghost predicate Genuine(idOf: string -> string, e: Event) {
    e.Listed? ==> forall p :: p in e.providers ==> p.id == idOf(p.identity)
  }

  function AfterAll(idOf: string -> string, s: Store, events: seq<Event>): Store {
    if events == [] then s else After(idOf, AfterAll(idOf, s, events[..|events| - 1]), events[|events| - 1])
  }

  lemma {:induction false} CachedKeeps(idOf: string -> string, tmp: map<string, string>, providers: seq<Provider>)
    requires forall id :: id in tmp ==> idOf(tmp[id]) == id
    requires forall p :: p in providers ==> p.id == idOf(p.identity)
    ensures forall id :: id in Cached(tmp, providers) ==> idOf(Cached(tmp, providers)[id]) == id
    ensures forall p :: p in providers ==> p.id in Cached(tmp, providers)
  {
    if providers != [] {
      var n := |providers| - 1;
      assert providers == providers[..n] + [providers[n]];
      assert providers[n] in providers;
      CachedKeeps(idOf, tmp, providers[..n]);
    }
  }

  /** A listing caches the identity of each of its providers under its id, and changes nothing else. */
  lemma {:induction false} CachedMeans(idOf: string -> string, tmp: map<string, string>, providers: seq<Provider>, id: string)
    requires Injective(idOf) && forall p :: p in providers ==> p.id == idOf(p.identity)
    ensures id in Cached(tmp, providers) <==> id in tmp || exists p :: p in providers && p.id == id
    ensures forall p :: p in providers && p.id == id ==> id in Cached(tmp, providers) && Cached(tmp, providers)[id] == p.identity
    ensures id in tmp && (forall p :: p in providers ==> p.id != id) ==> Cached(tmp, providers)[id] == tmp[id]
  {
    if providers != [] {
      var n := |providers| - 1;
      assert providers == providers[..n] + [providers[n]];
      assert providers[n] in providers;
      CachedMeans(idOf, tmp, providers[..n], id);
    }
  }

  lemma AfterKeeps(idOf: string -> string, s: Store, e: Event)
    requires Faithful(idOf, s) && Genuine(idOf, e)
    ensures Faithful(idOf, After(idOf, s, e))
  {
    if e.Listed? {
      CachedKeeps(idOf, s.tmp, e.providers);
    }
  }

  lemma {:induction false} RunIsFaithful(idOf: string -> string, s: Store, events: seq<Event>)
    requires Faithful(idOf, s) && forall e :: e in events ==> Genuine(idOf, e)
    ensures Faithful(idOf, AfterAll(idOf, s, events))
  {
    hide Faithful, Genuine;
    if events != [] {
      var n := |events| - 1;
      assert events == events[..n] + [events[n]];
      assert events[n] in events;
      RunIsFaithful(idOf, s, events[..n]);
      AfterKeeps(idOf, AfterAll(idOf, s, events[..n]), events[n]);
    }
  }

  /** `_getProviderIdCache`: the empty identity counts as none. */
  function Lookup(s: Store, id: string): Option<string> {
    if id in s.tmp && s.tmp[id] != "" then Some(s.tmp[id])
    else if id in s.info && s.info[id].Info? && s.info[id].identity != "" then Some(s.info[id].identity)
    else None
  }

  /** The address reported for a provider, if any. */
  function IpOf(s: Store, id: string): Option<string> {
    if id in s.info && s.info[id].Info? && s.info[id].ip != "" then Some(s.info[id].ip) else None
  }

  /** The identity that a lookup finds: the cached one, or else the reported one, and never an empty one. */
  lemma LookupMeans(s: Store, id: string, identity: string)
    ensures Lookup(s, id) == Some(identity) <==>
            identity != "" &&
            if id in s.tmp && s.tmp[id] != "" then s.tmp[id] == identity
            else id in s.info && s.info[id].Info? && s.info[id].identity == identity
  {
  }

  /** The store has this address for the id. */
  predicate Reports(s: Store, id: string, ip: string) {
    id in s.info && s.info[id].Info? && s.info[id].ip == ip && ip != ""
  }

  lemma IpMeans(s: Store, id: string)
    ensures forall ip :: IpOf(s, id) == Some(ip) <==> Reports(s, id, ip)
  {
  }

  function WithoutIp(p: Option<Provider>): Option<Provider> {
    if p.Some? then Some(p.value.(ip := None)) else None
  }

  /** After any run from an empty store, whatever a lookup finds leads to the provider that the API
      gives for the id. */
  lemma LookupServesSame(idOf: string -> string, events: seq<Event>, rows: seq<Row>, id: string)
    requires Injective(idOf) && IdentitiesUnique(rows) && forall e :: e in events ==> Genuine(idOf, e)
    ensures var found := Lookup(AfterAll(idOf, Store(map[], map[]), events), id);
            found.Some? ==> idOf(found.value) == id && Hit(idOf, rows, found.value) == Miss(idOf, rows, id)
  {
    hide Injective, Hit, Miss, IdentitiesUnique;
    RunIsFaithful(idOf, Store(map[], map[]), events);
    var found := Lookup(AfterAll(idOf, Store(map[], map[]), events), id);
    if found.Some? {
      UniqueHitIsMiss(idOf, rows, found.value);
    }
  }

  lemma {:induction false} FilledIsGenuine(idOf: string -> string, rows: seq<Row>)
    ensures forall p :: p in Filled(idOf, rows) ==> p.id == idOf(p.identity) && p.ip == None
  {
    if rows != [] {
      FilledIsGenuine(idOf, rows[..|rows| - 1]);
    }
  }

  /** Without a filter, and with one on `isRegister`, the API repository returns the whole list. */
  datatype Paging = Unpaged | Paged(page: nat, limit: nat)

  /** What the API repository returns of the filled rows; a page or a limit of 0 counts as none. */
  function ApiPage(all: seq<Provider>, paging: Paging): (list: seq<Provider>)
    ensures forall p :: p in list ==> p in all
  {
    match paging
    case Unpaged => all
    case Paged(page, limit) => if page == 0 || limit == 0 then all else PF.Page(all, page, limit)
  }

  predicate BeyondTheEnd(total: nat, paging: Paging) {
    paging.Paged? && paging.page > 0 && paging.limit > 0 && (paging.page - 1) * paging.limit >= total
  }

  lemma EmptyPageIff(all: seq<Provider>, paging: Paging)
    requires all != []
    ensures ApiPage(all, paging) == [] <==> BeyondTheEnd(|all|, paging)
  {
  }

  /** The first row of the page. */
  function StartOf(paging: Paging): nat {
    if paging.Unpaged? || paging.page == 0 || paging.limit == 0 then 0 else (paging.page - 1) * paging.limit
  }

  /** The page is the stretch of the list from its first row on, cut after `limit` rows. */
  lemma ApiPageMeans(all: seq<Provider>, paging: Paging)
    requires StartOf(paging) <= |all|
    ensures var list, start := ApiPage(all, paging), StartOf(paging);
            && start + |list| <= |all|
            && list == all[start..start + |list|]
            && (start + |list| == |all| || (paging.Paged? && |list| == paging.limit))
            && (paging.Paged? && paging.page > 0 && paging.limit > 0 ==> |list| <= paging.limit)
  {
  }

  /** What a listing answers: providers that say usable rows, each with the address reported for it,
      and with all rows usable the rows of the page one by one. */
  ghost predicate ListAnswers(idOf: string -> string, s: Store, rows: seq<Row>, paging: Paging, value: seq<Provider>) {
    && (forall p :: p in value ==> Sourced(idOf, rows, p))
    && (forall p :: p in value ==> forall ip :: p.ip == Some(ip) <==> Reports(s, p.id, ip))
    && (paging.Unpaged? ==> forall r :: r in rows && Usable(r) ==> Served(idOf, r, value))
    && ((forall r :: r in rows ==> Usable(r)) && rows != [] ==>
          && StartOf(paging) + |value| <= |rows|
          && (StartOf(paging) + |value| == |rows| || (paging.Paged? && |value| == paging.limit))
          && forall i :: 0 <= i < |value| ==> SaysRow(idOf, rows[StartOf(paging) + i], value[i]))
  }

  /** What a listing leaves in the store. */
  ghost predicate ListLeaves(before: Store, value: seq<Provider>, after: Store) {
    && after.info == before.info
    && (forall p :: p in value ==> p.id in after.tmp && after.tmp[p.id] == p.identity)
    && (forall id :: id in before.tmp ==> id in after.tmp)
    && forall id :: id in after.tmp && (forall p :: p in value ==> p.id != id) ==>
                      id in before.tmp && after.tmp[id] == before.tmp[id]
  }

  lemma ServedSays(idOf: string -> string, s: Store, rows: seq<Row>, q: Provider, p: Provider)
    requires q in Filled(idOf, rows) && p == q.(ip := IpOf(s, q.id))
    ensures Sourced(idOf, rows, p)
    ensures forall ip :: p.ip == Some(ip) <==> Reports(s, p.id, ip)
  {
    hide Filled, Usable;
    FilledMeans(idOf, rows, q);
    var r :| r in rows && Usable(r) && SaysRow(idOf, r, q);
    assert SaysRow(idOf, r, p);
  }

  lemma RowIsServed(idOf: string -> string, s: Store, rows: seq<Row>, r: Row, value: seq<Provider>)
    requires r in rows && Usable(r) && Addressed(s, Filled(idOf, rows), value)
    ensures Served(idOf, r, value)
  {
    hide Filled, Usable, IpOf;
    var all := Filled(idOf, rows);
    var q := Provider(idOf(r.identity), r.identity, r.ipType, r.country, None);
    assert SaysRow(idOf, r, q);
    FilledMeans(idOf, rows, q);
    var i :| 0 <= i < |all| && all[i] == q;
    assert value[i] in value && SaysRow(idOf, r, value[i]);
  }

  /** The page as it is served: each provider with its reported address. */
  ghost predicate Addressed(s: Store, list: seq<Provider>, value: seq<Provider>) {
    |value| == |list| && forall i :: 0 <= i < |list| ==> value[i] == list[i].(ip := IpOf(s, list[i].id))
  }

  lemma EachSays(idOf: string -> string, s: Store, rows: seq<Row>, list: seq<Provider>, value: seq<Provider>, p: Provider)
    requires Addressed(s, list, value) && (forall q :: q in list ==> q in Filled(idOf, rows)) && p in value
    ensures Sourced(idOf, rows, p)
    ensures forall ip :: p.ip == Some(ip) <==> Reports(s, p.id, ip)
  {
    hide Filled, Usable, IpOf, SaysRow, Reports, Sourced;
    var i :| 0 <= i < |value| && value[i] == p;
    assert list[i] in list;
    ServedSays(idOf, s, rows, list[i], p);
  }

  lemma StretchSays(idOf: string -> string, s: Store, rows: seq<Row>, all: seq<Provider>, start: nat, value: seq<Provider>, i: nat)
    requires |all| == |rows| && start + |value| <= |rows| && i < |value|
    requires SaysRow(idOf, rows[start + i], all[start + i]) && Addressed(s, all[start..start + |value|], value)
    ensures SaysRow(idOf, rows[start + i], value[i])
  {
    assert all[start..start + |value|][i] == all[start + i];
  }

  lemma PageInOrder(idOf: string -> string, s: Store, rows: seq<Row>, paging: Paging, value: seq<Provider>)
    requires (forall r :: r in rows ==> Usable(r)) && rows != []
    requires ApiPage(Filled(idOf, rows), paging) != [] && Addressed(s, ApiPage(Filled(idOf, rows), paging), value)
    ensures StartOf(paging) + |value| <= |rows|
    ensures StartOf(paging) + |value| == |rows| || (paging.Paged? && |value| == paging.limit)
    ensures forall i :: 0 <= i < |value| ==> SaysRow(idOf, rows[StartOf(paging) + i], value[i])
  {
    hide Filled, Usable, SaysRow, Addressed, StartOf, ApiPage;
    var all, start := Filled(idOf, rows), StartOf(paging);
    var list := ApiPage(all, paging);
    FilledInOrder(idOf, rows);
    StartsWithin(all, paging);
    ApiPageMeans(all, paging);
    assert |value| == |list| by {
      AddressedLength(s, list, value);
    }
    forall i | 0 <= i < |value|
      ensures SaysRow(idOf, rows[start + i], value[i])
    {
      StretchSays(idOf, s, rows, all, start, value, i);
    }
  }

  lemma AddressedLength(s: Store, list: seq<Provider>, value: seq<Provider>)
    requires Addressed(s, list, value)
    ensures |value| == |list|
  {
  }

  lemma UnpagedIsAll(all: seq<Provider>)
    ensures ApiPage(all, Unpaged) == all
  {
  }

  lemma StartsWithin(all: seq<Provider>, paging: Paging)
    requires ApiPage(all, paging) != []
    ensures StartOf(paging) < |all|
  {
    EmptyPageIff(all, paging);
  }

  lemma ListIsAnswered(idOf: string -> string, s: Store, rows: seq<Row>, paging: Paging, value: seq<Provider>)
    requires ApiPage(Filled(idOf, rows), paging) != [] && Addressed(s, ApiPage(Filled(idOf, rows), paging), value)
    ensures ListAnswers(idOf, s, rows, paging, value)
  {
    hide Filled, Usable, ApiPage, SaysRow, Reports, StartOf, Addressed, Sourced, Served;
    var list := ApiPage(Filled(idOf, rows), paging);
    UnpagedIsAll(Filled(idOf, rows));
    forall p | p in value
      ensures Sourced(idOf, rows, p)
      ensures forall ip :: p.ip == Some(ip) <==> Reports(s, p.id, ip)
    {
      EachSays(idOf, s, rows, list, value, p);
    }
    if paging.Unpaged? {
      forall r | r in rows && Usable(r)
        ensures Served(idOf, r, value)
      {
        RowIsServed(idOf, s, rows, r, value);
      }
    }
    if (forall r :: r in rows ==> Usable(r)) && rows != [] {
      PageInOrder(idOf, s, rows, paging, value);
    }
  }

  lemma ListIsLeft(idOf: string -> string, s: Store, list: seq<Provider>, value: seq<Provider>)
    requires Injective(idOf) && forall p :: p in list ==> p.id == idOf(p.identity)
    requires Addressed(s, list, value)
    ensures ListLeaves(s, value, After(idOf, s, Listed(list)))
  {
    hide Injective, IpOf, Cached;
    forall id {
      CachedMeans(idOf, s.tmp, list, id);
    }
    assert forall i :: 0 <= i < |list| ==> list[i] in list && value[i] in value;
  }

  /** What a read by id answers when no identity has two proposals: the provider that the one usable
      proposal of the id says, and none without such a proposal. */
  ghost predicate ByIdAnswers(idOf: string -> string, rows: seq<Row>, id: string, value: Option<Provider>) {
    && (value.Some? <==> exists r :: r in rows && idOf(r.identity) == id && Usable(r))
    && (value.Some? ==> exists r :: r in rows && idOf(r.identity) == id && SaysRow(idOf, r, value.value))
  }

  /** What a read by a cached identity answers on any proposals: the first usable one of the identity. */
  ghost predicate HitAnswers(idOf: string -> string, rows: seq<Row>, identity: string, value: Option<Provider>) {
    && (value.Some? <==> exists r :: r in rows && r.identity == identity && Usable(r))
    && (value.Some? ==> exists i :: FirstUsable(rows, identity, i) && SaysRow(idOf, rows[i], value.value))
  }

  lemma HitIsAnswered(idOf: string -> string, rows: seq<Row>, identity: string, value: Option<Provider>)
    requires WithoutIp(value) == Hit(idOf, rows, identity)
    ensures HitAnswers(idOf, rows, identity, value)
  {
    hide Usable, Hit, FirstUsable;
    HitMeans(idOf, rows, identity);
    assert value.Some? ==> forall r :: SaysRow(idOf, r, value.value) <==> SaysRow(idOf, r, WithoutIp(value).value);
  }

  lemma OnlyOneIff(idOf: string -> string, rows: seq<Row>, id: string, i: int)
    requires Injective(idOf) && IdentitiesUnique(rows) && 0 <= i < |rows|
    ensures OnlyOne(idOf, rows, id, i) <==> idOf(rows[i].identity) == id
  {
  }

  lemma ByIdIsAnswered(idOf: string -> string, rows: seq<Row>, id: string, value: Option<Provider>)
    requires Injective(idOf) && IdentitiesUnique(rows) && WithoutIp(value) == Miss(idOf, rows, id)
    ensures ByIdAnswers(idOf, rows, id, value)
  {
    hide Usable, Miss, Injective, IdentitiesUnique;
    MissMeans(idOf, rows, id);
    if r :| r in rows && idOf(r.identity) == id && Usable(r) {
      var i :| 0 <= i < |rows| && rows[i] == r;
      OnlyOneIff(idOf, rows, id, i);
      assert OnlyOne(idOf, rows, id, i) && Usable(rows[i]);
    }
    if value.Some? {
      var i :| OnlyOne(idOf, rows, id, i) && SaysRow(idOf, rows[i], WithoutIp(value).value);
      assert rows[i] in rows && SaysRow(idOf, rows[i], value.value);
      var j :| OnlyOne(idOf, rows, id, j) && Usable(rows[j]);
      assert rows[j] in rows && idOf(rows[j].identity) == id;
    }
  }

  class CacheRepository {
    const idOf: string -> string
    const healthy: bool

    var store: Store
    var proposals: seq<Row>

    ghost predicate Valid()
      reads this
    {
      Faithful(idOf, store)
    }

    constructor (idOf: string -> string, healthy: bool, proposals: seq<Row>)
      ensures Valid() && store == Store(map[], map[])
      ensures this.idOf == idOf && this.healthy == healthy && this.proposals == proposals
    {
      this.idOf, this.healthy, this.proposals := idOf, healthy, proposals;
      store := Store(map[], map[]);
    }

    method Attempt() returns (ok: bool)
      ensures healthy ==> ok
    {
      var failed: bool := *;
      ok := healthy || !failed;
    }

    /** The loop of `getAll`: the rows with their addresses, and the keys to cache. */
    method Serve(list: seq<Provider>) returns (served: seq<Provider>, tmp: map<string, string>)
      requires forall p :: p in list ==> p.ip == None
      ensures tmp == Cached(store.tmp, list) && |served| == |list|
      ensures forall i :: 0 <= i < |list| ==> served[i] == list[i].(ip := IpOf(store, list[i].id))
    {
      tmp := store.tmp;
      served := [];
      for i := 0 to |list|
        invariant tmp == Cached(store.tmp, list[..i]) && |served| == i
        invariant forall k :: 0 <= k < i ==> served[k] == list[k].(ip := IpOf(store, list[k].id))
      {
        assert list[..i + 1][..i] == list[..i];
        assert list[i] in list;
        var p := list[i];
        var ip := IpOf(store, p.id);
        if ip.Some? {
          p := p.(ip := ip);
        }
        served := served + [p];
        tmp := tmp[p.id := p.identity];
      }
      assert list[..|list|] == list;
    }

    /** `getAll` for the proposals `rows` that the API selects by the filter; a page beyond the end of
        a list that is not empty fails, for the store takes no empty `mset`. */
    method GetAll(rows: seq<Row>, paging: Paging) returns (r: Result<seq<Provider>, ()>)
      requires Valid()
      modifies this`store
      ensures Valid()
      ensures r.Success? && Filled(idOf, rows) != [] ==>
                var list := ApiPage(Filled(idOf, rows), paging);
                && store == After(idOf, old(store), Listed(list)) && |r.value| == |list|
                && forall i :: 0 <= i < |list| ==> r.value[i] == list[i].(ip := IpOf(old(store), list[i].id))
      ensures r.Success? && (forall row :: row in rows ==> !Usable(row)) ==> r.value == []
      ensures r.Success? ==> Injective(idOf) ==> ListLeaves(old(store), r.value, store)
      ensures r.Success? && (exists row :: row in rows && Usable(row)) ==> ListAnswers(idOf, old(store), rows, paging, r.value)
      ensures r.Failure? || Filled(idOf, rows) == [] ==> store == old(store)
      ensures healthy ==> (r.Failure? <==> (exists id :: id in old(store).info && old(store).info[id].Malformed?)
                                           || (Filled(idOf, rows) != [] && BeyondTheEnd(|Filled(idOf, rows)|, paging)))
    {
      hide Faithful, ListAnswers, Filled;
      var ok := Attempt();
      if ok {
        ok := Attempt();
      }
      if !ok || exists id :: id in store.info && store.info[id].Malformed? {
        return Failure(());
      }
      var all := Filled(idOf, rows);
      FilledNonEmpty(idOf, rows);
      if |all| == 0 {
        return Success([]);
      }
      var list := ApiPage(all, paging);
      EmptyPageIff(all, paging);
      FilledIsGenuine(idOf, rows);
      assert forall p :: p in list ==> p in all;
      hide Cached, IpOf;
      var served, tmp := Serve(list);
      ok := Attempt();
      if !ok || |list| == 0 {
        return Failure(());
      }
      AfterKeeps(idOf, store, Listed(list));
      ListIsAnswered(idOf, store, rows, paging, served);
      if Injective(idOf) {
        ListIsLeft(idOf, store, list, served);
      }
      store := store.(tmp := tmp);
      r := Success(served);
    }

    /** `getById`: by the cached identity when there is one, and by the id otherwise. */
    method GetById(id: string) returns (r: Result<Option<Provider>, ()>)
      requires Valid() && Injective(idOf)
      ensures r.Success? && IdentitiesUnique(proposals) ==> ByIdAnswers(idOf, proposals, id, r.value)
      ensures healthy && r.Success? && Lookup(store, id).Some? ==>
                HitAnswers(idOf, proposals, Lookup(store, id).value, r.value)
      ensures healthy && r.Success? && r.value.Some? ==>
                forall ip :: r.value.value.ip == Some(ip) <==> Lookup(store, id).Some? && Reports(store, id, ip)
      ensures healthy ==>
                (r.Failure? <==> id in store.info && store.info[id].Malformed? && Lookup(store, id).Some?
                                 && exists row :: row in proposals && row.identity == Lookup(store, id).value && Usable(row))
    {
      r := Fetch(id);
      var found := Lookup(store, id);
      if r.Success? && IdentitiesUnique(proposals) {
        ByIdIsAnswered(idOf, proposals, id, r.value);
      }
      if found.Some? {
        HitMeans(idOf, proposals, found.value);
        if healthy && r.Success? {
          HitIsAnswered(idOf, proposals, found.value, r.value);
        }
      }
      IpMeans(store, id);
    }

    /** The same in terms of a hit and a miss. */
    method Fetch(id: string) returns (r: Result<Option<Provider>, ()>)
      requires Valid() && Injective(idOf)
      ensures r.Success? && IdentitiesUnique(proposals) ==> WithoutIp(r.value) == Miss(idOf, proposals, id)
      ensures healthy && r.Success? && Lookup(store, id).Some? ==>
                WithoutIp(r.value) == Hit(idOf, proposals, Lookup(store, id).value)
      ensures healthy && r.Success? && r.value.Some? ==>
                r.value.value.ip == if Lookup(store, id).Some? then IpOf(store, id) else None
      ensures healthy ==>
                (r.Failure? <==> id in store.info && store.info[id].Malformed? && Lookup(store, id).Some?
                                 && Hit(idOf, proposals, Lookup(store, id).value).Some?)
    {
      hide Injective, IdentitiesUnique, WithId;
      var ok := Attempt();
      var identity := if ok then Lookup(store, id) else None;
      if identity.None? {
        ok := Attempt();
        if !ok {
          return Failure(());
        }
        var found := WithId(idOf, proposals, id);
        r := Success(if |found| == 1 then Fill(idOf, found[0]) else None);
        return;
      }
      if IdentitiesUnique(proposals) {
        UniqueHitIsMiss(idOf, proposals, identity.value);
      }
      ok := Attempt();
      if !ok {
        return Failure(());
      }
      var own := Of(proposals, identity.value);
      FilledIsGenuine(idOf, own);
      FilledOfIdentity(idOf, own, identity.value);
      var dataList := PF.Page(Filled(idOf, own), 1, 100);
      if |dataList| == 0 {
        return Success(None);
      }
      var p := dataList[0];
      assert p in Filled(idOf, own);
      ok := Attempt();
      if !ok || (p.id in store.info && store.info[p.id].Malformed?) {
        return Failure(());
      }
      var ip := IpOf(store, p.id);
      if ip.Some? {
        p := p.(ip := ip);
      }
      r := Success(Some(p));
    }
  }

  lemma {:induction false} FilledOfIdentity(idOf: string -> string, rows: seq<Row>, identity: string)
    requires forall r :: r in rows ==> r.identity == identity
    ensures forall p :: p in Filled(idOf, rows) ==> p.identity == identity
  {
    if rows != [] {
      var n := |rows| - 1;
      assert rows == rows[..n] + [rows[n]];
      assert rows[n] in rows;
      FilledOfIdentity(idOf, rows[..n], identity);
    }
  }
}
