// Which proxies a user may use, and adding favourites in bulk.
module Access {
  import opened Wrappers
  import opened Order
  import opened AclRows
  import opened AclFile
  import opened AclEntries
  import opened AclRules

  datatype Proxy = Proxy(id: string, listenPort: nat)

  ghost predicate NoDuplicates<T>(s: seq<T>) {
    forall i, j :: 0 <= i < j < |s| ==> s[i] != s[j]
  }

  ghost predicate DistinctPorts(proxies: seq<Proxy>) {
    forall i, j :: 0 <= i < j < |proxies| ==> proxies[i].listenPort != proxies[j].listenPort
  }

  /** `find` by listen port. */
  function FindByPort(proxies: seq<Proxy>, port: nat): (found: seq<Proxy>)
    ensures |found| <= 1 && forall p :: p in found ==> p in proxies && p.listenPort == port
    ensures found == [] ==> forall p :: p in proxies ==> p.listenPort != port
  {
    if proxies == [] then []
    else if proxies[0].listenPort == port then [proxies[0]]
    else FindByPort(proxies[1..], port)
  }

  /** `_fillProxyPortAccessModel`: the proxies on the ports of one entry, missing ones left out. */
  function ProxiesOn(ports: seq<nat>, proxies: seq<Proxy>): seq<Proxy> {
    if ports == [] then [] else FindByPort(proxies, ports[0]) + ProxiesOn(ports[1..], proxies)
  }

  function PortsOfEntry(e: Entry): seq<nat> {
    if e.ports.Some? then e.ports.value else []
  }

  function ProxiesOfEntries(entries: seq<Entry>, proxies: seq<Proxy>): seq<Proxy> {
    if entries == [] then []
    else ProxiesOn(PortsOfEntry(entries[0]), proxies) + ProxiesOfEntries(entries[1..], proxies)
  }

  /** `getByUserId` on the listing of the ACL repository for the user. */
  function UserProxies(listing: seq<Entry>, userExists: bool, proxies: seq<Proxy>): seq<Proxy> {
    if listing == [] || !userExists then []
    else if exists e :: e in listing && e.ports.None? then proxies
    else ProxiesOfEntries(listing, proxies)
  }

  /** What the entries of the file say: some entry for everyone or for the user admits the port. */
  ghost predicate Permitted(entries: seq<Entry>, userId: string, p: Proxy) {
    exists e :: e in entries && (e.user.None? || e.user.value == userId)
                && (e.ports.None? || p.listenPort in e.ports.value)
  }

  lemma {:induction false} ProxiesOnMembers(ports: seq<nat>, proxies: seq<Proxy>)
    requires DistinctPorts(proxies)
    ensures forall p :: p in ProxiesOn(ports, proxies) <==> p in proxies && p.listenPort in ports
  {
    if ports != [] {
      ProxiesOnMembers(ports[1..], proxies);
      assert forall n :: n in ports <==> n == ports[0] || n in ports[1..];
      forall p | p in proxies && p.listenPort == ports[0]
        ensures p in FindByPort(proxies, ports[0])
      {
        var q := FindByPort(proxies, ports[0])[0];
        assert q in FindByPort(proxies, ports[0]);
        var i :| 0 <= i < |proxies| && proxies[i] == p;
        var j :| 0 <= j < |proxies| && proxies[j] == q;
        assert !(i < j) && !(j < i);
      }
    }
  }

  lemma NoDuplicatesConcat<T>(a: seq<T>, b: seq<T>)
    requires NoDuplicates(a) && NoDuplicates(b) && forall x :: x in a ==> x !in b
    ensures NoDuplicates(a + b)
  {
    forall i, j | 0 <= i < j < |a + b|
      ensures (a + b)[i] != (a + b)[j]
    {
      if i < |a| <= j {
        assert a[i] in a && b[j - |a|] in b;
      }
    }
  }

  /** No port on which a listed proxy runs stands twice in the list. */
  ghost predicate NoLiveRepeat(ports: seq<nat>, proxies: seq<Proxy>) {
    forall i, j, p :: 0 <= i < j < |ports| && p in proxies && p.listenPort == ports[i] ==> ports[j] != ports[i]
  }

  lemma LiveRepeatStep(ports: seq<nat>, proxies: seq<Proxy>)
    requires ports != []
    ensures NoLiveRepeat(ports, proxies) <==>
            NoLiveRepeat(ports[1..], proxies) && forall p :: p in proxies && p.listenPort == ports[0] ==> ports[0] !in ports[1..]
  {
    var rest := ports[1..];
    if NoLiveRepeat(ports, proxies) {
      forall i, j, p | 0 <= i < j < |rest| && p in proxies && p.listenPort == rest[i]
        ensures rest[j] != rest[i]
      {
        assert ports[i + 1] == rest[i] && ports[j + 1] == rest[j];
      }
      forall p | p in proxies && p.listenPort == ports[0]
        ensures ports[0] !in rest
      {
        assert forall j :: 0 <= j < |rest| ==> rest[j] == ports[j + 1] != ports[0];
      }
    } else {
      var i, j, p :| 0 <= i < j < |ports| && p in proxies && p.listenPort == ports[i] && ports[j] == ports[i];
      assert ports[j] == rest[j - 1];
      if i > 0 {
        assert ports[i] == rest[i - 1];
      } else {
        assert ports[0] in rest;
      }
    }
  }

  lemma ConcatNoDuplicates<T>(a: seq<T>, b: seq<T>)
    requires NoDuplicates(a + b)
    ensures NoDuplicates(a) && NoDuplicates(b) && forall x :: x in a ==> x !in b
  {
    forall i, j | 0 <= i < j < |a|
      ensures a[i] != a[j]
    {
      assert (a + b)[i] != (a + b)[j];
    }
    forall i, j | 0 <= i < j < |b|
      ensures b[i] != b[j]
    {
      assert (a + b)[|a| + i] != (a + b)[|a| + j];
    }
    forall i, j | 0 <= i < |a| && 0 <= j < |b|
      ensures a[i] != b[j]
    {
      assert (a + b)[i] != (a + b)[|a| + j];
    }
  }

  lemma {:induction false} ProxiesOnNoDuplicates(ports: seq<nat>, proxies: seq<Proxy>)
    requires DistinctPorts(proxies)
    ensures NoDuplicates(ProxiesOn(ports, proxies)) <==> NoLiveRepeat(ports, proxies)
  {
    hide NoLiveRepeat, DistinctPorts;
    if ports != [] {
      var first, rest := FindByPort(proxies, ports[0]), ProxiesOn(ports[1..], proxies);
      ProxiesOnNoDuplicates(ports[1..], proxies);
      ProxiesOnMembers(ports[1..], proxies);
      LiveRepeatStep(ports, proxies);
      assert first != [] ==> first[0] in first;
      if NoDuplicates(first + rest) {
        ConcatNoDuplicates(first, rest);
      }
      if NoDuplicates(rest) && forall x :: x in first ==> x !in rest {
        NoDuplicatesConcat(first, rest);
      }
    } else {
      NothingRepeats(proxies);
    }
  }

  lemma NothingRepeats(proxies: seq<Proxy>)
    ensures NoLiveRepeat([], proxies)
  {
  }

  ghost predicate PortsDisjoint(entries: seq<Entry>) {
    forall i, j :: 0 <= i < j < |entries| ==> forall p :: p in PortsOfEntry(entries[i]) ==> p !in PortsOfEntry(entries[j])
  }

  lemma {:induction false} ProxiesOfEntriesMembers(entries: seq<Entry>, proxies: seq<Proxy>)
    requires DistinctPorts(proxies)
    ensures forall p :: p in ProxiesOfEntries(entries, proxies) <==>
                        p in proxies && exists e :: e in entries && p.listenPort in PortsOfEntry(e)
  {
    if entries != [] {
      ProxiesOfEntriesMembers(entries[1..], proxies);
      ProxiesOnMembers(PortsOfEntry(entries[0]), proxies);
      assert entries == [entries[0]] + entries[1..];
    }
  }

  lemma {:induction false} ProxiesOfEntriesOnce(entries: seq<Entry>, proxies: seq<Proxy>)
    requires DistinctPorts(proxies) && PortsDisjoint(entries)
    ensures NoDuplicates(ProxiesOfEntries(entries, proxies)) <==>
            forall e :: e in entries ==> NoLiveRepeat(PortsOfEntry(e), proxies)
  {
    hide NoLiveRepeat, DistinctPorts;
    if entries != [] {
      var rest := entries[1..];
      var own, others := ProxiesOn(PortsOfEntry(entries[0]), proxies), ProxiesOfEntries(rest, proxies);
      assert entries == [entries[0]] + rest;
      DisjointRest(entries);
      ProxiesOfEntriesOnce(rest, proxies);
      ProxiesOfEntriesMembers(rest, proxies);
      ProxiesOnMembers(PortsOfEntry(entries[0]), proxies);
      ProxiesOnNoDuplicates(PortsOfEntry(entries[0]), proxies);
      if NoDuplicates(own + others) {
        ConcatNoDuplicates(own, others);
      }
      if NoDuplicates(own) && NoDuplicates(others) {
        NoDuplicatesConcat(own, others);
      }
    }
  }

  lemma DisjointRest(entries: seq<Entry>)
    requires PortsDisjoint(entries) && entries != []
    ensures PortsDisjoint(entries[1..])
    ensures forall e, p :: e in entries[1..] && p in PortsOfEntry(entries[0]) ==> p !in PortsOfEntry(e)
  {
    var rest := entries[1..];
    forall i, j | 0 <= i < j < |rest|
      ensures forall p :: p in PortsOfEntry(rest[i]) ==> p !in PortsOfEntry(rest[j])
    {
      assert rest[i] == entries[i + 1] && rest[j] == entries[j + 1];
    }
    forall e, p | e in rest && p in PortsOfEntry(entries[0])
      ensures p !in PortsOfEntry(e)
    {
      var i :| 0 <= i < |rest| && rest[i] == e;
      assert entries[i + 1] == e;
    }
  }

  lemma {:induction false} OneUserFirst(entries: seq<Entry>, user: Option<string>)
    requires forall e :: e in entries ==> e.user == user
    ensures FirstUsers(entries) == if entries == [] then [] else [user]
    decreases |entries|
  {
    if entries != [] {
      var n := |entries| - 1;
      assert entries == entries[..n] + [entries[n]];
      OneUserFirst(entries[..n], user);
    }
  }

  lemma {:induction false} OneUserOwn(entries: seq<Entry>, user: Option<string>)
    requires forall e :: e in entries ==> e.user == user
    ensures OfUser(entries, user) == entries
    decreases |entries|
  {
    if entries != [] {
      var n := |entries| - 1;
      assert entries == entries[..n] + [entries[n]];
      OneUserOwn(entries[..n], user);
    }
  }

  lemma OneUserGrouped(entries: seq<Entry>, user: Option<string>)
    requires forall e :: e in entries ==> e.user == user
    ensures Grouped(entries) == entries
  {
    OneUserFirst(entries, user);
    OneUserOwn(entries, user);
    if entries != [] {
      assert GroupsOf(entries, [user]) == GroupsOf(entries, [user][..0]) + OfUser(entries, user);
    }
  }

  lemma CompatibleWithLast(raws: seq<Raw>, r: Raw)
    requires AllDecode(raws) && NoConflict(Decoded(raws)) && raws != [] && r in raws[..|raws| - 1]
    ensures Compatible(Decode(r).value, Decode(raws[|raws| - 1]).value)
  {
    hide Decode, Compatible;
    var n := |raws| - 1;
    assert forall x :: x in raws[..n] ==> x in raws;
    assert r in raws && raws[n] in raws;
    var k :| 0 <= k < n && raws[k] == r;
    assert Compatible(Decoded(raws)[k], Decoded(raws)[n]);
  }

  /** The decoded entries that pass a filter stand in the file's order, so they inherit its
      pairwise compatibility. */
  lemma {:induction false} VisibleKeepsNoConflict(raws: seq<Raw>, filter: Option<string>)
    requires Clean(raws) && NoConflict(Decoded(raws))
    ensures AllDecode(Visible(raws, filter)) && NoConflict(Decoded(Visible(raws, filter)))
    decreases |raws|
  {
    hide Decode, Skipped, Compatible;
    VisibleMembers(raws, filter);
    if raws != [] {
      var n := |raws| - 1;
      var above := Visible(raws[..n], filter);
      assert Decoded(raws[..n]) == Decoded(raws)[..n];
      assert forall r :: r in raws[..n] ==> r in raws;
      VisibleKeepsNoConflict(raws[..n], filter);
      VisibleMembers(raws[..n], filter);
      if !Skipped(raws[n], filter) {
        var all := Decoded(above + [raws[n]]);
        forall i, j | 0 <= i < j < |all|
          ensures Compatible(all[i], all[j])
        {
          if j < |above| {
            assert Compatible(Decoded(above)[i], Decoded(above)[j]);
          } else {
            CompatibleWithLast(raws, above[i]);
          }
        }
      }
    }
  }

  lemma OwnEntriesDisjoint(entries: seq<Entry>, userId: string)
    requires NoConflict(entries)
    requires forall e :: e in entries ==> e.user == Some(userId) && e.ports.Some?
    ensures PortsDisjoint(entries)
  {
    forall i, j | 0 <= i < j < |entries|
      ensures forall p :: p in PortsOfEntry(entries[i]) ==> p !in PortsOfEntry(entries[j])
    {
      assert entries[i] in entries && entries[j] in entries;
      assert Compatible(entries[i], entries[j]);
    }
  }

  lemma DecodedMembers(raws: seq<Raw>)
    requires AllDecode(raws)
    ensures forall e :: e in Decoded(raws) <==> exists r :: r in raws && Decode(r) == Some(e)
  {
    hide Decode;
    forall e
      ensures e in Decoded(raws) <==> exists r :: r in raws && Decode(r) == Some(e)
    {
      if e in Decoded(raws) {
        var i :| 0 <= i < |raws| && Decoded(raws)[i] == e;
        assert raws[i] in raws;
      }
      if r :| r in raws && Decode(r) == Some(e) {
        var i :| 0 <= i < |raws| && raws[i] == r;
        assert Decoded(raws)[i] == e;
      }
    }
  }

  /** In a file without an entry for everyone each entry belongs to the user it names. */
  lemma OwnedEntries(raws: seq<Raw>, userId: string)
    requires Clean(raws) && userId != "" && forall r :: r in raws ==> r.userId != ALL_USERS
    ensures forall r :: r in raws ==> Decode(r).Some? && Decode(r).value.user == Some(r.userId)
    ensures forall r :: r in Visible(raws, Some(userId)) <==> r in raws && r.userId == userId
  {
    hide Decode;
    VisibleMembers(raws, Some(userId));
    forall r | r in raws
      ensures Decode(r).Some? && Decode(r).value.user == Some(r.userId)
      ensures Skipped(r, Some(userId)) <==> r.userId != userId
    {
      assert CleanRaw(r) && r.userId in r.userRaws;
      DecodedUser(r);
    }
  }

  /** The listing for a user in a managed file without an entry for everyone: the user's own
      entries, in file order, pairwise without a common port. */
  lemma OwnListing(raws: seq<Raw>, userId: string)
    requires Clean(raws) && NoConflict(Decoded(raws)) && userId != ""
    requires forall r :: r in raws ==> r.userId != ALL_USERS
    ensures AllDecode(Visible(raws, Some(userId)))
    ensures Listed(Visible(raws, Some(userId))) == Some(Decoded(Visible(raws, Some(userId))))
    ensures forall e :: e in Decoded(Visible(raws, Some(userId))) <==> e in Decoded(raws) && e.user == Some(userId)
    ensures NoConflict(Decoded(Visible(raws, Some(userId))))
  {
    hide Decode, Compatible, Visible, Grouped;
    var visible := Visible(raws, Some(userId));
    VisibleKeepsNoConflict(raws, Some(userId));
    OwnedEntries(raws, userId);
    DecodedMembers(raws);
    DecodedMembers(visible);
    OneUserGrouped(Decoded(visible), Some(userId));
  }

  lemma EveryoneListing(raws: seq<Raw>, userId: string, proxies: seq<Proxy>, r: Raw)
    requires Clean(raws) && r in raws && r.userId == ALL_USERS
    ensures Listed(Visible(raws, Some(userId))).Some?
    ensures UserProxies(Listed(Visible(raws, Some(userId))).value, true, proxies) == proxies
    ensures forall p :: Permitted(Decoded(raws), userId, p)
  {
    hide Decode, Listed, Visible;
    ListedIsComplete(raws, Some(userId));
    var list := Listed(Visible(raws, Some(userId))).value;
    assert ForEveryone(list[0]) && list[0] in list;
    assert CleanRaw(r);
    DecodedUser(r);
    DecodedMembers(raws);
    assert Decode(r).value in Decoded(raws);
  }

  /** Some entry gives the user every proxy, or none of the user's entries repeats a live port. */
  ghost predicate ListsOnce(entries: seq<Entry>, userId: string, proxies: seq<Proxy>) {
    || (exists e :: e in entries && (e.user.None? || e.user.value == userId) && e.ports.None?)
    || forall e :: e in entries && e.user == Some(userId) && e.ports.Some? ==> NoLiveRepeat(e.ports.value, proxies)
  }

  lemma OwnProxies(entries: seq<Entry>, list: seq<Entry>, userId: string, proxies: seq<Proxy>)
    requires forall e :: e in entries ==> e.user.Some?
    requires forall e :: e in list <==> e in entries && e.user == Some(userId)
    requires NoConflict(list) && DistinctPorts(proxies)
    ensures NoDuplicates(UserProxies(list, true, proxies)) <==> ListsOnce(entries, userId, proxies)
    ensures forall p :: p in UserProxies(list, true, proxies) <==> p in proxies && Permitted(entries, userId, p)
  {
    ProxiesOfEntriesMembers(list, proxies);
    if forall e :: e in list ==> e.ports.Some? {
      OwnEntriesDisjoint(list, userId);
      ProxiesOfEntriesOnce(list, proxies);
    }
    DistinctPortsAreDistinct(proxies);
    hide NoConflict, DistinctPorts, ProxiesOfEntries, NoLiveRepeat;
    forall p | p in proxies
      ensures p in UserProxies(list, true, proxies) <==> Permitted(entries, userId, p)
    {
      if e :| e in entries && e.user.value == userId && (e.ports.None? || p.listenPort in e.ports.value) {
        assert e in list;
      }
    }
  }

  lemma DistinctPortsAreDistinct(proxies: seq<Proxy>)
    requires DistinctPorts(proxies)
    ensures NoDuplicates(proxies)
  {
  }

  /** For a user of a managed file, with pairwise distinct proxy ports, the listing holds every permitted
      proxy of a known user and no other, and nothing for an unknown one; it holds each of them once
      exactly when the user is unknown, an entry gives the user every proxy, or no entry of the user
      repeats a port on which a listed proxy runs. */
  lemma UserProxiesExact(raws: seq<Raw>, userId: string, userExists: bool, proxies: seq<Proxy>)
    requires Clean(raws) && NoConflict(Decoded(raws)) && userId != "" && userId != ALL_USERS
    requires DistinctPorts(proxies)
    ensures Listed(Visible(raws, Some(userId))).Some?
    ensures var result := UserProxies(Listed(Visible(raws, Some(userId))).value, userExists, proxies);
            && (forall p :: p in result <==> userExists && p in proxies && Permitted(Decoded(raws), userId, p))
            && (NoDuplicates(result) <==> !userExists || ListsOnce(Decoded(raws), userId, proxies))
  {
    hide Decode, Listed, Visible, Permitted, NoConflict, ListsOnce;
    KnownUserProxies(raws, userId, proxies);
    assert !userExists ==> UserProxies(Listed(Visible(raws, Some(userId))).value, userExists, proxies) == [];
  }

  lemma KnownUserProxies(raws: seq<Raw>, userId: string, proxies: seq<Proxy>)
    requires Clean(raws) && NoConflict(Decoded(raws)) && userId != "" && userId != ALL_USERS
    requires DistinctPorts(proxies)
    ensures Listed(Visible(raws, Some(userId))).Some?
    ensures var result := UserProxies(Listed(Visible(raws, Some(userId))).value, true, proxies);
            && (forall p :: p in result <==> p in proxies && Permitted(Decoded(raws), userId, p))
            && (NoDuplicates(result) <==> ListsOnce(Decoded(raws), userId, proxies))
  {
    hide Decode, Listed, Visible, UserProxies, Permitted, NoConflict, ListsOnce;
    if exists r :: r in raws && r.userId == ALL_USERS {
      var r :| r in raws && r.userId == ALL_USERS;
      EveryoneListing(raws, userId, proxies, r);
      DistinctPortsAreDistinct(proxies);
      EveryoneListsOnce(raws, userId, proxies, r);
    } else {
      OwnListing(raws, userId);
      OwnedEntries(raws, userId);
      DecodedMembers(raws);
      OwnProxies(Decoded(raws), Decoded(Visible(raws, Some(userId))), userId, proxies);
    }
  }

  lemma EveryoneListsOnce(raws: seq<Raw>, userId: string, proxies: seq<Proxy>, r: Raw)
    requires Clean(raws) && r in raws && r.userId == ALL_USERS
    ensures ListsOnce(Decoded(raws), userId, proxies)
  {
    hide Decode;
    assert CleanRaw(r);
    DecodedUser(r);
    DecodedMembers(raws);
    assert Decode(r).value in Decoded(raws);
  }

  /** A request that names one port twice is accepted, for it is compared with the listed entries and
      not with itself; its proxy is then listed twice. */
  lemma RepeatedPortListsTwice(id: string, user: User, date: Option<nat>, proxy: Proxy)
    ensures var ports := [proxy.listenPort, proxy.listenPort];
            && !Conflicts([], ports) && Form(Request(Some(user), true, ports)) == Some(Some(ports))
            && UserProxies([Entry(id, Some(user.id), Some(ports), date)], true, [proxy]) == [proxy, proxy]
  {
    var port := proxy.listenPort;
    var ports := [port, port];
    var e := Entry(id, Some(user.id), Some(ports), date);
    assert ports[1..] == [port] && [port][1..] == [];
    assert ProxiesOn([port], [proxy]) == [proxy] + [];
    assert ProxiesOn(ports, [proxy]) == [proxy] + [proxy];
    assert [e][1..] == [];
    assert ProxiesOfEntries([e], [proxy]) == [proxy, proxy] + [];
    assert e in [e];
  }

  // Favourites.

  datatype ListType = FavouriteList | TodayList | OtherList

  datatype Favourite = Favourite(userId: string, proxyId: string, kind: ListType)

  datatype BulkError = UnknownError | NotFoundError | SaveFailed

  /** The accessible proxy ids that are requested, in the order of the accessible ones. */
  function Matching(accessible: seq<string>, requested: seq<Favourite>): (matching: seq<string>)
    ensures forall id :: id in matching <==> id in accessible && exists f :: f in requested && f.proxyId == id
  {
    if accessible == [] then []
    else
      assert accessible == [accessible[0]] + accessible[1..];
      var rest := Matching(accessible[1..], requested);
      if exists f :: f in requested && f.proxyId == accessible[0] then [accessible[0]] + rest else rest
  }

  function ProxyIds(models: seq<Favourite>): (ids: seq<string>)
    ensures |ids| == |models| && forall i :: 0 <= i < |models| ==> ids[i] == models[i].proxyId
  {
    seq(|models|, i requires 0 <= i < |models| => models[i].proxyId)
  }

  function Elements<T>(s: seq<T>): set<T> {
    set x | x in s
  }

  lemma {:induction false} ElementsCount<T>(s: seq<T>)
    ensures |Elements(s)| <= |s|
    ensures |Elements(s)| == |s| <==> NoDuplicates(s)
  {
    if s != [] {
      var n := |s| - 1;
      ElementsCount(s[..n]);
      assert s == s[..n] + [s[n]];
      assert Elements(s) == Elements(s[..n]) + {s[n]};
      if s[n] in s[..n] {
        assert Elements(s) == Elements(s[..n]);
        var i :| 0 <= i < n && s[i] == s[n];
      } else {
        assert NoDuplicates(s) <==> NoDuplicates(s[..n]);
      }
    }
  }

  lemma {:induction false} MatchingNoDuplicates(accessible: seq<string>, requested: seq<Favourite>)
    requires NoDuplicates(accessible)
    ensures NoDuplicates(Matching(accessible, requested))
  {
    if accessible != [] {
      MatchingNoDuplicates(accessible[1..], requested);
      assert accessible[0] !in accessible[1..];
      NoDuplicatesConcat([accessible[0]], Matching(accessible[1..], requested));
    }
  }

  lemma SubsetOfSameSize<T>(a: set<T>, b: set<T>)
    requires a <= b && |a| == |b|
    ensures a == b
  {
    assert b == a + (b - a);
    assert |b - a| == 0;
  }

  lemma SubsetSize<T>(a: set<T>, b: set<T>)
    requires a <= b
    ensures |a| <= |b|
  {
    assert b == a + (b - a);
  }

  /** The comparison of the two lengths in `addBulk` holds exactly when the requested proxies are
      pairwise distinct and every one of them is accessible. */
  lemma LengthCheckMeans(accessible: seq<string>, requested: seq<Favourite>)
    requires NoDuplicates(accessible)
    ensures |Matching(accessible, requested)| == |requested| <==>
            NoDuplicates(ProxyIds(requested)) && forall f :: f in requested ==> f.proxyId in accessible
  {
    var ids, matching := ProxyIds(requested), Matching(accessible, requested);
    MatchingNoDuplicates(accessible, requested);
    ElementsCount(ids);
    ElementsCount(matching);
    forall id
      ensures id in ids <==> exists f :: f in requested && f.proxyId == id
    {
      if id in ids {
        var i :| 0 <= i < |ids| && ids[i] == id;
        assert requested[i] in requested;
      }
      if f :| f in requested && f.proxyId == id {
        var i :| 0 <= i < |requested| && requested[i] == f;
        assert ids[i] == id;
      }
    }
    assert Elements(matching) <= Elements(ids);
    SubsetSize(Elements(matching), Elements(ids));
    if |matching| == |requested| {
      SubsetOfSameSize(Elements(matching), Elements(ids));
      forall f | f in requested
        ensures f.proxyId in accessible
      {
        assert f.proxyId in Elements(ids);
      }
    }
    if forall f :: f in requested ==> f.proxyId in accessible {
      assert Elements(matching) == Elements(ids);
    }
  }

  ghost predicate LengthCheckIsRight(accessible: seq<string>, requested: seq<Favourite>) {
    |Matching(accessible, requested)| == |requested| <==>
    NoDuplicates(ProxyIds(requested)) && forall f :: f in requested ==> f.proxyId in accessible
  }

  lemma {:induction false} OccurrencesMatch(accessible: seq<string>, f: Favourite, i: nat, j: nat)
    requires i < j < |accessible| && accessible[i] == accessible[j] == f.proxyId
    ensures |Matching(accessible, [f])| >= 2
  {
    assert f in [f];
    var rest := accessible[1..];
    if i == 0 {
      assert rest[j - 1] == f.proxyId;
      assert f.proxyId in Matching(rest, [f]);
    } else {
      assert rest[i - 1] == rest[j - 1] == f.proxyId;
      OccurrencesMatch(rest, f, i - 1, j - 1);
    }
  }

  /** The comparison of two lengths is right for every request exactly when the accessible proxies are
      pairwise distinct; a proxy that is listed twice cannot be requested by itself. */
  lemma LengthCheckRightIff(accessible: seq<string>)
    ensures (forall requested: seq<Favourite> :: LengthCheckIsRight(accessible, requested)) <==> NoDuplicates(accessible)
  {
    if NoDuplicates(accessible) {
      forall requested: seq<Favourite>
        ensures LengthCheckIsRight(accessible, requested)
      {
        LengthCheckMeans(accessible, requested);
      }
    } else {
      var i, j :| 0 <= i < j < |accessible| && accessible[i] == accessible[j];
      var f := Favourite("", accessible[i], FavouriteList);
      OccurrencesMatch(accessible, f, i, j);
      assert !LengthCheckIsRight(accessible, [f]);
    }
  }

  lemma TwiceMatches(id: string, requested: seq<Favourite>, f: Favourite)
    requires f in requested && f.proxyId == id
    ensures Matching([id, id], requested) == [id, id]
  {
    assert [id, id][1..] == [id] && [id][1..] == [];
    assert Matching([id], requested) == [id] + [];
  }

  /** With a proxy listed twice, a bulk that holds one proxy to which the user has no access is saved. */
  lemma InaccessibleIsSaved(userId: string, id: string, other: string)
    requires id != other
    ensures AddBulk([Favourite(userId, id, FavouriteList), Favourite(userId, other, FavouriteList)], [id, id], true).Success?
    ensures AddBulk([Favourite(userId, id, FavouriteList)], [id, id], true) == Failure(NotFoundError)
  {
    var f, g := Favourite(userId, id, FavouriteList), Favourite(userId, other, FavouriteList);
    TwiceMatches(id, [f, g], f);
    TwiceMatches(id, [f], f);
    assert Elements(UserIds([f, g])) == {userId} && Elements(UserIds([f])) == {userId} by {
      assert UserIds([f, g]) == [userId, userId] && UserIds([f]) == [userId];
    }
  }

  function UserIds(models: seq<Favourite>): (ids: seq<string>)
    ensures |ids| == |models| && forall i :: 0 <= i < |models| ==> ids[i] == models[i].userId
  {
    seq(|models|, i requires 0 <= i < |models| => models[i].userId)
  }

  /** `_mergeData` on the saved rows: the row of a proxy, where there is one. */
  function SavedFor(id: string, saved: seq<Favourite>): (found: seq<Favourite>)
    ensures |found| <= 1 && forall f :: f in found ==> f in saved && f.proxyId == id
    ensures found == [] ==> forall f :: f in saved ==> f.proxyId != id
  {
    if saved == [] then []
    else if saved[0].proxyId == id then [saved[0]]
    else SavedFor(id, saved[1..])
  }

  /** The rows of the matching proxies that are not of kind OTHER. */
  function Merged(matching: seq<string>, saved: seq<Favourite>): seq<Favourite> {
    if matching == [] then []
    else
      var own := SavedFor(matching[0], saved);
      (if own != [] && own[0].kind != OtherList then own else []) + Merged(matching[1..], saved)
  }

  /** `addBulk`, given the accessible proxy ids of the first user and whether the rows are saved. */
  function AddBulk(models: seq<Favourite>, accessible: seq<string>, saves: bool): Result<seq<Favourite>, BulkError> {
    if |Elements(UserIds(models))| > 1 then Failure(UnknownError)
    else if accessible == [] then Failure(NotFoundError)
    else
      var matching := Matching(accessible, models);
      if |matching| != |models| then Failure(NotFoundError)
      else if !saves then Failure(SaveFailed)
      else Success(Merged(matching, models))
  }

  lemma {:induction false} MergedExact(matching: seq<string>, saved: seq<Favourite>)
    requires NoDuplicates(matching) && NoDuplicates(ProxyIds(saved))
    ensures forall f :: f in Merged(matching, saved) <==> f in saved && f.kind != OtherList && f.proxyId in matching
    ensures NoDuplicates(Merged(matching, saved))
  {
    if matching != [] {
      var rest := matching[1..];
      MergedExact(rest, saved);
      assert matching == [matching[0]] + rest && matching[0] !in rest;
      var own := SavedFor(matching[0], saved);
      forall f | f in saved && f.proxyId == matching[0]
        ensures f in own
      {
        assert own[0] in own;
        var i :| 0 <= i < |saved| && saved[i] == f;
        var j :| 0 <= j < |saved| && saved[j] == own[0];
        assert ProxyIds(saved)[i] == ProxyIds(saved)[j];
        assert i == j;
      }
      NoDuplicatesConcat(if own != [] && own[0].kind != OtherList then own else [], Merged(rest, saved));
    }
  }

  /** The favourites of the bulk name more than one user. */
  ghost predicate SeveralUsers(models: seq<Favourite>) {
    exists f, g :: f in models && g in models && f.userId != g.userId
  }

  lemma SeveralUsersCount(models: seq<Favourite>)
    ensures |Elements(UserIds(models))| > 1 <==> SeveralUsers(models)
  {
    var ids := Elements(UserIds(models));
    forall id
      ensures id in ids <==> exists f :: f in models && f.userId == id
    {
      if id in ids {
        var i :| 0 <= i < |models| && UserIds(models)[i] == id;
        assert models[i] in models;
      }
      if f :| f in models && f.userId == id {
        var i :| 0 <= i < |models| && models[i] == f;
        assert UserIds(models)[i] == id;
      }
    }
    if f, g :| f in models && g in models && f.userId != g.userId {
      assert {f.userId, g.userId} <= ids;
      SubsetSize({f.userId, g.userId}, ids);
    } else if models != [] {
      assert models[0] in models;
      assert forall id :: id in ids ==> id == models[0].userId;
      SubsetSize(ids, {models[0].userId});
    } else {
      assert ids == {};
    }
  }

  /** Every favourite of the bulk is on an accessible proxy, and no two on the same one. */
  ghost predicate AllReachable(models: seq<Favourite>, accessible: seq<string>) {
    && (forall i, j :: 0 <= i < j < |models| ==> models[i].proxyId != models[j].proxyId)
    && forall f :: f in models ==> f.proxyId in accessible
  }

  lemma {:induction false} MatchingOrder(accessible: seq<string>, requested: seq<Favourite>, i: nat, j: nat)
    requires i < j < |Matching(accessible, requested)|
    ensures Before(accessible, Matching(accessible, requested)[i], Matching(accessible, requested)[j])
  {
    var rest, first := accessible[1..], accessible[0];
    var tail := Matching(rest, requested);
    assert accessible == [first] + rest;
    if exists f :: f in requested && f.proxyId == first {
      if i == 0 {
        assert tail[j - 1] in tail;
        BeforeHead(first, rest, tail[j - 1]);
      } else {
        MatchingOrder(rest, requested, i - 1, j - 1);
        BeforeLater(first, rest, tail[i - 1], tail[j - 1]);
      }
    } else {
      MatchingOrder(rest, requested, i, j);
      BeforeLater(first, rest, tail[i], tail[j]);
    }
  }

  lemma MergedStep(matching: seq<string>, saved: seq<Favourite>)
    requires matching != []
    ensures var tail := Merged(matching[1..], saved);
            || Merged(matching, saved) == tail
            || exists f: Favourite :: f.proxyId == matching[0] && Merged(matching, saved) == [f] + tail
  {
    var own := SavedFor(matching[0], saved);
    if own != [] && own[0].kind != OtherList {
      assert own[0] in own && own == [own[0]];
    } else {
      assert [] + Merged(matching[1..], saved) == Merged(matching[1..], saved);
    }
  }

  lemma {:induction false} MergedOrder(matching: seq<string>, saved: seq<Favourite>, i: nat, j: nat)
    requires i < j < |Merged(matching, saved)|
    ensures Before(matching, Merged(matching, saved)[i].proxyId, Merged(matching, saved)[j].proxyId)
  {
    hide Before, SavedFor;
    var first, rest := matching[0], matching[1..];
    var tail := Merged(rest, saved);
    MergedStep(matching, saved);
    hide Merged;
    assert matching == [first] + rest;
    if Merged(matching, saved) == tail {
      MergedOrder(rest, saved, i, j);
      BeforeLater(first, rest, tail[i].proxyId, tail[j].proxyId);
    } else if i == 0 {
      MergedFrom(rest, saved, j - 1);
      BeforeHead(first, rest, tail[j - 1].proxyId);
    } else {
      MergedOrder(rest, saved, i - 1, j - 1);
      BeforeLater(first, rest, tail[i - 1].proxyId, tail[j - 1].proxyId);
    }
  }

  lemma {:induction false} MergedFrom(matching: seq<string>, saved: seq<Favourite>, i: nat)
    requires i < |Merged(matching, saved)|
    ensures Merged(matching, saved)[i].proxyId in matching
  {
    var own := SavedFor(matching[0], saved);
    assert own != [] ==> own[0] in own;
    if own == [] || own[0].kind == OtherList {
      MergedFrom(matching[1..], saved, i);
    } else if i > 0 {
      MergedFrom(matching[1..], saved, i - 1);
    }
  }

  lemma BulkInOrder(models: seq<Favourite>, accessible: seq<string>, i: nat, j: nat)
    requires NoDuplicates(accessible) && i < j < |Merged(Matching(accessible, models), models)|
    ensures var answer := Merged(Matching(accessible, models), models);
            Before(accessible, answer[i].proxyId, answer[j].proxyId)
  {
    hide Merged, Matching;
    var matching := Matching(accessible, models);
    MergedOrder(matching, models, i, j);
    var answer := Merged(matching, models);
    var a, b :| 0 <= a < b < |matching| && matching[a] == answer[i].proxyId && matching[b] == answer[j].proxyId;
    MatchingOrder(accessible, models, a, b);
  }

  /** With the accessible proxies pairwise distinct: each refusal of a bulk with its condition, and the
      answer of a bulk that is saved, which holds each of its favourites exactly once, except those of
      kind OTHER, in the order of the accessible proxies. */
  lemma AddBulkExact(models: seq<Favourite>, accessible: seq<string>, saves: bool)
    requires NoDuplicates(accessible)
    ensures AddBulk(models, accessible, saves) == Failure(UnknownError) <==> SeveralUsers(models)
    ensures AddBulk(models, accessible, saves) == Failure(NotFoundError) <==>
            !SeveralUsers(models) && (accessible == [] || !AllReachable(models, accessible))
    ensures AddBulk(models, accessible, saves) == Failure(SaveFailed) <==>
            !SeveralUsers(models) && accessible != [] && AllReachable(models, accessible) && !saves
    ensures AddBulk(models, accessible, saves).Success? <==>
            !SeveralUsers(models) && accessible != [] && AllReachable(models, accessible) && saves
    ensures AddBulk(models, accessible, saves).Success? ==>
              var answer := AddBulk(models, accessible, saves).value;
              && NoDuplicates(answer) && (forall f :: f in answer <==> f in models && f.kind != OtherList)
              && forall i, j :: 0 <= i < j < |answer| ==> Before(accessible, answer[i].proxyId, answer[j].proxyId)
  {
    hide Matching, Merged, SeveralUsers, Elements, Before;
    SeveralUsersCount(models);
    LengthCheckMeans(accessible, models);
    MatchingNoDuplicates(accessible, models);
    assert NoDuplicates(ProxyIds(models)) <==>
           forall i, j :: 0 <= i < j < |models| ==> models[i].proxyId != models[j].proxyId by {
      var ids := ProxyIds(models);
      assert forall i :: 0 <= i < |models| ==> ids[i] == models[i].proxyId;
    }
    if AddBulk(models, accessible, saves).Success? {
      MergedExact(Matching(accessible, models), models);
      var answer := AddBulk(models, accessible, saves).value;
      forall i, j | 0 <= i < j < |answer|
        ensures Before(accessible, answer[i].proxyId, answer[j].proxyId)
      {
        BulkInOrder(models, accessible, i, j);
      }
    }
  }
}
