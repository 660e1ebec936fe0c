// What `getAll` makes of the parsed entries, the conflict check of `create`, and the invariant
// the check keeps.
module AclRules {
  import opened Wrappers
  import opened Order
  import opened AclRows
  import opened AclFile
  import opened AclEntries

  datatype Error = RepositoryError | InvalidAclFile | Exist | FillData

  /** A captured user id passes the filter of the parser, which compares it untrimmed. */
  predicate PassesFilter(userRaw: string, filter: Option<string>) {
    userRaw == ALL_USERS || filter.None? || filter.value == "" || filter.value == userRaw
  }

  predicate Skipped(raw: Raw, filter: Option<string>) {
    exists u :: u in raw.userRaws && !PassesFilter(u, filter)
  }

  function Visible(raws: seq<Raw>, filter: Option<string>): seq<Raw>
    decreases |raws|
  {
    if raws == [] then [] else
    var above := Visible(raws[..|raws| - 1], filter);
    var last := raws[|raws| - 1];
    if Skipped(last, filter) then above else above + [last]
  }

  lemma {:induction false} VisibleMembers(raws: seq<Raw>, filter: Option<string>)
    ensures forall r :: r in Visible(raws, filter) <==> r in raws && !Skipped(r, filter)
    decreases |raws|
  {
    if raws != [] {
      var n := |raws| - 1;
      VisibleMembers(raws[..n], filter);
      assert raws == raws[..n] + [raws[n]];
    }
  }

  /** The first entry for everyone. */
  function FirstGlobal(raws: seq<Raw>): (r: Option<Raw>)
    ensures r.Some? ==> r.value in raws && r.value.userId == ALL_USERS
    ensures r.None? ==> forall e :: e in raws ==> e.userId != ALL_USERS
  {
    if raws == [] then None
    else if raws[0].userId == ALL_USERS then Some(raws[0])
    else FirstGlobal(raws[1..])
  }

  predicate AllDecode(raws: seq<Raw>) {
    forall r :: r in raws ==> Decode(r).Some?
  }

  function Decoded(raws: seq<Raw>): (entries: seq<Entry>)
    requires AllDecode(raws)
    ensures |entries| == |raws|
    ensures forall i :: 0 <= i < |raws| ==> Some(entries[i]) == Decode(raws[i])
  {
    seq(|raws|, i requires 0 <= i < |raws| => Decode(raws[i]).value)
  }

  /** The users in the order in which they first appear. */
  function FirstUsers(entries: seq<Entry>): (users: seq<Option<string>>)
    ensures forall e :: e in entries <==> e in entries && e.user in users
    ensures forall u :: u in users ==> exists e :: e in entries && e.user == u
    decreases |entries|
  {
    if entries == [] then [] else
    var n := |entries| - 1;
    var above := FirstUsers(entries[..n]);
    assert entries == entries[..n] + [entries[n]];
    if entries[n].user in above then above else above + [entries[n].user]
  }

  function OfUser(entries: seq<Entry>, user: Option<string>): (own: seq<Entry>)
    ensures forall e :: e in own <==> e in entries && e.user == user
    decreases |entries|
  {
    if entries == [] then [] else
    var n := |entries| - 1;
    var above := OfUser(entries[..n], user);
    assert entries == entries[..n] + [entries[n]];
    if entries[n].user == user then above + [entries[n]] else above
  }

  function GroupsOf(entries: seq<Entry>, users: seq<Option<string>>): (grouped: seq<Entry>)
    ensures forall e :: e in grouped <==> e in entries && e.user in users
    decreases |users|
  {
    if users == [] then []
    else
      var n := |users| - 1;
      assert users == users[..n] + [users[n]];
      GroupsOf(entries, users[..n]) + OfUser(entries, users[n])
  }

  /** The entries user by user. */
  function Grouped(entries: seq<Entry>): (grouped: seq<Entry>)
    ensures forall e :: e in grouped <==> e in entries
  {
    GroupsOf(entries, FirstUsers(entries))
  }

  /** `getAll` on parsed entries: an entry for everyone hides all others; `None` is an exception. */
  function Listed(raws: seq<Raw>): Option<seq<Entry>> {
    var global := FirstGlobal(raws);
    if global.Some? then Some([Entry(global.value.id, None, None, DateFrom(global.value.date))])
    else if !AllDecode(raws) then None
    else Some(Grouped(Decoded(raws)))
  }

  // The grouping in plain words.

  /** The one user appears before any entry of the other. */
  ghost predicate AppearsFirst(entries: seq<Entry>, first: Option<string>, second: Option<string>) {
    exists i :: 0 <= i < |entries| && entries[i].user == first && forall j :: 0 <= j <= i ==> entries[j].user != second
  }

  lemma {:induction false} OwnCounts(entries: seq<Entry>, user: Option<string>, e: Entry)
    ensures multiset(OfUser(entries, user))[e] == if e.user == user then multiset(entries)[e] else 0
    decreases |entries|
  {
    if entries != [] {
      var n := |entries| - 1;
      assert entries == entries[..n] + [entries[n]];
      OwnCounts(entries[..n], user, e);
    }
  }

  ghost predicate DistinctUsers(users: seq<Option<string>>) {
    forall i, j :: 0 <= i < j < |users| ==> users[i] != users[j]
  }

  lemma {:induction false} FirstUsersDistinct(entries: seq<Entry>)
    ensures DistinctUsers(FirstUsers(entries))
    decreases |entries|
  {
    if entries != [] {
      FirstUsersDistinct(entries[..|entries| - 1]);
    }
  }

  lemma {:induction false} GroupsCount(entries: seq<Entry>, users: seq<Option<string>>, e: Entry)
    requires DistinctUsers(users)
    ensures multiset(GroupsOf(entries, users))[e] == if e.user in users then multiset(entries)[e] else 0
    decreases |users|
  {
    if users != [] {
      var n := |users| - 1;
      assert users == users[..n] + [users[n]];
      GroupsCount(entries, users[..n], e);
      OwnCounts(entries, users[n], e);
      assert e.user == users[n] ==> e.user !in users[..n];
    }
  }

  lemma {:induction false} OwnInOrder(entries: seq<Entry>, user: Option<string>, d: Entry, e: Entry)
    requires d.user == user && e.user == user
    ensures Before(entries, d, e) <==> Before(OfUser(entries, user), d, e)
    decreases |entries|
  {
    hide Before;
    if entries == [] {
      NothingBefore(d, e);
    } else {
      var n := |entries| - 1;
      assert entries == entries[..n] + [entries[n]];
      OwnInOrder(entries[..n], user, d, e);
      BeforeSnoc(entries[..n], entries[n], d, e);
      BeforeSnoc(OfUser(entries[..n], user), entries[n], d, e);
    }
  }

  lemma {:induction false} GroupsKeepOrder(entries: seq<Entry>, users: seq<Option<string>>, d: Entry, e: Entry)
    requires d.user == e.user && d.user in users && Before(entries, d, e)
    ensures Before(GroupsOf(entries, users), d, e)
    decreases |users|
  {
    hide Before;
    var n := |users| - 1;
    var above, own := GroupsOf(entries, users[..n]), OfUser(entries, users[n]);
    assert users == users[..n] + [users[n]];
    if users[n] == d.user {
      OwnInOrder(entries, d.user, d, e);
      BeforeGrows(above, own, [], d, e);
      assert above + own + [] == above + own;
    } else {
      GroupsKeepOrder(entries, users[..n], d, e);
      BeforeGrows([], above, own, d, e);
      assert [] + above + own == above + own;
    }
  }

  lemma AppearsGrows(init: seq<Entry>, last: Entry, first: Option<string>, second: Option<string>)
    requires AppearsFirst(init, first, second)
    ensures AppearsFirst(init + [last], first, second)
  {
    var all := init + [last];
    var k :| 0 <= k < |init| && init[k].user == first && forall m :: 0 <= m <= k ==> init[m].user != second;
    assert all[k].user == first && forall m :: 0 <= m <= k ==> all[m] == init[m];
  }

  lemma NewUserLast(init: seq<Entry>, last: Entry, first: Option<string>)
    requires (forall e :: e in init ==> e.user != last.user) && exists e :: e in init && e.user == first
    ensures AppearsFirst(init + [last], first, last.user)
  {
    var e :| e in init && e.user == first;
    var k :| 0 <= k < |init| && init[k] == e;
    var all := init + [last];
    assert all[k].user == first && forall m :: 0 <= m <= k ==> all[m] == init[m] && init[m] in init;
  }

  lemma {:induction false} FirstUsersInOrder(entries: seq<Entry>, i: nat, j: nat)
    requires i < j < |FirstUsers(entries)|
    ensures AppearsFirst(entries, FirstUsers(entries)[i], FirstUsers(entries)[j])
    decreases |entries|
  {
    hide AppearsFirst;
    var n := |entries| - 1;
    var init, users := entries[..n], FirstUsers(entries[..n]);
    assert entries == init + [entries[n]];
    if j < |users| {
      FirstUsersInOrder(init, i, j);
      AppearsGrows(init, entries[n], users[i], users[j]);
    } else {
      assert users[i] in users;
      assert forall e :: e in init ==> e.user in users;
      NewUserLast(init, entries[n], users[i]);
    }
  }

  lemma {:induction false} GroupsInOrder(entries: seq<Entry>, users: seq<Option<string>>, i: nat, j: nat) returns (a: nat, b: nat)
    requires i < j < |GroupsOf(entries, users)|
    ensures a <= b < |users| && users[a] == GroupsOf(entries, users)[i].user && users[b] == GroupsOf(entries, users)[j].user
    decreases |users|
  {
    var n := |users| - 1;
    var above, own := GroupsOf(entries, users[..n]), OfUser(entries, users[n]);
    if j < |above| {
      a, b := GroupsInOrder(entries, users[..n], i, j);
    } else {
      b := n;
      assert own[j - |above|] in own;
      if i < |above| {
        assert above[i] in above;
        a :| 0 <= a < n && users[a] == above[i].user;
      } else {
        assert own[i - |above|] in own;
        a := n;
      }
    }
  }

  /** The list user by user: every entry as often as before, the entries of one user in their order,
      and before those of another when the user appears first. */
  lemma GroupedMeans(entries: seq<Entry>)
    ensures multiset(Grouped(entries)) == multiset(entries)
    ensures forall d: Entry, e: Entry :: d.user == e.user && Before(entries, d, e) ==> Before(Grouped(entries), d, e)
    ensures forall i, j :: 0 <= i < j < |Grouped(entries)| && Grouped(entries)[i].user != Grouped(entries)[j].user ==>
                             AppearsFirst(entries, Grouped(entries)[i].user, Grouped(entries)[j].user)
  {
    hide Before, AppearsFirst, GroupsOf, FirstUsers;
    var users, grouped := FirstUsers(entries), Grouped(entries);
    FirstUsersDistinct(entries);
    forall e: Entry {
      GroupsCount(entries, users, e);
    }
    assert forall e :: multiset(grouped)[e] == multiset(entries)[e];
    forall d: Entry, e: Entry | d.user == e.user && Before(entries, d, e)
      ensures Before(grouped, d, e)
    {
      BeforeIsIn(entries, d, e);
      GroupsKeepOrder(entries, users, d, e);
    }
    forall i, j | 0 <= i < j < |grouped| && grouped[i].user != grouped[j].user
      ensures AppearsFirst(entries, grouped[i].user, grouped[j].user)
    {
      var a, b := GroupsInOrder(entries, users, i, j);
      FirstUsersInOrder(entries, a, b);
    }
  }

  // The conflict check.

  predicate ForEveryone(e: Entry) {
    e.user.None? && e.ports.None?
  }

  predicate AllPortsOfUser(e: Entry) {
    e.user.Some? && e.ports.None?
  }

  predicate Shares(e: Entry, ports: seq<nat>) {
    e.user.Some? && e.ports.Some? && exists p :: p in ports && p in e.ports.value
  }

  predicate Conflicts(entries: seq<Entry>, ports: seq<nat>) {
    || (exists e :: e in entries && ForEveryone(e))
    || (exists e :: e in entries && AllPortsOfUser(e))
    || (exists e :: e in entries && Shares(e, ports))
  }

  datatype User = User(id: string, username: string)

  datatype Request = Request(user: Option<User>, custom: bool, ports: seq<nat>)

  /** The ports of the entry a request makes; `None` where no case of the switch applies. */
  function Form(req: Request): Option<Option<seq<nat>>> {
    if !req.custom then Some(None)
    else if req.user.Some? && req.ports != [] then Some(Some(req.ports))
    else None
  }

  function UserIdOf(req: Request): Option<string> {
    if req.user.Some? then Some(req.user.value.id) else None
  }

  function UsernameOf(req: Request): Option<string> {
    if req.user.Some? then Some(req.user.value.username) else None
  }

  /** At most one entry for everyone; at most one all-ports entry for a user; not both kinds; and
      two custom entries of one user share no port. */
  ghost predicate Compatible(a: Entry, b: Entry) {
    && !(ForEveryone(a) && (ForEveryone(b) || AllPortsOfUser(b)))
    && !(AllPortsOfUser(a) && (ForEveryone(b) || (AllPortsOfUser(b) && a.user == b.user)))
    && (a.user.Some? && a.user == b.user && a.ports.Some? && b.ports.Some? ==>
          forall p :: p in a.ports.value ==> p !in b.ports.value)
  }

  ghost predicate NoConflict(entries: seq<Entry>) {
    forall i, j :: 0 <= i < j < |entries| ==> Compatible(entries[i], entries[j])
  }

  /** The entries of a file as the parser collects them when every user id was printed. */
  predicate CleanRaw(r: Raw) {
    r.userRaws == [r.userId] && Decode(r).Some?
  }

  predicate Clean(raws: seq<Raw>) {
    forall r :: r in raws ==> CleanRaw(r)
  }

  /** While an entry for everyone exists no request is accepted, and none is hidden from a user
      whose own entries conflict: the listing is complete for the requester otherwise. */
  lemma ListedIsComplete(raws: seq<Raw>, filter: Option<string>)
    requires Clean(raws)
    ensures Listed(Visible(raws, filter)).Some?
    ensures (forall r :: r in raws ==> r.userId != ALL_USERS) ==>
              forall e :: e in Listed(Visible(raws, filter)).value <==>
                exists r :: r in raws && e == Decode(r).value && PassesFilter(r.userId, filter)
    ensures (exists r :: r in raws && r.userId == ALL_USERS) ==>
              |Listed(Visible(raws, filter)).value| == 1 && ForEveryone(Listed(Visible(raws, filter)).value[0])
    ensures (exists r :: r in raws && r.userId == ALL_USERS) ==>
              exists r :: r in raws && r.userId == ALL_USERS && Decode(r) == Some(Listed(Visible(raws, filter)).value[0])
  {
    var visible := Visible(raws, filter);
    VisibleMembers(raws, filter);
    forall r | r in raws
      ensures Skipped(r, filter) <==> !PassesFilter(r.userId, filter)
    {
      assert CleanRaw(r) && r.userId in r.userRaws;
    }
    if FirstGlobal(visible).None? {
      var decoded := Decoded(visible);
      forall e | e in decoded
        ensures exists r :: r in raws && e == Decode(r).value && PassesFilter(r.userId, filter)
      {
        var i :| 0 <= i < |decoded| && decoded[i] == e;
        assert visible[i] in raws && e == Decode(visible[i]).value;
      }
      forall r | r in raws && PassesFilter(r.userId, filter)
        ensures Decode(r).value in decoded
      {
        var i :| 0 <= i < |visible| && visible[i] == r;
        assert decoded[i] == Decode(r).value;
      }
    }
  }

  lemma GlobalIsListed(raws: seq<Raw>, filter: Option<string>)
    requires Clean(raws)
    ensures Listed(Visible(raws, filter)).Some?
    ensures (exists r :: r in raws && r.userId == ALL_USERS) ==>
              exists e :: e in Listed(Visible(raws, filter)).value && ForEveryone(e)
  {
    hide Listed, Visible, Decode;
    ListedIsComplete(raws, filter);
    if exists r :: r in raws && r.userId == ALL_USERS {
      var list := Listed(Visible(raws, filter)).value;
      assert list[0] in list;
    }
  }

  lemma DecodedUser(r: Raw)
    requires Decode(r).Some?
    ensures if r.userId == ALL_USERS then ForEveryone(Decode(r).value) else Decode(r).value.user == Some(r.userId)
  {
  }

  /** A request whose check found no conflict, with the entry it makes. */
  ghost predicate Accepts(raws: seq<Raw>, req: Request, e: Entry) {
    && (req.user.Some? ==> req.user.value.id != "" && req.user.value.id != ALL_USERS)
    && Listed(Visible(raws, UserIdOf(req))).Some?
    && !Conflicts(Listed(Visible(raws, UserIdOf(req))).value, req.ports)
    && Form(req).Some? && e.user == UserIdOf(req) && e.ports == Form(req).value
  }

  lemma AcceptedSeesNoGlobal(raws: seq<Raw>, req: Request, e: Entry, r: Raw)
    requires Clean(raws) && Accepts(raws, req, e) && r in raws
    ensures r.userId != ALL_USERS
    ensures PassesFilter(r.userId, UserIdOf(req)) ==>
              var d := Decode(r).value; !ForEveryone(d) && !AllPortsOfUser(d) && !Shares(d, req.ports)
  {
    hide Listed, Visible, Decode;
    ListedIsComplete(raws, UserIdOf(req));
    GlobalIsListed(raws, UserIdOf(req));
  }

  /** What the check sees for a request is enough: although it lists only the entries of the
      requesting user, and only the global entry when there is one, an accepted request is
      compatible with every entry of the file. */
  lemma AcceptedIsCompatible(raws: seq<Raw>, req: Request, e: Entry, r: Raw)
    requires Clean(raws) && Accepts(raws, req, e) && r in raws
    ensures Decode(r).Some? && Compatible(e, Decode(r).value)
  {
    hide Listed, Visible, Decode, Conflicts;
    assert CleanRaw(r);
    AcceptedSeesNoGlobal(raws, req, e, r);
    DecodedUser(r);
    var d := Decode(r).value;
    if PassesFilter(r.userId, UserIdOf(req)) && d.ports.Some? && e.ports.Some? && d.user == e.user {
      forall p | p in e.ports.value
        ensures p !in d.ports.value
      {
        assert p in req.ports;
      }
    }
  }

  lemma AcceptedKeepsNoConflict(raws: seq<Raw>, req: Request, e: Entry)
    requires Clean(raws) && NoConflict(Decoded(raws)) && Accepts(raws, req, e)
    ensures NoConflict([e] + Decoded(raws))
  {
    hide Accepts, Compatible, Decode;
    var all := [e] + Decoded(raws);
    forall i, j | 0 <= i < j < |all|
      ensures Compatible(all[i], all[j])
    {
      if i == 0 {
        AcceptedIsCompatible(raws, req, e, raws[j - 1]);
      } else {
        assert Compatible(Decoded(raws)[i - 1], Decoded(raws)[j - 1]);
      }
    }
  }

  lemma RemovalKeepsNoConflict(entries: seq<Entry>, k: nat)
    requires NoConflict(entries) && k < |entries|
    ensures NoConflict(WithoutIndex(entries, k))
  {
    var rest := WithoutIndex(entries, k);
    forall i, j | 0 <= i < j < |rest|
      ensures Compatible(rest[i], rest[j])
    {
      assert Compatible(entries[if i < k then i else i + 1], entries[if j < k then j else j + 1]);
    }
  }

  // When a request is refused, over the entries of the file.

  /** The entry is for everyone, or it belongs to a user the request is about and is for all ports or
      holds a requested port. A request for everyone is about every user. */
  ghost predicate Clashes(e: Entry, req: Request) {
    || e.user.None?
    || ((req.user.None? || e.user == Some(req.user.value.id))
        && (e.ports.None? || exists p :: p in req.ports && p in e.ports.value))
  }

  lemma DecodedHas(raws: seq<Raw>, r: Raw)
    requires AllDecode(raws) && r in raws
    ensures Decode(r).Some? && Decode(r).value in Decoded(raws)
  {
    hide Decode;
    var i :| 0 <= i < |raws| && raws[i] == r;
    assert Decoded(raws)[i] == Decode(r).value;
  }

  /** The check on the listing finds a conflict exactly when some entry of the file clashes. */
  lemma ConflictsMeans(raws: seq<Raw>, req: Request)
    requires Clean(raws) && (req.user.Some? ==> req.user.value.id != "" && req.user.value.id != ALL_USERS)
    ensures Listed(Visible(raws, UserIdOf(req))).Some?
    ensures Conflicts(Listed(Visible(raws, UserIdOf(req))).value, req.ports) <==>
            exists e :: e in Decoded(raws) && Clashes(e, req)
  {
    hide Listed, Visible, Decode;
    ListedIsComplete(raws, UserIdOf(req));
    var list := Listed(Visible(raws, UserIdOf(req))).value;
    if r :| r in raws && r.userId == ALL_USERS {
      DecodedHas(raws, r);
      DecodedUser(r);
      assert ForEveryone(list[0]) && list[0] in list;
      assert Clashes(Decode(r).value, req);
    } else {
      forall r | r in raws
        ensures Decode(r).Some? && Decode(r).value in Decoded(raws) && Decode(r).value.user == Some(r.userId)
      {
        DecodedHas(raws, r);
        DecodedUser(r);
      }
      if e :| e in list && (AllPortsOfUser(e) || Shares(e, req.ports) || ForEveryone(e)) {
        assert Clashes(e, req);
      }
      if e :| e in Decoded(raws) && Clashes(e, req) {
        ClashIsListed(raws, req, e, list);
      }
    }
  }

  lemma ClashIsListed(raws: seq<Raw>, req: Request, e: Entry, list: seq<Entry>)
    requires AllDecode(raws) && e in Decoded(raws) && Clashes(e, req)
    requires forall r :: r in raws ==> r.userId != ALL_USERS && Decode(r).value.user == Some(r.userId)
    requires forall x :: x in list <==> exists r :: r in raws && x == Decode(r).value && PassesFilter(r.userId, UserIdOf(req))
    ensures Conflicts(list, req.ports)
  {
    hide Decode;
    var i :| 0 <= i < |raws| && Decoded(raws)[i] == e;
    assert raws[i] in raws && e == Decode(raws[i]).value;
    assert PassesFilter(raws[i].userId, UserIdOf(req));
    assert e in list;
  }

  /** The entry that an accepted request makes. */
  function Requested(req: Request, id: string, date: nat): Entry {
    Entry(id, UserIdOf(req), if req.custom then Some(req.ports) else None, Some(date))
  }

  /** Which requests are compatible with the file and which clash: the same, but that a custom request
      also clashes with entries for all ports, which it would only repeat. */
  lemma ClashesOrCompatible(entries: seq<Entry>, req: Request, id: string, date: nat)
    requires req.custom ==> req.user.Some?
    requires !req.custom ==> req.ports == []
    requires forall e :: e in entries && e.user.None? ==> e.ports.None?
    ensures (forall e :: e in entries ==> !Clashes(e, req)) <==>
            && (forall e :: e in entries ==> Compatible(Requested(req, id, date), e))
            && (req.custom ==> forall e :: e in entries && e.ports.None? ==> e.user.Some? && e.user != UserIdOf(req))
  {
    var made := Requested(req, id, date);
    forall e | e in entries
      ensures !Clashes(e, req) <==>
              Compatible(made, e) && (req.custom && e.ports.None? ==> e.user.Some? && e.user != UserIdOf(req))
    {
    }
  }
}
