// The container lifecycle as a state machine: what the service calls may do to the set of labelled
// containers when any external step can fail, and the invariant that every call keeps.
module Lifecycle {
  import opened Wrappers
  import opened Runners

  datatype Identity = Identity(id: string, name: string)

  /** The containers, the source of fresh ids, the providers that the Mysterium API knows, each with
      its provider identity, the addresses reported for providers, and the ids of the identities whose
      key file is there. */
  datatype World = World(runners: seq<Runner>, nextId: nat, catalog: map<string, string>, addresses: map<string, string>,
                         keyFiles: set<string>)

  datatype Error =
    | Unavailable
    | NotFound
    | InUse
    | NoIdentity
    | NotRunning
    | NotConnecting
    | ProxyInUse
    | TooMany
    | Exist
    | NameTaken

  datatype Outcome = Done | Refused(error: Error)

  // The invariant.

  /** The label holds the id of one of the identities, with its name where `named`. */
  predicate Carries(ids: seq<Identity>, tag: Option<MystLabel>, named: bool) {
    exists k :: 0 <= k < |ids| && tag == Some(MystLabel(ids[k].id, if named then Some(ids[k].name) else None))
  }

  predicate WellLabelled(ids: seq<Identity>, r: Runner) {
    && (r.service != Myst ==> ProviderOf(r) != "")
    && Carries(ids, r.tags.myst, r.service == Myst || r.service == MystConnect)
    && (r.service == Myst ==> r.tags.vpn.None? && r.status != Creating)
    && (r.service == MystConnect ==> r.tags.vpn.value.userIdentity == r.tags.myst.value.identity)
    && (r.tags.upstream.Some? <==> r.service == Socat)
    && (r.tags.downstream.Some? <==> r.service == Envoy)
  }

  predicate Below(r: Runner, n: nat) {
    r.id < n && (r.tags.upstream.Some? ==> r.tags.upstream.value < n)
    && (r.tags.downstream.Some? ==> r.tags.downstream.value < n)
  }

  /** What two containers of one world never share. */
  predicate Apart(a: Runner, b: Runner) {
    && a.id != b.id
    && (a.service == b.service ==>
          match a.service
          case Myst => IdentityOf(a) != IdentityOf(b)
          case MystConnect => IdentityOf(a) != IdentityOf(b) && ProviderOf(a) != ProviderOf(b)
          case Socat => ProviderOf(a) != ProviderOf(b) && a.tags.upstream != b.tags.upstream
          case Envoy => ProviderOf(a) != ProviderOf(b))
  }

  predicate AllApart(rs: seq<Runner>) {
    forall i, j :: 0 <= i < j < |rs| ==> Apart(rs[i], rs[j])
  }

  /** The container that another one rests on: same provider, same identity, one layer down. */
  predicate Backs(c: Runner, r: Runner) {
    && (r.service == Socat ==> c.service == MystConnect)
    && (r.service == Envoy ==> c.service == Socat)
    && ProviderOf(c) == ProviderOf(r) && IdentityOf(c) == IdentityOf(r)
  }

  predicate Supported(rs: seq<Runner>, r: Runner) {
    r.service == Socat || r.service == Envoy ==> exists c :: c in rs && Backs(c, r)
  }

  predicate IdentitiesDistinct(ids: seq<Identity>) {
    forall i, j :: 0 <= i < j < |ids| ==> ids[i].id != ids[j].id && ids[i].name != ids[j].name
  }

  /** Every identity has a MYST container. */
  predicate Staffed(ids: seq<Identity>, rs: seq<Runner>) {
    forall k :: 0 <= k < |ids| ==> LastMyst(rs, ids[k].id).Some?
  }

  ghost predicate Inv(ids: seq<Identity>, rs: seq<Runner>, n: nat) {
    && IdentitiesDistinct(ids) && Staffed(ids, rs)
    && (forall r :: r in rs ==> WellLabelled(ids, r) && Below(r, n) && Supported(rs, r))
    && AllApart(rs)
  }

  // Adding, removing and re-reading containers.

  lemma ApartIsSymmetric(rs: seq<Runner>, a: Runner, b: Runner)
    requires AllApart(rs)
    requires a in rs && b in rs && a != b
    ensures Apart(a, b)
  {
    var i :| 0 <= i < |rs| && rs[i] == a;
    var j :| 0 <= j < |rs| && rs[j] == b;
    assert if i < j then Apart(rs[i], rs[j]) else Apart(rs[j], rs[i]);
  }

  lemma LastMystSnoc(rs: seq<Runner>, r: Runner, id: string)
    ensures LastMyst(rs + [r], id) == if MystRunnerOf(r, id) then Some(r) else LastMyst(rs, id)
  {
    assert (rs + [r])[..|rs|] == rs;
  }

  lemma AddKeeps(ids: seq<Identity>, rs: seq<Runner>, n: nat, r: Runner, n': nat)
    requires Inv(ids, rs, n) && n <= n' && Below(r, n')
    requires WellLabelled(ids, r) && Supported(rs, r) && r.service != Myst
    requires forall x :: x in rs ==> Apart(x, r)
    ensures Inv(ids, rs + [r], n')
  {
    hide WellLabelled, Apart, Backs;
    var after := rs + [r];
    forall k | 0 <= k < |ids|
      ensures LastMyst(after, ids[k].id).Some?
    {
      LastMystSnoc(rs, r, ids[k].id);
    }
    forall x | x in after
      ensures WellLabelled(ids, x) && Below(x, n') && Supported(after, x)
    {
      assert Supported(rs, x);
      if x.service == Socat || x.service == Envoy {
        var c :| c in rs && Backs(c, x);
        assert c in after;
      }
    }
  }

  /** The containers whose id is not in `gone`. */
  function Without(rs: seq<Runner>, gone: set<nat>): (left: seq<Runner>)
    ensures forall r :: r in left <==> r in rs && r.id !in gone
  {
    if rs == [] then []
    else
      var n := |rs| - 1;
      var left := Without(rs[..n], gone);
      assert rs == rs[..n] + [rs[n]];
      if rs[n].id in gone then left else left + [rs[n]]
  }

  lemma WithoutSnoc(rs: seq<Runner>, r: Runner, gone: set<nat>)
    ensures Without(rs + [r], gone) == Without(rs, gone) + (if r.id in gone then [] else [r])
  {
    assert (rs + [r])[..|rs|] == rs;
  }

  lemma {:induction false} WithoutAbsent(rs: seq<Runner>, gone: set<nat>)
    requires forall r :: r in rs ==> r.id !in gone
    ensures Without(rs, gone) == rs
  {
    if rs != [] {
      var n := |rs| - 1;
      assert rs == rs[..n] + [rs[n]];
      WithoutAbsent(rs[..n], gone);
    }
  }

  lemma {:induction false} WithoutKeepsApart(rs: seq<Runner>, gone: set<nat>)
    requires AllApart(rs)
    ensures AllApart(Without(rs, gone))
  {
    hide Apart;
    if rs != [] {
      var n := |rs| - 1;
      WithoutKeepsApart(rs[..n], gone);
      var left := Without(rs[..n], gone);
      forall i | 0 <= i < |left|
        ensures Apart(left[i], rs[n])
      {
        assert left[i] in rs[..n];
        var j :| 0 <= j < n && rs[..n][j] == left[i];
        assert Apart(rs[j], rs[n]);
      }
    }
  }

  /** A set of ids that takes no MYST container, and no container without those that rest on it. */
  predicate Closed(rs: seq<Runner>, gone: set<nat>) {
    forall c :: c in rs && c.id in gone ==>
      c.service != Myst && forall r :: r in rs && r.service != Myst && r.service != MystConnect && Backs(c, r) ==> r.id in gone
  }

  lemma WithoutKeepsMyst(rs: seq<Runner>, gone: set<nat>, id: string)
    requires forall r :: r in rs && r.id in gone ==> r.service != Myst
    ensures LastMyst(rs, id).Some? ==> LastMyst(Without(rs, gone), id).Some?
  {
    if LastMyst(rs, id).Some? {
      assert LastMyst(rs, id).value in Without(rs, gone);
    }
  }

  lemma RemoveKeeps(ids: seq<Identity>, rs: seq<Runner>, n: nat, gone: set<nat>)
    requires Inv(ids, rs, n) && Closed(rs, gone)
    ensures Inv(ids, Without(rs, gone), n)
  {
    hide WellLabelled, Apart, Backs, Below, LastMyst, MystRunnerOf;
    WithoutKeepsApart(rs, gone);
    var left := Without(rs, gone);
    forall k | 0 <= k < |ids|
      ensures LastMyst(left, ids[k].id).Some?
    {
      WithoutKeepsMyst(rs, gone, ids[k].id);
    }
    forall x | x in left
      ensures Supported(left, x)
    {
      assert Supported(rs, x);
      if x.service == Socat || x.service == Envoy {
        var c :| c in rs && Backs(c, x);
        assert c in left;
      }
    }
  }

  /** What the environment may do between two calls: change statuses, except that a MYST container
      never goes back to `created`. */
  predicate Drifted(rs: seq<Runner>, rs': seq<Runner>) {
    |rs| == |rs'| && forall i :: 0 <= i < |rs| ==>
      rs'[i] == rs[i].(status := rs'[i].status) && (rs[i].service == Myst ==> rs'[i].status != Creating)
  }

  lemma DriftKeepsMyst(rs: seq<Runner>, rs': seq<Runner>, id: string)
    requires Drifted(rs, rs')
    ensures LastMyst(rs, id).Some? ==> LastMyst(rs', id).Some?
  {
    if LastMyst(rs, id).Some? {
      var i :| 0 <= i < |rs| && rs[i] == LastMyst(rs, id).value;
      assert rs'[i] in rs' && MystRunnerOf(rs'[i], id);
    }
  }

  lemma DriftKeepsShape(ids: seq<Identity>, r: Runner, r': Runner, n: nat)
    requires r' == r.(status := r'.status) && (r.service == Myst ==> r'.status != Creating)
    requires WellLabelled(ids, r) && Below(r, n)
    ensures WellLabelled(ids, r') && Below(r', n)
  {
    hide Carries;
  }

  lemma DriftKeepsPair(a: Runner, a': Runner, b: Runner, b': Runner)
    requires a' == a.(status := a'.status) && b' == b.(status := b'.status)
    ensures (Apart(a, b) ==> Apart(a', b')) && (Backs(a, b) ==> Backs(a', b'))
  {
  }

  lemma DriftKeeps(ids: seq<Identity>, rs: seq<Runner>, rs': seq<Runner>, n: nat)
    requires Inv(ids, rs, n) && Drifted(rs, rs')
    ensures Inv(ids, rs', n)
  {
    hide LastMyst, WellLabelled, Below, Apart, Backs;
    forall k | 0 <= k < |ids|
      ensures LastMyst(rs', ids[k].id).Some?
    {
      DriftKeepsMyst(rs, rs', ids[k].id);
    }
    forall r' | r' in rs'
      ensures WellLabelled(ids, r') && Below(r', n) && Supported(rs', r')
    {
      var i :| 0 <= i < |rs'| && rs'[i] == r';
      assert rs[i] in rs && Supported(rs, rs[i]);
      DriftKeepsShape(ids, rs[i], r', n);
      if r'.service == Socat || r'.service == Envoy {
        var c :| c in rs && Backs(c, rs[i]);
        var j :| 0 <= j < |rs| && rs[j] == c;
        DriftKeepsPair(rs[j], rs'[j], rs[i], r');
        assert rs'[j] in rs';
      }
    }
    forall i, j | 0 <= i < j < |rs'|
      ensures Apart(rs'[i], rs'[j])
    {
      assert Apart(rs[i], rs[j]);
      DriftKeepsPair(rs[i], rs'[i], rs[j], rs'[j]);
    }
  }

  // What the invariant says of one provider.

  lemma {:induction false} AtMostOneEach(rs: seq<Runner>, service: Service, p: string)
    requires AllApart(rs) && service != Myst
    ensures |Select(rs, service, p)| <= 1
  {
    if rs != [] {
      var n := |rs| - 1;
      AtMostOneEach(rs[..n], service, p);
      assert rs == rs[..n] + [rs[n]];
      SelectSnoc(rs[..n], rs[n], service, p);
      forall j | 0 <= j < n && Names(rs[n], service, p)
        ensures !Names(rs[..n][j], service, p)
      {
        assert Apart(rs[j], rs[n]);
      }
      var own := Select(rs[..n], service, p);
      assert own == [] || own[0] in rs[..n];
    }
  }

  lemma Selected(rs: seq<Runner>, service: Service, p: string, r: Runner)
    requires AllApart(rs) && service != Myst && r in rs && Names(r, service, p)
    ensures Select(rs, service, p) == [r]
  {
    AtMostOneEach(rs, service, p);
    assert r in Select(rs, service, p);
  }

  lemma ConnectHasMyst(ids: seq<Identity>, rs: seq<Runner>, n: nat, r: Runner)
    requires Inv(ids, rs, n) && r in rs
    ensures r.tags.myst.Some? && LastMyst(rs, r.tags.myst.value.id).Some?
    ensures exists k :: 0 <= k < |ids| && ids[k].id == r.tags.myst.value.id
    ensures LastMyst(rs, r.tags.myst.value.id).value.tags.myst.value.identity.Some?
  {
    hide LastMyst, Apart, Supported, Below;
    assert WellLabelled(ids, r);
    var k :| 0 <= k < |ids| && r.tags.myst.value.id == ids[k].id;
    var m := LastMyst(rs, ids[k].id).value;
    assert m in rs && WellLabelled(ids, m);
  }

  lemma LayerBelow(ids: seq<Identity>, rs: seq<Runner>, n: nat, r: Runner, upper: Service, lower: Service, p: string)
    requires Inv(ids, rs, n) && r in rs && Names(r, upper, p)
    requires (upper == Socat && lower == MystConnect) || (upper == Envoy && lower == Socat)
    ensures exists c :: Select(rs, lower, p) == [c] && IdentityOf(c) == IdentityOf(r)
  {
    hide LastMyst, Apart, Below;
    assert Supported(rs, r) && WellLabelled(ids, r);
    var c :| c in rs && Backs(c, r);
    assert WellLabelled(ids, c);
    Selected(rs, lower, p, c);
  }

  /** A SOCAT's provider has a MYST_CONNECT and an ENVOY's provider has a SOCAT, of one identity;
      there is at most one of each. */
  lemma LayersRest(ids: seq<Identity>, rs: seq<Runner>, n: nat, p: string)
    requires Inv(ids, rs, n)
    ensures var connects, socats, envoys := Select(rs, MystConnect, p), Select(rs, Socat, p), Select(rs, Envoy, p);
            && |connects| <= 1 && |socats| <= 1 && |envoys| <= 1
            && (socats != [] ==> connects != [] && IdentityOf(socats[0]) == IdentityOf(connects[0]))
            && (envoys != [] ==> socats != [] && IdentityOf(envoys[0]) == IdentityOf(socats[0]))
  {
    hide Select, LastMyst, WellLabelled, Apart, Below, Supported;
    AtMostOneEach(rs, MystConnect, p);
    AtMostOneEach(rs, Socat, p);
    AtMostOneEach(rs, Envoy, p);
    var socats, envoys := Select(rs, Socat, p), Select(rs, Envoy, p);
    if socats != [] {
      assert socats[0] in socats;
      LayerBelow(ids, rs, n, socats[0], Socat, MystConnect, p);
    }
    if envoys != [] {
      assert envoys[0] in envoys;
      LayerBelow(ids, rs, n, envoys[0], Envoy, Socat, p);
    }
  }

  // The guards of the service calls, as functions of the world.

  predicate Used(rs: seq<Runner>, identityId: string) {
    exists c :: c in rs && c.service == MystConnect && IdentityOf(c) == Some(identityId)
  }

  /** The identities with a key file and without a MYST_CONNECT, in order. */
  function Free(ids: seq<Identity>, rs: seq<Runner>, keyFiles: set<string>): (free: seq<Identity>)
    ensures forall i :: i in free <==> i in ids && i.id in keyFiles && !Used(rs, i.id)
  {
    if ids == [] then []
    else
      var n := |ids| - 1;
      var free := Free(ids[..n], rs, keyFiles);
      assert ids == ids[..n] + [ids[n]];
      if ids[n].id !in keyFiles || Used(rs, ids[n].id) then free else free + [ids[n]]
  }

  datatype Verdict = Refuse(error: Error) | Go(identity: Identity)

  function MystStatus(rs: seq<Runner>, identityId: string): Status {
    var m := LastMyst(rs, identityId);
    if m.Some? then m.value.status else Failed
  }

  /** The identity of a provider's MYST_CONNECT, with the name that its MYST container carries. */
  function ServingIdentity(rs: seq<Runner>, c: Runner): Identity {
    var id := if c.tags.myst.Some? then c.tags.myst.value.id else "";
    var m := LastMyst(rs, id);
    Identity(id, if m.Some? then m.value.tags.myst.value.identity.UnwrapOr("") else "")
  }

  function UpVerdict(ids: seq<Identity>, w: World, p: string): (v: Verdict)
    ensures v.Go? ==> p in w.catalog && Select(w.runners, MystConnect, p) == []
    ensures v.Go? ==> v.identity in ids && !Used(w.runners, v.identity.id) && MystStatus(w.runners, v.identity.id) == Running
  {
    var free := Free(ids, w.runners, w.keyFiles);
    if Select(w.runners, MystConnect, p) != [] then Refuse(InUse)
    else if p !in w.catalog then Refuse(NotFound)
    else if free == [] then Refuse(NoIdentity)
    else if MystStatus(w.runners, free[0].id) != Running then Refuse(NotRunning)
    else Go(free[0])
  }

  function DownVerdict(w: World, p: string): (v: Verdict)
    ensures v.Go? ==> Select(w.runners, MystConnect, p) != [] && Select(w.runners, Socat, p) == []
  {
    var connects := Select(w.runners, MystConnect, p);
    if connects == [] then Refuse(if p in w.catalog then NotConnecting else NotFound)
    else
      var i := ServingIdentity(w.runners, connects[0]);
      if Select(w.runners, Socat, p) != [] then Refuse(ProxyInUse)
      else if MystStatus(w.runners, i.id) != Running then Refuse(NotRunning)
      else Go(i)
  }

  function ProxyCreateVerdict(w: World, p: string): (v: Verdict)
    ensures v.Go? ==> Select(w.runners, MystConnect, p) != [] && Select(w.runners, Socat, p) == []
    ensures v.Go? ==> v.identity == ServingIdentity(w.runners, Select(w.runners, MystConnect, p)[0])
  {
    var connects := Select(w.runners, MystConnect, p);
    if connects == [] then Refuse(if p in w.catalog then NotConnecting else NotFound)
    else
      var i := ServingIdentity(w.runners, connects[0]);
      if Select(w.runners, Socat, p) != [] then Refuse(TooMany)
      else if MystStatus(w.runners, i.id) !in {Running, Restarting} then Refuse(NotRunning)
      else Go(i)
  }

  function Upstreams(rs: seq<Runner>, upstreamId: nat): (own: seq<Runner>)
    ensures forall r :: r in own <==> r in rs && r.service == Socat && r.tags.upstream == Some(upstreamId)
  {
    if rs == [] then []
    else
      var n := |rs| - 1;
      var own := Upstreams(rs[..n], upstreamId);
      assert rs == rs[..n] + [rs[n]];
      if rs[n].service == Socat && rs[n].tags.upstream == Some(upstreamId) then own + [rs[n]] else own
  }

  // The steps.

  const DEFAULT_PROVIDER := "default-provider"

  function ConnectRunner(id: nat, i: Identity, p: string, providerIdentity: string, status: Status): Runner {
    Runner(id, MystConnect,
           Label(Some(MystLabel(i.id, Some(i.name))), Some(VpnLabel(p, Some(i.name), Some(providerIdentity))), None, None),
           0, status)
  }

  function SocatRunner(w: World, i: Identity, p: string, port: nat, status: Status): Runner {
    var providerIdentity := if p in w.catalog then w.catalog[p] else DEFAULT_PROVIDER;
    Runner(w.nextId + 1, Socat,
           Label(Some(MystLabel(i.id, None)), Some(VpnLabel(p, Some(i.name), Some(providerIdentity))), Some(w.nextId), None),
           port, status)
  }

  function EnvoyRunner(w: World, i: Identity, p: string, status: Status): Runner {
    Runner(w.nextId + 3, Envoy,
           Label(Some(MystLabel(i.id, None)), Some(VpnLabel(p, None, None)), None, Some(w.nextId + 2)), 0, status)
  }

  function Grown(w: World, added: seq<Runner>, ids: nat): World {
    w.(runners := w.runners + added, nextId := w.nextId + ids)
  }

  function Shrunk(w: World, gone: set<nat>): World {
    w.(runners := Without(w.runners, gone))
  }

  /** `up` either connects the provider through the first free identity, or fails; a container
      that was made but not started stays behind. */
  predicate UpStep(ids: seq<Identity>, w: World, p: string, w': World, o: Outcome) {
    || (o == Refused(Unavailable) && w' == w)
    || match UpVerdict(ids, w, p)
       case Refuse(e) => o == Refused(e) && w' == w
       case Go(i) =>
         || (o == Done && w' == Grown(w, [ConnectRunner(w.nextId, i, p, w.catalog[p], Running)], 1))
         || (o == Refused(Unavailable) && w' == Grown(w, [ConnectRunner(w.nextId, i, p, w.catalog[p], Creating)], 1))
  }

  /** `down` removes the MYST_CONNECT before it tells the Mysterium API, which may then fail. */
  predicate DownStep(w: World, p: string, w': World, o: Outcome) {
    || (o == Refused(Unavailable) && w' == w)
    || match DownVerdict(w, p)
       case Refuse(e) => o == Refused(e) && w' == w
       case Go(_) => o in {Done, Refused(Unavailable)} && w' == Shrunk(w, {Select(w.runners, MystConnect, p)[0].id})
  }

  predicate ProxyCreateStep(w: World, p: string, port: nat, w': World, o: Outcome) {
    || (o == Refused(Unavailable) && w' == w.(nextId := w'.nextId) && w.nextId <= w'.nextId)
    || match ProxyCreateVerdict(w, p)
       case Refuse(e) => o == Refused(e) && w' == w
       case Go(i) =>
         var socat := SocatRunner(w, i, p, port, Running);
         || (o == Done && w' == Grown(w, [socat, EnvoyRunner(w, i, p, Running)], 4))
         || (o == Refused(Unavailable)
             && (|| w' == Grown(w, [SocatRunner(w, i, p, port, Creating)], 2)
                 || w' == Grown(w, [socat], 2)
                 || w' == Grown(w, [socat, EnvoyRunner(w, i, p, Creating)], 4)))
  }

  /** The ids of the ENVOY containers of a provider. */
  function EnvoyIds(rs: seq<Runner>, p: string): set<nat> {
    set r | r in Select(rs, Envoy, p) :: r.id
  }

  ghost predicate ProxyRemoveStep(w: World, upstreamId: nat, w': World, o: Outcome) {
    var own := Upstreams(w.runners, upstreamId);
    || (o == Refused(Unavailable) && w' == w)
    || (own == [] && o == Refused(NotFound) && w' == w)
    || (own != [] && o == Refused(Unavailable)
        && exists gone :: gone <= EnvoyIds(w.runners, ProviderOf(own[0])) && w' == Shrunk(w, gone))
    || (own != [] && o == Done && w' == Shrunk(w, EnvoyIds(w.runners, ProviderOf(own[0])) + {own[0].id}))
  }

  // Every step keeps the invariant.

  ghost predicate Sound(ids: seq<Identity>, w: World) {
    Inv(ids, w.runners, w.nextId) && "" !in w.catalog
  }

  lemma SelectNoneNamed(rs: seq<Runner>, service: Service, p: string)
    requires forall r :: r in rs ==> !Names(r, service, p)
    ensures Select(rs, service, p) == []
  {
    var own := Select(rs, service, p);
    assert forall i :: 0 <= i < |own| ==> own[i] in own;
  }

  lemma OneMyst(ids: seq<Identity>, w: World, identityId: string, m: Runner)
    requires Sound(ids, w) && m in w.runners && m.service == Myst && IdentityOf(m) == Some(identityId)
    ensures MystRunnerOf(m, identityId) && LastMyst(w.runners, identityId) == Some(m)
  {
    hide Supported, Below;
    assert WellLabelled(ids, m);
    var last := LastMyst(w.runners, identityId).value;
    if last != m {
      ApartIsSymmetric(w.runners, last, m);
    }
  }

  lemma ServingHasMyst(ids: seq<Identity>, w: World, p: string)
    requires Sound(ids, w)
    ensures var connects := Select(w.runners, MystConnect, p);
            connects != [] ==>
              var m := LastMyst(w.runners, ServingIdentity(w.runners, connects[0]).id);
              m.Some? && IdentityOf(m.value) == IdentityOf(connects[0]) == Some(ServingIdentity(w.runners, connects[0]).id)
  {
    hide Inv, LastMyst;
    var connects := Select(w.runners, MystConnect, p);
    if connects != [] {
      assert connects[0] in connects;
      ConnectHasMyst(ids, w.runners, w.nextId, connects[0]);
    }
  }

  lemma AddConnectKeeps(ids: seq<Identity>, w: World, p: string, status: Status)
    requires Sound(ids, w) && UpVerdict(ids, w, p).Go?
    ensures Sound(ids, Grown(w, [ConnectRunner(w.nextId, UpVerdict(ids, w, p).identity, p, w.catalog[p], status)], 1))
  {
    hide LastMyst, UpVerdict, MystStatus, Supported, WellLabelled;
    var i := UpVerdict(ids, w, p).identity;
    var c := ConnectRunner(w.nextId, i, p, w.catalog[p], status);
    assert WellLabelled(ids, c) && Supported(w.runners, c) by {
      FreshLabels(ids, w, i, p, w.catalog[p], 0, status);
    }
    forall x | x in w.runners
      ensures Apart(x, c)
    {
      assert Below(x, w.nextId);
      assert WellLabelled(ids, x);
      if x.service == MystConnect {
        ProviderNames(ids, x);
        assert ProviderOf(x) == p ==> x in Select(w.runners, MystConnect, p);
      }
    }
    AddKeeps(ids, w.runners, w.nextId, c, w.nextId + 1);
  }

  lemma ProviderNames(ids: seq<Identity>, r: Runner)
    requires WellLabelled(ids, r) && r.service != Myst
    ensures Names(r, r.service, ProviderOf(r)) && ProviderOf(r) != ""
  {
  }

  lemma FreshLabels(ids: seq<Identity>, w: World, i: Identity, p: string, providerIdentity: string, port: nat, status: Status)
    requires i in ids && p != ""
    ensures WellLabelled(ids, ConnectRunner(w.nextId, i, p, providerIdentity, status))
    ensures Supported(w.runners, ConnectRunner(w.nextId, i, p, providerIdentity, status))
    ensures WellLabelled(ids, SocatRunner(w, i, p, port, status)) && WellLabelled(ids, EnvoyRunner(w, i, p, status))
  {
    var k :| 0 <= k < |ids| && ids[k] == i;
    assert Some(MystLabel(ids[k].id, Some(ids[k].name))) == Some(MystLabel(i.id, Some(i.name)));
    assert Carries(ids, Some(MystLabel(i.id, Some(i.name))), true);
    assert Some(MystLabel(ids[k].id, None)) == Some(MystLabel(i.id, None));
    assert Carries(ids, Some(MystLabel(i.id, None)), false);
  }

  lemma ServingIsKnown(ids: seq<Identity>, w: World, p: string)
    requires Sound(ids, w) && Select(w.runners, MystConnect, p) != []
    ensures var c := Select(w.runners, MystConnect, p)[0];
            ServingIdentity(w.runners, c) in ids && IdentityOf(c) == Some(ServingIdentity(w.runners, c).id) && p != ""
  {
    hide Apart, Supported, Below;
    var c := Select(w.runners, MystConnect, p)[0];
    assert c in Select(w.runners, MystConnect, p);
    ConnectHasMyst(ids, w.runners, w.nextId, c);
    var m := LastMyst(w.runners, c.tags.myst.value.id).value;
    assert WellLabelled(ids, c) && WellLabelled(ids, m);
  }

  lemma AddSocatKeeps(ids: seq<Identity>, w: World, p: string, port: nat, status: Status)
    requires Sound(ids, w) && ProxyCreateVerdict(w, p).Go?
    ensures Sound(ids, Grown(w, [SocatRunner(w, ProxyCreateVerdict(w, p).identity, p, port, status)], 2))
  {
    hide LastMyst, ProxyCreateVerdict, ServingIdentity, WellLabelled;
    var i := ProxyCreateVerdict(w, p).identity;
    var c := Select(w.runners, MystConnect, p)[0];
    ServingIsKnown(ids, w, p);
    var s := SocatRunner(w, i, p, port, status);
    FreshLabels(ids, w, i, p, "", port, status);
    assert c in Select(w.runners, MystConnect, p);
    assert Backs(c, s);
    forall x | x in w.runners
      ensures Apart(x, s)
    {
      assert Below(x, w.nextId) && WellLabelled(ids, x);
      if x.service == Socat {
        ProviderNames(ids, x);
        assert ProviderOf(x) == p ==> x in Select(w.runners, Socat, p);
      }
    }
    AddKeeps(ids, w.runners, w.nextId, s, w.nextId + 2);
  }

  lemma AddEnvoyKeeps(ids: seq<Identity>, w: World, p: string, port: nat, status: Status)
    requires Sound(ids, w) && ProxyCreateVerdict(w, p).Go?
    ensures var i := ProxyCreateVerdict(w, p).identity;
            Sound(ids, Grown(w, [SocatRunner(w, i, p, port, Running), EnvoyRunner(w, i, p, status)], 4))
  {
    hide LastMyst, ProxyCreateVerdict, ServingIdentity, WellLabelled, Inv;
    var i := ProxyCreateVerdict(w, p).identity;
    ServingIsKnown(ids, w, p);
    var s, e := SocatRunner(w, i, p, port, Running), EnvoyRunner(w, i, p, status);
    AddSocatKeeps(ids, w, p, port, Running);
    FreshLabels(ids, w, i, p, "", port, status);
    var rs := w.runners + [s];
    forall x | x in rs
      ensures Apart(x, e)
    {
      NoEnvoyYet(ids, w, p, s, x);
    }
    assert s in rs && Backs(s, e);
    AddKeeps(ids, rs, w.nextId + 2, e, w.nextId + 4);
    assert rs + [e] == w.runners + [s, e];
  }

  /** A provider without a SOCAT has no ENVOY, so a new one clashes with nothing. */
  lemma NoEnvoyYet(ids: seq<Identity>, w: World, p: string, s: Runner, x: Runner)
    requires Sound(ids, w) && Select(w.runners, Socat, p) == [] && x in w.runners + [s]
    requires s.service == Socat && s.id == w.nextId + 1
    ensures x.id < w.nextId + 2 && (x.service == Envoy ==> ProviderOf(x) != p)
  {
    hide LastMyst, Apart, Supported;
    if x in w.runners {
      assert Below(x, w.nextId) && WellLabelled(ids, x);
      if x.service == Envoy {
        ProviderNames(ids, x);
        LayersRest(ids, w.runners, w.nextId, ProviderOf(x));
        assert x in Select(w.runners, Envoy, ProviderOf(x));
      }
    }
  }

  lemma IdsTell(rs: seq<Runner>, a: Runner, b: Runner)
    requires AllApart(rs) && a in rs && b in rs && a.id == b.id
    ensures a == b
  {
    if a != b {
      ApartIsSymmetric(rs, a, b);
    }
  }

  lemma DownIsClosed(rs: seq<Runner>, p: string)
    requires AllApart(rs) && Select(rs, MystConnect, p) != [] && Select(rs, Socat, p) == [] && p != ""
    ensures Closed(rs, {Select(rs, MystConnect, p)[0].id})
  {
    hide Apart;
    var connect := Select(rs, MystConnect, p)[0];
    assert connect in Select(rs, MystConnect, p);
    forall c | c in rs && c.id == connect.id
      ensures c == connect
    {
      IdsTell(rs, c, connect);
    }
    forall r | r in rs && (r.service == Socat || r.service == Envoy)
      ensures !Backs(connect, r)
    {
      assert Names(r, Socat, p) ==> r in Select(rs, Socat, p);
    }
  }

  lemma EnvoysAreClosed(rs: seq<Runner>, p: string, gone: set<nat>)
    requires AllApart(rs) && gone <= EnvoyIds(rs, p)
    ensures Closed(rs, gone)
    ensures forall c :: c in rs && c.id in gone ==> Names(c, Envoy, p)
  {
    hide Apart, Backs;
    forall c | c in rs && c.id in gone
      ensures Names(c, Envoy, p)
    {
      var e :| e in Select(rs, Envoy, p) && e.id == c.id;
      IdsTell(rs, c, e);
    }
    forall c, r | c in rs && c.service == Envoy && r in rs && (r.service == Socat || r.service == Envoy)
      ensures !Backs(c, r)
    {
      EnvoyBacksNothing(c, r);
    }
  }

  lemma EnvoyBacksNothing(c: Runner, r: Runner)
    requires c.service == Envoy && (r.service == Socat || r.service == Envoy)
    ensures !Backs(c, r)
  {
  }

  lemma ProxyIsClosed(rs: seq<Runner>, p: string, s: Runner)
    requires AllApart(rs) && s in rs && Names(s, Socat, p)
    requires forall r :: r in rs && r.service == Envoy ==> r.tags.vpn.Some?
    ensures Closed(rs, EnvoyIds(rs, p) + {s.id})
    ensures forall c :: c in rs && c.id in EnvoyIds(rs, p) + {s.id} ==> c == s || Names(c, Envoy, p)
  {
    hide Apart;
    var envoys := EnvoyIds(rs, p);
    EnvoysAreClosed(rs, p, envoys);
    forall c | c in rs && c.id in envoys + {s.id}
      ensures c == s || Names(c, Envoy, p)
    {
      if c.id == s.id {
        IdsTell(rs, c, s);
      }
    }
    forall r | r in rs && (r.service == Socat || r.service == Envoy) && Backs(s, r)
      ensures r.id in envoys
    {
      assert r in Select(rs, Envoy, p);
    }
  }

  datatype Call = Up(provider: string) | Down(provider: string) | ProxyCreate(provider: string, port: nat)
                | ProxyRemove(upstreamId: nat) | Environment

  ghost predicate Step(ids: seq<Identity>, w: World, call: Call, w': World, o: Outcome) {
    match call
    case Up(p) => UpStep(ids, w, p, w', o)
    case Down(p) => DownStep(w, p, w', o)
    case ProxyCreate(p, port) => ProxyCreateStep(w, p, port, w', o)
    case ProxyRemove(u) => ProxyRemoveStep(w, u, w', o)
    case Environment => Drifted(w.runners, w'.runners) && w'.nextId == w.nextId && "" !in w'.catalog
  }

  lemma UpKeeps(ids: seq<Identity>, w: World, p: string, w': World, o: Outcome)
    requires Sound(ids, w) && UpStep(ids, w, p, w', o)
    ensures Sound(ids, w')
  {
    hide Sound, UpVerdict, ConnectRunner, Grown;
    if UpVerdict(ids, w, p).Go? {
      AddConnectKeeps(ids, w, p, Running);
      AddConnectKeeps(ids, w, p, Creating);
    }
  }

  lemma DownKeeps(ids: seq<Identity>, w: World, p: string, w': World, o: Outcome)
    requires Sound(ids, w) && DownStep(w, p, w', o)
    ensures Sound(ids, w')
  {
    hide DownVerdict, Apart, WellLabelled, Supported, Below, Staffed, IdentitiesDistinct;
    if DownVerdict(w, p).Go? {
      ServingIsKnown(ids, w, p);
      DownIsClosed(w.runners, p);
      RemoveKeeps(ids, w.runners, w.nextId, {Select(w.runners, MystConnect, p)[0].id});
    }
  }

  lemma MoreIdsKeep(ids: seq<Identity>, w: World, n: nat)
    requires Sound(ids, w) && w.nextId <= n
    ensures Sound(ids, w.(nextId := n))
  {
  }

  lemma ProxyCreateKeeps(ids: seq<Identity>, w: World, p: string, port: nat, w': World, o: Outcome)
    requires Sound(ids, w) && ProxyCreateStep(w, p, port, w', o)
    ensures Sound(ids, w')
  {
    hide Sound, ProxyCreateVerdict, SocatRunner, EnvoyRunner, Grown;
    if w' == w.(nextId := w'.nextId) && w.nextId <= w'.nextId {
      MoreIdsKeep(ids, w, w'.nextId);
    }
    if ProxyCreateVerdict(w, p).Go? {
      AddSocatKeeps(ids, w, p, port, Creating);
      AddSocatKeeps(ids, w, p, port, Running);
      AddEnvoyKeeps(ids, w, p, port, Creating);
      AddEnvoyKeeps(ids, w, p, port, Running);
    }
  }

  lemma ProxyRemoveKeeps(ids: seq<Identity>, w: World, upstreamId: nat, w': World, o: Outcome)
    requires Sound(ids, w) && ProxyRemoveStep(w, upstreamId, w', o)
    ensures Sound(ids, w')
  {
    hide Apart, Supported, Below, Staffed, IdentitiesDistinct, EnvoyIds, Closed, LastMyst, Carries;
    var rs, own := w.runners, Upstreams(w.runners, upstreamId);
    if own != [] {
      var s := own[0];
      assert s in own && WellLabelled(ids, s);
      var p := ProviderOf(s);
      if o == Done {
        ProxyIsClosed(rs, p, s);
        RemoveKeeps(ids, rs, w.nextId, EnvoyIds(rs, p) + {s.id});
      } else if w' != w {
        var gone :| gone <= EnvoyIds(rs, p) && w' == Shrunk(w, gone);
        EnvoysAreClosed(rs, p, gone);
        RemoveKeeps(ids, rs, w.nextId, gone);
      }
    }
  }

  lemma StepKeeps(ids: seq<Identity>, w: World, call: Call, w': World, o: Outcome)
    requires Sound(ids, w) && Step(ids, w, call, w', o)
    ensures Sound(ids, w')
  {
    hide UpStep, DownStep, ProxyCreateStep, ProxyRemoveStep, Drifted, Inv;
    match call {
      case Up(p) => UpKeeps(ids, w, p, w', o);
      case Down(p) => DownKeeps(ids, w, p, w', o);
      case ProxyCreate(p, port) => ProxyCreateKeeps(ids, w, p, port, w', o);
      case ProxyRemove(u) => ProxyRemoveKeeps(ids, w, u, w', o);
      case Environment => DriftKeeps(ids, w.runners, w'.runners, w.nextId);
    }
  }

  // Runs.

  /** A run: calls and environment changes, in any order, with any outcome a step allows. */
  ghost predicate Run(ids: seq<Identity>, states: seq<World>, calls: seq<Call>, outcomes: seq<Outcome>) {
    && |states| == |calls| + 1 && |outcomes| == |calls|
    && forall k :: 0 <= k < |calls| ==> Step(ids, states[k], calls[k], states[k + 1], outcomes[k])
  }

  /** The safety property, in plain terms. */
  predicate Orderly(rs: seq<Runner>) {
    && (forall a, b :: a in rs && b in rs && a.service == b.service && a.service != Myst && a != b
          ==> ProviderOf(a) != ProviderOf(b))
    && (forall a, b :: a in rs && b in rs && a.service == b.service == MystConnect && a != b ==> IdentityOf(a) != IdentityOf(b))
    && (forall s :: s in rs && s.service == Socat ==>
          exists c :: c in rs && c.service == MystConnect && ProviderOf(c) == ProviderOf(s) && IdentityOf(c) == IdentityOf(s))
    && (forall e :: e in rs && e.service == Envoy ==>
          exists s :: s in rs && s.service == Socat && ProviderOf(s) == ProviderOf(e) && IdentityOf(s) == IdentityOf(e))
  }

  lemma SoundIsOrderly(ids: seq<Identity>, w: World)
    requires Sound(ids, w)
    ensures Orderly(w.runners)
  {
    hide LastMyst, WellLabelled, Below;
    var rs := w.runners;
    forall a, b | a in rs && b in rs && a != b
      ensures Apart(a, b)
    {
      ApartIsSymmetric(rs, a, b);
    }
    forall r | r in rs && (r.service == Socat || r.service == Envoy)
      ensures exists c :: c in rs && c.service == (if r.service == Socat then MystConnect else Socat)
                          && ProviderOf(c) == ProviderOf(r) && IdentityOf(c) == IdentityOf(r)
    {
      assert Supported(rs, r);
      var c :| c in rs && Backs(c, r);
      assert c in rs && c.service == (if r.service == Socat then MystConnect else Socat)
             && ProviderOf(c) == ProviderOf(r) && IdentityOf(c) == IdentityOf(r);
    }
  }

  /** In every state of every run from a sound state: one container of each kind per provider, one
      connection per identity, and every layer on the one below, with one identity throughout. */
  lemma {:induction false} RunIsOrderly(ids: seq<Identity>, states: seq<World>, calls: seq<Call>, outcomes: seq<Outcome>, k: nat)
    requires Run(ids, states, calls, outcomes) && Sound(ids, states[0]) && k < |states|
    ensures Sound(ids, states[k]) && Orderly(states[k].runners)
  {
    hide Sound, Orderly, Step;
    if k > 0 {
      RunIsOrderly(ids, states, calls, outcomes, k - 1);
      StepKeeps(ids, states[k - 1], calls[k - 1], states[k], outcomes[k - 1]);
    }
    SoundIsOrderly(ids, states[k]);
  }

  function StartRunners(ids: seq<Identity>, status: Status): (rs: seq<Runner>)
    ensures |rs| == |ids|
    ensures forall k :: 0 <= k < |ids| ==>
              rs[k] == Runner(k, Myst, Label(Some(MystLabel(ids[k].id, Some(ids[k].name))), None, None, None), 0, status)
  {
    seq(|ids|, k requires 0 <= k < |ids| =>
      Runner(k, Myst, Label(Some(MystLabel(ids[k].id, Some(ids[k].name))), None, None, None), 0, status))
  }

  /** A fresh installation, one MYST container past `created` for each identity, is sound. */
  lemma StartIsSound(ids: seq<Identity>, status: Status, catalog: map<string, string>, addresses: map<string, string>,
                     keyFiles: set<string>)
    requires IdentitiesDistinct(ids) && status != Creating && "" !in catalog
    ensures Sound(ids, World(StartRunners(ids, status), |ids|, catalog, addresses, keyFiles))
  {
    var rs := StartRunners(ids, status);
    forall k | 0 <= k < |ids|
      ensures LastMyst(rs, ids[k].id).Some?
    {
      assert rs[k] in rs && MystRunnerOf(rs[k], ids[k].id);
    }
    forall r | r in rs
      ensures WellLabelled(ids, r)
    {
      var k :| 0 <= k < |ids| && rs[k] == r;
      assert r.tags.myst == Some(MystLabel(ids[k].id, if true then Some(ids[k].name) else None));
    }
  }

  // The combined calls.

  /** After a successful `down` no container names the provider, and every other one is there. */
  lemma DownClears(ids: seq<Identity>, w: World, p: string, w': World)
    requires Sound(ids, w) && DownStep(w, p, w', Done)
    ensures forall r :: r in w'.runners ==> ProviderOf(r) != p
    ensures forall r :: r in w.runners && ProviderOf(r) != p ==> r in w'.runners
  {
    hide Inv, DownVerdict, Select;
    var rs, connect := w.runners, Select(w.runners, MystConnect, p)[0];
    assert connect in Select(rs, MystConnect, p);
    SoundIsApart(ids, w);
    ServingIsKnown(ids, w, p);
    forall r | r in rs
      ensures ProviderOf(r) == p <==> r.id == connect.id
    {
      if ProviderOf(r) == p {
        OnlyConnectNames(ids, w, p, r);
      }
      if r.id == connect.id {
        IdsTell(rs, r, connect);
      }
    }
  }

  lemma OnlyConnectNames(ids: seq<Identity>, w: World, p: string, r: Runner)
    requires Sound(ids, w) && Select(w.runners, Socat, p) == [] && r in w.runners && ProviderOf(r) == p && p != ""
    ensures r in Select(w.runners, MystConnect, p) && Select(w.runners, MystConnect, p) == [r]
  {
    hide Apart, Supported, Below, LastMyst;
    LayersRest(ids, w.runners, w.nextId, p);
    assert WellLabelled(ids, r);
    assert r in Select(w.runners, r.service, p);
  }

  lemma SoundIsApart(ids: seq<Identity>, w: World)
    requires Sound(ids, w)
    ensures AllApart(w.runners)
  {
  }

  /** A successful `up` followed by a successful `create` leaves exactly one MYST_CONNECT, one SOCAT
      and one ENVOY for the provider, of one identity that was free, beside what was there. */
  lemma CreateBothMakesOne(ids: seq<Identity>, w: World, p: string, port: nat, w1: World, w2: World)
    requires Sound(ids, w) && UpStep(ids, w, p, w1, Done) && ProxyCreateStep(w1, p, port, w2, Done)
    ensures exists c, s, e ::
              && w2.runners == w.runners + [c, s, e]
              && Select(w2.runners, MystConnect, p) == [c] && Select(w2.runners, Socat, p) == [s]
              && Select(w2.runners, Envoy, p) == [e]
              && IdentityOf(c) == IdentityOf(s) == IdentityOf(e) && s.port == port
              && !Used(w.runners, IdentityOf(c).UnwrapOr(""))
  {
    hide UpVerdict, ProxyCreateVerdict, ServingIdentity, LastMyst, Inv;
    UpKeeps(ids, w, p, w1, Done);
    ProxyCreateKeeps(ids, w1, p, port, w2, Done);
    var c := ConnectRunner(w.nextId, UpVerdict(ids, w, p).identity, p, w.catalog[p], Running);
    ServingIsKnown(ids, w1, p);
    var i := ProxyCreateVerdict(w1, p).identity;
    var s, e := SocatRunner(w1, i, p, port, Running), EnvoyRunner(w1, i, p, Running);
    assert w2.runners == w.runners + [c, s, e];
    SoundIsApart(ids, w1);
    SoundIsApart(ids, w2);
    Selected(w1.runners, MystConnect, p, c);
    Selected(w2.runners, MystConnect, p, c);
    Selected(w2.runners, Socat, p, s);
    Selected(w2.runners, Envoy, p, e);
  }

  lemma {:induction false} WithoutAppend(a: seq<Runner>, b: seq<Runner>, gone: set<nat>)
    ensures Without(a + b, gone) == Without(a, gone) + Without(b, gone)
  {
    if b == [] {
      assert a + b == a;
    } else {
      var n := |b| - 1;
      WithoutAppend(a, b[..n], gone);
      assert a + b == a + b[..n] + [b[n]] && b == b[..n] + [b[n]];
      WithoutSnoc(a + b[..n], b[n], gone);
      WithoutSnoc(b[..n], b[n], gone);
    }
  }

  lemma WithoutLast(rs: seq<Runner>, a: Runner)
    requires forall r :: r in rs ==> r.id != a.id
    ensures Without(rs + [a], {a.id}) == rs
  {
    WithoutAbsent(rs, {a.id});
    WithoutSnoc(rs, a, {a.id});
  }

  /** `down` undoes `up`. */
  lemma DownUndoesUp(ids: seq<Identity>, w: World, p: string, w1: World, w2: World)
    requires Sound(ids, w) && UpStep(ids, w, p, w1, Done) && DownStep(w1, p, w2, Done)
    ensures w2.runners == w.runners
  {
    hide UpVerdict, DownVerdict, Inv, Select, Without;
    UpKeeps(ids, w, p, w1, Done);
    var c := ConnectRunner(w.nextId, UpVerdict(ids, w, p).identity, p, w.catalog[p], Running);
    SoundIsApart(ids, w1);
    Selected(w1.runners, MystConnect, p, c);
    SoundIsBelow(ids, w);
    WithoutLast(w.runners, c);
  }

  lemma WithoutAdded(rs: seq<Runner>, a: Runner, b: Runner)
    requires forall r :: r in rs ==> r.id != a.id && r.id != b.id
    ensures Without(rs + [a, b], {b.id} + {a.id}) == rs
  {
    var gone := {b.id} + {a.id};
    WithoutAppend(rs, [a, b], gone);
    WithoutAbsent(rs, gone);
    WithoutSnoc([a], b, gone);
    WithoutSnoc([], a, gone);
  }

  /** Removing a proxy undoes creating it. */
  lemma RemoveUndoesProxyCreate(ids: seq<Identity>, w: World, p: string, port: nat, w1: World, w2: World)
    requires Sound(ids, w) && ProxyCreateStep(w, p, port, w1, Done) && ProxyRemoveStep(w1, w.nextId, w2, Done)
    ensures w2.runners == w.runners
  {
    hide ProxyCreateVerdict, LastMyst, ServingIdentity, Inv, Upstreams, Without, Select;
    ProxyCreateKeeps(ids, w, p, port, w1, Done);
    var i := ProxyCreateVerdict(w, p).identity;
    var s, e := SocatRunner(w, i, p, port, Running), EnvoyRunner(w, i, p, Running);
    assert w1.runners == w.runners + [s, e];
    SoundIsApart(ids, w1);
    OnlyUpstream(w1.runners, s, w.nextId);
    Selected(w1.runners, Envoy, p, e);
    assert EnvoyIds(w1.runners, p) == {e.id};
    SoundIsBelow(ids, w);
    WithoutAdded(w.runners, s, e);
  }

  lemma SoundIsBelow(ids: seq<Identity>, w: World)
    requires Sound(ids, w)
    ensures forall r :: r in w.runners ==> r.id < w.nextId
  {
    hide Apart, WellLabelled, Supported, LastMyst;
    assert forall r :: r in w.runners ==> Below(r, w.nextId);
  }

  lemma OnlyUpstream(rs: seq<Runner>, s: Runner, upstreamId: nat)
    requires AllApart(rs) && s in rs && s.service == Socat && s.tags.upstream == Some(upstreamId)
    ensures Upstreams(rs, upstreamId) != [] && Upstreams(rs, upstreamId)[0] == s
  {
    assert s in Upstreams(rs, upstreamId);
    var first := Upstreams(rs, upstreamId)[0];
    assert first in Upstreams(rs, upstreamId);
    if first != s {
      ApartIsSymmetric(rs, first, s);
    }
  }
}
