// The services over the containers: reads through the index and the merged view, guards, and
// ordered steps that may each fail. Every call is one step of the lifecycle.
module Services {
  import opened Wrappers
  import opened Text
  import opened Runners
  import opened Answers
  import PF = ProxyFilter
  import PV = ProxyView
  import opened Lifecycle

  // What the label filters of a container listing select.

  function OfProvider(rs: seq<Runner>, p: string): (own: seq<Runner>)
    ensures forall r :: r in own <==> r in rs && Names(r, r.service, p)
  {
    if rs == [] then []
    else
      var n := |rs| - 1;
      var own := OfProvider(rs[..n], p);
      assert rs == rs[..n] + [rs[n]];
      if Names(rs[n], rs[n].service, p) then own + [rs[n]] else own
  }

  function OfIdentity(rs: seq<Runner>, service: Service, identityId: string): (own: seq<Runner>)
    ensures forall r :: r in own <==> r in rs && r.service == service && IdentityOf(r) == Some(identityId)
  {
    if rs == [] then []
    else
      var n := |rs| - 1;
      var own := OfIdentity(rs[..n], service, identityId);
      assert rs == rs[..n] + [rs[n]];
      if rs[n].service == service && IdentityOf(rs[n]) == Some(identityId) then own + [rs[n]] else own
  }

  function OfService(rs: seq<Runner>, service: Service): (own: seq<Runner>)
    ensures forall r :: r in own <==> r in rs && r.service == service
  {
    if rs == [] then []
    else
      var n := |rs| - 1;
      var own := OfService(rs[..n], service);
      assert rs == rs[..n] + [rs[n]];
      if rs[n].service == service then own + [rs[n]] else own
  }

  // The index over the containers of one provider says what the index over all of them says.

  lemma {:induction false} SelectAppend(a: seq<Runner>, b: seq<Runner>, service: Service, p: string)
    ensures Select(a + b, service, p) == Select(a, service, p) + Select(b, service, p)
  {
    if b == [] {
      assert a + b == a;
    } else {
      var n := |b| - 1;
      SelectAppend(a, b[..n], service, p);
      assert a + b == a + b[..n] + [b[n]] && b == b[..n] + [b[n]];
      SelectSnoc(a + b[..n], b[n], service, p);
      SelectSnoc(b[..n], b[n], service, p);
    }
  }

  lemma {:induction false} SelectOfProvider(rs: seq<Runner>, service: Service, p: string)
    ensures Select(OfProvider(rs, p), service, p) == Select(rs, service, p)
  {
    if rs != [] {
      var n := |rs| - 1;
      SelectOfProvider(rs[..n], service, p);
      SelectSnoc(OfProvider(rs[..n], p), rs[n], service, p);
    }
  }

  /** The merged entry of a provider, over all the containers. */
  function Entry(w: World, p: string): IndexEntry
    requires Select(w.runners, MystConnect, p) != []
    requires LastMyst(w.runners, IdentityOf(Select(w.runners, MystConnect, p)[0]).UnwrapOr("")).Some?
  {
    var c := Select(w.runners, MystConnect, p)[0];
    IndexEntry(LastMyst(w.runners, IdentityOf(c).UnwrapOr("")).value, c, Select(w.runners, Socat, p))
  }

  lemma OneMystInPart(ids: seq<Identity>, w: World, all: seq<Runner>, identityId: string)
    requires Sound(ids, w) && forall r :: r in all ==> r in w.runners
    ensures LastMyst(all, identityId).Some? ==> LastMyst(all, identityId) == LastMyst(w.runners, identityId)
    ensures (exists m :: m in all && m.service == Myst && IdentityOf(m) == Some(identityId)) ==> LastMyst(all, identityId).Some?
  {
    hide Inv, LastMyst;
    if LastMyst(all, identityId).Some? {
      OneMyst(ids, w, identityId, LastMyst(all, identityId).value);
    }
    if m :| m in all && m.service == Myst && IdentityOf(m) == Some(identityId) {
      OneMyst(ids, w, identityId, m);
    }
  }

  lemma IndexOfPart(ids: seq<Identity>, w: World, p: string)
    requires Sound(ids, w) && Select(w.runners, MystConnect, p) != []
    ensures var c := Select(w.runners, MystConnect, p)[0]; var id := IdentityOf(c).UnwrapOr("");
            var part := OfProvider(w.runners, p) + OfIdentity(w.runners, Myst, id);
            LastMyst(w.runners, id).Some? && EntryOf(part, p) == Some(Entry(w, p))
  {
    hide Inv, Select, LastMyst, LastConnect, OfProvider, OfIdentity;
    var rs := w.runners;
    var c := Select(rs, MystConnect, p)[0];
    assert c in Select(rs, MystConnect, p);
    ConnectHasMyst(ids, rs, w.nextId, c);
    ServingIsKnown(ids, w, p);
    SoundIsApart(ids, w);
    var id := c.tags.myst.value.id;
    var mysts := OfIdentity(rs, Myst, id);
    var part := OfProvider(rs, p) + mysts;
    forall r | r in part
      ensures r in rs
    {
    }
    OneMystInPart(ids, w, part, id);
    assert LastMyst(rs, id).value in mysts;
    assert LastMyst(rs, id).value in part;
    assert Connects(c, part, p) && c in part;
    var last := LastConnect(part, part, p).value;
    Selected(rs, MystConnect, p, last);
    SelectAppend(OfProvider(rs, p), mysts, Socat, p);
    SelectOfProvider(rs, Socat, p);
    SelectNoneNamed(mysts, Socat, p);
    assert Select(part, Socat, p) == Select(rs, Socat, p) + [] == Select(rs, Socat, p);
    assert last == c;
    assert LastMyst(part, id) == LastMyst(rs, id);
    assert EntryOf(part, p) == Some(IndexEntry(LastMyst(part, last.tags.myst.value.id).value, last, Select(part, Socat, p)));
  }

  lemma MystsArePresent(ids: seq<Identity>, w: World, p: string, mysts: seq<Runner>)
    requires Sound(ids, w) && Select(w.runners, MystConnect, p) != []
    requires mysts == OfIdentity(w.runners, Myst, IdentityOf(Select(w.runners, MystConnect, p)[0]).UnwrapOr(""))
    ensures mysts != []
  {
    hide Inv, Select, OfProvider;
    var c := Select(w.runners, MystConnect, p)[0];
    assert c in Select(w.runners, MystConnect, p);
    ConnectHasMyst(ids, w.runners, w.nextId, c);
    assert LastMyst(w.runners, c.tags.myst.value.id).value in mysts;
  }

  /** A provider without a MYST_CONNECT has no container at all; one with it, only of its identity. */
  lemma ProviderRunners(ids: seq<Identity>, w: World, p: string)
    requires Sound(ids, w)
    ensures Select(w.runners, MystConnect, p) == [] ==> OfProvider(w.runners, p) == []
    ensures Select(w.runners, MystConnect, p) != [] ==>
              OfProvider(w.runners, p) != []
              && IdentityOf(OfProvider(w.runners, p)[0]) == IdentityOf(Select(w.runners, MystConnect, p)[0])
  {
    hide Inv, Select;
    var provs, connects := OfProvider(w.runners, p), Select(w.runners, MystConnect, p);
    if connects != [] {
      assert connects[0] in connects;
      assert connects[0] in provs;
    }
    if provs != [] {
      assert provs[0] in provs;
      ProviderRunner(ids, w, p, provs[0]);
    }
  }

  lemma ProviderRunner(ids: seq<Identity>, w: World, p: string, r: Runner)
    requires Sound(ids, w) && r in w.runners && Names(r, r.service, p)
    ensures Select(w.runners, MystConnect, p) != [] && IdentityOf(r) == IdentityOf(Select(w.runners, MystConnect, p)[0])
  {
    hide Apart, Supported, Below, LastMyst;
    LayersRest(ids, w.runners, w.nextId, p);
    assert WellLabelled(ids, r);
    assert r in Select(w.runners, r.service, p);
  }

  // The identity list.

  predicate Tagged(r: Runner, name: string) {
    || (r.tags.myst.Some? && r.tags.myst.value.identity == Some(name))
    || (r.tags.vpn.Some? && r.tags.vpn.value.userIdentity == Some(name))
  }

  method FirstOf(rs: seq<Runner>, service: Service) returns (r: Option<Runner>)
    ensures r.Some? ==> r.value in rs && r.value.service == service
    ensures r.None? ==> forall x :: x in rs ==> x.service != service
  {
    for i := 0 to |rs|
      invariant forall x :: x in rs[..i] ==> x.service != service
    {
      if rs[i].service == service {
        return Some(rs[i]);
      }
      TakeNext(rs, i);
    }
    assert rs[..|rs|] == rs;
    r := None;
  }

  /** `_mergeRunnerData`: whether the identity is in use, or `None` when it is not listed. */
  method MergeRunnerData(name: string, rs: seq<Runner>) returns (isUse: Option<bool>)
    ensures isUse.Some? ==> (isUse.value <==> exists c :: c in rs && c.service == MystConnect && Tagged(c, name))
    ensures isUse.Some? ==> exists m :: m in rs && m.service == Myst && Tagged(m, name) && m.status != Creating
    ensures isUse.None? ==> (forall m :: m in rs && m.service == Myst ==> !Tagged(m, name))
                            || exists m :: m in rs && m.service == Myst && Tagged(m, name) && m.status == Creating
  {
    var own := [];
    for i := 0 to |rs|
      invariant forall x :: x in own <==> x in rs[..i] && Tagged(x, name)
    {
      TakeNext(rs, i);
      var r := rs[i];
      if r.tags.myst.Some? && r.tags.myst.value.identity == Some(name) {
        own := own + [r];
      }
      if r.tags.vpn.Some? && r.tags.vpn.value.userIdentity == Some(name) {
        own := own + [r];
      }
    }
    assert rs[..|rs|] == rs;
    var myst := FirstOf(own, Myst);
    if myst.None? || myst.value.status == Creating {
      return None;
    }
    var connect := FirstOf(own, MystConnect);
    isUse := Some(connect.Some?);
  }

  /** Under the invariant, names and ids tell the same identities apart. */
  lemma TaggedMeans(ids: seq<Identity>, r: Runner, k: nat)
    requires IdentitiesDistinct(ids) && WellLabelled(ids, r) && k < |ids| && (r.service == Myst || r.service == MystConnect)
    ensures Tagged(r, ids[k].name) <==> IdentityOf(r) == Some(ids[k].id)
  {
    var j :| 0 <= j < |ids| && r.tags.myst == Some(MystLabel(ids[j].id, Some(ids[j].name)));
    if j != k {
      assert if j < k then ids[j].id != ids[k].id && ids[j].name != ids[k].name
             else ids[k].id != ids[j].id && ids[k].name != ids[j].name;
    }
  }

  lemma UseMeans(ids: seq<Identity>, w: World, k: nat)
    requires Sound(ids, w) && k < |ids|
    ensures (exists c :: c in w.runners && c.service == MystConnect && Tagged(c, ids[k].name)) <==> Used(w.runners, ids[k].id)
    ensures exists m :: m in w.runners && m.service == Myst && Tagged(m, ids[k].name)
    ensures forall m :: m in w.runners && m.service == Myst && Tagged(m, ids[k].name) ==> m.status != Creating
  {
    hide Apart, Supported, Below, LastMyst, WellLabelled, Tagged, IdentitiesDistinct;
    forall r | r in w.runners && (r.service == Myst || r.service == MystConnect)
      ensures Tagged(r, ids[k].name) <==> IdentityOf(r) == Some(ids[k].id)
    {
      TaggedMeans(ids, r, k);
    }
    forall m | m in w.runners && m.service == Myst
      ensures m.status != Creating
    {
      MystIsPastCreated(ids, m);
    }
    var m := LastMyst(w.runners, ids[k].id).value;
    assert m in w.runners && MystRunnerOf(m, ids[k].id);
  }

  lemma MystIsPastCreated(ids: seq<Identity>, m: Runner)
    requires WellLabelled(ids, m) && m.service == Myst
    ensures m.status != Creating
  {
  }

  lemma FreeSnoc(ids: seq<Identity>, k: nat, rs: seq<Runner>, keyFiles: set<string>)
    requires k < |ids|
    ensures Free(ids[..k + 1], rs, keyFiles) ==
            Free(ids[..k], rs, keyFiles) + (if ids[k].id !in keyFiles || Used(rs, ids[k].id) then [] else [ids[k]])
  {
    assert ids[..k + 1][..k] == ids[..k];
  }

  // The listing of proxies.

  lemma ProvidersAreLabelled(ids: seq<Identity>, w: World)
    requires Sound(ids, w)
    ensures PV.ProviderLabelled(w.runners)
  {
    hide Apart, Supported, Below, LastMyst;
    assert forall r :: r in w.runners ==> WellLabelled(ids, r);
  }

  lemma SocatHasMyst(ids: seq<Identity>, w: World, s: Runner)
    requires Sound(ids, w) && s in w.runners && s.service == Socat
    ensures IdentityOf(s).Some? && PV.LastOfIdentity(w.runners, IdentityOf(s).value).Some? && ProviderOf(s) != ""
    ensures Names(s, Socat, ProviderOf(s)) && s.tags.upstream.Some?
  {
    hide Apart, Supported, Below;
    ConnectHasMyst(ids, w.runners, w.nextId, s);
    assert WellLabelled(ids, s);
    var m := LastMyst(w.runners, s.tags.myst.value.id).value;
    assert m in w.runners && PV.OfIdentity(m, s.tags.myst.value.id);
  }

  /** A listed upstream refers to the provider exactly when it is the provider's SOCAT and an ENVOY
      is there to be attached. */
  lemma RefersMeans(ids: seq<Identity>, w: World, providers: seq<Provider>, socats: seq<Runner>, k: nat, p: string)
    requires Sound(ids, w) && socats == OfService(w.runners, Socat) && k < |socats| && p != PV.DEFAULT_REF_ID
    requires forall j :: 0 <= j < k ==> ProviderOf(socats[j]) != ProviderOf(socats[k])
    ensures PV.PlainDownstream(w.runners, providers, socats, k).Some? && socats[k].tags.upstream.Some?
    ensures PV.PlainDownstream(w.runners, providers, socats, k).value.refId == p <==>
            ProviderOf(socats[k]) == p && Select(w.runners, Envoy, p) != []
  {
    hide Inv, PV.AttachedStatus, PV.LastProvider;
    var s := socats[k];
    assert s in socats;
    SocatHasMyst(ids, w, s);
    PV.UpMeans(w.runners, providers, socats, k);
    LastNamingIsSelected(w.runners, Envoy, ProviderOf(s));
  }

  lemma LastNamingIsSelected(rs: seq<Runner>, service: Service, p: string)
    ensures PV.LastNaming(rs, service, p) == -1 <==> Select(rs, service, p) == []
  {
    var k, own := PV.LastNaming(rs, service, p), Select(rs, service, p);
    if k != -1 {
      assert rs[k] in own;
    } else {
      assert forall i :: 0 <= i < |own| ==> own[i] in own;
    }
  }

  lemma {:induction false} SocatsApart(ids: seq<Identity>, w: World, i: nat, j: nat)
    requires Sound(ids, w) && i < j < |OfService(w.runners, Socat)|
    ensures ProviderOf(OfService(w.runners, Socat)[i]) != ProviderOf(OfService(w.runners, Socat)[j])
  {
    hide WellLabelled, Supported, Below, LastMyst, Apart;
    OfServiceApart(w.runners, Socat);
    SocatsDiffer(OfService(w.runners, Socat)[i], OfService(w.runners, Socat)[j]);
  }

  lemma SocatsDiffer(a: Runner, b: Runner)
    requires Apart(a, b) && a.service == b.service == Socat
    ensures ProviderOf(a) != ProviderOf(b)
  {
  }

  lemma {:induction false} OfServiceApart(rs: seq<Runner>, service: Service)
    requires AllApart(rs)
    ensures AllApart(OfService(rs, service))
    ensures forall i :: 0 <= i < |OfService(rs, service)| ==> OfService(rs, service)[i].service == service
  {
    hide Apart;
    if rs != [] {
      var n := |rs| - 1;
      OfServiceApart(rs[..n], service);
      var own := OfService(rs[..n], service);
      forall i | 0 <= i < |own|
        ensures Apart(own[i], rs[n])
      {
        assert own[i] in rs[..n];
        var j :| 0 <= j < n && rs[..n][j] == own[i];
        assert Apart(rs[j], rs[n]);
      }
    }
  }

  // The provider that a read hands out.

  ghost predicate Read(ids: seq<Identity>, w: World, p: string, r: Option<Provider>) {
    var connects := Select(w.runners, MystConnect, p);
    if connects == [] then
      r == FromApi(w, p)
    else
      && r.Some? && r.value.id == p && r.value.isRegister && r.value.proxyCount == |Select(w.runners, Socat, p)|
      && r.value.providerIdentity == (if p in w.catalog then Some(w.catalog[p]) else None)
      && r.value.runner == LastMyst(w.runners, ServingIdentity(w.runners, connects[0]).id)
      && r.value.userIdentity == Some(ServingIdentity(w.runners, connects[0]).name)
      && r.value.ip == (if p in w.catalog then AddressOf(w, p) else None)
      && LastMyst(w.runners, IdentityOf(connects[0]).UnwrapOr("")).Some?
      && r.value.providerStatus == Some(StatusOf(Entry(w, p), r.value.providerIdentity))
  }

  function AddressOf(w: World, p: string): Option<string> {
    if p in w.addresses then Some(w.addresses[p]) else None
  }

  /** Without a MYST_CONNECT a provider is what the Mysterium API says. */
  function FromApi(w: World, p: string): Option<Provider> {
    if p in w.catalog then Some(Provider(p, Some(w.catalog[p]), None, false, 0, None, None, AddressOf(w, p))) else None
  }

  lemma MergedIsRead(ids: seq<Identity>, w: World, p: string, data: Provider, r: Provider)
    requires Sound(ids, w) && Select(w.runners, MystConnect, p) != []
    requires data.id == p && data.providerIdentity == (if p in w.catalog then Some(w.catalog[p]) else None)
    requires data.ip == if p in w.catalog then AddressOf(w, p) else None
    ensures LastMyst(w.runners, IdentityOf(Select(w.runners, MystConnect, p)[0]).UnwrapOr("")).Some?
    ensures Merged(data, Entry(w, p), r) ==> Read(ids, w, p, Some(r))
  {
    hide Inv, Select, LastMyst;
    var c := Select(w.runners, MystConnect, p)[0];
    assert c in Select(w.runners, MystConnect, p);
    ConnectHasMyst(ids, w.runners, w.nextId, c);
  }

  lemma ReadIsAnswered(ids: seq<Identity>, w: World, p: string, r: Option<Provider>)
    requires Sound(ids, w) && Read(ids, w, p, r)
    ensures ReadAnswers(ids, w, p, r)
  {
    hide Inv, Select, LastMyst, ServingIdentity, Has, ServedBy, ServingMyst, StatusOf;
    HasMeans(w.runners, MystConnect, p);
    HasMeans(w.runners, Socat, p);
    LayersRest(ids, w.runners, w.nextId, p);
    var connects := Select(w.runners, MystConnect, p);
    if connects != [] {
      var c := connects[0];
      var i := ServingIdentity(w.runners, c);
      ServingMeans(ids, w, p);
      ServingHasMyst(ids, w, p);
      ServingStatus(ids, w, p, r.value.providerIdentity);
      assert i in ids && ServedBy(w.runners, p, i.id);
      var m := LastMyst(w.runners, i.id).value;
      assert m in w.runners && MystRunnerOf(m, i.id);
    }
  }

  lemma ServingStatus(ids: seq<Identity>, w: World, p: string, providerIdentity: Option<string>)
    requires Sound(ids, w) && Select(w.runners, MystConnect, p) != []
    requires LastMyst(w.runners, IdentityOf(Select(w.runners, MystConnect, p)[0]).UnwrapOr("")).Some?
    requires providerIdentity == if p in w.catalog then Some(w.catalog[p]) else None
    ensures StatusAnswers(w, p, StatusOf(Entry(w, p), providerIdentity))
  {
    hide Inv, Select, LastMyst, ServingMyst, StatusOf;
    var c := Select(w.runners, MystConnect, p)[0];
    ServingMeans(ids, w, p);
    StatusOfMeans(Entry(w, p), providerIdentity);
    forall status
      ensures ServingConnect(w.runners, p, status) <==> c.status == status
    {
    }
  }

  lemma FirstMystIsLast(ids: seq<Identity>, w: World, identityId: string)
    requires Sound(ids, w)
    ensures var mysts := OfIdentity(w.runners, Myst, identityId);
            if mysts == [] then LastMyst(w.runners, identityId).None? else LastMyst(w.runners, identityId) == Some(mysts[0])
  {
    hide Inv;
    var mysts := OfIdentity(w.runners, Myst, identityId);
    assert forall m :: m in w.runners && MystRunnerOf(m, identityId) ==> m in mysts;
    if mysts != [] {
      assert mysts[0] in mysts;
      OneMyst(ids, w, identityId, mysts[0]);
    }
  }

  lemma FreeHasNoConnect(rs: seq<Runner>, identityId: string)
    requires !Used(rs, identityId)
    ensures OfIdentity(rs, MystConnect, identityId) == []
  {
    var own := OfIdentity(rs, MystConnect, identityId);
    assert forall i :: 0 <= i < |own| ==> own[i] in own;
  }

  lemma OnlyConnectOfIdentity(ids: seq<Identity>, w: World, p: string)
    requires Sound(ids, w) && Select(w.runners, MystConnect, p) != []
    ensures var c := Select(w.runners, MystConnect, p)[0];
            var own := OfIdentity(w.runners, MystConnect, IdentityOf(c).UnwrapOr(""));
            own != [] && own[0] == c
  {
    hide WellLabelled, Supported, Below, LastMyst;
    var c := Select(w.runners, MystConnect, p)[0];
    assert c in Select(w.runners, MystConnect, p);
    ConnectHasMyst(ids, w.runners, w.nextId, c);
    var own := OfIdentity(w.runners, MystConnect, IdentityOf(c).UnwrapOr(""));
    assert c in own;
    assert own[0] in own;
    if own[0] != c {
      ApartIsSymmetric(w.runners, own[0], c);
    }
  }

  lemma {:induction false} WithoutTwice(rs: seq<Runner>, a: set<nat>, b: set<nat>)
    ensures Without(Without(rs, a), b) == Without(rs, a + b)
  {
    if rs != [] {
      var n := |rs| - 1;
      WithoutTwice(rs[..n], a, b);
      WithoutSnoc(Without(rs[..n], a), rs[n], b);
    } else {
      assert Without(rs, a) == [];
    }
  }

  /** The upstreams listed for a provider: its SOCAT, when an ENVOY is there to be attached. */
  function Listed(rs: seq<Runner>, p: string): seq<Option<nat>> {
    var socats := Select(rs, Socat, p);
    if socats != [] && Select(rs, Envoy, p) != [] then [socats[0].tags.upstream] else []
  }

  function IdsOf(rows: seq<PV.Upstream>): (upstreamIds: seq<Option<nat>>)
    ensures |upstreamIds| == |rows| && forall i :: 0 <= i < |rows| ==> upstreamIds[i] == rows[i].id
  {
    seq(|rows|, i requires 0 <= i < |rows| => rows[i].id)
  }

  /** What the merge makes of the containers, row by row. */
  ghost predicate MergedRows(w: World, providers: seq<Provider>, list: seq<PV.Upstream>) {
    var socats := OfService(w.runners, Socat);
    |list| == |socats| && forall k :: 0 <= k < |socats| ==> Some(list[k]) == PV.PlainUpstream(w.runners, providers, socats, k)
  }

  lemma RowMeans(ids: seq<Identity>, w: World, providers: seq<Provider>, list: seq<PV.Upstream>, k: nat, p: string)
    requires Sound(ids, w) && MergedRows(w, providers, list) && k < |list|
    ensures |list[k].proxyDownstream| == 1 && list[k].id == OfService(w.runners, Socat)[k].tags.upstream && list[k].id.Some?
    ensures p != PV.DEFAULT_REF_ID ==>
              (PF.Keep(list[k], PF.ByRef(p)) <==>
               ProviderOf(OfService(w.runners, Socat)[k]) == p && Select(w.runners, Envoy, p) != [])
  {
    hide Inv, PV.PlainDownstream;
    var socats := OfService(w.runners, Socat);
    assert Some(list[k]) == PV.PlainUpstream(w.runners, providers, socats, k);
    assert socats[k] in socats;
    SocatHasMyst(ids, w, socats[k]);
    if p != PV.DEFAULT_REF_ID {
      forall j | 0 <= j < k
        ensures ProviderOf(socats[j]) != ProviderOf(socats[k])
      {
        SocatsApart(ids, w, j, k);
      }
      RefersMeans(ids, w, providers, socats, k, p);
      assert list[k].proxyDownstream[0] in list[k].proxyDownstream;
    }
  }

  /** The reference filter finds exactly the listed upstreams of the provider. */
  lemma ReferenceFinds(ids: seq<Identity>, w: World, providers: seq<Provider>, list: seq<PV.Upstream>, p: string)
    requires Sound(ids, w) && MergedRows(w, providers, list) && p != PV.DEFAULT_REF_ID
    ensures IdsOf(PF.Plain(list, PF.ByRef(p))) == Listed(w.runners, p)
  {
    hide Sound, PF.Keep, PV.PlainUpstream, Select;
    var socats := OfService(w.runners, Socat);
    var own := Select(w.runners, Socat, p);
    forall k | 0 <= k < |list|
      ensures PF.Keep(list[k], PF.ByRef(p)) <==> ProviderOf(socats[k]) == p && Select(w.runners, Envoy, p) != []
      ensures list[k].id == socats[k].tags.upstream
      ensures ProviderOf(socats[k]) == p <==> own == [socats[k]]
    {
      RowMeans(ids, w, providers, list, k, p);
      OwnSocat(ids, w, k, p);
    }
    var at := if k :| 0 <= k < |list| && ProviderOf(socats[k]) == p then k else |list|;
    forall k | 0 <= k < |list| && k != at
      ensures ProviderOf(socats[k]) != p || at == |list|
    {
      if at < |list| {
        SocatsApart(ids, w, if k < at then k else at, if k < at then at else k);
      }
    }
    PF.PlainOfOne(list, PF.ByRef(p), at);
    if own != [] {
      assert own[0] in own;
      assert own[0] in socats;
      var k :| 0 <= k < |socats| && socats[k] == own[0];
      assert ProviderOf(socats[k]) == p;
    }
  }

  lemma OwnSocat(ids: seq<Identity>, w: World, k: nat, p: string)
    requires Sound(ids, w) && k < |OfService(w.runners, Socat)|
    ensures var s := OfService(w.runners, Socat)[k]; ProviderOf(s) == p <==> Select(w.runners, Socat, p) == [s]
  {
    hide Inv;
    var s := OfService(w.runners, Socat)[k];
    assert s in OfService(w.runners, Socat);
    SocatHasMyst(ids, w, s);
    SoundIsApart(ids, w);
    if ProviderOf(s) == p {
      Selected(w.runners, Socat, p, s);
    } else {
      assert s !in Select(w.runners, Socat, p);
    }
  }

  lemma ServingFromRead(ids: seq<Identity>, w: World, p: string, provider: Provider)
    requires Sound(ids, w) && Read(ids, w, p, Some(provider)) && Select(w.runners, MystConnect, p) != []
    ensures provider.runner.Some?
    ensures provider.providerIdentity == if p in w.catalog then Some(w.catalog[p]) else None
    ensures var i := ServingIdentity(w.runners, Select(w.runners, MystConnect, p)[0]);
            && i == Identity(IdentityOf(provider.runner.value).UnwrapOr(""), provider.userIdentity.UnwrapOr(""))
            && MystStatus(w.runners, i.id) == provider.runner.value.status
  {
    hide Inv, Select, LastMyst, ServingIdentity;
    ServingHasMyst(ids, w, p);
  }

  /** `create` of the proxy repository, which asks for a connection and nothing else: with both proxy
      containers it refuses; over a lone SOCAT it fails on the taken name, unless the SOCAT is the left-over
      of a port conflict, which is replaced. */
  predicate RepositoryCreateStep(w: World, p: string, port: nat, w': World, o: Outcome)
    requires Select(w.runners, MystConnect, p) != []
  {
    var socats := Select(w.runners, Socat, p);
    var i := ServingIdentity(w.runners, Select(w.runners, MystConnect, p)[0]);
    if socats == [] then ProxyCreateStep(w, p, port, w', o)
    else
      || (o == Refused(Unavailable) && w' == w)
      || (if Select(w.runners, Envoy, p) != [] then o == Refused(Exist) && w' == w
          else if MystStatus(w.runners, i.id) !in {Running, Restarting} then o == Refused(NotRunning) && w' == w
          else || (o == Refused(NameTaken) && w' == w)
               || (socats[0].status == Creating && ProxyCreateStep(Shrunk(w, {socats[0].id}), p, port, w', o)))
  }

  lemma NoLoneEnvoy(ids: seq<Identity>, w: World, p: string)
    requires Sound(ids, w)
    ensures Select(w.runners, Envoy, p) != [] ==> Select(w.runners, Socat, p) != []
  {
    hide Inv;
    LayersRest(ids, w.runners, w.nextId, p);
  }

  /** Taking away a lone SOCAT changes nothing else that the creation looks at. */
  lemma WithoutSocat(ids: seq<Identity>, w: World, p: string)
    requires Sound(ids, w) && Select(w.runners, Socat, p) != [] && Select(w.runners, MystConnect, p) != []
    ensures var rest := Shrunk(w, {Select(w.runners, Socat, p)[0].id}).runners;
            var c := Select(w.runners, MystConnect, p)[0];
            && Select(rest, Socat, p) == [] && Select(rest, MystConnect, p) == Select(w.runners, MystConnect, p)
            && ServingIdentity(rest, c) == ServingIdentity(w.runners, c)
            && MystStatus(rest, ServingIdentity(w.runners, c).id) == MystStatus(w.runners, ServingIdentity(w.runners, c).id)
  {
    hide Inv, Select, Without, LastMyst, Apart;
    var rs, s := w.runners, Select(w.runners, Socat, p)[0];
    assert s in Select(rs, Socat, p);
    SoundIsApart(ids, w);
    forall r | r in rs && r.id == s.id
      ensures r == s
    {
      IdsTell(rs, r, s);
    }
    WithoutKeepsSelect(rs, {s.id}, MystConnect, p);
    SocatGone(rs, {s.id}, p, s);
    var c := Select(rs, MystConnect, p)[0];
    WithoutKeepsLastMyst(rs, {s.id}, if c.tags.myst.Some? then c.tags.myst.value.id else "");
    WithoutKeepsLastMyst(rs, {s.id}, ServingIdentity(rs, c).id);
  }

  // The combined calls.

  /** What the combined `down` comes to when nothing fails: a SOCAT without an ENVOY is not found by
      the listing, stays, and makes `down` refuse. */
  function DownBothOutcome(w: World, p: string): Outcome {
    var connects := Select(w.runners, MystConnect, p);
    if connects == [] then Refused(if p in w.catalog then NotConnecting else NotFound)
    else if Select(w.runners, Socat, p) != [] && Select(w.runners, Envoy, p) == [] then Refused(ProxyInUse)
    else if MystStatus(w.runners, ServingIdentity(w.runners, connects[0]).id) != Running then Refused(NotRunning)
    else Done
  }

  /** The guards of `down` in `w1` decide what the combined call in `w` comes to, for the identity
      that served the provider in `w`. */
  predicate Foreseen(w: World, p: string, w1: World) {
    match DownVerdict(w1, p)
    case Refuse(e) => DownBothOutcome(w, p) == Refused(e)
    case Go(i) =>
      var connects := Select(w.runners, MystConnect, p);
      DownBothOutcome(w, p) == Done && connects != [] && i == ServingIdentity(w.runners, connects[0])
  }

  lemma UpThenCreates(ids: seq<Identity>, w: World, p: string, w1: World)
    requires Sound(ids, w) && UpStep(ids, w, p, w1, Done)
    ensures ProxyCreateVerdict(w1, p).Go?
  {
    hide Inv, Select, UpVerdict, LastMyst;
    var i := UpVerdict(ids, w, p).identity;
    var c := ConnectRunner(w.nextId, i, p, w.catalog[p], Running);
    UpKeeps(ids, w, p, w1, Done);
    SoundIsApart(ids, w1);
    Selected(w1.runners, MystConnect, p, c);
    LayersRest(ids, w.runners, w.nextId, p);
    SelectSnoc(w.runners, c, Socat, p);
    LastMystSnoc(w.runners, c, i.id);
  }

  lemma {:induction false} WithoutKeepsSelect(rs: seq<Runner>, gone: set<nat>, service: Service, p: string)
    requires forall r :: r in rs && Names(r, service, p) ==> r.id !in gone
    ensures Select(Without(rs, gone), service, p) == Select(rs, service, p)
  {
    if rs != [] {
      var n := |rs| - 1;
      assert rs == rs[..n] + [rs[n]];
      WithoutKeepsSelect(rs[..n], gone, service, p);
      SelectSnoc(Without(rs[..n], gone), rs[n], service, p);
    }
  }

  lemma {:induction false} WithoutKeepsLastMyst(rs: seq<Runner>, gone: set<nat>, identityId: string)
    requires forall r :: r in rs && r.service == Myst ==> r.id !in gone
    ensures LastMyst(Without(rs, gone), identityId) == LastMyst(rs, identityId)
  {
    if rs != [] {
      var n := |rs| - 1;
      assert rs == rs[..n] + [rs[n]];
      WithoutKeepsLastMyst(rs[..n], gone, identityId);
      LastMystSnoc(Without(rs[..n], gone), rs[n], identityId);
    }
  }

  lemma ListedIsFound(ids: seq<Identity>, w: World, p: string)
    requires Sound(ids, w) && Listed(w.runners, p) != []
    ensures var s := Select(w.runners, Socat, p)[0];
            Listed(w.runners, p) == [s.tags.upstream] && s.tags.upstream.Some? && s in w.runners && Names(s, Socat, p)
            && Upstreams(w.runners, s.tags.upstream.value) != [] && Upstreams(w.runners, s.tags.upstream.value)[0] == s
  {
    hide Inv;
    var s := Select(w.runners, Socat, p)[0];
    assert s in Select(w.runners, Socat, p);
    SocatHasMyst(ids, w, s);
    SoundIsApart(ids, w);
    OnlyUpstream(w.runners, s, s.tags.upstream.value);
  }

  /** Removing a listed proxy takes nothing but containers of the provider; when it succeeds, its
      SOCAT is gone and the guards of `down` see only the connection. */
  lemma ProxyRemoval(ids: seq<Identity>, w: World, p: string, w1: World, o: Outcome)
    requires Sound(ids, w) && Listed(w.runners, p) != []
    requires Select(w.runners, Socat, p)[0].tags.upstream.Some?
    requires ProxyRemoveStep(w, Select(w.runners, Socat, p)[0].tags.upstream.value, w1, o)
    ensures forall r :: r in w.runners && ProviderOf(r) != p ==> r in w1.runners
    ensures o == Done ==> Foreseen(w, p, w1)
  {
    hide Inv, Select, Without, Upstreams, EnvoyIds, LastMyst, Closed;
    var rs, s := w.runners, Select(w.runners, Socat, p)[0];
    ListedIsFound(ids, w, p);
    SoundIsApart(ids, w);
    EnvoysHaveProviders(ids, w);
    LayersRest(ids, rs, w.nextId, p);
    ProxyIsClosed(rs, p, s);
    if o == Done {
      var gone := EnvoyIds(rs, p) + {s.id};
      WithoutKeepsSelect(rs, gone, MystConnect, p);
      var c := Select(rs, MystConnect, p)[0];
      WithoutKeepsLastMyst(rs, gone, if c.tags.myst.Some? then c.tags.myst.value.id else "");
      assert Select(Without(rs, gone), Socat, p) == [] by {
        SocatGone(rs, gone, p, s);
      }
    }
  }

  lemma SocatGone(rs: seq<Runner>, gone: set<nat>, p: string, s: Runner)
    requires AllApart(rs) && s in rs && Names(s, Socat, p) && s.id in gone
    ensures Select(Without(rs, gone), Socat, p) == []
  {
    hide Apart, Without, Select;
    Selected(rs, Socat, p, s);
    forall r | r in Without(rs, gone)
      ensures !Names(r, Socat, p)
    {
      assert Names(r, Socat, p) ==> r in Select(rs, Socat, p);
    }
    SelectNoneNamed(Without(rs, gone), Socat, p);
  }

  lemma MergeSucceeds(ids: seq<Identity>, w: World, providers: seq<Provider>, socats: seq<Runner>)
    requires Sound(ids, w) && socats == OfService(w.runners, Socat)
    ensures forall k :: 0 <= k < |socats| ==> PV.PlainUpstream(w.runners, providers, socats, k).Some?
  {
    hide Inv, PV.PlainDownstream;
    forall k | 0 <= k < |socats|
      ensures PV.PlainUpstream(w.runners, providers, socats, k).Some?
    {
      assert socats[k] in socats;
      SocatHasMyst(ids, w, socats[k]);
      PV.UpMeans(w.runners, providers, socats, k);
    }
  }

  /** Between the removals and `down`: what is left, and what the guards of `down` will say. */
  lemma BeforeDown(ids: seq<Identity>, w: World, p: string, rows: seq<PV.Upstream>, w1: World, failed: Option<Outcome>)
    requires Sound(ids, w) && forall u :: u in rows ==> u.id.Some?
    requires |rows| == 0 ==> w1 == w && failed == None
    requires |rows| == 1 ==> rows[0].id.Some? && ProxyRemoveStep(w, rows[0].id.value, w1, failed.UnwrapOr(Done))
    requires p != PV.DEFAULT_REF_ID ==> IdsOf(rows) == Listed(w.runners, p)
    requires failed.Some? ==> failed.value != Done
    ensures p != PV.DEFAULT_REF_ID ==> forall r :: r in w.runners && ProviderOf(r) != p ==> r in w1.runners
    ensures p != PV.DEFAULT_REF_ID && failed.None? ==> Foreseen(w, p, w1)
    ensures p != PV.DEFAULT_REF_ID && failed.Some? ==> failed.value == Refused(Unavailable)
  {
    hide Inv, ProxyRemoveStep, Select, DownVerdict, DownBothOutcome, LastMyst;
    if p != PV.DEFAULT_REF_ID {
      if |rows| == 0 {
        NothingListed(ids, w, p);
      } else {
        assert IdsOf(rows)[0] == rows[0].id;
        ListedIsFound(ids, w, p);
        ProxyRemoval(ids, w, p, w1, failed.UnwrapOr(Done));
        RemovalFailsUnavailable(w, rows[0].id.value, w1, failed.UnwrapOr(Done));
      }
    }
  }

  lemma RemovalTakes(w: World, upstreamId: nat, w': World, o: Outcome)
    requires ProxyRemoveStep(w, upstreamId, w', o)
    ensures forall r :: r in w'.runners ==> r in w.runners
  {
    hide Select, Upstreams, EnvoyIds;
  }

  lemma RemovalFailsUnavailable(w: World, upstreamId: nat, w1: World, o: Outcome)
    requires ProxyRemoveStep(w, upstreamId, w1, o) && Upstreams(w.runners, upstreamId) != []
    ensures o == Done || o == Refused(Unavailable)
  {
  }

  lemma NothingListed(ids: seq<Identity>, w: World, p: string)
    requires Sound(ids, w) && Listed(w.runners, p) == []
    ensures Foreseen(w, p, w)
  {
    hide Inv, Select, LastMyst;
    LayersRest(ids, w.runners, w.nextId, p);
  }

  lemma AfterDown(ids: seq<Identity>, w: World, p: string, w': World, o: Outcome)
    requires Sound(ids, w) && DownStep(w, p, w', o)
    ensures o == Done ==> forall r :: r in w'.runners ==> ProviderOf(r) != p
    ensures forall r :: r in w.runners && ProviderOf(r) != p ==> r in w'.runners
    ensures o == Refused(Unavailable)
            || match DownVerdict(w, p) case Refuse(e) => o == Refused(e) case Go(_) => o == Done
  {
    hide Inv, DownVerdict, Select;
    if DownVerdict(w, p).Go? {
      if w' != w {
        DownClears(ids, w, p, w');
      }
    }
  }

  // The connections that a successful `up` and `down` leave on the nodes.

  function UpLinks(ids: seq<Identity>, w: World, p: string, links: map<string, string>): map<string, string> {
    match UpVerdict(ids, w, p)
    case Refuse(_) => links
    case Go(i) => links[i.id := w.catalog[p]]
  }

  function DownLinks(w: World, p: string, links: map<string, string>): map<string, string> {
    match DownVerdict(w, p)
    case Refuse(_) => links
    case Go(i) => links - {i.id}
  }

  // The answers of the calls.

  lemma UpIsAnswered(ids: seq<Identity>, w: World, p: string, w': World, o: Outcome)
    requires Sound(ids, w) && UpStep(ids, w, p, w', o)
    ensures o != Refused(Unavailable) ==> UpAnswers(ids, w, p, o)
  {
    hide Sound, UpVerdict, UpAnswers;
    UpVerdictMeans(ids, w, p);
  }

  lemma DownIsAnswered(ids: seq<Identity>, w: World, p: string, w': World, o: Outcome)
    requires Sound(ids, w) && DownStep(w, p, w', o)
    ensures o != Refused(Unavailable) ==> DownAnswers(w, p, o)
    ensures o == Done ==> DownVerdict(w, p).Go?
  {
    hide Sound, DownVerdict, DownAnswers;
    DownVerdictMeans(ids, w, p);
  }

  lemma OneServes(ids: seq<Identity>, w: World, p: string)
    requires Sound(ids, w)
    ensures DownVerdict(w, p).Go? ==> forall id :: ServedBy(w.runners, p, id) <==> id == DownVerdict(w, p).identity.id
    ensures Select(w.runners, MystConnect, p) != [] ==>
              forall id :: ServedBy(w.runners, p, id) <==>
                           id == ServingIdentity(w.runners, Select(w.runners, MystConnect, p)[0]).id
  {
    hide Sound, Select, ServedBy, ServingIdentity, MystStatus;
    if Select(w.runners, MystConnect, p) != [] {
      ServingMeans(ids, w, p);
    }
  }

  lemma ProxyCreateIsAnswered(ids: seq<Identity>, w: World, p: string, port: nat, w': World, o: Outcome)
    requires Sound(ids, w) && ProxyCreateStep(w, p, port, w', o)
    ensures o != Refused(Unavailable) ==> ProxyCreateAnswers(w, p, o)
  {
    hide Sound, ProxyCreateVerdict, ProxyCreateAnswers, SocatRunner, EnvoyRunner, Grown;
    ProxyCreateVerdictMeans(ids, w, p);
  }

  /** What the repository's `create` answers over a SOCAT of the provider. */
  ghost predicate OverSocatAnswers(w: World, p: string, o: Outcome) {
    var fronted := Has(w.runners, Envoy, p);
    var up := ServingMyst(w.runners, p, Running) || ServingMyst(w.runners, p, Restarting);
    && (o == Refused(Exist) <==> fronted)
    && (o == Refused(NotRunning) <==> !fronted && !up)
    && (o in {Done, Refused(NameTaken)} <==> !fronted && up)
    && (o == Done ==> exists s :: s in w.runners && Names(s, Socat, p) && s.status == Creating)
  }

  lemma RepositoryCreateIsAnswered(ids: seq<Identity>, w: World, p: string, port: nat, w': World, o: Outcome)
    requires Sound(ids, w) && Select(w.runners, MystConnect, p) != [] && RepositoryCreateStep(w, p, port, w', o)
    ensures o != Refused(Unavailable) && Has(w.runners, Socat, p) ==> OverSocatAnswers(w, p, o)
  {
    hide Sound, Select, ServingIdentity, MystStatus, Has, ServingMyst, ProxyCreateStep, Shrunk;
    HasMeans(w.runners, Socat, p);
    HasMeans(w.runners, Envoy, p);
    ServingMeans(ids, w, p);
    var socats := Select(w.runners, Socat, p);
    if socats != [] {
      var s := socats[0];
      assert s in socats;
      WithoutSocat(ids, w, p);
      if MystStatus(w.runners, ServingIdentity(w.runners, Select(w.runners, MystConnect, p)[0]).id) in {Running, Restarting} {
        ReplacesOrFails(Shrunk(w, {s.id}), p, port, w', o);
      }
    }
  }

  lemma ReplacesOrFails(w: World, p: string, port: nat, w': World, o: Outcome)
    requires Select(w.runners, MystConnect, p) != [] && Select(w.runners, Socat, p) == []
    requires MystStatus(w.runners, ServingIdentity(w.runners, Select(w.runners, MystConnect, p)[0]).id) in {Running, Restarting}
    ensures ProxyCreateStep(w, p, port, w', o) ==> o in {Done, Refused(Unavailable)}
  {
    hide Select, MystStatus, ServingIdentity, SocatRunner, EnvoyRunner, Grown;
  }

  lemma ListedMeans(rs: seq<Runner>, p: string, rows: seq<PV.Upstream>)
    requires IdsOf(rows) == Listed(rs, p)
    ensures if Has(rs, Socat, p) && Has(rs, Envoy, p)
            then |rows| == 1 && exists s :: s in rs && Names(s, Socat, p) && rows[0].id == s.tags.upstream
            else rows == []
  {
    hide Select, Has;
    HasMeans(rs, Socat, p);
    HasMeans(rs, Envoy, p);
    if Listed(rs, p) != [] {
      assert IdsOf(rows)[0] == rows[0].id;
      var s := Select(rs, Socat, p)[0];
      assert s in Select(rs, Socat, p);
    }
  }

  /** After `up`, the creation goes through unless something external fails. */
  lemma CreatesAfterUp(w: World, p: string, port: nat, w': World, o: Outcome)
    requires ProxyCreateVerdict(w, p).Go? && ProxyCreateStep(w, p, port, w', o)
    ensures o == Done || o == Refused(Unavailable)
  {
    hide ProxyCreateVerdict, SocatRunner, EnvoyRunner, Grown;
  }

  /** What a successful combined `create` leaves behind: one container of each kind, of the first
      identity that was ready. */
  ghost predicate BothLeave(ids: seq<Identity>, w: World, p: string, port: nat, links: map<string, string>, w': World,
                            links': map<string, string>) {
    exists k, c, s, e ::
      && 0 <= k < |ids| && FirstReady(ids, w, k) && p in w.catalog && w'.runners == w.runners + [c, s, e]
      && ConnectsNewly(w.runners, c, ids[k], p, w.catalog[p], Running)
      && ProxiesNewly(w.runners + [c], s, e, ids[k], p, port, w.catalog[p])
      && links' == links[ids[k].id := w.catalog[p]]
  }

  lemma BothLeaveThis(ids: seq<Identity>, w: World, p: string, port: nat, links: map<string, string>, w1: World,
                      links': map<string, string>, w2: World)
    requires Sound(ids, w) && UpStep(ids, w, p, w1, Done) && UpLeaves(ids, w, p, links, w1, links')
    requires Sound(ids, w1) && ProxyLeaves(ids, w1, p, port, w2)
    ensures BothLeave(ids, w, p, port, links, w2, links')
  {
    hide Sound, FirstReady, ConnectsNewly, ProxiesNewly, UpVerdict;
    var k, c :|
      && 0 <= k < |ids| && FirstReady(ids, w, k) && p in w.catalog
      && ConnectsNewly(w.runners, c, ids[k], p, w.catalog[p], Running) && w1.runners == w.runners + [c]
      && links' == links[ids[k].id := w.catalog[p]];
    var i, s, e :|
      && i in ids && ServedBy(w1.runners, p, i.id) && w2.runners == w1.runners + [s, e]
      && ProxiesNewly(w1.runners, s, e, i, p, port, if p in w1.catalog then w1.catalog[p] else "default-provider");
    SameIdentity(ids, w1, p, i, k, c, w.runners, w.catalog[p]);
    assert w2.runners == w.runners + [c, s, e];
  }

  lemma SameIdentity(ids: seq<Identity>, w: World, p: string, i: Identity, k: nat, c: Runner, rs: seq<Runner>,
                     providerIdentity: string)
    requires Sound(ids, w) && k < |ids| && i in ids && ServedBy(w.runners, p, i.id) && c in w.runners
    requires ConnectsNewly(rs, c, ids[k], p, providerIdentity, Running)
    ensures i == ids[k]
  {
    hide Inv, ServingIdentity, MystStatus, ServingMyst, Select;
    assert Names(c, MystConnect, p);
    HasMeans(w.runners, MystConnect, p);
    ServingMeans(ids, w, p);
    var j :| 0 <= j < |ids| && ids[j] == i;
    SameIds(ids, w, j, k);
  }

  lemma SameIds(ids: seq<Identity>, w: World, j: nat, k: nat)
    requires Sound(ids, w) && j < |ids| && k < |ids| && ids[j].id == ids[k].id
    ensures j == k
  {
    assert IdentitiesDistinct(ids);
  }

  lemma DownBothMeans(ids: seq<Identity>, w: World, p: string)
    requires Sound(ids, w)
    ensures DownBothAnswers(w, p, DownBothOutcome(w, p))
  {
    hide Inv, Select, Has, ServingMyst, MystStatus, ServingIdentity;
    HasMeans(w.runners, MystConnect, p);
    HasMeans(w.runners, Socat, p);
    HasMeans(w.runners, Envoy, p);
    if Select(w.runners, MystConnect, p) != [] {
      ServingMeans(ids, w, p);
    }
  }

  class Backend {
    const ids: seq<Identity>
    const healthy: bool

    var runners: seq<Runner>
    var nextId: nat
    var catalog: map<string, string>
    var addresses: map<string, string>
    var keyFiles: set<string>
    /** The connections that the Mysterium nodes hold: identity id to provider identity. */
    var links: map<string, string>

    ghost function Now(): World
      reads this
    {
      World(runners, nextId, catalog, addresses, keyFiles)
    }

    ghost predicate Valid()
      reads this
    {
      Sound(ids, Now())
    }

    constructor (ids: seq<Identity>, status: Status, catalog: map<string, string>, addresses: map<string, string>,
                 keyFiles: set<string>, healthy: bool)
      requires IdentitiesDistinct(ids) && status != Creating && "" !in catalog
      ensures Valid() && this.ids == ids && this.healthy == healthy
      ensures Now() == World(StartRunners(ids, status), |ids|, catalog, addresses, keyFiles) && links == map[]
    {
      this.ids, this.healthy, this.catalog, links := ids, healthy, catalog, map[];
      this.addresses, this.keyFiles := addresses, keyFiles;
      runners, nextId := StartRunners(ids, status), |ids|;
      StartIsSound(ids, status, catalog, addresses, keyFiles);
    }

    /** A call to Docker, the Mysterium API, the database or the network. */
    method Attempt() returns (ok: bool)
      ensures healthy ==> ok
    {
      var failed: bool := *;
      ok := healthy || !failed;
    }

    /** A container is created, then started; it may be left behind in `created`. */
    method CreateContainer(r: Runner) returns (ok: bool)
      requires r.status == Creating
      modifies this`runners, this`nextId
      ensures healthy ==> ok
      ensures ok ==> runners == old(runners) + [r.(status := Running)] && nextId == r.id + 1
      ensures !ok ==> (runners == old(runners) && nextId == old(nextId)) || (runners == old(runners) + [r] && nextId == r.id + 1)
    {
      ok := Attempt();
      if ok {
        runners, nextId := runners + [r], r.id + 1;
        ok := Attempt();
        if ok {
          runners := runners[|runners| - 1 := r.(status := Running)];
        }
      }
    }

    method RemoveContainer(id: nat) returns (ok: bool)
      modifies this`runners
      ensures healthy ==> ok
      ensures runners == if ok then Without(old(runners), {id}) else old(runners)
    {
      ok := Attempt();
      if ok {
        runners := Without(runners, {id});
      }
    }

    /** `getById` of the provider repository. */
    method ProviderGetById(p: string) returns (r: Result<Option<Provider>, Error>)
      requires Valid()
      ensures healthy ==> r.Success?
      ensures r.Failure? ==> r.error == Unavailable
      ensures r.Success? ==> Read(ids, Now(), p, r.value) && ReadAnswers(ids, Now(), p, r.value)
    {
      r := ReadProvider(p);
      if r.Success? {
        hide Sound, Read, ReadAnswers;
        ReadIsAnswered(ids, Now(), p, r.value);
      }
    }

    /** The reads and the merge of `getById`. */
    method ReadProvider(p: string) returns (r: Result<Option<Provider>, Error>)
      requires Valid()
      ensures healthy ==> r.Success?
      ensures r.Failure? ==> r.error == Unavailable
      ensures r.Success? ==> Read(ids, Now(), p, r.value)
    {
      hide Sound;
      var ok := Attempt();
      if ok {
        ok := Attempt();
      }
      if !ok {
        return Failure(Unavailable);
      }
      var ip := if p in addresses then Some(addresses[p]) else None;
      var api := if p in catalog then Some(Provider(p, Some(catalog[p]), None, false, 0, None, None, ip)) else None;
      var provs := OfProvider(runners, p);
      ProviderRunners(ids, Now(), p);
      if |provs| == 0 {
        return Success(api);
      }
      var base := api.UnwrapOr(Provider(p, None, None, true, 0, None, None, None));
      IndexOfPart(ids, Now(), p);
      hide Read, OfProvider, OfIdentity, Entry, EntryOf, Merged;
      var mysts := OfIdentity(runners, Myst, IdentityOf(provs[0]).UnwrapOr(""));
      ok := Attempt();
      if !ok {
        return Failure(Unavailable);
      }
      MystsArePresent(ids, Now(), p, mysts);
      if |mysts| == 0 {
        // The unmerged provider is returned here; with the invariant this never happens.
        assert false;
      }
      var index := MergeRunnerObjData(provs + mysts);
      var merged := MergeData(base, index);
      MergedIsRead(ids, Now(), p, base, merged);
      r := Success(Some(merged));
    }

    /** `getAll` of the identity repository, filtered on `isUse` being false. */
    method FreeIdentities() returns (r: Result<seq<Identity>, Error>)
      requires Valid()
      ensures healthy ==> r.Success?
      ensures r.Failure? ==> r.error == Unavailable
      ensures r.Success? ==> r.value == Free(ids, runners, keyFiles)
    {
      hide Sound, Used, Tagged;
      var ok := Attempt();
      if !ok {
        return Failure(Unavailable);
      }
      var free: seq<Identity> := [];
      for k := 0 to |ids|
        invariant free == Free(ids[..k], runners, keyFiles)
      {
        FreeSnoc(ids, k, runners, keyFiles);
        UseMeans(ids, Now(), k);
        if ids[k].id !in keyFiles {
          continue;
        }
        var isUse := MergeRunnerData(ids[k].name, runners);
        if isUse == Some(false) {
          free := free + [ids[k]];
        }
      }
      assert ids[..|ids|] == ids;
      r := Success(free);
    }

    /** The API's `disconnect`: without a connection it fails unless forced; the node may have closed
        the connection and the answer may still be an error. */
    method ApiDisconnect(identityId: string, force: bool) returns (ok: bool)
      modifies this`links
      ensures healthy ==> (ok <==> force || identityId in old(links))
      ensures ok ==> links == old(links) - {identityId}
      ensures links == old(links) || links == old(links) - {identityId}
    {
      ok := Attempt();
      if ok {
        if identityId in links {
          links := links - {identityId};
          ok := Attempt();
        } else {
          ok := force;
        }
      }
    }

    /** The API's `connect`: it fails on a node that already holds a connection; the node may have
        connected and the answer may still be an error. */
    method ApiConnect(identityId: string, providerIdentity: string) returns (ok: bool)
      modifies this`links
      ensures healthy ==> (ok <==> identityId !in old(links))
      ensures ok ==> identityId !in old(links) && links == old(links)[identityId := providerIdentity]
      ensures links == old(links) || (identityId !in old(links) && links == old(links)[identityId := providerIdentity])
    {
      ok := Attempt();
      if ok {
        if identityId in links {
          ok := false;
        } else {
          links := links[identityId := providerIdentity];
          ok := Attempt();
        }
      }
    }

    /** `disconnect`: the MYST_CONNECT of the runner's identity goes first, then the connection. */
    method Disconnect(identityId: string, force: bool) returns (ok: bool)
      modifies this`runners, this`links
      ensures healthy && force ==> ok
      ensures ok ==> links == old(links) - {identityId}
      ensures links == old(links) || links == old(links) - {identityId}
      ensures var own := OfIdentity(old(runners), MystConnect, identityId);
              if own == [] then runners == old(runners)
              else runners == Without(old(runners), {own[0].id}) || (!ok && runners == old(runners))
    {
      ok := Attempt();
      if !ok {
        return;
      }
      var own := OfIdentity(runners, MystConnect, identityId);
      if |own| != 0 {
        ok := RemoveContainer(own[0].id);
        if !ok {
          return;
        }
      }
      ok := ApiDisconnect(identityId, force);
    }

    /** `connect`, for a provider with its identities set: the connection first, then the container. */
    method Connect(i: Identity, p: string, providerIdentity: string) returns (ok: bool)
      modifies this`runners, this`nextId, this`links
      ensures healthy ==> (ok <==> i.id !in old(links))
      ensures links == old(links)[i.id := providerIdentity] || (!ok && links == old(links))
      ensures ok ==> Now() == Grown(old(Now()), [ConnectRunner(old(nextId), i, p, providerIdentity, Running)], 1)
      ensures !ok ==> Now() == old(Now())
                      || Now() == Grown(old(Now()), [ConnectRunner(old(nextId), i, p, providerIdentity, Creating)], 1)
    {
      ok := ApiConnect(i.id, providerIdentity);
      if ok {
        ok := CreateContainer(ConnectRunner(nextId, i, p, providerIdentity, Creating));
      }
    }

    /** `up`: one step of the lifecycle, and the step the guards foresee when nothing fails, whatever
        connection an earlier failure left on the node. */
    method Up(p: string) returns (o: Outcome)
      requires Valid()
      modifies this`runners, this`nextId, this`links
      ensures UpStep(ids, old(Now()), p, Now(), o) && Valid()
      ensures healthy ==> o != Refused(Unavailable)
      ensures o != Refused(Unavailable) ==> UpAnswers(ids, old(Now()), p, o)
      ensures o == Done ==> UpLeaves(ids, old(Now()), p, old(links), Now(), links)
    {
      hide Sound, UpStep, UpAnswers, UpLeaves;
      ghost var before := Now();
      o := UpUnlessFailing(p);
      UpIsAnswered(ids, before, p, Now(), o);
      if o == Done {
        UpLeavesThis(ids, before, p, Now(), old(links));
      }
    }

    /** The reads, the guards and the steps of `up`. */
    method UpUnlessFailing(p: string) returns (o: Outcome)
      requires Valid()
      modifies this`runners, this`nextId, this`links
      ensures UpStep(ids, old(Now()), p, Now(), o) && Valid()
      ensures o == Done ==> links == UpLinks(ids, old(Now()), p, old(links))
      ensures healthy ==> o != Refused(Unavailable)
    {
      hide Sound, ConnectRunner;
      ghost var before := Now();
      var read := ProviderGetById(p);
      if read.Failure? {
        return Refused(Unavailable);
      }
      if read.value.None? {
        return Refused(NotFound);
      }
      var provider := read.value.value;
      if provider.isRegister {
        return Refused(InUse);
      }
      var listed := FreeIdentities();
      if listed.Failure? {
        return Refused(Unavailable);
      }
      var free := listed.value;
      if |free| == 0 {
        return Refused(NoIdentity);
      }
      var ok := Attempt();
      if !ok {
        return Refused(Unavailable);
      }
      var mysts := OfIdentity(runners, Myst, free[0].id);
      FirstMystIsLast(ids, before, free[0].id);
      if |mysts| == 0 || mysts[0].status != Running {
        return Refused(NotRunning);
      }
      FreeHasNoConnect(runners, free[0].id);
      ok := Disconnect(free[0].id, true);
      if ok {
        ok := Connect(free[0], p, provider.providerIdentity.value);
      }
      o := if ok then Done else Refused(Unavailable);
      UpKeeps(ids, before, p, Now(), o);
    }

    /** `down`. */
    method Down(p: string) returns (o: Outcome)
      requires Valid()
      modifies this`runners, this`links
      ensures DownStep(old(Now()), p, Now(), o) && Valid()
      ensures healthy ==> o != Refused(Unavailable)
      ensures o != Refused(Unavailable) ==> DownAnswers(old(Now()), p, o)
      ensures o == Done ==> forall r :: r in runners <==> r in old(runners) && ProviderOf(r) != p
      ensures o == Done ==> links == DownLinks(old(Now()), p, old(links))
      ensures o == Done ==> forall id :: ServedBy(old(runners), p, id) ==> links == old(links) - {id}
      ensures links == old(links) || (o in {Done, Refused(Unavailable)} && links == DownLinks(old(Now()), p, old(links)))
    {
      hide Sound, DownStep, DownAnswers, ServedBy;
      ghost var before := Now();
      o := DownUnlessFailing(p);
      DownIsAnswered(ids, before, p, Now(), o);
      if o == Done {
        DownLeavesThis(ids, before, p, Now());
        OneServes(ids, before, p);
      }
    }

    /** The reads, the guards and the steps of `down`. */
    method DownUnlessFailing(p: string) returns (o: Outcome)
      requires Valid()
      modifies this`runners, this`links
      ensures DownStep(old(Now()), p, Now(), o) && Valid()
      ensures o == Done ==> links == DownLinks(old(Now()), p, old(links))
      ensures links == old(links) || (o in {Done, Refused(Unavailable)} && links == DownLinks(old(Now()), p, old(links)))
      ensures healthy ==> o != Refused(Unavailable)
    {
      hide Sound;
      ghost var before := Now();
      var read := ProviderGetById(p);
      if read.Failure? {
        return Refused(Unavailable);
      }
      if read.value.None? {
        return Refused(NotFound);
      }
      var provider := read.value.value;
      if !provider.isRegister || provider.runner.None? {
        ServingHasMyst(ids, before, p);
        return Refused(NotConnecting);
      }
      if provider.proxyCount > 0 {
        return Refused(ProxyInUse);
      }
      if provider.runner.value.status != Running {
        return Refused(NotRunning);
      }
      ServingHasMyst(ids, before, p);
      OnlyConnectOfIdentity(ids, before, p);
      var ok := Disconnect(IdentityOf(provider.runner.value).UnwrapOr(""), true);
      o := if ok then Done else Refused(Unavailable);
      DownKeeps(ids, before, p, Now(), o);
    }

    /** The SOCAT is created, then started; on a failed start it is cleaned away if that works. */
    method CreateSocat(r: Runner) returns (ok: bool)
      requires r.status == Creating && nextId <= r.id
      modifies this`runners, this`nextId
      ensures healthy ==> ok
      ensures ok ==> runners == old(runners) + [r.(status := Running)] && nextId == r.id + 1
      ensures !ok ==> (runners == old(runners) && nextId >= old(nextId))
                      || (runners == old(runners) + [r] && nextId == r.id + 1)
    {
      var count := |runners|;
      ok := CreateContainer(r);
      if !ok && |runners| > count {
        var cleaned := Attempt();
        if cleaned {
          runners := runners[..count];
        }
      }
    }

    /** The SOCAT, then the ENVOY behind it. */
    method AddProxyContainers(i: Identity, p: string, providerIdentity: string, port: nat) returns (ok: bool)
      requires providerIdentity == if p in catalog then catalog[p] else DEFAULT_PROVIDER
      modifies this`runners, this`nextId
      ensures healthy ==> ok
      ensures var w := old(Now());
              if ok then Now() == Grown(w, [SocatRunner(w, i, p, port, Running), EnvoyRunner(w, i, p, Running)], 4)
              else || (Now() == w.(nextId := nextId) && w.nextId <= nextId)
                   || Now() == Grown(w, [SocatRunner(w, i, p, port, Creating)], 2)
                   || Now() == Grown(w, [SocatRunner(w, i, p, port, Running)], 2)
                   || Now() == Grown(w, [SocatRunner(w, i, p, port, Running), EnvoyRunner(w, i, p, Creating)], 4)
    {
      ghost var w := Now();
      var vpn := VpnLabel(p, Some(i.name), Some(providerIdentity));
      var upstream := Runner(nextId + 1, Socat, Label(Some(MystLabel(i.id, None)), Some(vpn), Some(nextId), None), port, Creating);
      ok := CreateSocat(upstream);
      if !ok {
        return;
      }
      var downstream := Runner(nextId + 1, Envoy,
                               Label(Some(MystLabel(i.id, None)), Some(VpnLabel(p, None, None)), None, Some(nextId)), 0, Creating);
      ok := CreateContainer(downstream);
      ghost var socat := SocatRunner(w, i, p, port, Running);
      assert forall e :: w.runners + [socat] + [e] == w.runners + [socat, e];
    }

    /** `create` of the proxy repository for a connected provider; `port` is the one asked for, or the
        one that the search for a free port chose. */
    method CreateProxyContainers(p: string, port: nat) returns (o: Outcome)
      requires Valid() && Select(runners, MystConnect, p) != []
      modifies this`runners, this`nextId
      ensures RepositoryCreateStep(old(Now()), p, port, Now(), o)
      ensures healthy ==> o != Refused(Unavailable)
      ensures o != Refused(Unavailable) && Has(old(runners), Socat, p) ==> OverSocatAnswers(old(Now()), p, o)
    {
      hide Sound, RepositoryCreateStep, OverSocatAnswers, Has;
      ghost var before := Now();
      o := RepositoryCreate(p, port);
      RepositoryCreateIsAnswered(ids, before, p, port, Now(), o);
    }

    /** The reads and the steps of the repository's `create`. */
    method RepositoryCreate(p: string, port: nat) returns (o: Outcome)
      requires Valid() && Select(runners, MystConnect, p) != []
      modifies this`runners, this`nextId
      ensures RepositoryCreateStep(old(Now()), p, port, Now(), o)
      ensures healthy ==> o != Refused(Unavailable)
    {
      hide Sound;
      ghost var before := Now();
      var ok := Attempt();
      if ok {
        ok := Attempt();
      }
      var read := ProviderGetById(p);
      if !ok || read.Failure? {
        return Refused(Unavailable);
      }
      var provider := read.value.value;
      ServingFromRead(ids, before, p, provider);
      var envoys, socats := Select(runners, Envoy, p), Select(runners, Socat, p);
      NoLoneEnvoy(ids, before, p);
      if |envoys| > 0 && |socats| > 0 {
        return Refused(Exist);
      }
      if |envoys| > 0 {
        // An ENVOY without a SOCAT is removed here; the invariant rules it out.
        assert false;
      }
      var i := Identity(IdentityOf(provider.runner.value).UnwrapOr(""), provider.userIdentity.UnwrapOr(""));
      if provider.runner.value.status !in {Running, Restarting} {
        return Refused(NotRunning);
      }
      if |socats| > 0 {
        // The name is taken, unless a port conflict left the SOCAT and it is removed by its name.
        var conflicted: bool := *;
        if !conflicted || socats[0].status != Creating {
          return Refused(NameTaken);
        }
        ok := RemoveContainer(socats[0].id);
        if !ok {
          return Refused(Unavailable);
        }
        WithoutSocat(ids, before, p);
      }
      hide Read, Select, ServingIdentity, MystStatus;
      ok := AddProxyContainers(i, p, provider.providerIdentity.UnwrapOr(DEFAULT_PROVIDER), port);
      o := if ok then Done else Refused(Unavailable);
    }

    /** `create` of the proxy service. */
    method ProxyCreate(p: string, port: nat) returns (o: Outcome)
      requires Valid()
      modifies this`runners, this`nextId
      ensures ProxyCreateStep(old(Now()), p, port, Now(), o) && Valid()
      ensures healthy ==> o != Refused(Unavailable)
      ensures o != Refused(Unavailable) ==> ProxyCreateAnswers(old(Now()), p, o)
      ensures o == Done ==> ProxyLeaves(ids, old(Now()), p, port, Now())
    {
      hide Sound, ProxyCreateStep, ProxyCreateAnswers, ProxyLeaves;
      ghost var before := Now();
      o := ProxyCreateUnlessFailing(p, port);
      ProxyCreateIsAnswered(ids, before, p, port, Now(), o);
      if o == Done {
        ProxyLeavesThis(ids, before, p, port, Now());
      }
    }

    /** The reads, the guards and the steps of `create`. */
    method ProxyCreateUnlessFailing(p: string, port: nat) returns (o: Outcome)
      requires Valid()
      modifies this`runners, this`nextId
      ensures ProxyCreateStep(old(Now()), p, port, Now(), o) && Valid()
      ensures healthy ==> o != Refused(Unavailable)
    {
      hide Sound;
      ghost var before := Now();
      var read := ProviderGetById(p);
      if read.Failure? {
        o := Refused(Unavailable);
      } else if read.value.None? {
        o := Refused(NotFound);
      } else if !read.value.value.isRegister {
        o := Refused(NotConnecting);
      } else if read.value.value.proxyCount > 0 {
        o := Refused(TooMany);
      } else {
        o := CreateProxyContainers(p, port);
      }
      ProxyCreateKeeps(ids, before, p, port, Now(), o);
    }

    /** The ENVOY containers of the provider are all tried, whichever fails. */
    method RemoveEnvoys(p: string) returns (ok: bool)
      modifies this`runners
      ensures healthy ==> ok
      ensures ok ==> runners == Without(old(runners), EnvoyIds(old(runners), p))
      ensures exists gone :: gone <= EnvoyIds(old(runners), p) && runners == Without(old(runners), gone)
    {
      hide Select, Without;
      ghost var before := runners;
      var envoys := Select(runners, Envoy, p);
      ghost var gone: set<nat> := {};
      WithoutAbsent(runners, gone);
      ok := true;
      for i := 0 to |envoys|
        invariant runners == Without(before, gone) && gone <= EnvoyIds(before, p)
        invariant ok ==> gone == set r | r in envoys[..i] :: r.id
        invariant healthy ==> ok
      {
        TakeNext(envoys, i);
        assert envoys[i] in envoys;
        var removed := RemoveContainer(envoys[i].id);
        if removed {
          WithoutTwice(before, gone, {envoys[i].id});
          gone := gone + {envoys[i].id};
        } else {
          ok := false;
        }
      }
      assert envoys[..|envoys|] == envoys;
    }

    /** `remove` of the proxy service: the ENVOY containers of the provider, then the SOCAT. */
    method ProxyRemove(upstreamId: nat) returns (o: Outcome)
      requires Valid()
      modifies this`runners
      ensures ProxyRemoveStep(old(Now()), upstreamId, Now(), o) && Valid()
      ensures healthy ==> o != Refused(Unavailable)
      ensures o != Refused(Unavailable) ==> o == if HasUpstream(old(runners), upstreamId) then Done else Refused(NotFound)
      ensures o == Done ==> ProxyRemoveLeaves(old(runners), upstreamId, runners)
    {
      hide Sound, ProxyRemoveStep, ProxyRemoveLeaves, HasUpstream;
      ghost var before := Now();
      o := ProxyRemoveUnlessFailing(upstreamId);
      ProxyRemoveLeavesThis(ids, before, upstreamId, Now(), o);
    }

    /** The reads and the removals of `remove`. */
    method ProxyRemoveUnlessFailing(upstreamId: nat) returns (o: Outcome)
      requires Valid()
      modifies this`runners
      ensures ProxyRemoveStep(old(Now()), upstreamId, Now(), o) && Valid()
      ensures healthy ==> o != Refused(Unavailable)
    {
      hide Sound, Without, EnvoyIds;
      ghost var before := Now();
      var ok := Attempt();
      if ok {
        ok := Attempt();
      }
      if !ok {
        return Refused(Unavailable);
      }
      var own := Upstreams(runners, upstreamId);
      if |own| == 0 {
        return Refused(NotFound);
      }
      var p := ProviderOf(own[0]);
      ok := Attempt();
      if !ok {
        return Refused(Unavailable);
      }
      ok := RemoveEnvoys(p);
      if ok {
        ok := RemoveContainer(own[0].id);
        if ok {
          WithoutTwice(before.runners, EnvoyIds(before.runners, p), {own[0].id});
        }
      }
      o := if ok then Done else Refused(Unavailable);
      if !ok {
        ghost var gone :| gone <= EnvoyIds(before.runners, p) && runners == Without(before.runners, gone);
        assert Now() == Shrunk(before, gone);
      }
      ProxyRemoveKeeps(ids, before, upstreamId, Now(), o);
    }

    /** `getAll` of the proxy repository, filtered on the provider an upstream's downstream refers to. */
    method ListByProvider(p: string) returns (r: Result<seq<PV.Upstream>, Error>)
      requires Valid()
      ensures healthy ==> r.Success?
      ensures r.Failure? ==> r.error == Unavailable
      ensures r.Success? ==> forall u :: u in r.value ==> u.id.Some?
      ensures r.Success? && p != PV.DEFAULT_REF_ID ==> IdsOf(r.value) == Listed(runners, p)
      ensures r.Success? && p != PV.DEFAULT_REF_ID ==>
                if Has(runners, Socat, p) && Has(runners, Envoy, p)
                then |r.value| == 1 && exists s :: s in runners && Names(s, Socat, p) && r.value[0].id == s.tags.upstream
                else r.value == []
    {
      hide Sound, Listed, IdsOf, Has;
      r := ListRows(p);
      if r.Success? && p != PV.DEFAULT_REF_ID {
        ListedMeans(runners, p, r.value);
      }
    }

    /** The reads, the merge and the filter of the listing. */
    method ListRows(p: string) returns (r: Result<seq<PV.Upstream>, Error>)
      requires Valid()
      ensures healthy ==> r.Success?
      ensures r.Failure? ==> r.error == Unavailable
      ensures r.Success? ==> forall u :: u in r.value ==> u.id.Some?
      ensures r.Success? && p != PV.DEFAULT_REF_ID ==> IdsOf(r.value) == Listed(runners, p)
    {
      hide Sound, Read, PF.Keep, PF.Looped, PF.FilteredAs, PV.PlainUpstream, PV.LastNaming, PV.PositionsOf;
      var ok := Attempt();
      if ok {
        ok := Attempt();
      }
      var read := ProviderGetById(p);
      if !ok || read.Failure? {
        return Failure(Unavailable);
      }
      var socats := OfService(runners, Socat);
      if |socats| == 0 {
        assert forall s :: s in Select(runners, Socat, p) ==> s in socats;
        return Success([]);
      }
      var providers := if read.value.Some? && read.value.value.isRegister then [read.value.value] else [];
      ProvidersAreLabelled(ids, Now());
      var merged := PV.MergeUpstreams(runners, providers, socats);
      MergeSucceeds(ids, Now(), providers, socats);
      if merged.None? {
        assert false;
      }
      var list := merged.value;
      forall k | 0 <= k < |list|
        ensures |list[k].proxyDownstream| == 1 && list[k].id.Some?
      {
        RowMeans(ids, Now(), providers, list, k, p);
      }
      if p != PV.DEFAULT_REF_ID {
        ReferenceFinds(ids, Now(), providers, list, p);
      }
      var rows, total := PF.FilterUpstreams(list, PF.Filter(None, Some(p), None, 1, 100, false));
      r := Success(rows);
    }

    /** The combined `create`. */
    method CreateBoth(p: string, port: nat) returns (o: Outcome)
      requires Valid()
      modifies this`runners, this`nextId, this`links
      ensures Valid()
      ensures o == Done ==> exists c, s, e ::
                && runners == old(runners) + [c, s, e]
                && Select(runners, MystConnect, p) == [c] && Select(runners, Socat, p) == [s] && Select(runners, Envoy, p) == [e]
                && IdentityOf(c) == IdentityOf(s) == IdentityOf(e) && s.port == port
                && !Used(old(runners), IdentityOf(c).UnwrapOr(""))
      ensures healthy ==> o != Refused(Unavailable)
      ensures o != Refused(Unavailable) ==> UpAnswers(ids, old(Now()), p, o)
      ensures o == Done ==> BothLeave(ids, old(Now()), p, port, old(links), Now(), links)
    {
      hide Sound, UpStep, UpAnswers, UpLeaves, ProxyLeaves, BothLeave, ProxyCreateStep, ProxyCreateVerdict, Used, ProxyCreateAnswers;
      ghost var before := Now();
      o := Up(p);
      if o != Done {
        return;
      }
      ghost var between := Now();
      ghost var linked := links;
      UpThenCreates(ids, before, p, between);
      o := ProxyCreate(p, port);
      CreatesAfterUp(between, p, port, Now(), o);
      if o == Done {
        CreateBothMakesOne(ids, before, p, port, between, Now());
        BothLeaveThis(ids, before, p, port, old(links), between, linked, Now());
      }
    }

    /** The combined `down`: remove each proxy listed for the provider, then disconnect. */
    method DownBoth(p: string) returns (o: Outcome)
      requires Valid()
      modifies this`runners, this`links
      ensures Valid()
      ensures o == Done ==> forall r :: r in runners ==> ProviderOf(r) != p && r in old(runners)
      ensures p != PV.DEFAULT_REF_ID ==> forall r :: r in old(runners) && ProviderOf(r) != p ==> r in runners
      ensures o == Done && p != PV.DEFAULT_REF_ID ==>
                Select(old(runners), MystConnect, p) != []
                && links == old(links) - {ServingIdentity(old(runners), Select(old(runners), MystConnect, p)[0]).id}
      ensures o == Done && p != PV.DEFAULT_REF_ID ==> forall id :: ServedBy(old(runners), p, id) ==> links == old(links) - {id}
      ensures healthy ==> o != Refused(Unavailable)
      ensures o != Refused(Unavailable) && p != PV.DEFAULT_REF_ID ==> DownBothAnswers(old(Now()), p, o)
    {
      hide Sound, ServedBy, DownBothAnswers, DownBothOutcome;
      ghost var before := Now();
      o := DownBothUnlessFailing(p);
      if p != PV.DEFAULT_REF_ID && o != Refused(Unavailable) {
        DownBothMeans(ids, before, p);
        if o == Done {
          OneServes(ids, before, p);
        }
      }
    }

    /** The listing, the removals and `down`. */
    method DownBothUnlessFailing(p: string) returns (o: Outcome)
      requires Valid()
      modifies this`runners, this`links
      ensures Valid()
      ensures o == Done ==> forall r :: r in runners ==> ProviderOf(r) != p && r in old(runners)
      ensures p != PV.DEFAULT_REF_ID ==> forall r :: r in old(runners) && ProviderOf(r) != p ==> r in runners
      ensures o == Done && p != PV.DEFAULT_REF_ID ==>
                Select(old(runners), MystConnect, p) != []
                && links == old(links) - {ServingIdentity(old(runners), Select(old(runners), MystConnect, p)[0]).id}
      ensures healthy ==> o != Refused(Unavailable)
      ensures p != PV.DEFAULT_REF_ID ==> o == Refused(Unavailable) || o == DownBothOutcome(old(Now()), p)
    {
      hide Sound, ProxyRemoveStep, DownStep, Listed, DownBothOutcome, ProxyRemoveLeaves, HasUpstream, Has, DownAnswers, ServedBy;
      ghost var before := Now();
      var listed := ListByProvider(p);
      if listed.Failure? {
        return Refused(Unavailable);
      }
      var rows := listed.value;
      var failed: Option<Outcome> := None;
      for i := 0 to |rows|
        invariant Valid() && nextId == before.nextId && catalog == before.catalog
        invariant i == 0 ==> Now() == before && failed == None
        invariant i == 1 ==> ProxyRemoveStep(before, rows[0].id.value, Now(), failed.UnwrapOr(Done))
        invariant failed.Some? ==> failed.value != Done
        invariant healthy ==> failed != Some(Refused(Unavailable))
        invariant links == old(links) && forall r :: r in runners ==> r in before.runners
      {
        assert rows[i] in rows;
        ghost var step := Now();
        var removed := ProxyRemove(rows[i].id.value);
        RemovalTakes(step, rows[i].id.value, Now(), removed);
        if removed != Done && failed.None? {
          failed := Some(removed);
        }
      }
      ghost var between := Now();
      BeforeDown(ids, before, p, rows, between, failed);
      if failed.Some? {
        return failed.value;
      }
      o := Down(p);
      AfterDown(ids, between, p, Now(), o);
    }
  }
}
