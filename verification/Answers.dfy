// What the service calls answer and leave behind, in terms of the containers, the providers that the
// Mysterium API knows and the key files, without the functions that the calls are computed by.
module Answers {
  import opened Wrappers
  import opened Runners
  import opened Lifecycle

  ghost predicate Has(rs: seq<Runner>, service: Service, p: string) {
    exists r :: r in rs && Names(r, service, p)
  }

  ghost predicate ServedBy(rs: seq<Runner>, p: string, identityId: string) {
    exists c :: c in rs && Names(c, MystConnect, p) && IdentityOf(c) == Some(identityId)
  }

  /** A MYST container of the identity has the status. */
  ghost predicate MystIn(rs: seq<Runner>, identityId: string, status: Status) {
    exists m :: m in rs && m.service == Myst && IdentityOf(m) == Some(identityId) && m.status == status
  }

  /** A MYST container of the identity that serves the provider has the status. */
  ghost predicate ServingMyst(rs: seq<Runner>, p: string, status: Status) {
    exists c, m :: c in rs && Names(c, MystConnect, p) && m in rs && m.service == Myst
                   && IdentityOf(m) == IdentityOf(c) && m.status == status
  }

  /** The identity has its key file and no MYST_CONNECT carries it. */
  ghost predicate Ready(ids: seq<Identity>, w: World, k: nat)
    requires k < |ids|
  {
    ids[k].id in w.keyFiles
    && forall c :: c in w.runners && c.service == MystConnect ==> IdentityOf(c) != Some(ids[k].id)
  }

  ghost predicate FirstReady(ids: seq<Identity>, w: World, k: nat)
    requires k < |ids|
  {
    Ready(ids, w, k) && forall j :: 0 <= j < k ==> !Ready(ids, w, j)
  }

  ghost predicate CanGoUp(ids: seq<Identity>, w: World, p: string) {
    && !Has(w.runners, MystConnect, p) && p in w.catalog
    && exists k :: 0 <= k < |ids| && FirstReady(ids, w, k) && MystIn(w.runners, ids[k].id, Running)
  }

  /** When `up` goes through, and when each of its refusals comes. */
  ghost predicate UpAnswers(ids: seq<Identity>, w: World, p: string, o: Outcome) {
    var connected := Has(w.runners, MystConnect, p);
    && (o == Done <==> CanGoUp(ids, w, p))
    && (o == Refused(InUse) <==> connected)
    && (o == Refused(NotFound) <==> !connected && p !in w.catalog)
    && (o == Refused(NoIdentity) <==> !connected && p in w.catalog && forall k :: 0 <= k < |ids| ==> !Ready(ids, w, k))
    && (o == Refused(NotRunning) <==>
        !connected && p in w.catalog
        && exists k :: 0 <= k < |ids| && FirstReady(ids, w, k) && !MystIn(w.runners, ids[k].id, Running))
  }

  ghost predicate DownAnswers(w: World, p: string, o: Outcome) {
    var connected, proxied := Has(w.runners, MystConnect, p), Has(w.runners, Socat, p);
    && (o == Done <==> connected && !proxied && ServingMyst(w.runners, p, Running))
    && (o == Refused(NotFound) <==> !connected && p !in w.catalog)
    && (o == Refused(NotConnecting) <==> !connected && p in w.catalog)
    && (o == Refused(ProxyInUse) <==> connected && proxied)
    && (o == Refused(NotRunning) <==> connected && !proxied && !ServingMyst(w.runners, p, Running))
  }

  ghost predicate ProxyCreateAnswers(w: World, p: string, o: Outcome) {
    var connected, proxied := Has(w.runners, MystConnect, p), Has(w.runners, Socat, p);
    var up := ServingMyst(w.runners, p, Running) || ServingMyst(w.runners, p, Restarting);
    && (o == Done <==> connected && !proxied && up)
    && (o == Refused(NotFound) <==> !connected && p !in w.catalog)
    && (o == Refused(NotConnecting) <==> !connected && p in w.catalog)
    && (o == Refused(TooMany) <==> connected && proxied)
    && (o == Refused(NotRunning) <==> connected && !proxied && !up)
  }

  /** The combined `down` refuses over a SOCAT without an ENVOY, which the listing does not show. */
  ghost predicate DownBothAnswers(w: World, p: string, o: Outcome) {
    var connected, found := Has(w.runners, MystConnect, p), Has(w.runners, Socat, p) ==> Has(w.runners, Envoy, p);
    && (o == Done <==> connected && found && ServingMyst(w.runners, p, Running))
    && (o == Refused(NotFound) <==> !connected && p !in w.catalog)
    && (o == Refused(NotConnecting) <==> !connected && p in w.catalog)
    && (o == Refused(ProxyInUse) <==> connected && !found)
    && (o == Refused(NotRunning) <==> connected && found && !ServingMyst(w.runners, p, Running))
  }

  // The verdicts mean these answers.

  lemma HasMeans(rs: seq<Runner>, service: Service, p: string)
    ensures Has(rs, service, p) <==> Select(rs, service, p) != []
  {
    var own := Select(rs, service, p);
    assert forall i :: 0 <= i < |own| ==> own[i] in own;
    if own != [] {
      assert own[0] in rs && Names(own[0], service, p);
    }
  }

  lemma MystMeans(ids: seq<Identity>, w: World, k: nat, status: Status)
    requires Sound(ids, w) && k < |ids|
    ensures MystIn(w.runners, ids[k].id, status) <==> MystStatus(w.runners, ids[k].id) == status
  {
    var id := ids[k].id;
    var last := LastMyst(w.runners, id);
    assert last.Some? by {
      IdentityHasMyst(ids, w, k);
    }
    hide Inv, LastMyst;
    assert last.value in w.runners && MystRunnerOf(last.value, id);
    forall m | m in w.runners && m.service == Myst && IdentityOf(m) == Some(id)
      ensures m == last.value
    {
      OneMyst(ids, w, id, m);
    }
  }

  lemma IdentityHasMyst(ids: seq<Identity>, w: World, k: nat)
    requires Sound(ids, w) && k < |ids|
    ensures LastMyst(w.runners, ids[k].id).Some?
  {
  }

  /** What is known of the MYST_CONNECT of a connected provider. */
  lemma ServingMeans(ids: seq<Identity>, w: World, p: string)
    requires Sound(ids, w) && Select(w.runners, MystConnect, p) != []
    ensures var c := Select(w.runners, MystConnect, p)[0]; var i := ServingIdentity(w.runners, c);
            && (forall d :: d in w.runners && Names(d, MystConnect, p) ==> d == c)
            && c in w.runners && Names(c, MystConnect, p) && IdentityOf(c) == Some(i.id) && i in ids
            && (forall id :: ServedBy(w.runners, p, id) <==> id == i.id)
            && forall status :: ServingMyst(w.runners, p, status) <==> MystStatus(w.runners, i.id) == status
  {
    hide Inv, Select, LastMyst, ServingIdentity, MystStatus, MystIn;
    var c := Select(w.runners, MystConnect, p)[0];
    assert c in Select(w.runners, MystConnect, p);
    ServingIsKnown(ids, w, p);
    SoundIsApart(ids, w);
    forall d | d in w.runners && Names(d, MystConnect, p)
      ensures d == c
    {
      Selected(w.runners, MystConnect, p, d);
    }
    var i := ServingIdentity(w.runners, c);
    var k :| 0 <= k < |ids| && ids[k] == i;
    forall status
      ensures ServingMyst(w.runners, p, status) <==> MystStatus(w.runners, i.id) == status
    {
      MystMeans(ids, w, k, status);
      ServingIsMystIn(w.runners, p, c, i.id, status);
    }
  }

  lemma ServingIsMystIn(rs: seq<Runner>, p: string, c: Runner, id: string, status: Status)
    requires c in rs && Names(c, MystConnect, p) && IdentityOf(c) == Some(id)
    requires forall d :: d in rs && Names(d, MystConnect, p) ==> d == c
    ensures ServingMyst(rs, p, status) <==> MystIn(rs, id, status)
  {
  }

  lemma ReadyMeans(ids: seq<Identity>, w: World, k: nat)
    requires k < |ids|
    ensures Ready(ids, w, k) <==> ids[k].id in w.keyFiles && !Used(w.runners, ids[k].id)
  {
  }

  /** The first of the free identities is the first that is ready. */
  lemma {:induction false} FreeMeans(ids: seq<Identity>, w: World)
    ensures var free := Free(ids, w.runners, w.keyFiles);
            && (free == [] <==> forall k :: 0 <= k < |ids| ==> !Ready(ids, w, k))
            && (free != [] ==> exists k :: 0 <= k < |ids| && FirstReady(ids, w, k) && free[0] == ids[k])
  {
    hide Used;
    if ids != [] {
      var n := |ids| - 1;
      var init := ids[..n];
      FreeMeans(init, w);
      forall k | 0 <= k < |ids|
        ensures k < n ==> (Ready(init, w, k) <==> Ready(ids, w, k))
        ensures Ready(ids, w, k) <==> ids[k].id in w.keyFiles && !Used(w.runners, ids[k].id)
      {
        ReadyMeans(ids, w, k);
        if k < n {
          ReadyMeans(init, w, k);
        }
      }
      var above := Free(init, w.runners, w.keyFiles);
      hide Ready;
      if above != [] {
        var k :| 0 <= k < n && FirstReady(init, w, k) && above[0] == init[k];
        assert FirstReady(ids, w, k);
      } else if Ready(ids, w, n) {
        assert FirstReady(ids, w, n);
      }
    }
  }

  /** The free identities stand in the order of the identities, none of them twice. */
  lemma {:induction false} FreeInOrder(ids: seq<Identity>, rs: seq<Runner>, keyFiles: set<string>, a: nat, b: nat)
    requires a < b < |Free(ids, rs, keyFiles)|
    ensures exists j, k :: 0 <= j < k < |ids| && Free(ids, rs, keyFiles)[a] == ids[j] && Free(ids, rs, keyFiles)[b] == ids[k]
  {
    hide Used;
    var n := |ids| - 1;
    var init, above := ids[..n], Free(ids[..n], rs, keyFiles);
    if b < |above| {
      FreeInOrder(init, rs, keyFiles, a, b);
      var j, k :| 0 <= j < k < |init| && above[a] == init[j] && above[b] == init[k];
      assert ids[j] == init[j] && ids[k] == init[k];
    } else {
      assert above[a] in init;
      var j :| 0 <= j < n && init[j] == above[a];
      assert ids[j] == init[j];
    }
  }

  lemma OneIsFirst(ids: seq<Identity>, w: World, j: nat, k: nat)
    requires j < |ids| && k < |ids| && FirstReady(ids, w, j) && FirstReady(ids, w, k)
    ensures j == k
  {
    hide Ready;
  }

  /** `up` goes through exactly for the first identity that is ready, when nothing connects the
      provider, the API knows it and the identity's MYST container runs. */
  lemma UpVerdictMeans(ids: seq<Identity>, w: World, p: string)
    requires Sound(ids, w)
    ensures forall k :: 0 <= k < |ids| ==>
              (UpVerdict(ids, w, p) == Go(ids[k]) <==>
               !Has(w.runners, MystConnect, p) && p in w.catalog && FirstReady(ids, w, k) && MystIn(w.runners, ids[k].id, Running))
    ensures UpAnswers(ids, w, p, match UpVerdict(ids, w, p) case Refuse(e) => Refused(e) case Go(_) => Done)
  {
    hide Inv, Select, Free, Has, MystIn, FirstReady, Ready, MystStatus;
    HasMeans(w.runners, MystConnect, p);
    FreeMeans(ids, w);
    var free := Free(ids, w.runners, w.keyFiles);
    if free != [] {
      var first :| 0 <= first < |ids| && FirstReady(ids, w, first) && free[0] == ids[first];
      MystMeans(ids, w, first, Running);
      FirstIsReady(ids, w, first);
      forall k | 0 <= k < |ids|
        ensures FirstReady(ids, w, k) <==> k == first
        ensures ids[k] == ids[first] <==> k == first
      {
        if FirstReady(ids, w, k) {
          OneIsFirst(ids, w, k, first);
        }
        IdentitiesTell(ids, w, k, first);
      }
    } else {
      forall k | 0 <= k < |ids|
        ensures !FirstReady(ids, w, k)
      {
        if FirstReady(ids, w, k) {
          FirstIsReady(ids, w, k);
        }
      }
    }
  }

  lemma FirstIsReady(ids: seq<Identity>, w: World, k: nat)
    requires k < |ids| && FirstReady(ids, w, k)
    ensures Ready(ids, w, k)
  {
  }

  lemma IdentitiesTell(ids: seq<Identity>, w: World, j: nat, k: nat)
    requires Sound(ids, w) && j < |ids| && k < |ids|
    ensures ids[j] == ids[k] <==> j == k
  {
    assert IdentitiesDistinct(ids);
  }

  lemma DownVerdictMeans(ids: seq<Identity>, w: World, p: string)
    requires Sound(ids, w)
    ensures DownAnswers(w, p, match DownVerdict(w, p) case Refuse(e) => Refused(e) case Go(_) => Done)
    ensures DownVerdict(w, p).Go? ==> ServedBy(w.runners, p, DownVerdict(w, p).identity.id)
  {
    hide Inv, Select, Has, ServingMyst, MystStatus, ServingIdentity, ServedBy;
    HasMeans(w.runners, MystConnect, p);
    HasMeans(w.runners, Socat, p);
    if Select(w.runners, MystConnect, p) != [] {
      ServingMeans(ids, w, p);
    }
  }

  lemma ProxyCreateVerdictMeans(ids: seq<Identity>, w: World, p: string)
    requires Sound(ids, w)
    ensures ProxyCreateAnswers(w, p, match ProxyCreateVerdict(w, p) case Refuse(e) => Refused(e) case Go(_) => Done)
    ensures ProxyCreateVerdict(w, p).Go? ==>
              ProxyCreateVerdict(w, p).identity in ids && ServedBy(w.runners, p, ProxyCreateVerdict(w, p).identity.id)
  {
    hide Inv, Select, Has, ServingMyst, MystStatus, ServingIdentity, ServedBy;
    HasMeans(w.runners, MystConnect, p);
    HasMeans(w.runners, Socat, p);
    if Select(w.runners, MystConnect, p) != [] {
      ServingMeans(ids, w, p);
    }
  }

  // What the calls leave behind.

  /** The container that `up` appends: labelled with an identity under both its names and with the
      provider under both its identities, and with a new id. */
  ghost predicate ConnectsNewly(rs: seq<Runner>, c: Runner, i: Identity, p: string, providerIdentity: string, status: Status) {
    && c.service == MystConnect && c.status == status
    && c.tags.myst == Some(MystLabel(i.id, Some(i.name)))
    && c.tags.vpn == Some(VpnLabel(p, Some(i.name), Some(providerIdentity)))
    && c.tags.upstream == None && c.tags.downstream == None
    && forall r :: r in rs ==> r.id != c.id
  }

  ghost predicate UpLeaves(ids: seq<Identity>, w: World, p: string, links: map<string, string>, w': World,
                           links': map<string, string>) {
    exists k, c ::
      && 0 <= k < |ids| && FirstReady(ids, w, k) && p in w.catalog
      && ConnectsNewly(w.runners, c, ids[k], p, w.catalog[p], Running) && w'.runners == w.runners + [c]
      && links' == links[ids[k].id := w.catalog[p]]
  }

  lemma UpLeavesThis(ids: seq<Identity>, w: World, p: string, w': World, links: map<string, string>)
    requires Sound(ids, w) && UpStep(ids, w, p, w', Done)
    ensures UpVerdict(ids, w, p).Go? && p in w.catalog
    ensures UpLeaves(ids, w, p, links, w', links[UpVerdict(ids, w, p).identity.id := w.catalog[p]])
  {
    hide Inv, UpVerdict, FirstReady, Has, MystIn;
    var i := UpVerdict(ids, w, p).identity;
    UpVerdictMeans(ids, w, p);
    var k :| 0 <= k < |ids| && ids[k] == i;
    var c := ConnectRunner(w.nextId, i, p, w.catalog[p], Running);
    SoundIsBelow(ids, w);
    assert ConnectsNewly(w.runners, c, ids[k], p, w.catalog[p], Running);
  }

  /** The two containers that a proxy adds, with their labels and new ids. */
  ghost predicate ProxiesNewly(rs: seq<Runner>, s: Runner, e: Runner, i: Identity, p: string, port: nat, providerIdentity: string) {
    && s.service == Socat && s.status == Running && s.port == port
    && s.tags.myst == Some(MystLabel(i.id, None)) && s.tags.vpn == Some(VpnLabel(p, Some(i.name), Some(providerIdentity)))
    && s.tags.upstream.Some? && s.tags.downstream == None
    && e.service == Envoy && e.status == Running
    && e.tags.myst == Some(MystLabel(i.id, None)) && e.tags.vpn == Some(VpnLabel(p, None, None))
    && e.tags.upstream == None && e.tags.downstream.Some?
    && s.id != e.id
    && forall r :: r in rs ==> r.id != s.id && r.id != e.id && r.tags.upstream != s.tags.upstream
                               && r.tags.downstream != e.tags.downstream
  }

  ghost predicate ProxyLeaves(ids: seq<Identity>, w: World, p: string, port: nat, w': World) {
    exists i, s, e ::
      && i in ids && ServedBy(w.runners, p, i.id) && w'.runners == w.runners + [s, e]
      && ProxiesNewly(w.runners, s, e, i, p, port, if p in w.catalog then w.catalog[p] else "default-provider")
  }

  lemma ProxyLeavesThis(ids: seq<Identity>, w: World, p: string, port: nat, w': World)
    requires Sound(ids, w) && ProxyCreateStep(w, p, port, w', Done)
    ensures ProxyLeaves(ids, w, p, port, w')
  {
    hide Inv, ProxyCreateVerdict, ServedBy;
    ProxyCreateVerdictMeans(ids, w, p);
    var i := ProxyCreateVerdict(w, p).identity;
    var s, e := SocatRunner(w, i, p, port, Running), EnvoyRunner(w, i, p, Running);
    LabelsAreBelow(ids, w);
    assert ProxiesNewly(w.runners, s, e, i, p, port, if p in w.catalog then w.catalog[p] else "default-provider");
  }

  lemma LabelsAreBelow(ids: seq<Identity>, w: World)
    requires Sound(ids, w)
    ensures forall r :: r in w.runners ==> Below(r, w.nextId)
  {
    hide Apart, WellLabelled, Supported, LastMyst;
  }

  /** A successful `down` leaves the containers that do not name the provider. */
  lemma DownLeavesThis(ids: seq<Identity>, w: World, p: string, w': World)
    requires Sound(ids, w) && DownStep(w, p, w', Done)
    ensures forall r :: r in w'.runners <==> r in w.runners && ProviderOf(r) != p
  {
    hide Inv, DownVerdict, Select;
    DownClears(ids, w, p, w');
    assert forall r :: r in w'.runners ==> r in w.runners;
  }

  /** Removing a proxy leaves all but its SOCAT and the ENVOY containers of its provider. */
  ghost predicate ProxyRemoveLeaves(rs: seq<Runner>, upstreamId: nat, rs': seq<Runner>) {
    exists s :: s in rs && s.service == Socat && s.tags.upstream == Some(upstreamId)
                && forall r :: r in rs' <==> r in rs && r != s && !Names(r, Envoy, ProviderOf(s))
  }

  ghost predicate HasUpstream(rs: seq<Runner>, upstreamId: nat) {
    exists s :: s in rs && s.service == Socat && s.tags.upstream == Some(upstreamId)
  }

  lemma ProxyRemoveLeavesThis(ids: seq<Identity>, w: World, upstreamId: nat, w': World, o: Outcome)
    requires Sound(ids, w) && ProxyRemoveStep(w, upstreamId, w', o)
    ensures o == Done ==> ProxyRemoveLeaves(w.runners, upstreamId, w'.runners)
    ensures o != Refused(Unavailable) ==> (o == Done <==> HasUpstream(w.runners, upstreamId))
                                          && (o == Refused(NotFound) <==> !HasUpstream(w.runners, upstreamId))
  {
    hide Inv, EnvoyIds, Closed;
    var own := Upstreams(w.runners, upstreamId);
    assert forall i :: 0 <= i < |own| ==> own[i] in own;
    if own != [] {
      assert own[0] in w.runners;
    }
    if o == Done {
      var s := own[0];
      var p := ProviderOf(s);
      SoundIsApart(ids, w);
      EnvoysHaveProviders(ids, w);
      SocatNames(ids, w, s);
      ProxyIsClosed(w.runners, p, s);
      forall r | r in w.runners && Names(r, Envoy, p)
        ensures r.id in EnvoyIds(w.runners, p)
      {
        EnvoyIsCounted(w.runners, p, r);
      }
    }
  }

  lemma EnvoyIsCounted(rs: seq<Runner>, p: string, r: Runner)
    requires r in rs && Names(r, Envoy, p)
    ensures r.id in EnvoyIds(rs, p)
  {
    assert r in Select(rs, Envoy, p);
  }

  lemma EnvoysHaveProviders(ids: seq<Identity>, w: World)
    requires Sound(ids, w)
    ensures forall r :: r in w.runners && r.service == Envoy ==> r.tags.vpn.Some?
  {
    hide Apart, Supported, Below, LastMyst;
    forall r | r in w.runners && r.service == Envoy
      ensures r.tags.vpn.Some?
    {
      assert WellLabelled(ids, r);
    }
  }

  lemma SocatNames(ids: seq<Identity>, w: World, s: Runner)
    requires Sound(ids, w) && s in w.runners && s.service == Socat
    ensures Names(s, Socat, ProviderOf(s))
  {
    hide Apart, Supported, Below, LastMyst;
    assert WellLabelled(ids, s);
  }

  // The provider that a read hands out.

  ghost predicate ServingConnect(rs: seq<Runner>, p: string, status: Status) {
    exists c :: c in rs && Names(c, MystConnect, p) && c.status == status
  }

  /** A connected provider is online while its MYST and its MYST_CONNECT run and the API lists it,
      pending while the MYST_CONNECT is still being made, and offline otherwise. */
  ghost predicate StatusAnswers(w: World, p: string, status: ProviderStatus) {
    var alive := p in w.catalog && ServingMyst(w.runners, p, Running);
    && (status == Online <==> alive && ServingConnect(w.runners, p, Running))
    && (status == Pending <==> alive && ServingConnect(w.runners, p, Creating))
    && (status == Offline <==>
        !alive || (!ServingConnect(w.runners, p, Running) && !ServingConnect(w.runners, p, Creating)))
  }

  ghost predicate ReadAnswers(ids: seq<Identity>, w: World, p: string, r: Option<Provider>) {
    var ip := if p in w.catalog && p in w.addresses then Some(w.addresses[p]) else None;
    if !Has(w.runners, MystConnect, p) then
      r == if p in w.catalog then Some(Provider(p, Some(w.catalog[p]), None, false, 0, None, None, ip)) else None
    else
      && r.Some? && r.value.id == p && r.value.isRegister && r.value.ip == ip
      && r.value.proxyCount == (if Has(w.runners, Socat, p) then 1 else 0)
      && r.value.providerIdentity == (if p in w.catalog then Some(w.catalog[p]) else None)
      && r.value.providerStatus.Some? && StatusAnswers(w, p, r.value.providerStatus.value)
      && exists i, m :: i in ids && ServedBy(w.runners, p, i.id) && r.value.userIdentity == Some(i.name)
                        && m in w.runners && m.service == Myst && IdentityOf(m) == Some(i.id) && r.value.runner == Some(m)
  }

  /** The status by the entry of the index, stated of the entry alone. */
  lemma StatusOfMeans(entry: IndexEntry, providerIdentity: Option<string>)
    ensures var alive := entry.myst.status == Running && providerIdentity.Some?; var s := StatusOf(entry, providerIdentity);
            && (s == Online <==> alive && entry.mystConnect.status == Running)
            && (s == Pending <==> alive && entry.mystConnect.status == Creating)
            && (s == Offline <==> !alive || entry.mystConnect.status !in {Running, Creating})
  {
  }
}
