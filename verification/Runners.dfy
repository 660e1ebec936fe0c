// Labelled containers, and the index that the provider repository builds over them.
module Runners {
  import opened Wrappers
  import opened Text

  datatype Service = Myst | MystConnect | Socat | Envoy

  datatype Status = Creating | Running | Restarting | Exited | Failed

  datatype MystLabel = MystLabel(id: string, identity: Option<string>)

  datatype VpnLabel = VpnLabel(id: string, userIdentity: Option<string>, providerIdentity: Option<string>)

  /** The namespaces of a runner's label; the ids of an upstream and a downstream are generated. */
  datatype Label = Label(myst: Option<MystLabel>, vpn: Option<VpnLabel>, upstream: Option<nat>, downstream: Option<nat>)

  datatype Runner = Runner(id: nat, service: Service, tags: Label, port: nat, status: Status)

  /** The provider a runner names; the empty string, which is no provider, when it names none. */
  function ProviderOf(r: Runner): string {
    if r.tags.vpn.Some? then r.tags.vpn.value.id else ""
  }

  function IdentityOf(r: Runner): Option<string> {
    if r.tags.myst.Some? then Some(r.tags.myst.value.id) else None
  }

  predicate Names(r: Runner, service: Service, provider: string) {
    r.service == service && r.tags.vpn.Some? && r.tags.vpn.value.id == provider
  }

  /** A MYST runner labelled with this identity and nothing else: its label is a single object. */
  predicate MystRunnerOf(r: Runner, identityId: string) {
    && r.service == Myst && r.tags.myst.Some? && r.tags.myst.value.id == identityId
    && r.tags.vpn.None? && r.tags.upstream.None? && r.tags.downstream.None?
  }

  function LastMyst(rs: seq<Runner>, identityId: string): (m: Option<Runner>)
    ensures m.Some? ==> m.value in rs && MystRunnerOf(m.value, identityId)
    ensures m.None? ==> forall r :: r in rs ==> !MystRunnerOf(r, identityId)
  {
    if rs == [] then None
    else
      var n := |rs| - 1;
      assert rs == rs[..n] + [rs[n]];
      if MystRunnerOf(rs[n], identityId) then Some(rs[n]) else LastMyst(rs[..n], identityId)
  }

  /** A MYST_CONNECT runner for the provider whose identity has a MYST runner among `all`. */
  predicate Connects(r: Runner, all: seq<Runner>, provider: string) {
    && Names(r, MystConnect, provider) && provider != ""
    && r.tags.myst.Some? && LastMyst(all, r.tags.myst.value.id).Some?
  }

  function LastConnect(rs: seq<Runner>, all: seq<Runner>, provider: string): (c: Option<Runner>)
    ensures c.Some? ==> c.value in rs && Connects(c.value, all, provider)
    ensures c.None? ==> forall r :: r in rs ==> !Connects(r, all, provider)
  {
    if rs == [] then None
    else
      var n := |rs| - 1;
      assert rs == rs[..n] + [rs[n]];
      if Connects(rs[n], all, provider) then Some(rs[n]) else LastConnect(rs[..n], all, provider)
  }

  /** The runners of a service that name the provider, in order. */
  function Select(rs: seq<Runner>, service: Service, provider: string): (own: seq<Runner>)
    ensures forall r :: r in own <==> r in rs && Names(r, service, provider)
  {
    if rs == [] then []
    else
      var n := |rs| - 1;
      var own := Select(rs[..n], service, provider);
      assert rs == rs[..n] + [rs[n]];
      if Names(rs[n], service, provider) then own + [rs[n]] else own
  }

  datatype IndexEntry = IndexEntry(myst: Runner, mystConnect: Runner, socat: seq<Runner>)

  /** What the index holds for a provider. */
  function EntryOf(rs: seq<Runner>, provider: string): Option<IndexEntry> {
    var c := LastConnect(rs, rs, provider);
    if c.None? then None
    else Some(IndexEntry(LastMyst(rs, c.value.tags.myst.value.id).value, c.value, Select(rs, Socat, provider)))
  }

  /** `isRegister`, in plain terms: some MYST_CONNECT names the provider and its identity has a
      MYST runner. */
  lemma RegisteredMeans(rs: seq<Runner>, provider: string)
    ensures EntryOf(rs, provider).Some? <==>
            provider != "" && exists c, m :: c in rs && m in rs && Names(c, MystConnect, provider)
                                             && c.tags.myst.Some? && MystRunnerOf(m, c.tags.myst.value.id)
  {
    var entry := EntryOf(rs, provider);
    if entry.Some? {
      var c := LastConnect(rs, rs, provider).value;
      var m := LastMyst(rs, c.tags.myst.value.id).value;
      assert c in rs && m in rs;
    } else if provider != "" {
      forall c, m | c in rs && m in rs && Names(c, MystConnect, provider) && c.tags.myst.Some?
        ensures !MystRunnerOf(m, c.tags.myst.value.id)
      {
        assert !Connects(c, rs, provider);
      }
    }
  }

  method MystMap(rs: seq<Runner>) returns (mysts: map<string, Runner>)
    ensures forall id :: id in mysts <==> LastMyst(rs, id).Some?
    ensures forall id :: id in mysts ==> Some(mysts[id]) == LastMyst(rs, id)
  {
    mysts := map[];
    for i := 0 to |rs|
      invariant forall id :: id in mysts <==> LastMyst(rs[..i], id).Some?
      invariant forall id :: id in mysts ==> Some(mysts[id]) == LastMyst(rs[..i], id)
    {
      TakeNext(rs, i);
      var r := rs[i];
      if r.service == Myst && r.tags.myst.Some? && r.tags.vpn.None? && r.tags.upstream.None? && r.tags.downstream.None? {
        mysts := mysts[r.tags.myst.value.id := r];
      }
    }
    assert rs[..|rs|] == rs;
  }

  /** The index entry of a provider when the SOCAT runners have been read up to `socats`. */
  ghost predicate IndexedUpTo(index: map<string, IndexEntry>, connects: seq<Runner>, all: seq<Runner>, socats: seq<Runner>) {
    && (forall p :: p in index <==> LastConnect(connects, all, p).Some?)
    && forall p :: p in index ==> EntryIs(index[p], p, connects, all, socats)
  }

  ghost predicate EntryIs(entry: IndexEntry, p: string, connects: seq<Runner>, all: seq<Runner>, socats: seq<Runner>) {
    var c := LastConnect(connects, all, p);
    && c.Some? && entry.mystConnect == c.value
    && Some(entry.myst) == LastMyst(all, c.value.tags.myst.value.id)
    && entry.socat == Select(socats, Socat, p)
  }

  lemma ConnectSnoc(connects: seq<Runner>, r: Runner, all: seq<Runner>, p: string)
    ensures LastConnect(connects + [r], all, p) == if Connects(r, all, p) then Some(r) else LastConnect(connects, all, p)
  {
    assert (connects + [r])[..|connects|] == connects;
  }

  lemma IndexConnect(index: map<string, IndexEntry>, connects: seq<Runner>, all: seq<Runner>, r: Runner,
                     mysts: map<string, Runner>)
    requires IndexedUpTo(index, connects, all, [])
    requires forall id :: id in mysts <==> LastMyst(all, id).Some?
    requires forall id :: id in mysts ==> Some(mysts[id]) == LastMyst(all, id)
    ensures var hit := r.service == MystConnect && ProviderOf(r) != "" && r.tags.myst.Some? && r.tags.myst.value.id in mysts;
            IndexedUpTo(if hit then index[ProviderOf(r) := IndexEntry(mysts[r.tags.myst.value.id], r, [])] else index,
                        connects + [r], all, [])
  {
    hide LastConnect, LastMyst;
    forall p
      ensures LastConnect(connects + [r], all, p) == if Connects(r, all, p) then Some(r) else LastConnect(connects, all, p)
    {
      ConnectSnoc(connects, r, all, p);
    }
    forall p
      ensures Connects(r, all, p) <==>
              r.service == MystConnect && ProviderOf(r) == p && p != "" && r.tags.myst.Some? && r.tags.myst.value.id in mysts
    {
    }
  }

  /** The pass over the MYST_CONNECT runners. */
  method ConnectMap(rs: seq<Runner>, mysts: map<string, Runner>) returns (index: map<string, IndexEntry>)
    requires forall id :: id in mysts <==> LastMyst(rs, id).Some?
    requires forall id :: id in mysts ==> Some(mysts[id]) == LastMyst(rs, id)
    ensures IndexedUpTo(index, rs, rs, [])
  {
    index := map[];
    for i := 0 to |rs|
      invariant IndexedUpTo(index, rs[..i], rs, [])
    {
      TakeNext(rs, i);
      var r := rs[i];
      IndexConnect(index, rs[..i], rs, r, mysts);
      hide IndexedUpTo;
      if r.service == MystConnect {
        if ProviderOf(r) != "" && r.tags.myst.Some? && r.tags.myst.value.id in mysts {
          index := index[ProviderOf(r) := IndexEntry(mysts[r.tags.myst.value.id], r, [])];
        }
      }
    }
    assert rs[..|rs|] == rs;
  }

  /** Of several MYST runners of an identity the last one counts. */
  lemma {:induction false} LastMystCounts(rs: seq<Runner>, identityId: string)
    requires LastMyst(rs, identityId).Some?
    ensures exists k :: 0 <= k < |rs| && rs[k] == LastMyst(rs, identityId).value
                        && forall j :: k < j < |rs| ==> !MystRunnerOf(rs[j], identityId)
  {
    hide MystRunnerOf;
    var n := |rs| - 1;
    var init := rs[..n];
    if MystRunnerOf(rs[n], identityId) {
      assert rs[n] == LastMyst(rs, identityId).value;
    } else {
      LastMystCounts(init, identityId);
      var k :| 0 <= k < n && init[k] == LastMyst(init, identityId).value
               && forall j :: k < j < n ==> !MystRunnerOf(init[j], identityId);
      assert rs[k] == init[k] && forall j :: k < j < n ==> rs[j] == init[j];
    }
  }

  /** Of several MYST_CONNECT runners of a provider the last one whose identity has a MYST runner counts. */
  lemma {:induction false} LastConnectCounts(rs: seq<Runner>, all: seq<Runner>, provider: string)
    requires LastConnect(rs, all, provider).Some?
    ensures exists k :: 0 <= k < |rs| && rs[k] == LastConnect(rs, all, provider).value
                        && forall j :: k < j < |rs| ==> !Connects(rs[j], all, provider)
  {
    hide Connects;
    var n := |rs| - 1;
    var init := rs[..n];
    if Connects(rs[n], all, provider) {
      assert rs[n] == LastConnect(rs, all, provider).value;
    } else {
      LastConnectCounts(init, all, provider);
      var k :| 0 <= k < n && init[k] == LastConnect(init, all, provider).value
               && forall j :: k < j < n ==> !Connects(init[j], all, provider);
      assert rs[k] == init[k] && forall j :: k < j < n ==> rs[j] == init[j];
    }
  }

  /** The runners selected for a provider come each as often as they are there. */
  lemma {:induction false} SelectCounts(rs: seq<Runner>, service: Service, provider: string, r: Runner)
    ensures multiset(Select(rs, service, provider))[r] == if Names(r, service, provider) then multiset(rs)[r] else 0
  {
    if rs != [] {
      var n := |rs| - 1;
      SelectCounts(rs[..n], service, provider, r);
      assert rs == rs[..n] + [rs[n]];
    }
  }

  /** They keep their order. */
  lemma {:induction false} SelectInOrder(rs: seq<Runner>, service: Service, provider: string, a: nat, b: nat)
    requires a < b < |Select(rs, service, provider)|
    ensures exists j, k :: 0 <= j < k < |rs| && rs[j] == Select(rs, service, provider)[a] && rs[k] == Select(rs, service, provider)[b]
  {
    hide Names;
    var n := |rs| - 1;
    var init, own := rs[..n], Select(rs[..n], service, provider);
    if b < |own| {
      SelectInOrder(init, service, provider, a, b);
      var j, k :| 0 <= j < k < |init| && init[j] == own[a] && init[k] == own[b];
      assert rs[j] == init[j] && rs[k] == init[k];
    } else {
      assert own[a] in init;
      var j :| 0 <= j < n && init[j] == own[a];
      assert rs[j] == init[j];
    }
  }

  lemma SelectSnoc(rs: seq<Runner>, r: Runner, service: Service, p: string)
    ensures Select(rs + [r], service, p) == Select(rs, service, p) + (if Names(r, service, p) then [r] else [])
  {
    assert (rs + [r])[..|rs|] == rs;
  }

  lemma IndexSocat(index: map<string, IndexEntry>, all: seq<Runner>, socats: seq<Runner>, r: Runner)
    requires IndexedUpTo(index, all, all, socats)
    ensures var p := ProviderOf(r);
            var hit := r.service == Socat && p != "" && p in index;
            IndexedUpTo(if hit then index[p := index[p].(socat := index[p].socat + [r])] else index, all, all, socats + [r])
  {
    hide LastConnect, LastMyst, Select;
    forall p
      ensures Select(socats + [r], Socat, p) == Select(socats, Socat, p) + (if Names(r, Socat, p) then [r] else [])
    {
      SelectSnoc(socats, r, Socat, p);
    }
    forall p | p in index
      ensures p != ""
    {
      ConnectedIsNamed(all, p);
    }
  }

  lemma ConnectedIsNamed(rs: seq<Runner>, p: string)
    ensures LastConnect(rs, rs, p).Some? ==> p != ""
  {
  }

  /** `_mergeRunnerObjData`: one pass over the MYST runners, one over the MYST_CONNECT runners and
      one over the SOCAT runners. */
  method MergeRunnerObjData(rs: seq<Runner>) returns (index: map<string, IndexEntry>)
    ensures forall p :: p in index <==> EntryOf(rs, p).Some?
    ensures forall p :: p in index ==> Some(index[p]) == EntryOf(rs, p)
  {
    var mysts := MystMap(rs);
    if forall r :: r in rs ==> r.service != MystConnect {
      return map[];
    }
    index := ConnectMap(rs, mysts);
    for i := 0 to |rs|
      invariant IndexedUpTo(index, rs, rs, rs[..i])
    {
      TakeNext(rs, i);
      var r := rs[i];
      IndexSocat(index, rs, rs[..i], r);
      hide IndexedUpTo;
      if r.service == Socat && ProviderOf(r) != "" {
        var p := ProviderOf(r);
        if p in index {
          index := index[p := index[p].(socat := index[p].socat + [r])];
        }
      }
    }
    assert rs[..|rs|] == rs;
  }

  // The provider as the repository hands it out.

  datatype ProviderStatus = Offline | Pending | Online

  datatype Provider = Provider(id: string, providerIdentity: Option<string>, userIdentity: Option<string>, isRegister: bool,
                               proxyCount: nat, runner: Option<Runner>, providerStatus: Option<ProviderStatus>,
                               ip: Option<string>)

  function StatusOf(entry: IndexEntry, providerIdentity: Option<string>): ProviderStatus {
    if entry.myst.status != Running || providerIdentity.None? then Offline
    else if entry.mystConnect.status == Running then Online
    else if entry.mystConnect.status == Creating then Pending
    else Offline
  }

  /** The provider as its index entry completes it. */
  predicate Merged(data: Provider, entry: IndexEntry, r: Provider) {
    r == data.(isRegister := true,
               userIdentity := if entry.myst.tags.myst.Some? then entry.myst.tags.myst.value.identity else None,
               runner := Some(entry.myst), proxyCount := |entry.socat|,
               providerStatus := Some(StatusOf(entry, data.providerIdentity)))
  }

  /** `_mergeData`; a provider identity that is a default property is `None`. */
  method MergeData(data: Provider, index: map<string, IndexEntry>) returns (r: Provider)
    ensures data.id !in index ==> r == data.(ip := None, providerStatus := None)
    ensures data.id in index ==> Merged(data, index[data.id], r)
    ensures data.id in index ==>
              var e := index[data.id]; var alive := e.myst.status == Running && data.providerIdentity.Some?;
              && (r.providerStatus == Some(Online) <==> alive && e.mystConnect.status == Running)
              && (r.providerStatus == Some(Pending) <==> alive && e.mystConnect.status == Creating)
              && (r.providerStatus == Some(Offline) <==> !alive || e.mystConnect.status !in {Running, Creating})
  {
    if data.id !in index {
      return data.(ip := None, providerStatus := None);
    }
    var entry := index[data.id];
    r := data.(isRegister := true, runner := Some(entry.myst), proxyCount := |entry.socat|);
    r := r.(userIdentity := if entry.myst.tags.myst.Some? then entry.myst.tags.myst.value.identity else None);
    match entry.mystConnect.status {
      case Creating => r := r.(providerStatus := Some(Pending));
      case Running => r := r.(providerStatus := Some(Online));
      case _ => r := r.(providerStatus := Some(Offline));
    }
    if entry.myst.status != Running {
      r := r.(providerStatus := Some(Offline));
    }
    if r.providerIdentity.None? {
      r := r.(providerStatus := Some(Offline));
    }
  }
}
