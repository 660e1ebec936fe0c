// Upstream proxies with their downstream: the position map over the runners, the merge that
// consumes it, and the plain scan both amount to.
module ProxyView {
  import opened Wrappers
  import opened Text
  import opened Runners

  datatype ProxyStatus = Disable | Down | Up

  datatype Downstream = Downstream(id: Option<nat>, refId: string, runner: Option<Runner>, ip: Option<string>, status: ProxyStatus)

  datatype Upstream = Upstream(id: Option<nat>, listenPort: nat, runner: Runner, proxyDownstream: seq<Downstream>)

  const DEFAULT_REF_ID := "default-ref-id"
  const DEFAULT_DOWNSTREAM := Downstream(None, DEFAULT_REF_ID, None, None, Disable)

  /** The position of the last runner of a service that names the provider, or -1. */
  function LastNaming(rs: seq<Runner>, service: Service, provider: string): (k: int)
    ensures -1 <= k < |rs| && (k >= 0 ==> Names(rs[k], service, provider))
    ensures forall i :: k < i < |rs| ==> !Names(rs[i], service, provider)
  {
    if rs == [] then -1
    else if Names(rs[|rs| - 1], service, provider) then |rs| - 1
    else LastNaming(rs[..|rs| - 1], service, provider)
  }

  predicate OfIdentity(r: Runner, identityId: string) {
    r.service == Myst && r.tags.myst.Some? && r.tags.myst.value.id == identityId
  }

  /** The position of the last MYST runner of the identity; `None` where the map has no such key. */
  function LastOfIdentity(rs: seq<Runner>, identityId: string): (k: Option<nat>)
    ensures k.Some? ==> k.value < |rs| && OfIdentity(rs[k.value], identityId)
                        && forall i :: k.value < i < |rs| ==> !OfIdentity(rs[i], identityId)
    ensures k.None? ==> forall r :: r in rs ==> !OfIdentity(r, identityId)
  {
    if rs == [] then None
    else
      var n := |rs| - 1;
      assert rs == rs[..n] + [rs[n]];
      if OfIdentity(rs[n], identityId) then Some(n) else LastOfIdentity(rs[..n], identityId)
  }

  function LastProvider(providers: seq<Provider>, id: string): (k: int)
    ensures -1 <= k < |providers| && (k >= 0 ==> providers[k].id == id)
    ensures forall i :: k < i < |providers| ==> providers[i].id != id
  {
    if providers == [] then -1
    else if providers[|providers| - 1].id == id then |providers| - 1
    else LastProvider(providers[..|providers| - 1], id)
  }

  /** Some runner other than a SOCAT names the provider, so the map has an entry for it. */
  predicate Mapped(rs: seq<Runner>, provider: string) {
    provider != "" && exists r :: r in rs && r.service != Socat && r.tags.vpn.Some? && r.tags.vpn.value.id == provider
  }

  datatype Pos = Pos(vpnProvider: int, mystConnect: int, downstream: int)

  /** ENVOY and MYST_CONNECT runners carry a provider label; the source throws on one without. */
  predicate ProviderLabelled(rs: seq<Runner>) {
    forall r :: r in rs && (r.service == Envoy || r.service == MystConnect) ==> ProviderOf(r) != ""
  }

  function PosOf(rs: seq<Runner>, providers: seq<Provider>, p: string): Pos {
    Pos(LastProvider(providers, p), LastNaming(rs, MystConnect, p), LastNaming(rs, Envoy, p))
  }

  ghost predicate PosIs(positions: map<string, Pos>, rs: seq<Runner>, providers: seq<Provider>, p: string) {
    && (p in positions <==> Mapped(rs, p))
    && (p in positions ==> positions[p] == PosOf(rs, providers, p))
  }

  /** The provider map holds exactly the mapped providers, each with its last positions. */
  ghost predicate PositionsOf(positions: map<string, Pos>, rs: seq<Runner>, providers: seq<Provider>) {
    forall p: string :: PosIs(positions, rs, providers, p)
  }

  ghost predicate MystsOf(mysts: map<string, nat>, rs: seq<Runner>) {
    forall id: string :: (if id in mysts then Some(mysts[id]) else None) == LastOfIdentity(rs, id)
  }

  /** How the runner at position `i` changes the provider map. */
  function Entered(positions: map<string, Pos>, r: Runner, i: nat): map<string, Pos>
    requires r.service == Envoy || r.service == MystConnect ==> ProviderOf(r) != ""
  {
    var p := ProviderOf(r);
    if r.service == Socat || p == "" then positions
    else
      var pos := if p in positions then positions[p] else Pos(-1, -1, -1);
      match r.service
      case Envoy => positions[p := pos.(downstream := i)]
      case MystConnect => positions[p := pos.(mystConnect := i)]
      case Myst => positions[p := pos]
  }

  lemma LastNamingSnoc(rs: seq<Runner>, r: Runner, service: Service, p: string)
    ensures LastNaming(rs + [r], service, p) == if Names(r, service, p) then |rs| else LastNaming(rs, service, p)
  {
    assert (rs + [r])[..|rs|] == rs;
  }

  lemma LastOfIdentitySnoc(rs: seq<Runner>, r: Runner, id: string)
    ensures LastOfIdentity(rs + [r], id) == if OfIdentity(r, id) then Some(|rs|) else LastOfIdentity(rs, id)
  {
    assert (rs + [r])[..|rs|] == rs;
  }

  lemma LastProviderSnoc(providers: seq<Provider>, provider: Provider, p: string)
    ensures LastProvider(providers + [provider], p) == if provider.id == p then |providers| else LastProvider(providers, p)
  {
    assert (providers + [provider])[..|providers|] == providers;
  }

  lemma MappedSnoc(rs: seq<Runner>, r: Runner, p: string)
    ensures Mapped(rs + [r], p) <==> Mapped(rs, p) || (p != "" && r.service != Socat && ProviderOf(r) == p)
  {
    assert forall x :: x in rs + [r] <==> x in rs || x == r;
  }

  lemma UnmappedNamesNothing(rs: seq<Runner>, p: string)
    requires !Mapped(rs, p) && p != ""
    ensures LastNaming(rs, MystConnect, p) == -1 && LastNaming(rs, Envoy, p) == -1
  {
  }

  lemma EnterRunnerAt(positions: map<string, Pos>, rs: seq<Runner>, r: Runner, p: string)
    requires PosIs(positions, rs, [], p) && (r.service == Envoy || r.service == MystConnect ==> ProviderOf(r) != "")
    ensures PosIs(Entered(positions, r, |rs|), rs + [r], [], p)
  {
    hide LastNaming, Mapped;
    MappedSnoc(rs, r, p);
    LastNamingSnoc(rs, r, MystConnect, p);
    LastNamingSnoc(rs, r, Envoy, p);
    if p != "" && !Mapped(rs, p) {
      UnmappedNamesNothing(rs, p);
    }
    MappedIsNamed(rs, p);
  }

  lemma MappedIsNamed(rs: seq<Runner>, p: string)
    ensures Mapped(rs, p) ==> p != ""
  {
  }

  lemma EnterRunner(positions: map<string, Pos>, rs: seq<Runner>, r: Runner)
    requires PositionsOf(positions, rs, []) && (r.service == Envoy || r.service == MystConnect ==> ProviderOf(r) != "")
    ensures PositionsOf(Entered(positions, r, |rs|), rs + [r], [])
  {
    hide PosIs, Entered;
    forall p: string
      ensures PosIs(Entered(positions, r, |rs|), rs + [r], [], p)
    {
      assert PosIs(positions, rs, [], p);
      EnterRunnerAt(positions, rs, r, p);
    }
  }

  lemma EnterMyst(mysts: map<string, nat>, rs: seq<Runner>, r: Runner)
    requires MystsOf(mysts, rs)
    ensures MystsOf(if r.service == Myst && r.tags.myst.Some? then mysts[r.tags.myst.value.id := |rs|] else mysts, rs + [r])
  {
    hide LastOfIdentity;
    forall id: string
      ensures LastOfIdentity(rs + [r], id) == if OfIdentity(r, id) then Some(|rs|) else LastOfIdentity(rs, id)
    {
      LastOfIdentitySnoc(rs, r, id);
    }
  }

  lemma EnterProvider(positions: map<string, Pos>, rs: seq<Runner>, providers: seq<Provider>, provider: Provider)
    requires PositionsOf(positions, rs, providers)
    ensures var id := provider.id;
            PositionsOf(if id in positions then positions[id := positions[id].(vpnProvider := |providers|)] else positions,
                        rs, providers + [provider])
  {
    hide LastProvider, LastNaming, Mapped;
    var id := provider.id;
    var after := if id in positions then positions[id := positions[id].(vpnProvider := |providers|)] else positions;
    forall p: string
      ensures PosIs(after, rs, providers + [provider], p)
    {
      assert PosIs(positions, rs, providers, p);
      LastProviderSnoc(providers, provider, p);
    }
  }

  /** `_runnerMapObject`: positions by index, filled in one pass over the runners and one over the
      providers. */
  method RunnerMapObject(rs: seq<Runner>, providers: seq<Provider>) returns (positions: map<string, Pos>, mysts: map<string, nat>)
    requires ProviderLabelled(rs)
    ensures PositionsOf(positions, rs, providers) && MystsOf(mysts, rs)
  {
    positions, mysts := map[], map[];
    for i := 0 to |rs|
      invariant PositionsOf(positions, rs[..i], []) && MystsOf(mysts, rs[..i])
    {
      TakeNext(rs, i);
      var r := rs[i];
      assert r in rs && |rs[..i]| == i;
      ghost var entered := Entered(positions, r, i);
      EnterRunner(positions, rs[..i], r);
      EnterMyst(mysts, rs[..i], r);
      hide PositionsOf, MystsOf;
      if r.service == Socat {
        continue;
      }
      var p := ProviderOf(r);
      if p != "" && p !in positions {
        positions := positions[p := Pos(-1, -1, -1)];
      }
      match r.service {
        case Envoy => positions := positions[p := positions[p].(downstream := i)];
        case MystConnect => positions := positions[p := positions[p].(mystConnect := i)];
        case Myst =>
          if r.tags.myst.Some? {
            mysts := mysts[r.tags.myst.value.id := i];
          }
      }
      assert positions == entered;
    }
    assert rs[..|rs|] == rs;
    for i := 0 to |providers|
      invariant PositionsOf(positions, rs, providers[..i])
    {
      hide PositionsOf;
      TakeNext(providers, i);
      EnterProvider(positions, rs, providers[..i], providers[i]);
      var p := providers[i].id;
      if p in positions {
        positions := positions[p := positions[p].(vpnProvider := i)];
      }
    }
    assert providers[..|providers|] == providers;
  }

  // The merge of one upstream.

  /** The status of an attached downstream; `None` where the source dereferences a MYST runner that
      the map does not have. */
  function AttachedStatus(rs: seq<Runner>, envoy: Runner, identityId: Option<string>, connect: int): Option<ProxyStatus>
    requires -1 <= connect < |rs|
  {
    if connect == -1 || envoy.status != Running then Some(Down)
    else
      var myst := if identityId.Some? then LastOfIdentity(rs, identityId.value) else None;
      if myst.None? then None
      else if rs[myst.value].status == Running && rs[connect].status == Running then Some(Up)
      else Some(Down)
  }

  /** The plain scan for upstream number `k` of the SOCAT list: the last ENVOY of the provider for
      the first SOCAT of the provider, the default downstream for every other. */
  function PlainDownstream(rs: seq<Runner>, providers: seq<Provider>, socats: seq<Runner>, k: nat): Option<Downstream>
    requires k < |socats|
  {
    var p := ProviderOf(socats[k]);
    var envoy := LastNaming(rs, Envoy, p);
    if p == "" || envoy == -1 || exists j :: 0 <= j < k && ProviderOf(socats[j]) == p then Some(DEFAULT_DOWNSTREAM)
    else
      var status := AttachedStatus(rs, rs[envoy], IdentityOf(socats[k]), LastNaming(rs, MystConnect, p));
      var provider := LastProvider(providers, p);
      if status.None? then None
      else Some(Downstream(rs[envoy].tags.downstream, p, Some(rs[envoy]),
                           if provider == -1 then None else providers[provider].ip, status.value))
  }

  function PlainUpstream(rs: seq<Runner>, providers: seq<Provider>, socats: seq<Runner>, k: nat): Option<Upstream>
    requires k < |socats|
  {
    var d := PlainDownstream(rs, providers, socats, k);
    if d.None? then None else Some(Upstream(socats[k].tags.upstream, socats[k].port, socats[k], [d.value]))
  }

  /** The map after the upstreams before number `k` have been merged: their providers deleted. */
  ghost predicate Remaining(left: map<string, Pos>, positions: map<string, Pos>, socats: seq<Runner>, k: nat)
    requires k <= |socats|
  {
    && (forall p :: p in left <==> p in positions && forall j :: 0 <= j < k ==> ProviderOf(socats[j]) != p)
    && forall p :: p in left ==> left[p] == positions[p]
  }

  lemma EnvoyIsMapped(rs: seq<Runner>, p: string)
    requires p != "" && LastNaming(rs, Envoy, p) != -1
    ensures Mapped(rs, p)
  {
    assert rs[LastNaming(rs, Envoy, p)] in rs;
  }

  /** `_mergeData` on upstream number `k`, on the map that the earlier merges left. */
  method MergeUpstream(rs: seq<Runner>, providers: seq<Provider>, ghost socats: seq<Runner>, ghost k: nat, socat: Runner,
                       left: map<string, Pos>, mysts: map<string, nat>, ghost positions: map<string, Pos>)
      returns (r: Option<Upstream>, left': map<string, Pos>)
    requires k < |socats| && socats[k] == socat
    requires PositionsOf(positions, rs, providers) && MystsOf(mysts, rs) && Remaining(left, positions, socats, k)
    ensures r == PlainUpstream(rs, providers, socats, k)
    ensures Remaining(left', positions, socats, k + 1)
  {
    hide LastNaming, LastOfIdentity, LastProvider, Mapped;
    var p := ProviderOf(socat);
    assert PosIs(positions, rs, providers, p);
    MappedIsNamed(rs, p);
    var downstream := DEFAULT_DOWNSTREAM;
    left' := left;
    if p != "" && LastNaming(rs, Envoy, p) != -1 {
      EnvoyIsMapped(rs, p);
    }
    if p in left {
      var pos := left[p];
      if pos.downstream != -1 {
        var runner := rs[pos.downstream];
        downstream := downstream.(id := runner.tags.downstream, refId := p, runner := Some(runner));
        if pos.vpnProvider != -1 {
          downstream := downstream.(ip := providers[pos.vpnProvider].ip);
        }
        if pos.mystConnect != -1 {
          if runner.status == Running {
            var identityId := IdentityOf(socat);
            if identityId.None? || identityId.value !in mysts {
              left' := left - {p};
              return None, left';
            }
            var myst := rs[mysts[identityId.value]];
            downstream := downstream.(status := if myst.status == Running && rs[pos.mystConnect].status == Running then Up else Down);
          } else {
            downstream := downstream.(status := Down);
          }
        } else {
          downstream := downstream.(status := Down);
        }
      }
      left' := left - {p};
    }
    r := Some(Upstream(socat.tags.upstream, socat.port, socat, [downstream]));
  }

  /** The upstreams of a listing equal the plain scan, each of them; the listing fails exactly when
      one of them does. */
  method MergeUpstreams(rs: seq<Runner>, providers: seq<Provider>, socats: seq<Runner>) returns (r: Option<seq<Upstream>>)
    requires ProviderLabelled(rs)
    ensures r.Some? ==> |r.value| == |socats|
    ensures r.Some? ==> forall k :: 0 <= k < |socats| ==> Some(r.value[k]) == PlainUpstream(rs, providers, socats, k)
    ensures r.None? ==> exists k :: 0 <= k < |socats| && PlainUpstream(rs, providers, socats, k).None?
  {
    var positions, mysts := RunnerMapObject(rs, providers);
    var left := positions;
    var list := [];
    for k := 0 to |socats|
      invariant |list| == k && forall j :: 0 <= j < k ==> Some(list[j]) == PlainUpstream(rs, providers, socats, j)
      invariant Remaining(left, positions, socats, k)
    {
      hide PositionsOf, MystsOf, Remaining, PlainUpstream;
      var merged;
      merged, left := MergeUpstream(rs, providers, socats, k, socats[k], left, mysts, positions);
      if merged.None? {
        return None;
      }
      list := list + [merged.value];
    }
    r := Some(list);
  }

  /** No ENVOY is attached to two upstreams, and an attached ENVOY names the upstream's provider. */
  lemma NoEnvoyTwice(rs: seq<Runner>, providers: seq<Provider>, socats: seq<Runner>, i: nat, j: nat)
    requires i < j < |socats|
    requires PlainDownstream(rs, providers, socats, i).Some? && PlainDownstream(rs, providers, socats, j).Some?
    ensures var a, b := PlainDownstream(rs, providers, socats, i).value, PlainDownstream(rs, providers, socats, j).value;
            && (a.runner.Some? ==> a.runner.value in rs && Names(a.runner.value, Envoy, ProviderOf(socats[i])))
            && (a.runner.Some? && b.runner.Some? ==> a.runner != b.runner && a.refId != b.refId)
  {
    hide AttachedStatus;
  }

  /** With a MYST runner of the upstream's identity present, an attached downstream is up exactly
      when the last ENVOY and the last MYST_CONNECT of the provider and the last MYST runner of the
      identity all run. */
  lemma UpMeans(rs: seq<Runner>, providers: seq<Provider>, socats: seq<Runner>, k: nat)
    requires k < |socats| && IdentityOf(socats[k]).Some? && LastOfIdentity(rs, IdentityOf(socats[k]).value).Some?
    ensures PlainDownstream(rs, providers, socats, k).Some?
    ensures var d, p := PlainDownstream(rs, providers, socats, k).value, ProviderOf(socats[k]);
            var envoy, connect := LastNaming(rs, Envoy, p), LastNaming(rs, MystConnect, p);
            d.status == Up <==>
              && d.runner.Some? && connect != -1 && envoy != -1
              && rs[envoy].status == Running && rs[connect].status == Running
              && rs[LastOfIdentity(rs, IdentityOf(socats[k]).value).value].status == Running
  {
  }

  /** With a MYST runner of the upstream's identity present, a downstream is disabled exactly when no
      ENVOY is attached, and down exactly when one is and not all three runners run. */
  lemma OtherStatusesMean(rs: seq<Runner>, providers: seq<Provider>, socats: seq<Runner>, k: nat)
    requires k < |socats| && IdentityOf(socats[k]).Some? && LastOfIdentity(rs, IdentityOf(socats[k]).value).Some?
    ensures PlainDownstream(rs, providers, socats, k).Some?
    ensures var d, p := PlainDownstream(rs, providers, socats, k).value, ProviderOf(socats[k]);
            var envoy, connect := LastNaming(rs, Envoy, p), LastNaming(rs, MystConnect, p);
            var allRun := connect != -1 && envoy != -1 && rs[envoy].status == Running && rs[connect].status == Running
                          && rs[LastOfIdentity(rs, IdentityOf(socats[k]).value).value].status == Running;
            && (d.status == Disable <==> d.runner.None?)
            && (d.status == Down <==> d.runner.Some? && !allRun)
  {
  }

  /** Without a MYST runner of its identity an attached downstream has a status exactly when its ENVOY
      does not run or nothing connects the provider; it is then down. Otherwise the listing throws. */
  lemma WithoutMyst(rs: seq<Runner>, providers: seq<Provider>, socats: seq<Runner>, k: nat)
    requires k < |socats| && (IdentityOf(socats[k]).Some? ==> LastOfIdentity(rs, IdentityOf(socats[k]).value).None?)
    ensures var p := ProviderOf(socats[k]); var envoy, connect := LastNaming(rs, Envoy, p), LastNaming(rs, MystConnect, p);
            var attached := p != "" && envoy != -1 && forall j :: 0 <= j < k ==> ProviderOf(socats[j]) != p;
            var d := PlainDownstream(rs, providers, socats, k);
            && (d.None? <==> attached && connect != -1 && rs[envoy].status == Running)
            && (d.Some? ==> d.value.status == if attached then Down else Disable)
  {
  }

  /** What a merged row carries: the port and the id of its SOCAT, and, for the first SOCAT of a
      provider that has an ENVOY, the last ENVOY, the id in that ENVOY's label, and the address of the
      last provider row with that id. */
  lemma RowCarries(rs: seq<Runner>, providers: seq<Provider>, socats: seq<Runner>, k: nat)
    requires k < |socats| && PlainUpstream(rs, providers, socats, k).Some?
    ensures var u, s := PlainUpstream(rs, providers, socats, k).value, socats[k]; var p := ProviderOf(s);
            && u.id == s.tags.upstream && u.listenPort == s.port && u.runner == s && |u.proxyDownstream| == 1
            && var d := u.proxyDownstream[0];
               if p != "" && (exists e :: e in rs && Names(e, Envoy, p)) && forall j :: 0 <= j < k ==> ProviderOf(socats[j]) != p
               then d.refId == p
                    && (exists e :: 0 <= e < |rs| && Names(rs[e], Envoy, p) && (forall i :: e < i < |rs| ==> !Names(rs[i], Envoy, p))
                                    && d.runner == Some(rs[e]) && d.id == rs[e].tags.downstream)
                    && (if exists r :: r in providers && r.id == p
                        then exists i :: 0 <= i < |providers| && providers[i].id == p && d.ip == providers[i].ip
                                         && forall j :: i < j < |providers| ==> providers[j].id != p
                        else d.ip == None)
               else d == Downstream(None, "default-ref-id", None, None, Disable)
  {
    hide AttachedStatus;
    var p := ProviderOf(socats[k]);
    var envoy := LastNaming(rs, Envoy, p);
    if e :| e in rs && Names(e, Envoy, p) {
      var i :| 0 <= i < |rs| && rs[i] == e;
      assert envoy >= i;
    }
    if envoy != -1 {
      assert rs[envoy] in rs;
    }
    if r :| r in providers && r.id == p {
      var i :| 0 <= i < |providers| && providers[i] == r;
      assert LastProvider(providers, p) >= i;
    }
    if LastProvider(providers, p) != -1 {
      assert providers[LastProvider(providers, p)] in providers;
    }
  }
}
