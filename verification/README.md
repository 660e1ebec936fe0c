# Proxy manager: a verified model

The system manages HTTP proxies that are built from labelled Docker containers. For each Mysterium
identity a MYST container runs; connecting to a provider adds a MYST_CONNECT container, and a proxy
over that connection adds a SOCAT container (the listening port) and an ENVOY container. There is
no other record of what is connected: every guard is recomputed from the labels of the containers.
Who may use which proxy is kept in an nginx map file that the system prints, parses and edits by
line number.

This project models that logic in Dafny and proves what it keeps. `dafny verify dfyconfig.toml`
checks all of it.

| module | what it models |
|---|---|
| `Lifecycle` | the containers as a state machine, its invariant, every run |
| `Answers` | what the service calls answer and leave behind, in terms of the containers alone |
| `Services` | the service and repository calls as methods of a class over the containers, each proved to be a lifecycle step |
| `Runners` | the index over the containers of a provider, against its plain definition |
| `ProxyView` | the position maps and the merge of upstreams with downstreams, against a plain scan |
| `ProxyFilter` | the filter loops and pages of the proxy listing |
| `AclRows`, `AclFile`, `AclEntries`, `AclRules`, `AclRepository` | rows, scan, entries, conflict rules and the repository of the access file |
| `Access` | the proxies a user may use, and favourites added in bulk |
| `Ports`, `PortOffers`, `SocatRunner`, `Addresses` | the choice of a port, the offers of a call, creation with bounded retries and cleanup, the choice of an address |
| `Labels` | the codec between classes and container labels |
| `ProviderCache` | the provider repository behind its cache |
| `Text`, `Order`, `Wrappers` | numerals, the order of `sort()`, white space, split and join; one element before another in a list; `Option` and `Result` |

External calls are steps that may fail at any point. A flag (`healthy`, `reliable`, `readable`)
says that none fails, and then contracts state the exact outcome, so that a body which always
answers with an error does not meet them.

## What the proofs found

These are places where the code does less than its callers may expect. The code is modelled as it
is, and the exact condition is proved.

- Used ports are sorted as text before the search for a gap. A single offer is sure to be unused
  exactly in ranges whose ends have equally many digits (`Ports.RangeSafeIffSameDigits`). The offers
  of a call with its retries are sure to be unused and pairwise distinct exactly in ranges where the
  highest port plus two has as many digits as the lowest (`PortOffers.CallsFreshIffSameDigits`). With
  3128 and 10080 used and the start port 3128, every try offers 3128
  (`PortOffers.DefaultStartPortRepeats`); without any container, with 9999 and 10000 allocated, the
  third try from 9999 offers 9999 again (`PortOffers.OfferRepeatsAcrossDigits`).
- An address conflict at a start is tried again, but the container that could not start holds the
  name, so the next try fails and that container stays (`SocatRunner.SocatRepository.CreateContainer`).
- A custom request that names one port twice is accepted, because it is compared with older entries
  and not with itself. Its proxy is then listed twice for the user; a bulk of favourites with that
  proxy alone is refused, and one that adds a proxy out of reach is saved
  (`Access.RepeatedPortListsTwice`, `Access.InaccessibleIsSaved`). Each permitted proxy is listed once,
  and the length comparison is right, exactly under the conditions of `Access.UserProxiesExact` and
  `Access.LengthCheckRightIff`.
- The readers of the access file stop at the letter `s`. A printed id, user id or date comes back
  exactly when it has no `s` and no outer white space (`AclRows.TagRoundTrip`).
- A custom request of a user who has an entry for all ports is refused, although it would only repeat
  what that entry allows (`AclRepository.CompatibleIsAccepted`).
- A one-port rule for a user name that starts with `~` is read as a pattern
  (`AclEntries.OnePortIffNoTilde`).
- The combined `down` finds a proxy only through an attached ENVOY. When creating a proxy failed
  between its two containers, the combined `down` refuses until the SOCAT is removed by its id
  (`Answers.DownBothAnswers`, in the contract of `Services.Backend.DownBoth`).
- A cached provider and one fetched by id differ when an identity has several proposals, one of
  them usable (`ProviderCache.HitIsMissIff`).
- A page beyond the end of the provider list is an error and not an empty page, because the cache
  is then written with no keys (`ProviderCache.CacheRepository.GetAll`).
- The reference and status loops stop at the first row without downstreams and repeat a row that
  matches twice; neither happens on merged rows (`ProxyFilter.LoopIsPlainIff`,
  `ProxyFilter.OneDownstreamIsPlain`).
- When the API does not list a connected provider, a new SOCAT is labelled with the provider
  identity `default-provider` (`Lifecycle.SocatRunner`, and the `requires` of
  `Services.Backend.AddProxyContainers`, where the condition `p in catalog` stands).

## Model

| member | source | states |
|---|---|---|
| `Lifecycle.RunIsOrderly` | src/infrastructure/repository/proxy-aggregate.repository.ts:143-297 | In every state of every run of up, down, proxy create, proxy remove and environment drift, whatever external step fails, each provider has at most one MYST_CONNECT, one SOCAT and one ENVOY, each identity at most one MYST_CONNECT, every SOCAT rests on a MYST_CONNECT and every ENVOY on a SOCAT of the same provider and identity |
| `Lifecycle.StepKeeps` | src/core/service/myst-provider.service.ts:67-136 | One step of any call, with any of its outcomes, keeps the inductive invariant |
| `Lifecycle.StartIsSound` | src/infrastructure/repository/myst-identity-aggregate.repository.ts:331-368 | One MYST container past `created` for each identity satisfies the invariant, so runs have a start |
| `Lifecycle.UpKeeps` | src/core/service/myst-provider.service.ts:67-115 | `up` keeps the invariant, also when the MYST_CONNECT was made but did not start |
| `Lifecycle.DownKeeps` | src/core/service/myst-provider.service.ts:117-136 | `down` keeps the invariant, also when the MYST_CONNECT is gone and the Mysterium API call then fails |
| `Lifecycle.ProxyCreateKeeps` | src/infrastructure/repository/proxy-aggregate.repository.ts:143-262 | Creating a proxy keeps the invariant in each of its half-made outcomes |
| `Lifecycle.ProxyRemoveKeeps` | src/infrastructure/repository/proxy-aggregate.repository.ts:264-297 | Removing a proxy keeps the invariant, whichever ENVOY removals went through before a failure |
| `Lifecycle.DriftKeeps` | src/infrastructure/repository/docker-runner.repository.ts:261-279 | Statuses may change freely between calls, MYST never going back to `created` |
| `Lifecycle.RemoveKeeps` | src/infrastructure/repository/docker-runner.repository.ts:171-184 | Removing any set of containers that is closed upwards, and takes no MYST container, keeps the invariant |
| `Lifecycle.LayersRest` | src/infrastructure/repository/proxy-aggregate.repository.ts:151-166 | For one provider the three layers hold at most one container each, every layer needs the one below, with one identity |
| `Lifecycle.DownClears` | src/core/service/myst-provider.service.ts:117-136 | After a successful `down` no container names the provider and all others are still there |
| `Lifecycle.CreateBothMakesOne` | src/core/service/myst-provider-proxy.service.ts:18-25 | A successful combined `create` appends exactly one MYST_CONNECT, one SOCAT and one ENVOY, of one identity that was free, on the port asked for |
| `Lifecycle.DownUndoesUp` | src/core/service/myst-provider.service.ts:67-136 | `up` then `down` gives back the same containers in the same order |
| `Lifecycle.RemoveUndoesProxyCreate` | src/infrastructure/repository/proxy-aggregate.repository.ts:143-297 | Creating a proxy and removing it by its upstream id gives back the same containers |
| `Answers.UpVerdictMeans` | src/core/service/myst-provider.service.ts:67-115 | In a sound world `up` goes through with the identity at an index exactly when nothing connects the provider, the API knows it, that index is the first with a key file and without a MYST_CONNECT, and its MYST container runs; each refusal exactly under its own condition |
| `Answers.FreeInOrder` | src/infrastructure/repository/myst-identity-aggregate.repository.ts:37-60 | The free identities stand in the order of the identities |
| `Answers.DownVerdictMeans` | src/core/service/myst-provider.service.ts:117-136 | The same for `down`; the identity it disconnects is the one a MYST_CONNECT of the provider carries |
| `Answers.ProxyCreateVerdictMeans` | src/core/service/proxy.service.ts:24-41 | The same for creating a proxy; its containers carry the identity of the provider's MYST_CONNECT |
| `Answers.ProxyLeavesThis` | src/infrastructure/repository/proxy-aggregate.repository.ts:177-247 | The two containers that a created proxy adds, label by label |
| `Services.Backend.ProviderGetById` | src/infrastructure/repository/myst-provider-aggregate.repository.ts:73-143 | Every field of the answer in terms of the containers, the catalog and the addresses: without a MYST_CONNECT what the API says or nothing; with one, `isRegister`, `proxyCount`, the MYST container and name of the serving identity, the address, and the status, online exactly while MYST and MYST_CONNECT run and the API lists the provider, pending exactly while MYST_CONNECT is in `created` instead, offline otherwise |
| `Services.Backend.FreeIdentities` | src/infrastructure/repository/myst-identity-aggregate.repository.ts:37-60 | The listing filtered on `isUse` being false is, in order, the identities with a key file and without a MYST_CONNECT |
| `Services.MergeRunnerData` | src/infrastructure/repository/myst-identity-aggregate.repository.ts:231-274 | An identity is in use exactly when a MYST_CONNECT is labelled with it; it is unlisted only without a MYST container or with one in `created` |
| `Services.UseMeans` | src/infrastructure/repository/myst-identity-aggregate.repository.ts:231-274 | Matching by identity name, as the merge does, is matching by identity id, as the connection does |
| `Services.Backend.Disconnect` | src/infrastructure/repository/myst-provider-aggregate.repository.ts:192-218 | Takes the first MYST_CONNECT of the identity, if any, before the API call clears the connection; when forced it succeeds whenever nothing external fails |
| `Services.Backend.Connect` | src/infrastructure/repository/myst-provider-aggregate.repository.ts:145-190 | Connects the node, then appends one labelled MYST_CONNECT, running on success, left in `created` on a failed start; without external failures it fails exactly on a node that already holds a connection |
| `Services.Backend.ApiConnect` | src/infrastructure/repository/myst-provider-api.repository.ts:133-178 | A node takes a connection only when it holds none; an error may be answered after it was taken |
| `Services.Backend.ApiDisconnect` | src/infrastructure/repository/myst-provider-api.repository.ts:180-211 | A connection is cleared; without one the call fails unless forced; an error may be answered after it was cleared |
| `Services.Backend.Up` | src/core/service/myst-provider.service.ts:67-115 | An `up` step of the lifecycle, and unless something external fails each answer exactly under its plain condition: done when nothing connects the provider, the API knows it, and the MYST container of the first identity with a key file and without a MYST_CONNECT runs; each refusal in its order. On success one container is appended, with a new id and the labels of that identity and of the provider, and the node holds the provider's connection, whatever an earlier failure left on it |
| `Services.Backend.Down` | src/core/service/myst-provider.service.ts:117-136 | A `down` step of the lifecycle, and unless something external fails each answer exactly under its plain condition, in the source's order; on success the containers that do not name the provider are left and the connection of the serving identity is cleared, otherwise no other connection changes |
| `Services.Backend.CreateSocat` | src/infrastructure/repository/docker-runner-create-socat.repository.ts:92-109 | One SOCAT more on success; on failure none, or the one in `created` that could not be cleaned away |
| `Services.Backend.AddProxyContainers` | src/infrastructure/repository/proxy-aggregate.repository.ts:177-247 | The SOCAT and then the ENVOY with their labels and fresh ids, or one of the half-made outcomes |
| `Services.Backend.CreateProxyContainers` | src/infrastructure/repository/proxy-aggregate.repository.ts:143-262 | The creation for any connected provider, over a SOCAT too: refused with both proxy containers or without a running MYST container; over a lone SOCAT the name is taken, unless a port conflict left it; otherwise the two containers |
| `Services.Backend.ProxyCreate` | src/core/service/proxy.service.ts:24-41 | A proxy-create step of the lifecycle, and unless something external fails each answer exactly under its plain condition: not found, not connecting, too many, not running, done. On success a SOCAT and an ENVOY are appended with new ids, their labels, the port, and upstream and downstream ids that no container has |
| `Services.Backend.RemoveEnvoys` | src/infrastructure/repository/proxy-aggregate.repository.ts:282-294 | Every ENVOY of the provider is tried; on success all are gone, on failure some subset of them |
| `Services.Backend.ProxyRemove` | src/core/service/proxy.service.ts:43-53 | A proxy-remove step of the lifecycle; unless something external fails, not found exactly when no SOCAT has the upstream id; on success exactly that SOCAT and the ENVOY containers of its provider are gone |
| `Services.Backend.ListByProvider` | src/infrastructure/repository/proxy-aggregate.repository.ts:80-110 | The listing filtered on a provider is one row with the upstream id of its SOCAT when the provider has a SOCAT and an ENVOY, and empty otherwise |
| `Services.Backend.CreateBoth` | src/core/service/myst-provider-proxy.service.ts:18-25 | Unless something external fails, done exactly when `up` can go through, with its refusals otherwise; success appends exactly one container of each kind, of one identity that was free, and leaves the node with the provider's connection |
| `Services.Backend.DownBoth` | src/core/service/myst-provider-proxy.service.ts:27-61 | Unless something external fails, each answer exactly under its plain condition: done when the provider is connected, its MYST container runs and a SOCAT, if there is one, has an ENVOY. Success means that no container names the provider and its connection is cleared; others are untouched |
| `Services.DownBothMeans` | src/core/service/myst-provider-proxy.service.ts:27-61 | In a sound world the foreseen outcome of the combined `down` is each answer exactly under its plain condition |
| `Services.ReferenceFinds` | src/infrastructure/utility/filterAndSortProxyUpstream.ts:23-39 | On merged upstreams the reference loop finds the SOCAT of the provider with an attached ENVOY and nothing else |
| `Runners.RegisteredMeans` | src/infrastructure/repository/myst-provider-aggregate.repository.ts:228-291 | `isRegister`: the index has an entry exactly when some MYST_CONNECT names the provider and its identity has a MYST runner |
| `Runners.MergeRunnerObjData` | src/infrastructure/repository/myst-provider-aggregate.repository.ts:228-291 | The index of three passes equals the plain definition for every provider: last MYST_CONNECT with a MYST runner, that runner, all SOCATs in order |
| `Runners.LastMystCounts` | src/infrastructure/repository/myst-provider-aggregate.repository.ts:228-291 | Of several MYST runners of an identity the last one counts |
| `Runners.LastConnectCounts` | src/infrastructure/repository/myst-provider-aggregate.repository.ts:228-291 | Of several MYST_CONNECT runners of a provider the last one whose identity has a MYST runner counts |
| `Runners.SelectCounts` | src/infrastructure/repository/myst-provider-aggregate.repository.ts:228-291 | The SOCAT runners of an entry come each as often as they are there |
| `Runners.SelectInOrder` | src/infrastructure/repository/myst-provider-aggregate.repository.ts:228-291 | They keep their order |
| `Runners.MergeData` | src/infrastructure/repository/myst-provider-aggregate.repository.ts:293-329 | The provider as its entry completes it, with the status stated by the statuses of the two containers and the provider identity; without an entry, stripped of address and status |
| `Services.IndexOfPart` | src/infrastructure/repository/myst-provider-aggregate.repository.ts:139-142 | The index over one provider's containers and its identity's MYST runner agrees with the index over all containers |
| `ProxyView.RunnerMapObject` | src/infrastructure/repository/proxy-aggregate.repository.ts:402-451 | The position maps hold, for exactly the providers some non-SOCAT runner names, the last MYST_CONNECT, ENVOY and provider row, and for each identity its last MYST runner |
| `ProxyView.MergeUpstream` | src/infrastructure/repository/proxy-aggregate.repository.ts:453-531 | Merging through the map that earlier merges left equals the plain scan, whose rows and statuses `ProxyView.RowCarries`, `ProxyView.UpMeans` and `ProxyView.OtherStatusesMean` state, including where the source would dereference a missing MYST runner |
| `ProxyView.MergeUpstreams` | src/infrastructure/repository/proxy-aggregate.repository.ts:97-105 | Every merged upstream equals its plain scan: the first SOCAT of a provider gets the last ENVOY, later ones the default downstream |
| `ProxyView.NoEnvoyTwice` | src/infrastructure/repository/proxy-aggregate.repository.ts:488-526 | No ENVOY is attached to two upstreams, and an attached one names the upstream's provider |
| `ProxyView.UpMeans` | src/infrastructure/repository/proxy-aggregate.repository.ts:508-523 | With a MYST runner present, a downstream is online exactly when ENVOY, MYST and MYST_CONNECT all run |
| `ProxyView.OtherStatusesMean` | src/infrastructure/repository/proxy-aggregate.repository.ts:508-523 | With a MYST runner present, a downstream is disabled exactly when no ENVOY is attached, and down exactly when one is and not all three runners run |
| `ProxyView.WithoutMyst` | src/infrastructure/repository/proxy-aggregate.repository.ts:508-523 | Without a MYST runner, the merge throws exactly for a running attached ENVOY of a connected provider; otherwise the downstream is down when attached and disabled when not |
| `ProxyView.RowCarries` | src/infrastructure/repository/proxy-aggregate.repository.ts:453-531 | A merged row carries the port and the upstream id of its SOCAT; attached, it carries the provider, the last ENVOY with the id of its label, and the address of the last provider row with that id; unattached, the default downstream |
| `ProxyFilter.FilterLoop` | src/infrastructure/utility/filterAndSortProxyUpstream.ts:25-100 | The nested loops with `break` and `continue` push what the recursive description says, one row for each matching downstream of the rows before the stop |
| `ProxyFilter.StopsAtBare` | src/infrastructure/utility/filterAndSortProxyUpstream.ts:25-100 | The loop for DISABLE reads every row and keeps a row without downstreams once; every other loop stops at the first such row |
| `ProxyFilter.LoopIsPlainIff` | src/infrastructure/utility/filterAndSortProxyUpstream.ts:25-100 | On distinct rows a loop equals the order-preserving filter exactly when no row it reads matches twice and no row beyond the one it stops at should have been kept |
| `ProxyFilter.OneDownstreamIsPlain` | src/infrastructure/repository/proxy-aggregate.repository.ts:528-528 | With exactly one downstream per upstream the loops are the filter |
| `ProxyFilter.MergedIsWished` | src/infrastructure/utility/filterAndSortProxyUpstream.ts:6-106 | On upstreams with one downstream each, the port, reference and status loops together keep exactly the rows that meet every condition, in order |
| `ProxyFilter.WishedSnoc` | src/infrastructure/utility/filterAndSortProxyUpstream.ts:6-106 | A merged row is kept at the end exactly when its listen port, and the reference and the status of its downstream, are the ones asked for |
| `ProxyFilter.MergedIsFiltered` | src/infrastructure/utility/filterAndSortProxyUpstream.ts:6-106 | On merged rows the loops keep each row that meets the conditions as often as it is there, no other row, and the order |
| `ProxyFilter.FilterUpstreams` | src/infrastructure/utility/filterAndSortProxyUpstream.ts:6-124 | On any upstreams the conditions are applied one after the other as the loops do, and the page of the result is returned with its total; on merged rows the result keeps each row that meets the conditions by its fields as often as the list has it, no other row, and the order |
| `ProxyFilter.PagesAreThePrefix` | src/infrastructure/utility/filterAndSortProxyUpstream.ts:115-121 | The first pages put together are the front of the list, and enough of them are the whole list |
| `AclRows.TagRoundTrip` | src/infrastructure/repository/nginx-proxy-acl.repository.ts:326-366 | A printed id, user id or date is read back as it was exactly when it is not empty, has no outer white space and no letter `s` |
| `AclRows.OtherTags` | src/infrastructure/repository/nginx-proxy-acl.repository.ts:326-366 | A row printed under one tag is not read under another |
| `AclRows.RuleRowIsRule` | src/infrastructure/repository/nginx-proxy-acl.repository.ts:275-281 | A printed rule row is read back as its rule |
| `AclFile.CreateRoundTrip` | src/infrastructure/repository/nginx-proxy-acl.repository.ts:129-199 | On a well-formed file, parsing the rows after `create` gives the old parse with the new entry in front |
| `AclFile.ParseFailsIff` | src/infrastructure/repository/nginx-proxy-acl.repository.ts:255-324 | A file is refused exactly when a map row, a closing brace or a default row is missing, or an entry lacks its id, its user or its date |
| `AclFile.ScanOfKept` | src/infrastructure/repository/nginx-proxy-acl.repository.ts:252-310 | Dropping the recorded lines of one entry, and the blank row above, takes only that entry out of the bottom-up scan: the step counter of the others is unaffected |
| `AclFile.RemoveExact` | src/infrastructure/repository/nginx-proxy-acl.repository.ts:207-230 | Parsing the rows after `remove` gives the old parse without exactly that entry, and the file stays well formed |
| `AclFile.KeptNonBlank` | src/infrastructure/repository/nginx-proxy-acl.repository.ts:221-221 | All other non-blank rows stay, in order, whatever the order of the line numbers |
| `AclFile.RemoveUndoesCreate` | src/infrastructure/repository/nginx-proxy-acl.repository.ts:129-230 | `remove` after `create` restores the rows up to blank rows exactly when the closing row was a bare `}`; otherwise only that row differs |
| `AclEntries.EntryRoundTrip` | src/infrastructure/repository/nginx-proxy-acl.repository.ts:401-442 | Id, user, date, mode and port list of a printed entry are decoded intact, over all printed forms, exactly when it is not a one-port rule of a user name that starts with `~` |
| `AclEntries.OnePortIffNoTilde` | src/infrastructure/repository/nginx-proxy-acl.repository.ts:390-393 | A one-port entry is decoded as that port exactly when the user name does not start with `~` |
| `AclEntries.PrintedRuleAdmits` | src/infrastructure/repository/nginx-proxy-acl.repository.ts:129-180 | Read by its two parts, a printed rule lets in whom the request is for, on the requested ports, and nobody else, for every form and every user and port, unless the name is `.+` or the rule reads as a pattern |
| `AclRules.ListedIsComplete` | src/infrastructure/repository/nginx-proxy-acl.repository.ts:368-399 | The listing for a user holds exactly the entries that pass the filter, or, when there is one for everyone, that entry of the file alone, with its id and date |
| `AclRules.GroupedMeans` | src/infrastructure/repository/nginx-proxy-acl.repository.ts:444-519 | The list user by user has every entry as often as before, those of one user in their order, and those of a user that appears first before those of another |
| `AclRules.ConflictsMeans` | src/infrastructure/repository/nginx-proxy-acl.repository.ts:521-563 | The check on the listing finds a conflict exactly when some entry of the file is for everyone, or belongs to a user the request is about and is for all ports or holds a requested port |
| `AclRules.AcceptedIsCompatible` | src/infrastructure/repository/nginx-proxy-acl.repository.ts:521-563 | An accepted request is compatible with every entry of the file, although the check sees only the listing |
| `AclRepository.CreateTextRows` | src/infrastructure/repository/nginx-proxy-acl.repository.ts:182-199 | Splitting the text that `create` joins gives back its rows |
| `AclRepository.CreateAnswers` | src/infrastructure/repository/nginx-proxy-acl.repository.ts:87-205 | On a managed file: refused as existing exactly when an entry of the file clashes with the request, for a missing form exactly when none does and the request has no form, and otherwise accepted with its entry |
| `AclRepository.CompatibleIsAccepted` | src/infrastructure/repository/nginx-proxy-acl.repository.ts:521-563 | A request with a form is accepted exactly when its entry is compatible with every entry of the file and, when custom, no entry for all ports covers its user already |
| `AclRepository.CreateKeepsManaged` | src/infrastructure/repository/nginx-proxy-acl.repository.ts:87-205 | An accepted `create` leaves a managed file whose entries are the new one followed by the old ones |
| `AclRepository.RemoveKeepsManaged` | src/infrastructure/repository/nginx-proxy-acl.repository.ts:207-230 | `remove` leaves a managed file without the entry of that id, or unchanged entries when there is none |
| `AclRepository.RunKeepsManaged` | src/infrastructure/repository/nginx-proxy-acl.repository.ts:87-230 | Over any run: at most one global entry, at most one all-ports entry per user, never both kinds, and no port shared by two custom entries of a user |
| `AclRepository.EmptyMapIsManaged` | src/infrastructure/repository/nginx-proxy-acl.repository.ts:262-273 | The empty map, the start of a run, is managed |
| `AclRepository.NginxProxyAclRepository.FetchRow` | src/infrastructure/repository/nginx-proxy-acl.repository.ts:326-366 | The three row readers in their order, and the filter on the user id |
| `AclRepository.NginxProxyAclRepository.ParseFile` | src/infrastructure/repository/nginx-proxy-acl.repository.ts:232-324 | The loop over the reversed rows finds the entries of the parse with their line numbers, less those skipped by the filter, and fails exactly when the parse does |
| `AclRepository.NginxProxyAclRepository.ConvertAcl` | src/infrastructure/repository/nginx-proxy-acl.repository.ts:385-398 | The map by user holds each user's decoded entries in order; it fails exactly when an entry does not decode |
| `AclRepository.NginxProxyAclRepository.FillModelList` | src/infrastructure/repository/nginx-proxy-acl.repository.ts:444-519 | The listing user by user, or the global entry alone |
| `AclRepository.NginxProxyAclRepository.GetAll` | src/infrastructure/repository/nginx-proxy-acl.repository.ts:69-84 | The listing of the visible entries, with each error case |
| `AclRepository.NginxProxyAclRepository.Create` | src/infrastructure/repository/nginx-proxy-acl.repository.ts:87-205 | The answer and the new text for every outcome: read error, invalid file, conflict, missing form, write error, success, where `AclRepository.CreateAnswers` says which answer a request gets |
| `AclRepository.NginxProxyAclRepository.Remove` | src/infrastructure/repository/nginx-proxy-acl.repository.ts:207-230 | The text without the entry on success, unchanged text on every failure |
| `Access.UserProxiesExact` | src/infrastructure/repository/users-proxy-aggregate.repository.ts:53-112 | With distinct proxy ports and the run invariant, the listing holds every permitted proxy of a known user and no other, and nothing for an unknown user; each is listed once exactly when the user is unknown, an entry gives the user every proxy, or no entry of the user repeats a port on which a listed proxy runs |
| `Access.RepeatedPortListsTwice` | src/infrastructure/repository/nginx-proxy-acl.repository.ts:544-563 | The failing input: a request that names one port twice is accepted, and its proxy is then listed twice |
| `Access.VisibleKeepsNoConflict` | src/infrastructure/repository/nginx-proxy-acl.repository.ts:321-321 | What the filter leaves visible still has no conflict |
| `Access.LengthCheckMeans` | src/infrastructure/repository/favorites-aggregate.repository.ts:103-106 | With the accessible proxies pairwise distinct, the comparison of two lengths holds exactly when the requested proxies are pairwise distinct and all accessible |
| `Access.LengthCheckRightIff` | src/infrastructure/repository/favorites-aggregate.repository.ts:103-106 | The comparison of two lengths is right for every request if and only if the accessible proxies are pairwise distinct |
| `Access.InaccessibleIsSaved` | src/infrastructure/repository/favorites-aggregate.repository.ts:103-117 | The failing input: with a proxy listed twice, a bulk with one proxy out of reach is saved, and the listed proxy alone is refused |
| `Access.AddBulkExact` | src/infrastructure/repository/favorites-aggregate.repository.ts:87-118 | With the accessible proxies pairwise distinct: each of the three refusals and the success of a bulk exactly under its condition (several users; nothing accessible, a proxy out of reach or named twice; a failed save), and the answer, which holds each saved favourite once, except those of kind OTHER, in the order of the accessible proxies |
| `Text.TextOrderIsNumeric` | src/infrastructure/repository/docker-runner-create-socat.repository.ts:314-314 | Between numerals of equal length the order of `sort()` is numeric order |
| `Ports.SortAsText` | src/infrastructure/repository/docker-runner-create-socat.repository.ts:314-314 | A permutation of the list in the order of the printed numbers |
| `Ports.GapLoop` | src/infrastructure/repository/docker-runner-create-socat.repository.ts:316-345 | The loop over previous and next port computes the walk to the first gap |
| `Ports.OfferMeans` | src/infrastructure/repository/docker-runner-create-socat.repository.ts:316-345 | The offer on any list, in whatever order: the start port below its first port, else the top of the first gap or the port after it when that top is the last of the list, else one past the last |
| `Ports.ChosenPortIsFree` | src/infrastructure/repository/docker-runner-create-socat.repository.ts:316-345 | On an ascending list the offer is unused; it is the start port below the minimum, else the top of the first gap or one past the maximum, and at least the start port when all used ports are |
| `Ports.MixedDigitsOfferUsedPort` | src/infrastructure/repository/docker-runner-create-socat.repository.ts:314-345 | The failing input: with `10^d` and `10^d - 1` used, a used port is offered |
| `Ports.RangeSafeIffSameDigits` | src/infrastructure/repository/docker-runner-create-socat.repository.ts:314-345 | Every offer in a port range is unused if and only if the ends of the range have equally many digits |
| `PortOffers.CallsFreshIffSameDigits` | src/infrastructure/repository/docker-runner-create-socat.repository.ts:351-393 | Every call whose start port and used ports lie in a range offers pairwise distinct, unused ports, whatever is allocated, if and only if the lowest port of the range has as many digits as the highest plus two |
| `PortOffers.OffersAreFresh` | src/infrastructure/repository/docker-runner-create-socat.repository.ts:310-314 | The accumulated list makes every offer of a call differ from all earlier ones and from every used port, as long as the last list that is sorted has one digit count |
| `PortOffers.SameOfferEveryTry` | src/infrastructure/repository/docker-runner-create-socat.repository.ts:314-345 | A failing call: with two used ports, the lower one the start port and the higher one first as text, every try offers the used start port |
| `PortOffers.DefaultStartPortRepeats` | src/infrastructure/repository/docker-runner-create-socat.repository.ts:314-345 | That call for the ports 3128 and 10080 |
| `PortOffers.OfferRepeatsAcrossDigits` | src/infrastructure/repository/docker-runner-create-socat.repository.ts:302-345 | A failing call without any container: from `10^d - 1`, with it and `10^d` allocated, the third try offers the start port again |
| `PortOffers.ThirdOfferIsUsed` | src/infrastructure/repository/docker-runner-create-socat.repository.ts:310-345 | A failing call with one used port `10^d - 2`, also the start port: the third try offers it |
| `SocatRunner.SocatRepository.RemoveFailedContainerByName` | src/infrastructure/repository/docker-runner-create-socat.repository.ts:496-526 | Removes the first container that the listing by name gives if a port conflict left it, which for names of one length is the left-over under the name and nothing else |
| `SocatRunner.SocatRepository.NextBindPort` | src/infrastructure/repository/docker-runner-create-socat.repository.ts:293-349 | The list grows by the ports read, and the offer is the choice on that list sorted as text |
| `SocatRunner.SocatRepository.CreateContainerWithPort` | src/infrastructure/repository/docker-runner-create-socat.repository.ts:409-494 | One container more, started, or left in `created` by a port conflict or another failed start; the port is bound exactly on success |
| `SocatRunner.SocatRepository.CreateContainerWithoutPort` | src/infrastructure/repository/docker-runner-create-socat.repository.ts:351-407 | Exactly one more container on success, the same containers on failure, save one that could not start for another reason than its port; the offers are those of a call as `PortOffers` describes it, so they are pairwise distinct and unused exactly in the ranges of `PortOffers.CallsFreshIffSameDigits`; a reliable host fails only after every try conflicted |
| `SocatRunner.SocatRepository.CreateOnce` | src/infrastructure/repository/docker-runner-create-socat.repository.ts:264-267 | One pass on either path: one more container, the same containers, or one unstarted container whose removal gives back the same ones; on a given port a conflict exactly when the port was bound |
| `SocatRunner.SocatRepository.CreateContainer` | src/infrastructure/repository/docker-runner-create-socat.repository.ts:250-291 | The outer loop: an address conflict is tried again and then always fails, because the container that could not start holds the name; that container stays |
| `SocatRunner.SocatRepository.Create` | src/infrastructure/repository/docker-runner-create-socat.repository.ts:56-140 | A whole call on either path with its cleanup: one more container on success, the same containers on failure unless an address was taken at a start, the bound ports, the error cases, and the offers of the call, fresh under the condition of `PortOffers.CallsFreshIffSameDigits` |
| `Addresses.QuadInjective` | src/infrastructure/repository/docker-runner-create-socat.repository.ts:227-238 | Two addresses print alike only when they are equal |
| `Addresses.SubnetIsRange` | src/infrastructure/repository/docker-runner-create-socat.repository.ts:234-236 | The addresses that share the prefix bits are the range that is searched, within 32 bits |
| `Addresses.SubnetSharesBits` | src/infrastructure/repository/docker-runner-create-socat.repository.ts:234-236 | An address is of the subnet exactly when its leading prefix bits are those of the subnet |
| `Addresses.BoundAddresses` | src/infrastructure/repository/docker-runner-create-socat.repository.ts:227-232 | The keys of the object are exactly the printed used addresses |
| `Addresses.NextNetworkIp` | src/infrastructure/repository/docker-runner-create-socat.repository.ts:221-248 | The least unused address of the subnet, and an error exactly when none is left |
| `Labels.FieldRoundTrip` | src/infrastructure/utility/docker-label-parser.ts:101-103 | A field name survives camel to kebab and back exactly when it does not start with an upper-case letter |
| `Labels.ClassRoundTrip` | src/infrastructure/utility/docker-label-parser.ts:97-100 | A class name survives the conversion |
| `Labels.ReadKeyOfKey` | src/infrastructure/utility/docker-label-parser.ts:276-289 | A key determines class and field: encoding is injective |
| `Labels.KeysInFull` | src/infrastructure/utility/docker-label-parser.ts:276-289 | The keys of the eight kept fields, written out |
| `Labels.EncodeExact` | src/infrastructure/utility/docker-label-parser.ts:65-73 | The object holds one pair for each set field that is not ignored, and no other |
| `Labels.DecodeExact` | src/infrastructure/utility/docker-label-parser.ts:89-128 | The labels read back hold exactly what the keys say, one label for each class |
| `Labels.RoundTrip` | src/infrastructure/utility/docker-label-parser.ts:65-128 | Decoding undoes encoding for every prefix, every labels of distinct classes, every object that carries them beside labels of no class, and every order of its keys |
| `Labels.TagsComeBack` | src/infrastructure/utility/docker-label-parser.ts:22-128 | From the tags of a container to the labels read back: a class has a field with a value exactly when the class keeps the field and a tag of the class sets it to that value |
| `Labels.NoOtherClass` | src/infrastructure/utility/docker-label-parser.ts:89-128 | No label of another class, and none without a class, is read back |
| `Labels.PlainLabelsReadNothing` | src/infrastructure/repository/docker-runner-create-socat.repository.ts:435-442 | The other labels of a container, the prefix and one word or one word alone, are read as no class and field |
| `Labels.FilterMeans` | src/infrastructure/repository/docker-runner.repository.ts:59-73 | A label filter selects a container, whatever labels of no class it also carries, exactly when every set field of the filter except the passphrase equals the container's field |
| `Labels.FoundByAnyPart` | src/infrastructure/repository/docker-runner.repository.ts:59-73 | A container is found by any part of the labels that it was made from |
| `Labels.DockerLabelParser.ParseLabel` | src/infrastructure/utility/docker-label-parser.ts:130-273 | One model for each label, in order; each keeps, by its class, exactly id, identity and passphrase, or id, userIdentity and providerIdentity, or id, with the values of the label; it fails exactly when a label has none of the four classes, and then has the models before it |
| `Labels.DockerLabelParser.ConvertLabelToObject` | src/infrastructure/utility/docker-label-parser.ts:65-73 | The loops over models and fields compute the encoding |
| `Labels.DockerLabelParser.ConvertObjectToLabel` | src/infrastructure/utility/docker-label-parser.ts:89-128 | The loop over the keys computes the decoding: `null` exactly when there is no label, the label itself exactly when there is one, the list exactly when there are more |
| `ProviderCache.RunIsFaithful` | src/infrastructure/repository/myst-provider-cache-api.repository.ts:65-80 | Over any run of listings, expiry and reports, every cached id is the id of the identity that it maps to |
| `ProviderCache.FilledMeans` | src/infrastructure/repository/myst-provider-api.repository.ts:271-310 | A provider is served exactly when it says a row of one of the six IP types: identity, IP type and country of the row, the id of the identity, no address yet |
| `ProviderCache.FilledSnoc` | src/infrastructure/repository/myst-provider-api.repository.ts:85-86 | A usable row adds its provider at the end, any other row nothing |
| `ProviderCache.LookupMeans` | src/infrastructure/repository/myst-provider-cache-api.repository.ts:218-236 | The identity that a lookup finds: the cached one, or else the reported one, never an empty one |
| `ProviderCache.CachedMeans` | src/infrastructure/repository/myst-provider-cache-api.repository.ts:65-80 | A listing caches the identity of each of its providers under its id and changes nothing else |
| `ProviderCache.HitMeans` | src/infrastructure/repository/myst-provider-cache-api.repository.ts:96-126 | A hit is the first usable proposal of the identity |
| `ProviderCache.MissMeans` | src/infrastructure/repository/myst-provider-api.repository.ts:105-131 | A miss is the proposal that generates the id, when there is exactly one and it is usable |
| `ProviderCache.HitIsMissIff` | src/infrastructure/repository/myst-provider-cache-api.repository.ts:96-126 | A cache hit and a cache miss fetch the same provider exactly when the identity has one proposal or none that is usable |
| `ProviderCache.LookupServesSame` | src/infrastructure/repository/myst-provider-cache-api.repository.ts:218-236 | After any run from an empty store, with unique identities, whatever a lookup finds leads to the provider of the id |
| `ProviderCache.CacheRepository.GetAll` | src/infrastructure/repository/myst-provider-cache-api.repository.ts:47-94 | Every provider served has the identity, the IP type and the country of a usable row, the id of its identity and exactly the address reported for it; unpaged every usable row is served, and with all rows usable the page is that stretch of the rows one by one; exactly the served identities are cached beside the old ones; failure exactly on a damaged report or a page that starts beyond the end |
| `ProviderCache.CacheRepository.GetById` | src/infrastructure/repository/myst-provider-cache-api.repository.ts:96-126 | With unique identities the provider that the one usable row of the id says, or none; by a cached identity the first usable row of it; the address exactly as reported on a cache hit, none on a miss; the exact failure case |

## Left out

- HTTP controllers, guards, DTOs, commands, wiring and configuration: declarations and glue.
- Docker, the Mysterium API, redis, postgres, `htpasswd` and the file system as clients: they are sequences, maps and steps that may fail. Timed waits are dropped.
- Interleavings of service calls: the code checks and then acts without a lock, so the lifecycle is for calls that run one after another; tasks started together within a call run in list order.
- The login that precedes a call to a node, and the address a connection reports.
- Adding and removing identities, with their file moves and the recovery of an uncompleted delete: the identities are fixed, each with one MYST container past `created`.
- The paging of reads inside the provider and identity repositories (100 rows by default): the invariant keeps one provider's containers within one page; more than 100 free identities are not modelled as paged.
- Provider ids, identity ids and names are distinct where the database makes them so, and a provider id is not empty.
- A runner without any label, or with a MYST label missing: the provider index throws on the first; labels as the repositories write them are modelled.
- `Services.Backend.CreateProxyContainers`: the removal of an ENVOY without a SOCAT, which the invariant shows to be unreachable; for a provider without a connection the source throws.
- `Services.Backend.ProxyCreate`: takes the chosen port as a parameter, because the search for it is modelled in `SocatRunner`; a port conflict is one of the external failures here.
- `Services.Backend.DownBoth`: for the provider id `default-ref-id`, which no provider has, only the invariant and the cleared provider are stated, because the listing then matches every upstream without an ENVOY.
- `SocatRunner.SocatRepository.Create`: an address conflict is taken to be reported at the start of a container that exists; then the answer with neither a value nor an error, after three such conflicts, cannot occur.
- `SocatRunner.SocatRepository.RemoveCreatedContainerById`: is taken to succeed, because the property is about conflicts; `Services.Backend.CreateSocat` models a cleanup that fails.
- `SocatRunner.SocatRepository.RemoveFailedContainerByName`: container names have one length, a prefix and an identity address; the filter on a name is Docker's substring match.
- `Addresses.NextNetworkIp`: the subnet and the container addresses are given as parsed CIDR values; the range library is outside the repository and is modelled by prefix notation.
- `AclRepository.NginxProxyAclRepository.ParseFile`: leaves the line numbers of an entry in capture order; they are sorted as text where `Remove` uses them.
- `AclRows.RuleRowIsRule`: rows hold no carriage return or Unicode line separator, where `.` of a regular expression would stop.
- Dates in the access file other than plain numerals, and user ids that read like array indices, which JavaScript moves to the front of an object's keys.
- `Access.UserProxiesExact`: is about the proxies the listing hands over, the first 100 when there are more, because the source reads them without turning paging off.
- `AclEntries.PrintedRuleAdmits`: reads a rule by the part before and the part after its last colon, a name standing for itself; nginx's own matching of regular expressions is not modelled.
- `Labels.DockerLabelParser.ConvertObjectToLabel`: in the prefix, `.` matches any character as it does in the source; other regular-expression metacharacters in a prefix are not modelled.
- `Labels.DockerLabelParser.ConvertLabelToObject`: the variant that picks one class is this one on the models of that class.
- `ProxyFilter.FilterUpstreams`: the sort by insertion date is the language's own stable sort and is not modelled.
- The filters and the paging of the provider list, which is sliced in the API repository and again in the aggregate.
- `ProviderCache.CacheRepository.GetAll`: takes the proposals that the API selects by the filter; parsing a report is reduced to damaged or not, and id generation is an injective function.
- The listing of favourites, users, passwords, tokens and roles.
