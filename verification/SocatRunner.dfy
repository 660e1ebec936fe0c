// Creating a SOCAT container: remove what an earlier try left behind, choose a port, create,
// start, and on a port or address conflict try again up to three times, then clean up.
module SocatRunner {
  import opened Wrappers
  import opened Text
  import opened Ports
  import opened PortOffers

  // `Conflicted` is a container that Docker created but could not start because its port was
  // already allocated (exit code 128); `Idle` is any other container still in status created.
  datatype BoxState = Started | Idle | Conflicted

  datatype Box = Box(serial: nat, name: string, port: nat, state: BoxState)

  datatype Error =
    | PortConflict(serial: nat)
    | AddressConflict(serial: nat)
    | StartFailed(serial: nat)
    | NameTaken
    | NoAddress
    | ReadFailed
    | PortInUse
    | Unknown

  /** The container was created and could not be started for a reason other than its port. */
  predicate NotStarted(e: Error) {
    e.AddressConflict? || e.StartFailed?
  }

  predicate Leftover(b: Box, name: string) {
    b.name == name && b.state == Conflicted
  }

  /** The containers without the leftover of an earlier port conflict under this name. */
  function Settled(boxes: seq<Box>, name: string): seq<Box> {
    if boxes == [] then [] else
    var kept := Settled(boxes[..|boxes| - 1], name);
    var last := boxes[|boxes| - 1];
    if Leftover(last, name) then kept else kept + [last]
  }

  lemma {:induction false} SettledMembers(boxes: seq<Box>, name: string)
    ensures forall b :: b in Settled(boxes, name) <==> b in boxes && !Leftover(b, name)
    ensures Settled(Settled(boxes, name), name) == Settled(boxes, name)
    ensures (forall b :: b in boxes ==> !Leftover(b, name)) ==> Settled(boxes, name) == boxes
    ensures |Settled(boxes, name)| <= |boxes|
  {
    if boxes != [] {
      var n := |boxes| - 1;
      SettledMembers(boxes[..n], name);
      assert boxes == boxes[..n] + [boxes[n]];
      if !Leftover(boxes[n], name) {
        var s := Settled(boxes, name);
        assert s[..|s| - 1] == Settled(boxes[..n], name);
      }
    }
  }

  ghost predicate NamesDistinct(boxes: seq<Box>) {
    forall i, j :: 0 <= i < j < |boxes| ==> boxes[i].name != boxes[j].name
  }

  lemma DistinctSnoc(boxes: seq<Box>, b: Box)
    requires NamesDistinct(boxes) && forall c :: c in boxes ==> c.name != b.name
    ensures NamesDistinct(boxes + [b])
  {
    forall i, j | 0 <= i < j < |boxes| + 1
      ensures (boxes + [b])[i].name != (boxes + [b])[j].name
    {
      assert boxes[i] in boxes;
    }
  }

  lemma {:induction false} SettledNames(boxes: seq<Box>, name: string)
    requires NamesDistinct(boxes)
    ensures NamesDistinct(Settled(boxes, name))
  {
    if boxes != [] {
      var n := |boxes| - 1;
      var kept := Settled(boxes[..n], name);
      SettledNames(boxes[..n], name);
      SettledMembers(boxes[..n], name);
      forall c | c in kept
        ensures c.name != boxes[n].name
      {
        assert c in boxes[..n];
      }
      DistinctSnoc(kept, boxes[n]);
    }
  }

  lemma SettledSnoc(boxes: seq<Box>, b: Box, name: string)
    ensures Settled(boxes + [b], name) ==
            Settled(boxes, name) + (if Leftover(b, name) then [] else [b])
  {
    assert (boxes + [b])[..|boxes|] == boxes;
  }

  /** The containers other than the one with this serial. */
  function WithoutSerial(boxes: seq<Box>, serial: nat): seq<Box> {
    if boxes == [] then [] else
    var kept := WithoutSerial(boxes[..|boxes| - 1], serial);
    var last := boxes[|boxes| - 1];
    if last.serial == serial then kept else kept + [last]
  }

  lemma {:induction false} WithoutSerialKeeps(boxes: seq<Box>, serial: nat)
    ensures forall b :: b in WithoutSerial(boxes, serial) <==> b in boxes && b.serial != serial
    ensures NamesDistinct(boxes) ==> NamesDistinct(WithoutSerial(boxes, serial))
  {
    if boxes != [] {
      var n := |boxes| - 1;
      WithoutSerialKeeps(boxes[..n], serial);
      assert boxes == boxes[..n] + [boxes[n]];
    }
  }

  lemma {:induction false} WithoutFreshSerial(boxes: seq<Box>, serial: nat)
    requires forall b :: b in boxes ==> b.serial != serial
    ensures WithoutSerial(boxes, serial) == boxes
  {
    if boxes != [] {
      var n := |boxes| - 1;
      WithoutFreshSerial(boxes[..n], serial);
      assert boxes == boxes[..n] + [boxes[n]];
    }
  }

  lemma WithoutLast(boxes: seq<Box>, b: Box)
    requires forall c :: c in boxes ==> c.serial != b.serial
    ensures WithoutSerial(boxes + [b], b.serial) == boxes
  {
    WithoutFreshSerial(boxes, b.serial);
    assert (boxes + [b])[..|boxes|] == boxes;
  }

  function PortsOf(boxes: seq<Box>): (ports: seq<nat>)
    ensures |ports| == |boxes|
    ensures forall i :: 0 <= i < |boxes| ==> ports[i] == boxes[i].port
  {
    seq(|boxes|, i requires 0 <= i < |boxes| => boxes[i].port)
  }

  predicate HasPort(socketPort: Option<nat>) {
    socketPort.Some? && socketPort.value != 0
  }

  // Docker's name filter.

  predicate Contains(s: string, part: string) {
    part <= s || (s != "" && Contains(s[1..], part))
  }

  lemma {:induction false} ContainsIsShorter(s: string, part: string)
    ensures Contains(s, part) ==> |part| <= |s|
  {
    if s != "" {
      ContainsIsShorter(s[1..], part);
    }
  }

  /** A container that a listing by this name and status `created` selects. */
  predicate Listed(b: Box, name: string) {
    b.state != Started && Contains(b.name, name)
  }

  /** Between names of one length the filter on a name is equality. */
  lemma ListedMeans(b: Box, name: string)
    requires |b.name| == |name|
    ensures Listed(b, name) <==> b.state != Started && b.name == name
  {
    if b.name != "" {
      ContainsIsShorter(b.name[1..], name);
    }
  }

  lemma {:induction false} SettledAppend(a: seq<Box>, b: seq<Box>, name: string)
    ensures Settled(a + b, name) == Settled(a, name) + Settled(b, name)
  {
    if b == [] {
      assert a + b == a;
    } else {
      var n := |b| - 1;
      SettledAppend(a, b[..n], name);
      assert a + b == a + b[..n] + [b[n]] && b == b[..n] + [b[n]];
      SettledSnoc(a + b[..n], b[n], name);
      SettledSnoc(b[..n], b[n], name);
    }
  }

  /** With names of one length the first listed container is the only one that can be a leftover. */
  lemma FirstListedSettles(boxes: seq<Box>, name: string, k: nat)
    requires NamesDistinct(boxes) && forall b :: b in boxes ==> |b.name| == |name|
    requires k <= |boxes| && (forall i :: 0 <= i < k ==> !Listed(boxes[i], name))
    requires k < |boxes| ==> Listed(boxes[k], name)
    ensures Settled(boxes, name) ==
            if k < |boxes| && boxes[k].state == Conflicted then boxes[..k] + boxes[k + 1..] else boxes
  {
    hide Listed, Settled, NamesDistinct, Leftover;
    forall i | 0 <= i < |boxes| && i != k
      ensures !Leftover(boxes[i], name)
    {
      NotLeftover(boxes, name, k, i);
    }
    OnlyOneCut(boxes, name, k);
  }

  lemma OnlyOneCut(boxes: seq<Box>, name: string, k: nat)
    requires k <= |boxes| && forall i :: 0 <= i < |boxes| && i != k ==> !Leftover(boxes[i], name)
    requires k < |boxes| ==> Listed(boxes[k], name) && |boxes[k].name| == |name|
    ensures Settled(boxes, name) ==
            if k < |boxes| && boxes[k].state == Conflicted then boxes[..k] + boxes[k + 1..] else boxes
  {
    hide Listed, Settled, Leftover;
    SettledMembers(boxes[..k], name);
    if k < |boxes| {
      SettledMembers(boxes[k + 1..], name);
      SettledOne(boxes[k], name);
      TakeNext(boxes, k);
      SettledAppend(boxes[..k], [boxes[k]], name);
      SettledAppend(boxes[..k + 1], boxes[k + 1..], name);
      assert boxes == boxes[..k + 1] + boxes[k + 1..];
    } else {
      assert boxes[..k] == boxes;
    }
  }

  lemma NotLeftover(boxes: seq<Box>, name: string, k: nat, i: nat)
    requires NamesDistinct(boxes) && forall b :: b in boxes ==> |b.name| == |name|
    requires i < |boxes| && i != k && k <= |boxes| && forall j :: 0 <= j < k ==> !Listed(boxes[j], name)
    requires k < |boxes| ==> Listed(boxes[k], name)
    ensures !Leftover(boxes[i], name)
  {
    hide Listed;
    ListedMeans(boxes[i], name);
    if k < |boxes| {
      ListedMeans(boxes[k], name);
      assert if i < k then boxes[i].name != boxes[k].name else boxes[k].name != boxes[i].name;
    }
  }

  lemma SettledOne(b: Box, name: string)
    requires Listed(b, name)
    requires |b.name| == |name|
    ensures Settled([b], name) == if b.state == Conflicted then [] else [b]
  {
    ListedMeans(b, name);
    assert [b][..0] == [];
    assert Settled([b][..0], name) == [];
  }

  // The retry loop.

  /** What the retry loop knows of a call that has made the offers `tries`: the container of the last
      one is still there, and the list with the next read is the one that the next try chooses from. */
  ghost predicate Progress(start: nat, base: seq<Box>, boxes: seq<Box>, portInUse: seq<nat>, tries: seq<nat>) {
    && Offers(start, PortsOf(base), tries)
    && multiset(portInUse + PortsOf(boxes)) == multiset(Used(PortsOf(base), tries))
    && (boxes == [] ==> portInUse == [])
  }

  lemma ProgressStart(start: nat, base: seq<Box>)
    ensures Progress(start, base, base, [], [])
  {
    assert [] + PortsOf(base) == PortsOf(base);
  }

  lemma OfferFromRead(start: nat, read: seq<nat>, used: seq<nat>, port: nat)
    requires Offer(start, read, port) && multiset(read) == multiset(used)
    ensures Offer(start, used, port)
  {
    assert |read| == |multiset(read)| && |used| == |multiset(used)|;
  }

  lemma PortsSnoc(base: seq<Box>, b: Box)
    ensures PortsOf(base + [b]) == PortsOf(base) + [b.port]
  {
  }

  /** A try that reads `grown` and offers a port is the next offer of the call. */
  lemma OfferAdvances(start: nat, base: seq<Box>, boxes: seq<Box>, portInUse: seq<nat>, tries: seq<nat>,
                      grown: seq<nat>, b: Box)
    requires Progress(start, base, boxes, portInUse, tries)
    requires multiset(grown) == multiset(portInUse + PortsOf(boxes))
    requires Offer(start, portInUse + PortsOf(boxes), b.port)
    ensures Progress(start, base, base + [b], grown, tries + [b.port])
  {
    hide Offer;
    var used := Used(PortsOf(base), tries);
    OfferFromRead(start, portInUse + PortsOf(boxes), used, b.port);
    assert (tries + [b.port])[..|tries|] == tries;
    PortsSnoc(base, b);
    assert multiset(grown + PortsOf(base + [b])) == multiset(grown) + multiset(PortsOf(base) + [b.port]);
    assert multiset(used + (PortsOf(base) + [b.port])) == multiset(used) + multiset(PortsOf(base) + [b.port]);
  }

  /** The state after a conflict on the last offer: its container is left behind. */
  ghost predicate LeftBehind(base: seq<Box>, boxes: seq<Box>, name: string, port: nat, serial: nat) {
    && boxes == base + [Box(serial, name, port, Conflicted)]
    && forall b :: b in base ==> b.serial < serial && b.name != name && !Leftover(b, name)
  }

  lemma LeftBehindSettles(base: seq<Box>, boxes: seq<Box>, name: string, port: nat, serial: nat)
    requires LeftBehind(base, boxes, name, port, serial)
    ensures Settled(boxes, name) == base
    ensures WithoutSerial(boxes, serial) == base && WithoutSerial(base, serial) == base
  {
    SettledMembers(base, name);
    SettledSnoc(base, boxes[|base|], name);
    WithoutLast(base, boxes[|base|]);
    WithoutFreshSerial(base, serial);
  }

  lemma LeftBehindSerials(base: seq<Box>, boxes: seq<Box>, name: string, port: nat, serial: nat)
    requires LeftBehind(base, boxes, name, port, serial)
    ensures forall b :: b in base ==> b.serial != serial && b.name != name
    ensures exists b :: b in boxes && b.serial == serial
  {
    assert boxes[|base|] in boxes;
  }

  lemma NotStartedStays(base: seq<Box>, b: Box, serial: nat)
    requires b.serial != serial && forall c :: c in base ==> c.serial != serial
    ensures WithoutSerial(base + [b], serial) == base + [b]
  {
    WithoutFreshSerial(base + [b], serial);
  }

  class SocatRepository {
    const startPort: nat
    /** The length that all container names have: a prefix and an identity address. */
    const nameLength: nat
    /** Whether every step that reaches Docker succeeds and the network has a free address. */
    const reliable: bool
    var boxes: seq<Box>
    /** The host ports that are already allocated: starting on one of them is a port conflict. */
    var bound: set<nat>
    var nextSerial: nat
    /** The ports that containers of the current call were created with, in order. */
    ghost var offered: seq<nat>

    constructor (startPort: nat, nameLength: nat, reliable: bool, bound: set<nat>)
      ensures Valid() && boxes == [] && this.bound == bound
      ensures this.startPort == startPort && this.nameLength == nameLength && this.reliable == reliable
    {
      this.startPort, this.nameLength, this.reliable, this.bound := startPort, nameLength, reliable, bound;
      boxes, nextSerial, offered := [], 0, [];
    }

    ghost predicate Valid()
      reads this
    {
      && (forall b :: b in boxes ==> b.serial < nextSerial && |b.name| == nameLength)
      && NamesDistinct(boxes)
    }

    /** A step that reaches Docker, which may fail unless the host is reliable. */
    method Read() returns (ok: bool)
      ensures reliable ==> ok
    {
      var luck: bool := *;
      ok := reliable || luck;
    }

    /** The first container that the listing by name gives is removed if a port conflict left it. */
    method RemoveFailedContainerByName(name: string) returns (ok: bool)
      requires Valid() && |name| == nameLength
      modifies this`boxes
      ensures Valid() && (reliable ==> ok)
      ensures boxes == (if ok then Settled(old(boxes), name) else old(boxes))
    {
      hide NamesDistinct, Contains;
      ok := Read();
      if !ok {
        return;
      }
      var k := 0;
      while k < |boxes| && !Listed(boxes[k], name)
        invariant k <= |boxes| && forall i :: 0 <= i < k ==> !Listed(boxes[i], name)
      {
        k := k + 1;
      }
      FirstListedSettles(boxes, name, k);
      SettledMembers(boxes, name);
      SettledNames(boxes, name);
      if k < |boxes| && boxes[k].state == Conflicted {
        boxes := boxes[..k] + boxes[k + 1..];
      }
    }

    method RemoveCreatedContainerById(serial: nat)
      requires Valid()
      modifies this`boxes
      ensures boxes == WithoutSerial(old(boxes), serial)
      ensures Valid()
    {
      WithoutSerialKeeps(boxes, serial);
      boxes := WithoutSerial(boxes, serial);
    }

    /** `portInUse` grows by the published ports read in this try and is left sorted as text. */
    method NextBindPort(portInUse: seq<nat>) returns (r: Result<nat, Error>, grown: seq<nat>)
      ensures reliable ==> r.Success?
      ensures r.Success? && boxes == [] ==> grown == portInUse && r.value == startPort
      ensures r.Success? && boxes != [] ==>
                && multiset(grown) == multiset(portInUse + PortsOf(boxes))
                && Offer(startPort, portInUse + PortsOf(boxes), r.value)
      ensures r.Failure? ==> r.error == ReadFailed
    {
      grown := portInUse;
      var ok := Read();
      if !ok {
        return Failure(ReadFailed), grown;
      }
      if |boxes| == 0 {
        return Success(startPort), grown;
      }
      for i := 0 to |boxes|
        invariant grown == portInUse + PortsOf(boxes)[..i]
      {
        grown := grown + [boxes[i].port];
      }
      assert PortsOf(boxes)[..|boxes|] == PortsOf(boxes);
      ghost var list := grown;
      grown := SortAsText(grown);
      assert list[0] in multiset(grown);
      var port := GapLoop(startPort, grown);
      r := Success(port);
    }

    /** One container created and started, or created and left behind unstarted. */
    method CreateContainerWithPort(name: string, port: nat) returns (r: Result<nat, Error>)
      requires Valid() && |name| == nameLength
      modifies this
      ensures Valid()
      ensures nextSerial >= old(nextSerial)
      ensures r.Success? ==>
                && r.value == port && port !in old(bound) && bound == old(bound) + {port}
                && boxes == Settled(old(boxes), name) + [Box(old(nextSerial), name, port, Started)]
      ensures r.Failure? ==> bound == old(bound)
      ensures r.Failure? && r.error.PortConflict? ==>
                && port in bound && r.error.serial == old(nextSerial)
                && boxes == Settled(old(boxes), name) + [Box(old(nextSerial), name, port, Conflicted)]
      ensures r.Failure? && NotStarted(r.error) ==>
                && !reliable && r.error.serial == old(nextSerial)
                && boxes == Settled(old(boxes), name) + [Box(old(nextSerial), name, port, Idle)]
      ensures r.Failure? && !r.error.PortConflict? && !NotStarted(r.error) ==>
                boxes == Settled(old(boxes), name) || (!reliable && boxes == old(boxes))
      ensures reliable && (forall b :: b in Settled(old(boxes), name) ==> b.name != name) ==>
                r == if port in old(bound) then Failure(PortConflict(old(nextSerial))) else Success(port)
      ensures r.Failure? ==> r.error in {PortConflict(old(nextSerial)), AddressConflict(old(nextSerial)),
                                         StartFailed(old(nextSerial)), NameTaken, NoAddress, ReadFailed}
      ensures r.Failure? && (forall b :: b in Settled(old(boxes), name) ==> b.name != name) ==>
                r.error != NameTaken
      ensures (exists b :: b in Settled(old(boxes), name) && b.name == name) ==>
                r.Failure? && r.error in {NameTaken, NoAddress, ReadFailed}
      ensures offered == if r.Success? || r.error.PortConflict? || NotStarted(r.error)
                         then old(offered) + [port] else old(offered)
    {
      hide Settled, NamesDistinct, Contains;
      var removed := RemoveFailedContainerByName(name);
      if !removed {
        return Failure(ReadFailed);
      }
      var hasAddress := Read();
      if !hasAddress {
        return Failure(NoAddress);
      }
      if exists b :: b in boxes && b.name == name {
        return Failure(NameTaken);
      }
      var created := Read();
      if !created {
        return Failure(ReadFailed);
      }
      offered := offered + [port];
      var serial := nextSerial;
      nextSerial := nextSerial + 1;
      forall state
        ensures NamesDistinct(boxes + [Box(serial, name, port, state)])
      {
        DistinctSnoc(boxes, Box(serial, name, port, state));
      }
      var started, free := Start();
      if !started {
        boxes := boxes + [Box(serial, name, port, Idle)];
        return Failure(if free then StartFailed(serial) else AddressConflict(serial));
      }
      if port in bound {
        boxes := boxes + [Box(serial, name, port, Conflicted)];
        return Failure(PortConflict(serial));
      }
      boxes := boxes + [Box(serial, name, port, Started)];
      bound := bound + {port};
      return Success(port);
    }

    /** Whether a start comes as far as the port, and if not, whether the address was free. */
    method Start() returns (started: bool, free: bool)
      ensures reliable ==> started
    {
      started := Read();
      free := Read();
    }

    /** One pass of the retry loop: choose a port, then create and start on it. */
    method TryNextPort(name: string, portInUse: seq<nat>, ghost base: seq<Box>, ghost tries: seq<nat>)
        returns (r: Result<nat, Error>, grown: seq<nat>, ghost port: nat)
      requires Valid() && |name| == nameLength && Settled(boxes, name) == base
      requires Progress(startPort, base, boxes, portInUse, tries)
      modifies this
      ensures Valid() && nextSerial >= old(nextSerial)
      ensures r.Success? ==>
                && r.value == port && port !in old(bound) && bound == old(bound) + {port}
                && boxes == base + [Box(old(nextSerial), name, port, Started)]
      ensures r.Success? || r.error.PortConflict? || NotStarted(r.error) ==>
                offered == old(offered) + [port] && Offers(startPort, PortsOf(base), tries + [port])
      ensures r.Failure? ==> bound == old(bound)
      ensures r.Failure? && r.error.PortConflict? ==>
                && port in bound
                && LeftBehind(base, boxes, name, port, r.error.serial)
                && Progress(startPort, base, boxes, grown, tries + [port])
      ensures r.Failure? && NotStarted(r.error) ==>
                && !reliable && r.error.serial == old(nextSerial)
                && boxes == base + [Box(r.error.serial, name, port, Idle)]
      ensures r.Failure? && !r.error.PortConflict? && !NotStarted(r.error) ==>
                offered == old(offered) && (boxes == base || boxes == old(boxes))
      ensures r.Failure? ==> r.error.PortConflict? || NotStarted(r.error) || r.error in {NameTaken, NoAddress, ReadFailed}
      ensures reliable && (forall b :: b in base ==> b.name != name) ==>
                if port in old(bound) then r.Failure? && r.error.PortConflict? else r == Success(port)
      ensures (exists b :: b in base && b.name == name) ==> r.Failure? && r.error in {NameTaken, NoAddress, ReadFailed}
    {
      hide Progress, Contains, NamesDistinct, Offers, Offer, Settled, PortsOf, LeftBehind, Leftover;
      port := 0;
      var bindPort;
      bindPort, grown := NextBindPort(portInUse);
      if bindPort.Failure? {
        return bindPort, grown, port;
      }
      port := bindPort.value;
      SettledMembers(boxes, name);
      ghost var made := Box(nextSerial, name, port, Conflicted);
      ProgressOffers(startPort, base, boxes, portInUse, tries);
      ReadIsOffer(startPort, boxes, portInUse, port, grown);
      OfferAdvances(startPort, base, boxes, portInUse, tries, grown, made);
      ProgressOffers(startPort, base, base + [made], grown, tries + [port]);
      r := CreateContainerWithPort(name, bindPort.value);
      if r.Failure? && r.error.PortConflict? {
        ConflictLeavesBehind(base, made);
      }
    }

    /** The retry loop without a given port. */
    method CreateContainerWithoutPort(name: string) returns (r: Result<nat, Error>, ghost tries: seq<nat>)
      requires Valid() && |name| == nameLength
      requires forall b :: b in boxes ==> !Leftover(b, name)
      modifies this
      ensures Valid()
      ensures offered == old(offered) + tries && |tries| <= MAX_RETRY && Offers(startPort, PortsOf(old(boxes)), tries)
      ensures r.Success? ==>
                && r.value !in old(bound) && bound == old(bound) + {r.value}
                && exists serial :: boxes == old(boxes) + [Box(serial, name, r.value, Started)]
      ensures r.Failure? ==> bound == old(bound) && !r.error.PortConflict?
      ensures r.Failure? && NotStarted(r.error) ==>
                !reliable && tries != [] && boxes == old(boxes) + [Box(r.error.serial, name, tries[|tries| - 1], Idle)]
                && forall b :: b in old(boxes) ==> b.serial != r.error.serial
      ensures r.Failure? && !NotStarted(r.error) ==> boxes == old(boxes)
      ensures r.Failure? ==> NotStarted(r.error) || r.error in {NameTaken, NoAddress, ReadFailed, Unknown}
      ensures forall i :: 0 <= i < |tries| - 1 ==> tries[i] in old(bound)
      ensures r.Success? ==> tries != [] && tries[|tries| - 1] == r.value
      ensures reliable && (forall b :: b in old(boxes) ==> b.name != name) ==>
                Call(startPort, PortsOf(old(boxes)), old(bound), tries)
                && (r.Failure? ==> r.error == Unknown && tries[|tries| - 1] in old(bound))
      ensures (exists b :: b in old(boxes) && b.name == name) ==>
                tries == [] && r.Failure? && r.error in {NameTaken, NoAddress, ReadFailed}
    {
      hide Progress, Contains, NamesDistinct, Offers, Offer, LeftBehind, Settled, WithoutSerial, PortsOf;
      ghost var base := boxes;
      SettledMembers(base, name);
      ProgressStart(startPort, base);
      tries := [];
      NoOffers(startPort, PortsOf(base));
      var portInUse: seq<nat> := [];
      var lastFailed: Option<nat> := None;
      var error: Option<Error> := None;
      ghost var port := 0;
      var count := 0;
      while count < MAX_RETRY
        invariant 0 <= count == |tries| <= MAX_RETRY && offered == old(offered) + tries
        invariant Valid() && error.None? && bound == old(bound)
        invariant lastFailed.None? ==> count == 0 && boxes == base
        invariant lastFailed.Some? ==> LeftBehind(base, boxes, name, port, lastFailed.value)
        invariant lastFailed.Some? ==> forall b :: b in base ==> b.name != name
        invariant nextSerial >= old(nextSerial)
        invariant forall p :: p in tries ==> p in bound
        invariant Progress(startPort, base, boxes, portInUse, tries) && Offers(startPort, PortsOf(base), tries)
      {
        if lastFailed.Some? {
          LeftBehindSettles(base, boxes, name, port, lastFailed.value);
          LeftBehindSerials(base, boxes, name, port, lastFailed.value);
        }
        var created;
        ghost var before := tries;
        created, portInUse, port := TryNextPort(name, portInUse, base, tries);
        if created.Success? {
          tries := tries + [port];
          return created, tries;
        }
        if created.error.PortConflict? {
          tries := tries + [port];
          lastFailed := Some(created.error.serial);
          LeftBehindSerials(base, boxes, name, port, lastFailed.value);
          count := count + 1;
          continue;
        }
        if NotStarted(created.error) {
          tries := tries + [port];
          if lastFailed.Some? {
            NotStartedStays(base, boxes[|base|], lastFailed.value);
          }
        }
        error := Some(created.error);
        break;
      }
      if lastFailed.Some? {
        if error.None? {
          LeftBehindSettles(base, boxes, name, port, lastFailed.value);
        }
        RemoveCreatedContainerById(lastFailed.value);
      }
      if error.Some? {
        return Failure(error.value), tries;
      }
      return Failure(Unknown), tries;
    }

    /** One pass of `_createContainer`, on the given port or on a chosen one; a port of 0 is no port. */
    method CreateOnce(name: string, socketPort: Option<nat>) returns (r: Result<nat, Error>, ghost tries: seq<nat>)
      requires Valid() && |name| == nameLength
      requires forall b :: b in boxes ==> !Leftover(b, name)
      modifies this
      ensures Valid()
      ensures r.Success? ==>
                && r.value !in old(bound) && bound == old(bound) + {r.value}
                && (HasPort(socketPort) ==> r.value == socketPort.value)
                && exists serial :: boxes == old(boxes) + [Box(serial, name, r.value, Started)]
      ensures r.Failure? ==> bound == old(bound)
      ensures r.Failure? && (r.error.PortConflict? || NotStarted(r.error)) ==>
                && (r.error.PortConflict? ==> HasPort(socketPort) && socketPort.value in bound)
                && (NotStarted(r.error) ==> !reliable) && WithoutSerial(boxes, r.error.serial) == old(boxes)
                && exists port, state :: state != Started && (NotStarted(r.error) ==> state == Idle)
                                         && boxes == old(boxes) + [Box(r.error.serial, name, port, state)]
      ensures r.Failure? && !r.error.PortConflict? && !NotStarted(r.error) ==>
                boxes == old(boxes) && r.error in {NameTaken, NoAddress, ReadFailed, Unknown}
      ensures offered == old(offered) + tries
      ensures if HasPort(socketPort) then tries == [] || tries == [socketPort.value]
              else |tries| <= MAX_RETRY && Offers(startPort, PortsOf(old(boxes)), tries)
      ensures r.Success? ==> tries != [] && tries[|tries| - 1] == r.value
      ensures forall i :: 0 <= i < |tries| - 1 ==> tries[i] in old(bound)
      ensures reliable && (forall b :: b in old(boxes) ==> b.name != name) ==>
                if HasPort(socketPort)
                then if socketPort.value in old(bound) then r.Failure? && r.error.PortConflict? else r == Success(socketPort.value)
                else Call(startPort, PortsOf(old(boxes)), old(bound), tries)
                     && (r.Failure? ==> r.error == Unknown && tries[|tries| - 1] in old(bound))
      ensures (exists b :: b in old(boxes) && b.name == name) ==>
                tries == [] && r.Failure? && r.error in {NameTaken, NoAddress, ReadFailed}
    {
      hide Contains, NamesDistinct, Offers, Offer, Settled, WithoutSerial, PortsOf, Call, Leftover;
      ghost var base := boxes;
      SettledMembers(base, name);
      assert Settled(base, name) == base;
      if HasPort(socketPort) {
        r := CreateContainerWithPort(name, socketPort.value);
        tries := if r.Success? || r.error.PortConflict? || NotStarted(r.error) then [socketPort.value] else [];
        assert old(offered) + [] == old(offered);
      } else {
        r, tries := CreateContainerWithoutPort(name);
      }
      if r.Failure? && (r.error.PortConflict? || NotStarted(r.error)) {
        WithoutLast(base, boxes[|base|]);
      }
    }

    /** `_createContainer`: an address conflict is tried again, but by then the container that could
        not start holds the name, so the next try fails. */
    method CreateContainer(name: string, socketPort: Option<nat>) returns (r: Result<nat, Error>, ghost stuck: Option<Box>)
      requires Valid() && |name| == nameLength
      modifies this
      ensures Valid()
      ensures r.Success? ==>
                && stuck == None && r.value !in old(bound) && bound == old(bound) + {r.value}
                && (HasPort(socketPort) ==> r.value == socketPort.value)
                && exists serial :: boxes == Settled(old(boxes), name) + [Box(serial, name, r.value, Started)]
      ensures r.Failure? ==> bound == old(bound) && !r.error.AddressConflict?
      ensures r.Failure? && (r.error.PortConflict? || r.error.StartFailed?) ==>
                stuck == None && WithoutSerial(boxes, r.error.serial) == Settled(old(boxes), name)
      ensures r.Failure? && !r.error.PortConflict? && !r.error.StartFailed? && stuck == None ==>
                boxes == Settled(old(boxes), name) || (!reliable && boxes == old(boxes))
      ensures r.Failure? && r.error.PortConflict? ==>
                HasPort(socketPort) && socketPort.value in old(bound)
      ensures r.Failure? ==> r.error.PortConflict? || r.error.StartFailed? || r.error in {NameTaken, NoAddress, ReadFailed, Unknown}
      ensures stuck.Some? ==>
                && !reliable && r.Failure? && r.error in {NameTaken, NoAddress, ReadFailed}
                && stuck.value.name == name && stuck.value.state == Idle
                && boxes == Settled(old(boxes), name) + [stuck.value]
      ensures if HasPort(socketPort) then offered == [] || offered == [socketPort.value]
              else |offered| <= MAX_RETRY && Offers(startPort, PortsOf(Settled(old(boxes), name)), offered)
      ensures r.Success? ==> offered != [] && offered[|offered| - 1] == r.value
      ensures forall i :: 0 <= i < |offered| - 1 ==> offered[i] in old(bound)
      ensures reliable && (forall b :: b in Settled(old(boxes), name) ==> b.name != name) ==>
                if HasPort(socketPort)
                then if socketPort.value in old(bound) then r.Failure? && r.error.PortConflict? else r == Success(socketPort.value)
                else Call(startPort, PortsOf(Settled(old(boxes), name)), old(bound), offered)
                     && (r.Failure? ==> r.error == Unknown && offered[|offered| - 1] in old(bound))
    {
      hide Contains, NamesDistinct, Offers, Offer, Settled, WithoutSerial, PortsOf, Call, Leftover;
      offered := [];
      stuck := None;
      ghost var base := Settled(boxes, name);
      NoOffers(startPort, PortsOf(base));
      SettledMembers(boxes, name);
      r := Failure(Unknown);
      var count := 0;
      while count < MAX_RETRY
        invariant count <= MAX_RETRY && Valid() && bound == old(bound)
        invariant count == 0 ==> boxes == old(boxes) && offered == [] && stuck == None
        invariant count > 0 ==> count == 1 && !reliable && stuck.Some? && stuck.value.name == name && stuck.value.state == Idle
                                && boxes == base + [stuck.value]
        invariant if HasPort(socketPort) then offered == [] || offered == [socketPort.value]
                  else |offered| <= MAX_RETRY && Offers(startPort, PortsOf(base), offered)
        invariant forall i :: 0 <= i < |offered| - 1 ==> offered[i] in old(bound)
      {
        if count > 0 {
          StuckStays(base, stuck.value, name);
        }
        SettledMembers(boxes, name);
        var removed := RemoveFailedContainerByName(name);
        if !removed {
          return Failure(ReadFailed), stuck;
        }
        ghost var already := offered;
        ghost var tries;
        r, tries := CreateOnce(name, socketPort);
        assert already + tries == if count == 0 then tries else already;
        if r.Failure? && r.error.AddressConflict? {
          stuck := Some(boxes[|base|]);
          count := count + 1;
          continue;
        }
        return r, stuck;
      }
    }

    /** `create`: the cleanup after a call. A given port of 0 counts as no port. On success there is
        exactly one more container; on failure the containers are the ones from before, less at most a
        leftover of an older conflict under this name, unless the address was taken at a start. */
    method Create(name: string, socketPort: Option<nat>) returns (r: Result<nat, Error>, ghost stuck: Option<Box>)
      requires Valid() && |name| == nameLength
      modifies this
      ensures Valid()
      ensures r.Success? ==>
                && stuck == None && r.value !in old(bound) && bound == old(bound) + {r.value}
                && (HasPort(socketPort) ==> r.value == socketPort.value)
                && exists serial :: boxes == Settled(old(boxes), name) + [Box(serial, name, r.value, Started)]
      ensures r.Failure? ==> bound == old(bound)
      ensures r.Failure? && stuck == None ==> boxes == Settled(old(boxes), name) || (!reliable && boxes == old(boxes))
      ensures stuck.Some? ==>
                && !reliable && r.Failure? && r.error in {NameTaken, NoAddress, ReadFailed}
                && stuck.value.name == name && stuck.value.state == Idle
                && boxes == Settled(old(boxes), name) + [stuck.value]
      ensures r.Failure? && r.error == PortInUse ==> socketPort.Some? && socketPort.value in old(bound)
      ensures if HasPort(socketPort) then offered == [] || offered == [socketPort.value]
              else |offered| <= MAX_RETRY && Offers(startPort, PortsOf(Settled(old(boxes), name)), offered)
      ensures r.Success? ==> offered != [] && offered[|offered| - 1] == r.value
      ensures forall i :: 0 <= i < |offered| - 1 ==> offered[i] in old(bound)
      ensures reliable && (forall b :: b in Settled(old(boxes), name) ==> b.name != name) ==>
                if HasPort(socketPort)
                then r == if socketPort.value in old(bound) then Failure(PortInUse) else Success(socketPort.value)
                else Call(startPort, PortsOf(Settled(old(boxes), name)), old(bound), offered)
                     && (r.Failure? ==> r.error == Unknown && offered[|offered| - 1] in old(bound))
    {
      hide Settled, WithoutSerial, PortsOf, Offers, Call, NamesDistinct;
      r, stuck := CreateContainer(name, socketPort);
      if r.Failure? && (r.error.PortConflict? || r.error.StartFailed?) {
        RemoveCreatedContainerById(r.error.serial);
        if r.error.PortConflict? {
          r := Failure(PortInUse);
        }
      }
    }
  }

  lemma StuckStays(base: seq<Box>, b: Box, name: string)
    requires b.state == Idle && Settled(base, name) == base
    ensures Settled(base + [b], name) == base + [b]
  {
    SettledSnoc(base, b, name);
  }

  lemma NoOffers(start: nat, base: seq<nat>)
    ensures Offers(start, base, [])
  {
  }

  lemma ProgressOffers(start: nat, base: seq<Box>, boxes: seq<Box>, portInUse: seq<nat>, tries: seq<nat>)
    requires Progress(start, base, boxes, portInUse, tries)
    ensures Offers(start, PortsOf(base), tries) && (boxes == [] ==> portInUse == [])
  {
  }

  lemma ReadIsOffer(start: nat, boxes: seq<Box>, portInUse: seq<nat>, port: nat, grown: seq<nat>)
    requires boxes == [] ==> grown == portInUse && port == start
    requires boxes != [] ==> multiset(grown) == multiset(portInUse + PortsOf(boxes))
    requires boxes != [] ==> Offer(start, portInUse + PortsOf(boxes), port)
    requires boxes == [] ==> portInUse == []
    ensures multiset(grown) == multiset(portInUse + PortsOf(boxes)) && Offer(start, portInUse + PortsOf(boxes), port)
  {
    if boxes == [] {
      assert PortsOf(boxes) == [];
    }
  }

  lemma ConflictLeavesBehind(base: seq<Box>, b: Box)
    requires NamesDistinct(base + [b]) && b.state == Conflicted
    requires forall c :: c in base ==> c.serial < b.serial
    ensures LeftBehind(base, base + [b], b.name, b.port, b.serial)
  {
    forall c | c in base
      ensures c.name != b.name
    {
      var i :| 0 <= i < |base| && base[i] == c;
      assert (base + [b])[i].name != (base + [b])[|base|].name;
    }
  }
}
