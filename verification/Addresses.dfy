// The address that a new container gets in the Docker network: addresses are compared as text, and
// the search is over the subnet in numeric order.
module Addresses {
  import opened Wrappers
  import opened Text

  const ADDRESS_COUNT := 0x1_0000_0000

  datatype Cidr = Cidr(address: nat, prefix: nat)

  predicate WellFormed(c: Cidr) {
    c.address < ADDRESS_COUNT && c.prefix <= 32
  }

  /** The dotted quad of an address. */
  function Quad(a: nat): string {
    Join([Numeral(a / 0x100_0000), Numeral(a / 0x1_0000 % 0x100), Numeral(a / 0x100 % 0x100), Numeral(a % 0x100)], '.')
  }

  function CidrText(c: Cidr): string {
    Quad(c.address) + "/" + Numeral(c.prefix)
  }

  lemma QuadParts(a: nat)
    ensures Split(Quad(a), '.') ==
            [Numeral(a / 0x100_0000), Numeral(a / 0x1_0000 % 0x100), Numeral(a / 0x100 % 0x100), Numeral(a % 0x100)]
  {
    hide Numeral, Split, Join, SplitEach;
    var parts := [Numeral(a / 0x100_0000), Numeral(a / 0x1_0000 % 0x100), Numeral(a / 0x100 % 0x100), Numeral(a % 0x100)];
    forall i | 0 <= i < |parts|
      ensures '.' !in parts[i]
    {
      DigitsHaveNoMark(parts[i], '.');
    }
    SplitOfJoin(parts, '.');
    SplitEachOfWords(parts, '.');
  }

  lemma DigitsHaveNoMark(s: string, c: char)
    requires AllDigits(s) && !IsDigit(c)
    ensures c !in s
  {
  }

  /** No two addresses print alike. */
  lemma QuadInjective(a: nat, b: nat)
    ensures Quad(a) == Quad(b) <==> a == b
  {
    hide Quad, Numeral, NumberOf;
    if Quad(a) == Quad(b) {
      QuadParts(a);
      QuadParts(b);
      SameNumerals(a / 0x100_0000, b / 0x100_0000);
      SameNumerals(a / 0x1_0000 % 0x100, b / 0x1_0000 % 0x100);
      SameNumerals(a / 0x100 % 0x100, b / 0x100 % 0x100);
      SameNumerals(a % 0x100, b % 0x100);
      Bytes(a);
      Bytes(b);
    }
  }

  lemma SameNumerals(m: nat, n: nat)
    ensures Numeral(m) == Numeral(n) <==> m == n
  {
    hide Numeral, NumberOf;
    NumeralRoundTrip(m);
    NumeralRoundTrip(n);
  }

  lemma Bytes(a: nat)
    ensures a == a / 0x100_0000 * 0x100_0000 + a / 0x1_0000 % 0x100 * 0x1_0000 + a / 0x100 % 0x100 * 0x100 + a % 0x100
  {
    assert a / 0x100 / 0x100 == a / 0x1_0000 && a / 0x1_0000 / 0x100 == a / 0x100_0000;
  }

  lemma JoinFour(p: string, q: string, r: string, s: string, c: char)
    ensures Join([p, q, r, s], c) == p + [c] + (q + [c] + (r + [c] + s))
  {
    assert [p, q, r, s][1..] == [q, r, s] && [q, r, s][1..] == [r, s] && [r, s][1..] == [s];
    assert Join([s], c) == s;
    assert Join([r, s], c) == r + [c] + s;
    assert Join([q, r, s], c) == q + [c] + (r + [c] + s);
  }

  lemma QuadHasNoSlash(a: nat)
    ensures '/' !in Quad(a)
  {
    hide Numeral, Join;
    var p, q, r, s := Numeral(a / 0x100_0000), Numeral(a / 0x1_0000 % 0x100), Numeral(a / 0x100 % 0x100), Numeral(a % 0x100);
    JoinFour(p, q, r, s, '.');
    DigitsHaveNoMark(p, '/');
    DigitsHaveNoMark(q, '/');
    DigitsHaveNoMark(r, '/');
    DigitsHaveNoMark(s, '/');
  }

  /** What stands before the slash of a CIDR text is the printed address. */
  lemma AddressOfCidr(c: Cidr)
    ensures Split(CidrText(c), '/')[0] == Quad(c.address)
  {
    hide Quad, Numeral;
    QuadHasNoSlash(c.address);
    SplitConcat(Quad(c.address), Numeral(c.prefix), '/');
    SplitOfWord(Quad(c.address), '/');
    assert Quad(c.address) + "/" + Numeral(c.prefix) == Quad(c.address) + ['/'] + Numeral(c.prefix);
  }

  // The subnet.

  function Pow2(n: nat): (p: nat)
    ensures p > 0
  {
    if n == 0 then 1 else 2 * Pow2(n - 1)
  }

  lemma {:induction false} Pow2Adds(m: nat, n: nat)
    ensures Pow2(m + n) == Pow2(m) * Pow2(n)
  {
    if n > 0 {
      Pow2Adds(m, n - 1);
    }
  }

  function Size(c: Cidr): (n: nat)
    requires c.prefix <= 32
    ensures n > 0
  {
    Pow2(32 - c.prefix)
  }

  function Leading(a: nat, size: nat): nat
    requires size > 0
  {
    a / size
  }

  function Block(q: nat, size: nat): nat {
    q * size
  }

  function First(c: Cidr): nat
    requires c.prefix <= 32
  {
    Block(Leading(c.address, Size(c)), Size(c))
  }

  /** Prefix notation, section 3.1 of RFC 4632: the addresses that share the leading `prefix` bits. */
  predicate InSubnet(a: nat, c: Cidr)
    requires c.prefix <= 32
  {
    Leading(a, Size(c)) == Leading(c.address, Size(c))
  }

  function Bit(a: nat, k: nat): nat {
    a / Pow2(k) % 2
  }

  lemma Halved(a: nat, p: nat)
    requires p > 0
    ensures a / p == 2 * (a / (2 * p)) + a / p % 2
  {
    var q, r := a / (2 * p), a % (2 * p);
    assert a == q * (2 * p) + r;
    var high := if r >= p then 1 else 0;
    assert (2 * q + high) * p == q * (2 * p) + high * p;
    BlockBounds(a, 2 * q + high, p);
  }

  lemma {:induction false} SameBits(a: nat, b: nat, k: nat)
    requires a < ADDRESS_COUNT && b < ADDRESS_COUNT && k <= 32
    ensures a / Pow2(k) == b / Pow2(k) <==> forall j :: k <= j < 32 ==> Bit(a, j) == Bit(b, j)
    decreases 32 - k
  {
    if k == 32 {
      TwoTo32();
    } else {
      SameBits(a, b, k + 1);
      Halved(a, Pow2(k));
      Halved(b, Pow2(k));
      assert (forall j :: k <= j < 32 ==> Bit(a, j) == Bit(b, j)) <==>
             Bit(a, k) == Bit(b, k) && forall j :: k + 1 <= j < 32 ==> Bit(a, j) == Bit(b, j);
    }
  }

  /** The addresses of a subnet are those of 32 bits whose leading `prefix` bits are the subnet's. */
  lemma SubnetSharesBits(a: nat, c: Cidr)
    requires WellFormed(c)
    ensures InSubnet(a, c) <==> a < ADDRESS_COUNT && forall k :: 32 - c.prefix <= k < 32 ==> Bit(a, k) == Bit(c.address, k)
  {
    SubnetIsRange(a, c);
    if a < ADDRESS_COUNT {
      SameBits(a, c.address, 32 - c.prefix);
    }
  }

  lemma SubnetIsRange(a: nat, c: Cidr)
    requires WellFormed(c)
    ensures InSubnet(a, c) <==> First(c) <= a < First(c) + Size(c)
    ensures InSubnet(a, c) ==> a < ADDRESS_COUNT
  {
    hide Pow2;
    var p, q := Size(c), c.address / Size(c);
    BlockBounds(a, q, p);
    Pow2Adds(c.prefix, 32 - c.prefix);
    TwoTo32();
    BlockBelow(c.address, p, Pow2(c.prefix));
  }

  lemma TwoTo32()
    ensures Pow2(32) == ADDRESS_COUNT
  {
    assert Pow2(8) == 256;
    Pow2Adds(8, 8);
    Pow2Adds(16, 16);
  }

  lemma BlockBounds(a: nat, q: nat, p: nat)
    requires p > 0
    ensures a / p == q <==> q * p <= a < q * p + p
  {
    var r := a % p;
    assert a == a / p * p + r;
    if a / p < q {
      assert (a / p + 1) * p <= q * p;
    } else if a / p > q {
      assert (q + 1) * p <= a / p * p;
    }
  }

  lemma NotPositive(d: int, p: nat)
    requires d * p < 0
    ensures d < 0
  {
  }

  lemma BlockBelow(x: nat, p: nat, count: nat)
    requires p > 0 && x < count * p
    ensures x / p * p + p <= count * p
  {
    var q := x / p;
    assert x == q * p + x % p;
    assert (q - count) * p < 0;
    assert q < count by {
      NotPositive(q - count, p);
    }
    assert (count - q - 1) * p >= 0;
  }

  // The search.

  /** Neither the address that the subnet is written with, nor the gateway, nor a container's. */
  predicate Unused(a: nat, subnet: Cidr, gateway: Option<nat>, held: seq<Cidr>) {
    a != subnet.address && gateway != Some(a) && forall i :: 0 <= i < |held| ==> held[i].address != a
  }

  ghost predicate Printed(bound: set<string>, subnet: Cidr, gateway: Option<nat>, held: seq<Cidr>) {
    forall a: nat :: Quad(a) in bound <==> !Unused(a, subnet, gateway, held)
  }

  /** The keys of `bindIpObj`: a subnet without a gateway adds the key `undefined`. */
  method BoundAddresses(subnet: Cidr, gateway: Option<nat>, held: seq<Cidr>) returns (bound: set<string>)
    ensures Printed(bound, subnet, gateway, held)
  {
    hide Quad, CidrText;
    AddressOfCidr(subnet);
    UndefinedIsNoQuad();
    bound := {Split(CidrText(subnet), '/')[0], if gateway.Some? then Quad(gateway.value) else "undefined"};
    forall a: nat
      ensures Quad(a) in bound <==> !Unused(a, subnet, gateway, [])
    {
      QuadInjective(a, subnet.address);
      if gateway.Some? {
        QuadInjective(a, gateway.value);
      }
    }
    for i := 0 to |held|
      invariant Printed(bound, subnet, gateway, held[..i])
    {
      TakeNext(held, i);
      AddressOfCidr(held[i]);
      ghost var before := bound;
      bound := bound + {Split(CidrText(held[i]), '/')[0]};
      forall a: nat
        ensures Quad(a) in bound <==> !Unused(a, subnet, gateway, held[..i + 1])
      {
        QuadInjective(a, held[i].address);
        UnusedSnoc(a, subnet, gateway, held[..i], held[i]);
        assert Quad(a) in before <==> !Unused(a, subnet, gateway, held[..i]);
      }
    }
    assert held[..|held|] == held;
  }

  lemma UnusedSnoc(a: nat, subnet: Cidr, gateway: Option<nat>, held: seq<Cidr>, c: Cidr)
    ensures Unused(a, subnet, gateway, held + [c]) <==> Unused(a, subnet, gateway, held) && c.address != a
  {
    assert forall i :: 0 <= i < |held| ==> (held + [c])[i] == held[i];
    assert (held + [c])[|held|] == c;
  }

  lemma UndefinedIsNoQuad()
    ensures forall a: nat :: Quad(a) != "undefined"
  {
    forall a: nat
      ensures Quad(a) != "undefined"
    {
      QuadParts(a);
      var u := "undefined";
      assert '.' !in u;
      SplitOfWord(u, '.');
    }
  }

  /** `_getNextNetworkIp`: the least unused address of the subnet, and an error exactly when every
      address of the subnet is used. */
  method NextNetworkIp(subnet: Cidr, gateway: Option<nat>, held: seq<Cidr>) returns (r: Result<string, ()>)
    requires WellFormed(subnet)
    ensures r.Success? ==> exists a :: r.value == Quad(a) && InSubnet(a, subnet) && Unused(a, subnet, gateway, held)
                                       && forall b: nat :: b < a && InSubnet(b, subnet) ==> !Unused(b, subnet, gateway, held)
    ensures r.Failure? <==> forall a: nat :: InSubnet(a, subnet) ==> !Unused(a, subnet, gateway, held)
  {
    hide Quad, InSubnet, Size, First, Unused;
    var bound := BoundAddresses(subnet, gateway, held);
    forall a: nat
      ensures InSubnet(a, subnet) <==> First(subnet) <= a < First(subnet) + Size(subnet)
    {
      SubnetIsRange(a, subnet);
    }
    for a := First(subnet) to First(subnet) + Size(subnet)
      invariant forall b: nat :: First(subnet) <= b < a ==> !Unused(b, subnet, gateway, held)
    {
      assert Quad(a) in bound <==> !Unused(a, subnet, gateway, held);
      if Quad(a) !in bound {
        return Success(Quad(a));
      }
    }
    r := Failure(());
  }
}
