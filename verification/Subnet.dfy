/** iface.go: the masked network address that Detect stores, and the hosts that Hosts enumerates. */
module Subnet {
  import opened Common
  import opened Addr
  import opened Arith

  // ---- the masked base ----

  /** One octet under a mask octet with k leading one bits: its low 8 - k bits are cleared. */
  function MaskOctet(b: byte, k: nat): byte
    requires k <= 8
  {
    ModAtMost(b, Pow2(8 - k));
    b - b % Pow2(8 - k)
  }

  /** The one bits of a /ones mask that fall into octet i. */
  function OctetOnes(ones: nat, i: nat): nat {
    if ones <= 8 * i then 0 else if ones >= 8 * i + 8 then 8 else ones - 8 * i
  }

  /** ip4.Mask(mask) in Detect. */
  function Masked(a: Addr4, ones: nat): Addr4 {
    [MaskOctet(a[0], OctetOnes(ones, 0)), MaskOctet(a[1], OctetOnes(ones, 1)),
     MaskOctet(a[2], OctetOnes(ones, 2)), MaskOctet(a[3], OctetOnes(ones, 3))]
  }

  /** Modulo a power of two up to 2^8 only the last octet matters. */
  lemma {:induction false} OctetRemainder(high: nat, b: byte, k: nat)
    requires k <= 8
    ensures (high * 0x100 + b) % Pow2(k) == b % Pow2(k)
  {
    Pow2Add(k, 8 - k);
    assert Pow2(8) == 0x100;
    SplitMultiple(high, b, Pow2(k), Pow2(8 - k));
  }

  lemma {:induction false} SplitMultiple(high: nat, b: byte, d: nat, e: nat)
    requires d * e == 0x100
    ensures d > 0 && (high * 0x100 + b) % d == b % d
  {
    assert high * (d * e) == d * (high * e);
    ModAddMultiple(b, d, high * e);
  }

  /** The remainder of a number whose last octets `low` lie below `scale`, modulo 2^k scales. */
  lemma {:induction false} PrefixRemainder(high: nat, b: byte, k: nat, scale: nat, low: nat)
    requires k <= 8 && low < scale
    ensures Pow2(k) * scale > 0
    ensures ((high * 0x100 + b) * scale + low) % (Pow2(k) * scale) == b % Pow2(k) * scale + low
  {
    ModScaled(high * 0x100 + b, Pow2(k), scale, low);
    OctetRemainder(high, b, k);
  }

  lemma {:induction false} OctetPowers()
    ensures Pow2(0) == 1 && Pow2(8) == 0x100 && Pow2(16) == 0x1_0000
    ensures Pow2(24) == 0x100_0000 && Pow2(32) == 0x1_0000_0000
  {
    Pow2Add(8, 8);
    Pow2Add(16, 8);
    Pow2Add(16, 16);
  }

  lemma {:induction false} MaskOctetEnds(b: byte)
    ensures MaskOctet(b, 0) == 0 && MaskOctet(b, 8) == b
  {
    OctetPowers();
  }

  /** `m` is `a` masked inside octet i. */
  ghost predicate CutAt(a: Addr4, m: Addr4, ones: nat, i: nat) {
    && i < 4 && 8 * i <= ones <= 8 * i + 8
    && m[i] == a[i] - a[i] % Pow2(8 * i + 8 - ones)
    && forall k | 0 <= k < 4 && k != i :: m[k] == if k < i then a[k] else 0
  }

  /** A mask that ends inside octet i leaves the octets before it and clears those after it. */
  lemma {:induction false} MaskedOctets(a: Addr4, ones: nat, i: nat)
    requires i < 4 && 8 * i <= ones <= 8 * i + 8
    ensures CutAt(a, Masked(a, ones), ones, i)
  {
    forall k | 0 <= k < 4 && k != i ensures Masked(a, ones)[k] == if k < i then a[k] else 0 {
      MaskOctetEnds(a[k]);
    }
  }

  /** The same on 32-bit numbers: `high` and `low` are what stands before and after octet b. */
  lemma {:induction false} BlockStart(high: nat, b: byte, k: nat, scale: nat, low: nat, n: int, size: nat, masked: int)
    requires k <= 8 && low < scale && size == Pow2(k) * scale
    requires n == (high * 0x100 + b) * scale + low && masked == (high * 0x100 + (b - b % Pow2(k))) * scale
    ensures size > 0 && masked == n - n % size
  {
    PrefixRemainder(high, b, k, scale, low);
    var r := b % Pow2(k);
    assert (high * 0x100 + (b - r)) * scale == (high * 0x100 + b) * scale - r * scale;
  }

  lemma {:induction false} CutHigh(a: Addr4, m: Addr4, ones: nat)
    requires CutAt(a, m, ones, 0) || CutAt(a, m, ones, 1)
    ensures BinaryIP(m) == BinaryIP(a) - BinaryIP(a) % Pow2(32 - ones)
  {
    var b0: int, b1: int, b2: int, b3: int := a[0], a[1], a[2], a[3];
    OctetPowers();
    if CutAt(a, m, ones, 0) {
      Pow2Add(8 - ones, 24);
      BlockStart(0, a[0], 8 - ones, 0x100_0000, b1 * 0x1_0000 + b2 * 0x100 + b3,
                 BinaryIP(a), Pow2(32 - ones), BinaryIP(m));
    } else {
      Pow2Add(16 - ones, 16);
      BlockStart(b0, a[1], 16 - ones, 0x1_0000, b2 * 0x100 + b3, BinaryIP(a), Pow2(32 - ones), BinaryIP(m));
    }
  }

  lemma {:induction false} CutLow(a: Addr4, m: Addr4, ones: nat)
    requires CutAt(a, m, ones, 2) || CutAt(a, m, ones, 3)
    ensures BinaryIP(m) == BinaryIP(a) - BinaryIP(a) % Pow2(32 - ones)
  {
    var b0: int, b1: int, b2: int, b3: int := a[0], a[1], a[2], a[3];
    OctetPowers();
    if CutAt(a, m, ones, 2) {
      Pow2Add(24 - ones, 8);
      BlockStart(b0 * 0x100 + b1, a[2], 24 - ones, 0x100, b3, BinaryIP(a), Pow2(32 - ones), BinaryIP(m));
    } else {
      BlockStart(b0 * 0x1_0000 + b1 * 0x100 + b2, a[3], 32 - ones, 1, 0, BinaryIP(a), Pow2(32 - ones), BinaryIP(m));
    }
  }

  /** Masking octet by octet clears exactly the host bits of the 32-bit number. */
  lemma {:induction false} MaskedIsBlockStart(a: Addr4, ones: nat)
    requires ones <= 32
    ensures BinaryIP(Masked(a, ones)) == BinaryIP(a) - BinaryIP(a) % Pow2(32 - ones)
  {
    var i := if ones <= 8 then 0 else if ones <= 16 then 1 else if ones <= 24 then 2 else 3;
    MaskedOctets(a, ones, i);
    if i < 2 {
      CutHigh(a, Masked(a, ones), ones);
    } else {
      CutLow(a, Masked(a, ones), ones);
    }
  }

  // ---- Hosts ----

  datatype HostsError = NotIPv4 | NoHosts | TooMany
  datatype HostsResult = Ok(hosts: seq<Addr4>) | Err(error: HostsError)

  /** The first and one past the last offset that Hosts enumerates. */
  function Start(ones: nat): nat {
    if ones >= 31 then 0 else 1
  }

  function End(ones: nat): nat
    requires ones <= 32
  {
    if ones >= 31 then Pow2(32 - ones) else Pow2(32 - ones) - 1
  }

  /** Hosts; `ones` and `bits` are the mask's Size, and uint32 addition wraps. */
  method Hosts(network: IP, ones: nat, bits: nat, maxHosts: int) returns (r: HostsResult)
    requires bits == 32 ==> ones <= 32 && IsIPv4(network)
    ensures r == Err(NotIPv4) <==> bits != 32
    ensures r == Err(TooMany) <==> bits == 32 && maxHosts > 0 && End(ones) - Start(ones) > maxHosts
    ensures r != Err(NoHosts)
    ensures r.Ok? ==> HostsOf(To4(network).value, ones, r.hosts)
  {
    if bits != 32 {
      return Err(NotIPv4);
    }
    var total := Pow2(bits - ones);
    var start, end := 0, total;
    if ones < 31 {
      start, end := 1, total - 1;
      assert total == 2 * Pow2(31 - ones) && Pow2(31 - ones) == 2 * Pow2(30 - ones);
    }
    var count := end - start;
    if count <= 0 {
      return Err(NoHosts);
    }
    if maxHosts > 0 && count > maxHosts {
      return Err(TooMany);
    }
    var base := BinaryIP(To4(network).value);
    var out: seq<Addr4> := [];
    for i := start to end
      invariant |out| == i - start
      invariant forall k | 0 <= k < |out| :: out[k] == IntToIP((base + start + k) % 0x1_0000_0000)
    {
      out := out + [IntToIP((base + i) % 0x1_0000_0000)];
    }
    return Ok(out);
  }

  /** `n` has the prefix of `base`, and is neither the network nor the broadcast address of a block that has them. */
  predicate Usable(base: uint32, ones: nat, n: int)
    requires ones <= 32
  {
    var size := Pow2(32 - ones);
    0 <= n < 0x1_0000_0000 && n / size == base / size &&
    (ones < 31 ==> n % size != 0 && n % size != size - 1)
  }

  lemma {:induction false} BlockFits(base: uint32, ones: nat)
    requires ones <= 32 && base % Pow2(32 - ones) == 0
    ensures base + Pow2(32 - ones) <= 0x1_0000_0000
  {
    OctetPowers();
    Pow2Add(32 - ones, ones);
    MultipleFits(base, Pow2(32 - ones), Pow2(ones));
  }

  /** The offsets from a block start that give usable addresses are exactly those Hosts runs through. */
  lemma {:induction false} OffsetsAreUsable(base: uint32, ones: nat, n: int)
    requires ones <= 32 && base % Pow2(32 - ones) == 0
    ensures Usable(base, ones, n) <==> base + Start(ones) <= n < base + End(ones)
  {
    var size := Pow2(32 - ones);
    BlockFits(base, ones);
    DivMod(base, size);
    DivMod(n, size);
    if base <= n < base + size {
      ModUnique(n, size, base / size, n - base);
    }
  }

  /** `hosts` is what Hosts returns for a base address and a prefix length. */
  ghost predicate HostsOf(base: Addr4, ones: nat, hosts: seq<Addr4>) {
    && ones <= 32 && |hosts| == End(ones) - Start(ones)
    && forall i | 0 <= i < |hosts| :: hosts[i] == IntToIP((BinaryIP(base) + Start(ones) + i) % 0x1_0000_0000)
  }

  lemma {:induction false} NoWrap(base: Addr4, ones: nat, hosts: seq<Addr4>)
    requires HostsOf(base, ones, hosts) && BinaryIP(base) % Pow2(32 - ones) == 0
    ensures forall i | 0 <= i < |hosts| :: BinaryIP(hosts[i]) == BinaryIP(base) + Start(ones) + i
  {
    var first := BinaryIP(base) + Start(ones);
    BlockFits(BinaryIP(base), ones);
    forall i | 0 <= i < |hosts| ensures BinaryIP(hosts[i]) == first + i {
      WrapFree(first + i);
    }
  }

  lemma {:induction false} WrapFree(n: nat)
    requires n < 0x1_0000_0000
    ensures BinaryIP(IntToIP(n % 0x1_0000_0000)) == n
  {
    BinaryOfIntToIP(n);
  }

  lemma {:induction false} InRun(hosts: seq<Addr4>, first: nat, a: Addr4)
    requires forall i | 0 <= i < |hosts| :: BinaryIP(hosts[i]) == first + i
    ensures a in hosts <==> first <= BinaryIP(a) < first + |hosts|
  {
    if first <= BinaryIP(a) < first + |hosts| {
      BinaryIPInjective(a, hosts[BinaryIP(a) - first]);
    }
  }

  /** Hosts enumerates the block: for a base as Detect stores it and any prefix length whose size passes the cap,
      the sum never wraps, the hosts come in strictly ascending order, and they are exactly the usable addresses. */
  lemma {:induction false} HostsEnumerateBlock(base: Addr4, ones: nat, hosts: seq<Addr4>)
    requires HostsOf(base, ones, hosts) && BinaryIP(base) % Pow2(32 - ones) == 0
    ensures forall i | 0 <= i < |hosts| :: BinaryIP(hosts[i]) == BinaryIP(base) + Start(ones) + i
    ensures forall i, j | 0 <= i < j < |hosts| :: BinaryIP(hosts[i]) < BinaryIP(hosts[j])
    ensures forall a: Addr4 :: a in hosts <==> Usable(BinaryIP(base), ones, BinaryIP(a))
  {
    NoWrap(base, ones, hosts);
    forall a: Addr4 ensures a in hosts <==> Usable(BinaryIP(base), ones, BinaryIP(a)) {
      InRun(hosts, BinaryIP(base) + Start(ones), a);
      OffsetsAreUsable(BinaryIP(base), ones, BinaryIP(a));
    }
  }

  /** Detect's own address is in the block that Hosts enumerates around it. */
  lemma {:induction false} DetectThenHosts(ip: Addr4, ones: nat)
    requires ones <= 32
    ensures BinaryIP(Masked(ip, ones)) % Pow2(32 - ones) == 0
    ensures BinaryIP(Masked(ip, ones)) / Pow2(32 - ones) == BinaryIP(ip) / Pow2(32 - ones)
  {
    MaskedIsBlockStart(ip, ones);
    var n, size := BinaryIP(ip), Pow2(32 - ones);
    DivMod(n, size);
    ModUnique(n - n % size, size, n / size, 0);
  }
}
