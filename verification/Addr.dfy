/** IPv4 addresses as the repository handles them: byte slices, their 32-bit value, and the row order. */
module Addr {
  import opened Common

  /** Go's net.IP: a byte slice of any length. */
  type IP = seq<byte>

  /** A 4-byte IPv4 address, which is what To4 returns when it does not return nil. */
  type Addr4 = a: seq<byte> | |a| == 4 witness [0, 0, 0, 0]

  type uint32 = n: int | 0 <= n < 0x1_0000_0000

  /** net.IP.To4: 4-byte slices are kept, IPv4-mapped 16-byte slices are shortened, the rest is nil. */
  function To4(ip: IP): Option<Addr4> {
    if |ip| == 4 then Some(ip)
    else if |ip| == 16 && (forall i :: 0 <= i < 10 ==> ip[i] == 0) && ip[10] == 0xff && ip[11] == 0xff
    then Some(ip[12..])
    else None
  }

  predicate IsIPv4(ip: IP) {
    To4(ip).Some?
  }

  /** What stands before the four octets of an IPv4-mapped address, section 2.5.5.2 of RFC 4291. */
  const MAPPED: seq<byte> := [0, 0, 0, 0, 0, 0, 0, 0, 0, 0, 0xff, 0xff]

  /** An address has the IPv4 form k exactly when it is k itself or k mapped into IPv6. */
  lemma {:induction false} To4Iff(ip: IP, k: Addr4)
    ensures To4(ip) == Some(k) <==> ip == k || ip == MAPPED + k
  {
    if |ip| == 16 {
      assert ip == ip[..12] + ip[12..];
      if To4(ip).Some? {
        assert ip[..12] == MAPPED;
      }
    }
  }

  /** binaryIP: the shifted bytes occupy disjoint bits, so the disjunction is a sum. */
  function BinaryIP(a: Addr4): uint32 {
    var (b0: int, b1: int, b2: int, b3: int) := (a[0], a[1], a[2], a[3]);
    b0 * 0x100_0000 + b1 * 0x1_0000 + b2 * 0x100 + b3
  }

  /** intToIP */
  function IntToIP(n: uint32): Addr4 {
    [n / 0x100_0000, n / 0x1_0000 % 0x100, n / 0x100 % 0x100, n % 0x100]
  }

  lemma {:induction false} IntToIPOfBinary(a: Addr4)
    ensures IntToIP(BinaryIP(a)) == a
  {
    var n := BinaryIP(a);
    var b0: int, b1: int, b2: int := a[0], a[1], a[2];
    assert n / 0x100 == b0 * 0x1_0000 + b1 * 0x100 + b2;
    assert n / 0x1_0000 == b0 * 0x100 + b1;
    assert n / 0x100_0000 == b0;
    assert IntToIP(n)[0] == a[0] && IntToIP(n)[1] == a[1] && IntToIP(n)[2] == a[2] && IntToIP(n)[3] == a[3];
  }

  lemma {:induction false} BinaryOfIntToIP(n: uint32)
    ensures BinaryIP(IntToIP(n)) == n
  {
    assert n / 0x100 == n / 0x1_0000 * 0x100 + n / 0x100 % 0x100;
    assert n / 0x1_0000 == n / 0x100_0000 * 0x100 + n / 0x1_0000 % 0x100;
  }

  /** binaryIP is a bijection between 4-byte addresses and 32-bit numbers. */
  lemma {:induction false} BinaryIPInjective(a: Addr4, b: Addr4)
    requires BinaryIP(a) == BinaryIP(b)
    ensures a == b
  {
    IntToIPOfBinary(a);
    IntToIPOfBinary(b);
  }

  /** ipLess restricted to IPv4 rows. */
  method IpLess(a: Addr4, b: Addr4) returns (less: bool)
    ensures less <==> BinaryIP(a) < BinaryIP(b)
  {
    for i := 0 to 4
      invariant forall k :: 0 <= k < i ==> a[k] == b[k]
    {
      if a[i] != b[i] {
        return a[i] < b[i];
      }
    }
    return false;
  }
}
