/** device.go: the record of one host. */
module Device {
  import opened Common
  import opened Addr
  import opened Text

  const STATUS_UP := "up"
  const TYPE_NETWORK := "Network device"
  const TYPE_END := "End device"
  const TYPE_UNKNOWN := "Unknown"

  datatype Neighbor = Neighbor(localPort: string, remoteName: string, remotePort: string, remoteID: string)

  datatype IfaceCounters = IfaceCounters(
    name: string, admin: string, oper: string,
    inPackets: uint64, outPackets: uint64, inBytes: uint64, outBytes: uint64,
    inDrops: uint64, outDrops: uint64, inErrors: uint64, outErrors: uint64)

  /** The single-valued fields of SysInfo. */
  datatype Scalars = Scalars(
    user: string, hostname: string, model: string, version: string, uptime: string,
    family: string, cpu: string, memory: string, temp: string)

  const NO_SCALARS := Scalars("", "", "", "", "", "", "", "", "")

  datatype SysInfo = SysInfo(scalars: Scalars, neighbors: seq<Neighbor>, interfaces: seq<IfaceCounters>) {
    predicate Empty() {
      scalars == NO_SCALARS && |neighbors| == 0 && |interfaces| == 0
    }
  }

  const NO_SYSINFO := SysInfo(NO_SCALARS, [], [])

  /** `kind` is the Go field Type. A nil slice and an empty one are not told apart: the code only looks at len. */
  datatype Device = Device(
    ip: IP, mac: seq<byte>, vendor: string, hostname: string, status: string, kind: string, sys: SysInfo)

  predicate VendorUnset(v: string) {
    var t := TrimSpace(Lower(v));
    t == "" || t == "unknown" || t == "randomized mac"
  }

  lemma {:induction false} LowerKeepsSpaces(s: string)
    ensures Spaces(s) ==> Spaces(Lower(s))
    ensures Trimmed(s) ==> Trimmed(Lower(s))
  {
    forall i | 0 <= i < |s| ensures IsSpace(Lower(s)[i]) <==> IsSpace(s[i]) {
      LowerAt(s, i);
    }
  }

  /** A vendor counts as unset exactly when, in any case and with any space around it, it is blank or one of the
      two placeholders. */
  lemma {:induction false} VendorUnsetIff(l: string, v: string, r: string)
    requires Spaces(l) && Spaces(r) && Trimmed(v)
    ensures VendorUnset(l + v + r) <==> v == "" || Lower(v) == "unknown" || Lower(v) == "randomized mac"
  {
    LowerConcat(l + v, r);
    LowerConcat(l, v);
    LowerKeepsSpaces(l);
    LowerKeepsSpaces(v);
    LowerKeepsSpaces(r);
    TrimIs(Lower(l), Lower(v), Lower(r));
  }

  /** The merge key. net.IP.String is injective on canonical addresses, so the bytes stand for the text. */
  function Canonical(ip: IP): IP {
    match To4(ip)
    case Some(a) => a
    case None => ip
  }
}
