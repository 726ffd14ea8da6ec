/** Laws of the merge: absorption, nothing is lost, and exactly when grouping does not matter. */
module MergeLaws {
  import opened Addr
  import opened Device
  import opened Merge

  /** Merging a device the row already contains changes nothing. */
  lemma {:induction false} RowAbsorbs(seen: seq<Device>, d: Device)
    requires d in seen
    ensures MergeRow(RowOf(seen), d) == RowOf(seen)
  {
    FirstIsFirst(seen, HasMac);
    FirstIsFirst(seen, HasVendor);
    FirstIsFirst(seen, HasHostname);
    KindAbsorbs(seen, d);
    StatusAbsorbs(seen, d);
    SysAbsorbs(seen, d);
  }

  lemma {:induction false} KindAbsorbs(seen: seq<Device>, d: Device)
    requires d in seen
    ensures MergeKind(KindOf(seen), d.kind) == KindOf(seen)
  {
    FirstIsFirst(seen, HasKind);
    FirstIsFirst(seen, IsNetwork);
  }

  lemma {:induction false} StatusAbsorbs(seen: seq<Device>, d: Device)
    requires d in seen
    ensures MergeStatus(StatusOf(seen), d.status) == StatusOf(seen)
  {
    FirstIsFirst(seen, HasStatus);
    FirstIsFirst(seen, IsUp);
  }

  lemma {:induction false} SysAbsorbs(seen: seq<Device>, d: Device)
    requires d in seen
    ensures MergeSys(SysOf(seen), d.sys) == SysOf(seen)
  {
    FirstIsFirst(seen, HasSys);
    FirstIsFirst(seen, HasNeighbors);
    FirstIsFirst(seen, HasInterfaces);
  }

  /** Absorption: after any sequence of devices, merging one of them again leaves the whole map as it is. */
  lemma {:induction false} Absorption(ds: seq<Device>, d: Device)
    requires d in ds
    ensures MergeOne(MergeAll(map[], ds), d) == MergeAll(map[], ds)
  {
    var m, key := MergeAll(map[], ds), Canonical(d.ip);
    FoldRow(ds, key);
    AtMembers(ds, key);
    if |key| > 0 {
      RowAbsorbs(At(ds, key), d);
      assert m[key := m[key]] == m;
    }
  }

  /** `after` keeps every field that `before` has filled, and raises Status and Type only where the code says so. */
  ghost predicate Keeps(before: Device, after: Device) {
    && after.ip == before.ip
    && (before.mac != [] ==> after.mac == before.mac)
    && (!VendorUnset(before.vendor) ==> after.vendor == before.vendor)
    && (before.hostname != "" ==> after.hostname == before.hostname)
    && (before.status != "" ==> after.status == before.status || after.status == STATUS_UP)
    && (before.kind != "" ==> after.kind == before.kind || (before.kind == TYPE_UNKNOWN && after.kind == TYPE_NETWORK))
    && (!before.sys.Empty() ==> after.sys.scalars == before.sys.scalars)
    && (before.sys.neighbors != [] ==> after.sys.neighbors == before.sys.neighbors)
    && (before.sys.interfaces != [] ==> after.sys.interfaces == before.sys.interfaces)
  }

  lemma {:induction false} KeepsTransitive(a: Device, b: Device, c: Device)
    requires Keeps(a, b) && Keeps(b, c)
    ensures Keeps(a, c)
  {
  }

  /** No merge, and so no run of merges, empties a filled field or removes a row. */
  lemma {:induction false} NothingIsLost(m: Table, ds: seq<Device>, key: IP)
    requires key in m
    ensures key in MergeAll(m, ds) && Keeps(m[key], MergeAll(m, ds)[key])
    decreases |ds|
  {
    if ds == [] {
    } else {
      var next := MergeOne(m, ds[0]);
      assert Keeps(m[key], next[key]);
      NothingIsLost(next, ds[1..], key);
      KeepsTransitive(m[key], next[key], MergeAll(m, ds)[key]);
    }
  }

  /** Merging is not associative: in Type the grouping decides whether a Network sighting raises Unknown. */
  lemma {:induction false} TypeIsNotAssociative()
    ensures MergeKind(MergeKind("Unknown", "End device"), "Network device") == "Network device"
    ensures MergeKind("Unknown", MergeKind("End device", "Network device")) == "Unknown"
  {
  }

  /** The sightings whose grouping matters: an Unknown row, then some other definite type, then Network. */
  predicate GroupingMatters(a: Device, b: Device, c: Device) {
    a.kind == TYPE_UNKNOWN && c.kind == TYPE_NETWORK && b.kind != "" && b.kind != TYPE_UNKNOWN && b.kind != TYPE_NETWORK
  }

  lemma {:induction false} SysAssociative(a: SysInfo, b: SysInfo, c: SysInfo)
    ensures MergeSys(MergeSys(a, b), c) == MergeSys(a, MergeSys(b, c))
  {
  }

  lemma {:induction false} VendorAssociative(a: string, b: string, c: string)
    ensures MergeVendor(MergeVendor(a, b), c) == MergeVendor(a, MergeVendor(b, c))
  {
  }

  /** Merging rows left to right equals merging them right to left exactly outside that family. */
  lemma {:induction false} AssociativeIff(a: Device, b: Device, c: Device)
    ensures MergeRow(MergeRow(a, b), c) == MergeRow(a, MergeRow(b, c)) <==> !GroupingMatters(a, b, c)
  {
    SysAssociative(a.sys, b.sys, c.sys);
    VendorAssociative(a.vendor, b.vendor, c.vendor);
  }
}
