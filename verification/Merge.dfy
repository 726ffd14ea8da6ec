/** pipeline.go on values: the merge step, its left fold, and the declarative meaning of the fold. */
module Merge {
  import opened Common
  import opened Addr
  import opened Device

  type Table = map<IP, Device>

  // ---- the merge step, branch for branch ----

  function MergeSys(e: SysInfo, d: SysInfo): SysInfo {
    if e.Empty() && !d.Empty() then d
    else SysInfo(e.scalars,
                 if |e.neighbors| == 0 && |d.neighbors| > 0 then d.neighbors else e.neighbors,
                 if |e.interfaces| == 0 && |d.interfaces| > 0 then d.interfaces else e.interfaces)
  }

  function MergeVendor(e: string, d: string): string {
    if d != "" && !VendorUnset(d) && VendorUnset(e) then d else e
  }

  function MergeKind(e: string, d: string): string {
    if e == "" && d != "" then d
    else if e == TYPE_UNKNOWN && d == TYPE_NETWORK then d else e
  }

  function MergeStatus(e: string, d: string): string {
    if e == "" && d != "" then d
    else if d == STATUS_UP then STATUS_UP else e
  }

  /** What mergeDevice makes of an existing row. */
  function MergeRow(e: Device, d: Device): Device {
    Device(
      e.ip,
      if |e.mac| == 0 && |d.mac| > 0 then d.mac else e.mac,
      MergeVendor(e.vendor, d.vendor),
      if e.hostname == "" && d.hostname != "" then d.hostname else e.hostname,
      MergeStatus(e.status, d.status), MergeKind(e.kind, d.kind),
      MergeSys(e.sys, d.sys))
  }

  /** mergeDevice */
  function MergeOne(m: Table, d: Device): Table {
    var key := Canonical(d.ip);
    if |key| == 0 then m
    else if key !in m then m[key := d.(ip := key)]
    else m[key := MergeRow(m[key], d)]
  }

  /** The blanks that toSlice fills in. */
  function WithDefaults(d: Device): Device {
    d.(status := if d.status == "" then STATUS_UP else d.status, kind := if d.kind == "" then TYPE_UNKNOWN else d.kind)
  }

  /** `row` is `seen` with a blank Status made "up", a blank Type made "Unknown", and nothing else changed. */
  ghost predicate BlanksFilled(row: Device, seen: Device) {
    && row.status != "" && row.kind != ""
    && (if seen.status == "" then row.status == "up" else row.status == seen.status)
    && (if seen.kind == "" then row.kind == "Unknown" else row.kind == seen.kind)
    && row.(status := seen.status, kind := seen.kind) == seen
  }

  lemma {:induction false} DefaultsFillBlanks(d: Device)
    ensures BlanksFilled(WithDefaults(d), d)
  {
  }

  /** SysInfo's single-valued fields come all from one device: whoever fills an empty SysInfo, with whatever part of
      it, decides them for good. */
  lemma {:induction false} ScalarsSetOnce(e: SysInfo, d: SysInfo)
    ensures MergeSys(e, d).scalars == if e == NO_SYSINFO then d.scalars else e.scalars
  {
  }

  /** The two nested loops of Run over everything a run hands to mergeDevice. */
  function MergeAll(m: Table, ds: seq<Device>): Table
    decreases |ds|
  {
    if ds == [] then m else MergeAll(MergeOne(m, ds[0]), ds[1..])
  }

  lemma {:induction false} MergeAllAppend(m: Table, ds: seq<Device>, es: seq<Device>)
    ensures MergeAll(m, ds + es) == MergeAll(MergeAll(m, ds), es)
    decreases |ds|
  {
    if ds == [] {
      assert ds + es == es;
    } else {
      assert (ds + es)[0] == ds[0] && (ds + es)[1..] == ds[1..] + es;
      MergeAllAppend(MergeOne(m, ds[0]), ds[1..], es);
    }
  }

  // ---- what a row means, without reference to the fold ----

  function First(ds: seq<Device>, p: Device -> bool): (r: Option<Device>)
    ensures r.Some? ==> p(r.value)
  {
    if ds == [] then None
    else if p(ds[0]) then Some(ds[0])
    else First(ds[1..], p)
  }

  /** First is the first member satisfying p, and None when there is none. */
  lemma {:induction false} FirstIsFirst(ds: seq<Device>, p: Device -> bool)
    ensures First(ds, p).None? <==> forall i | 0 <= i < |ds| :: !p(ds[i])
    ensures First(ds, p).Some? ==>
              exists i | 0 <= i < |ds| :: ds[i] == First(ds, p).value && p(ds[i]) && forall k | 0 <= k < i :: !p(ds[k])
  {
    if ds != [] && !p(ds[0]) {
      var rest := ds[1..];
      FirstIsFirst(rest, p);
      assert forall i | 0 < i < |ds| :: ds[i] == rest[i - 1];
      if First(rest, p).Some? {
        var i :| 0 <= i < |rest| && rest[i] == First(rest, p).value && p(rest[i])
                 && forall k | 0 <= k < i :: !p(rest[k]);
        assert forall k | 0 <= k < i + 1 :: !p(ds[k]);
        assert ds[i + 1] == First(ds, p).value;
      } else {
        assert forall i | 0 <= i < |ds| :: !p(ds[i]);
      }
    }
  }

  predicate HasMac(d: Device) { d.mac != [] }
  predicate HasVendor(d: Device) { !VendorUnset(d.vendor) }
  predicate HasHostname(d: Device) { d.hostname != "" }
  predicate HasStatus(d: Device) { d.status != "" }
  predicate IsUp(d: Device) { d.status == STATUS_UP }
  predicate HasKind(d: Device) { d.kind != "" }
  predicate IsNetwork(d: Device) { d.kind == TYPE_NETWORK }
  predicate HasSys(d: Device) { !d.sys.Empty() }
  predicate HasNeighbors(d: Device) { d.sys.neighbors != [] }
  predicate HasInterfaces(d: Device) { d.sys.interfaces != [] }

  function VendorOf(ds: seq<Device>): string
    requires ds != []
  {
    match First(ds, HasVendor) case None => ds[0].vendor case Some(d) => d.vendor
  }

  function KindOf(ds: seq<Device>): string {
    match First(ds, HasKind)
    case None => ""
    case Some(d) => if d.kind == TYPE_UNKNOWN && First(ds, IsNetwork).Some? then TYPE_NETWORK else d.kind
  }

  function StatusOf(ds: seq<Device>): string {
    if First(ds, IsUp).Some? then STATUS_UP
    else match First(ds, HasStatus) case None => "" case Some(d) => d.status
  }

  function SysOf(ds: seq<Device>): SysInfo {
    SysInfo(match First(ds, HasSys) case None => NO_SCALARS case Some(d) => d.sys.scalars,
            match First(ds, HasNeighbors) case None => [] case Some(d) => d.sys.neighbors,
            match First(ds, HasInterfaces) case None => [] case Some(d) => d.sys.interfaces)
  }

  /** The row of an address at which the devices `ds` were seen, in that order. */
  function RowOf(ds: seq<Device>): Device
    requires ds != []
  {
    Device(
      Canonical(ds[0].ip),
      match First(ds, HasMac) case None => [] case Some(d) => d.mac,
      VendorOf(ds),
      match First(ds, HasHostname) case None => "" case Some(d) => d.hostname,
      StatusOf(ds), KindOf(ds), SysOf(ds))
  }

  /** `row` is what Run returns for an address whose merged row is `seen`, the devices there being `ds`. */
  ghost predicate Filled(row: Device, seen: Device, ds: seq<Device>) {
    && row.status != "" && row.kind != ""
    && (row.kind == "Unknown" <==> seen.kind == "Unknown" || forall d | d in ds :: d.kind == "")
    && (row.kind != "Unknown" ==> row.kind == seen.kind)
    && row.status == (if forall d | d in ds :: d.status == "" then "up" else seen.status)
    && row.(status := seen.status, kind := seen.kind) == seen
  }

  lemma {:induction false} NoneIn(ds: seq<Device>, p: Device -> bool)
    ensures First(ds, p).None? <==> forall d | d in ds :: !p(d)
  {
    FirstIsFirst(ds, p);
    if First(ds, p).None? {
      forall d | d in ds ensures !p(d) {
        var i :| 0 <= i < |ds| && ds[i] == d;
      }
    }
  }

  /** A filled row has a Status and a Type. The Type is "Unknown" exactly when it was merged so or no device at the
      address has one; the Status is "up" when none of them has one. */
  lemma {:induction false} RowFilled(ds: seq<Device>)
    requires ds != []
    ensures Filled(WithDefaults(RowOf(ds)), RowOf(ds), ds)
  {
    NoneIn(ds, HasKind);
    NoneIn(ds, HasStatus);
    NoneIn(ds, IsUp);
    DefaultsFillBlanks(RowOf(ds));
  }

  /** The devices among `ds` at address `key`, in order. */
  function At(ds: seq<Device>, key: IP): seq<Device> {
    if ds == [] then []
    else (if Canonical(ds[0].ip) == key then [ds[0]] else []) + At(ds[1..], key)
  }

  function Keys(ds: seq<Device>): set<IP> {
    set d | d in ds && |Canonical(d.ip)| > 0 :: Canonical(d.ip)
  }

  lemma {:induction false} AtAppend(ds: seq<Device>, es: seq<Device>, key: IP)
    ensures At(ds + es, key) == At(ds, key) + At(es, key)
  {
    if ds == [] {
      assert ds + es == es;
    } else {
      assert (ds + es)[0] == ds[0] && (ds + es)[1..] == ds[1..] + es;
      AtAppend(ds[1..], es, key);
      AppendAssoc(if Canonical(ds[0].ip) == key then [ds[0]] else [], At(ds[1..], key), At(es, key));
    }
  }

  lemma {:induction false} AtMembers(ds: seq<Device>, key: IP)
    ensures forall d :: d in At(ds, key) <==> d in ds && Canonical(d.ip) == key
  {
    if ds == [] {
    } else {
      AtMembers(ds[1..], key);
      assert ds == [ds[0]] + ds[1..];
    }
  }

  /** The declarative specification: one row per address seen. */
  function Spec(ds: seq<Device>): Table {
    map key | key in Keys(ds) && At(ds, key) != [] :: RowOf(At(ds, key))
  }

  lemma {:induction false} FirstSnoc(ds: seq<Device>, d: Device, p: Device -> bool)
    ensures First(ds + [d], p) == if First(ds, p).Some? then First(ds, p) else if p(d) then Some(d) else None
  {
    if ds == [] {
      assert ds + [d] == [d];
    } else {
      assert (ds + [d])[0] == ds[0] && (ds + [d])[1..] == ds[1..] + [d];
      FirstSnoc(ds[1..], d, p);
    }
  }

  /** The first sighting is copied. */
  lemma {:induction false} RowOfOne(d: Device)
    ensures RowOf([d]) == d.(ip := Canonical(d.ip))
  {
    var none: seq<Device> := [];
    assert none + [d] == [d];
    FirstSnoc(none, d, HasMac);
    FirstSnoc(none, d, HasHostname);
    SysOfSnoc(none, d);
    KindOfSnoc(none, d);
    StatusOfSnoc(none, d);
    FirstSnoc(none, d, HasVendor);
  }

  lemma {:induction false} SysOfSnoc(ds: seq<Device>, d: Device)
    ensures SysOf(ds + [d]) == MergeSys(SysOf(ds), d.sys)
  {
    FirstSnoc(ds, d, HasSys);
    FirstSnoc(ds, d, HasNeighbors);
    FirstSnoc(ds, d, HasInterfaces);
    FirstIsFirst(ds, HasSys);
    FirstIsFirst(ds, HasNeighbors);
    FirstIsFirst(ds, HasInterfaces);
  }

  lemma {:induction false} VendorOfSnoc(ds: seq<Device>, d: Device)
    requires ds != []
    ensures VendorOf(ds + [d]) == MergeVendor(VendorOf(ds), d.vendor)
  {
    FirstSnoc(ds, d, HasVendor);
    FirstIsFirst(ds, HasVendor);
    assert (ds + [d])[0] == ds[0];
  }

  lemma {:induction false} KindOfSnoc(ds: seq<Device>, d: Device)
    ensures KindOf(ds + [d]) == MergeKind(KindOf(ds), d.kind)
  {
    FirstSnoc(ds, d, HasKind);
    FirstSnoc(ds, d, IsNetwork);
    FirstIsFirst(ds, HasKind);
    FirstIsFirst(ds, IsNetwork);
  }

  lemma {:induction false} StatusOfSnoc(ds: seq<Device>, d: Device)
    ensures StatusOf(ds + [d]) == MergeStatus(StatusOf(ds), d.status)
  {
    FirstSnoc(ds, d, HasStatus);
    FirstSnoc(ds, d, IsUp);
  }

  /** Every later sighting does to the row what the merge step does. */
  lemma {:induction false} RowOfSnoc(ds: seq<Device>, d: Device)
    requires ds != []
    ensures RowOf(ds + [d]) == MergeRow(RowOf(ds), d)
  {
    VendorOfSnoc(ds, d);
    KindOfSnoc(ds, d);
    StatusOfSnoc(ds, d);
    SysOfSnoc(ds, d);
    FirstSnoc(ds, d, HasMac);
    FirstSnoc(ds, d, HasHostname);
  }

  lemma {:induction false} InSpec(ds: seq<Device>, key: IP)
    ensures key in Spec(ds) <==> |key| > 0 && At(ds, key) != []
    ensures key in Spec(ds) ==> At(ds, key) != [] && Spec(ds)[key] == RowOf(At(ds, key))
  {
    AtMembers(ds, key);
    if At(ds, key) != [] {
      assert At(ds, key)[0] in At(ds, key);
    }
  }

  function Lookup(m: Table, k: IP): Option<Device> {
    if k in m then Some(m[k]) else None
  }

  lemma {:induction false} SameTable(m: Table, n: Table)
    requires forall k :: Lookup(m, k) == Lookup(n, k)
    ensures m == n
  {
    assert forall k :: k in m <==> Lookup(m, k).Some?;
    assert forall k :: k in n <==> Lookup(n, k).Some?;
  }

  /** `row` is what the devices `seen` at address k come to. */
  ghost predicate RowIs(seen: seq<Device>, k: IP, row: Option<Device>) {
    if |k| == 0 || seen == [] then row.None? else row == Some(RowOf(seen))
  }

  lemma {:induction false} RowIsSnoc(seen: seq<Device>, d: Device, m: Table)
    requires RowIs(seen, Canonical(d.ip), Lookup(m, Canonical(d.ip)))
    ensures RowIs(seen + [d], Canonical(d.ip), Lookup(MergeOne(m, d), Canonical(d.ip)))
  {
    if seen == [] {
      assert seen + [d] == [d];
      RowOfOne(d);
    } else {
      RowOfSnoc(seen, d);
    }
  }

  /** A merge touches no row but the device's own. */
  lemma {:induction false} OtherRows(d: Device, m: Table, k: IP)
    requires k != Canonical(d.ip)
    ensures Lookup(MergeOne(m, d), k) == Lookup(m, k)
  {
  }

  lemma {:induction false} RowStep(seen: seq<Device>, d: Device, m: Table, k: IP, seen': seq<Device>, m': Table)
    requires RowIs(seen, k, Lookup(m, k)) && m' == MergeOne(m, d)
    requires seen' == seen + if k == Canonical(d.ip) then [d] else []
    ensures RowIs(seen', k, Lookup(m', k))
  {
    if k == Canonical(d.ip) {
      RowIsSnoc(seen, d, m);
    } else {
      OtherRows(d, m, k);
      assert seen + [] == seen;
    }
  }

  lemma {:induction false} FoldSnoc(ds: seq<Device>, d: Device, k: IP)
    ensures MergeAll(map[], ds + [d]) == MergeOne(MergeAll(map[], ds), d)
    ensures At(ds + [d], k) == At(ds, k) + if k == Canonical(d.ip) then [d] else []
  {
    MergeAllAppend(map[], ds, [d]);
    AtAppend(ds, [d], k);
  }

  lemma {:induction false} FoldRow(ds: seq<Device>, k: IP)
    ensures RowIs(At(ds, k), k, Lookup(MergeAll(map[], ds), k))
    decreases |ds|
  {
    if ds == [] {
    } else {
      var init, d := ds[..|ds| - 1], ds[|ds| - 1];
      FoldRow(init, k);
      assert ds == init + [d];
      FoldSnoc(init, d, k);
      RowStep(At(init, k), d, MergeAll(map[], init), k, At(ds, k), MergeAll(map[], ds));
    }
  }

  /** The left fold of the merge step means what the specification says, for every sequence of devices. */
  lemma {:induction false} FoldMeetsSpec(ds: seq<Device>)
    ensures MergeAll(map[], ds) == Spec(ds)
  {
    forall k ensures Lookup(MergeAll(map[], ds), k) == Lookup(Spec(ds), k) {
      FoldRow(ds, k);
      InSpec(ds, k);
    }
    SameTable(MergeAll(map[], ds), Spec(ds));
  }
}
