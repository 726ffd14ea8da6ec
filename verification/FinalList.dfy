/** main.go after the pipeline: reverse-DNS names, ensureSelf, and the sort. The printed list depends only on
    what the stages found, not on any order in which they or a Go map listed it. */
module FinalList {
  import opened Common
  import opened Addr
  import opened Device
  import opened Merge
  import opened Pipeline

  /** The scanning host: its address, hardware address, name ("" when unknown), and the OUI table's answer for
      the hardware address with the device type inferred from it. */
  datatype Self = Self(ip: Addr4, mac: seq<byte>, hostname: string, vendor: string, kind: string)

  /** enrichSelf on a row whose MAC is the host's own. */
  function EnrichSelf(d: Device, self: Self): Device {
    d.(vendor := self.vendor, kind := self.kind, status := if d.status == "" then STATUS_UP else d.status)
  }

  /** What ensureSelf does to the host's own row. */
  function FillSelf(d: Device, self: Self): Device {
    var e := if d.mac == [] && self.mac != [] then EnrichSelf(d.(mac := self.mac), self) else d;
    if e.hostname == "" && self.hostname != "" then e.(hostname := self.hostname) else e
  }

  function NewSelf(self: Self): Device {
    EnrichSelf(Device(self.ip, self.mac, "", "", STATUS_UP, "", NO_SYSINFO), self).(hostname := self.hostname)
  }

  /** ensureSelf on the rows taken as a map. */
  function WithSelf(m: Table, self: Self): Table {
    m[self.ip := if self.ip in m then FillSelf(m[self.ip], self) else NewSelf(self)]
  }

  /** enrich.Hostnames: `dns` holds the addresses that resolved; their name replaces the row's. */
  function WithNames(m: Table, dns: map<IP, string>): Table {
    map key | key in m :: if key in dns then m[key].(hostname := dns[key]) else m[key]
  }

  /** toSlice on the rows taken as a map. */
  function Defaulted(m: Table): Table {
    map key | key in m :: WithDefaults(m[key])
  }

  /** The rows main prints, as a map: the stages' devices merged, blanks filled, named, with the host itself. */
  function FinalRows(stages: seq<Stage>, dns: map<IP, string>, self: Self): Table {
    WithSelf(WithNames(Defaulted(MergeAll(map[], Considered(stages))), dns), self)
  }

  // ---- what the printed rows hold, without the functions above ----

  /** `r` is the host's own row when it was `was` before ensureSelf: a missing MAC comes with its vendor and type, a
      name is filled only where there is none, and a host that no stage saw gets a row of its own. */
  ghost predicate SelfRow(r: Device, was: Option<Device>, self: Self) {
    match was
    case None => r == Device(self.ip, self.mac, self.vendor, self.hostname, "up", self.kind, NO_SYSINFO)
    case Some(d) =>
      && r.ip == d.ip && r.sys == d.sys && r.hostname == (if d.hostname != "" then d.hostname else self.hostname)
      && if d.mac != [] || self.mac == []
         then r.mac == d.mac && r.vendor == d.vendor && r.kind == d.kind && r.status == d.status
         else r.mac == self.mac && r.vendor == self.vendor && r.kind == self.kind
              && r.status == if d.status == "" then "up" else d.status
  }

  lemma {:induction false} OnlySelfChanges(m: Table, self: Self)
    ensures WithSelf(m, self).Keys == m.Keys + {self.ip}
    ensures SelfRow(WithSelf(m, self)[self.ip], Lookup(m, self.ip), self)
    ensures forall key | key in m && key != self.ip :: WithSelf(m, self)[key] == m[key]
  {
  }

  /** `r` is the row of an address at which the devices `ds` were seen: their merged row with its blanks filled,
      under the name the resolver gave, if it gave one. */
  ghost predicate NamedRow(r: Device, ds: seq<Device>, key: IP, dns: map<IP, string>)
    requires ds != []
  {
    var seen := Merge.RowOf(ds);
    && Filled(r.(hostname := seen.hostname), seen, ds)
    && r.hostname == if key in dns then dns[key] else seen.hostname
  }

  lemma {:induction false} NamesAreGiven(ds: seq<Device>, key: IP, dns: map<IP, string>)
    requires key in MergeAll(map[], ds)
    ensures At(ds, key) != [] && NamedRow(WithNames(Defaulted(MergeAll(map[], ds)), dns)[key], At(ds, key), key, dns)
  {
    FoldMeetsSpec(ds);
    InSpec(ds, key);
    RowFilled(At(ds, key));
  }

  lemma {:induction false} HasNamedRow(ds: seq<Device>, dns: map<IP, string>, key: IP)
    ensures key in WithNames(Defaulted(MergeAll(map[], ds)), dns) <==> |key| > 0 && At(ds, key) != []
  {
    FoldMeetsSpec(ds);
    InSpec(ds, key);
  }

  /** Which rows main prints and what each holds: one for every address a considered device has and one for the
      host itself. */
  lemma {:induction false} FinalRowMeans(stages: seq<Stage>, dns: map<IP, string>, self: Self, key: IP)
    ensures var rows, ds := FinalRows(stages, dns, self), At(Considered(stages), key);
            && (key in rows <==> key == self.ip || (|key| > 0 && ds != []))
            && (key != self.ip && key in rows ==> NamedRow(rows[key], ds, key, dns))
            && (key == self.ip && ds == [] ==> SelfRow(rows[key], None, self))
            && (key == self.ip && ds != [] ==>
                  exists d :: NamedRow(d, ds, key, dns) && SelfRow(rows[key], Some(d), self))
  {
    var ds := Considered(stages);
    var m := WithNames(Defaulted(MergeAll(map[], ds)), dns);
    HasNamedRow(ds, dns, key);
    OnlySelfChanges(m, self);
    if key in m {
      NamesAreGiven(ds, key, dns);
      assert Lookup(m, key) == Some(m[key]);
    }
  }

  /** `list` holds the rows of `m`, each once, in some order. */
  ghost predicate Lists(list: seq<Device>, m: Table) {
    && (forall i | 0 <= i < |list| :: list[i].ip in m && list[i] == m[list[i].ip])
    && (forall i, j | 0 <= i < j < |list| :: list[i].ip != list[j].ip)
    && (forall key | key in m :: exists i :: 0 <= i < |list| && list[i].ip == key)
  }

  /** toSlice yields a listing whatever order it ranges over the map in. */
  lemma {:induction false} ToSliceLists(m: Table, order: seq<IP>, list: seq<Device>)
    requires forall key | key in m :: m[key].ip == key
    requires Enumerates(order, m.Keys) && |list| == |order|
    requires forall i | 0 <= i < |list| :: order[i] in m && list[i] == WithDefaults(m[order[i]])
    ensures Lists(list, Defaulted(m))
  {
    forall key | key in m ensures exists i :: 0 <= i < |list| && list[i].ip == key {
      assert key in order;
      var i :| 0 <= i < |order| && order[i] == key;
      assert list[i].ip == key;
    }
  }

  /** Every row of the merge map carries its own key as its address. */
  lemma {:induction false} RowsCarryKeys(m: Table, ds: seq<Device>)
    requires forall key | key in m :: m[key].ip == key
    ensures forall key | key in MergeAll(m, ds) :: MergeAll(m, ds)[key].ip == key
    decreases |ds|
  {
    if ds == [] {
    } else {
      RowsCarryKeys(MergeOne(m, ds[0]), ds[1..]);
    }
  }

  /** enrich.Hostnames, whose lookups may finish in any order: each writes its own slot. */
  method Hostnames(devices: array<Device>, dns: map<IP, string>)
    modifies devices
    ensures forall m | Lists(old(devices[..]), m) :: Lists(devices[..], WithNames(m, dns))
  {
    ghost var was := devices[..];
    for i := 0 to devices.Length
      invariant forall k | 0 <= k < i ::
                  devices[k] == if was[k].ip in dns then was[k].(hostname := dns[was[k].ip]) else was[k]
      invariant forall k | i <= k < devices.Length :: devices[k] == was[k]
    {
      if devices[i].ip in dns {
        devices[i] := devices[i].(hostname := dns[devices[i].ip]);
      }
    }
    forall m | Lists(was, m) ensures Lists(devices[..], WithNames(m, dns)) {
      assert forall k | 0 <= k < |was| :: devices[..][k].ip == was[k].ip;
    }
  }

  /** ensureSelf: edits the host's row in place, or appends a row for it. */
  method EnsureSelf(devices: array<Device>, self: Self) returns (out: array<Device>)
    modifies devices
    ensures forall m | Lists(old(devices[..]), m) :: Lists(out[..], WithSelf(m, self))
    ensures out == devices || fresh(out)
  {
    ghost var was := devices[..];
    for i := 0 to devices.Length
      invariant devices[..] == was
      invariant forall k | 0 <= k < i :: was[k].ip != self.ip
    {
      if devices[i].ip == self.ip {
        if devices[i].mac == [] && self.mac != [] {
          devices[i] := devices[i].(mac := self.mac);
          devices[i] := EnrichSelf(devices[i], self);
        }
        if devices[i].hostname == "" && self.hostname != "" {
          devices[i] := devices[i].(hostname := self.hostname);
        }
        assert devices[..] == was[i := FillSelf(was[i], self)];
        forall m | Lists(was, m) ensures Lists(devices[..], WithSelf(m, self)) {
          SelfFilled(was, m, self, i);
        }
        return devices;
      }
    }
    out := new Device[devices.Length + 1](k requires 0 <= k <= devices.Length reads devices =>
      if k < devices.Length then devices[k] else NewSelf(self));
    assert out[..] == was + [NewSelf(self)];
    forall m | Lists(was, m) ensures Lists(out[..], WithSelf(m, self)) {
      SelfAppended(was, m, self);
    }
  }

  /** Replacing a row by another of the same address. */
  lemma {:induction false} RowReplaced(list: seq<Device>, m: Table, i: nat, r: Device)
    requires Lists(list, m) && i < |list| && list[i].ip == r.ip
    ensures Lists(list[i := r], m[r.ip := r])
  {
    var list' := list[i := r];
    assert forall k | 0 <= k < |list| :: list'[k].ip == list[k].ip;
    forall key | key in m ensures exists k :: 0 <= k < |list'| && list'[k].ip == key {
      var k :| 0 <= k < |list| && list[k].ip == key;
      assert list'[k].ip == key;
    }
  }

  lemma {:induction false} SelfFilled(list: seq<Device>, m: Table, self: Self, i: nat)
    requires Lists(list, m) && i < |list| && list[i].ip == self.ip
    ensures Lists(list[i := FillSelf(list[i], self)], WithSelf(m, self))
  {
    RowReplaced(list, m, i, FillSelf(list[i], self));
  }

  lemma {:induction false} SelfAppended(list: seq<Device>, m: Table, self: Self)
    requires Lists(list, m) && forall k | 0 <= k < |list| :: list[k].ip != self.ip
    ensures Lists(list + [NewSelf(self)], WithSelf(m, self))
  {
    var list' := list + [NewSelf(self)];
    forall key | key in WithSelf(m, self) ensures exists k :: 0 <= k < |list'| && list'[k].ip == key {
      if key == self.ip {
        assert list'[|list|].ip == key;
      } else {
        var k :| 0 <= k < |list| && list[k].ip == key;
        assert list'[k].ip == key;
      }
    }
    assert self.ip !in m;
  }

  /** From toSlice to just before the sort: however the map was ranged over, what is left to sort is a listing
      of FinalRows. */
  method Complete(devices: array<Device>, dns: map<IP, string>, self: Self,
                  ghost stages: seq<Stage>, ghost order: seq<IP>)
    returns (out: array<Device>)
    requires var m := MergeAll(map[], Considered(stages));
             && Enumerates(order, m.Keys) && devices.Length == |order|
             && forall i | 0 <= i < |order| :: order[i] in m && devices[i] == WithDefaults(m[order[i]])
    modifies devices
    ensures Lists(out[..], FinalRows(stages, dns, self))
  {
    ghost var m := MergeAll(map[], Considered(stages));
    RowsCarryKeys(map[], Considered(stages));
    ToSliceLists(m, order, devices[..]);
    Hostnames(devices, dns);
    out := EnsureSelf(devices, self);
  }

  // ---- the sort ----

  ghost predicate AllIPv4(list: seq<Device>) {
    forall i | 0 <= i < |list| :: |list[i].ip| == 4
  }

  function Rank(d: Device): uint32
    requires |d.ip| == 4
  {
    BinaryIP(d.ip)
  }

  /** What sort.Slice promises for ipLess: a permutation in which no later row is less than an earlier one. */
  ghost predicate SortedFrom(list: seq<Device>, sorted: seq<Device>) {
    && multiset(sorted) == multiset(list) && AllIPv4(sorted)
    && forall i, j | 0 <= i < j < |sorted| :: !(Rank(sorted[j]) < Rank(sorted[i]))
  }

  lemma {:induction false} SortedLists(list: seq<Device>, sorted: seq<Device>, m: Table)
    requires Lists(list, m) && SortedFrom(list, sorted)
    ensures Lists(sorted, m)
    ensures forall i, j | 0 <= i < j < |sorted| :: Rank(sorted[i]) < Rank(sorted[j])
  {
    forall i | 0 <= i < |sorted| ensures sorted[i] in list {
      assert sorted[i] in multiset(sorted);
    }
    forall i | 0 <= i < |list| ensures list[i] in sorted {
      assert list[i] in multiset(list);
    }
    OnceEach(list);
    OnceEachBack(sorted, multiset(list));
    forall i, j | 0 <= i < j < |sorted| ensures sorted[i].ip != sorted[j].ip {
      assert sorted[i] != sorted[j];
    }
    forall i, j | 0 <= i < j < |sorted| ensures Rank(sorted[i]) < Rank(sorted[j]) {
      if Rank(sorted[i]) == Rank(sorted[j]) {
        BinaryIPInjective(sorted[i].ip, sorted[j].ip);
      }
    }
    forall key | key in m ensures exists k :: 0 <= k < |sorted| && sorted[k].ip == key {
      var i :| 0 <= i < |list| && list[i].ip == key;
      assert list[i] in sorted;
    }
  }

  lemma {:induction false} OnceEach(list: seq<Device>)
    requires forall i, j | 0 <= i < j < |list| :: list[i].ip != list[j].ip
    ensures forall d :: multiset(list)[d] <= 1
  {
    if list == [] {
    } else {
      assert list == [list[0]] + list[1..];
      OnceEach(list[1..]);
      assert list[0] !in list[1..];
    }
  }

  lemma {:induction false} OnceEachBack(list: seq<Device>, bag: multiset<Device>)
    requires multiset(list) == bag && forall d :: bag[d] <= 1
    ensures NoDup(list)
  {
    if list == [] {
    } else {
      var rest := list[1..];
      assert list == [list[0]] + rest;
      assert bag == multiset{list[0]} + multiset(rest);
      assert bag[list[0]] == 1 + multiset(rest)[list[0]];
      forall d ensures multiset(rest)[d] <= 1 {
        assert bag[d] <= 1;
      }
      OnceEachBack(rest, multiset(rest));
    }
  }

  ghost predicate Ascending(list: seq<Device>) {
    AllIPv4(list) && forall i, j | 0 <= i < j < |list| :: Rank(list[i]) < Rank(list[j])
  }

  lemma {:induction false} HeadsAgree(a: seq<Device>, b: seq<Device>, m: Table)
    requires Lists(a, m) && Lists(b, m) && Ascending(a) && Ascending(b) && a != []
    ensures b != [] && a[0] == b[0]
  {
    assert a[0].ip in m;
    var j :| 0 <= j < |b| && b[j].ip == a[0].ip;
    assert b[0].ip in m;
    var i :| 0 <= i < |a| && a[i].ip == b[0].ip;
    assert Rank(a[0]) <= Rank(a[i]) == Rank(b[0]) <= Rank(b[j]);
    BinaryIPInjective(a[0].ip, b[0].ip);
  }

  lemma {:induction false} AscendingTail(a: seq<Device>)
    requires Ascending(a) && a != []
    ensures Ascending(a[1..])
  {
  }

  lemma {:induction false} TailLists(a: seq<Device>, m: Table)
    requires Lists(a, m) && a != []
    ensures Lists(a[1..], m - {a[0].ip})
  {
    forall key | key in m - {a[0].ip} ensures exists i :: 0 <= i < |a[1..]| && a[1..][i].ip == key {
      var i :| 0 <= i < |a| && a[i].ip == key;
      assert a[1..][i - 1].ip == key;
    }
  }

  /** A strictly ascending listing of a set of IPv4 rows is unique. */
  lemma {:induction false} AscendingUnique(a: seq<Device>, b: seq<Device>, m: Table)
    requires Lists(a, m) && Lists(b, m) && Ascending(a) && Ascending(b)
    ensures a == b
    decreases |a|, 1
  {
    if a == [] {
      if b != [] {
        HeadsAgree(b, a, m);
      }
    } else {
      HeadsAgree(a, b, m);
      TailLists(a, m);
      TailLists(b, m);
      AscendingTail(a);
      AscendingTail(b);
      UniqueTails(a, b, m - {a[0].ip});
    }
  }

  lemma {:induction false} UniqueTails(a: seq<Device>, b: seq<Device>, m: Table)
    requires a != [] && b != [] && a[0] == b[0]
    requires Lists(a[1..], m) && Lists(b[1..], m) && Ascending(a[1..]) && Ascending(b[1..])
    ensures a == b
    decreases |a|, 0
  {
    AscendingUnique(a[1..], b[1..], m);
    ConsEqual(a, b);
  }

  /** `printed` is a list main may print for these stages: some listing that Complete leaves, sorted. */
  ghost predicate MayPrint(stages: seq<Stage>, dns: map<IP, string>, self: Self, printed: seq<Device>) {
    RunError(stages).None? && exists list :: Lists(list, FinalRows(stages, dns, self)) && SortedFrom(list, printed)
  }

  /** The printed list is deterministic: whatever order the stages list their devices in, whatever order toSlice
      ranges over the map in, and whatever permutation the unstable sort starts from, the same rows come out in
      the same order, by strictly ascending numeric address. */
  lemma {:induction false} PrintedListUnique(
    ss: seq<Stage>, ts: seq<Stage>, dns: map<IP, string>, self: Self, p: seq<Device>, q: seq<Device>)
    requires StagesReordered(ss, ts)
    requires MayPrint(ss, dns, self, p) && MayPrint(ts, dns, self, q)
    ensures p == q && Ascending(p) && Lists(p, FinalRows(ss, dns, self))
  {
    OrderIrrelevant(ss, ts);
    var m := FinalRows(ss, dns, self);
    var list :| Lists(list, m) && SortedFrom(list, p);
    var list' :| Lists(list', m) && SortedFrom(list', q);
    SortedLists(list, p, m);
    SortedLists(list', q, m);
    AscendingUnique(p, q, m);
  }
}
