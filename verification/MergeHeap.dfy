/** pipeline.go with its slices on the heap: mergeDevice updates a map in place and copies every backing
    array it keeps, so the map never shares memory with the methods that produced the devices. */
module MergeHeap {
  import opened Common
  import opened Addr
  import opened Device
  import opened Merge
  import opened Pipeline

  datatype HSys = HSys(scalars: Scalars, neighbors: array<Neighbor>, interfaces: array<IfaceCounters>)

  /** A Go slice is its backing array; nil is an array of length 0. */
  datatype HDevice = HDevice(
    ip: array<byte>, mac: array<byte>, vendor: string, hostname: string, status: string, kind: string, sys: HSys)

  ghost function SysValue(s: HSys): SysInfo
    reads s.neighbors, s.interfaces
  {
    SysInfo(s.scalars, s.neighbors[..], s.interfaces[..])
  }

  ghost function Value(d: HDevice): Device
    reads d.ip, d.mac, d.sys.neighbors, d.sys.interfaces
  {
    Device(d.ip[..], d.mac[..], d.vendor, d.hostname, d.status, d.kind, SysValue(d.sys))
  }

  /** The arrays reachable from a device. */
  function Refs(d: HDevice): set<object> {
    {d.ip as object, d.mac as object, d.sys.neighbors as object, d.sys.interfaces as object}
  }

  method FillBlanks(d: HDevice) returns (out: HDevice)
    ensures Value(out) == WithDefaults(Value(d)) && Refs(out) == Refs(d)
    ensures out.ip == d.ip && out.mac == d.mac && out.sys == d.sys
  {
    out := d;
    if d.status == "" {
      out := out.(status := STATUS_UP);
    }
    if d.kind == "" {
      out := out.(kind := TYPE_UNKNOWN);
    }
  }

  /** Array `a` belongs to the row stored under `key`. */
  ghost predicate Owns(owner: map<object, IP>, key: IP, a: object) {
    a in owner && owner[a] == key
  }

  ghost predicate Held(row: HDevice, key: IP, owner: map<object, IP>) {
    Owns(owner, key, row.ip) && Owns(owner, key, row.mac)
    && Owns(owner, key, row.sys.neighbors) && Owns(owner, key, row.sys.interfaces)
  }

  /** append([]T(nil), in...) */
  method Clone<T>(a: array<T>) returns (b: array<T>)
    ensures b[..] == a[..] && fresh(b)
  {
    b := new T[a.Length](i requires 0 <= i < a.Length reads a => a[i]);
    assert b[..] == a[..];
  }

  method NewSlice<T>(s: seq<T>) returns (b: array<T>)
    ensures b[..] == s && fresh(b)
  {
    b := new T[|s|](i requires 0 <= i < |s| => s[i]);
    assert b[..] == s;
  }

  /** cloneDevice, with the canonical address put in place as mergeDevice does for a new row. */
  method CloneDevice(d: HDevice, ip: seq<byte>) returns (out: HDevice)
    ensures fresh(Refs(out)) && out.ip != out.mac
    ensures Value(out) == Value(d).(ip := ip)
  {
    var mac := Clone(d.mac);
    var neighbors := Clone(d.sys.neighbors);
    var interfaces := Clone(d.sys.interfaces);
    var address := NewSlice(ip);
    out := d.(ip := address, mac := mac, sys := HSys(d.sys.scalars, neighbors, interfaces));
  }

  /** The SysInfo part of mergeDevice. */
  method MergeSysInPlace(e: HSys, d: HSys) returns (out: HSys)
    ensures SysValue(out) == MergeSys(SysValue(e), SysValue(d))
    ensures out.neighbors == e.neighbors || fresh(out.neighbors)
    ensures out.interfaces == e.interfaces || fresh(out.interfaces)
  {
    out := e;
    var eEmpty := e.scalars == NO_SCALARS && e.neighbors.Length == 0 && e.interfaces.Length == 0;
    var dEmpty := d.scalars == NO_SCALARS && d.neighbors.Length == 0 && d.interfaces.Length == 0;
    if eEmpty && !dEmpty {
      var neighbors := Clone(d.neighbors);
      var interfaces := Clone(d.interfaces);
      out := HSys(d.scalars, neighbors, interfaces);
    } else {
      if e.neighbors.Length == 0 && d.neighbors.Length > 0 {
        var neighbors := Clone(d.neighbors);
        out := out.(neighbors := neighbors);
      }
      if e.interfaces.Length == 0 && d.interfaces.Length > 0 {
        var interfaces := Clone(d.interfaces);
        out := out.(interfaces := interfaces);
      }
    }
  }

  /** The string fields of mergeDevice. */
  method MergeText(e: HDevice, d: HDevice) returns (row: HDevice)
    ensures row == e.(vendor := MergeVendor(e.vendor, d.vendor), kind := MergeKind(e.kind, d.kind),
                      hostname := if e.hostname == "" then d.hostname else e.hostname,
                      status := MergeStatus(e.status, d.status))
  {
    row := e;
    if d.vendor != "" && !VendorUnset(d.vendor) && VendorUnset(row.vendor) {
      row := row.(vendor := d.vendor);
    }
    if row.kind == "" && d.kind != "" {
      row := row.(kind := d.kind);
    } else if row.kind == TYPE_UNKNOWN && d.kind == TYPE_NETWORK {
      row := row.(kind := d.kind);
    }
    if row.hostname == "" && d.hostname != "" {
      row := row.(hostname := d.hostname);
    }
    if row.status == "" && d.status != "" {
      row := row.(status := d.status);
    } else if d.status == STATUS_UP {
      row := row.(status := STATUS_UP);
    }
  }

  /** What mergeDevice does to an existing row `e`, which Go holds as a copy of the struct. */
  method MergeRowInPlace(e: HDevice, d: HDevice) returns (row: HDevice)
    ensures Value(row) == MergeRow(Value(e), Value(d))
    ensures row.ip == e.ip && (row.mac == e.mac || fresh(row.mac))
    ensures row.sys.neighbors == e.sys.neighbors || fresh(row.sys.neighbors)
    ensures row.sys.interfaces == e.sys.interfaces || fresh(row.sys.interfaces)
  {
    var mac := e.mac;
    if e.mac.Length == 0 && d.mac.Length > 0 {
      mac := Clone(d.mac);
    }
    row := MergeText(e, d);
    var sys := MergeSysInPlace(e.sys, d.sys);
    row := row.(mac := mac, sys := sys);
  }

  /** No two rows of the map share an array: each array has one owner. */
  ghost predicate AllHeld(merged: map<IP, HDevice>, owner: map<object, IP>) {
    forall key | key in merged :: Held(merged[key], key, owner)
  }

  ghost function Claim(owner: map<object, IP>, row: HDevice, key: IP): map<object, IP> {
    owner[row.ip := key][row.mac := key][row.sys.neighbors := key][row.sys.interfaces := key]
  }

  /** None of the row's arrays belongs to another row. */
  ghost predicate Free(owner: map<object, IP>, row: HDevice, key: IP) {
    && (row.ip in owner ==> owner[row.ip] == key) && (row.mac in owner ==> owner[row.mac] == key)
    && (row.sys.neighbors in owner ==> owner[row.sys.neighbors] == key)
    && (row.sys.interfaces in owner ==> owner[row.sys.interfaces] == key)
  }

  lemma {:induction false} ClaimKeeps(merged: map<IP, HDevice>, owner: map<object, IP>, key: IP, row: HDevice)
    requires AllHeld(merged, owner) && Free(owner, row, key)
    ensures AllHeld(merged[key := row], Claim(owner, row, key))
  {
    forall a: object, k | k != key && Owns(owner, k, a) ensures Owns(Claim(owner, row, key), k, a) {
    }
  }

  /** `rows` is the contents of `merged`, read from the arrays the rows own. */
  ghost predicate AllValued(merged: map<IP, HDevice>, rows: Table, owner: map<object, IP>)
    requires AllHeld(merged, owner)
    reads owner.Keys
  {
    merged.Keys == rows.Keys && forall key | key in merged :: HeldValue(merged[key], key, owner) == rows[key]
  }

  ghost function HeldValue(row: HDevice, key: IP, owner: map<object, IP>): Device
    requires Held(row, key, owner)
    reads owner.Keys
  {
    Value(row)
  }

  /** The device that toSlice makes of the row under `key`. */
  ghost predicate IsOutput(d: HDevice, key: IP, rows: Table, owner: map<object, IP>)
    reads owner.Keys
  {
    && key in rows && Held(d, key, owner)
    && HeldValue(d, key, owner) == WithDefaults(rows[key]) && BlanksFilled(HeldValue(d, key, owner), rows[key])
  }

  ghost predicate AreOutputs(out: seq<HDevice>, order: seq<IP>, rows: Table, owner: map<object, IP>)
    reads owner.Keys
  {
    |out| == |order| && forall i | 0 <= i < |out| :: IsOutput(out[i], order[i], rows, owner)
  }

  /** toSlice has put out every row but those under the keys in `rest`. */
  ghost predicate OutputBut(rest: set<IP>, out: seq<HDevice>, order: seq<IP>, rows: Table, owner: map<object, IP>)
    reads owner.Keys
  {
    rest <= rows.Keys && Enumerates(order, rows.Keys - rest) && AreOutputs(out, order, rows, owner)
  }

  lemma {:induction false} OutputOneMore(
    rest: set<IP>, out: seq<HDevice>, order: seq<IP>, rows: Table, owner: map<object, IP>, d: HDevice, key: IP)
    requires OutputBut(rest, out, order, rows, owner) && key in rest && IsOutput(d, key, rows, owner)
    ensures OutputBut(rest - {key}, out + [d], order + [key], rows, owner)
  {
    EnumeratesExtend(order, rows.Keys - rest, key);
    assert rows.Keys - rest + {key} == rows.Keys - (rest - {key});
  }

  lemma {:induction false} ValuesPut(
    merged: map<IP, HDevice>, rows: Table, owner: map<object, IP>, key: IP, row: HDevice, value: Device)
    requires AllHeld(merged, owner) && AllValued(merged, rows, owner) && Value(row) == value
    requires AllHeld(merged[key := row], Claim(owner, row, key))
    ensures AllValued(merged[key := row], rows[key := value], Claim(owner, row, key))
  {
    var merged', rows' := merged[key := row], rows[key := value];
    forall k | k in merged' ensures HeldValue(merged'[k], k, Claim(owner, row, key)) == rows'[k] {
      if k != key {
        assert HeldValue(merged[k], k, owner) == rows[k];
      }
    }
  }

  /** The `merged` map of Run. `rows` is its contents as a value; `owner` tells which row each array the map
      holds belongs to. */
  class Merger {
    var merged: map<IP, HDevice>
    ghost var rows: Table
    ghost var owner: map<object, IP>

    ghost predicate Valid()
      reads this, owner.Keys
    {
      this !in owner && AllHeld(merged, owner) && AllValued(merged, rows, owner)
    }

    constructor ()
      ensures Valid() && owner == map[] && rows == map[]
    {
      merged, rows, owner := map[], map[], map[];
    }

    /** Replace or add one row whose arrays are the old row's or new. */
    method Put(key: IP, row: HDevice, ghost value: Device)
      requires Valid() && Value(row) == value && Free(owner, row, key)
      modifies this
      ensures Valid() && rows == old(rows)[key := value]
      ensures forall a | a in owner :: a in old(owner) || a in Refs(row)
    {
      ClaimKeeps(merged, owner, key, row);
      ValuesPut(merged, rows, owner, key, row, value);
      merged, rows, owner := merged[key := row], rows[key := value], Claim(owner, row, key);
    }

    /** mergeDevice at an address already seen. */
    method Update(key: IP, d: HDevice)
      requires Valid() && key in merged
      modifies this
      ensures Valid() && forall a | a in owner :: a in old(owner) || fresh(a)
      ensures rows == old(rows[key := MergeRow(rows[key], Value(d))])
    {
      assert HeldValue(merged[key], key, owner) == rows[key];
      var row := MergeRowInPlace(merged[key], d);
      assert Held(merged[key], key, owner);
      assert forall a | a in Refs(row) :: a in owner || fresh(a);
      Put(key, row, MergeRow(rows[key], Value(d)));
    }

    /** mergeDevice. Whatever memory `d` lives in, the map keeps only arrays it had before or allocates here. */
    method MergeDevice(d: HDevice)
      requires Valid()
      modifies this
      ensures Valid() && forall a | a in owner :: a in old(owner) || fresh(a)
      ensures rows == MergeOne(old(rows), old(Value(d)))
    {
      var ip := d.ip[..];
      var ip4 := To4(ip);
      var key := if ip4.Some? then ip4.value else ip;
      if |key| > 0 {
        if key !in merged {
          var row := CloneDevice(d, key);
          Put(key, row, Value(d).(ip := key));
        } else {
          Update(key, d);
        }
      }
    }

    /** One row of toSlice. */
    method Output(key: IP) returns (d: HDevice)
      requires Valid() && key in merged
      ensures IsOutput(d, key, rows, owner)
    {
      assert HeldValue(merged[key], key, owner) == rows[key];
      d := FillBlanks(merged[key]);
      DefaultsFillBlanks(rows[key]);
    }

    /** toSlice, ranging over the map in an arbitrary `order`. */
    method ToSlice() returns (out: seq<HDevice>, ghost order: seq<IP>)
      requires Valid()
      ensures Enumerates(order, rows.Keys) && AreOutputs(out, order, rows, owner)
    {
      out, order := [], [];
      var rest := merged.Keys;
      while rest != {}
        invariant OutputBut(rest, out, order, rows, owner)
        decreases |rest|
      {
        var key :| key in rest;
        var d := Output(key);
        OutputOneMore(rest, out, order, rows, owner, d, key);
        out, order, rest := out + [d], order + [key], rest - {key};
      }
    }
  }

  // ---- Run ----

  datatype HOutcome = HHits(devs: seq<HDevice>) | HSoftError(err: string) | HHardError(err: string)
  datatype HStage = HStage(cancelledBefore: bool, outcome: HOutcome)

  function DevRefs(devs: seq<HDevice>): set<object> {
    set i, o | 0 <= i < |devs| && o in Refs(devs[i]) :: o
  }

  ghost predicate DevsAre(devs: seq<HDevice>, values: seq<Device>)
    reads DevRefs(devs)
  {
    |devs| == |values| && forall i | 0 <= i < |devs| ::
      assert forall o | o in Refs(devs[i]) :: o in DevRefs(devs);
      Value(devs[i]) == values[i]
  }

  function StageRefs(h: HStage): set<object> {
    if h.outcome.HHits? then DevRefs(h.outcome.devs) else {}
  }

  /** The heap stage `h` has the value `s`. */
  ghost predicate StageIs(h: HStage, s: Stage)
    reads StageRefs(h)
  {
    h.cancelledBefore == s.cancelledBefore &&
    match h.outcome
    case HHits(devs) => s.outcome.Hits? && DevsAre(devs, s.outcome.devs)
    case HSoftError(err) => s.outcome == SoftError(err)
    case HHardError(err) => s.outcome == HardError(err)
  }

  method MergeDevices(mg: Merger, devs: seq<HDevice>, ghost values: seq<Device>)
    requires mg.Valid() && DevsAre(devs, values) && mg !in DevRefs(devs)
    modifies mg
    ensures mg.Valid() && forall a | a in mg.owner :: a in old(mg.owner) || fresh(a)
    ensures mg.rows == MergeAll(old(mg.rows), values)
  {
    for k := 0 to |devs|
      invariant mg.Valid() && forall a | a in mg.owner :: a in old(mg.owner) || fresh(a)
      invariant DevsAre(devs, values)
      invariant MergeAll(old(mg.rows), values) == MergeAll(mg.rows, values[k..])
    {
      mg.MergeDevice(devs[k]);
    }
  }

  lemma {:induction false} OutputOwned(d: HDevice, key: IP, mg: Merger)
    requires IsOutput(d, key, mg.rows, mg.owner)
    ensures key in mg.rows && Value(d) == WithDefaults(mg.rows[key]) && forall a | a in Refs(d) :: a in mg.owner
  {
  }

  lemma {:induction false} HeldApart(d: HDevice, k: IP, e: HDevice, l: IP, owner: map<object, IP>)
    requires Held(d, k, owner) && Held(e, l, owner) && k != l
    ensures Refs(d) !! Refs(e)
  {
  }

  /** Where Run's loop stands before stage n. */
  ghost predicate LoopAt(ss: seq<Stage>, n: nat, first: Table, rows: Table, warned: seq<nat>)
    requires n <= |ss|
  {
    && MergeAll(first, Considered(ss)) == MergeAll(rows, Considered(ss[n..]))
    && RunError(ss) == RunError(ss[n..])
    && Warned(ss, 0) == warned + Warned(ss[n..], n)
  }

  lemma {:induction false} LoopStarts(ss: seq<Stage>, rows: Table)
    ensures LoopAt(ss, 0, rows, rows, [])
  {
    assert ss[0..] == ss;
  }

  lemma {:induction false} LoopSoft(ss: seq<Stage>, n: nat, first: Table, rows: Table, warned: seq<nat>)
    requires n < |ss| && LoopAt(ss, n, first, rows, warned)
    requires !ss[n].cancelledBefore && ss[n].outcome.SoftError?
    ensures LoopAt(ss, n + 1, first, rows, warned + [n])
  {
    assert ss[n..][1..] == ss[n + 1..];
    AppendOne(warned, n, Warned(ss[n + 1..], n + 1));
  }

  lemma {:induction false} LoopHits(ss: seq<Stage>, n: nat, first: Table, rows: Table, warned: seq<nat>)
    requires n < |ss| && LoopAt(ss, n, first, rows, warned)
    requires !ss[n].cancelledBefore && ss[n].outcome.Hits?
    ensures LoopAt(ss, n + 1, first, MergeAll(rows, ss[n].outcome.devs), warned)
  {
    assert ss[n..][1..] == ss[n + 1..];
    MergeAllAppend(rows, ss[n].outcome.devs, Considered(ss[n + 1..]));
  }

  lemma {:induction false} LoopEnds(ss: seq<Stage>, n: nat, first: Table, rows: Table, warned: seq<nat>)
    requires n <= |ss| && LoopAt(ss, n, first, rows, warned)
    requires n == |ss| || ss[n].cancelledBefore || ss[n].outcome.HardError?
    ensures rows == MergeAll(first, Considered(ss)) && warned == Warned(ss, 0)
    ensures RunError(ss) == if n == |ss| || ss[n].cancelledBefore then None else Some(ss[n].outcome.err)
  {
    assert warned + [] == warned;
  }

  /** The loop over the methods, stopping at cancellation and at a hard failure. */
  method RunStages(mg: Merger, stages: seq<HStage>, ghost ss: seq<Stage>)
    returns (err: Option<string>, warned: seq<nat>)
    requires mg.Valid() && |stages| == |ss|
    requires forall i | 0 <= i < |ss| :: StageIs(stages[i], ss[i]) && mg !in StageRefs(stages[i])
    modifies mg
    ensures mg.Valid() && forall a | a in mg.owner :: a in old(mg.owner) || fresh(a)
    ensures mg.rows == MergeAll(old(mg.rows), Considered(ss)) && err == RunError(ss) && warned == Warned(ss, 0)
  {
    err, warned := None, [];
    ghost var first := mg.rows;
    LoopStarts(ss, first);
    for n := 0 to |stages|
      invariant mg.Valid() && forall a | a in mg.owner :: a in old(mg.owner) || fresh(a)
      invariant forall i | 0 <= i < |ss| :: StageIs(stages[i], ss[i])
      invariant err == None && LoopAt(ss, n, first, mg.rows, warned)
    {
      if stages[n].cancelledBefore {
        LoopEnds(ss, n, first, mg.rows, warned);
        return;
      }
      match stages[n].outcome {
        case HSoftError(_) =>
          LoopSoft(ss, n, first, mg.rows, warned);
          warned := warned + [n];
        case HHardError(e) =>
          LoopEnds(ss, n, first, mg.rows, warned);
          return Some(e), warned;
        case HHits(devs) =>
          LoopHits(ss, n, first, mg.rows, warned);
          MergeDevices(mg, devs, ss[n].outcome.devs);
      }
    }
    LoopEnds(ss, |ss|, first, mg.rows, warned);
  }

  /** `d` is the row that the devices `ds` come to at address `key`, with its blanks filled. */
  ghost predicate IsRow(d: HDevice, key: IP, ds: seq<Device>)
    reads d.ip, d.mac, d.sys.neighbors, d.sys.interfaces
  {
    var m := MergeAll(map[], ds);
    key in m && Value(d) == WithDefaults(m[key]) && Filled(Value(d), m[key], At(ds, key))
  }

  lemma {:induction false} OutputIsRow(d: HDevice, key: IP, mg: Merger, ds: seq<Device>)
    requires IsOutput(d, key, mg.rows, mg.owner) && mg.rows == MergeAll(map[], ds)
    ensures IsRow(d, key, ds)
  {
    FoldMeetsSpec(ds);
    InSpec(ds, key);
    RowFilled(At(ds, key));
  }

  /** toSlice once the devices `ds` have been merged. */
  method Collect(mg: Merger, ghost ds: seq<Device>) returns (out: seq<HDevice>, ghost order: seq<IP>)
    requires mg.Valid() && mg.rows == MergeAll(map[], ds)
    ensures Enumerates(order, mg.rows.Keys) && |out| == |order|
    ensures forall i | 0 <= i < |out| :: IsRow(out[i], order[i], ds)
    ensures forall i | 0 <= i < |out| :: Refs(out[i]) <= mg.owner.Keys
    ensures forall i, j | 0 <= i < j < |out| :: Refs(out[i]) !! Refs(out[j])
  {
    out, order := mg.ToSlice();
    forall i | 0 <= i < |out| ensures IsRow(out[i], order[i], ds) && Refs(out[i]) <= mg.owner.Keys {
      OutputOwned(out[i], order[i], mg);
      OutputIsRow(out[i], order[i], mg, ds);
    }
    forall i, j | 0 <= i < j < |out| ensures Refs(out[i]) !! Refs(out[j]) {
      HeldApart(out[i], order[i], out[j], order[j], mg.owner);
    }
  }

  /** Run. `ss` is the value of `stages` when it starts; `order` is the map order toSlice happened to use. */
  method Run(stages: seq<HStage>, ghost ss: seq<Stage>)
    returns (out: seq<HDevice>, err: Option<string>, warned: seq<nat>, ghost order: seq<IP>)
    requires |stages| == |ss| && forall i | 0 <= i < |ss| :: StageIs(stages[i], ss[i])
    ensures err == RunError(ss) && warned == Warned(ss, 0)
    ensures Enumerates(order, MergeAll(map[], Considered(ss)).Keys) && |out| == |order|
    ensures forall i | 0 <= i < |out| :: IsRow(out[i], order[i], Considered(ss))
    ensures forall i | 0 <= i < |out| :: fresh(Refs(out[i]))
    ensures forall i, j | 0 <= i < j < |out| :: Refs(out[i]) !! Refs(out[j])
  {
    var mg := new Merger();
    err, warned := RunStages(mg, stages, ss);
    out, order := Collect(mg, Considered(ss));
    assert forall a | a in mg.owner.Keys :: fresh(a);
    forall i | 0 <= i < |out| ensures fresh(Refs(out[i])) {
      assert Refs(out[i]) <= mg.owner.Keys;
    }
  }

  /** A method that later writes into any array it still holds cannot change the merged rows: such an array is
      not one the map owns, because MergeDevice only ever adds arrays it allocates itself. */
  method MutateOutside<T>(mg: Merger, a: array<T>, i: nat, v: T)
    requires mg.Valid() && a !in mg.owner && i < a.Length
    modifies a
    ensures mg.Valid() && mg.merged == old(mg.merged) && mg.rows == old(mg.rows)
  {
    a[i] := v;
    forall key | key in mg.merged ensures HeldValue(mg.merged[key], key, mg.owner) == mg.rows[key] {
      assert old(HeldValue(mg.merged[key], key, mg.owner)) == mg.rows[key];
    }
  }

  /** Merging a stage's devices and then writing into an array of one of them, as its method may, leaves the rows
      that the merge made: after merging, the map owns none of the stage's arrays. */
  method MergeThenMutate<T>(mg: Merger, devs: seq<HDevice>, ghost values: seq<Device>, a: array<T>, i: nat, v: T)
    requires mg.Valid() && DevsAre(devs, values) && mg !in DevRefs(devs)
    requires forall o | o in DevRefs(devs) :: o !in mg.owner
    requires a in DevRefs(devs) && i < a.Length
    modifies mg, a
    ensures mg.Valid() && mg.rows == MergeAll(old(mg.rows), values)
    ensures forall o | o in DevRefs(devs) :: o !in mg.owner
  {
    MergeDevices(mg, devs, values);
    MutateOutside(mg, a, i, v);
  }

  /** Writing into an array of any stage after Run changes nothing in the rows it returned. */
  method RunThenMutate<T>(stages: seq<HStage>, ghost ss: seq<Stage>, a: array<T>, i: nat, v: T)
    returns (out: seq<HDevice>, ghost order: seq<IP>)
    requires |stages| == |ss| && forall i | 0 <= i < |ss| :: StageIs(stages[i], ss[i])
    requires (exists n :: 0 <= n < |stages| && a in StageRefs(stages[n])) && i < a.Length
    modifies a
    ensures Enumerates(order, MergeAll(map[], Considered(ss)).Keys) && |out| == |order|
    ensures forall i | 0 <= i < |out| :: IsRow(out[i], order[i], Considered(ss))
  {
    var err, warned;
    out, err, warned, order := Run(stages, ss);
    assert forall k | 0 <= k < |out| :: a !in Refs(out[k]);
    a[i] := v;
  }
}
