/** ifaces.go: the Cisco parser, with the counters of each interface updated in place. */
module Cisco {
  import opened Common
  import opened Arith
  import opened Text
  import opened Device
  import opened IfaceText
  import opened CiscoText
  import opened CiscoTable

  /** An IfaceCounters the parser holds a pointer to. */
  class Counters {
    const name: string
    var admin: string
    var oper: string
    var inPackets: uint64
    var outPackets: uint64
    var inBytes: uint64
    var outBytes: uint64
    var inDrops: uint64
    var outDrops: uint64
    var inErrors: uint64
    var outErrors: uint64

    function Value(): IfaceCounters
      reads this
    {
      IfaceCounters(name, admin, oper, inPackets, outPackets, inBytes, outBytes, inDrops, outDrops, inErrors, outErrors)
    }

    constructor (id: string)
      ensures name == id && Value() == NoCounters(id)
    {
      name := id;
      admin, oper := "", "";
      inPackets, outPackets, inBytes, outBytes := 0, 0, 0, 0;
      inDrops, outDrops, inErrors, outErrors := 0, 0, 0, 0;
    }
  }

  // ---- applyCiscoRow ----

  lemma {:induction false} AddAssoc(a: uint64, b: uint64, c: uint64)
    ensures Add64(a, Add64(b, c)) == Add64(Add64(a, b), c)
  {
    ModAddMultiple(a + (b + c) % TWO_TO_THE_64, TWO_TO_THE_64, (b + c) / TWO_TO_THE_64);
    ModAddMultiple((a + b) % TWO_TO_THE_64 + c, TWO_TO_THE_64, (a + b) / TWO_TO_THE_64);
    DivMod(b + c, TWO_TO_THE_64);
    DivMod(a + b, TWO_TO_THE_64);
  }

  /** One more cell. */
  lemma {:induction false} CellSnoc(cells: seq<Cell>, x: Cell, col: Column, none: uint64)
    ensures Sum(cells + [x], col) == if x.col == col then Add64(Sum(cells, col), x.value) else Sum(cells, col)
    ensures Last(cells + [x], col, none) == if x.col == col then x.value else Last(cells, col, none)
  {
    assert (cells + [x])[..|cells|] == cells;
    if x.col == col {
      assert [x][..0] == [];
      SumAppend(cells, [x], col);
      assert Total([x], col) == x.value;
    }
  }

  /** The state of applyCiscoRow: packets are still in sums of their own. */
  datatype RowState = RowState(c: IfaceCounters, inPkts: uint64, outPkts: uint64)

  function StateAfter(was: IfaceCounters, cells: seq<Cell>): RowState {
    RowState(
      was.(inBytes := Last(cells, InOctets, was.inBytes),
           outBytes := Last(cells, OutOctets, was.outBytes),
           outDrops := Last(cells, OutDiscards, was.outDrops),
           inErrors := Add64(was.inErrors, Sum(cells, InErr)),
           outErrors := Add64(was.outErrors, Sum(cells, OutErr))),
      Sum(cells, InPkts), Sum(cells, OutPkts))
  }

  /** What the switch does with one numeric cell. */
  function CellApplied(s: RowState, x: Cell): RowState {
    match x.col
    case InOctets => s.(c := s.c.(inBytes := x.value))
    case OutOctets => s.(c := s.c.(outBytes := x.value))
    case InPkts => s.(inPkts := Add64(s.inPkts, x.value))
    case OutPkts => s.(outPkts := Add64(s.outPkts, x.value))
    case OutDiscards => s.(c := s.c.(outDrops := x.value))
    case InErr => s.(c := s.c.(inErrors := Add64(s.c.inErrors, x.value)))
    case OutErr => s.(c := s.c.(outErrors := Add64(s.c.outErrors, x.value)))
    case Other => s
  }

  lemma {:induction false} StateAfterNext(was: IfaceCounters, cells: seq<Cell>, x: Cell)
    ensures StateAfter(was, cells + [x]) == CellApplied(StateAfter(was, cells), x)
  {
    CellSnoc(cells, x, InPkts, 0);
    CellSnoc(cells, x, OutPkts, 0);
    CellSnoc(cells, x, InErr, 0);
    CellSnoc(cells, x, OutErr, 0);
    CellSnoc(cells, x, InOctets, was.inBytes);
    CellSnoc(cells, x, OutOctets, was.outBytes);
    CellSnoc(cells, x, OutDiscards, was.outDrops);
    AddAssoc(was.inErrors, Sum(cells, InErr), x.value);
    AddAssoc(was.outErrors, Sum(cells, OutErr), x.value);
  }

  lemma {:induction false} StateAtStart(was: IfaceCounters)
    ensures StateAfter(was, []) == RowState(was, 0, 0)
  {
  }

  lemma {:induction false} StateAtEnd(was: IfaceCounters, cells: seq<Cell>, s: RowState)
    requires s == StateAfter(was, cells)
    ensures Applied(was, cells) ==
              s.c.(inPackets := if s.inPkts > 0 then s.inPkts else s.c.inPackets,
                   outPackets := if s.outPkts > 0 then s.outPkts else s.c.outPackets)
  {
  }

  /** The switch on the column heading. */
  method ApplyCell(c: Counters, col: string, v: uint64, inPkts: uint64, outPkts: uint64)
    returns (inPkts': uint64, outPkts': uint64)
    modifies c
    ensures RowState(c.Value(), inPkts', outPkts') ==
              CellApplied(RowState(old(c.Value()), inPkts, outPkts), Cell(Classify(col), v))
  {
    inPkts', outPkts' := inPkts, outPkts;
    if col == "inoctets" {
      c.inBytes := v;
    } else if col == "outoctets" {
      c.outBytes := v;
    } else if col == "inucastpkts" || col == "inmcastpkts" || col == "inbcastpkts" {
      inPkts' := Add64(inPkts, v);
    } else if col == "outucastpkts" || col == "outmcastpkts" || col == "outbcastpkts" {
      outPkts' := Add64(outPkts, v);
    } else if col == "outdiscards" {
      c.outDrops := v;
    } else if col == "fcs-err" || col == "align-err" || col == "rcv-err" {
      c.inErrors := Add64(c.inErrors, v);
    } else if col == "xmit-err" {
      c.outErrors := Add64(c.outErrors, v);
    }
  }

  lemma {:induction false} CellsNext(cols: seq<string>, fields: seq<string>, i: nat)
    requires 1 <= i < |cols| && i < |fields|
    ensures var p, before := ParseUint(fields[i]), CellsTo(cols, fields, i);
            CellsTo(cols, fields, i + 1) == if p.ok then before + [Cell(Classify(cols[i]), p.value)] else before
  {
  }

  /** The loop's body: a field that is a number is applied, any other is passed over. */
  method ApplyField(c: Counters, col: string, field: string, inPkts: uint64, outPkts: uint64)
    returns (inPkts': uint64, outPkts': uint64)
    modifies c
    ensures var s, s' := RowState(old(c.Value()), inPkts, outPkts), RowState(c.Value(), inPkts', outPkts');
            var p := ParseUint(field);
            s' == if p.ok then CellApplied(s, Cell(Classify(col), p.value)) else s
  {
    inPkts', outPkts' := inPkts, outPkts;
    var p := ParseUint(field);
    if p.ok {
      inPkts', outPkts' := ApplyCell(c, col, p.value, inPkts, outPkts);
    }
  }

  lemma {:induction false} FieldNext(was: IfaceCounters, cols: seq<string>, fields: seq<string>, i: nat)
    requires 1 <= i < |cols| && i < |fields|
    ensures var p, s := ParseUint(fields[i]), StateAfter(was, CellsTo(cols, fields, i));
            StateAfter(was, CellsTo(cols, fields, i + 1)) ==
              if p.ok then CellApplied(s, Cell(Classify(cols[i]), p.value)) else s
  {
    CellsNext(cols, fields, i);
    var p := ParseUint(fields[i]);
    if p.ok {
      StateAfterNext(was, CellsTo(cols, fields, i), Cell(Classify(cols[i]), p.value));
    }
  }

  /** The packet sums, where they are not zero. */
  method StorePackets(c: Counters, inPkts: uint64, outPkts: uint64)
    modifies c
    ensures c.Value() == old(c.Value()).(
              inPackets := if inPkts > 0 then inPkts else old(c.inPackets),
              outPackets := if outPkts > 0 then outPkts else old(c.outPackets))
  {
    if inPkts > 0 {
      c.inPackets := inPkts;
    }
    if outPkts > 0 {
      c.outPackets := outPkts;
    }
  }

  /** applyCiscoRow */
  method ApplyCiscoRow(c: Counters, cols: seq<string>, fields: seq<string>)
    modifies c
    ensures c.Value() == Applied(old(c.Value()), Cells(cols, fields))
  {
    var n := |cols|;
    if |fields| < n {
      n := |fields|;
    }
    var inPkts: uint64, outPkts: uint64 := 0, 0;
    ghost var was := c.Value();
    StateAtStart(was);
    var i := 1;
    while i < n
      invariant i <= n || (n <= 1 && i == 1)
      invariant RowState(c.Value(), inPkts, outPkts) == StateAfter(was, CellsTo(cols, fields, if i <= n then i else n))
    {
      FieldNext(was, cols, fields, i);
      inPkts, outPkts := ApplyField(c, cols[i], fields[i], inPkts, outPkts);
      i := i + 1;
    }
    StateAtEnd(was, Cells(cols, fields), RowState(c.Value(), inPkts, outPkts));
    StorePackets(c, inPkts, outPkts);
  }

  // ---- the heading and name tests ----

  method CiscoHeader(fields: seq<string>) returns (header: bool)
    ensures header <==> IsHeader(fields)
  {
    for i := 0 to |fields|
      invariant forall k | 0 <= k < i :: !HeaderWord(Lower(fields[k]))
    {
      var w := Lower(fields[i]);
      if w == "inoctets" || w == "inucastpkts" || w == "outoctets" || w == "outucastpkts"
         || w == "fcs-err" || w == "align-err" || w == "xmit-err" || w == "rcv-err" || w == "outdiscards" {
        return true;
      }
    }
    return false;
  }

  method CiscoPort(s: string) returns (port: bool)
    ensures port <==> IsPort(s)
  {
    if s == "" {
      return false;
    }
    var w := Lower(s);
    if w == "port" || w == "interface" || w == "port-id" {
      return false;
    }
    return 'a' <= s[0] <= 'z' || 'A' <= s[0] <= 'Z';
  }

  method NormalizeCiscoCols(fields: seq<string>) returns (cols: seq<string>)
    ensures cols == LowerAll(fields)
  {
    cols := [];
    for i := 0 to |fields|
      invariant |cols| == i && forall k | 0 <= k < i :: cols[k] == Lower(fields[k])
    {
      cols := cols + [Lower(fields[i])];
    }
  }

  // ---- parseCiscoIfaces ----

  /** The map holds one object, out of `objs`, for each interface of `order`, with the counters of its rows so far. */
  ghost predicate Holds(objs: set<Counters>, byName: map<string, Counters>, order: seq<string>, rows: seq<Row>)
    reads objs
  {
    && (forall n :: n in byName <==> n in order)
    && (forall n | n in byName :: byName[n] in objs && byName[n].name == n && byName[n].Value() == CountersFor(rows, n))
  }

  /** The order after a row of `name`: a new name goes last. */
  function Listed(order: seq<string>, name: string): seq<string> {
    if name in order then order else order + [name]
  }

  method FindOrCreate(ghost objs: set<Counters>, byName: map<string, Counters>, order: seq<string>,
                      ghost rows: seq<Row>, name: string)
    returns (ghost objs': set<Counters>, byName': map<string, Counters>, order': seq<string>)
    requires order == Names(rows) && Holds(objs, byName, order, rows)
    ensures order' == Listed(order, name) && name in byName' && Holds(objs', byName', order', rows)
    ensures objs <= objs' && fresh(objs' - objs)
  {
    objs', byName', order' := objs, byName, order;
    if name !in byName {
      NewInterface(rows, name);
      var created := new Counters(name);
      objs', byName', order' := objs + {created}, byName[name := created], order + [name];
    }
  }

  /** A line that is a row: find or create the interface's counters, then apply the row to them. */
  method Update(ghost objs: set<Counters>, byName: map<string, Counters>, order: seq<string>,
                ghost rows: seq<Row>, name: string, cols: seq<string>, fields: seq<string>)
    returns (ghost objs': set<Counters>, byName': map<string, Counters>, order': seq<string>)
    requires order == Names(rows) && Holds(objs, byName, order, rows)
    modifies objs
    ensures order' == Listed(order, name)
    ensures Holds(objs', byName', order', rows + [Row(name, Cells(cols, fields))])
    ensures objs <= objs' && fresh(objs' - objs)
  {
    objs', byName', order' := FindOrCreate(objs, byName, order, rows, name);
    RowByRow(rows, Row(name, Cells(cols, fields)));
    ApplyCiscoRow(byName'[name], cols, fields);
  }

  /** The parser's state after n lines. */
  ghost predicate ParsedTo(lines: seq<string>, n: nat,
                           objs: set<Counters>, byName: map<string, Counters>, order: seq<string>, cols: Cols)
    requires n <= |lines|
    reads objs
  {
    cols == ColsAfter(lines, n) && order == Names(RowsAfter(lines, n))
    && Holds(objs, byName, order, RowsAfter(lines, n))
  }

  lemma {:induction false} NoRowNext(lines: seq<string>, n: nat)
    requires n < |lines| && RowOf(ColsAfter(lines, n), lines[n]) == None
    ensures RowsAfter(lines, n + 1) == RowsAfter(lines, n)
  {
  }

  lemma {:induction false} RowNext(lines: seq<string>, n: nat, r: Row)
    requires n < |lines| && RowOf(ColsAfter(lines, n), lines[n]) == Some(r)
    ensures RowsAfter(lines, n + 1) == RowsAfter(lines, n) + [r]
    ensures Names(RowsAfter(lines, n + 1)) == Listed(Names(RowsAfter(lines, n)), r.name)
  {
    NamesSnoc(RowsAfter(lines, n), r);
  }

  /** The loop's body. */
  method ParseLine(lines: seq<string>, ghost n: nat, line: string,
                   ghost objs: set<Counters>, byName: map<string, Counters>, order: seq<string>, cols: Cols)
    returns (ghost objs': set<Counters>, byName': map<string, Counters>, order': seq<string>, cols': Cols)
    requires n < |lines| && line == lines[n] && ParsedTo(lines, n, objs, byName, order, cols)
    modifies objs
    ensures ParsedTo(lines, n + 1, objs', byName', order', cols')
    ensures objs <= objs' && fresh(objs' - objs)
  {
    objs', byName', order', cols' := objs, byName, order, cols;
    var fields := Fields(line);
    if |fields| < 2 {
      NoRowNext(lines, n);
      cols' := None;
      return;
    }
    var header := CiscoHeader(fields);
    if header {
      cols' := SetColumns(fields);
      NoRowNext(lines, n);
      return;
    }
    var name := InterfaceOf(cols, fields[0]);
    if name == "" {
      NoRowNext(lines, n);
      return;
    }
    RowNext(lines, n, Row(name, Cells(cols.value, fields)));
    objs', byName', order' := Update(objs, byName, order, RowsAfter(lines, n), name, cols.value, fields);
  }

  /** The interface a line is a row of, or "" when it is none: no columns, no port, or no name. */
  method InterfaceOf(cols: Cols, first: string) returns (name: string)
    ensures name == if cols.None? || !IsPort(first) then "" else PhysicalIfd(first)
  {
    var port := CiscoPort(first);
    if cols == None || !port {
      return "";
    }
    name := PhysicalIfd(first);
  }

  method SetColumns(fields: seq<string>) returns (cols: Cols)
    ensures cols == Some(LowerAll(fields))
  {
    var headings := NormalizeCiscoCols(fields);
    cols := Some(headings);
  }

  method Listing(ghost objs: set<Counters>, byName: map<string, Counters>, order: seq<string>, ghost rows: seq<Row>)
    returns (out: seq<IfaceCounters>)
    requires Holds(objs, byName, order, rows)
    ensures out == TableOf(order, rows)
  {
    out := [];
    for i := 0 to |order|
      invariant |out| == i && forall k | 0 <= k < i :: out[k] == CountersFor(rows, order[k])
    {
      assert order[i] in byName;
      out := out + [byName[order[i]].Value()];
    }
    TableOfAt(order, rows);
  }

  lemma {:induction false} TableOfAt(names: seq<string>, rows: seq<Row>)
    ensures |TableOf(names, rows)| == |names|
    ensures forall k | 0 <= k < |names| :: TableOf(names, rows)[k] == CountersFor(rows, names[k])
  {
    if names == [] {
    } else {
      TableOfAt(names[1..], rows);
    }
  }

  lemma {:induction false} NothingParsed(lines: seq<string>)
    ensures ParsedTo(lines, 0, {}, map[], [], None)
  {
  }

  /** parseCiscoIfaces: the table it returns is the one the rows denote. */
  method ParseCiscoIfaces(s: string) returns (out: seq<IfaceCounters>)
    ensures out == CiscoIfaces(s)
  {
    var byName: map<string, Counters>, order: seq<string>, cols: Cols := map[], [], None;
    ghost var objs: set<Counters> := {};
    var lines := Lines(s);
    NothingParsed(lines);
    for i := 0 to |lines|
      invariant ParsedTo(lines, i, objs, byName, order, cols)
      invariant fresh(objs)
    {
      objs, byName, order, cols := ParseLine(lines, i, lines[i], objs, byName, order, cols);
    }
    out := Listing(objs, byName, order, RowsAfter(lines, |lines|));
  }
}
