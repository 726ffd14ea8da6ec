/** ifaces.go: what the Cisco counter tables say about each interface, independently of how they are parsed. */
module CiscoTable {
  import opened Common
  import opened Arith
  import opened Text
  import opened Device
  import opened IfaceText
  import opened CiscoText

  // ---- one row ----

  /** What a column heading counts. */
  datatype Column = InOctets | OutOctets | InPkts | OutPkts | OutDiscards | InErr | OutErr | Other

  function Classify(col: string): Column {
    if col == "inoctets" then InOctets
    else if col == "outoctets" then OutOctets
    else if col == "inucastpkts" || col == "inmcastpkts" || col == "inbcastpkts" then InPkts
    else if col == "outucastpkts" || col == "outmcastpkts" || col == "outbcastpkts" then OutPkts
    else if col == "outdiscards" then OutDiscards
    else if col == "fcs-err" || col == "align-err" || col == "rcv-err" then InErr
    else if col == "xmit-err" then OutErr
    else Other
  }

  /** A cell that holds a number. */
  datatype Cell = Cell(col: Column, value: uint64)

  /** The numeric cells among columns 1 to n - 1; column 0 is the name. */
  function CellsTo(cols: seq<string>, fields: seq<string>, n: nat): seq<Cell>
    requires n <= |cols| && n <= |fields|
  {
    if n <= 1 then []
    else
      var p := ParseUint(fields[n - 1]);
      CellsTo(cols, fields, n - 1) + if p.ok then [Cell(Classify(cols[n - 1]), p.value)] else []
  }

  function Cells(cols: seq<string>, fields: seq<string>): seq<Cell> {
    CellsTo(cols, fields, if |fields| < |cols| then |fields| else |cols|)
  }

  /** The sum of a column's cells, without any bound. */
  function Total(cells: seq<Cell>, col: Column): nat {
    if cells == [] then 0
    else Total(cells[..|cells| - 1], col) + if cells[|cells| - 1].col == col then cells[|cells| - 1].value else 0
  }

  /** The sum as the parser keeps it. */
  function Sum(cells: seq<Cell>, col: Column): uint64 {
    Total(cells, col) % TWO_TO_THE_64
  }

  /** The last cell of a column, `none` if there is none. */
  function Last(cells: seq<Cell>, col: Column, none: uint64): uint64 {
    if cells == [] then none
    else if cells[|cells| - 1].col == col then cells[|cells| - 1].value
    else Last(cells[..|cells| - 1], col, none)
  }

  lemma {:induction false} TotalAppend(a: seq<Cell>, b: seq<Cell>, col: Column)
    ensures Total(a + b, col) == Total(a, col) + Total(b, col)
  {
    if b == [] {
      assert a + b == a;
    } else {
      assert (a + b)[..|a + b| - 1] == a + b[..|b| - 1];
      TotalAppend(a, b[..|b| - 1], col);
    }
  }

  lemma {:induction false} LastAppend(a: seq<Cell>, b: seq<Cell>, col: Column, none: uint64)
    ensures Last(a + b, col, none) == Last(b, col, Last(a, col, none))
  {
    if b == [] {
      assert a + b == a;
    } else {
      assert (a + b)[..|a + b| - 1] == a + b[..|b| - 1];
      LastAppend(a, b[..|b| - 1], col, none);
    }
  }

  /** What one row does to the counters of its interface. */
  function Applied(c: IfaceCounters, cells: seq<Cell>): IfaceCounters {
    c.(inBytes := Last(cells, InOctets, c.inBytes),
       outBytes := Last(cells, OutOctets, c.outBytes),
       outDrops := Last(cells, OutDiscards, c.outDrops),
       inErrors := Add64(c.inErrors, Sum(cells, InErr)),
       outErrors := Add64(c.outErrors, Sum(cells, OutErr)),
       inPackets := if Sum(cells, InPkts) > 0 then Sum(cells, InPkts) else c.inPackets,
       outPackets := if Sum(cells, OutPkts) > 0 then Sum(cells, OutPkts) else c.outPackets)
  }

  // ---- all rows of an interface ----

  datatype Row = Row(name: string, cells: seq<Cell>)

  function NoCounters(name: string): IfaceCounters {
    IfaceCounters(name, "", "", 0, 0, 0, 0, 0, 0, 0, 0)
  }

  /** All cells of all rows of one interface. */
  function CellsOf(rows: seq<Row>, name: string): seq<Cell> {
    if rows == [] then []
    else
      var last := rows[|rows| - 1];
      CellsOf(rows[..|rows| - 1], name) + if last.name == name then last.cells else []
  }

  /** The last row sum of a column that is not zero. */
  function LastSum(rows: seq<Row>, name: string, col: Column): uint64 {
    if rows == [] then 0
    else
      var last := rows[|rows| - 1];
      if last.name == name && Sum(last.cells, col) > 0 then Sum(last.cells, col)
      else LastSum(rows[..|rows| - 1], name, col)
  }

  /** The counters of one interface, column by column: errors are sums over every row modulo 2^64, octets and
      discards the last cell, packets the last row sum that is not zero. */
  function CountersFor(rows: seq<Row>, name: string): IfaceCounters {
    var cells := CellsOf(rows, name);
    IfaceCounters(name, "", "",
      LastSum(rows, name, InPkts), LastSum(rows, name, OutPkts),
      Last(cells, InOctets, 0), Last(cells, OutOctets, 0),
      0, Last(cells, OutDiscards, 0),
      Sum(cells, InErr), Sum(cells, OutErr))
  }

  lemma {:induction false} SumAppend(a: seq<Cell>, b: seq<Cell>, col: Column)
    ensures Sum(a + b, col) == Add64(Sum(a, col), Sum(b, col))
  {
    TotalAppend(a, b, col);
    var x, y := Total(a, col), Total(b, col);
    DivMod(x, TWO_TO_THE_64);
    DivMod(y, TWO_TO_THE_64);
    ModAddMultiple(x % TWO_TO_THE_64 + y % TWO_TO_THE_64, TWO_TO_THE_64, x / TWO_TO_THE_64 + y / TWO_TO_THE_64);
  }

  lemma {:induction false} RowsSnoc(rows: seq<Row>, r: Row, name: string)
    ensures CellsOf(rows + [r], name) == CellsOf(rows, name) + if r.name == name then r.cells else []
    ensures forall col :: LastSum(rows + [r], name, col) ==
              if r.name == name && Sum(r.cells, col) > 0 then Sum(r.cells, col) else LastSum(rows, name, col)
  {
    assert (rows + [r])[..|rows|] == rows;
  }

  /** Row by row and column by column agree: the parser may update the counters one row at a time. */
  lemma {:induction false} RowByRow(rows: seq<Row>, r: Row)
    ensures CountersFor(rows + [r], r.name) == Applied(CountersFor(rows, r.name), r.cells)
    ensures forall name | name != r.name :: CountersFor(rows + [r], name) == CountersFor(rows, name)
  {
    forall name | name != r.name ensures CountersFor(rows + [r], name) == CountersFor(rows, name) {
      RowsSnoc(rows, r, name);
      assert CellsOf(rows, name) + [] == CellsOf(rows, name);
    }
    var before := CellsOf(rows, r.name);
    RowsSnoc(rows, r, r.name);
    SumAppend(before, r.cells, InErr);
    SumAppend(before, r.cells, OutErr);
    LastAppend(before, r.cells, InOctets, 0);
    LastAppend(before, r.cells, OutOctets, 0);
    LastAppend(before, r.cells, OutDiscards, 0);
  }

  // ---- the interfaces, in the order they first appear ----

  function Names(rows: seq<Row>): seq<string> {
    if rows == [] then []
    else
      var before := Names(rows[..|rows| - 1]);
      if rows[|rows| - 1].name in before then before else before + [rows[|rows| - 1].name]
  }

  lemma {:induction false} NamesSnoc(rows: seq<Row>, r: Row)
    ensures Names(rows + [r]) == if r.name in Names(rows) then Names(rows) else Names(rows) + [r.name]
  {
    assert (rows + [r])[..|rows|] == rows;
  }

  ghost predicate HasRow(rows: seq<Row>, name: string) {
    exists k | 0 <= k < |rows| :: rows[k].name == name
  }

  lemma {:induction false} HasRowSnoc(rows: seq<Row>, name: string)
    requires rows != []
    ensures HasRow(rows, name) <==> rows[|rows| - 1].name == name || HasRow(rows[..|rows| - 1], name)
  {
    var init := rows[..|rows| - 1];
    if k :| 0 <= k < |rows| && rows[k].name == name {
      if k < |init| {
        assert init[k].name == name;
      }
    }
    if k :| 0 <= k < |init| && init[k].name == name {
      assert rows[k].name == name;
    }
  }

  /** Every interface once, exactly the ones that have a row. */
  lemma {:induction false} NamesOnce(rows: seq<Row>)
    ensures NoDup(Names(rows))
    ensures forall name :: name in Names(rows) <==> HasRow(rows, name)
  {
    if rows == [] {
    } else {
      var init, last := rows[..|rows| - 1], rows[|rows| - 1];
      NamesOnce(init);
      forall name ensures name in Names(rows) <==> HasRow(rows, name) {
        HasRowSnoc(rows, name);
      }
      if last.name !in Names(init) {
        NoDupAppend(Names(init), last.name);
      }
    }
  }

  lemma {:induction false} NoCellsOf(rows: seq<Row>, name: string)
    requires !HasRow(rows, name)
    ensures CellsOf(rows, name) == [] && forall col :: LastSum(rows, name, col) == 0
  {
    if rows == [] {
    } else {
      HasRowSnoc(rows, name);
      NoCellsOf(rows[..|rows| - 1], name);
    }
  }

  /** An interface that has no row yet has the counters of a new object. */
  lemma {:induction false} NewInterface(rows: seq<Row>, name: string)
    requires name !in Names(rows)
    ensures CountersFor(rows, name) == NoCounters(name)
  {
    NamesOnce(rows);
    NoCellsOf(rows, name);
  }

  /** Where an interface first appears. */
  ghost predicate FirstRow(rows: seq<Row>, name: string, k: nat) {
    k < |rows| && rows[k].name == name && forall i | 0 <= i < k :: rows[i].name != name
  }

  lemma {:induction false} RowBefore(rows: seq<Row>, name: string, k: nat)
    requires FirstRow(rows, name, k) && HasRow(rows[..|rows| - 1], name)
    ensures k < |rows| - 1 && FirstRow(rows[..|rows| - 1], name, k)
  {
    var init := rows[..|rows| - 1];
    var p :| 0 <= p < |init| && init[p].name == name;
    assert rows[p].name == name;
  }

  lemma {:induction false} RowLast(rows: seq<Row>, name: string, k: nat)
    requires FirstRow(rows, name, k) && !HasRow(rows[..|rows| - 1], name)
    ensures k == |rows| - 1
  {
    var init := rows[..|rows| - 1];
    assert forall p | 0 <= p < |init| :: init[p].name != name;
    assert forall p | 0 <= p < |init| :: rows[p] == init[p];
  }

  /** The names stand in the order of their first rows. */
  lemma {:induction false} NamesInOrder(rows: seq<Row>, i: nat, j: nat, k: nat, m: nat)
    requires i < j < |Names(rows)| && FirstRow(rows, Names(rows)[i], k) && FirstRow(rows, Names(rows)[j], m)
    ensures k < m
    decreases |rows|
  {
    var init := rows[..|rows| - 1];
    NamesOnce(init);
    assert Names(init)[i] in Names(init);
    RowBefore(rows, Names(rows)[i], k);
    if j < |Names(init)| {
      assert Names(init)[j] in Names(init);
      RowBefore(rows, Names(rows)[j], m);
      NamesInOrder(init, i, j, k, m);
    } else {
      RowLast(rows, Names(rows)[j], m);
    }
  }

  function TableOf(names: seq<string>, rows: seq<Row>): seq<IfaceCounters> {
    if names == [] then [] else [CountersFor(rows, names[0])] + TableOf(names[1..], rows)
  }

  // ---- from lines to rows ----

  /** The words that make a line a heading. */
  predicate HeaderWord(w: string) {
    w in {"inoctets", "inucastpkts", "outoctets", "outucastpkts",
          "fcs-err", "align-err", "xmit-err", "rcv-err", "outdiscards"}
  }

  predicate IsHeader(fields: seq<string>) {
    exists i | 0 <= i < |fields| :: HeaderWord(Lower(fields[i]))
  }

  function LowerAll(fields: seq<string>): (cols: seq<string>)
    ensures |cols| == |fields| && forall i | 0 <= i < |fields| :: cols[i] == Lower(fields[i])
  {
    if fields == [] then [] else [Lower(fields[0])] + LowerAll(fields[1..])
  }

  predicate IsLetter(c: char) {
    'a' <= c <= 'z' || 'A' <= c <= 'Z'
  }

  /** A port name starts with a letter and is none of the words that head a column of names. */
  predicate IsPort(s: string) {
    s != "" && IsLetter(s[0]) && Lower(s) !in {"port", "interface", "port-id"}
  }

  type Cols = Option<seq<string>>

  /** The columns in force after a line. */
  function NextCols(cols: Cols, line: string): Cols {
    var fields := Fields(line);
    if |fields| < 2 then None
    else if IsHeader(fields) then Some(LowerAll(fields))
    else cols
  }

  /** The row a line is, under the columns in force before it. */
  function RowOf(cols: Cols, line: string): Option<Row> {
    var fields := Fields(line);
    if |fields| < 2 || IsHeader(fields) || cols.None? || !IsPort(fields[0]) || PhysicalIfd(fields[0]) == "" then None
    else Some(Row(PhysicalIfd(fields[0]), Cells(cols.value, fields)))
  }

  function ColsAfter(lines: seq<string>, n: nat): Cols
    requires n <= |lines|
  {
    if n == 0 then None else NextCols(ColsAfter(lines, n - 1), lines[n - 1])
  }

  function RowsAfter(lines: seq<string>, n: nat): seq<Row>
    requires n <= |lines|
  {
    if n == 0 then []
    else
      RowsAfter(lines, n - 1) +
      match RowOf(ColsAfter(lines, n - 1), lines[n - 1]) case Some(r) => [r] case None => []
  }

  /** Neither a heading nor a line that ends the table. */
  predicate IsData(line: string) {
    |Fields(line)| >= 2 && !IsHeader(Fields(line))
  }

  /** Line h is a heading and only data follows it before line n. */
  ghost predicate LastHeading(lines: seq<string>, h: nat, n: nat)
    requires n <= |lines|
  {
    h < n && |Fields(lines[h])| >= 2 && IsHeader(Fields(lines[h])) && forall k | h < k < n :: IsData(lines[k])
  }

  lemma {:induction false} HeadingHolds(lines: seq<string>, h: nat, n: nat)
    requires n <= |lines| && LastHeading(lines, h, n)
    ensures ColsAfter(lines, n) == Some(LowerAll(Fields(lines[h])))
  {
    if h < n - 1 {
      HeadingHolds(lines, h, n - 1);
      assert IsData(lines[n - 1]);
    }
  }

  lemma {:induction false} HeadingExists(lines: seq<string>, n: nat) returns (h: nat)
    requires n <= |lines| && ColsAfter(lines, n).Some?
    ensures LastHeading(lines, h, n)
  {
    if IsData(lines[n - 1]) {
      h := HeadingExists(lines, n - 1);
    } else {
      h := n - 1;
    }
  }

  /** The columns in force are those of the last heading, unless a blank or one-word line came after it. */
  lemma {:induction false} ColumnsInForce(lines: seq<string>, n: nat, cols: seq<string>)
    requires n <= |lines|
    ensures ColsAfter(lines, n) == Some(cols) <==>
              exists h: nat :: LastHeading(lines, h, n) && cols == LowerAll(Fields(lines[h]))
  {
    if ColsAfter(lines, n) == Some(cols) {
      var h := HeadingExists(lines, n);
      HeadingHolds(lines, h, n);
    }
    if h: nat :| LastHeading(lines, h, n) && cols == LowerAll(Fields(lines[h])) {
      HeadingHolds(lines, h, n);
    }
  }

  /** parseCiscoIfaces, as the tables mean it. */
  function CiscoIfaces(s: string): seq<IfaceCounters> {
    var lines := Lines(s);
    var rows := RowsAfter(lines, |lines|);
    TableOf(Names(rows), rows)
  }
}
