/** What one line of a Cisco table does to the counters, cell by cell. */
module CiscoRows {
  import opened Common
  import opened Text
  import opened Device
  import opened IfaceText
  import opened CiscoText
  import opened CiscoTable

  /** A cell counts exactly when it is a number of at most 64 bits, and then as that number. */
  lemma {:induction false} CellRead(cols: seq<string>, fields: seq<string>, i: nat)
    requires 1 <= i < |cols| && i < |fields|
    ensures CellsTo(cols, fields, i + 1) == CellsTo(cols, fields, i) +
              if IsNumber(fields[i]) then [Cell(Classify(cols[i]), Denotes(TrimSpace(fields[i]), 0))] else []
  {
    ParseUintIff(fields[i]);
  }

  /** What the number v in a column headed `h`, in any case, does to the counters of its row's interface. */
  function Counted(c: IfaceCounters, h: string, v: uint64): IfaceCounters {
    var w := Lower(h);
    if w == "inoctets" then c.(inBytes := v)
    else if w == "outoctets" then c.(outBytes := v)
    else if w == "outdiscards" then c.(outDrops := v)
    else if w == "xmit-err" then c.(outErrors := Add64(c.outErrors, v))
    else if w in {"align-err", "fcs-err", "rcv-err"} then c.(inErrors := Add64(c.inErrors, v))
    else if v > 0 && w in {"inucastpkts", "inmcastpkts", "inbcastpkts"} then c.(inPackets := v)
    else if v > 0 && w in {"outucastpkts", "outmcastpkts", "outbcastpkts"} then c.(outPackets := v)
    else c
  }

  lemma {:induction false} OneCell(col: Column, v: uint64, other: Column, none: uint64)
    ensures Sum([Cell(col, v)], other) == if col == other then v else 0
    ensures CiscoTable.Last([Cell(col, v)], other, none) == if col == other then v else none
  {
    assert [Cell(col, v)][..0] == [];
    assert Total([Cell(col, v)], other) == if col == other then v else 0;
  }

  /** A row with one number touches exactly the counter its heading names. */
  lemma {:induction false} HeadingCounts(c: IfaceCounters, h: string, v: uint64)
    ensures Applied(c, [Cell(Classify(Lower(h)), v)]) == Counted(c, h, v)
  {
    var col := Classify(Lower(h));
    OneCell(col, v, InOctets, c.inBytes);
    OneCell(col, v, OutOctets, c.outBytes);
    OneCell(col, v, OutDiscards, c.outDrops);
    OneCell(col, v, InPkts, 0);
    OneCell(col, v, OutPkts, 0);
    OneCell(col, v, InErr, 0);
    OneCell(col, v, OutErr, 0);
  }

  // ---- a row without numbers ----

  lemma {:induction false} EarlierLines(lines: seq<string>, line: string, n: nat)
    requires n <= |lines|
    ensures ColsAfter(lines + [line], n) == ColsAfter(lines, n)
    ensures RowsAfter(lines + [line], n) == RowsAfter(lines, n)
  {
    if n == 0 {
    } else {
      EarlierLines(lines, line, n - 1);
    }
  }

  /** No cell of the line behind the name is a number. */
  predicate Unreadable(line: string) {
    forall i | 1 <= i < |Fields(line)| :: !IsNumber(Fields(line)[i])
  }

  lemma {:induction false} NoCells(cols: seq<string>, fields: seq<string>, n: nat)
    requires n <= |cols| && n <= |fields| && forall i | 1 <= i < n :: !IsNumber(fields[i])
    ensures CellsTo(cols, fields, n) == []
  {
    if n > 1 {
      CellRead(cols, fields, n - 1);
      NoCells(cols, fields, n - 1);
    }
  }

  lemma {:induction false} NothingApplied(c: IfaceCounters)
    ensures Applied(c, []) == c
  {
  }

  /** A row without cells leaves the counters of every interface as they were. */
  lemma {:induction false} EmptyRow(rows: seq<Row>, name: string, other: string)
    ensures CountersFor(rows + [Row(name, [])], other) == CountersFor(rows, other)
  {
    RowByRow(rows, Row(name, []));
    NothingApplied(CountersFor(rows, name));
  }

  lemma {:induction false} SameTables(names: seq<string>, rows: seq<Row>, name: string)
    ensures TableOf(names, rows + [Row(name, [])]) == TableOf(names, rows)
  {
    if names == [] {
    } else {
      EmptyRow(rows, name, names[0]);
      SameTables(names[1..], rows, name);
    }
  }

  lemma {:induction false} TableOfSnoc(names: seq<string>, name: string, rows: seq<Row>)
    ensures TableOf(names + [name], rows) == TableOf(names, rows) + [CountersFor(rows, name)]
  {
    if names == [] {
      assert [] + [name] == [name] && [name][1..] == [];
    } else {
      assert (names + [name])[0] == names[0] && (names + [name])[1..] == names[1..] + [name];
      TableOfSnoc(names[1..], name, rows);
    }
  }

  /** The table after a row without cells: the same, or with an untouched interface more at its end. */
  lemma {:induction false} TableAfterEmptyRow(rows: seq<Row>, name: string)
    ensures var now, was := rows + [Row(name, [])], TableOf(Names(rows), rows);
            TableOf(Names(now), now) == if name in Names(rows) then was else was + [NoCounters(name)]
  {
    var now := rows + [Row(name, [])];
    NamesSnoc(rows, Row(name, []));
    SameTables(Names(rows), rows, name);
    if name !in Names(rows) {
      TableOfSnoc(Names(rows), name, now);
      EmptyRow(rows, name, name);
      NewInterface(rows, name);
    }
  }

  /** A last line whose cells are all not numbers, as `mgmt0 -- -- --`, leaves every counter of every interface as
      it was; at most it adds an interface with all counters zero. */
  lemma {:induction false} UnreadableLine(s: string, line: string)
    requires OneLine(line) && Unreadable(line)
    ensures var was, now := CiscoIfaces(s), CiscoIfaces(s + "\n" + line);
            now == was || (Fields(line) != [] && now == was + [NoCounters(PhysicalIfd(Fields(line)[0]))])
  {
    var lines, fields := Lines(s), Fields(line);
    var n := |lines|;
    LinesSnoc(s, line);
    EarlierLines(lines, line, n);
    var cols, rows := ColsAfter(lines, n), RowsAfter(lines, n);
    assert RowsAfter(lines + [line], n + 1) ==
           rows + match CiscoTable.RowOf(cols, line) case Some(r) => [r] case None => [];
    match CiscoTable.RowOf(cols, line) {
      case None =>
        assert rows + [] == rows;
      case Some(r) =>
        NoCells(cols.value, fields, if |fields| < |cols.value| then |fields| else |cols.value|);
        TableAfterEmptyRow(rows, r.name);
    }
  }
}
