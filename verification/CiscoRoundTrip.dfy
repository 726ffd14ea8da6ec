/** Printing counters as the three tables of a Cisco switch, and parsing them back. */
module CiscoRoundTrip {
  import opened Common
  import opened Text
  import opened Device
  import opened IfaceText
  import opened CiscoText
  import opened CiscoTable

  // ---- printing a line ----

  /** How many spaces stand before field i of a line, beyond the one that separates it. */
  type Spacing = (seq<string>, nat) -> nat

  function Spaces(n: nat): string {
    if n == 0 then "" else " " + Spaces(n - 1)
  }

  function Rest(fields: seq<string>, i: nat, sp: Spacing): string
    requires i <= |fields|
    decreases |fields| - i
  {
    if i == |fields| then "" else Spaces(1 + sp(fields, i)) + fields[i] + Rest(fields, i + 1, sp)
  }

  function Line(fields: seq<string>, sp: Spacing): string
    requires fields != []
  {
    fields[0] + Rest(fields, 1, sp)
  }

  function Unlines(lines: seq<string>): string {
    if lines == [] then "" else lines[0] + "\n" + Unlines(lines[1..])
  }

  lemma {:induction false} FieldsAfterSpaces(n: nat, t: string)
    ensures Fields(Spaces(n) + t) == Fields(t)
  {
    if n == 0 {
      assert "" + t == t;
    } else {
      assert (Spaces(n) + t)[1..] == Spaces(n - 1) + t;
      FieldsAfterSpaces(n - 1, t);
    }
  }

  lemma {:induction false} WordEndIs(w: string, t: string, from: nat)
    requires Word(w) && from <= |w| && (t == "" || IsSpace(t[0]))
    ensures WordEnd(w + t, from) == |w|
    decreases |w| - from
  {
    if from == |w| {
    } else {
      WordEndIs(w, t, from + 1);
    }
  }

  lemma {:induction false} FieldsOfWord(w: string, t: string)
    requires Word(w) && (t == "" || IsSpace(t[0]))
    ensures Fields(w + t) == [w] + Fields(t)
  {
    WordEndIs(w, t, 0);
    assert (w + t)[..|w|] == w && (w + t)[|w|..] == t;
  }

  lemma {:induction false} FieldsOfSpacedWord(n: nat, w: string, t: string)
    requires Word(w) && (t == "" || IsSpace(t[0]))
    ensures Fields(Spaces(n) + w + t) == [w] + Fields(t)
    ensures n > 0 ==> Spaces(n) + w + t != "" && IsSpace((Spaces(n) + w + t)[0])
  {
    AppendAssoc(Spaces(n), w, t);
    FieldsAfterSpaces(n, w + t);
    FieldsOfWord(w, t);
  }

  lemma {:induction false} FieldsOfRest(fields: seq<string>, i: nat, sp: Spacing)
    requires i <= |fields| && forall f | f in fields :: Word(f)
    ensures Rest(fields, i, sp) == "" || IsSpace(Rest(fields, i, sp)[0])
    ensures Fields(Rest(fields, i, sp)) == fields[i..]
    decreases |fields| - i
  {
    if i == |fields| {
    } else {
      FieldsOfRest(fields, i + 1, sp);
      assert fields[i] in fields;
      FieldsOfSpacedWord(1 + sp(fields, i), fields[i], Rest(fields, i + 1, sp));
      assert fields[i..] == [fields[i]] + fields[i + 1..];
    }
  }

  /** Printing fields and splitting the line into fields undo each other. */
  lemma {:induction false} FieldsOfLine(fields: seq<string>, sp: Spacing)
    requires fields != [] && forall f | f in fields :: Word(f)
    ensures Fields(Line(fields, sp)) == fields
  {
    FieldsOfRest(fields, 1, sp);
    assert fields[0] in fields;
    FieldsOfWord(fields[0], Rest(fields, 1, sp));
    assert fields == [fields[0]] + fields[1..];
  }

  // ---- printing lines ----

  /** Joining lines and splitting at the newlines undo each other, but for the empty line after the last newline. */
  lemma {:induction false} LinesOfUnlines(lines: seq<string>)
    requires forall l | l in lines :: OneLine(l)
    ensures Lines(Unlines(lines)) == lines + [""]
  {
    if lines == [] {
    } else {
      var l, t := lines[0], Unlines(lines[1..]);
      assert l in lines;
      LineEndIs(l, t, 0);
      LinesOfUnlines(lines[1..]);
      var s := l + "\n" + t;
      assert s[..|l|] == l && s[|l| + 1..] == t;
      assert lines == [l] + lines[1..];
    }
  }

  lemma {:induction false} SpacesOneLine(n: nat)
    ensures OneLine(Spaces(n))
  {
    if n == 0 {
    } else {
      SpacesOneLine(n - 1);
    }
  }

  lemma {:induction false} RestOneLine(fields: seq<string>, i: nat, sp: Spacing)
    requires i <= |fields| && forall f | f in fields :: Word(f)
    ensures OneLine(Rest(fields, i, sp))
    decreases |fields| - i
  {
    if i == |fields| {
    } else {
      SpacesOneLine(1 + sp(fields, i));
      assert Word(fields[i]);
      RestOneLine(fields, i + 1, sp);
    }
  }

  lemma {:induction false} LineOneLine(fields: seq<string>, sp: Spacing)
    requires fields != [] && forall f | f in fields :: Word(f)
    ensures OneLine(Line(fields, sp))
  {
    RestOneLine(fields, 1, sp);
    assert Word(fields[0]);
  }

  // ---- the three tables ----

  /** What the tables show of one interface. */
  datatype Port = Port(
    name: string,
    inOctets: uint64, inUcast: uint64, inMcast: uint64, inBcast: uint64,
    outOctets: uint64, outUcast: uint64, outMcast: uint64, outBcast: uint64,
    alignErr: uint64, fcsErr: uint64, xmitErr: uint64, rcvErr: uint64, underSize: uint64, outDiscards: uint64)

  datatype Which = Received | Sent | Errors

  function Heading(t: Which): seq<string> {
    match t
    case Received => ["Port", "InOctets", "InUcastPkts", "InMcastPkts", "InBcastPkts"]
    case Sent => ["Port", "OutOctets", "OutUcastPkts", "OutMcastPkts", "OutBcastPkts"]
    case Errors => ["Port", "Align-Err", "FCS-Err", "Xmit-Err", "Rcv-Err", "UnderSize", "OutDiscards"]
  }

  function Values(t: Which, p: Port): (vs: seq<uint64>)
    ensures |vs| == |Heading(t)| - 1
  {
    match t
    case Received => [p.inOctets, p.inUcast, p.inMcast, p.inBcast]
    case Sent => [p.outOctets, p.outUcast, p.outMcast, p.outBcast]
    case Errors => [p.alignErr, p.fcsErr, p.xmitErr, p.rcvErr, p.underSize, p.outDiscards]
  }

  function Prints(vs: seq<uint64>): (s: seq<string>)
    ensures |s| == |vs| && forall i | 0 <= i < |vs| :: s[i] == PrintUint(vs[i])
  {
    if vs == [] then [] else [PrintUint(vs[0])] + Prints(vs[1..])
  }

  function RowFields(t: Which, p: Port): seq<string> {
    [p.name] + Prints(Values(t, p))
  }

  function PortLines(t: Which, ps: seq<Port>, sp: Spacing): seq<string> {
    if ps == [] then [] else [Line(RowFields(t, ps[0]), sp)] + PortLines(t, ps[1..], sp)
  }

  function TableLines(t: Which, ps: seq<Port>, sp: Spacing): seq<string> {
    [Line(Heading(t), sp)] + PortLines(t, ps, sp)
  }

  function AllLines(ps: seq<Port>, sp: Spacing): seq<string> {
    (TableLines(Received, ps, sp) + [""]) + (TableLines(Sent, ps, sp) + [""]) + TableLines(Errors, ps, sp)
  }

  /** The text of the three tables, with blank lines between them. */
  function Render(ps: seq<Port>, sp: Spacing): string {
    Unlines(AllLines(ps, sp))
  }

  /** The counters of one interface: packets and received errors are sums modulo 2^64. */
  function ToCounters(p: Port): IfaceCounters {
    IfaceCounters(p.name, "", "",
      (p.inUcast + p.inMcast + p.inBcast) % TWO_TO_THE_64, (p.outUcast + p.outMcast + p.outBcast) % TWO_TO_THE_64,
      p.inOctets, p.outOctets, 0, p.outDiscards,
      (p.alignErr + p.fcsErr + p.rcvErr) % TWO_TO_THE_64, p.xmitErr)
  }

  /** A name the parser takes as the name of an interface and leaves as it is. */
  predicate ValidName(n: string) {
    Word(n) && IsPort(n) && !HeaderWord(Lower(n)) && PhysicalIfd(n) == n
  }

  ghost predicate ValidPorts(ps: seq<Port>) {
    (forall i | 0 <= i < |ps| :: ValidName(ps[i].name)) && forall i, j | 0 <= i < j < |ps| :: ps[i].name != ps[j].name
  }

  // ---- the lines are one line each ----

  predicate Words(fields: seq<string>) {
    forall f | f in fields :: Word(f)
  }

  lemma {:induction false} PrintsWords(vs: seq<uint64>)
    ensures Words(Prints(vs))
  {
    forall f | f in Prints(vs) ensures Word(f) {
      var i :| 0 <= i < |vs| && Prints(vs)[i] == f;
      assert AllDigits(PrintUint(vs[i]));
    }
  }

  lemma {:induction false} RowWords(t: Which, p: Port)
    requires Word(p.name)
    ensures Words(RowFields(t, p))
  {
    PrintsWords(Values(t, p));
  }

  lemma {:induction false} PortWord()
    ensures Word("Port")
  {
  }

  lemma {:induction false} ReceivedWords()
    ensures Word("InOctets") && Word("InUcastPkts") && Word("InMcastPkts") && Word("InBcastPkts")
  {
  }

  lemma {:induction false} SentWords()
    ensures Word("OutOctets") && Word("OutUcastPkts") && Word("OutMcastPkts") && Word("OutBcastPkts")
  {
  }

  lemma {:induction false} ErrorWords()
    ensures Word("Align-Err") && Word("FCS-Err") && Word("Xmit-Err")
    ensures Word("Rcv-Err") && Word("UnderSize") && Word("OutDiscards")
  {
  }

  lemma {:induction false} HeadingWords(t: Which)
    ensures Words(Heading(t))
  {
    PortWord();
    match t
    case Received => ReceivedWords();
    case Sent => SentWords();
    case Errors => ErrorWords();
  }

  lemma {:induction false} PortLinesOneLine(t: Which, ps: seq<Port>, sp: Spacing)
    requires forall i | 0 <= i < |ps| :: ValidName(ps[i].name)
    ensures forall l | l in PortLines(t, ps, sp) :: OneLine(l)
  {
    if ps == [] {
    } else {
      RowWords(t, ps[0]);
      LineOneLine(RowFields(t, ps[0]), sp);
      PortLinesOneLine(t, ps[1..], sp);
    }
  }

  lemma {:induction false} TableOneLine(t: Which, ps: seq<Port>, sp: Spacing)
    requires forall i | 0 <= i < |ps| :: ValidName(ps[i].name)
    ensures forall l | l in TableLines(t, ps, sp) :: OneLine(l)
  {
    HeadingWords(t);
    LineOneLine(Heading(t), sp);
    PortLinesOneLine(t, ps, sp);
  }

  lemma {:induction false} LinesOfRender(ps: seq<Port>, sp: Spacing)
    requires forall i | 0 <= i < |ps| :: ValidName(ps[i].name)
    ensures Lines(Render(ps, sp)) == AllLines(ps, sp) + [""]
  {
    TableOneLine(Received, ps, sp);
    TableOneLine(Sent, ps, sp);
    TableOneLine(Errors, ps, sp);
    LinesOfUnlines(AllLines(ps, sp));
  }

  // ---- what each line contributes ----

  /** The columns and the rows after some lines, from given columns on. */
  function ColsFrom(cols: Cols, lines: seq<string>): Cols
    decreases |lines|
  {
    if lines == [] then cols else ColsFrom(NextCols(cols, lines[0]), lines[1..])
  }

  function OneRow(cols: Cols, line: string): seq<Row> {
    match RowOf(cols, line) case Some(r) => [r] case None => []
  }

  function RowsFrom(cols: Cols, lines: seq<string>): seq<Row>
    decreases |lines|
  {
    if lines == [] then [] else OneRow(cols, lines[0]) + RowsFrom(NextCols(cols, lines[0]), lines[1..])
  }

  lemma {:induction false} FromAppend(cols: Cols, a: seq<string>, b: seq<string>)
    ensures ColsFrom(cols, a + b) == ColsFrom(ColsFrom(cols, a), b)
    ensures RowsFrom(cols, a + b) == RowsFrom(cols, a) + RowsFrom(ColsFrom(cols, a), b)
    decreases |a|
  {
    if a == [] {
      assert a + b == b;
    } else {
      assert (a + b)[0] == a[0] && (a + b)[1..] == a[1..] + b;
      FromAppend(NextCols(cols, a[0]), a[1..], b);
      AppendAssoc(OneRow(cols, a[0]), RowsFrom(NextCols(cols, a[0]), a[1..]), RowsFrom(ColsFrom(cols, a), b));
    }
  }

  lemma {:induction false} FromOne(cols: Cols, line: string)
    ensures ColsFrom(cols, [line]) == NextCols(cols, line) && RowsFrom(cols, [line]) == OneRow(cols, line)
  {
    assert [line][1..] == [];
  }

  lemma {:induction false} FromSnoc(lines: seq<string>, n: nat)
    requires 0 < n <= |lines|
    ensures ColsFrom(None, lines[..n]) == NextCols(ColsFrom(None, lines[..n - 1]), lines[n - 1])
    ensures RowsFrom(None, lines[..n]) ==
              RowsFrom(None, lines[..n - 1]) + OneRow(ColsFrom(None, lines[..n - 1]), lines[n - 1])
  {
    assert lines[..n] == lines[..n - 1] + [lines[n - 1]];
    FromAppend(None, lines[..n - 1], [lines[n - 1]]);
    FromOne(ColsFrom(None, lines[..n - 1]), lines[n - 1]);
  }

  /** The parser's state after n lines is what those lines contribute. */
  lemma {:induction false} AfterIsFrom(lines: seq<string>, n: nat)
    requires n <= |lines|
    ensures ColsAfter(lines, n) == ColsFrom(None, lines[..n]) && RowsAfter(lines, n) == RowsFrom(None, lines[..n])
  {
    if n == 0 {
    } else {
      AfterIsFrom(lines, n - 1);
      FromSnoc(lines, n);
    }
  }

  lemma {:induction false} AllRows(lines: seq<string>)
    ensures RowsAfter(lines, |lines|) == RowsFrom(None, lines)
  {
    AfterIsFrom(lines, |lines|);
    assert lines[..|lines|] == lines;
  }

  // ---- headings ----

  function Columns(t: Which): (cols: seq<string>)
    ensures |cols| == |Heading(t)|
  {
    match t
    case Received => ["port", "inoctets", "inucastpkts", "inmcastpkts", "inbcastpkts"]
    case Sent => ["port", "outoctets", "outucastpkts", "outmcastpkts", "outbcastpkts"]
    case Errors => ["port", "align-err", "fcs-err", "xmit-err", "rcv-err", "undersize", "outdiscards"]
  }

  lemma {:induction false} LowerIs(s: string, l: string)
    requires |s| == |l| && forall i | 0 <= i < |s| :: LowerChar(s[i]) == l[i]
    ensures Lower(s) == l
  {
    forall i | 0 <= i < |s| ensures Lower(s)[i] == l[i] {
      LowerAt(s, i);
    }
  }

  lemma {:induction false} LowerReceived()
    ensures LowerAll(Heading(Received)) == Columns(Received)
  {
    LowerIs("Port", "port");
    LowerIs("InOctets", "inoctets");
    LowerIs("InUcastPkts", "inucastpkts");
    LowerIs("InMcastPkts", "inmcastpkts");
    LowerIs("InBcastPkts", "inbcastpkts");
  }

  lemma {:induction false} LowerSent()
    ensures LowerAll(Heading(Sent)) == Columns(Sent)
  {
    LowerIs("Port", "port");
    LowerIs("OutOctets", "outoctets");
    LowerIs("OutUcastPkts", "outucastpkts");
    LowerIs("OutMcastPkts", "outmcastpkts");
    LowerIs("OutBcastPkts", "outbcastpkts");
  }

  lemma {:induction false} LowerErrorWords()
    ensures Lower("Align-Err") == "align-err" && Lower("FCS-Err") == "fcs-err" && Lower("Xmit-Err") == "xmit-err"
  {
    LowerIs("Align-Err", "align-err");
    LowerIs("FCS-Err", "fcs-err");
    LowerIs("Xmit-Err", "xmit-err");
  }

  lemma {:induction false} LowerOtherWords()
    ensures Lower("Rcv-Err") == "rcv-err" && Lower("UnderSize") == "undersize" && Lower("OutDiscards") == "outdiscards"
  {
    LowerIs("Rcv-Err", "rcv-err");
    LowerIs("UnderSize", "undersize");
    LowerIs("OutDiscards", "outdiscards");
  }

  lemma {:induction false} LowerErrors()
    ensures LowerAll(Heading(Errors)) == Columns(Errors)
  {
    LowerIs("Port", "port");
    LowerErrorWords();
    LowerOtherWords();
  }

  lemma {:induction false} LowerHeading(t: Which)
    ensures LowerAll(Heading(t)) == Columns(t)
  {
    match t
    case Received => LowerReceived();
    case Sent => LowerSent();
    case Errors => LowerErrors();
  }

  lemma {:induction false} HeadingIsHeader(t: Which)
    ensures IsHeader(Heading(t))
  {
    LowerHeading(t);
    assert LowerAll(Heading(t))[1] == Lower(Heading(t)[1]);
  }

  /** A heading line sets the columns and is no row. */
  lemma {:induction false} HeadingLine(t: Which, cols: Cols, sp: Spacing)
    ensures NextCols(cols, Line(Heading(t), sp)) == Some(Columns(t))
    ensures OneRow(cols, Line(Heading(t), sp)) == []
  {
    HeadingWords(t);
    FieldsOfLine(Heading(t), sp);
    HeadingIsHeader(t);
    LowerHeading(t);
  }

  // ---- rows ----

  function Kinds(t: Which): (ks: seq<Column>)
    ensures |ks| == |Heading(t)| - 1
  {
    match t
    case Received => [InOctets, InPkts, InPkts, InPkts]
    case Sent => [OutOctets, OutPkts, OutPkts, OutPkts]
    case Errors => [InErr, InErr, OutErr, InErr, Other, OutDiscards]
  }

  lemma {:induction false} ColumnKinds(t: Which, i: nat)
    requires i < |Kinds(t)|
    ensures Classify(Columns(t)[i + 1]) == Kinds(t)[i]
  {
  }

  /** The cells of the first n numbers of a row. */
  function Zip(ks: seq<Column>, vs: seq<uint64>, n: nat): seq<Cell>
    requires n <= |ks| == |vs|
  {
    if n == 0 then [] else Zip(ks, vs, n - 1) + [Cell(ks[n - 1], vs[n - 1])]
  }

  function RowCells(t: Which, p: Port): seq<Cell> {
    Zip(Kinds(t), Values(t, p), |Kinds(t)|)
  }

  lemma {:induction false} CellsOfRow(t: Which, p: Port, n: nat)
    requires n <= |Kinds(t)|
    ensures CellsTo(Columns(t), RowFields(t, p), n + 1) == Zip(Kinds(t), Values(t, p), n)
  {
    if n == 0 {
    } else {
      CellsOfRow(t, p, n - 1);
      assert RowFields(t, p)[n] == PrintUint(Values(t, p)[n - 1]);
      ParsePrinted(Values(t, p)[n - 1]);
      ColumnKinds(t, n - 1);
    }
  }

  lemma {:induction false} HeaderWordsStartWithLetters(w: string)
    requires HeaderWord(w)
    ensures w != "" && !IsDigit(w[0])
  {
  }

  lemma {:induction false} NumbersAreNoHeaderWords(s: string)
    requires AllDigits(s)
    ensures !HeaderWord(Lower(s))
  {
    LowerFixed(s);
    if HeaderWord(s) {
      HeaderWordsStartWithLetters(s);
    }
  }

  lemma {:induction false} RowIsNoHeader(t: Which, p: Port)
    requires !HeaderWord(Lower(p.name))
    ensures !IsHeader(RowFields(t, p))
  {
    var fields, vs := RowFields(t, p), Values(t, p);
    forall i | 0 <= i < |fields| ensures !HeaderWord(Lower(fields[i])) {
      if i > 0 {
        assert fields[i] == PrintUint(vs[i - 1]);
        NumbersAreNoHeaderWords(fields[i]);
      }
    }
  }

  /** A row line keeps the columns and contributes the cells of its numbers. */
  lemma {:induction false} PortLine(t: Which, p: Port, sp: Spacing)
    requires ValidName(p.name)
    ensures NextCols(Some(Columns(t)), Line(RowFields(t, p), sp)) == Some(Columns(t))
    ensures OneRow(Some(Columns(t)), Line(RowFields(t, p), sp)) == [Row(p.name, RowCells(t, p))]
  {
    RowWords(t, p);
    FieldsOfLine(RowFields(t, p), sp);
    RowIsNoHeader(t, p);
    CellsOfRow(t, p, |Kinds(t)|);
  }

  function PortRows(t: Which, ps: seq<Port>): seq<Row> {
    if ps == [] then [] else [Row(ps[0].name, RowCells(t, ps[0]))] + PortRows(t, ps[1..])
  }

  lemma {:induction false} PortLinesRows(t: Which, ps: seq<Port>, sp: Spacing)
    requires forall i | 0 <= i < |ps| :: ValidName(ps[i].name)
    ensures ColsFrom(Some(Columns(t)), PortLines(t, ps, sp)) == Some(Columns(t))
    ensures RowsFrom(Some(Columns(t)), PortLines(t, ps, sp)) == PortRows(t, ps)
  {
    if ps == [] {
    } else {
      PortLine(t, ps[0], sp);
      PortLinesRows(t, ps[1..], sp);
    }
  }

  lemma {:induction false} TableRows(t: Which, cols: Cols, ps: seq<Port>, sp: Spacing)
    requires forall i | 0 <= i < |ps| :: ValidName(ps[i].name)
    ensures RowsFrom(cols, TableLines(t, ps, sp)) == PortRows(t, ps)
  {
    HeadingLine(t, cols, sp);
    FromOne(cols, Line(Heading(t), sp));
    FromAppend(cols, [Line(Heading(t), sp)], PortLines(t, ps, sp));
    PortLinesRows(t, ps, sp);
  }

  /** A table with the blank line after it contributes its own rows and leaves no columns in force. */
  lemma {:induction false} TableAndBlank(t: Which, ps: seq<Port>, sp: Spacing)
    requires forall i | 0 <= i < |ps| :: ValidName(ps[i].name)
    ensures RowsFrom(None, TableLines(t, ps, sp) + [""]) == PortRows(t, ps)
    ensures ColsFrom(None, TableLines(t, ps, sp) + [""]) == None
  {
    TableRows(t, None, ps, sp);
    var cols := ColsFrom(None, TableLines(t, ps, sp));
    FromAppend(None, TableLines(t, ps, sp), [""]);
    FromOne(cols, "");
    assert Fields("") == [];
    assert PortRows(t, ps) + [] == PortRows(t, ps);
  }

  lemma {:induction false} ThreeParts(a: seq<string>, b: seq<string>, c: seq<string>)
    requires ColsFrom(None, a) == None && ColsFrom(None, b) == None
    ensures RowsFrom(None, a + b + c) == RowsFrom(None, a) + RowsFrom(None, b) + RowsFrom(None, c)
  {
    FromAppend(None, a, b);
    FromAppend(None, a + b, c);
  }

  /** The rows of the three tables in turn. */
  function RenderedRows(ps: seq<Port>): seq<Row> {
    PortRows(Received, ps) + PortRows(Sent, ps) + PortRows(Errors, ps)
  }

  lemma {:induction false} RowsOfTables(ps: seq<Port>, sp: Spacing, a: seq<string>, b: seq<string>, c: seq<string>)
    requires forall i | 0 <= i < |ps| :: ValidName(ps[i].name)
    requires a == TableLines(Received, ps, sp) + [""] && b == TableLines(Sent, ps, sp) + [""]
    requires c == TableLines(Errors, ps, sp) + [""]
    ensures RowsFrom(None, a + b + c) == RenderedRows(ps)
  {
    TableAndBlank(Received, ps, sp);
    TableAndBlank(Sent, ps, sp);
    TableAndBlank(Errors, ps, sp);
    ThreeParts(a, b, c);
  }

  lemma {:induction false} RowsOfRender(ps: seq<Port>, sp: Spacing, lines: seq<string>)
    requires forall i | 0 <= i < |ps| :: ValidName(ps[i].name)
    requires lines == Lines(Render(ps, sp))
    ensures RowsAfter(lines, |lines|) == RenderedRows(ps)
  {
    var a, b := TableLines(Received, ps, sp) + [""], TableLines(Sent, ps, sp) + [""];
    var c := TableLines(Errors, ps, sp);
    LinesOfRender(ps, sp);
    AppendAssoc(a + b, c, [""]);
    RowsOfTables(ps, sp, a, b, c + [""]);
    AllRows(lines);
  }

  // ---- the interfaces of the rows ----

  function PortNames(ps: seq<Port>): (names: seq<string>)
    ensures |names| == |ps| && forall i | 0 <= i < |ps| :: names[i] == ps[i].name
  {
    if ps == [] then [] else [ps[0].name] + PortNames(ps[1..])
  }

  lemma {:induction false} PortRowsAt(t: Which, ps: seq<Port>)
    ensures |PortRows(t, ps)| == |ps| && forall i | 0 <= i < |ps| :: PortRows(t, ps)[i].name == ps[i].name
  {
    if ps == [] {
    } else {
      PortRowsAt(t, ps[1..]);
    }
  }

  lemma {:induction false} NamesOfDistinct(rows: seq<Row>, names: seq<string>)
    requires |names| == |rows| && NoDup(names) && forall i | 0 <= i < |rows| :: rows[i].name == names[i]
    ensures Names(rows) == names
  {
    if rows == [] {
    } else {
      var n := |rows| - 1;
      NamesOfDistinct(rows[..n], names[..n]);
      assert names == names[..n] + [names[n]];
    }
  }

  lemma {:induction false} NamesSeenBefore(a: seq<Row>, b: seq<Row>)
    requires forall i | 0 <= i < |b| :: b[i].name in Names(a)
    ensures Names(a + b) == Names(a)
  {
    if b == [] {
      assert a + b == a;
    } else {
      var n := |b| - 1;
      NamesSeenBefore(a, b[..n]);
      assert a + b == (a + b[..n]) + [b[n]];
      NamesSnoc(a + b[..n], b[n]);
    }
  }

  lemma {:induction false} RowNamesListed(t: Which, ps: seq<Port>)
    ensures forall i | 0 <= i < |PortRows(t, ps)| :: PortRows(t, ps)[i].name in PortNames(ps)
  {
    PortRowsAt(t, ps);
    forall i | 0 <= i < |PortRows(t, ps)| ensures PortRows(t, ps)[i].name in PortNames(ps) {
      assert PortNames(ps)[i] in PortNames(ps);
    }
  }

  lemma {:induction false} NamesOfFirstTable(ps: seq<Port>)
    requires ValidPorts(ps)
    ensures Names(PortRows(Received, ps)) == PortNames(ps)
  {
    PortRowsAt(Received, ps);
    NamesOfDistinct(PortRows(Received, ps), PortNames(ps));
  }

  lemma {:induction false} NamesOfTables(ps: seq<Port>)
    requires ValidPorts(ps)
    ensures Names(RenderedRows(ps)) == PortNames(ps)
  {
    NamesOfFirstTable(ps);
    RowNamesListed(Sent, ps);
    RowNamesListed(Errors, ps);
    NamesSeenBefore(PortRows(Received, ps), PortRows(Sent, ps));
    NamesSeenBefore(PortRows(Received, ps) + PortRows(Sent, ps), PortRows(Errors, ps));
  }

  // ---- the cells of one interface ----

  lemma {:induction false} CellsOfAppend(a: seq<Row>, b: seq<Row>, name: string, col: Column)
    ensures CellsOf(a + b, name) == CellsOf(a, name) + CellsOf(b, name)
    ensures LastSum(a + b, name, col) ==
              if LastSum(b, name, col) > 0 then LastSum(b, name, col) else LastSum(a, name, col)
  {
    if b == [] {
      assert a + b == a;
      assert CellsOf(a, name) + [] == CellsOf(a, name);
    } else {
      assert (a + b)[..|a + b| - 1] == a + b[..|b| - 1];
      CellsOfAppend(a, b[..|b| - 1], name, col);
    }
  }

  lemma {:induction false} CellsOfOne(r: Row, name: string, col: Column)
    ensures CellsOf([r], name) == if r.name == name then r.cells else []
    ensures LastSum([r], name, col) == if r.name == name then Sum(r.cells, col) else 0
  {
    assert [r][..0] == [];
    assert [] + r.cells == r.cells;
  }

  lemma {:induction false} CellsOfCons(r: Row, rows: seq<Row>, name: string, col: Column)
    ensures CellsOf([r] + rows, name) == (if r.name == name then r.cells else []) + CellsOf(rows, name)
    ensures LastSum([r] + rows, name, col) ==
              if LastSum(rows, name, col) > 0 then LastSum(rows, name, col)
              else if r.name == name then Sum(r.cells, col) else 0
  {
    CellsOfAppend([r], rows, name, col);
    CellsOfOne(r, name, col);
  }

  lemma {:induction false} NoCellsOfOthers(t: Which, ps: seq<Port>, name: string, col: Column)
    requires forall i | 0 <= i < |ps| :: ps[i].name != name
    ensures CellsOf(PortRows(t, ps), name) == [] && LastSum(PortRows(t, ps), name, col) == 0
  {
    if ps == [] {
    } else {
      NoCellsOfOthers(t, ps[1..], name, col);
      CellsOfCons(Row(ps[0].name, RowCells(t, ps[0])), PortRows(t, ps[1..]), name, col);
    }
  }

  /** In each table an interface has exactly its own row. */
  lemma {:induction false} CellsOfPort(t: Which, ps: seq<Port>, i: nat, col: Column)
    requires i < |ps| && forall j, k | 0 <= j < k < |ps| :: ps[j].name != ps[k].name
    ensures CellsOf(PortRows(t, ps), ps[i].name) == RowCells(t, ps[i])
    ensures LastSum(PortRows(t, ps), ps[i].name, col) == Sum(RowCells(t, ps[i]), col)
  {
    CellsOfCons(Row(ps[0].name, RowCells(t, ps[0])), PortRows(t, ps[1..]), ps[i].name, col);
    if i == 0 {
      NoCellsOfOthers(t, ps[1..], ps[i].name, col);
    } else {
      CellsOfPort(t, ps[1..], i - 1, col);
    }
  }

  // ---- what the cells of a row add up to ----

  function Pick(k: Column, v: uint64, col: Column): nat {
    if k == col then v else 0
  }

  /** The sum of the first n values of one kind. */
  function SumTo(ks: seq<Column>, vs: seq<uint64>, col: Column, n: nat): nat
    requires n <= |ks| == |vs|
  {
    if n == 0 then 0 else SumTo(ks, vs, col, n - 1) + Pick(ks[n - 1], vs[n - 1], col)
  }

  /** The last of the first n values of one kind. */
  function LastTo(ks: seq<Column>, vs: seq<uint64>, col: Column, none: uint64, n: nat): uint64
    requires n <= |ks| == |vs|
  {
    if n == 0 then none else if ks[n - 1] == col then vs[n - 1] else LastTo(ks, vs, col, none, n - 1)
  }

  lemma {:induction false} CellsAreValues(ks: seq<Column>, vs: seq<uint64>, col: Column, none: uint64, n: nat)
    requires n <= |ks| == |vs|
    ensures Total(Zip(ks, vs, n), col) == SumTo(ks, vs, col, n)
    ensures Last(Zip(ks, vs, n), col, none) == LastTo(ks, vs, col, none, n)
  {
    if n == 0 {
    } else {
      CellsAreValues(ks, vs, col, none, n - 1);
      var before, x := Zip(ks, vs, n - 1), Cell(ks[n - 1], vs[n - 1]);
      assert (before + [x])[..|before|] == before;
    }
  }

  lemma {:induction false} FourValues(ks: seq<Column>, vs: seq<uint64>, col: Column, none: uint64)
    requires |ks| == |vs| >= 4
    ensures SumTo(ks, vs, col, 4) ==
              Pick(ks[0], vs[0], col) + Pick(ks[1], vs[1], col) + Pick(ks[2], vs[2], col) + Pick(ks[3], vs[3], col)
    ensures LastTo(ks, vs, col, none, 4) ==
              if ks[3] == col then vs[3] else if ks[2] == col then vs[2]
              else if ks[1] == col then vs[1] else if ks[0] == col then vs[0] else none
  {
    assert SumTo(ks, vs, col, 0) == 0 && LastTo(ks, vs, col, none, 0) == none;
    assert SumTo(ks, vs, col, 2) == Pick(ks[0], vs[0], col) + Pick(ks[1], vs[1], col);
    assert LastTo(ks, vs, col, none, 2) == if ks[1] == col then vs[1] else if ks[0] == col then vs[0] else none;
  }

  lemma {:induction false} SixValues(ks: seq<Column>, vs: seq<uint64>, col: Column, none: uint64)
    requires |ks| == |vs| >= 6
    ensures SumTo(ks, vs, col, 6) ==
              SumTo(ks, vs, col, 4) + Pick(ks[4], vs[4], col) + Pick(ks[5], vs[5], col)
    ensures LastTo(ks, vs, col, none, 6) ==
              if ks[5] == col then vs[5] else if ks[4] == col then vs[4] else LastTo(ks, vs, col, none, 4)
  {
  }

  /** The sum of a column in each table. */
  function TableTotal(t: Which, p: Port, col: Column): nat {
    match (t, col)
    case (Received, InOctets) => p.inOctets
    case (Received, InPkts) => p.inUcast + p.inMcast + p.inBcast
    case (Sent, OutOctets) => p.outOctets
    case (Sent, OutPkts) => p.outUcast + p.outMcast + p.outBcast
    case (Errors, InErr) => p.alignErr + p.fcsErr + p.rcvErr
    case (Errors, OutErr) => p.xmitErr
    case (Errors, Other) => p.underSize
    case (Errors, OutDiscards) => p.outDiscards
    case _ => 0
  }

  /** The last cell of a column that is not summed, in each table. */
  function TableLast(t: Which, p: Port, col: Column, none: uint64): uint64 {
    match (t, col)
    case (Received, InOctets) => p.inOctets
    case (Sent, OutOctets) => p.outOctets
    case (Errors, OutDiscards) => p.outDiscards
    case _ => none
  }

  lemma {:induction false} ValuesOfRow(t: Which, p: Port, col: Column, none: uint64)
    ensures SumTo(Kinds(t), Values(t, p), col, |Kinds(t)|) == TableTotal(t, p, col)
    ensures col == InOctets || col == OutOctets || col == OutDiscards ==>
              LastTo(Kinds(t), Values(t, p), col, none, |Kinds(t)|) == TableLast(t, p, col, none)
  {
    FourValues(Kinds(t), Values(t, p), col, none);
    if t == Errors {
      SixValues(Kinds(t), Values(t, p), col, none);
    }
  }

  lemma {:induction false} TotalOfRow(t: Which, p: Port, col: Column)
    ensures Total(RowCells(t, p), col) == TableTotal(t, p, col)
  {
    ValuesOfRow(t, p, col, 0);
    CellsAreValues(Kinds(t), Values(t, p), col, 0, |Kinds(t)|);
  }

  lemma {:induction false} LastOfRow(t: Which, p: Port, col: Column, none: uint64)
    requires col == InOctets || col == OutOctets || col == OutDiscards
    ensures Last(RowCells(t, p), col, none) == TableLast(t, p, col, none)
  {
    ValuesOfRow(t, p, col, none);
    CellsAreValues(Kinds(t), Values(t, p), col, none, |Kinds(t)|);
  }

  // ---- the counters ----

  function PortCells(p: Port): seq<Cell> {
    RowCells(Received, p) + RowCells(Sent, p) + RowCells(Errors, p)
  }

  lemma {:induction false} RenderedCells(ps: seq<Port>, i: nat, col: Column)
    requires i < |ps| && ValidPorts(ps)
    ensures CellsOf(RenderedRows(ps), ps[i].name) == PortCells(ps[i])
    ensures LastSum(RenderedRows(ps), ps[i].name, col) ==
              if Sum(RowCells(Errors, ps[i]), col) > 0 then Sum(RowCells(Errors, ps[i]), col)
              else if Sum(RowCells(Sent, ps[i]), col) > 0 then Sum(RowCells(Sent, ps[i]), col)
              else Sum(RowCells(Received, ps[i]), col)
  {
    var a, b, c := PortRows(Received, ps), PortRows(Sent, ps), PortRows(Errors, ps);
    CellsOfPort(Received, ps, i, col);
    CellsOfPort(Sent, ps, i, col);
    CellsOfPort(Errors, ps, i, col);
    CellsOfAppend(a, b, ps[i].name, col);
    CellsOfAppend(a + b, c, ps[i].name, col);
  }

  lemma {:induction false} TotalOfPort(p: Port, col: Column)
    ensures Total(PortCells(p), col) ==
              TableTotal(Received, p, col) + TableTotal(Sent, p, col) + TableTotal(Errors, p, col)
  {
    TotalAppend(RowCells(Received, p), RowCells(Sent, p), col);
    TotalAppend(RowCells(Received, p) + RowCells(Sent, p), RowCells(Errors, p), col);
    TotalOfRow(Received, p, col);
    TotalOfRow(Sent, p, col);
    TotalOfRow(Errors, p, col);
  }

  lemma {:induction false} LastOfPort(p: Port, col: Column)
    requires col == InOctets || col == OutOctets || col == OutDiscards
    ensures Last(PortCells(p), col, 0) ==
              TableLast(Errors, p, col, TableLast(Sent, p, col, TableLast(Received, p, col, 0)))
  {
    var a, b, c := RowCells(Received, p), RowCells(Sent, p), RowCells(Errors, p);
    LastAppend(a + b, c, col, 0);
    LastAppend(a, b, col, 0);
    LastOfRow(Received, p, col, 0);
    LastOfRow(Sent, p, col, Last(a, col, 0));
    LastOfRow(Errors, p, col, Last(a + b, col, 0));
  }

  lemma {:induction false} OctetsOfPort(p: Port)
    ensures Last(PortCells(p), InOctets, 0) == p.inOctets
    ensures Last(PortCells(p), OutOctets, 0) == p.outOctets
    ensures Last(PortCells(p), OutDiscards, 0) == p.outDiscards
  {
    LastOfPort(p, InOctets);
    LastOfPort(p, OutOctets);
    LastOfPort(p, OutDiscards);
  }

  lemma {:induction false} ErrorsOfPort(p: Port)
    ensures Sum(PortCells(p), InErr) == ToCounters(p).inErrors
    ensures Sum(PortCells(p), OutErr) == p.xmitErr
  {
    TotalOfPort(p, InErr);
    TotalOfPort(p, OutErr);
  }

  lemma {:induction false} SumOfRow(t: Which, p: Port, col: Column, total: nat)
    requires TableTotal(t, p, col) == total
    ensures Sum(RowCells(t, p), col) == total % TWO_TO_THE_64
  {
    TotalOfRow(t, p, col);
  }

  lemma {:induction false} InPacketsOfPort(ps: seq<Port>, i: nat)
    requires i < |ps| && ValidPorts(ps)
    ensures LastSum(RenderedRows(ps), ps[i].name, InPkts) == ToCounters(ps[i]).inPackets
  {
    RenderedCells(ps, i, InPkts);
    SumOfRow(Received, ps[i], InPkts, ps[i].inUcast + ps[i].inMcast + ps[i].inBcast);
    SumOfRow(Sent, ps[i], InPkts, 0);
    SumOfRow(Errors, ps[i], InPkts, 0);
  }

  lemma {:induction false} OutPacketsOfPort(ps: seq<Port>, i: nat)
    requires i < |ps| && ValidPorts(ps)
    ensures LastSum(RenderedRows(ps), ps[i].name, OutPkts) == ToCounters(ps[i]).outPackets
  {
    RenderedCells(ps, i, OutPkts);
    SumOfRow(Received, ps[i], OutPkts, 0);
    SumOfRow(Sent, ps[i], OutPkts, ps[i].outUcast + ps[i].outMcast + ps[i].outBcast);
    SumOfRow(Errors, ps[i], OutPkts, 0);
  }

  lemma {:induction false} CountersOfCells(rows: seq<Row>, p: Port, cells: seq<Cell>)
    requires CellsOf(rows, p.name) == cells
    requires LastSum(rows, p.name, InPkts) == ToCounters(p).inPackets
    requires LastSum(rows, p.name, OutPkts) == ToCounters(p).outPackets
    requires Last(cells, InOctets, 0) == p.inOctets && Last(cells, OutOctets, 0) == p.outOctets
    requires Last(cells, OutDiscards, 0) == p.outDiscards
    requires Sum(cells, InErr) == ToCounters(p).inErrors && Sum(cells, OutErr) == p.xmitErr
    ensures CountersFor(rows, p.name) == ToCounters(p)
  {
  }

  lemma {:induction false} CountersOfPort(ps: seq<Port>, i: nat)
    requires i < |ps| && ValidPorts(ps)
    ensures CountersFor(RenderedRows(ps), ps[i].name) == ToCounters(ps[i])
  {
    RenderedCells(ps, i, Other);
    InPacketsOfPort(ps, i);
    OutPacketsOfPort(ps, i);
    OctetsOfPort(ps[i]);
    ErrorsOfPort(ps[i]);
    CountersOfCells(RenderedRows(ps), ps[i], PortCells(ps[i]));
  }

  function AllCounters(ps: seq<Port>): seq<IfaceCounters> {
    if ps == [] then [] else [ToCounters(ps[0])] + AllCounters(ps[1..])
  }

  lemma {:induction false} TableOfPorts(ps: seq<Port>, rows: seq<Row>)
    requires forall i | 0 <= i < |ps| :: CountersFor(rows, ps[i].name) == ToCounters(ps[i])
    ensures TableOf(PortNames(ps), rows) == AllCounters(ps)
  {
    if ps == [] {
    } else {
      TableOfPorts(ps[1..], rows);
      assert PortNames(ps)[1..] == PortNames(ps[1..]);
    }
  }

  /** Parsing the printed tables returns every interface's counters, in the same order, for any spacing of the
      columns and any 64-bit values. */
  lemma {:induction false} ParseOfRender(ps: seq<Port>, sp: Spacing)
    requires ValidPorts(ps)
    ensures CiscoIfaces(Render(ps, sp)) == AllCounters(ps)
  {
    RowsOfRender(ps, sp, Lines(Render(ps, sp)));
    NamesOfTables(ps);
    forall i | 0 <= i < |ps| ensures CountersFor(RenderedRows(ps), ps[i].name) == ToCounters(ps[i]) {
      CountersOfPort(ps, i);
    }
    TableOfPorts(ps, RenderedRows(ps));
  }

  // ---- any list of counters ----

  /** The counters the tables can show: no states, no received drops, a valid name. */
  predicate Printable(c: IfaceCounters) {
    ValidName(c.name) && c.admin == "" && c.oper == "" && c.inDrops == 0
  }

  /** One way to print them: all packets unicast, all received errors checksum errors. */
  function ToPort(c: IfaceCounters): Port {
    Port(c.name, c.inBytes, c.inPackets, 0, 0, c.outBytes, c.outPackets, 0, 0,
         0, c.inErrors, c.outErrors, 0, 0, c.outDrops)
  }

  function ToPorts(cs: seq<IfaceCounters>): (ps: seq<Port>)
    ensures |ps| == |cs| && forall i | 0 <= i < |cs| :: ps[i] == ToPort(cs[i])
  {
    if cs == [] then [] else [ToPort(cs[0])] + ToPorts(cs[1..])
  }

  lemma {:induction false} BackAndForth(c: IfaceCounters)
    requires Printable(c)
    ensures ToCounters(ToPort(c)) == c
  {
  }

  lemma {:induction false} CountersOfPorts(cs: seq<IfaceCounters>)
    requires forall i | 0 <= i < |cs| :: Printable(cs[i])
    ensures AllCounters(ToPorts(cs)) == cs
  {
    if cs == [] {
    } else {
      BackAndForth(cs[0]);
      CountersOfPorts(cs[1..]);
      assert ToPorts(cs)[1..] == ToPorts(cs[1..]);
    }
  }

  /** Printing and parsing undo each other on every list of printable counters with distinct names. */
  lemma {:induction false} RoundTrip(cs: seq<IfaceCounters>, sp: Spacing)
    requires forall i | 0 <= i < |cs| :: Printable(cs[i])
    requires forall i, j | 0 <= i < j < |cs| :: cs[i].name != cs[j].name
    ensures CiscoIfaces(Render(ToPorts(cs), sp)) == cs
  {
    ParseOfRender(ToPorts(cs), sp);
    CountersOfPorts(cs);
  }
}
