/** ifaces.go: the Junos interface statistics. Regular expressions are functions of the text they are given. */
module Junos {
  import opened Common
  import opened Text
  import opened Device
  import opened Blocks
  import opened IfaceText

  const PHYSICAL := "physical interface:"
  const LOGICAL := "logical interface"
  const TRAFFIC_ENDS := ["ipv6", "input errors:", "output errors:"]

  /** FindStringSubmatch of a regular expression with one group: the group, when the expression matches. */
  type Regex = string -> Option<string>

  /** The regular expressions of the parser. `phys` has two groups, the name and the rest of its line. */
  datatype Regexes = Regexes(
    phys: string -> Option<(string, string)>,
    inPackets: Regex, outPackets: Regex, inBytes: Regex, outBytes: Regex,
    bareErrors: Regex, bareDrops: Regex, compactInErr: Regex, compactOutErr: Regex)

  function JunosAdmin(rest: string): string {
    var l := Lower(rest);
    if Contains(l, "administratively down") || Contains(l, "disabled") then "down"
    else if Contains(l, "enabled") then "up"
    else ""
  }

  function JunosOper(rest: string): string {
    var l := Lower(rest);
    if Contains(l, "physical link is up") then "up"
    else if Contains(l, "physical link is down") then "down"
    else ""
  }

  function FirstUint(re: Regex, s: string): uint64 {
    match re(s)
    case Some(g) => MustUint(g)
    case None => 0
  }

  /** Errors and drops of one direction: from its own section when that holds any, else from the compact form. */
  function ErrorsAndDrops(re: Regexes, compact: Regex, section: string, phys: string): (uint64, uint64) {
    if re.bareErrors(section).Some? || re.bareDrops(section).Some?
    then (FirstUint(re.bareErrors, section), FirstUint(re.bareDrops, section))
    else (FirstUint(compact, phys), 0)
  }

  /** parseJunosIfaceBlock, once the block is cut at its logical interfaces. */
  function PhysicalCounters(re: Regexes, phys: string): Option<IfaceCounters> {
    match re.phys(phys)
    case None => None
    case Some((id, rest)) =>
      var name := PhysicalIfd(id);
      if name == "" then None
      else
        var section := Section(phys, "traffic statistics:", TRAFFIC_ENDS);
        var traffic := if section == "" then phys else section;
        var (inErrors, inDrops) :=
          ErrorsAndDrops(re, re.compactInErr, Section(phys, "input errors:", ["output errors:"]), phys);
        var (outErrors, outDrops) :=
          ErrorsAndDrops(re, re.compactOutErr, Section(phys, "output errors:", []), phys);
        Some(IfaceCounters(
               name, JunosAdmin(rest), JunosOper(rest),
               FirstUint(re.inPackets, traffic), FirstUint(re.outPackets, traffic),
               FirstUint(re.inBytes, traffic), FirstUint(re.outBytes, traffic),
               inDrops, outDrops, inErrors, outErrors))
  }

  /** parseJunosIfaceBlock */
  function JunosBlock(re: Regexes, block: string): Option<IfaceCounters> {
    PhysicalCounters(re, CutAt(block, LOGICAL))
  }

  function BlockParser(re: Regexes): string -> Option<IfaceCounters> {
    block => JunosBlock(re, block)
  }

  /** The counters of the blocks that have any. */
  function JunosIfaces(re: Regexes, s: string): seq<IfaceCounters> {
    FilterMap(BlockParser(re), Split(s, PHYSICAL))
  }

  /** parseJunosIfaces */
  method ParseJunosIfaces(re: Regexes, s: string) returns (out: seq<IfaceCounters>)
    ensures out == JunosIfaces(re, s)
  {
    out := ParseMarked(BlockParser(re), s, PHYSICAL);
  }

  method ParseMarked(parse: string -> Option<IfaceCounters>, s: string, mark: string)
    returns (out: seq<IfaceCounters>)
    requires |mark| > 0 && forall i | 0 <= i < |mark| :: !('A' <= mark[i] <= 'Z')
    ensures out == FilterMap(parse, Split(s, mark))
  {
    LowerFixed(mark);
    var blocks := SplitMarkedBlocks(s, mark);
    out := ParseBlocks(parse, blocks);
  }

  /** Its loop over the blocks. */
  method ParseBlocks(parse: string -> Option<IfaceCounters>, blocks: seq<string>) returns (out: seq<IfaceCounters>)
    ensures out == FilterMap(parse, blocks)
  {
    out := [];
    for i := 0 to |blocks|
      invariant out == FilterMap(parse, blocks[..i])
    {
      FilterMapNext(parse, blocks, i);
      var c := parse(blocks[i]);
      if c.Some? {
        out := out + [c.value];
      }
    }
    assert blocks[..|blocks|] == blocks;
  }

  lemma {:induction false} FilterMapNext<T>(f: string -> Option<T>, blocks: seq<string>, n: nat)
    requires n < |blocks|
    ensures FilterMap(f, blocks[..n + 1]) ==
              match f(blocks[n]) case Some(c) => FilterMap(f, blocks[..n]) + [c] case None => FilterMap(f, blocks[..n])
  {
    assert blocks[..n + 1] == blocks[..n] + [blocks[n]];
    FilterMapAppend(f, blocks[..n], [blocks[n]]);
    FilterMapOne(f, blocks[n]);
  }

  // ---- what cannot leak ----

  lemma {:induction false} PhysicalHasNoBorder()
    ensures NoBorder(PHYSICAL)
  {
    forall k | 0 < k < |PHYSICAL| ensures PHYSICAL[k..] != PHYSICAL[..|PHYSICAL| - k] {
      assert PHYSICAL[k..][0] != 'p' && PHYSICAL[..|PHYSICAL| - k][0] == 'p';
    }
  }

  /** Interfaces of one block never depend on another block: texts starting with the mark parse independently. */
  lemma {:induction false} BlocksAreIndependent(re: Regexes, u: string, v: string)
    requires v == "" || OccursAt(Lower(v), PHYSICAL, 0)
    ensures JunosIfaces(re, u + v) == JunosIfaces(re, u) + JunosIfaces(re, v)
  {
    PhysicalHasNoBorder();
    SplitAppend(u, v, PHYSICAL);
    FilterMapAppend(BlockParser(re), Split(u, PHYSICAL), Split(v, PHYSICAL));
  }

  /** No occurrence of "physical interface:" reaches into "logical interface": the one has no 'o', the other
      no ':' and no 'p'. */
  lemma {:induction false} NoStraddle(a: string, x: string, k: nat)
    requires OccursAt(a + LOGICAL + x, PHYSICAL, k)
    ensures k + |PHYSICAL| <= |a| || k >= |a| + |LOGICAL|
  {
    if k <= |a| + 1 < k + |PHYSICAL| {
      NoLetterO(|a| + 1 - k);
      SharedChar(a, x, k, 1);
    } else if k + |PHYSICAL| == |a| + 1 {
      SharedChar(a, x, k, 0);
    } else if |a| + 1 < k < |a| + |LOGICAL| {
      SharedChar(a, x, k, k - |a|);
    }
  }

  lemma {:induction false} NoLetterO(i: nat)
    requires i < |PHYSICAL|
    ensures PHYSICAL[i] != LOGICAL[1]
  {
    assert PHYSICAL[..8] == "physical" && PHYSICAL[8..] == " interface:";
  }

  /** Where the two marks cover the same position they agree on the character there. */
  lemma {:induction false} SharedChar(a: string, x: string, k: nat, i: nat)
    requires OccursAt(a + LOGICAL + x, PHYSICAL, k) && i < |LOGICAL| && k <= |a| + i < k + |PHYSICAL|
    ensures PHYSICAL[|a| + i - k] == LOGICAL[i]
  {
    var t := a + LOGICAL + x;
    assert t[|a| + i] == LOGICAL[i];
    assert t[k..k + |PHYSICAL|][|a| + i - k] == t[|a| + i];
  }

  lemma {:induction false} MarksStayBefore(a: string, l: string, x: string)
    requires Lower(l) == LOGICAL && Free(x, PHYSICAL)
    ensures AllWithin(a, l + x, PHYSICAL)
  {
    assert a + (l + x) == a + l + x;
    LowerConcat(a + l, x);
    LowerConcat(a, l);
    forall k: nat | OccursAt(Lower(a + (l + x)), PHYSICAL, k) ensures k + |PHYSICAL| <= |a| {
      NoStraddle(Lower(a), Lower(x), k);
      if k >= |a| + |LOGICAL| {
        OccursInConcat(a + l, x, PHYSICAL, k - |a| - |l|);
      }
    }
  }

  lemma {:induction false} CutExtended(re: Regexes, bs: seq<string>, l: string, x: string, y: string)
    requires Lower(l) == LOGICAL
    ensures FilterMap(BlockParser(re), Extend(bs, l + x)) == FilterMap(BlockParser(re), Extend(bs, l + y))
  {
    if bs != [] {
      var f, init, b := BlockParser(re), bs[..|bs| - 1], bs[|bs| - 1];
      SameBlock(re, b, l, x, y);
      FilterMapLast(f, init, b + (l + x), b + (l + y));
    }
  }

  lemma {:induction false} FilterMapLast<S, T>(f: S -> Option<T>, init: seq<S>, u: S, v: S)
    requires f(u) == f(v)
    ensures FilterMap(f, init + [u]) == FilterMap(f, init + [v])
  {
    FilterMapAppend(f, init, [u]);
    FilterMapAppend(f, init, [v]);
    FilterMapOne(f, u);
    FilterMapOne(f, v);
  }

  lemma {:induction false} SameCut(b: string, l: string, x: string, y: string, mark: string)
    requires Lower(l) == mark
    ensures CutAt(b + (l + x), mark) == CutAt(b + (l + y), mark)
  {
    assert b + (l + x) == b + l + x && b + (l + y) == b + l + y;
    CutIgnoresTail(b, l, x, y, mark);
  }

  lemma {:induction false} SameBlock(re: Regexes, b: string, l: string, x: string, y: string)
    requires Lower(l) == LOGICAL
    ensures JunosBlock(re, b + (l + x)) == JunosBlock(re, b + (l + y))
  {
    SameCut(b, l, x, y, LOGICAL);
    BlockOfCut(re, b + (l + x), CutAt(b + (l + x), LOGICAL));
    BlockOfCut(re, b + (l + y), CutAt(b + (l + x), LOGICAL));
  }

  lemma {:induction false} BlockOfCut(re: Regexes, block: string, phys: string)
    requires phys == CutAt(block, LOGICAL)
    ensures JunosBlock(re, block) == PhysicalCounters(re, phys)
  {
  }

  /** Whatever stands between a "logical interface" and the next physical interface changes nothing. `l` is that
      mark in any mix of cases, `b` the rest of the output from the next physical interface on. */
  lemma {:induction false} LogicalTextCannotLeak(re: Regexes, a: string, l: string, x: string, y: string, b: string)
    requires Lower(l) == LOGICAL && Free(x, PHYSICAL) && Free(y, PHYSICAL)
    requires b == "" || OccursAt(Lower(b), PHYSICAL, 0)
    ensures JunosIfaces(re, a + (l + x) + b) == JunosIfaces(re, a + (l + y) + b)
  {
    PhysicalHasNoBorder();
    MarksStayBefore(a, l, x);
    MarksStayBefore(a, l, y);
    SplitExtend(a, l + x, PHYSICAL);
    SplitExtend(a, l + y, PHYSICAL);
    CutExtended(re, Split(a, PHYSICAL), l, x, y);
    BlocksAreIndependent(re, a + (l + x), b);
    BlocksAreIndependent(re, a + (l + y), b);
  }

  // ---- which text a counter is read from ----

  lemma {:induction false} CountersOfSections(re: Regexes, phys: string, inText: string, outText: string)
    requires inText == Section(phys, "input errors:", ["output errors:"])
    requires outText == Section(phys, "output errors:", [])
    requires PhysicalCounters(re, phys).Some?
    ensures var c := PhysicalCounters(re, phys).value;
            && (c.inErrors, c.inDrops) == ErrorsAndDrops(re, re.compactInErr, inText, phys)
            && (c.outErrors, c.outDrops) == ErrorsAndDrops(re, re.compactOutErr, outText, phys)
  {
  }

  /** `errors` and `drops` are what `section` holds of them; only if it holds neither, the block's compact form. */
  ghost predicate ReadFrom(re: Regexes, compact: Regex, section: string, phys: string, errors: uint64, drops: uint64) {
    match (re.bareErrors(section), re.bareDrops(section))
    case (Some(e), Some(d)) => errors == MustUint(e) && drops == MustUint(d)
    case (Some(e), None) => errors == MustUint(e) && drops == 0
    case (None, Some(d)) => errors == 0 && drops == MustUint(d)
    case (None, None) => errors == FirstUint(compact, phys) && drops == 0
  }

  lemma {:induction false} ErrorsAndDropsRead(
    re: Regexes, compact: Regex, section: string, phys: string, errors: uint64, drops: uint64)
    requires (errors, drops) == ErrorsAndDrops(re, compact, section, phys)
    ensures ReadFrom(re, compact, section, phys, errors, drops)
  {
  }

  /** A block with the two error sections in their order: the counters of each direction are read between its own
      mark and the next one, so they cannot come from the other direction. */
  lemma {:induction false} ErrorsStayInTheirSection(re: Regexes, phys: string, i: nat, j: nat)
    requires Index(Lower(phys), Lower("input errors:")) == i && Index(Lower(phys), Lower("output errors:")) == j
    requires i + 13 <= j && PhysicalCounters(re, phys).Some?
    ensures j + 14 <= |phys|
    ensures var c := PhysicalCounters(re, phys).value;
            && ReadFrom(re, re.compactInErr, phys[i + 13..j], phys, c.inErrors, c.inDrops)
            && ReadFrom(re, re.compactOutErr, phys[j + 14..], phys, c.outErrors, c.outDrops)
  {
    ErrorSections(phys, i, j);
    var c, inText, outText := PhysicalCounters(re, phys).value, phys[i + 13..j], phys[j + 14..];
    CountersOfSections(re, phys, inText, outText);
    ErrorsAndDropsRead(re, re.compactInErr, inText, phys, c.inErrors, c.inDrops);
    ErrorsAndDropsRead(re, re.compactOutErr, outText, phys, c.outErrors, c.outDrops);
  }

  lemma {:induction false} ErrorSections(phys: string, i: nat, j: nat)
    requires Index(Lower(phys), Lower("input errors:")) == i && Index(Lower(phys), Lower("output errors:")) == j
    requires i + 13 <= j
    ensures j + 14 <= |phys|
    ensures phys[i + 13..j] == Section(phys, "input errors:", ["output errors:"])
    ensures phys[j + 14..] == Section(phys, "output errors:", [])
  {
    SectionBetweenMarks(phys, "input errors:", "output errors:", i, j);
    SectionToTheEnd(phys, "output errors:", j);
  }

  lemma {:induction false} CountersOfTraffic(re: Regexes, phys: string, section: string)
    requires section == Section(phys, "traffic statistics:", TRAFFIC_ENDS) && section != ""
    requires PhysicalCounters(re, phys).Some?
    ensures var c := PhysicalCounters(re, phys).value;
            && c.inPackets == FirstUint(re.inPackets, section) && c.outPackets == FirstUint(re.outPackets, section)
            && c.inBytes == FirstUint(re.inBytes, section) && c.outBytes == FirstUint(re.outBytes, section)
  {
  }

  lemma {:induction false} TrafficSection(phys: string, t: nat, body: string)
    requires Index(Lower(phys), Lower("traffic statistics:")) == t
    requires t + 19 <= |phys| && body == phys[t + 19..]
    ensures Section(phys, "traffic statistics:", TRAFFIC_ENDS) == SectionOf(body, TRAFFIC_ENDS)
  {
    SectionAfter(phys, "traffic statistics:", t, body, TRAFFIC_ENDS);
  }

  /** A block with traffic statistics: packets and octets are read before the IPv6 statistics and before both
      error sections, whatever numbers those hold. */
  lemma {:induction false} TrafficStaysInItsSection(re: Regexes, phys: string, t: nat, section: string)
    requires Index(Lower(phys), Lower("traffic statistics:")) == t && t + 19 <= |phys|
    requires section == SectionOf(phys[t + 19..], TRAFFIC_ENDS) && section != ""
    requires PhysicalCounters(re, phys).Some?
    ensures StopsAtFirst(section, phys[t + 19..], TRAFFIC_ENDS)
    ensures var c := PhysicalCounters(re, phys).value;
            && c.inPackets == FirstUint(re.inPackets, section) && c.outPackets == FirstUint(re.outPackets, section)
            && c.inBytes == FirstUint(re.inBytes, section) && c.outBytes == FirstUint(re.outBytes, section)
  {
    TrafficSection(phys, t, phys[t + 19..]);
    CountersOfTraffic(re, phys, section);
    SectionIsIsolated(phys[t + 19..], TRAFFIC_ENDS);
  }
}
