/** What a block of Junos statistics means, field by field and for every text, without the functions that read it. */
module JunosRows {
  import opened Common
  import opened Text
  import opened Device
  import opened Blocks
  import opened IfaceText
  import opened Junos

  /** The phrase stands somewhere in the text, in any case. */
  ghost predicate Says(text: string, phrase: string) {
    exists k: nat :: OccursAt(Lower(text), phrase, k)
  }

  lemma {:induction false} ContainsIffSays(text: string, phrase: string)
    ensures Contains(Lower(text), phrase) <==> Says(text, phrase)
  {
    if Contains(Lower(text), phrase) {
      var k: nat := Index(Lower(text), phrase);
      assert OccursAt(Lower(text), phrase, k);
    }
  }

  ghost predicate AdminIs(admin: string, rest: string) {
    if Says(rest, "administratively down") || Says(rest, "disabled") then admin == "down"
    else admin == if Says(rest, "enabled") then "up" else ""
  }

  ghost predicate OperIs(oper: string, rest: string) {
    if Says(rest, "physical link is up") then oper == "up"
    else oper == if Says(rest, "physical link is down") then "down" else ""
  }

  /** The states of an interface are what the rest of its first line says, in any case: "down" as soon as it says
      that it is, "up" when it says only that. */
  lemma {:induction false} StatesRead(rest: string)
    ensures AdminIs(JunosAdmin(rest), rest)
    ensures OperIs(JunosOper(rest), rest)
  {
    ContainsIffSays(rest, "administratively down");
    ContainsIffSays(rest, "disabled");
    ContainsIffSays(rest, "enabled");
    ContainsIffSays(rest, "physical link is up");
    ContainsIffSays(rest, "physical link is down");
  }

  /** The number behind a match, or 0. */
  ghost predicate Counts(re: Regex, text: string, n: uint64) {
    match re(text)
    case Some(g) => n == MustUint(g)
    case None => n == 0
  }

  /** The text of a block: up to its first logical interface, and in it the traffic and error sections. */
  datatype Parts = Parts(phys: string, traffic: string, inErrors: string, outErrors: string)

  ghost predicate PartsOf(parts: Parts, block: string) {
    && IsCut(parts.phys, block, "logical interface")
    && IsSection(parts.traffic, parts.phys, "traffic statistics:", ["ipv6", "input errors:", "output errors:"])
    && IsSection(parts.inErrors, parts.phys, "input errors:", ["output errors:"])
    && IsSection(parts.outErrors, parts.phys, "output errors:", [])
  }

  ghost predicate TrafficRead(re: Regexes, parts: Parts, c: IfaceCounters) {
    var text := if parts.traffic == "" then parts.phys else parts.traffic;
    && Counts(re.inPackets, text, c.inPackets) && Counts(re.outPackets, text, c.outPackets)
    && Counts(re.inBytes, text, c.inBytes) && Counts(re.outBytes, text, c.outBytes)
  }

  ghost predicate ErrorsRead(re: Regexes, parts: Parts, c: IfaceCounters) {
    && ReadFrom(re, re.compactInErr, parts.inErrors, parts.phys, c.inErrors, c.inDrops)
    && ReadFrom(re, re.compactOutErr, parts.outErrors, parts.phys, c.outErrors, c.outDrops)
  }

  lemma {:induction false} PartsAreComputed(parts: Parts, block: string)
    requires PartsOf(parts, block)
    ensures CutAt(block, LOGICAL) == parts.phys
    ensures Section(parts.phys, "traffic statistics:", TRAFFIC_ENDS) == parts.traffic
    ensures Section(parts.phys, "input errors:", ["output errors:"]) == parts.inErrors
    ensures Section(parts.phys, "output errors:", []) == parts.outErrors
  {
    var phys := parts.phys;
    CutUnique(phys, block, LOGICAL);
    SectionIs(phys, "traffic statistics:", TRAFFIC_ENDS);
    SectionUnique(parts.traffic, Section(phys, "traffic statistics:", TRAFFIC_ENDS),
                  phys, "traffic statistics:", TRAFFIC_ENDS);
    SectionIs(phys, "input errors:", ["output errors:"]);
    SectionUnique(parts.inErrors, Section(phys, "input errors:", ["output errors:"]),
                  phys, "input errors:", ["output errors:"]);
    SectionIs(phys, "output errors:", []);
    SectionUnique(parts.outErrors, Section(phys, "output errors:", []), phys, "output errors:", []);
  }

  lemma {:induction false} NamedBy(re: Regexes, phys: string)
    ensures PhysicalCounters(re, phys).Some? <==> re.phys(phys).Some? && PhysicalIfd(re.phys(phys).value.0) != ""
    ensures PhysicalCounters(re, phys).Some? ==>
              var (id, rest), c := re.phys(phys).value, PhysicalCounters(re, phys).value;
              c.name == PhysicalIfd(id) && c.admin == JunosAdmin(rest) && c.oper == JunosOper(rest)
  {
  }

  lemma {:induction false} TrafficOf(re: Regexes, phys: string, parts: Parts)
    requires PhysicalCounters(re, phys).Some? && phys == parts.phys
    requires Section(phys, "traffic statistics:", TRAFFIC_ENDS) == parts.traffic
    ensures TrafficRead(re, parts, PhysicalCounters(re, phys).value)
  {
  }

  lemma {:induction false} ErrorsOf(re: Regexes, phys: string, parts: Parts)
    requires PhysicalCounters(re, phys).Some? && phys == parts.phys
    requires Section(phys, "input errors:", ["output errors:"]) == parts.inErrors
    requires Section(phys, "output errors:", []) == parts.outErrors
    ensures ErrorsRead(re, parts, PhysicalCounters(re, phys).value)
  {
    var c := PhysicalCounters(re, phys).value;
    CountersOfSections(re, phys, parts.inErrors, parts.outErrors);
    ErrorsAndDropsRead(re, re.compactInErr, parts.inErrors, phys, c.inErrors, c.inDrops);
    ErrorsAndDropsRead(re, re.compactOutErr, parts.outErrors, phys, c.outErrors, c.outDrops);
  }

  /** The row of any block. It has one exactly when the text before its first logical interface names an interface
      by more than a blank; the row carries that name without its unit, the states its first line gives, packets
      and octets from the traffic section, or from all of that text when there is none, and the errors of each
      direction from its own section, or from the compact form when that holds none. */
  lemma {:induction false} BlockRead(re: Regexes, block: string, parts: Parts)
    requires PartsOf(parts, block)
    ensures JunosBlock(re, block).Some? <==>
              re.phys(parts.phys).Some? && PhysicalIfd(re.phys(parts.phys).value.0) != ""
    ensures JunosBlock(re, block).Some? ==>
              var (id, rest), c := re.phys(parts.phys).value, JunosBlock(re, block).value;
              && c.name == PhysicalIfd(id) && AdminIs(c.admin, rest) && OperIs(c.oper, rest)
              && TrafficRead(re, parts, c) && ErrorsRead(re, parts, c)
  {
    PartsAreComputed(parts, block);
    BlockOfCut(re, block, parts.phys);
    NamedBy(re, parts.phys);
    if PhysicalCounters(re, parts.phys).Some? {
      StatesRead(re.phys(parts.phys).value.1);
      TrafficOf(re, parts.phys, parts);
      ErrorsOf(re, parts.phys, parts);
    }
  }

  /** Every block has such parts. */
  lemma {:induction false} PartsExist(block: string) returns (parts: Parts)
    ensures PartsOf(parts, block)
  {
    var phys := CutAt(block, LOGICAL);
    CutIs(block, LOGICAL);
    SectionIs(phys, "traffic statistics:", TRAFFIC_ENDS);
    SectionIs(phys, "input errors:", ["output errors:"]);
    SectionIs(phys, "output errors:", []);
    parts := Parts(phys, Section(phys, "traffic statistics:", TRAFFIC_ENDS),
                   Section(phys, "input errors:", ["output errors:"]), Section(phys, "output errors:", []));
  }
}
