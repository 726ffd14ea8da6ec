/** ifaces.go: cutting command output into marked blocks and sections, case-insensitively. */
module Blocks {
  import opened Common
  import opened Text

  /** Concatenation of all strings. */
  function Flat(parts: seq<string>): string {
    if parts == [] then "" else parts[0] + Flat(parts[1..])
  }

  // ---- splitMarkedBlocks ----

  /** The blocks of `t`, which starts with the mark. */
  function SplitFrom(t: string, mark: string): seq<string>
    requires |mark| > 0
    decreases |t|
  {
    var j := IndexFrom(Lower(t), mark, |mark|);
    if j < 0 then [t] else [t[..j]] + SplitFrom(t[j..], mark)
  }

  /** splitMarkedBlocks, for a mark already in lower case. */
  function Split(s: string, mark: string): seq<string>
    requires |mark| > 0
  {
    var i := Index(Lower(s), mark);
    if i < 0 then [] else SplitFrom(s[i..], mark)
  }

  /** Positions in a text of length n, none before `lo` and each after the one before it. */
  predicate Rising(starts: seq<nat>, lo: nat, n: nat) {
    starts != [] ==> lo <= starts[0] <= n && Rising(starts[1..], starts[0] + 1, n)
  }

  /** The positions the scan collects from idx on: the mark's occurrences, never two that overlap. */
  function Starts(ls: string, mark: string, idx: nat): seq<nat>
    requires |mark| > 0 && idx <= |ls|
    decreases |ls| - idx
  {
    var i := IndexFrom(ls, mark, idx);
    if i < 0 then [] else [i] + Starts(ls, mark, i + |mark|)
  }

  lemma {:induction false} StartsRise(ls: string, mark: string, idx: nat)
    requires |mark| > 0 && idx <= |ls|
    ensures Rising(Starts(ls, mark, idx), idx, |ls|)
    decreases |ls| - idx
  {
    var i := IndexFrom(ls, mark, idx);
    if i >= 0 {
      StartsRise(ls, mark, i + |mark|);
      RisingFrom(Starts(ls, mark, i + |mark|), i + |mark|, i + 1, |ls|);
    }
  }

  lemma {:induction false} RisingFrom(starts: seq<nat>, hi: nat, lo: nat, n: nat)
    requires Rising(starts, hi, n) && lo <= hi
    ensures Rising(starts, lo, n)
  {
  }

  /** The text cut at the given positions. */
  function Cut(s: string, starts: seq<nat>): seq<string>
    requires Rising(starts, 0, |s|)
  {
    if starts == [] then []
    else
      RisingFrom(starts[1..], starts[0] + 1, 0, |s|);
      [s[starts[0]..if |starts| > 1 then starts[1] else |s|]] + Cut(s, starts[1..])
  }

  lemma {:induction false} OccursInSuffix(s: string, sub: string, from: nat, k: nat)
    requires from <= |s|
    ensures OccursAt(s[from..], sub, k) <==> OccursAt(s, sub, from + k)
  {
    if from + k + |sub| <= |s| {
      assert s[from..][k..k + |sub|] == s[from + k..from + k + |sub|];
    }
  }

  /** Searching a suffix finds what searching the whole text from there on finds. */
  lemma {:induction false} IndexShift(s: string, sub: string, p: nat, from: nat)
    requires p + from <= |s|
    ensures var i := IndexFrom(s[p..], sub, from);
            IndexFrom(s, sub, p + from) == if i < 0 then -1 else p + i
  {
    var i, j := IndexFrom(s, sub, p + from), IndexFrom(s[p..], sub, from);
    if i >= 0 {
      OccursInSuffix(s, sub, p, i - p);
    }
    if j >= 0 {
      OccursInSuffix(s, sub, p, j);
    }
  }

  lemma {:induction false} StartsFrom(ls: string, mark: string, idx: nat, i: nat)
    requires |mark| > 0 && idx <= |ls| && IndexFrom(ls, mark, idx) == i
    ensures Starts(ls, mark, idx) == [i] + Starts(ls, mark, i + |mark|)
  {
  }

  lemma {:induction false} SplitFromUnfold(t: string, mark: string, j: nat, head: string, tail: string)
    requires |mark| > 0 && IndexFrom(Lower(t), mark, |mark|) == j && head == t[..j] && tail == t[j..]
    ensures SplitFrom(t, mark) == [head] + SplitFrom(tail, mark)
  {
  }

  lemma {:induction false} LowerIndexShift(s: string, mark: string, p: nat)
    requires p + |mark| <= |s|
    ensures var i := IndexFrom(Lower(s[p..]), mark, |mark|);
            IndexFrom(Lower(s), mark, p + |mark|) == if i < 0 then -1 else p + i
  {
    LowerSuffix(s, p);
    IndexShift(Lower(s), mark, p, |mark|);
  }

  /** The block at p ends at the next mark j. */
  lemma {:induction false} SplitFromNext(s: string, mark: string, p: nat, j: nat)
    requires |mark| > 0 && p + |mark| <= |s| && IndexFrom(Lower(s), mark, p + |mark|) == j
    ensures SplitFrom(s[p..], mark) == [s[p..j]] + SplitFrom(s[j..], mark)
  {
    LowerIndexShift(s, mark, p);
    SliceTwice(s, p, j);
    SplitFromUnfold(s[p..], mark, j - p, s[p..j], s[j..]);
  }

  lemma {:induction false} SliceTwice(s: string, p: nat, j: nat)
    requires p <= j <= |s|
    ensures s[p..][j - p..] == s[j..] && s[p..][..j - p] == s[p..j]
  {
  }

  /** The last mark: its block is the rest of the text. */
  lemma {:induction false} SplitFromLast(s: string, mark: string, p: nat)
    requires |mark| > 0 && p + |mark| <= |s| && IndexFrom(Lower(s), mark, p + |mark|) < 0
    ensures SplitFrom(s[p..], mark) == [s[p..]]
  {
    LowerIndexShift(s, mark, p);
  }

  lemma {:induction false} CutNext(s: string, p: nat, rest: seq<nat>)
    requires Rising(rest, p + 1, |s|) && p <= |s|
    ensures Rising([p] + rest, 0, |s|) && Rising(rest, 0, |s|)
    ensures Cut(s, [p] + rest) == [s[p..if rest != [] then rest[0] else |s|]] + Cut(s, rest)
  {
    assert ([p] + rest)[1..] == rest;
    RisingFrom(rest, p + 1, 0, |s|);
  }

  /** Cutting at p and at the starts after it, and taking one block after the other, give the same blocks. */
  ghost predicate CutAgrees(s: string, mark: string, p: nat, starts: seq<nat>)
    requires |mark| > 0 && p <= |s|
  {
    Rising([p] + starts, 0, |s|) && Cut(s, [p] + starts) == SplitFrom(s[p..], mark)
  }

  lemma {:induction false} CutAgreesNext(s: string, mark: string, p: nat, j: nat, later: seq<nat>, starts: seq<nat>)
    requires |mark| > 0 && p + |mark| <= |s| && IndexFrom(Lower(s), mark, p + |mark|) == j
    requires CutAgrees(s, mark, j, later) && starts == [j] + later && Rising(starts, p + 1, |s|)
    ensures CutAgrees(s, mark, p, starts)
  {
    CutNext(s, p, [j] + later);
    SplitFromNext(s, mark, p, j);
  }

  lemma {:induction false} CutAgreesLast(s: string, mark: string, p: nat, starts: seq<nat>)
    requires |mark| > 0 && p + |mark| <= |s| && IndexFrom(Lower(s), mark, p + |mark|) < 0 && starts == []
    ensures CutAgrees(s, mark, p, starts)
  {
    CutNext(s, p, []);
    SplitFromLast(s, mark, p);
    assert [p] + [] == [p];
    assert s[p..] == s[p..|s|];
  }

  lemma {:induction false} CutIsSplitFrom(s: string, mark: string, p: nat, starts: seq<nat>)
    requires |mark| > 0 && p + |mark| <= |s| && starts == Starts(Lower(s), mark, p + |mark|)
    ensures CutAgrees(s, mark, p, starts)
    decreases |s| - p
  {
    var j := IndexFrom(Lower(s), mark, p + |mark|);
    if j < 0 {
      CutAgreesLast(s, mark, p, starts);
    } else {
      var later := Starts(Lower(s), mark, j + |mark|);
      StartsFrom(Lower(s), mark, p + |mark|, j);
      StartsRise(Lower(s), mark, p + |mark|);
      RisingFrom(starts, p + |mark|, p + 1, |s|);
      CutIsSplitFrom(s, mark, j, later);
      CutAgreesNext(s, mark, p, j, later, starts);
    }
  }

  /** `starts` is what the scan from 0 has collected when it stands at idx. */
  ghost predicate Collected(ls: string, mark: string, starts: seq<nat>, idx: nat)
    requires |mark| > 0
  {
    idx <= |ls| && starts + Starts(ls, mark, idx) == Starts(ls, mark, 0)
  }

  lemma {:induction false} CollectNext(ls: string, mark: string, starts: seq<nat>, idx: nat, i: nat)
    requires |mark| > 0 && Collected(ls, mark, starts, idx) && IndexFrom(ls, mark, idx) == i
    ensures Collected(ls, mark, starts + [i], i + |mark|)
  {
    StartsFrom(ls, mark, idx, i);
    AppendOne(starts, i, Starts(ls, mark, i + |mark|));
  }

  lemma {:induction false} CollectedAll(ls: string, mark: string, starts: seq<nat>, idx: nat)
    requires |mark| > 0 && Collected(ls, mark, starts, idx) && IndexFrom(ls, mark, idx) < 0
    ensures starts == Starts(ls, mark, 0)
  {
  }

  method CollectStarts(ls: string, mark: string) returns (starts: seq<nat>)
    requires |mark| > 0
    ensures starts == Starts(ls, mark, 0)
  {
    starts := [];
    var idx := 0;
    while true
      invariant Collected(ls, mark, starts, idx)
      decreases |ls| - idx
    {
      var i := Index(ls[idx..], mark);
      IndexShift(ls, mark, idx, 0);
      if i < 0 {
        CollectedAll(ls, mark, starts, idx);
        return;
      }
      CollectNext(ls, mark, starts, idx, idx + i);
      starts := starts + [idx + i];
      idx := idx + i + |mark|;
    }
  }

  method SliceBetween(s: string, starts: seq<nat>) returns (blocks: seq<string>)
    requires Rising(starts, 0, |s|)
    ensures blocks == Cut(s, starts)
  {
    blocks := [];
    assert starts[0..] == starts;
    for i := 0 to |starts|
      invariant Rising(starts[i..], 0, |s|) && blocks + Cut(s, starts[i..]) == Cut(s, starts)
    {
      var end := if i + 1 < |starts| then starts[i + 1] else |s|;
      assert starts[i..][1..] == starts[i + 1..];
      RisingFrom(starts[i + 1..], starts[i] + 1, 0, |s|);
      blocks := blocks + [s[starts[i]..end]];
    }
  }

  lemma {:induction false} CutAtStartsIsSplit(s: string, mark: string)
    requires |mark| > 0
    ensures Rising(Starts(Lower(s), mark, 0), 0, |s|) && Cut(s, Starts(Lower(s), mark, 0)) == Split(s, mark)
  {
    StartsRise(Lower(s), mark, 0);
    var i := Index(Lower(s), mark);
    if i >= 0 {
      StartsFrom(Lower(s), mark, 0, i);
      CutIsSplitFrom(s, mark, i, Starts(Lower(s), mark, i + |mark|));
    }
  }

  /** splitMarkedBlocks: collect the starts, then slice between them. */
  method SplitMarkedBlocks(s: string, mark: string) returns (blocks: seq<string>)
    requires |mark| > 0
    ensures blocks == Split(s, Lower(mark))
  {
    var starts := CollectStarts(Lower(s), Lower(mark));
    CutAtStartsIsSplit(s, Lower(mark));
    blocks := SliceBetween(s, starts);
  }

  // ---- what the blocks are ----

  /** The mark occurs nowhere in `t`. */
  ghost predicate Free(t: string, mark: string) {
    forall k: nat :: !OccursAt(Lower(t), mark, k)
  }

  /** `b` starts with the mark and contains it nowhere else. */
  ghost predicate HeadOnly(b: string, mark: string) {
    OccursAt(Lower(b), mark, 0) && forall k: nat | k > 0 :: !OccursAt(Lower(b), mark, k)
  }

  /** No proper prefix of the mark is also a suffix of it, so two occurrences never overlap. */
  ghost predicate NoBorder(mark: string) {
    forall k | 0 < k < |mark| :: mark[k..] != mark[..|mark| - k]
  }

  lemma {:induction false} FlatConcat(a: seq<string>, b: seq<string>)
    ensures Flat(a + b) == Flat(a) + Flat(b)
  {
    if a == [] {
      assert a + b == b;
    } else {
      assert (a + b)[0] == a[0] && (a + b)[1..] == a[1..] + b;
      FlatConcat(a[1..], b);
    }
  }

  lemma {:induction false} OverlapIsBorder(s: string, mark: string, p: nat, k: nat)
    requires OccursAt(s, mark, p) && OccursAt(s, mark, p + k) && k <= |mark|
    ensures mark[k..] == mark[..|mark| - k]
  {
    assert s[p..p + |mark|][k..] == s[p + k..p + |mark|] == s[p + k..p + k + |mark|][..|mark| - k];
  }

  lemma {:induction false} NoOverlap(s: string, mark: string, p: nat, q: nat)
    requires NoBorder(mark) && OccursAt(s, mark, p) && OccursAt(s, mark, q) && p < q
    ensures p + |mark| <= q
  {
    if q < p + |mark| {
      OverlapIsBorder(s, mark, p, q - p);
    }
  }

  lemma {:induction false} OccursInPrefix(a: string, b: string, mark: string, k: nat)
    requires k + |mark| <= |a|
    ensures OccursAt(a + b, mark, k) <==> OccursAt(a, mark, k)
  {
    assert (a + b)[k..k + |mark|] == a[k..k + |mark|];
  }

  lemma {:induction false} OccursInRest(a: string, b: string, mark: string, k: nat)
    ensures OccursAt(a + b, mark, |a| + k) <==> OccursAt(b, mark, k)
  {
    assert (a + b)[|a|..] == b;
    OccursInSuffix(a + b, mark, |a|, k);
  }

  /** Where the mark occurs in a concatenation, in terms of the parts. */
  lemma {:induction false} OccursInConcat(a: string, b: string, mark: string, k: nat)
    ensures k + |mark| <= |a| ==> (OccursAt(Lower(a + b), mark, k) <==> OccursAt(Lower(a), mark, k))
    ensures OccursAt(Lower(a + b), mark, |a| + k) <==> OccursAt(Lower(b), mark, k)
  {
    LowerConcat(a, b);
    OccursInRest(Lower(a), Lower(b), mark, k);
    if k + |mark| <= |a| {
      OccursInPrefix(Lower(a), Lower(b), mark, k);
    }
  }

  /** Cutting at a later occurrence leaves the first one in place. */
  lemma {:induction false} FirstBlock(t: string, mark: string, j: nat)
    requires |mark| > 0 && OccursAt(Lower(t), mark, 0) && |mark| <= j && OccursAt(Lower(t), mark, j)
    ensures t == t[..j] + t[j..] && OccursAt(Lower(t[..j]), mark, 0) && OccursAt(Lower(t[j..]), mark, 0)
  {
    assert t == t[..j] + t[j..];
    OccursInConcat(t[..j], t[j..], mark, 0);
  }

  /** The blocks are a partition of the text from its first mark on, and each starts with the mark. */
  lemma {:induction false} SplitFromPartitions(t: string, mark: string)
    requires |mark| > 0 && OccursAt(Lower(t), mark, 0)
    ensures Flat(SplitFrom(t, mark)) == t
    ensures forall b | b in SplitFrom(t, mark) :: OccursAt(Lower(b), mark, 0)
    decreases |t|
  {
    var j := IndexFrom(Lower(t), mark, |mark|);
    if j >= 0 {
      FirstBlock(t, mark, j);
      SplitFromPartitions(t[j..], mark);
      assert ([t[..j]] + SplitFrom(t[j..], mark))[1..] == SplitFrom(t[j..], mark);
    } else {
      assert [t][1..] == [];
    }
  }

  /** Every block up to the next start holds the mark once, provided the mark cannot overlap itself. */
  lemma {:induction false} FirstBlockHeadOnly(t: string, mark: string)
    requires |mark| > 0 && OccursAt(Lower(t), mark, 0) && NoBorder(mark)
    ensures var j := IndexFrom(Lower(t), mark, |mark|); HeadOnly(if j < 0 then t else t[..j], mark)
  {
    var j := IndexFrom(Lower(t), mark, |mark|);
    var b := if j < 0 then t else t[..j];
    var rest := if j < 0 then "" else t[j..];
    assert t == b + rest;
    OccursInConcat(b, rest, mark, 0);
    forall k: nat | k > 0 ensures !OccursAt(Lower(b), mark, k) {
      OccursInConcat(b, rest, mark, k);
      if OccursAt(Lower(b), mark, k) {
        NoOverlap(Lower(t), mark, 0, k);
      }
    }
  }

  lemma {:induction false} SplitFromHeadOnly(t: string, mark: string)
    requires |mark| > 0 && OccursAt(Lower(t), mark, 0) && NoBorder(mark)
    ensures forall b | b in SplitFrom(t, mark) :: HeadOnly(b, mark)
    decreases |t|
  {
    var j := IndexFrom(Lower(t), mark, |mark|);
    FirstBlockHeadOnly(t, mark);
    if j >= 0 {
      FirstBlock(t, mark, j);
      SplitFromHeadOnly(t[j..], mark);
    }
  }

  /** `s` is a part without the mark followed by blocks that each hold it once, at their head. */
  ghost predicate Partition(s: string, pre: string, bs: seq<string>, mark: string) {
    s == pre + Flat(bs) && Free(pre, mark) && forall b | b in bs :: HeadOnly(b, mark)
  }

  /** What precedes the first block. */
  function Preamble(s: string, mark: string): string {
    var i := Index(Lower(s), mark);
    if i < 0 then s else s[..i]
  }

  /** For every mark: the blocks concatenate to the suffix from the first mark on, each starting with it. */
  lemma {:induction false} SplitCovers(s: string, mark: string)
    requires |mark| > 0
    ensures s == Preamble(s, mark) + Flat(Split(s, mark)) && Free(Preamble(s, mark), mark)
    ensures forall b | b in Split(s, mark) :: OccursAt(Lower(b), mark, 0)
  {
    var i := Index(Lower(s), mark);
    if i >= 0 {
      LowerSuffix(s, i);
      assert s == s[..i] + s[i..];
      SplitFromPartitions(s[i..], mark);
      forall k: nat ensures !OccursAt(Lower(s[..i]), mark, k) {
        OccursInConcat(s[..i], s[i..], mark, k);
      }
    }
  }

  /** For a mark that cannot overlap itself, the blocks hold it exactly once each. */
  lemma {:induction false} SplitPartitions(s: string, mark: string)
    requires |mark| > 0 && NoBorder(mark)
    ensures Partition(s, Preamble(s, mark), Split(s, mark), mark)
  {
    SplitCovers(s, mark);
    var i := Index(Lower(s), mark);
    if i >= 0 {
      LowerSuffix(s, i);
      SplitFromHeadOnly(s[i..], mark);
    }
  }

  /** The first occurrence after `from` in a + b, when b starts with the mark and a has no more of it. */
  lemma {:induction false} FirstBoundary(a: string, b: string, mark: string, from: nat)
    requires |mark| > 0 && NoBorder(mark) && OccursAt(Lower(b), mark, 0) && from <= |a|
    requires forall k: nat | from <= k :: !OccursAt(Lower(a), mark, k)
    ensures IndexFrom(Lower(a + b), mark, from) == |a|
  {
    OccursInConcat(a, b, mark, 0);
    var i := IndexFrom(Lower(a + b), mark, from);
    assert OccursAt(Lower(a + b), mark, |a|);
    if i < |a| {
      NoOverlap(Lower(a + b), mark, i, |a|);
      OccursInConcat(a, b, mark, i);
    }
  }

  lemma {:induction false} FlatHead(bs: seq<string>, mark: string)
    requires bs != [] && OccursAt(Lower(bs[0]), mark, 0)
    ensures Flat(bs) == bs[0] + Flat(bs[1..]) && OccursAt(Lower(Flat(bs)), mark, 0)
  {
    OccursInConcat(bs[0], Flat(bs[1..]), mark, 0);
  }

  lemma {:induction false} SplitFromUnique(bs: seq<string>, mark: string)
    requires |mark| > 0 && NoBorder(mark) && bs != [] && forall b | b in bs :: HeadOnly(b, mark)
    ensures OccursAt(Lower(Flat(bs)), mark, 0) && SplitFrom(Flat(bs), mark) == bs
    decreases |bs|
  {
    var b, rest := bs[0], bs[1..];
    assert b in bs;
    FlatHead(bs, mark);
    assert bs == [b] + rest;
    if rest == [] {
      assert Flat(bs) == b;
      LastBlock(b, mark);
    } else {
      forall c | c in rest ensures HeadOnly(c, mark) {
        assert c in bs;
      }
      SplitFromUnique(rest, mark);
      NextBlock(b, Flat(rest), mark);
    }
  }

  lemma {:induction false} LastBlock(b: string, mark: string)
    requires |mark| > 0 && HeadOnly(b, mark)
    ensures SplitFrom(b, mark) == [b]
  {
  }

  lemma {:induction false} NextBlock(b: string, t: string, mark: string)
    requires |mark| > 0 && NoBorder(mark) && HeadOnly(b, mark) && OccursAt(Lower(t), mark, 0)
    ensures OccursAt(Lower(b + t), mark, 0) && SplitFrom(b + t, mark) == [b] + SplitFrom(t, mark)
  {
    OccursInConcat(b, t, mark, 0);
    FirstBoundary(b, t, mark, |mark|);
    assert (b + t)[|b|..] == t && (b + t)[..|b|] == b;
  }

  /** There is only one such partition, so whatever is one is what splitMarkedBlocks returns. */
  lemma {:induction false} PartitionUnique(s: string, pre: string, bs: seq<string>, mark: string)
    requires |mark| > 0 && NoBorder(mark) && Partition(s, pre, bs, mark)
    ensures Split(s, mark) == bs
  {
    if bs == [] {
      assert s == pre;
    } else {
      SplitFromUnique(bs, mark);
      FirstBoundary(pre, Flat(bs), mark, 0);
      assert s[|pre|..] == Flat(bs);
    }
  }

  lemma {:induction false} PartitionAppend(
    u: string, v: string, pre: string, a: seq<string>, b: seq<string>, mark: string)
    requires Partition(u, pre, a, mark) && Partition(v, "", b, mark)
    ensures Partition(u + v, pre, a + b, mark)
  {
    FlatConcat(a, b);
    assert v == Flat(b);
    assert u + v == pre + (Flat(a) + Flat(b));
  }

  lemma {:induction false} NoPreamble(v: string, mark: string)
    requires |mark| > 0 && (v == "" || OccursAt(Lower(v), mark, 0))
    ensures Preamble(v, mark) == ""
  {
  }

  /** Appending a text that starts with the mark appends its blocks. */
  lemma {:induction false} SplitAppend(u: string, v: string, mark: string)
    requires |mark| > 0 && NoBorder(mark) && (v == "" || OccursAt(Lower(v), mark, 0))
    ensures Split(u + v, mark) == Split(u, mark) + Split(v, mark)
  {
    SplitPartitions(u, mark);
    SplitPartitions(v, mark);
    NoPreamble(v, mark);
    PartitionAppend(u, v, Preamble(u, mark), Split(u, mark), Split(v, mark), mark);
    PartitionUnique(u + v, Preamble(u, mark), Split(u, mark) + Split(v, mark), mark);
  }

  /** `w` added to the end of the last block. */
  function Extend(bs: seq<string>, w: string): seq<string> {
    if bs == [] then [] else bs[..|bs| - 1] + [bs[|bs| - 1] + w]
  }

  lemma {:induction false} FlatExtend(bs: seq<string>, w: string)
    requires bs != []
    ensures Flat(Extend(bs, w)) == Flat(bs) + w
  {
    var init, last := bs[..|bs| - 1], bs[|bs| - 1];
    assert bs == init + [last];
    FlatConcat(init, [last]);
    FlatConcat(init, [last + w]);
    assert [last][1..] == [] && [last + w][1..] == [];
  }

  /** Every occurrence of the mark in u + w ends inside u. */
  ghost predicate AllWithin(u: string, w: string, mark: string) {
    forall k: nat | OccursAt(Lower(u + w), mark, k) :: k + |mark| <= |u|
  }

  lemma {:induction false} SuffixWithin(pre: string, last: string, w: string, mark: string)
    requires AllWithin(pre + last, w, mark)
    ensures AllWithin(last, w, mark)
  {
    assert (pre + last) + w == pre + (last + w);
    forall k: nat | OccursAt(Lower(last + w), mark, k) ensures k + |mark| <= |last| {
      OccursInConcat(pre, last + w, mark, k);
    }
  }

  lemma {:induction false} WithinHeadOnly(b: string, w: string, mark: string)
    requires HeadOnly(b, mark) && AllWithin(b, w, mark)
    ensures HeadOnly(b + w, mark)
  {
    OccursInConcat(b, w, mark, 0);
    forall k: nat | k > 0 ensures !OccursAt(Lower(b + w), mark, k) {
      OccursInConcat(b, w, mark, k);
    }
  }

  lemma {:induction false} ExtendPreamble(u: string, w: string, mark: string)
    requires Free(u, mark) && AllWithin(u, w, mark)
    ensures Free(u + w, mark)
  {
    forall k: nat ensures !OccursAt(Lower(u + w), mark, k) {
      OccursInConcat(u, w, mark, k);
    }
  }

  lemma {:induction false} ExtendLast(u: string, pre: string, bs: seq<string>, w: string, mark: string)
    requires bs != [] && Partition(u, pre, bs, mark) && AllWithin(u, w, mark)
    ensures Partition(u + w, pre, Extend(bs, w), mark)
  {
    var init, last := bs[..|bs| - 1], bs[|bs| - 1];
    assert bs == init + [last] && last in bs;
    FlatConcat(init, [last]);
    assert [last][1..] == [];
    assert u == (pre + Flat(init)) + last;
    SuffixWithin(pre + Flat(init), last, w, mark);
    WithinHeadOnly(last, w, mark);
    FlatExtend(bs, w);
    assert u + w == pre + (Flat(bs) + w);
    forall b | b in Extend(bs, w) ensures HeadOnly(b, mark) {
      assert b in init || b == last + w;
    }
  }

  /** Appending a text that completes no mark only lengthens the last block. */
  lemma {:induction false} SplitExtend(u: string, w: string, mark: string)
    requires |mark| > 0 && NoBorder(mark) && AllWithin(u, w, mark)
    ensures Split(u + w, mark) == Extend(Split(u, mark), w)
  {
    SplitPartitions(u, mark);
    var pre, bs := Preamble(u, mark), Split(u, mark);
    if bs == [] {
      assert u == pre;
      ExtendPreamble(u, w, mark);
    } else {
      ExtendLast(u, pre, bs, w, mark);
      PartitionUnique(u + w, pre, Extend(bs, w), mark);
    }
  }

  // ---- cutAtFold and sectionBetween ----

  /** cutAtFold, for a mark already in lower case. */
  function CutAt(s: string, mark: string): string {
    var i := Index(Lower(s), mark);
    if i >= 0 then s[..i] else s
  }

  /** The cut keeps the text up to the first mark, and a text without the mark whole. */
  ghost predicate IsCut(c: string, s: string, mark: string) {
    c <= s && (forall k: nat | k < |c| :: !OccursAt(Lower(s), mark, k)) && (c == s || OccursAt(Lower(s), mark, |c|))
  }

  lemma {:induction false} CutIs(s: string, mark: string)
    ensures IsCut(CutAt(s, mark), s, mark)
  {
  }

  /** There is only one such cut. */
  lemma {:induction false} CutUnique(c: string, s: string, mark: string)
    requires IsCut(c, s, mark)
    ensures CutAt(s, mark) == c
  {
    CutIs(s, mark);
    assert c == s[..|c|] && CutAt(s, mark) == s[..|CutAt(s, mark)|];
  }

  /** The cut does not see what follows the mark. */
  lemma {:induction false} CutIgnoresTail(b: string, l: string, x: string, y: string, mark: string)
    requires Lower(l) == mark
    ensures CutAt(b + l + x, mark) == CutAt(b + l + y, mark) <= b
  {
    CutBeforeMark(b, l, x, mark);
    CutBeforeMark(b, l, y, mark);
  }

  lemma {:induction false} CutBeforeMark(b: string, l: string, x: string, mark: string)
    requires Lower(l) == mark
    ensures 0 <= Index(Lower(b + l), mark) <= |b|
    ensures CutAt(b + l + x, mark) == b[..Index(Lower(b + l), mark)]
  {
    OccursInConcat(b, l, mark, 0);
    assert OccursAt(Lower(b + l), mark, |b|);
    var i, j := Index(Lower(b + l), mark), Index(Lower(b + l + x), mark);
    OccursInConcat(b + l, x, mark, i);
    assert OccursAt(Lower(b + l + x), mark, i);
    OccursInConcat(b + l, x, mark, j);
    assert (b + l + x)[..j] == b[..j];
  }

  /** Where sectionBetween ends: the first position at which any of the ends occurs. */
  function SectionEnd(lb: string, ends: seq<string>, n: nat): (end: nat)
    requires n <= |ends|
    ensures end <= |lb|
  {
    if n == 0 then |lb|
    else
      var end := SectionEnd(lb, ends, n - 1);
      var e := Lower(ends[n - 1]);
      if e != "" && 0 <= Index(lb, e) < end then Index(lb, e) else end
  }

  function SectionOf(body: string, ends: seq<string>): string {
    body[..SectionEnd(Lower(body), ends, |ends|)]
  }

  /** sectionBetween: the section of what follows the first start mark. */
  function Section(s: string, start: string, ends: seq<string>): string {
    var i := Index(Lower(s), Lower(start));
    if i < 0 then "" else SectionOf(s[i + |start|..], ends)
  }

  method SectionBetween(s: string, start: string, ends: seq<string>) returns (section: string)
    ensures section == Section(s, start, ends)
  {
    var ls := Lower(s);
    var ms := Lower(start);
    var i := Index(ls, ms);
    if i < 0 {
      return "";
    }
    var body := s[i + |ms|..];
    var lb := Lower(body);
    var endAt: nat := |body|;
    for n := 0 to |ends|
      invariant endAt == SectionEnd(lb, ends, n)
    {
      if ends[n] == "" {
        continue;
      }
      var j := Index(lb, Lower(ends[n]));
      if 0 <= j < endAt {
        endAt := j;
      }
    }
    section := body[..endAt];
  }

  lemma {:induction false} SectionEndIsEarliest(lb: string, ends: seq<string>, n: nat)
    requires n <= |ends|
    ensures forall m, k: nat | 0 <= m < n && ends[m] != "" && k < SectionEnd(lb, ends, n) ::
              !OccursAt(lb, Lower(ends[m]), k)
    ensures SectionEnd(lb, ends, n) < |lb| ==>
              exists m | 0 <= m < n :: ends[m] != "" && OccursAt(lb, Lower(ends[m]), SectionEnd(lb, ends, n))
  {
    if n == 0 {
    } else {
      SectionEndIsEarliest(lb, ends, n - 1);
    }
  }

  /** A prefix holds no mark that first occurs behind its end. */
  lemma {:induction false} PrefixFree(body: string, end: nat, mark: string)
    requires end <= |body| && forall k: nat | k < end :: !OccursAt(Lower(body), mark, k)
    requires mark != ""
    ensures Free(body[..end], mark)
  {
    assert body == body[..end] + body[end..];
    forall k: nat ensures !OccursAt(Lower(body[..end]), mark, k) {
      OccursInConcat(body[..end], body[end..], mark, k);
    }
  }

  /** The mark does not begin among the first n characters. */
  ghost predicate NotBefore(s: string, mark: string, n: nat) {
    forall k: nat | k < n :: !OccursAt(Lower(s), mark, k)
  }

  /** Cut at the first end mark: none begins before its end or is inside, and only an end mark stops it short of
      the whole body. */
  ghost predicate StopsAtFirst(section: string, body: string, ends: seq<string>) {
    && section <= body
    && (forall m | 0 <= m < |ends| && ends[m] != "" :: NotBefore(body, Lower(ends[m]), |section|))
    && (forall m | 0 <= m < |ends| && ends[m] != "" :: Free(section, Lower(ends[m])))
    && (section == body || exists m | 0 <= m < |ends| ::
          ends[m] != "" && OccursAt(Lower(body), Lower(ends[m]), |section|))
  }

  /** A section holds no end mark, and ends right before one or with the body. */
  lemma {:induction false} SectionIsIsolated(body: string, ends: seq<string>)
    ensures StopsAtFirst(SectionOf(body, ends), body, ends)
  {
    var end := SectionEnd(Lower(body), ends, |ends|);
    SectionEndIsEarliest(Lower(body), ends, |ends|);
    forall m | 0 <= m < |ends| && ends[m] != ""
      ensures NotBefore(body, Lower(ends[m]), end) && Free(body[..end], Lower(ends[m]))
    {
      PrefixFree(body, end, Lower(ends[m]));
    }
  }

  lemma {:induction false} IndexSkips(s: string, mark: string, from: nat, j: nat)
    requires from <= j && Index(s, mark) == j
    ensures j <= |s| && IndexFrom(s, mark, from) == j
  {
  }

  lemma {:induction false} IndexInSuffix(s: string, mark: string, from: nat, j: nat)
    requires from <= j && Index(s, mark) == j
    ensures j <= |s| && Index(s[from..], mark) == j - from
  {
    IndexSkips(s, mark, from, j);
    IndexShift(s, mark, from, 0);
  }

  lemma {:induction false} FoldInSuffix(s: string, mark: string, from: nat, j: nat)
    requires from <= j && Index(Lower(s), mark) == j
    ensures j <= |s| && Index(Lower(s[from..]), mark) == j - from
  {
    IndexInSuffix(Lower(s), mark, from, j);
    LowerSuffix(s, from);
  }

  lemma {:induction false} OneEnd(body: string, end: string, n: nat)
    requires end != "" && Index(Lower(body), Lower(end)) == n
    ensures n <= |body| && SectionOf(body, [end]) == body[..n]
  {
    assert SectionEnd(Lower(body), [end], 0) == |body|;
    assert SectionEnd(Lower(body), [end], 1) == n;
  }

  lemma {:induction false} NoEnds(body: string)
    ensures SectionOf(body, []) == body
  {
  }

  lemma {:induction false} SectionAfter(s: string, start: string, i: nat, body: string, ends: seq<string>)
    requires Index(Lower(s), Lower(start)) == i && i + |start| <= |s| && body == s[i + |start|..]
    ensures Section(s, start, ends) == SectionOf(body, ends)
  {
  }

  /** Between a start mark at i and the first end mark at j, behind it, the section is what stands between. */
  lemma {:induction false} SectionBetweenMarks(s: string, start: string, end: string, i: nat, j: nat)
    requires end != "" && Index(Lower(s), Lower(start)) == i && Index(Lower(s), Lower(end)) == j && i + |start| <= j
    ensures j <= |s| && Section(s, start, [end]) == s[i + |start|..j]
  {
    var from := i + |start|;
    FoldInSuffix(s, Lower(end), from, j);
    SectionAfter(s, start, i, s[from..], [end]);
    OneEnd(s[from..], end, j - from);
    SliceTwice(s, from, j);
  }

  /** With no end mark the section is all that follows the start mark. */
  lemma {:induction false} SectionToTheEnd(s: string, start: string, i: nat)
    requires Index(Lower(s), Lower(start)) == i
    ensures i + |start| <= |s| && Section(s, start, []) == s[i + |start|..]
  {
    SectionAfter(s, start, i, s[i + |start|..], []);
    NoEnds(s[i + |start|..]);
  }

  // ---- what a section is, without reference to how it is found ----

  /** What follows the first start mark, at i, up to the first end mark. */
  ghost predicate SectionAt(section: string, s: string, start: string, ends: seq<string>, i: nat) {
    && OccursAt(Lower(s), Lower(start), i) && NotBefore(s, Lower(start), i)
    && i + |start| <= |s| && StopsAtFirst(section, s[i + |start|..], ends)
  }

  /** The section, and nothing when there is no start mark. */
  ghost predicate IsSection(section: string, s: string, start: string, ends: seq<string>) {
    if NotBefore(s, Lower(start), |s| + 1) then section == ""
    else exists i: nat :: SectionAt(section, s, start, ends, i)
  }

  lemma {:induction false} SectionIs(s: string, start: string, ends: seq<string>)
    ensures IsSection(Section(s, start, ends), s, start, ends)
  {
    var i := Index(Lower(s), Lower(start));
    if i >= 0 {
      SectionAfter(s, start, i, s[i + |start|..], ends);
      SectionIsIsolated(s[i + |start|..], ends);
      assert SectionAt(Section(s, start, ends), s, start, ends, i);
      assert i < |s| + 1;
    }
  }

  lemma {:induction false} StopsOnce(a: string, b: string, body: string, ends: seq<string>)
    requires StopsAtFirst(a, body, ends) && StopsAtFirst(b, body, ends)
    ensures |b| <= |a|
  {
  }

  lemma {:induction false} FirstOnce(s: string, mark: string, i: nat, j: nat)
    requires OccursAt(Lower(s), mark, i) && NotBefore(s, mark, j)
    ensures j <= i
  {
  }

  lemma {:induction false} StopsSame(a: string, b: string, body: string, ends: seq<string>)
    requires StopsAtFirst(a, body, ends) && StopsAtFirst(b, body, ends)
    ensures a == b
  {
    StopsOnce(a, b, body, ends);
    StopsOnce(b, a, body, ends);
    assert a == body[..|a|] && b == body[..|b|];
  }

  lemma {:induction false} SectionsAt(a: string, b: string, s: string, start: string, ends: seq<string>, i: nat, j: nat)
    requires SectionAt(a, s, start, ends, i) && SectionAt(b, s, start, ends, j)
    ensures a == b
  {
    FirstOnce(s, Lower(start), i, j);
    FirstOnce(s, Lower(start), j, i);
    StopsSame(a, b, s[i + |start|..], ends);
  }

  /** There is only one such section. */
  lemma {:induction false} SectionUnique(a: string, b: string, s: string, start: string, ends: seq<string>)
    requires IsSection(a, s, start, ends) && IsSection(b, s, start, ends)
    ensures a == b
  {
    if !NotBefore(s, Lower(start), |s| + 1) {
      var i: nat :| SectionAt(a, s, start, ends, i);
      var j: nat :| SectionAt(b, s, start, ends, j);
      SectionsAt(a, b, s, start, ends, i, j);
    }
  }
}
