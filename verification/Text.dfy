/** The string functions of Go's standard library that the repository uses, on ASCII text,
    where lower-casing keeps every offset. */
module Text {

  function LowerChar(c: char): char {
    if 'A' <= c <= 'Z' then c + 32 as char else c
  }

  function LowerTo(s: string, n: nat): (l: string)
    requires n <= |s|
    ensures |l| == n
  {
    if n == 0 then "" else LowerTo(s, n - 1) + [LowerChar(s[n - 1])]
  }

  const UPPER := "ABCDEFGHIJKLMNOPQRSTUVWXYZ"
  const LOWER := "abcdefghijklmnopqrstuvwxyz"

  /** Lower-casing takes each capital to its small letter, and leaves every other character alone. */
  lemma {:induction false} LowerCharIs(c: char)
    ensures forall i | 0 <= i < 26 :: LowerChar(UPPER[i]) == LOWER[i]
    ensures c !in UPPER ==> LowerChar(c) == c
  {
    forall i | 0 <= i < 26 ensures LowerChar(UPPER[i]) == LOWER[i] {
      assert UPPER[i] == 'A' + i as char && LOWER[i] == 'a' + i as char;
    }
    if 'A' <= c <= 'Z' {
      assert UPPER[c as int - 'A' as int] == c;
    }
  }

  /** strings.ToLower */
  function Lower(s: string): (l: string)
    ensures |l| == |s|
  {
    LowerTo(s, |s|)
  }

  lemma {:induction false} LowerToAt(s: string, n: nat, i: nat)
    requires i < n <= |s|
    ensures LowerTo(s, n)[i] == LowerChar(s[i])
  {
    if i < n - 1 {
      LowerToAt(s, n - 1, i);
    }
  }

  lemma {:induction false} LowerAt(s: string, i: nat)
    requires i < |s|
    ensures Lower(s)[i] == LowerChar(s[i])
  {
    LowerToAt(s, |s|, i);
  }

  lemma {:induction false} LowerToPrefix(s: string, t: string, n: nat)
    requires n <= |s|
    ensures LowerTo(s + t, n) == LowerTo(s, n)
  {
    if n == 0 {
    } else {
      LowerToPrefix(s, t, n - 1);
    }
  }

  lemma {:induction false} LowerToConcat(s: string, t: string, n: nat)
    requires n <= |t|
    ensures LowerTo(s + t, |s| + n) == LowerTo(s, |s|) + LowerTo(t, n)
  {
    if n == 0 {
      LowerToPrefix(s, t, |s|);
    } else {
      LowerToConcat(s, t, n - 1);
    }
  }

  lemma {:induction false} LowerConcat(s: string, t: string)
    ensures Lower(s + t) == Lower(s) + Lower(t)
  {
    LowerToConcat(s, t, |t|);
  }

  lemma {:induction false} LowerFixed(s: string)
    requires forall i | 0 <= i < |s| :: !('A' <= s[i] <= 'Z')
    ensures Lower(s) == s
  {
    forall i | 0 <= i < |s| ensures Lower(s)[i] == s[i] {
      LowerAt(s, i);
    }
  }

  lemma {:induction false} LowerSuffix(s: string, i: nat)
    requires i <= |s|
    ensures Lower(s[i..]) == Lower(s)[i..]
  {
    assert s == s[..i] + s[i..];
    LowerConcat(s[..i], s[i..]);
  }

  predicate IsSpace(c: char) {
    c == ' ' || c == '\t' || c == '\n' || c == 11 as char || c == 12 as char || c == '\r'
  }

  /** The ASCII spaces are codes 9 to 13 and 32. */
  lemma {:induction false} SpaceIff(c: char)
    ensures IsSpace(c) <==> 9 <= c as int <= 13 || c as int == 32
  {
  }

  function TrimLeft(s: string): string {
    if s != "" && IsSpace(s[0]) then TrimLeft(s[1..]) else s
  }

  function TrimRight(s: string): string {
    if s != "" && IsSpace(s[|s| - 1]) then TrimRight(s[..|s| - 1]) else s
  }

  /** strings.TrimSpace */
  function TrimSpace(s: string): string {
    TrimRight(TrimLeft(s))
  }

  predicate Spaces(s: string) {
    forall i | 0 <= i < |s| :: IsSpace(s[i])
  }

  /** No space at either end. */
  predicate Trimmed(s: string) {
    s == "" || (!IsSpace(s[0]) && !IsSpace(s[|s| - 1]))
  }

  lemma {:induction false} TrimLeftIs(l: string, t: string)
    requires Spaces(l) && (t == "" || !IsSpace(t[0]))
    ensures TrimLeft(l + t) == t
  {
    if l == "" {
      assert l + t == t;
    } else {
      assert (l + t)[1..] == l[1..] + t;
      TrimLeftIs(l[1..], t);
    }
  }

  lemma {:induction false} TrimRightIs(t: string, r: string)
    requires Spaces(r) && (t == "" || !IsSpace(t[|t| - 1]))
    ensures TrimRight(t + r) == t
  {
    if r == "" {
      assert t + r == t;
    } else {
      assert (t + r)[..|t + r| - 1] == t + r[..|r| - 1];
      TrimRightIs(t, r[..|r| - 1]);
    }
  }

  /** Trimming removes the space around a text, and nothing else. */
  lemma {:induction false} TrimIs(l: string, t: string, r: string)
    requires Spaces(l) && Spaces(r) && Trimmed(t)
    ensures TrimSpace(l + t + r) == t
  {
    if t == "" {
      assert l + t + r == (l + r) + "";
      TrimLeftIs(l + r, "");
    } else {
      assert l + t + r == l + (t + r);
      TrimLeftIs(l, t + r);
      TrimRightIs(t, r);
    }
  }

  lemma {:induction false} TrimRightSplits(s: string) returns (r: string)
    ensures s == TrimRight(s) + r && Spaces(r)
    ensures TrimRight(s) == "" || !IsSpace(TrimRight(s)[|TrimRight(s)| - 1])
  {
    if s != "" && IsSpace(s[|s| - 1]) {
      r := TrimRightSplits(s[..|s| - 1]);
      r := r + [s[|s| - 1]];
    } else {
      r := "";
    }
  }

  lemma {:induction false} TrimLeftSplits(s: string) returns (l: string)
    ensures s == l + TrimLeft(s) && Spaces(l)
    ensures TrimLeft(s) == "" || !IsSpace(TrimLeft(s)[0])
  {
    if s != "" && IsSpace(s[0]) {
      l := TrimLeftSplits(s[1..]);
      l := [s[0]] + l;
    } else {
      l := "";
    }
  }

  /** Every text is its trimmed part with space around it. */
  lemma {:induction false} TrimSplits(s: string) returns (l: string, r: string)
    ensures s == l + TrimSpace(s) + r && Spaces(l) && Spaces(r) && Trimmed(TrimSpace(s))
  {
    l := TrimLeftSplits(s);
    r := TrimRightSplits(TrimLeft(s));
    assert TrimSpace(s) != "" ==> TrimSpace(s)[0] == TrimLeft(s)[0];
  }

  predicate OccursAt(s: string, sub: string, i: nat) {
    i + |sub| <= |s| && s[i..i + |sub|] == sub
  }

  function IndexFrom(s: string, sub: string, from: nat): (i: int)
    ensures i == -1 || (from <= i && OccursAt(s, sub, i))
    ensures forall k | from <= k && (i == -1 || k < i) :: !OccursAt(s, sub, k)
    decreases |s| - from
  {
    if from + |sub| > |s| then -1
    else if s[from..from + |sub|] == sub then from
    else IndexFrom(s, sub, from + 1)
  }

  /** strings.Index: the first occurrence, or -1. */
  function Index(s: string, sub: string): (i: int)
    ensures i == -1 || (0 <= i && OccursAt(s, sub, i))
    ensures forall k | 0 <= k && (i == -1 || k < i) :: !OccursAt(s, sub, k)
  {
    IndexFrom(s, sub, 0)
  }

  /** strings.Contains */
  predicate Contains(s: string, sub: string) {
    Index(s, sub) >= 0
  }
}
