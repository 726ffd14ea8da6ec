/** Lines and fields: strings.Split at newlines and strings.Fields, on ASCII text. */
module CiscoText {
  import opened Text

  function LineEnd(s: string, from: nat): (n: nat)
    requires from <= |s|
    ensures from <= n <= |s| && (n < |s| ==> s[n] == '\n') && forall k | from <= k < n :: s[k] != '\n'
    decreases |s| - from
  {
    if from == |s| || s[from] == '\n' then from else LineEnd(s, from + 1)
  }

  /** strings.Split(s, "\n"): one more line than there are newlines. */
  function Lines(s: string): seq<string> {
    var n := LineEnd(s, 0);
    if n == |s| then [s] else [s[..n]] + Lines(s[n + 1..])
  }

  predicate OneLine(s: string) {
    forall k | 0 <= k < |s| :: s[k] != '\n'
  }

  lemma {:induction false} LineEndIs(l: string, t: string, from: nat)
    requires OneLine(l) && from <= |l|
    ensures LineEnd(l + "\n" + t, from) == |l|
    decreases |l| - from
  {
    if from == |l| {
    } else {
      LineEndIs(l, t, from + 1);
    }
  }

  /** One more line. */
  lemma {:induction false} LinesSnoc(s: string, line: string)
    requires OneLine(line)
    ensures Lines(s + "\n" + line) == Lines(s) + [line]
    decreases |s|
  {
    var t, n := s + "\n" + line, LineEnd(s, 0);
    if n == |s| {
      LineEndIs(s, line, 0);
      assert t[..n] == s && t[n + 1..] == line;
      assert LineEnd(line, 0) == |line|;
    } else {
      FirstLineEnd(s, "\n" + line, 0);
      assert s + ("\n" + line) == t;
      assert t[..n] == s[..n] && t[n + 1..] == s[n + 1..] + "\n" + line;
      LinesSnoc(s[n + 1..], line);
    }
  }

  lemma {:induction false} FirstLineEnd(s: string, t: string, from: nat)
    requires from <= |s| && LineEnd(s, from) < |s|
    ensures LineEnd(s + t, from) == LineEnd(s, from)
    decreases |s| - from
  {
    if s[from] != '\n' {
      FirstLineEnd(s, t, from + 1);
    }
  }

  function WordEnd(s: string, from: nat): (n: nat)
    requires from <= |s|
    ensures from <= n <= |s| && (n < |s| ==> IsSpace(s[n])) && forall k | from <= k < n :: !IsSpace(s[k])
    decreases |s| - from
  {
    if from == |s| || IsSpace(s[from]) then from else WordEnd(s, from + 1)
  }

  /** strings.Fields */
  function Fields(s: string): seq<string> {
    if s == "" then []
    else if IsSpace(s[0]) then Fields(s[1..])
    else
      var n := WordEnd(s, 0);
      [s[..n]] + Fields(s[n..])
  }

  predicate Word(f: string) {
    f != "" && forall k | 0 <= k < |f| :: !IsSpace(f[k])
  }

  lemma {:induction false} FieldsAreWords(s: string)
    ensures forall f | f in Fields(s) :: Word(f)
    decreases |s|
  {
    if s == "" {
    } else {
      if IsSpace(s[0]) {
        FieldsAreWords(s[1..]);
      } else {
        FieldsAreWords(s[WordEnd(s, 0)..]);
      }
    }
  }
}
