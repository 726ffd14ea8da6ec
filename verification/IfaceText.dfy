/** ifaces.go: interface names and numbers, shared by the parsers. */
module IfaceText {
  import opened Common
  import opened Text

  // ---- numbers ----

  const MAX_UINT64: uint64 := 0xFFFF_FFFF_FFFF_FFFF

  predicate IsDigit(c: char) {
    '0' <= c <= '9'
  }

  function DigitValue(c: char): nat
    requires IsDigit(c)
  {
    c as int - '0' as int
  }

  /** What strconv.ParseUint returns with its error: a value that does not fit is reported as the largest one. */
  datatype Parsed = Parsed(value: uint64, ok: bool)

  /** strconv.ParseUint(s, 10, 64), `n` being the value of the digits already read. */
  function ParseDigits(s: string, n: uint64): Parsed {
    if s == "" then Parsed(n, true)
    else if !IsDigit(s[0]) then Parsed(0, false)
    else
      var m := n * 10 + DigitValue(s[0]);
      if m > MAX_UINT64 then Parsed(MAX_UINT64, false) else ParseDigits(s[1..], m)
  }

  /** parseUint */
  function ParseUint(s: string): Parsed {
    var t := TrimSpace(s);
    if t == "" then Parsed(0, false) else ParseDigits(t, 0)
  }

  /** mustUint: the value whatever the error, so an oversized number saturates. */
  function MustUint(s: string): uint64 {
    ParseUint(s).value
  }

  predicate AllDigits(s: string) {
    s != "" && forall i | 0 <= i < |s| :: IsDigit(s[i])
  }

  /** The number a digit string denotes, without any bound. */
  function Denotes(s: string, n: nat): nat
    requires forall i | 0 <= i < |s| :: IsDigit(s[i])
  {
    if s == "" then n else Denotes(s[1..], n * 10 + DigitValue(s[0]))
  }

  lemma {:induction false} DenotesGrows(s: string, n: nat)
    requires forall i | 0 <= i < |s| :: IsDigit(s[i])
    ensures Denotes(s, n) >= n
  {
    if s == "" {
    } else {
      DenotesGrows(s[1..], n * 10 + DigitValue(s[0]));
    }
  }

  /** On a digit string: accepted exactly when it fits in 64 bits, and saturating otherwise. */
  lemma {:induction false} ParseSaturates(s: string, n: uint64)
    requires forall i | 0 <= i < |s| :: IsDigit(s[i])
    ensures ParseDigits(s, n).ok <==> Denotes(s, n) <= MAX_UINT64
    ensures ParseDigits(s, n).value == if Denotes(s, n) <= MAX_UINT64 then Denotes(s, n) else MAX_UINT64
  {
    if s == "" {
    } else {
      var m := n * 10 + DigitValue(s[0]);
      if m > MAX_UINT64 {
        DenotesGrows(s[1..], m);
      } else {
        ParseSaturates(s[1..], m);
      }
    }
  }

  /** The first n characters are digits of a number too large for 64 bits, read after `before`. */
  predicate Overflows(s: string, before: uint64, n: nat) {
    n <= |s| && (forall i | 0 <= i < n :: IsDigit(s[i])) && Denotes(s[..n], before) > MAX_UINT64
  }

  lemma {:induction false} OverflowsAfterOne(s: string, before: uint64, n: nat)
    requires s != "" && IsDigit(s[0]) && before * 10 + DigitValue(s[0]) <= MAX_UINT64 && n > 0
    ensures Overflows(s, before, n) <==> Overflows(s[1..], before * 10 + DigitValue(s[0]), n - 1)
  {
    if n <= |s| {
      assert s[..n][1..] == s[1..][..n - 1];
      assert forall i | 0 <= i < n - 1 :: s[1..][i] == s[i + 1];
    }
  }

  lemma {:induction false} FirstOverflows(s: string, before: uint64)
    requires s != "" && IsDigit(s[0])
    ensures Overflows(s, before, 1) <==> before * 10 + DigitValue(s[0]) > MAX_UINT64
  {
    var m: nat := before * 10 + DigitValue(s[0]);
    assert s[..1][0] == s[0] && s[..1][1..] == "" && Denotes("", m) == m;
    assert Denotes(s[..1], before) == m;
  }

  /** What is read of a text that is no 64-bit number: the largest number when the digits it starts with are too
      many, and otherwise 0. */
  lemma {:induction false} ParseRefused(s: string, n: uint64)
    ensures !ParseDigits(s, n).ok ==>
              ParseDigits(s, n).value == if exists k :: Overflows(s, n, k) then MAX_UINT64 else 0
    ensures ParseDigits(s, n).ok <==> (forall i | 0 <= i < |s| :: IsDigit(s[i])) && !exists k :: Overflows(s, n, k)
  {
    if s == "" {
    } else if !IsDigit(s[0]) {
      assert forall k :: Overflows(s, n, k) ==> k == 0;
    } else {
      var m := n * 10 + DigitValue(s[0]);
      FirstOverflows(s, n);
      if m <= MAX_UINT64 {
        ParseRefused(s[1..], m);
        forall k: nat | k > 0 ensures Overflows(s, n, k) <==> Overflows(s[1..], m, k - 1) {
          OverflowsAfterOne(s, n, k);
        }
        assert !Overflows(s, n, 0);
        if k: nat :| Overflows(s[1..], m, k) {
          assert Overflows(s, n, k + 1);
        }
      }
    }
  }

  /** With the space around it removed, the text is a number of at most 64 bits. */
  predicate IsNumber(s: string) {
    var t := TrimSpace(s);
    AllDigits(t) && Denotes(t, 0) <= MAX_UINT64
  }

  /** A text is accepted exactly when it is a 64-bit number, and is then read as that number. mustUint, which
      ignores the error, takes any other text for 0, or for the largest number when its first digits overflow. */
  lemma {:induction false} ParseUintIff(s: string)
    ensures ParseUint(s).ok <==> IsNumber(s)
    ensures MustUint(s) == if IsNumber(s) then Denotes(TrimSpace(s), 0)
                           else if exists k :: Overflows(TrimSpace(s), 0, k) then MAX_UINT64 else 0
  {
    var t := TrimSpace(s);
    ParseRefused(t, 0);
    if AllDigits(t) {
      ParseSaturates(t, 0);
    }
  }

  /** The decimal form of a number. */
  function PrintUint(n: nat): (s: string)
    ensures AllDigits(s)
  {
    if n < 10 then [n as char + '0'] else PrintUint(n / 10) + [(n % 10) as char + '0']
  }

  lemma {:induction false} DenotesSnoc(s: string, c: char, n: nat)
    requires IsDigit(c) && forall i | 0 <= i < |s| :: IsDigit(s[i])
    ensures Denotes(s + [c], n) == Denotes(s, n) * 10 + DigitValue(c)
  {
    if s == "" {
      assert (s + [c])[1..] == "";
    } else {
      assert (s + [c])[0] == s[0] && (s + [c])[1..] == s[1..] + [c];
      DenotesSnoc(s[1..], c, n * 10 + DigitValue(s[0]));
    }
  }

  lemma {:induction false} DenotesPrinted(n: nat)
    ensures Denotes(PrintUint(n), 0) == n
  {
    if n < 10 {
      assert PrintUint(n)[1..] == "";
    } else {
      DenotesPrinted(n / 10);
      DenotesSnoc(PrintUint(n / 10), (n % 10) as char + '0', 0);
    }
  }

  /** Every 64-bit number is read back from its decimal form. */
  lemma {:induction false} ParsePrinted(n: uint64)
    ensures ParseUint(PrintUint(n)) == Parsed(n, true)
  {
    DenotesPrinted(n);
    ParseSaturates(PrintUint(n), 0);
    TrimmedStays(PrintUint(n));
  }

  // ---- names ----

  /** strings.LastIndex of a dot among the first n characters, or -1. */
  function LastDot(s: string, n: nat): (i: int)
    requires n <= |s|
    ensures -1 <= i < n && (i >= 0 ==> s[i] == '.') && forall k | i < k < n :: s[k] != '.'
  {
    if n == 0 then -1 else if s[n - 1] == '.' then n - 1 else LastDot(s, n - 1)
  }

  /** physicalIfd: the name without a logical unit number. */
  function PhysicalIfd(name: string): string {
    var t := TrimSpace(name);
    var i := LastDot(t, |t|);
    if i <= 0 || i == |t| - 1 || !AllDigits(t[i + 1..]) then t else t[..i]
  }

  lemma {:induction false} TrimmedStays(s: string)
    requires Trimmed(s)
    ensures TrimSpace(s) == s
  {
  }

  /** A unit number is dropped, whatever the interface name before it and the space around both. */
  lemma {:induction false} UnitIsDropped(l: string, base: string, unit: string, r: string)
    requires Spaces(l) && Spaces(r) && base != "" && !IsSpace(base[0]) && AllDigits(unit)
    ensures PhysicalIfd(l + (base + "." + unit) + r) == base
  {
    var t := base + "." + unit;
    assert t[|base|] == '.' && t[|base| + 1..] == unit;
    assert forall k | |base| < k < |t| :: t[k] == unit[k - |base| - 1];
    TrimIs(l, t, r);
    assert t[..|base|] == base;
  }

  /** Without a unit number only the space around the name is dropped. */
  lemma {:induction false} OtherNamesStay(l: string, name: string, r: string)
    requires Spaces(l) && Spaces(r) && Trimmed(name) && !EndsInUnit(name)
    ensures PhysicalIfd(l + name + r) == name
  {
    TrimIs(l, name, r);
  }

  lemma {:induction false} TrimShrinks(s: string)
    requires !Trimmed(s)
    ensures |TrimSpace(s)| < |s|
  {
    TrimLeftShrinks(s);
    TrimRightShrinks(TrimLeft(s));
  }

  lemma TrimLeftShrinks(s: string)
    ensures |TrimLeft(s)| <= |s| && (s != "" && IsSpace(s[0]) ==> |TrimLeft(s)| < |s|)
  {
  }

  lemma TrimRightShrinks(s: string)
    ensures |TrimRight(s)| <= |s| && (s != "" && IsSpace(s[|s| - 1]) ==> |TrimRight(s)| < |s|)
  {
  }

  ghost predicate EndsInUnit(name: string) {
    exists i | 0 < i < |name| - 1 :: name[i] == '.' && AllDigits(name[i + 1..])
  }

  lemma {:induction false} DigitAfter(name: string, i: nat, j: nat)
    requires i < j < |name| && AllDigits(name[i + 1..])
    ensures IsDigit(name[j])
  {
    assert name[i + 1..][j - i - 1] == name[j];
  }

  lemma {:induction false} UnitFollowsLastDot(name: string, i: nat)
    requires 0 < i < |name| - 1 && name[i] == '.' && AllDigits(name[i + 1..])
    ensures LastDot(name, |name|) == i
  {
    var j := LastDot(name, |name|);
    if i < j {
      DigitAfter(name, i, j);
    }
  }

  /** The names kept as they are: those without surrounding space that do not end in a dot and a unit number. */
  lemma {:induction false} FixedNames(name: string)
    ensures PhysicalIfd(name) == name <==> Trimmed(name) && !EndsInUnit(name)
  {
    if !Trimmed(name) {
      TrimShrinks(name);
    } else {
      TrimmedStays(name);
      if EndsInUnit(name) {
        var i :| 0 < i < |name| - 1 && name[i] == '.' && AllDigits(name[i + 1..]);
        UnitFollowsLastDot(name, i);
      }
    }
  }
}
