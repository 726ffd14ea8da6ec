/** Vocabulary shared by every module: options, machine integers, duplicate-free sequences. */
module Common {

  datatype Option<+T> = None | Some(value: T)

  /** One octet. */
  type byte = b: int | 0 <= b < 0x100

  const TWO_TO_THE_64: int := 0x1_0000_0000_0000_0000

  /** Go's uint64: additions on it are reduced modulo 2^64 by Add64. */
  type uint64 = n: int | 0 <= n < TWO_TO_THE_64

  function Add64(a: uint64, b: uint64): uint64 {
    (a + b) % TWO_TO_THE_64
  }

  ghost predicate NoDup<T>(s: seq<T>) {
    forall i, j :: 0 <= i < j < |s| ==> s[i] != s[j]
  }

  /** `order` lists the members of `s`, each exactly once: one possible order of ranging over a Go map. */
  ghost predicate Enumerates<T>(order: seq<T>, s: set<T>) {
    NoDup(order) && (forall x | x in order :: x in s) && (forall x | x in s :: x in order)
  }

  lemma {:induction false} NoDupAppend<T>(s: seq<T>, x: T)
    requires NoDup(s) && x !in s
    ensures NoDup(s + [x])
  {
  }

  /** The values `f` yields for the members of `s`, in order. */
  function FilterMap<S, T>(f: S -> Option<T>, s: seq<S>): seq<T> {
    if s == [] then []
    else (match f(s[0]) case Some(t) => [t] case None => []) + FilterMap(f, s[1..])
  }

  lemma {:induction false} FilterMapAppend<S, T>(f: S -> Option<T>, a: seq<S>, b: seq<S>)
    ensures FilterMap(f, a + b) == FilterMap(f, a) + FilterMap(f, b)
  {
    if a == [] {
      assert a + b == b;
    } else {
      assert (a + b)[0] == a[0] && (a + b)[1..] == a[1..] + b;
      FilterMapAppend(f, a[1..], b);
    }
  }

  lemma {:induction false} FilterMapOne<S, T>(f: S -> Option<T>, x: S)
    ensures FilterMap(f, [x]) == match f(x) case Some(t) => [t] case None => []
  {
    assert [x][1..] == [];
  }

  lemma {:induction false} AppendAssoc<T>(a: seq<T>, b: seq<T>, c: seq<T>)
    ensures (a + b) + c == a + (b + c)
  {
  }

  lemma {:induction false} ConsEqual<T>(a: seq<T>, b: seq<T>)
    requires a != [] && b != [] && a[0] == b[0] && a[1..] == b[1..]
    ensures a == b
  {
    assert a == [a[0]] + a[1..] && b == [b[0]] + b[1..];
  }

  lemma {:induction false} AppendOne<T>(a: seq<T>, x: T, b: seq<T>)
    ensures (a + [x]) + b == a + ([x] + b)
  {
  }

  lemma {:induction false} EnumeratesExtend<T>(order: seq<T>, s: set<T>, x: T)
    requires Enumerates(order, s) && x !in s
    ensures Enumerates(order + [x], s + {x})
  {
  }

  /** Every finite set can be ranged over. */
  lemma {:induction false} EnumerationExists<T>(s: set<T>) returns (order: seq<T>)
    ensures Enumerates(order, s)
    decreases |s|
  {
    if s == {} {
      order := [];
    } else {
      var x :| x in s;
      var rest := EnumerationExists(s - {x});
      order := rest + [x];
    }
  }

  function Pow2(n: nat): (p: nat)
    ensures p >= 1
  {
    if n == 0 then 1 else 2 * Pow2(n - 1)
  }

  lemma {:induction false} Pow2Add(m: nat, n: nat)
    ensures Pow2(m + n) == Pow2(m) * Pow2(n)
  {
    if n == 0 {
    } else {
      Pow2Add(m, n - 1);
      assert Pow2(m) * Pow2(n) == 2 * (Pow2(m) * Pow2(n - 1));
    }
  }

  lemma {:induction false} Pow2Grows(m: nat, n: nat)
    requires m <= n
    ensures Pow2(m) <= Pow2(n)
  {
    if m == n {
    } else {
      Pow2Grows(m, n - 1);
    }
  }
}
