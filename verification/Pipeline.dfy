/** Pipeline.Run over its stages: which devices count, and that the order in which a stage lists its
    devices does not. */
module Pipeline {
  import opened Common
  import opened Addr
  import opened Device
  import opened Merge

  datatype Outcome = Hits(devs: seq<Device>) | SoftError(err: string) | HardError(err: string)

  /** One method: whether the context was cancelled when its turn came, and how its Run ended. */
  datatype Stage = Stage(cancelledBefore: bool, outcome: Outcome)

  /** The devices of the stages that succeeded before any hard failure or cancellation. */
  function Considered(stages: seq<Stage>): seq<Device> {
    if stages == [] || stages[0].cancelledBefore then []
    else match stages[0].outcome
      case Hits(devs) => devs + Considered(stages[1..])
      case SoftError(_) => Considered(stages[1..])
      case HardError(_) => []
  }

  /** The error Run returns next to its rows. */
  function RunError(stages: seq<Stage>): Option<string> {
    if stages == [] || stages[0].cancelledBefore then None
    else match stages[0].outcome
      case HardError(err) => Some(err)
      case _ => RunError(stages[1..])
  }

  /** The methods reported through Warn, by position counted from `n`. */
  function Warned(stages: seq<Stage>, n: nat): seq<nat> {
    if stages == [] || stages[0].cancelledBefore then []
    else match stages[0].outcome
      case Hits(_) => Warned(stages[1..], n + 1)
      case SoftError(_) => [n] + Warned(stages[1..], n + 1)
      case HardError(_) => []
  }

  /** A stage collects its devices in a map keyed by address, so their addresses differ. */
  ghost predicate DistinctIPs(devs: seq<Device>) {
    forall i, j | 0 <= i < j < |devs| :: Canonical(devs[i].ip) != Canonical(devs[j].ip)
  }

  /** `q` lists the devices of `p` in another order. */
  ghost predicate Reorders(p: seq<Device>, q: seq<Device>) {
    DistinctIPs(p) && DistinctIPs(q) && (forall d | d in p :: d in q) && (forall d | d in q :: d in p)
  }

  ghost predicate SameUpToOrder(a: Outcome, b: Outcome) {
    if a.Hits? && b.Hits? then Reorders(a.devs, b.devs) else a == b
  }

  ghost predicate StagesReordered(ss: seq<Stage>, ts: seq<Stage>) {
    && |ss| == |ts|
    && forall i | 0 <= i < |ss| ::
         ss[i].cancelledBefore == ts[i].cancelledBefore && SameUpToOrder(ss[i].outcome, ts[i].outcome)
  }

  lemma {:induction false} NotAt(devs: seq<Device>, key: IP)
    requires forall i | 0 <= i < |devs| :: Canonical(devs[i].ip) != key
    ensures At(devs, key) == []
  {
    if devs == [] {
    } else {
      NotAt(devs[1..], key);
    }
  }

  lemma {:induction false} AtMostOne(devs: seq<Device>, key: IP)
    requires DistinctIPs(devs)
    ensures |At(devs, key)| <= 1
  {
    if devs == [] {
    } else {
      if Canonical(devs[0].ip) == key {
        NotAt(devs[1..], key);
      } else {
        AtMostOne(devs[1..], key);
      }
    }
  }

  lemma {:induction false} SameSingleton<T>(a: seq<T>, b: seq<T>)
    requires |a| <= 1 && |b| <= 1 && (forall x | x in a :: x in b) && (forall x | x in b :: x in a)
    ensures a == b
  {
    if a != [] {
      assert a[0] in b;
    }
    if b != [] {
      assert b[0] in a;
    }
  }

  lemma {:induction false} ReorderedAt(p: seq<Device>, q: seq<Device>, key: IP)
    requires Reorders(p, q)
    ensures At(p, key) == At(q, key)
  {
    AtMostOne(p, key);
    AtMostOne(q, key);
    AtMembers(p, key);
    AtMembers(q, key);
    SameSingleton(At(p, key), At(q, key));
  }

  lemma {:induction false} ConsideredAt(ss: seq<Stage>, ts: seq<Stage>, key: IP)
    requires StagesReordered(ss, ts)
    ensures At(Considered(ss), key) == At(Considered(ts), key)
  {
    if ss != [] && !ss[0].cancelledBefore && !ss[0].outcome.HardError? {
      ConsideredAt(ss[1..], ts[1..], key);
      if ss[0].outcome.Hits? {
        ReorderedAt(ss[0].outcome.devs, ts[0].outcome.devs, key);
        AtAppend(ss[0].outcome.devs, Considered(ss[1..]), key);
        AtAppend(ts[0].outcome.devs, Considered(ts[1..]), key);
      }
    }
  }

  /** The merged map does not depend on the order in which any stage lists its devices. */
  lemma {:induction false} OrderIrrelevant(ss: seq<Stage>, ts: seq<Stage>)
    requires StagesReordered(ss, ts)
    ensures MergeAll(map[], Considered(ss)) == MergeAll(map[], Considered(ts))
  {
    var m, n := MergeAll(map[], Considered(ss)), MergeAll(map[], Considered(ts));
    forall key ensures Lookup(m, key) == Lookup(n, key) {
      ConsideredAt(ss, ts, key);
      FoldRow(Considered(ss), key);
      FoldRow(Considered(ts), key);
    }
    SameTable(m, n);
  }
}
