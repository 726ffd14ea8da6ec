/** The injector's burst/pause cadence as a state machine over what the kernel answers, and how much it
    paces the sender. */
module Pacing {

  const BURST_MIN := 2
  const BURST_START := 8
  const BURST_MAX := 32

  /** One WritePacketData that succeeded, or one refused with ENOBUFS. */
  datatype Event = Sent | Full

  /** burst: successful writes since the last pause; limit: pause after this many. */
  datatype Cadence = Cadence(burst: int, limit: int)

  const START := Cadence(0, BURST_START)

  predicate Pauses(c: Cadence, e: Event) {
    e.Full? || c.burst + 1 >= c.limit
  }

  function Step(c: Cadence, e: Event): Cadence {
    match e
    case Sent =>
      if c.burst + 1 < c.limit then Cadence(c.burst + 1, c.limit)
      else Cadence(0, if c.limit < BURST_MAX then c.limit + 1 else c.limit)
    case Full => Cadence(0, if c.limit > BURST_MIN then c.limit / 2 else c.limit)
  }

  function Replay(c: Cadence, events: seq<Event>): Cadence
    decreases |events|
  {
    if events == [] then c else Replay(Step(c, events[0]), events[1..])
  }

  /** The number of sleepCtx calls. */
  function Sleeps(c: Cadence, events: seq<Event>): nat
    decreases |events|
  {
    if events == [] then 0
    else (if Pauses(c, events[0]) then 1 else 0) + Sleeps(Step(c, events[0]), events[1..])
  }

  function Sends(events: seq<Event>): nat {
    if events == [] then 0 else (if events[0].Sent? then 1 else 0) + Sends(events[1..])
  }

  /** The bounds that hold. The limit can fall to 1, below the nominal floor of 2. */
  predicate InBounds(c: Cadence) {
    0 <= c.burst < c.limit && 1 <= c.limit <= BURST_MAX
  }

  lemma {:induction false} StaysInBounds(c: Cadence, events: seq<Event>)
    requires InBounds(c)
    ensures InBounds(Replay(c, events))
    decreases |events|
  {
    if events == [] {
    } else {
      StaysInBounds(Step(c, events[0]), events[1..]);
    }
  }

  /** injectBurstMin is not the floor: halving 3 gives 1. */
  lemma {:induction false} NominalFloorIsBroken()
    ensures Replay(START, [Full, Full, Sent, Sent, Full]) == Cadence(0, 1)
  {
    var two := Replay(START, [Full, Full]);
    assert two == Cadence(0, 2) by {
      assert [Full, Full][1..] == [Full];
    }
    assert Replay(two, [Sent, Sent]) == Cadence(0, 3) by {
      assert [Sent, Sent][1..] == [Sent];
    }
    ReplayConcat(START, [Full, Full], [Sent, Sent, Full]);
    ReplayConcat(two, [Sent, Sent], [Full]);
    assert [Full, Full] + [Sent, Sent, Full] == [Full, Full, Sent, Sent, Full];
    assert [Sent, Sent] + [Full] == [Sent, Sent, Full];
  }

  /** A step drops the limit below 2 exactly when the ring is full at limit 3 (or the limit was 1 and stays). */
  lemma {:induction false} BelowFloorIff(c: Cadence, e: Event)
    requires InBounds(c)
    ensures Step(c, e).limit < BURST_MIN <==> e.Full? && (c.limit == 3 || c.limit == 1)
  {
  }

  lemma {:induction false} ReplayConcat(c: Cadence, h: seq<Event>, w: seq<Event>)
    ensures Replay(c, h + w) == Replay(Replay(c, h), w)
    ensures Sleeps(c, h + w) == Sleeps(c, h) + Sleeps(Replay(c, h), w)
    decreases |h|
  {
    if h == [] {
      assert h + w == w;
    } else {
      assert (h + w)[0] == h[0] && (h + w)[1..] == h[1..] + w;
      ReplayConcat(Step(c, h[0]), h[1..], w);
    }
  }

  lemma {:induction false} SendsConcat(h: seq<Event>, w: seq<Event>)
    ensures Sends(h + w) == Sends(h) + Sends(w)
  {
    if h == [] {
      assert h + w == w;
    } else {
      assert (h + w)[0] == h[0] && (h + w)[1..] == h[1..] + w;
      SendsConcat(h[1..], w);
    }
  }

  /** Each sleep pays for at most 32 sends, the ones still unpaid being in the current burst. */
  lemma {:induction false} SleepsPayForSends(c: Cadence, events: seq<Event>)
    requires InBounds(c)
    ensures BURST_MAX * Sleeps(c, events) + Replay(c, events).burst >= Sends(events) + c.burst
    decreases |events|
  {
    if events == [] {
    } else {
      SleepsPayForSends(Step(c, events[0]), events[1..]);
    }
  }

  /** Pacing: whatever the history `h` of successes and ENOBUFS since newInjector, any stretch `w` of it with
      n successful writes contains at least floor(n / 32) sleeps. */
  lemma {:induction false} Paced(h: seq<Event>, w: seq<Event>)
    ensures Sleeps(START, h + w) - Sleeps(START, h) >= Sends(w) / BURST_MAX
  {
    ReplayConcat(START, h, w);
    StaysInBounds(START, h);
    var c := Replay(START, h);
    StaysInBounds(c, w);
    SleepsPayForSends(c, w);
  }

  // ---- pauses that are pauses ----

  /** The last retry of a frame whose backoff is sure to be positive: after it the int64 product has wrapped. */
  const LAST_TIMELY_RETRY := 41

  /** The refusals in a row that the history ends with, given `n` before it. */
  function Refusals(n: nat, events: seq<Event>): nat
    decreases |events|
  {
    if events == [] then n else Refusals(if events[0].Full? then n + 1 else 0, events[1..])
  }

  /** A pause that is sure to last: one after a burst, or a backoff no later than retry 41. A retry's number is
      at most the number of refusals in a row before it. */
  predicate Lasts(c: Cadence, n: nat, e: Event) {
    Pauses(c, e) && (e.Full? ==> n <= LAST_TIMELY_RETRY)
  }

  function LastingPauses(c: Cadence, n: nat, events: seq<Event>): nat
    decreases |events|
  {
    if events == [] then 0
    else (if Lasts(c, n, events[0]) then 1 else 0) +
         LastingPauses(Step(c, events[0]), if events[0].Full? then n + 1 else 0, events[1..])
  }

  lemma {:induction false} LastingConcat(c: Cadence, n: nat, h: seq<Event>, w: seq<Event>)
    ensures Refusals(n, h + w) == Refusals(Refusals(n, h), w)
    ensures LastingPauses(c, n, h + w) == LastingPauses(c, n, h) + LastingPauses(Replay(c, h), Refusals(n, h), w)
    decreases |h|
  {
    if h == [] {
      assert h + w == w;
    } else {
      assert (h + w)[0] == h[0] && (h + w)[1..] == h[1..] + w;
      LastingConcat(Step(c, h[0]), if h[0].Full? then n + 1 else 0, h[1..], w);
    }
  }

  /** A frame being retried has an empty burst behind it, so a backoff that does not last pays for nothing. */
  ghost predicate RetryIsIdle(c: Cadence, n: nat) {
    InBounds(c) && (n > 0 ==> c.burst == 0)
  }

  lemma {:induction false} RetryStaysIdle(c: Cadence, n: nat, events: seq<Event>)
    requires RetryIsIdle(c, n)
    ensures RetryIsIdle(Replay(c, events), Refusals(n, events))
    decreases |events|
  {
    if events == [] {
    } else {
      RetryStaysIdle(Step(c, events[0]), if events[0].Full? then n + 1 else 0, events[1..]);
    }
  }

  lemma {:induction false} LastingPausesPay(c: Cadence, n: nat, events: seq<Event>)
    requires RetryIsIdle(c, n)
    ensures BURST_MAX * LastingPauses(c, n, events) + Replay(c, events).burst >= Sends(events) + c.burst
    decreases |events|
  {
    if events == [] {
    } else {
      LastingPausesPay(Step(c, events[0]), if events[0].Full? then n + 1 else 0, events[1..]);
    }
  }

  /** Pacing in earnest: any stretch `w` of any history with n successful writes contains at least floor(n / 32)
      pauses that last, backoffs that wrapped around not being counted. */
  lemma {:induction false} PacedInEarnest(h: seq<Event>, w: seq<Event>)
    ensures LastingPauses(START, 0, h + w) - LastingPauses(START, 0, h) >= Sends(w) / BURST_MAX
  {
    LastingConcat(START, 0, h, w);
    RetryStaysIdle(START, 0, h);
    var c, n := Replay(START, h), Refusals(0, h);
    StaysInBounds(c, w);
    LastingPausesPay(c, n, w);
  }

  // ---- a run without ENOBUFS ----

  function Min(a: int, b: int): int {
    if a < b then a else b
  }

  /** The frames sent before the k-th pause. */
  function FramesBefore(k: nat): nat {
    if k == 0 then 0 else FramesBefore(k - 1) + Min(BURST_START + (k - 1), BURST_MAX)
  }

  function AllSent(n: nat): seq<Event> {
    if n == 0 then [] else AllSent(n - 1) + [Sent]
  }

  lemma {:induction false} AllSentOne(n: nat)
    ensures Replay(START, AllSent(n + 1)) == Step(Replay(START, AllSent(n)), Sent)
    ensures Sleeps(START, AllSent(n + 1)) ==
              Sleeps(START, AllSent(n)) + if Pauses(Replay(START, AllSent(n)), Sent) then 1 else 0
  {
    ReplayConcat(START, AllSent(n), [Sent]);
    assert [Sent][1..] == [];
  }

  /** After n frames without ENOBUFS the injector has paused exactly k times, where k counts the partial sums of
      min(8 + j, 32) that n has reached; so the k-th pause comes right after frame FramesBefore(k). */
  lemma {:induction false} SmoothRun(n: nat, k: nat)
    requires FramesBefore(k) <= n < FramesBefore(k + 1)
    ensures Sleeps(START, AllSent(n)) == k
    ensures Replay(START, AllSent(n)) == Cadence(n - FramesBefore(k), Min(BURST_START + k, BURST_MAX))
    decreases n
  {
    if n == 0 {
    } else {
      AllSentOne(n - 1);
      if FramesBefore(k) < n {
        SmoothRun(n - 1, k);
      } else {
        SmoothRun(n - 1, k - 1);
      }
    }
  }

  /** The partial sums in closed form. */
  lemma {:induction false} FramesBeforeClosed(k: nat)
    ensures FramesBefore(k) == if k <= 25 then 8 * k + k * (k - 1) / 2 else 500 + 32 * (k - 25)
  {
    if k == 0 {
    } else {
      FramesBeforeClosed(k - 1);
      assert k * (k - 1) == (k - 1) * (k - 2) + 2 * (k - 1);
    }
  }
}
