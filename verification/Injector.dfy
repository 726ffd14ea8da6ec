/** arpscan.go: the injector and the send loop of Scan, over a link whose answers and cancellation are free. */
module Injector {
  import opened Common
  import opened Addr
  import opened Arith
  import opened Pacing

  const RETRY_MAX := 64
  const MILLISECOND := 1_000_000
  const GAP := MILLISECOND
  const BACKOFF_MAX := 50 * MILLISECOND

  // ---- the backoff delay in int64 ----

  /** Reduction of a product to Go's int64. */
  function Wrap64(n: int): int {
    var r := n % 0x1_0000_0000_0000_0000;
    if r >= 0x8000_0000_0000_0000 then r - 0x1_0000_0000_0000_0000 else r
  }

  /** time.Duration(4*p) * time.Millisecond, capped. */
  function Delay(p: nat): int {
    var d := Wrap64(Wrap64(4 * p) * MILLISECOND);
    if d > BACKOFF_MAX then BACKOFF_MAX else d
  }

  /** The delay after refusal number `try`, which shifts 4 left by `try`. */
  function Backoff(try: nat): int {
    Delay(Pow2(try))
  }

  /** The delay the code is after, in nanoseconds: 4 ms doubled at each retry, at most 50 ms. */
  function Intended(try: nat): int {
    var d := 4 * Pow2(try) * 1_000_000;
    if d > 50_000_000 then 50_000_000 else d
  }

  lemma {:induction false} Pow2SixMore(n: nat, p: nat)
    requires Pow2(n) == p
    ensures Pow2(n + 6) == 64 * p
  {
    assert Pow2(n + 1) == 2 * p;
    assert Pow2(n + 2) == 4 * p;
    assert Pow2(n + 3) == 8 * p;
    assert Pow2(n + 4) == 16 * p;
    assert Pow2(n + 5) == 32 * p;
  }

  lemma {:induction false} Pow2FortyTwo()
    ensures Pow2(42) == 0x400_0000_0000
  {
    Pow2SixMore(0, 1);
    Pow2SixMore(6, 0x40);
    Pow2SixMore(12, 0x1000);
    Pow2SixMore(18, 0x4_0000);
    Pow2SixMore(24, 0x100_0000);
    Pow2SixMore(30, 0x4000_0000);
    Pow2SixMore(36, 0x10_0000_0000);
  }

  /** The retries at which the wrapped product still exceeds the cap. */
  predicate CappedByLuck(try: nat) {
    try == 46 || 48 <= try <= 51 || try == 53 || try == 54
  }

  lemma {:induction false} SmallBackoff(try: nat)
    requires try <= 41
    ensures Backoff(try) == Intended(try)
  {
    Pow2Grows(try, 41);
    Pow2FortyTwo();
    var p := Pow2(try);
    assert p <= 0x200_0000_0000;
    WrapSmall(4 * p);
    WrapSmall(4 * p * MILLISECOND);
  }

  lemma {:induction false} WrapSmall(n: int)
    requires 0 <= n < 0x8000_0000_0000_0000
    ensures Wrap64(n) == n
  {
  }

  /** 2^try for the retries whose product wraps. */
  function Shifted(try: nat): nat
    requires 42 <= try < RETRY_MAX
  {
    match try
    case 42 => 0x400_0000_0000
    case 43 => 0x800_0000_0000
    case 44 => 0x1000_0000_0000
    case 45 => 0x2000_0000_0000
    case 46 => 0x4000_0000_0000
    case 47 => 0x8000_0000_0000
    case 48 => 0x1_0000_0000_0000
    case 49 => 0x2_0000_0000_0000
    case 50 => 0x4_0000_0000_0000
    case 51 => 0x8_0000_0000_0000
    case 52 => 0x10_0000_0000_0000
    case 53 => 0x20_0000_0000_0000
    case 54 => 0x40_0000_0000_0000
    case 55 => 0x80_0000_0000_0000
    case 56 => 0x100_0000_0000_0000
    case 57 => 0x200_0000_0000_0000
    case 58 => 0x400_0000_0000_0000
    case 59 => 0x800_0000_0000_0000
    case 60 => 0x1000_0000_0000_0000
    case 61 => 0x2000_0000_0000_0000
    case 62 => 0x4000_0000_0000_0000
    case _ => 0x8000_0000_0000_0000
  }

  lemma {:induction false} ShiftedIsPow2(try: nat)
    requires 42 <= try < RETRY_MAX
    ensures Pow2(try) == Shifted(try)
  {
    if try == 42 {
      Pow2FortyTwo();
    } else {
      ShiftedIsPow2(try - 1);
    }
  }

  /** Reduction with the quotient given: r is the only number of that class in int64's range. */
  lemma {:induction false} WrapIs(n: int, q: int, r: int)
    requires n == 0x1_0000_0000_0000_0000 * q + r && -0x8000_0000_0000_0000 <= r < 0x8000_0000_0000_0000
    ensures Wrap64(n) == r
  {
    if r >= 0 {
      ModUnique(n, 0x1_0000_0000_0000_0000, q, r);
    } else {
      ModUnique(n, 0x1_0000_0000_0000_0000, q - 1, r + 0x1_0000_0000_0000_0000);
    }
  }

  /** The delay, given how often the shift (k) and the product with a millisecond (q) wrap. */
  lemma {:induction false} DelayIs(p: nat, k: int, a: int, q: int, r: int)
    requires 4 * p == 0x1_0000_0000_0000_0000 * k + a && -0x8000_0000_0000_0000 <= a < 0x8000_0000_0000_0000
    requires a * MILLISECOND == 0x1_0000_0000_0000_0000 * q + r && -0x8000_0000_0000_0000 <= r < 0x8000_0000_0000_0000
    ensures Delay(p) == if r > BACKOFF_MAX then BACKOFF_MAX else r
  {
    WrapIs(4 * p, k, a);
    WrapIs(a * MILLISECOND, q, r);
  }

  ghost predicate CappedOrNotPositive(try: nat, d: int) {
    if CappedByLuck(try) then d == BACKOFF_MAX else d <= 0
  }

  lemma {:induction false} Delays42To48(try: nat)
    requires 42 <= try <= 48
    ensures CappedOrNotPositive(try, Delay(Shifted(try)))
  {
    match try
    case 42 => DelayIs(0x400_0000_0000, 0, 0x1000_0000_0000, 0x1, -0xBDC_0000_0000_0000);
    case 43 => DelayIs(0x800_0000_0000, 0, 0x2000_0000_0000, 0x2, -0x17B8_0000_0000_0000);
    case 44 => DelayIs(0x1000_0000_0000, 0, 0x4000_0000_0000, 0x4, -0x2F70_0000_0000_0000);
    case 45 => DelayIs(0x2000_0000_0000, 0, 0x8000_0000_0000, 0x8, -0x5EE0_0000_0000_0000);
    case 46 => DelayIs(0x4000_0000_0000, 0, 0x1_0000_0000_0000, 0xF, 0x4240_0000_0000_0000);
    case 47 => DelayIs(0x8000_0000_0000, 0, 0x2_0000_0000_0000, 0x1F, -0x7B80_0000_0000_0000);
    case _ => DelayIs(0x1_0000_0000_0000, 0, 0x4_0000_0000_0000, 0x3D, 0x900_0000_0000_0000);
  }

  lemma {:induction false} Delays49To55(try: nat)
    requires 49 <= try <= 55
    ensures CappedOrNotPositive(try, Delay(Shifted(try)))
  {
    match try
    case 49 => DelayIs(0x2_0000_0000_0000, 0, 0x8_0000_0000_0000, 0x7A, 0x1200_0000_0000_0000);
    case 50 => DelayIs(0x4_0000_0000_0000, 0, 0x10_0000_0000_0000, 0xF4, 0x2400_0000_0000_0000);
    case 51 => DelayIs(0x8_0000_0000_0000, 0, 0x20_0000_0000_0000, 0x1E8, 0x4800_0000_0000_0000);
    case 52 => DelayIs(0x10_0000_0000_0000, 0, 0x40_0000_0000_0000, 0x3D1, -0x7000_0000_0000_0000);
    case 53 => DelayIs(0x20_0000_0000_0000, 0, 0x80_0000_0000_0000, 0x7A1, 0x2000_0000_0000_0000);
    case 54 => DelayIs(0x40_0000_0000_0000, 0, 0x100_0000_0000_0000, 0xF42, 0x4000_0000_0000_0000);
    case _ => DelayIs(0x80_0000_0000_0000, 0, 0x200_0000_0000_0000, 0x1E85, -0x8000_0000_0000_0000);
  }

  lemma {:induction false} Delays56To63(try: nat)
    requires 56 <= try <= 63
    ensures CappedOrNotPositive(try, Delay(Shifted(try)))
  {
    match try
    case 56 => DelayIs(0x100_0000_0000_0000, 0, 0x400_0000_0000_0000, 0x3D09, 0);
    case 57 => DelayIs(0x200_0000_0000_0000, 0, 0x800_0000_0000_0000, 0x7A12, 0);
    case 58 => DelayIs(0x400_0000_0000_0000, 0, 0x1000_0000_0000_0000, 0xF424, 0);
    case 59 => DelayIs(0x800_0000_0000_0000, 0, 0x2000_0000_0000_0000, 0x1_E848, 0);
    case 60 => DelayIs(0x1000_0000_0000_0000, 0, 0x4000_0000_0000_0000, 0x3_D090, 0);
    case 61 => DelayIs(0x2000_0000_0000_0000, 1, -0x8000_0000_0000_0000, -0x7_A120, 0);
    case 62 => DelayIs(0x4000_0000_0000_0000, 1, 0, 0, 0);
    case _ => DelayIs(0x8000_0000_0000_0000, 2, 0, 0, 0);
  }

  /** From retry 42 on the int64 product has wrapped: the delay is the cap at a few retries and not positive at
      all the others, so the frame is retried at once. */
  lemma {:induction false} WrappedBackoff(try: nat)
    requires 42 <= try < RETRY_MAX
    ensures if CappedByLuck(try) then Backoff(try) == BACKOFF_MAX else Backoff(try) <= 0
  {
    ShiftedIsPow2(try);
    if try <= 48 {
      Delays42To48(try);
    } else if try <= 55 {
      Delays49To55(try);
    } else {
      Delays56To63(try);
    }
  }

  /** The delay is the intended one exactly at these retries, and never above the cap. */
  lemma {:induction false} BackoffIff(try: nat)
    requires try < RETRY_MAX
    ensures Backoff(try) == Intended(try) <==> try <= 41 || CappedByLuck(try)
    ensures Backoff(try) <= BACKOFF_MAX
  {
    if try <= 41 {
      SmallBackoff(try);
    } else {
      WrappedBackoff(try);
      Pow2Grows(42, try);
      Pow2FortyTwo();
    }
  }

  // ---- the link, the injector and the send loop ----

  /** One ARP request: Scan's constant parts with the target's address filled in. */
  datatype Frame = Frame(srcMac: seq<byte>, srcIp: Addr4, dstIp: Addr4)

  datatype Answer = Written | NoBuffer | Fault

  /** What the link has done so far: the frames written, the answers of either kind, the sleeps, and how often it
      answered with a fault. */
  datatype Record = Record(wire: seq<Frame>, events: seq<Event>, naps: seq<int>, faults: nat)

  const NOTHING_YET := Record([], [], [], 0)

  /** The pcap handle with the context. The answers are arbitrary, and a cancelled context stays cancelled. */
  class Link {
    ghost var done: Record
    var cancelled: bool

    constructor ()
      ensures done == NOTHING_YET
    {
      done := NOTHING_YET;
      cancelled := *;
    }

    /** ctx.Err() */
    method Poll() returns (c: bool)
      modifies this`cancelled
      ensures c == cancelled && (old(cancelled) ==> cancelled)
    {
      var now: bool := *;
      cancelled := cancelled || now;
      c := cancelled;
    }

    method WritePacketData(frame: Frame) returns (answer: Answer)
      modifies this`done
      ensures done == match answer
                      case Written => old(done).(wire := old(done).wire + [frame], events := old(done).events + [Sent])
                      case NoBuffer => old(done).(events := old(done).events + [Full])
                      case Fault => old(done).(faults := old(done).faults + 1)
    {
      answer := *;
      match answer {
        case Written => done := done.(wire := done.wire + [frame], events := done.events + [Sent]);
        case NoBuffer => done := done.(events := done.events + [Full]);
        case Fault => done := done.(faults := done.faults + 1);
      }
    }

    /** sleepCtx: when the timer and the cancellation are both ready, select may take either. */
    method Sleep(duration: int) returns (c: bool)
      modifies this`cancelled, this`done
      ensures (c ==> cancelled) && (old(cancelled) ==> cancelled)
      ensures done == old(done).(naps := old(done).naps + [duration])
    {
      done := done.(naps := done.naps + [duration]);
      c := Poll();
      var timer: bool := *;
      c := c && !timer;
    }
  }

  datatype WriteError = Cancelled | SendFault | RetriesExhausted

  lemma {:induction false} StepsAppend(c: Cadence, events: seq<Event>, e: Event)
    ensures Replay(c, events + [e]) == Step(Replay(c, events), e)
    ensures Sleeps(c, events + [e]) == Sleeps(c, events) + if Pauses(Replay(c, events), e) then 1 else 0
    ensures Sends(events + [e]) == Sends(events) + if e.Sent? then 1 else 0
    ensures Refusals(0, events + [e]) == if e.Full? then Refusals(0, events) + 1 else 0
    ensures LastingPauses(c, 0, events + [e]) ==
              LastingPauses(c, 0, events) + if Lasts(Replay(c, events), Refusals(0, events), e) then 1 else 0
  {
    ReplayConcat(c, events, [e]);
    LastingConcat(c, 0, events, [e]);
    SendsConcat(events, [e]);
    assert [e][1..] == [];
  }

  /** The naps that take any time. */
  function Positive(naps: seq<int>): nat {
    if naps == [] then 0
    else Positive(naps[..|naps| - 1]) + if naps[|naps| - 1] > 0 then 1 else 0
  }

  lemma {:induction false} PositiveSnoc(naps: seq<int>, d: int)
    ensures Positive(naps + [d]) == Positive(naps) + if d > 0 then 1 else 0
  {
    assert (naps + [d])[..|naps|] == naps;
  }

  lemma {:induction false} PositiveAtMost(naps: seq<int>)
    ensures Positive(naps) <= |naps|
  {
    if naps == [] {
    } else {
      PositiveAtMost(naps[..|naps| - 1]);
    }
  }

  /** By how many the naps that take time outnumber the pauses that are sure to last. */
  function Margin(events: seq<Event>, naps: seq<int>): int {
    Positive(naps) - LastingPauses(START, 0, events)
  }

  /** The counters are where the cadence machine is after `events`, every pause it calls for has been slept, those
      that last for a positive time, and no nap was longer than 50 ms. */
  ghost predicate Booked(c: Cadence, events: seq<Event>, naps: seq<int>) {
    && c == Replay(START, events) && |naps| == Sleeps(START, events) && Margin(events, naps) >= 0
    && forall i | 0 <= i < |naps| :: naps[i] <= BACKOFF_MAX
  }

  lemma {:induction false} BookWritten(c: Cadence, events: seq<Event>, naps: seq<int>)
    requires Booked(c, events, naps)
    ensures var naps' := if Pauses(c, Sent) then naps + [GAP] else naps;
            Booked(Step(c, Sent), events + [Sent], naps') && Margin(events + [Sent], naps') == Margin(events, naps)
  {
    StepsAppend(START, events, Sent);
    PositiveSnoc(naps, GAP);
  }

  lemma {:induction false} BookRefused(c: Cadence, events: seq<Event>, naps: seq<int>, try: nat)
    requires Booked(c, events, naps) && try <= Refusals(0, events) && try < RETRY_MAX
    ensures Booked(Step(c, Full), events + [Full], naps + [Backoff(try)])
    ensures Margin(events + [Full], naps + [Backoff(try)]) >= Margin(events, naps)
    ensures Refusals(0, events + [Full]) == Refusals(0, events) + 1
  {
    StepsAppend(START, events, Full);
    PositiveSnoc(naps, Backoff(try));
    BackoffIff(try);
  }

  /** n refusals in a row. */
  function Refused(n: nat): seq<Event> {
    if n == 0 then [] else Refused(n - 1) + [Full]
  }

  /** The naps after the first n refusals of a frame: each is its own backoff. */
  function Backoffs(n: nat): seq<int> {
    if n == 0 then [] else Backoffs(n - 1) + [Backoff(n - 1)]
  }

  /** The record after n refusals of one frame. */
  function AfterRefusals(r: Record, n: nat): Record {
    r.(events := r.events + Refused(n), naps := r.naps + Backoffs(n))
  }

  /** The record after a success, with a nap of one millisecond if it ends a burst. */
  function AfterSent(r: Record, frame: Frame): Record {
    r.(wire := r.wire + [frame], events := r.events + [Sent],
       naps := if Pauses(Replay(START, r.events), Sent) then r.naps + [1_000_000] else r.naps)
  }

  lemma {:induction false} OneMoreRefusal(r: Record, n: nat)
    ensures AfterRefusals(r, n + 1).events == AfterRefusals(r, n).events + [Full]
    ensures AfterRefusals(r, n + 1).naps == AfterRefusals(r, n).naps + [Backoff(n)]
  {
    AppendAssoc(r.events, Refused(n), [Full]);
    AppendAssoc(r.naps, Backoffs(n), [Backoff(n)]);
  }

  class Injector {
    const tx: Link
    var burst: int
    var limit: int

    ghost predicate Valid()
      reads this, tx
    {
      Booked(Cadence(burst, limit), tx.done.events, tx.done.naps) && |tx.done.wire| == Sends(tx.done.events)
    }

    /** newInjector */
    constructor (tx: Link)
      requires tx.done == NOTHING_YET
      ensures Valid() && this.tx == tx
    {
      this.tx := tx;
      burst, limit := 0, BURST_START;
    }

    /** write after a success: count it, and pause when it ends the burst. */
    method Count(ghost r: Record, frame: Frame) returns (err: Option<WriteError>)
      requires Booked(Cadence(burst, limit), r.events, r.naps) && |r.wire| == Sends(r.events)
      requires tx.done == r.(wire := r.wire + [frame], events := r.events + [Sent])
      modifies this`burst, this`limit, tx`cancelled, tx`done
      ensures Valid() && (old(tx.cancelled) ==> tx.cancelled)
      ensures tx.done == AfterSent(r, frame) && Margin(tx.done.events, tx.done.naps) == Margin(r.events, r.naps)
      ensures err.None? || (err == Some(Cancelled) && tx.cancelled)
    {
      BookWritten(Cadence(burst, limit), r.events, r.naps);
      SendsConcat(r.events, [Sent]);
      burst := burst + 1;
      if burst < limit {
        return None;
      }
      burst := 0;
      if limit < BURST_MAX {
        limit := limit + 1;
      }
      var cancelled := tx.Sleep(GAP);
      return if cancelled then Some(Cancelled) else None;
    }

    /** write after ENOBUFS: slow down and wait. */
    method SlowDown(ghost r: Record, try: nat) returns (cancelled: bool)
      requires Booked(Cadence(burst, limit), r.events, r.naps) && |r.wire| == Sends(r.events)
      requires tx.done == r.(events := r.events + [Full]) && try < RETRY_MAX && try <= Refusals(0, r.events)
      modifies this`burst, this`limit, tx`cancelled, tx`done
      ensures Valid() && (old(tx.cancelled) ==> tx.cancelled) && (cancelled ==> tx.cancelled)
      ensures tx.done == r.(events := r.events + [Full], naps := r.naps + [Backoff(try)])
      ensures Refusals(0, tx.done.events) == Refusals(0, r.events) + 1
      ensures Margin(tx.done.events, tx.done.naps) >= Margin(r.events, r.naps)
    {
      BookRefused(Cadence(burst, limit), r.events, r.naps, try);
      SendsConcat(r.events, [Full]);
      burst := 0;
      if limit > BURST_MIN {
        limit := limit / 2;
      }
      cancelled := tx.Sleep(Backoff(try));
    }

    /** write: the frame goes out at most once; without an error it went out. It is given up only after 64 refusals,
        after an answer that is neither a success nor a refusal, or on cancellation. */
    method Write(frame: Frame) returns (err: Option<WriteError>, ghost refusals: nat)
      requires Valid()
      modifies this, tx
      ensures Valid() && (old(tx.cancelled) ==> tx.cancelled && err == Some(Cancelled) && tx.done == old(tx.done))
      ensures var r := AfterRefusals(old(tx.done), refusals);
              match err
              case None => refusals < 64 && tx.done == AfterSent(r, frame)
              case Some(RetriesExhausted) => refusals == 64 && tx.done == r
              case Some(SendFault) => refusals < 64 && tx.done == r.(faults := r.faults + 1)
              case Some(Cancelled) => tx.cancelled && refusals <= 64 && (tx.done == r || tx.done == AfterSent(r, frame))
      ensures Margin(tx.done.events, tx.done.naps) >= old(Margin(tx.done.events, tx.done.naps))
    {
      refusals := 0;
      ghost var r := tx.done;
      for try := 0 to RETRY_MAX
        invariant Valid() && refusals == try && tx.done == AfterRefusals(r, try) && try <= Refusals(0, tx.done.events)
        invariant old(tx.cancelled) ==> tx.cancelled && try == 0
        invariant Margin(tx.done.events, tx.done.naps) >= Margin(r.events, r.naps)
      {
        var cancelled := tx.Poll();
        if cancelled {
          return Some(Cancelled), try;
        }
        ghost var before := tx.done;
        var answer := tx.WritePacketData(frame);
        if answer.Written? {
          err := Count(before, frame);
          return;
        }
        if answer.Fault? {
          return Some(SendFault), try;
        }
        cancelled := SlowDown(before, try);
        OneMoreRefusal(r, try);
        refusals := try + 1;
        if cancelled {
          return Some(Cancelled), try + 1;
        }
      }
      return Some(RetriesExhausted), RETRY_MAX;
    }
  }

  /** The requests for the IPv4 targets, in order. */
  function Requests(srcMac: seq<byte>, srcIp: Addr4, targets: seq<IP>): seq<Frame> {
    if targets == [] then []
    else Requests(srcMac, srcIp, targets[..|targets| - 1]) +
         match To4(targets[|targets| - 1])
         case Some(ip4) => [Frame(srcMac, srcIp, ip4)]
         case None => []
  }

  lemma {:induction false} RequestsPrefix(srcMac: seq<byte>, srcIp: Addr4, targets: seq<IP>, n: nat)
    requires n <= |targets|
    ensures Requests(srcMac, srcIp, targets[..n]) <= Requests(srcMac, srcIp, targets)
    decreases |targets|
  {
    if n == |targets| {
      assert targets[..n] == targets;
    } else {
      var init := targets[..|targets| - 1];
      assert init[..n] == targets[..n];
      RequestsPrefix(srcMac, srcIp, init, n);
    }
  }

  /** One target more. */
  lemma {:induction false} NextRequest(srcMac: seq<byte>, srcIp: Addr4, targets: seq<IP>, i: nat)
    requires i < |targets|
    ensures var sent, ip4 := Requests(srcMac, srcIp, targets[..i]), To4(targets[i]);
            var next := if ip4.Some? then sent + [Frame(srcMac, srcIp, ip4.value)] else sent;
            Requests(srcMac, srcIp, targets[..i + 1]) == next && sent <= next <= Requests(srcMac, srcIp, targets)
  {
    assert targets[..i + 1][..i] == targets[..i];
    RequestsPrefix(srcMac, srcIp, targets, i);
    RequestsPrefix(srcMac, srcIp, targets, i + 1);
  }

  /** Why Scan's loop gave up. */
  datatype SendError = NotSerialized | WriteFailed(cause: WriteError)

  /** The record ends with 64 refusals in a row. */
  ghost predicate EndsRefused(events: seq<Event>) {
    exists before :: events == before + Refused(64)
  }

  /** Scan's send loop. Whatever mixture of ENOBUFS, faults and cancellation the link answers with, the frames on
      the wire are, in order and once each, a prefix of the requests for the IPv4 targets; and they are all of
      them unless the context was cancelled or an error is reported. An error means that the next request could not
      be serialized, that the link answered with a fault, or that it refused the same frame 64 times. `fits` tells
      which frames serialize. */
  method SendAll(inj: Injector, srcMac: seq<byte>, srcIp: Addr4, targets: seq<IP>, fits: Frame -> bool)
    returns (sendErr: Option<SendError>, done: nat)
    requires inj.Valid() && inj.tx.done.wire == []
    modifies inj, inj.tx
    ensures inj.Valid() && inj.tx.done.wire <= Requests(srcMac, srcIp, targets)
    ensures sendErr.None? && !inj.tx.cancelled ==> inj.tx.done.wire == Requests(srcMac, srcIp, targets)
    ensures sendErr.Some? ==> done < |targets| && To4(targets[done]).Some?
                              && inj.tx.done.wire == Requests(srcMac, srcIp, targets[..done])
    ensures match sendErr
            case None => true
            case Some(NotSerialized) => !fits(Frame(srcMac, srcIp, To4(targets[done]).value))
            case Some(WriteFailed(cause)) =>
              cause.SendFault? || (cause.RetriesExhausted? && EndsRefused(inj.tx.done.events))
    ensures inj.tx.done.faults == old(inj.tx.done.faults) + if sendErr == Some(WriteFailed(SendFault)) then 1 else 0
    ensures done <= |targets| && Requests(srcMac, srcIp, targets[..done]) <= inj.tx.done.wire
    ensures |inj.tx.done.wire| <= |Requests(srcMac, srcIp, targets[..done])| + 1
    ensures forall frame | frame in inj.tx.done.wire :: fits(frame)
  {
    sendErr, done := None, 0;
    for i := 0 to |targets|
      invariant inj.Valid() && sendErr.None? && done == i && inj.tx.done.faults == old(inj.tx.done.faults)
      invariant inj.tx.done.wire == Requests(srcMac, srcIp, targets[..i])
      invariant forall frame | frame in inj.tx.done.wire :: fits(frame)
    {
      NextRequest(srcMac, srcIp, targets, i);
      var cancelled := inj.tx.Poll();
      if cancelled {
        return;
      }
      var ip4 := To4(targets[i]);
      if ip4.Some? {
        var frame := Frame(srcMac, srcIp, ip4.value);
        if !fits(frame) {
          return Some(NotSerialized), i;
        }
        ghost var before := inj.tx.done.events;
        var err, refusals := inj.Write(frame);
        if err.Some? {
          assert err == Some(RetriesExhausted) ==> inj.tx.done.events == before + Refused(64);
          return if err.value.Cancelled? then None else Some(WriteFailed(err.value)), i;
        }
      }
      done := i + 1;
    }
    assert targets[..|targets|] == targets;
  }

  /** Pacing of the real injector: at any moment it has slept, for a positive time, at least once for every 32
      frames it has sent, and its counters are within the bounds that hold. */
  lemma {:induction false} InjectorPaced(inj: Injector)
    requires inj.Valid()
    ensures |inj.tx.done.naps| >= Positive(inj.tx.done.naps) >= |inj.tx.done.wire| / BURST_MAX
    ensures 0 <= inj.burst < inj.limit && 1 <= inj.limit <= BURST_MAX
  {
    PacedInEarnest([], inj.tx.done.events);
    assert [] + inj.tx.done.events == inj.tx.done.events;
    PositiveAtMost(inj.tx.done.naps);
    StaysInBounds(START, inj.tx.done.events);
  }
}
