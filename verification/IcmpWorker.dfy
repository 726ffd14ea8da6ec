/** pingOne and readReplies as code over the heap tracker. What other goroutines do meanwhile is `Interfere`: any
    number of replies recorded, of wait channels asked for by other workers, also for the same address, and
    cancellation at any moment. */
module IcmpWorker {
  import opened Addr
  import opened TrackerTable
  import opened IcmpModel
  import opened IcmpInvariant
  import opened Tracker

  /** One WriteTo: where to, and whether by then the reply had been recorded or the context cancelled. */
  datatype Echo = Echo(to: Addr4, replied: bool, cancelled: bool)

  /** What a select is left by. */
  datatype Wake = OnCancel | OnReply | OnTimer

  /** The context, the socket and the timer as one pingOne meets them, with a record of what it did. */
  class Link {
    var cancelled: bool
    ghost var echoes: seq<Echo>
    ghost var failures: nat
    ghost var timeouts: nat

    constructor ()
      ensures echoes == [] && failures == 0 && timeouts == 0
    {
      cancelled := *;
      echoes, failures, timeouts := [], 0, 0;
    }

    /** ctx.Err(); a cancelled context stays cancelled. */
    method Err() returns (c: bool)
      modifies this`cancelled
      ensures c == cancelled && (old(cancelled) ==> cancelled)
    {
      var now: bool := *;
      cancelled := cancelled || now;
      c := cancelled;
    }

    /** encodeEcho */
    method Encode() returns (ok: bool)
      modifies this`failures
      ensures failures == if ok then old(failures) else old(failures) + 1
    {
      ok := *;
      if !ok {
        failures := failures + 1;
      }
    }

    method WriteTo(ip: Addr4, ghost tr: Tracker)
      modifies this`echoes
      ensures echoes == old(echoes) + [Echo(ip, ip in tr.live, cancelled)]
    {
      echoes := echoes + [Echo(ip, ip in tr.live, cancelled)];
    }

    /** The select: any case that is ready may be taken; the timer can always fire first. */
    method Select(ch: Chan) returns (wake: Wake)
      modifies this`cancelled, this`timeouts
      ensures old(cancelled) ==> cancelled
      ensures match wake case OnCancel => cancelled case OnReply => ch.closed case OnTimer => true
      ensures timeouts == old(timeouts) + if wake.OnTimer? then 1 else 0
    {
      var c := Err();
      wake := *;
      if (wake.OnCancel? && !c) || (wake.OnReply? && !ch.closed) {
        wake := OnTimer;
      }
      if wake == OnTimer {
        timeouts := timeouts + 1;
      }
    }
  }

  /** No lost wakeup, on the heap. */
  lemma {:induction false} ClosedMeansLive(tr: Tracker, key: Addr4, ch: Chan)
    requires tr.Valid() && (key, ch) in tr.handed
    ensures ch.closed <==> key in tr.live
  {
    assert (key, ch) !in tr.Lost();
    ClosedIffLive(tr.Abs(), key, ch.id);
  }

  /** The tracker forgets no address, and no channel that it has handed out. */
  method Interfere(tr: Tracker, link: Link)
    requires tr.Valid()
    modifies tr, tr.chans, link`cancelled
    ensures tr.Valid() && old(tr.live) <= tr.live && old(tr.handed) <= tr.handed
    ensures forall c | c in tr.chans :: c in old(tr.chans) || fresh(c)
    ensures link.echoes == old(link.echoes) && link.failures == old(link.failures)
    ensures link.timeouts == old(link.timeouts) && (old(link.cancelled) ==> link.cancelled)
  {
    var others: nat :| 0 <= others;
    for i := 0 to others
      invariant tr.Valid() && old(tr.live) <= tr.live && old(tr.handed) <= tr.handed
      invariant forall c | c in tr.chans :: c in old(tr.chans) || fresh(c)
      invariant link.cancelled == old(link.cancelled)
    {
      var from: Addr4, replies: bool := *, *;
      if replies {
        tr.GotReply(from);
      } else {
        var ch := tr.Waiter(from);
      }
    }
    var cancelled := link.Err();
  }

  /** How one round of the retry loop ends: it goes on, or for one of the reasons to return. */
  datatype Round = Again | CtxDone | Replied | Unencodable

  /** What a round that ends so has seen. */
  ghost predicate Seen(round: Round, cancelled: bool, live: bool) {
    (round.CtxDone? ==> cancelled) && (round.Replied? ==> live)
  }

  /** The head of the loop: the context and the reply are looked at, and an echo is encoded. */
  method Ready(tr: Tracker, link: Link, key: Addr4) returns (round: Round)
    requires tr.Valid()
    modifies tr, tr.chans, link
    ensures tr.Valid() && old(tr.live) <= tr.live && old(tr.handed) <= tr.handed
    ensures forall c | c in tr.chans :: c in old(tr.chans) || fresh(c)
    ensures link.echoes == old(link.echoes) && (old(link.cancelled) ==> link.cancelled)
    ensures link.failures == old(link.failures) + (if round.Unencodable? then 1 else 0)
    ensures link.timeouts == old(link.timeouts)
    ensures Seen(round, link.cancelled, key in tr.live)
    ensures old(link.cancelled) || key in old(tr.live) ==> !round.Again?
  {
    Interfere(tr, link);
    var cancelled := link.Err();
    if cancelled {
      return CtxDone;
    }
    var replied := tr.Replied(key);
    if replied {
      return Replied;
    }
    var encoded := link.Encode();
    return if encoded then Again else Unencodable;
  }

  /** The rest of it: the echo is written, and the select waits for the context, the reply or the timer. */
  method SendAndWait(tr: Tracker, link: Link, key: Addr4, ch: Chan) returns (round: Round, ghost echo: Echo)
    requires tr.Valid() && (key, ch) in tr.handed
    modifies tr, tr.chans, link
    ensures tr.Valid() && old(tr.live) <= tr.live && old(tr.handed) <= tr.handed
    ensures forall c | c in tr.chans :: c in old(tr.chans) || fresh(c)
    ensures link.echoes == old(link.echoes) + [echo] && (old(link.cancelled) ==> link.cancelled)
    ensures link.failures == old(link.failures) && !round.Unencodable?
    ensures link.timeouts == old(link.timeouts) + if round.Again? then 1 else 0
    ensures echo.to == key && (echo.replied ==> key in tr.live) && (echo.cancelled ==> link.cancelled)
    ensures Seen(round, link.cancelled, key in tr.live)
  {
    Interfere(tr, link);
    echo := Echo(key, key in tr.live, link.cancelled);
    link.WriteTo(key, tr);
    Interfere(tr, link);
    ClosedMeansLive(tr, key, ch);
    var wake := link.Select(ch);
    round := match wake case OnCancel => CtxDone case OnReply => Replied case OnTimer => Again;
  }

  /** All echoes go to the key. None but the last was written when the reply had been recorded or the context
      cancelled, and the last one only if `replied` or `cancelled` says so now. */
  predicate OnlyLastLate(echoes: seq<Echo>, key: Addr4, replied: bool, cancelled: bool) {
    && (forall i | 0 <= i < |echoes| :: echoes[i].to == key)
    && (forall i | 0 <= i < |echoes| - 1 :: !echoes[i].replied && !echoes[i].cancelled)
    && (forall i | 0 <= i < |echoes| :: (echoes[i].replied ==> replied) && (echoes[i].cancelled ==> cancelled))
  }

  lemma {:induction false} OneEchoMore(echoes: seq<Echo>, sent: seq<Echo>, key: Addr4,
                                       replied: bool, cancelled: bool, replied': bool, cancelled': bool)
    requires OnlyLastLate(echoes, key, replied, cancelled) && OnlyLastLate(sent, key, replied', cancelled')
    requires (replied ==> replied') && (cancelled ==> cancelled') && |sent| <= 1
    requires replied || cancelled ==> sent == []
    ensures OnlyLastLate(echoes + sent, key, replied', cancelled')
  {
  }

  /** One round of the retry loop; `sent` is the echo it writes, if it gets that far. */
  method Attempt(tr: Tracker, link: Link, key: Addr4, ch: Chan) returns (round: Round, ghost sent: seq<Echo>)
    requires tr.Valid() && (key, ch) in tr.handed
    modifies tr, tr.chans, link
    ensures tr.Valid() && old(tr.live) <= tr.live && old(tr.handed) <= tr.handed
    ensures forall c | c in tr.chans :: c in old(tr.chans) || fresh(c)
    ensures link.echoes == old(link.echoes) + sent && (old(link.cancelled) ==> link.cancelled)
    ensures link.failures == old(link.failures) + (if round.Unencodable? then 1 else 0)
    ensures link.timeouts == old(link.timeouts) + if round.Again? then 1 else 0
    ensures |sent| <= 1 && (round.Again? ==> |sent| == 1)
    ensures OnlyLastLate(sent, key, key in tr.live, link.cancelled)
    ensures Seen(round, link.cancelled, key in tr.live)
    ensures old(link.cancelled) || key in old(tr.live) ==> !round.Again? && sent == []
  {
    round := Ready(tr, link, key);
    sent := [];
    if round.Again? {
      ghost var echo;
      round, echo := SendAndWait(tr, link, key, ch);
      sent := [echo];
    }
  }

  /** What stopped the loop, when not its own count. */
  predicate Stopped(replied: bool, cancelled: bool, failures: nat) {
    replied || cancelled || failures == 1
  }

  /** pingOne's loop: it sends exactly `attempts` echoes unless it is stopped. */
  method Retry(tr: Tracker, link: Link, key: Addr4, ch: Chan, attempts: nat) returns (ghost echoes: seq<Echo>)
    requires tr.Valid() && (key, ch) in tr.handed
    modifies tr, tr.chans, link
    ensures tr.Valid() && old(tr.live) <= tr.live && old(tr.handed) <= tr.handed
    ensures forall c | c in tr.chans :: c in old(tr.chans) || fresh(c)
    ensures link.echoes == old(link.echoes) + echoes && OnlyLastLate(echoes, key, key in tr.live, link.cancelled)
    ensures old(link.failures) <= link.failures <= old(link.failures) + 1
    ensures |echoes| - 1 <= link.timeouts - old(link.timeouts) <= |echoes|
    ensures |echoes| == attempts ||
            (|echoes| < attempts && Stopped(key in tr.live, link.cancelled, link.failures - old(link.failures)))
    ensures old(link.cancelled) || key in old(tr.live) ==> echoes == []
  {
    echoes := [];
    for attempt := 0 to attempts
      invariant tr.Valid() && old(tr.live) <= tr.live && old(tr.handed) <= tr.handed
      invariant forall c | c in tr.chans :: c in old(tr.chans) || fresh(c)
      invariant link.echoes == old(link.echoes) + echoes && |echoes| == attempt
      invariant OnlyLastLate(echoes, key, key in tr.live, link.cancelled)
      invariant link.timeouts == old(link.timeouts) + attempt
      invariant link.failures == old(link.failures) && (old(link.cancelled) ==> link.cancelled)
      invariant old(link.cancelled) || key in old(tr.live) ==> attempt == 0
    {
      ghost var replied, cancelled := key in tr.live, link.cancelled;
      ghost var sent;
      var round;
      round, sent := Attempt(tr, link, key, ch);
      OneEchoMore(echoes, sent, key, replied, cancelled, key in tr.live, link.cancelled);
      echoes := echoes + sent;
      if !round.Again? {
        return;
      }
    }
  }

  /** pingOne, with anything other goroutines may do between any two of its steps. */
  method PingOne(tr: Tracker, link: Link, ip: IP, attempts: nat) returns (ghost echoes: seq<Echo>)
    requires tr.Valid()
    modifies tr, tr.chans, link
    ensures tr.Valid() && old(tr.live) <= tr.live && old(tr.handed) <= tr.handed
    ensures forall c | c in tr.chans :: c in old(tr.chans) || fresh(c)
    ensures link.echoes == old(link.echoes) + echoes && |echoes| <= attempts
    ensures old(link.failures) <= link.failures <= old(link.failures) + 1
    ensures |echoes| - 1 <= link.timeouts - old(link.timeouts) <= |echoes|
    ensures match To4(ip)
            case None => echoes == [] && link.failures == old(link.failures) && link.timeouts == old(link.timeouts)
            case Some(key) =>
              && OnlyLastLate(echoes, key, key in tr.live, link.cancelled)
              && (|echoes| == attempts ||
                  Stopped(key in tr.live, link.cancelled, link.failures - old(link.failures)))
              && (old(link.cancelled) || key in old(tr.live) ==> echoes == [])
  {
    var ip4 := To4(ip);
    if ip4.None? {
      return [];
    }
    var ch := tr.Waiter(ip4.value);
    echoes := Retry(tr, link, ip4.value, ch, attempts);
  }

  /** One round of the receive loop as the socket and the context answer it. */
  datatype Reading = Reading(cancelledBefore: bool, read: ReadResult, cancelledAfter: bool)
  datatype ReadResult = Datagram(d: IcmpModel.Datagram) | TimedOut | Broken

  predicate Stops(round: Reading) {
    round.cancelledBefore || round.read.Broken? || (round.read.TimedOut? && round.cancelledAfter)
  }

  /** The datagrams read before the loop stops. */
  function Heard(rounds: seq<Reading>): seq<IcmpModel.Datagram> {
    if rounds == [] || Stops(rounds[0]) then []
    else (if rounds[0].read.Datagram? then [rounds[0].read.d] else []) + Heard(rounds[1..])
  }

  lemma {:induction false} HeardGrows(rounds: seq<Reading>, n: nat)
    requires n < |rounds| && forall i | 0 <= i <= n :: !Stops(rounds[i])
    ensures Heard(rounds[..n + 1]) == Heard(rounds[..n]) + if rounds[n].read.Datagram? then [rounds[n].read.d] else []
  {
    if n == 0 {
    } else {
      HeardGrows(rounds[1..], n - 1);
      assert rounds[1..][..n] == rounds[..n + 1][1..] && rounds[1..][..n - 1] == rounds[..n][1..];
    }
  }

  lemma {:induction false} HeardEnds(rounds: seq<Reading>, n: nat)
    requires n < |rounds| && Stops(rounds[n]) && forall i | 0 <= i < n :: !Stops(rounds[i])
    ensures Heard(rounds) == Heard(rounds[..n])
  {
    if n == 0 {
    } else {
      HeardEnds(rounds[1..], n - 1);
      assert rounds[1..][..n - 1] == rounds[..n][1..];
    }
  }

  /** readReplies marks live exactly the targets from which it reads, before it stops, an echo reply that carries the
      stage's own identifier, or 0 in its place. */
  method ReadReplies(c: Config, tr: Tracker, rounds: seq<Reading>)
    requires tr.Valid()
    modifies tr, tr.chans
    ensures tr.Valid() && tr.live == old(tr.live) + Answered(c, Heard(rounds))
    ensures forall k: Addr4 :: k in tr.live <==>
              k in old(tr.live) || (IsTarget(c, k) && RepliedIn(Heard(rounds), k, c.echoId))
  {
    forall k: Addr4
      ensures k in Answered(c, Heard(rounds)) <==> IsTarget(c, k) && RepliedIn(Heard(rounds), k, c.echoId)
    {
      AnsweredIs(c, Heard(rounds), k);
    }
    for n := 0 to |rounds|
      invariant tr.Valid() && tr.chans == old(tr.chans)
      invariant forall i | 0 <= i < n :: !Stops(rounds[i])
      invariant tr.live == old(tr.live) + Answered(c, Heard(rounds[..n]))
    {
      var round := rounds[n];
      if round.cancelledBefore {
        HeardEnds(rounds, n);
        return;
      }
      if !round.read.Datagram? {
        if round.cancelledAfter || round.read.Broken? {
          HeardEnds(rounds, n);
          return;
        }
        HeardGrows(rounds, n);
        assert Heard(rounds[..n + 1]) == Heard(rounds[..n]);
        continue;
      }
      HeardGrows(rounds, n);
      AnsweredAppend(c, Heard(rounds[..n]), round.read.d);
      if Accepts(c, round.read.d) {
        tr.GotReply(round.read.d.peer.value);
      }
    }
    assert rounds[..|rounds|] == rounds;
  }
}
