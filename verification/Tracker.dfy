/** The tracker of icmpping.go with its channels on the heap. Each method body runs under the mutex,
    so it is one atomic step of the concurrent model. */
module Tracker {
  import opened Common
  import opened Addr
  import opened TrackerTable

  /** A one-shot signal channel. Closing a closed channel panics in Go, hence Close's precondition. */
  class Chan {
    ghost const id: nat
    var closed: bool

    constructor (ghost id: nat)
      ensures !closed && this.id == id
    {
      this.id := id;
      closed := false;
    }

    method Close()
      requires !closed
      modifies this
      ensures closed
    {
      closed := true;
    }
  }

  class Tracker {
    var live: set<Addr4>
    var wait: map<Addr4, Chan>
    ghost var made: seq<Chan>
    ghost var chans: set<Chan>
    ghost var closes: seq<nat>
    ghost var handed: set<(Addr4, Chan)>

    /** The channel objects, `chans` all of them, agree with the log of close operations. */
    ghost predicate ChansOk()
      reads this, chans
    {
      && (forall i | 0 <= i < |made| :: made[i] in chans)
      && (forall i | 0 <= i < |made| :: made[i].id == i && (made[i].closed <==> i in closes))
      && (forall ip | ip in wait :: wait[ip] in made)
    }

    /** The channels handed out for an address that are no longer a wait channel of that address. */
    ghost function Lost(): set<(Addr4, Chan)>
      reads this
    {
      set h | h in handed && !(h.1.id < |made| && made[h.1.id] == h.1 && WaitsFor(Abs(), h.0, h.1.id))
    }

    ghost predicate Valid()
      reads this, chans
    {
      ChansOk() && TableOk(Abs()) && Lost() == {}
    }

    /** The tracker as a value; channel objects become their numbers. */
    ghost function Abs(): Table
      reads this
    {
      Table(live, map ip | ip in wait :: wait[ip].id, |made|, closes)
    }

    constructor ()
      ensures Valid() && Abs() == EMPTY_TABLE && chans == {} && handed == {}
    {
      live, wait, made, chans, closes, handed := {}, map[], [], {}, [], {};
    }

    method GotReply(ip: Addr4)
      requires Valid()
      modifies this, chans
      ensures Valid() && made == old(made) && chans == old(chans) && handed == old(handed)
      ensures Abs() == TrackerTable.GotReply(old(Abs()), ip)
    {
      ghost var t := Abs();
      GotReplyKeeps(t, ip);
      live := live + {ip};
      if ip in wait {
        var ch := wait[ip];
        if !ch.closed {
          ch.Close();
          closes := closes + [ch.id];
        }
      }
      assert Abs() == TrackerTable.GotReply(t, ip);
    }

    /** make(chan struct{}), closed at once when `answered`. */
    method MakeChan(answered: bool) returns (ch: Chan)
      requires ChansOk() && (forall i | i in closes :: i < |made|)
      modifies this`made, this`chans, this`closes
      ensures fresh(ch) && made == old(made) + [ch] && chans == old(chans) + {ch} && ch.id == |old(made)|
      ensures closes == (if answered then old(closes) + [ch.id] else old(closes)) && (ch.closed <==> answered)
      ensures ChansOk()
    {
      ch := new Chan(|made|);
      made, chans := made + [ch], chans + {ch};
      if answered {
        ch.Close();
        closes := closes + [ch.id];
      }
    }

    /** A new open channel, kept for the other callers of the same address. */
    method NewWait(ip: Addr4) returns (ch: Chan)
      requires ChansOk() && TableOk(Abs()) && ip !in live && ip !in wait
      modifies this`wait, this`made, this`chans, this`closes
      ensures ChansOk() && fresh(ch) && made == old(made) + [ch] && chans == old(chans) + {ch} && !ch.closed
      ensures Abs() == TrackerTable.Waiter(old(Abs()), ip).0 && ch.id == TrackerTable.Waiter(old(Abs()), ip).1
    {
      ghost var t := Abs();
      ch := MakeChan(false);
      wait := wait[ip := ch];
      assert Abs() == TrackerTable.Waiter(t, ip).0;
    }

    /** A closed channel for a live address, else the one its callers share. */
    method Channel(ip: Addr4) returns (ch: Chan)
      requires ChansOk() && TableOk(Abs())
      modifies this`wait, this`made, this`chans, this`closes
      ensures ChansOk() && ch in made
      ensures (made == old(made) && chans == old(chans))
              || (fresh(ch) && made == old(made) + [ch] && chans == old(chans) + {ch})
      ensures Abs() == TrackerTable.Waiter(old(Abs()), ip).0 && ch.id == TrackerTable.Waiter(old(Abs()), ip).1
    {
      if ip in live {
        ch := MakeChan(true);
      } else if ip in wait {
        ch := wait[ip];
      } else {
        ch := NewWait(ip);
      }
    }

    /** Note that the channel is handed out for the address. */
    ghost method HandOut(ip: Addr4, ch: Chan)
      requires Valid() && ch in made && WaitsFor(Abs(), ip, ch.id)
      modifies this`handed
      ensures Valid() && handed == old(handed) + {(ip, ch)}
    {
      assert forall h | h in handed :: h !in Lost();
      handed := handed + {(ip, ch)};
    }

    method Waiter(ip: Addr4) returns (ch: Chan)
      requires Valid()
      modifies this
      ensures Valid() && ch in made && handed == old(handed) + {(ip, ch)}
      ensures (made == old(made) && chans == old(chans))
              || (fresh(ch) && made == old(made) + [ch] && chans == old(chans) + {ch})
      ensures Abs() == TrackerTable.Waiter(old(Abs()), ip).0 && ch.id == TrackerTable.Waiter(old(Abs()), ip).1
      ensures ch.closed <==> ip in live
    {
      ghost var t := Abs();
      WaiterKeeps(t, ip);
      ClosedIffLive(TrackerTable.Waiter(t, ip).0, ip, TrackerTable.Waiter(t, ip).1);
      assert forall h | h in handed :: h !in Lost();
      ch := Channel(ip);
      HandOut(ip, ch);
    }

    method Replied(ip: Addr4) returns (ok: bool)
      requires Valid()
      ensures ok <==> ip in Abs().live
    {
      ok := ip in live;
    }

    method LiveIPs() returns (out: seq<Addr4>)
      requires Valid()
      ensures Enumerates(out, Abs().live)
    {
      out := [];
      var rest := live;
      while rest != {}
        invariant rest <= live && Enumerates(out, live - rest)
        decreases |rest|
      {
        var ip :| ip in rest;
        NoDupAppend(out, ip);
        out, rest := out + [ip], rest - {ip};
      }
    }
  }
}
