/** The value of the reply tracker: which addresses are live, which channel each waits on,
    and which channels have been closed. Channels are numbered in the order they are made. */
module TrackerTable {
  import opened Common
  import opened Addr

  /** `closes` lists every close operation in order, so a channel closed twice would show up twice. */
  datatype Table = Table(live: set<Addr4>, wait: map<Addr4, nat>, made: nat, closes: seq<nat>)

  const EMPTY_TABLE := Table({}, map[], 0, [])

  function GotReply(t: Table, ip: Addr4): Table {
    var marked := t.(live := t.live + {ip});
    if ip in t.wait && t.wait[ip] !in t.closes
    then marked.(closes := t.closes + [t.wait[ip]])
    else marked
  }

  /** The table after waiter(ip), and the channel it returns. */
  function Waiter(t: Table, ip: Addr4): (Table, nat) {
    if ip in t.live then (t.(made := t.made + 1, closes := t.closes + [t.made]), t.made)
    else if ip in t.wait then (t, t.wait[ip])
    else (t.(wait := t.wait[ip := t.made], made := t.made + 1), t.made)
  }

  /** What every tracker operation keeps: a registered channel is closed exactly when its address is live,
      no two addresses share a channel, and no channel was closed twice. */
  ghost predicate TableOk(t: Table) {
    && (forall ip | ip in t.wait :: t.wait[ip] < t.made && (t.wait[ip] in t.closes <==> ip in t.live))
    && (forall ip, jp | ip in t.wait && jp in t.wait && ip != jp :: t.wait[ip] != t.wait[jp])
    && (forall ch | ch in t.closes :: ch < t.made)
    && NoDup(t.closes)
  }

  /** `ch` was handed out to someone waiting for `ip`: it is the registered channel,
      or a channel made already closed because `ip` was live. */
  ghost predicate WaitsFor(t: Table, ip: Addr4, ch: nat) {
    ch < t.made && ((ip in t.wait && t.wait[ip] == ch) || (ch in t.closes && ip in t.live))
  }

  lemma {:induction false} GotReplyKeeps(t: Table, ip: Addr4)
    requires TableOk(t)
    ensures TableOk(GotReply(t, ip))
    ensures forall jp, ch | WaitsFor(t, jp, ch) :: WaitsFor(GotReply(t, ip), jp, ch)
  {
    if ip in t.wait && t.wait[ip] !in t.closes {
      NoDupAppend(t.closes, t.wait[ip]);
    }
  }

  lemma {:induction false} WaiterTableOk(t: Table, ip: Addr4)
    requires TableOk(t)
    ensures TableOk(Waiter(t, ip).0)
  {
    if ip in t.live {
      NoDupAppend(t.closes, t.made);
    }
  }

  lemma {:induction false} WaiterKeeps(t: Table, ip: Addr4)
    requires TableOk(t)
    ensures TableOk(Waiter(t, ip).0)
    ensures WaitsFor(Waiter(t, ip).0, ip, Waiter(t, ip).1)
    ensures forall jp, ch | WaitsFor(t, jp, ch) :: WaitsFor(Waiter(t, ip).0, jp, ch)
  {
    WaiterTableOk(t, ip);
  }

  /** No lost wakeup, in one state: a channel handed out for `ip` is closed exactly when `ip` is live. */
  lemma {:induction false} ClosedIffLive(t: Table, ip: Addr4, ch: nat)
    requires TableOk(t) && WaitsFor(t, ip, ch)
    ensures ch in t.closes <==> ip in t.live
  {
  }
}
