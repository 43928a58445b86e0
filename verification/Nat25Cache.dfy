/** The source cache of the NAT2.5 transmit path, scdb_entry with scdb_mac and scdb_ip, beside
  * the database: what each call makes of the two, and what runs of calls keep. */
module Nat25Cache {
  import opened Wrappers
  import opened Nat25Map

  const NAT25_IPV4: bv8 := 1

  type IpBytes = i: seq<bv8> | |i| == 4 witness [0, 0, 0, 0]
  datatype Ip = Ip(bytes: IpBytes)

  function Ipv4Addr(ip: Ip): NetAddr {
    NetAddr([NAT25_IPV4, 0, 0, 0, 0, 0, 0] + ip.bytes + [0, 0, 0, 0, 0, 0])
  }

  lemma Ipv4Apart(i: Ip, j: Ip)
    requires i != j
    ensures Ipv4Addr(i) != Ipv4Addr(j)
  {
    var k :| 0 <= k < 4 && i.bytes[k] != j.bytes[k];
    assert Ipv4Addr(i).bytes[7 + k] != Ipv4Addr(j).bytes[7 + k];
  }

  const ZERO_MAC := Mac([0, 0, 0, 0, 0, 0])
  const ZERO_IP := Ip([0, 0, 0, 0])

  /** The key of the entry scdb_entry points at, None for NULL, and the two copies. */
  datatype Cached = Cached(entry: Option<NetAddr>, mac: Mac, ip: Ip)
  const NOTHING_CACHED := Cached(None, ZERO_MAC, ZERO_IP)

  datatype Net = Net(db: Db, cache: Cached)

  datatype Call =
    | Insert(addr: NetAddr, mac: Mac)
    | Lookup(addr: NetAddr)
    | Sweep
    | Cleanup
    | Transmit(mac: Mac, ip: Ip)      // an IPv4 frame from this source goes out

  datatype TimedCall = TimedCall(call: Call, now: Jiffies)

  /** The cache after the entries whose keys left the database were freed. */
  function Surviving(c: Cached, db: Db): Cached {
    if c.entry.Some? && c.entry.value !in db then NOTHING_CACHED else c
  }

  /** The cache after the transmit path has looked at a source.  A MAC address other than the
    * cached one makes it search the database; when that fails the pointer is NULL and the two
    * copies stay. */
  function Chosen(n: Net, mac: Mac, ip: Ip): Cached {
    if mac != n.cache.mac then
      if Ipv4Addr(ip) in n.db then Cached(Some(Ipv4Addr(ip)), mac, ip) else n.cache.(entry := None)
    else if n.cache.entry.Some? then n.cache
    else NOTHING_CACHED
  }

  /** What a call does to the database: a transmission restamps the entry it ends up with. */
  function Events(n: Net, t: TimedCall): seq<Timed> {
    match t.call
    case Insert(a, mac) => [Timed(Event.Insert(a, mac), t.now)]
    case Lookup(a) => [Timed(Event.Lookup(a), t.now)]
    case Sweep => [Timed(Event.Sweep, t.now)]
    case Cleanup => [Timed(Event.Cleanup, t.now)]
    case Transmit(mac, ip) =>
      var e := Chosen(n, mac, ip).entry;
      if e.Some? then [Timed(Refresh(e.value), t.now)] else []
  }

  function NetStep(age: nat, n: Net, t: TimedCall): Net {
    var es := Events(n, t);
    var db := if es == [] then n.db else Step(age, n.db, es[0]);
    Net(db, if t.call.Transmit? then Chosen(n, t.call.mac, t.call.ip) else Surviving(n.cache, db))
  }

  function NetRun(age: nat, n: Net, ts: seq<TimedCall>): Net
    decreases |ts|
  {
    if ts == [] then n else NetStep(age, NetRun(age, n, ts[..|ts| - 1]), ts[|ts| - 1])
  }

  /** What a run of calls does to the database. */
  function Trace(age: nat, n: Net, ts: seq<TimedCall>): seq<Timed>
    decreases |ts|
  {
    if ts == [] then [] else
      var k := |ts| - 1;
      Trace(age, n, ts[..k]) + Events(NetRun(age, n, ts[..k]), ts[k])
  }

  /** Every run of calls is, on the database, a run of the map; so the tally of use counts and
    * the end of an entry hold of runs with a cache too. */
  lemma {:induction false} TraceRuns(age: nat, n: Net, ts: seq<TimedCall>)
    ensures NetRun(age, n, ts).db == Run(age, n.db, Trace(age, n, ts))
    decreases |ts|
  {
    hide Step, Run, Events;
    if ts == [] {
      RunEmpty(age, n.db);
    } else {
      var k := |ts| - 1;
      TraceRuns(age, n, ts[..k]);
      var tr, m := Trace(age, n, ts[..k]), NetRun(age, n, ts[..k]);
      OneEvent(m, ts[k]);
      var es := Events(m, ts[k]);
      if es == [] {
        assert tr + es == tr;
      } else {
        RunOneMore(age, n.db, tr, es[0]);
      }
    }
  }

  lemma RunEmpty(age: nat, m: Db)
    ensures Run(age, m, []) == m
  {
  }

  lemma RunOneMore(age: nat, m: Db, ts: seq<Timed>, t: Timed)
    ensures Run(age, m, ts + [t]) == Step(age, Run(age, m, ts), t)
  {
    assert (ts + [t])[..|ts|] == ts;
  }

  lemma OneEvent(n: Net, t: TimedCall)
    ensures Events(n, t) == [] || Events(n, t) == [Events(n, t)[0]]
  {
  }

  /* ---------- What runs keep of the cache ---------- */

  /** A cached entry is in the database, and is that of the cached IP address. */
  predicate Live(n: Net) {
    n.cache.entry.Some? ==> n.cache.entry.value in n.db && n.cache.entry.value == Ipv4Addr(n.cache.ip)
  }

  /** No run frees an entry and keeps the pointer to it. */
  lemma {:induction false} StaysLive(age: nat, n: Net, ts: seq<TimedCall>)
    requires Live(n)
    ensures Live(NetRun(age, n, ts))
    decreases |ts|
  {
    hide SweepInfo, Expired, Ipv4Addr;
    if ts != [] {
      StaysLive(age, n, ts[..|ts| - 1]);
    }
  }

  /** With no entry cached the two copies are zero. */
  predicate Cleared(n: Net) {
    n.cache.entry.None? ==> n.cache == NOTHING_CACHED
  }

  /** A frame from another MAC address and an unknown IP address, while something is cached. */
  predicate Forgets(n: Net, t: TimedCall) {
    && t.call.Transmit? && t.call.mac != n.cache.mac && Ipv4Addr(t.call.ip) !in n.db
    && n.cache.entry.Some? && (n.cache.mac != ZERO_MAC || n.cache.ip != ZERO_IP)
  }

  lemma ClearedAfterIff(age: nat, n: Net, t: TimedCall)
    requires Cleared(n)
    ensures Cleared(NetStep(age, n, t)) <==> !Forgets(n, t)
  {
    hide Step, Ipv4Addr;
  }

  /** Copies that were left are cleared by, or made right by, exactly the next frame from the copied
    * MAC address or from a known source. */
  lemma ClearsAgainIff(age: nat, n: Net, t: TimedCall)
    requires !Cleared(n)
    ensures Cleared(NetStep(age, n, t)) <==>
      t.call.Transmit? && (t.call.mac == n.cache.mac || Ipv4Addr(t.call.ip) in n.db)
  {
    hide Step, Ipv4Addr;
  }

  predicate ClearedThroughout(age: nat, n: Net, ts: seq<TimedCall>)
    decreases |ts|
  {
    Cleared(NetRun(age, n, ts)) && (ts != [] ==> ClearedThroughout(age, n, ts[..|ts| - 1]))
  }

  predicate NeverForgets(age: nat, n: Net, ts: seq<TimedCall>)
    decreases |ts|
  {
    ts != [] ==>
      var k := |ts| - 1;
      NeverForgets(age, n, ts[..k]) && !Forgets(NetRun(age, n, ts[..k]), ts[k])
  }

  lemma {:induction false} ClearedThroughoutIff(age: nat, n: Net, ts: seq<TimedCall>)
    requires Cleared(n)
    ensures ClearedThroughout(age, n, ts) <==> NeverForgets(age, n, ts)
    decreases |ts|
  {
    hide NetStep, Forgets, Cleared;
    if ts != [] {
      var k := |ts| - 1;
      ClearedThroughoutIff(age, n, ts[..k]);
      if ClearedThroughout(age, n, ts[..k]) {
        ClearedAfterIff(age, NetRun(age, n, ts[..k]), ts[k]);
      }
    }
  }

  /* ---------- Which entry a transmission restamps ---------- */

  /** A frame restamps the entry of its own address exactly when the search was made or that entry
    * is the cached one; for the cached MAC address only the cached entry is restamped. */
  lemma RestampsOwnIff(age: nat, n: Net, mac: Mac, ip: Ip, now: Jiffies)
    requires Live(n) && Ipv4Addr(ip) in n.db && n.db[Ipv4Addr(ip)].timer != now
    ensures var a, m := Ipv4Addr(ip), NetStep(age, n, TimedCall(Transmit(mac, ip), now)).db;
      a in m && (m[a].timer == now <==> mac != n.cache.mac || n.cache.entry == Some(a))
  {
    hide Ipv4Addr;
  }

  /** Nothing else of the database changes. */
  lemma RestampsOnly(age: nat, n: Net, mac: Mac, ip: Ip, now: Jiffies, b: NetAddr)
    requires Live(n) && b in n.db
    ensures var m := NetStep(age, n, TimedCall(Transmit(mac, ip), now)).db;
      && m.Keys == n.db.Keys && m[b] == n.db[b].(timer := m[b].timer)
      && (m[b].timer != n.db[b].timer ==>
            m[b].timer == now && b == if mac != n.cache.mac then Ipv4Addr(ip) else Ipv4Addr(n.cache.ip))
  {
    hide Ipv4Addr;
  }

  /** One source with two addresses, the first one cached: although it has just sent from the
    * second one, that entry is aged out. */
  lemma SecondAddressAges(mac: Mac, ip1: Ip, ip2: Ip)
    requires mac != ZERO_MAC && ip1 != ip2
    ensures var a, b := Ipv4Addr(ip1), Ipv4Addr(ip2);
      var ts := [TimedCall(Call.Insert(a, mac), 0), TimedCall(Call.Insert(b, mac), 0),
                 TimedCall(Transmit(mac, ip1), 0), TimedCall(Transmit(mac, ip2), 1), TimedCall(Call.Sweep, 1)];
      var n := NetRun(1, Net(map[], NOTHING_CACHED), ts);
      a in n.db && b !in n.db
  {
    Ipv4Apart(ip1, ip2);
    hide Ipv4Addr;
    var a, b := Ipv4Addr(ip1), Ipv4Addr(ip2);
    var ts := [TimedCall(Call.Insert(a, mac), 0), TimedCall(Call.Insert(b, mac), 0),
               TimedCall(Transmit(mac, ip1), 0), TimedCall(Transmit(mac, ip2), 1), TimedCall(Call.Sweep, 1)];
    var n0, i := Net(map[], NOTHING_CACHED), Info(mac, 0, 1);
    assert ts[..1][..0] == [] && ts[..2][..1] == ts[..1] && ts[..3][..2] == ts[..2] && ts[..4][..3] == ts[..3];
    assert NetRun(1, n0, ts[..1]) == Net(map[a := i], NOTHING_CACHED);
    assert NetRun(1, n0, ts[..2]) == Net(map[a := i, b := i], NOTHING_CACHED);
    var c := Cached(Some(a), mac, ip1);
    assert NetRun(1, n0, ts[..3]) == Net(map[a := i, b := i], c);
    assert NetRun(1, n0, ts[..4]) == Net(map[a := i.(timer := 1), b := i], c);
  }

  /* ---------- The receive path ---------- */

  /** What the receive path sends to an IP address without asking the database: it compares
    * the copy, not the pointer. */
  function Shortcut(c: Cached, ip: Ip): Option<Mac> {
    if c.ip == ip then Some(c.mac) else None
  }

  /** An address that is answered for, other than the zero address, is in the database. */
  predicate Known(n: Net) {
    n.cache.ip != ZERO_IP ==> Ipv4Addr(n.cache.ip) in n.db
  }

  /** The call removes the address answered for, and no pointer is there to have the copies
    * cleared. */
  predicate Strands(age: nat, n: Net, t: TimedCall) {
    var a := Ipv4Addr(n.cache.ip);
    && n.cache.entry.None? && n.cache.ip != ZERO_IP
    && (t.call.Cleanup? || (t.call.Sweep? && a in n.db && SweepInfo(age, n.db[a], t.now).None?))
  }

  lemma KnownAfterIff(age: nat, n: Net, t: TimedCall)
    requires Live(n) && Known(n)
    ensures Known(NetStep(age, n, t)) <==> !Strands(age, n, t)
  {
    hide SweepInfo, Ipv4Addr;
  }

  predicate KnownThroughout(age: nat, n: Net, ts: seq<TimedCall>)
    decreases |ts|
  {
    Known(NetRun(age, n, ts)) && (ts != [] ==> KnownThroughout(age, n, ts[..|ts| - 1]))
  }

  predicate NeverStrands(age: nat, n: Net, ts: seq<TimedCall>)
    decreases |ts|
  {
    ts != [] ==>
      var k := |ts| - 1;
      NeverStrands(age, n, ts[..k]) && !Strands(age, NetRun(age, n, ts[..k]), ts[k])
  }

  /** The shortcut answers only for known addresses throughout exactly the runs in which no call
    * strands the copies. */
  lemma {:induction false} ShortcutKnownIff(age: nat, n: Net, ts: seq<TimedCall>)
    requires Live(n) && Known(n)
    ensures KnownThroughout(age, n, ts) <==> NeverStrands(age, n, ts)
    decreases |ts|
  {
    hide NetStep, Strands, Known, Live;
    if ts != [] {
      var k := |ts| - 1;
      ShortcutKnownIff(age, n, ts[..k]);
      StaysLive(age, n, ts[..k]);
      if KnownThroughout(age, n, ts[..k]) {
        KnownAfterIff(age, NetRun(age, n, ts[..k]), ts[k]);
      }
    }
  }

  /** In particular those in which no unknown source sends while an entry is cached. */
  lemma {:induction false} NeverForgetsNeverStrands(age: nat, n: Net, ts: seq<TimedCall>)
    requires Cleared(n) && NeverForgets(age, n, ts)
    ensures NeverStrands(age, n, ts)
    decreases |ts|
  {
    hide NetStep, NetRun, Forgets;
    if ts != [] {
      NeverForgetsNeverStrands(age, n, ts[..|ts| - 1]);
      ClearedThroughoutIff(age, n, ts[..|ts| - 1]);
    }
  }

  /** The shortcut gives the MAC address that the database has. */
  predicate Agrees(n: Net) {
    var a := Ipv4Addr(n.cache.ip);
    n.cache.ip != ZERO_IP ==> a in n.db && n.db[a].mac == n.cache.mac
  }

  /** The call strands the copies, gives the address answered for another MAC address, or makes
    * the transmit path cache an entry of another one: the search ignores the MAC address. */
  predicate Misleads(age: nat, n: Net, t: TimedCall) {
    match t.call
    case Insert(a, mac) => n.cache.ip != ZERO_IP && a == Ipv4Addr(n.cache.ip) && mac != n.cache.mac
    case Transmit(mac, ip) =>
      var a := Ipv4Addr(ip);
      mac != n.cache.mac && ip != ZERO_IP && a in n.db && n.db[a].mac != mac
    case _ => Strands(age, n, t)
  }

  lemma AgreesAfterIff(age: nat, n: Net, t: TimedCall)
    requires Live(n) && Agrees(n)
    ensures Agrees(NetStep(age, n, t)) <==> !Misleads(age, n, t)
  {
    hide Expired, Ipv4Addr, Wrap32;
  }

  predicate AgreesThroughout(age: nat, n: Net, ts: seq<TimedCall>)
    decreases |ts|
  {
    Agrees(NetRun(age, n, ts)) && (ts != [] ==> AgreesThroughout(age, n, ts[..|ts| - 1]))
  }

  predicate NeverMisleads(age: nat, n: Net, ts: seq<TimedCall>)
    decreases |ts|
  {
    ts != [] ==>
      var k := |ts| - 1;
      NeverMisleads(age, n, ts[..k]) && !Misleads(age, NetRun(age, n, ts[..k]), ts[k])
  }

  lemma {:induction false} ShortcutAgreesIff(age: nat, n: Net, ts: seq<TimedCall>)
    requires Live(n) && Agrees(n)
    ensures AgreesThroughout(age, n, ts) <==> NeverMisleads(age, n, ts)
    decreases |ts|
  {
    hide NetStep, Misleads, Agrees, Live;
    if ts != [] {
      var k := |ts| - 1;
      ShortcutAgreesIff(age, n, ts[..k]);
      StaysLive(age, n, ts[..k]);
      if AgreesThroughout(age, n, ts[..k]) {
        AgreesAfterIff(age, NetRun(age, n, ts[..k]), ts[k]);
      }
    }
  }

  /** One source is entered, and another one sends from its IP address: the database has the MAC
    * address of the first, the shortcut that of the second. */
  lemma OtherMac(m1: Mac, m2: Mac, ip: Ip)
    requires m1 != ZERO_MAC && m1 != m2 && ip != ZERO_IP
    ensures var a := Ipv4Addr(ip);
      var ts := [TimedCall(Call.Insert(a, m2), 0), TimedCall(Transmit(m1, ip), 0)];
      var n := NetRun(1, Net(map[], NOTHING_CACHED), ts);
      a in n.db && n.db[a].mac == m2 && Shortcut(n.cache, ip) == Some(m1)
  {
    hide Ipv4Addr;
    var a := Ipv4Addr(ip);
    var ts := [TimedCall(Call.Insert(a, m2), 0), TimedCall(Transmit(m1, ip), 0)];
    var n0 := Net(map[], NOTHING_CACHED);
    assert ts[..1][..0] == [];
    assert NetRun(1, n0, ts[..1]) == Net(map[a := Info(m2, 0, 1)], NOTHING_CACHED);
  }

  /** An address that is answered for after ageing has removed it: one source is entered and
    * cached, an unknown second source sends, and the first entry expires. */
  lemma StaleShortcut(m1: Mac, ip1: Ip, m2: Mac, ip2: Ip)
    requires m1 != ZERO_MAC && m1 != m2 && ip1 != ip2
    ensures var a := Ipv4Addr(ip1);
      var ts := [TimedCall(Call.Insert(a, m1), 0), TimedCall(Transmit(m1, ip1), 0),
                 TimedCall(Transmit(m2, ip2), 0), TimedCall(Call.Sweep, 1)];
      var n := NetRun(1, Net(map[], NOTHING_CACHED), ts);
      n.db == map[] && Shortcut(n.cache, ip1) == Some(m1)
  {
    Ipv4Apart(ip1, ip2);
    hide Ipv4Addr;
    var a := Ipv4Addr(ip1);
    var ts := [TimedCall(Call.Insert(a, m1), 0), TimedCall(Transmit(m1, ip1), 0),
               TimedCall(Transmit(m2, ip2), 0), TimedCall(Call.Sweep, 1)];
    var n0 := Net(map[], NOTHING_CACHED);
    assert ts[..0] == [] && ts[..1][..0] == [] && ts[..2][..1] == ts[..1] && ts[..3][..2] == ts[..2];
    var db := map[a := Info(m1, 0, 1)];
    assert NetRun(1, n0, ts[..1]) == Net(db, NOTHING_CACHED);
    assert NetRun(1, n0, ts[..2]) == Net(db, Cached(Some(a), m1, ip1));
    assert NetRun(1, n0, ts[..3]) == Net(db, Cached(None, m1, ip1));
    assert SweepMap(1, db, 1) == map[];
  }
}
