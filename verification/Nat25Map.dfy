/** What the NAT2.5 database of core/rtw_br_ext.c records: a finite map from network
  * addresses to MAC address, ageing timer and use count, and the life of one entry. */
module Nat25Map {

  import opened Wrappers

  const MAX_NETWORK_ADDR_LEN := 17
  const NAT25_HASH_SIZE := 16
  const ULONG: int := 0x1_0000_0000_0000_0000

  type AddrBytes = a: seq<bv8> | |a| == MAX_NETWORK_ADDR_LEN witness seq(17, _ => 0)
  type MacBytes = m: seq<bv8> | |m| == 6 witness seq(6, _ => 0)
  datatype NetAddr = NetAddr(bytes: AddrBytes)
  datatype Mac = Mac(bytes: MacBytes)
  type Jiffies = t: int | 0 <= t < ULONG

  datatype Info = Info(mac: Mac, timer: Jiffies, useCount: int)

  /* ---------- Arithmetic of the C types ---------- */

  /** The value an atomic_t of 32 bits holds for the number n. */
  function Wrap32(n: int): (w: int)
    ensures -0x8000_0000 <= w < 0x8000_0000
    ensures (w - n) % 0x1_0000_0000 == 0
    ensures -0x8000_0000 <= n < 0x8000_0000 ==> w == n
  {
    (n + 0x8000_0000) % 0x1_0000_0000 - 0x8000_0000
  }

  /** time_before_eq(timer, now - age): the signed difference of the two is not negative. */
  predicate Expired(age: nat, timer: Jiffies, now: Jiffies) {
    (now - age - timer) % ULONG < ULONG / 2
  }

  /** While fewer than age + ULONG/2 ticks have really passed since the timer was set, the
    * wrapping comparison says expired exactly when age ticks have passed; so an entry that
    * has expired stays expired. */
  lemma ExpiredMeansAged(age: nat, stamp: nat, passed: nat)
    requires age < ULONG / 2
    requires passed < age + ULONG / 2
    ensures Expired(age, stamp % ULONG, (stamp + passed) % ULONG) <==> passed >= age
  {
    var d := (stamp + passed) % ULONG - age - stamp % ULONG;
    var k := (stamp + passed) / ULONG - stamp / ULONG;
    assert d == passed - age - k * ULONG;
  }

  /** After that, for another half of the counter's range, the entry counts as fresh again. */
  lemma OldLooksFresh(age: nat, stamp: nat, passed: nat)
    requires age < ULONG / 2
    requires age + ULONG / 2 <= passed < age + ULONG
    ensures !Expired(age, stamp % ULONG, (stamp + passed) % ULONG)
  {
    var d := (stamp + passed) % ULONG - age - stamp % ULONG;
    var k := (stamp + passed) / ULONG - stamp / ULONG;
    assert d == passed - age - k * ULONG;
  }

  /* ---------- The map and its operations ---------- */

  type Db = map<NetAddr, Info>

  function InsertMap(m: Db, a: NetAddr, mac: Mac, now: Jiffies): Db {
    m[a := Info(mac, now, if a in m then m[a].useCount else 1)]
  }

  /** A lookup counts a use of an entry that has not expired. */
  function LookupMap(age: nat, m: Db, a: NetAddr, now: Jiffies): Db {
    if a in m && !Expired(age, m[a].timer, now)
    then m[a := m[a].(useCount := Wrap32(m[a].useCount + 1))] else m
  }

  /** What one sweep leaves of an entry. */
  function SweepInfo(age: nat, i: Info, now: Jiffies): Option<Info> {
    if !Expired(age, i.timer, now) then Some(i)
    else if Wrap32(i.useCount - 1) == 0 then None
    else Some(i.(useCount := Wrap32(i.useCount - 1)))
  }

  function SweepMap(age: nat, m: Db, now: Jiffies): Db {
    map a | a in m && SweepInfo(age, m[a], now).Some? :: SweepInfo(age, m[a], now).value
  }

  /** The fast path of the transmit code restamps the cached entry. */
  function RefreshMap(m: Db, a: NetAddr, now: Jiffies): Db {
    if a in m then m[a := m[a].(timer := now)] else m
  }

  /* ---------- Runs ---------- */

  datatype Event =
    | Insert(addr: NetAddr, mac: Mac)
    | Lookup(addr: NetAddr)
    | Sweep
    | Cleanup
    | Refresh(addr: NetAddr)

  datatype Timed = Timed(ev: Event, now: Jiffies)

  function Step(age: nat, m: Db, t: Timed): Db {
    match t.ev
    case Insert(a, mac) => InsertMap(m, a, mac, t.now)
    case Lookup(a) => LookupMap(age, m, a, t.now)
    case Sweep => SweepMap(age, m, t.now)
    case Cleanup => map[]
    case Refresh(a) => RefreshMap(m, a, t.now)
  }

  function Run(age: nat, m: Db, ts: seq<Timed>): Db
    decreases |ts|
  {
    if ts == [] then m else Step(age, Run(age, m, ts[..|ts| - 1]), ts[|ts| - 1])
  }

  /** Of entry a after a run from the empty database: 1 for its creation, plus its unexpired
    * lookups, minus the sweeps that found it expired, since it was created. */
  function Tally(age: nat, a: NetAddr, ts: seq<Timed>): int
    decreases |ts|
  {
    if ts == [] then 0 else
      var n := |ts| - 1;
      TallyAfter(age, a, Run(age, map[], ts[..n]), ts[n], Tally(age, a, ts[..n]))
  }

  function TallyAfter(age: nat, a: NetAddr, m: Db, t: Timed, before: int): int {
    match t.ev
    case Insert(b, _) => if b == a && a !in m then 1 else before
    case Lookup(b) => if b == a && a in m && !Expired(age, m[a].timer, t.now) then before + 1 else before
    case Sweep => if a in m && Expired(age, m[a].timer, t.now) then before - 1 else before
    case Cleanup => 0
    case Refresh(_) => before
  }

  lemma WrapAdd(x: int, d: int)
    ensures Wrap32(Wrap32(x) + d) == Wrap32(x + d)
  {
  }

  /** One event changes the use count of a surviving entry as it changes the tally. */
  lemma TallyStep(age: nat, a: NetAddr, m: Db, t: Timed, before: int)
    requires a in m ==> m[a].useCount == Wrap32(before)
    ensures a in Step(age, m, t) ==> Step(age, m, t)[a].useCount == Wrap32(TallyAfter(age, a, m, t, before))
  {
    hide Wrap32, Expired;
    WrapAdd(before, 1);
    WrapAdd(before, -1);
    WrapOne();
  }

  lemma WrapOne()
    ensures Wrap32(1) == 1
  {
  }

  /** The use count of every entry in every run is its tally, kept in 32 bits. */
  lemma {:induction false} UseCountIsTally(age: nat, a: NetAddr, ts: seq<Timed>)
    ensures var m := Run(age, map[], ts); a in m ==> m[a].useCount == Wrap32(Tally(age, a, ts))
    decreases |ts|
  {
    hide Step, TallyAfter, Wrap32;
    if ts != [] {
      var n := |ts| - 1;
      UseCountIsTally(age, a, ts[..n]);
      TallyStep(age, a, Run(age, map[], ts[..n]), ts[n], Tally(age, a, ts[..n]));
    }
  }

  /** The tally of no prefix passes what an atomic_t can count. */
  predicate Countable(age: nat, a: NetAddr, ts: seq<Timed>) {
    forall n :: 0 <= n <= |ts| ==> Tally(age, a, ts[..n]) <= 0x7fff_ffff
  }

  /** In a run whose tallies fit, a present entry has use count >= 1, equal to its tally, and a
    * present entry disappears in a sweep exactly when the sweep takes the tally to 0. */
  lemma {:induction false} UseCountPositive(age: nat, a: NetAddr, ts: seq<Timed>)
    requires Countable(age, a, ts)
    ensures var m := Run(age, map[], ts);
      a in m ==> m[a].useCount == Tally(age, a, ts) && 1 <= Tally(age, a, ts)
    decreases |ts|
  {
    if ts != [] {
      var n := |ts| - 1;
      forall k | 0 <= k <= n ensures Tally(age, a, ts[..n][..k]) <= 0x7fff_ffff {
        assert ts[..n][..k] == ts[..k];
      }
      UseCountPositive(age, a, ts[..n]);
      assert ts[..|ts|] == ts;
    }
  }

  /** At every point of the run the entry is absent or has a positive use count. */
  predicate PositiveThroughout(age: nat, a: NetAddr, ts: seq<Timed>) {
    forall n :: 0 <= n <= |ts| ==> PositiveAt(Run(age, map[], ts[..n]), a)
  }

  predicate PositiveAt(m: Db, a: NetAddr) {
    a in m ==> m[a].useCount >= 1
  }

  lemma Prefixes(age: nat, a: NetAddr, ts: seq<Timed>, k: nat)
    requires k <= |ts|
    ensures Countable(age, a, ts) ==> Countable(age, a, ts[..k])
    ensures PositiveThroughout(age, a, ts) ==> PositiveThroughout(age, a, ts[..k])
  {
    forall n | 0 <= n <= k ensures ts[..k][..n] == ts[..n] {
    }
  }

  /** The tallies fit an atomic_t in exactly the runs in which the use count stays positive. */
  lemma CountableIff(age: nat, a: NetAddr, ts: seq<Timed>)
    ensures Countable(age, a, ts) <==> PositiveThroughout(age, a, ts)
  {
    hide Run, Tally, TallyAfter, Step, PositiveAt;
    if Countable(age, a, ts) {
      forall n | 0 <= n <= |ts| ensures PositiveAt(Run(age, map[], ts[..n]), a) {
        Prefixes(age, a, ts, n);
        PositiveNow(age, a, ts[..n]);
      }
    } else if PositiveThroughout(age, a, ts) {
      TooMany(age, a, ts);
    }
  }

  lemma PositiveNow(age: nat, a: NetAddr, ts: seq<Timed>)
    requires Countable(age, a, ts)
    ensures PositiveAt(Run(age, map[], ts), a)
  {
    UseCountPositive(age, a, ts);
  }

  /** The first lookup that takes the tally out of range makes the count negative. */
  lemma {:induction false} TooMany(age: nat, a: NetAddr, ts: seq<Timed>)
    requires PositiveThroughout(age, a, ts)
    ensures Countable(age, a, ts)
    decreases |ts|
  {
    hide Run, Tally, TallyAfter, Step, PositiveAt;
    if ts == [] {
      TallyOfNone(age, a);
    } else {
      var k := |ts| - 1;
      Prefixes(age, a, ts, k);
      TooMany(age, a, ts[..k]);
      assert ts[..|ts|] == ts;
      LastInRange(age, a, ts);
      forall n | 0 <= n <= |ts| ensures Tally(age, a, ts[..n]) <= 0x7fff_ffff {
        if n <= k { assert ts[..k][..n] == ts[..n]; }
      }
    }
  }

  lemma TallyOfNone(age: nat, a: NetAddr)
    ensures Tally(age, a, []) == 0
  {
  }

  lemma LastInRange(age: nat, a: NetAddr, ts: seq<Timed>)
    requires ts != [] && Countable(age, a, ts[..|ts| - 1]) && PositiveAt(Run(age, map[], ts), a)
    ensures Tally(age, a, ts) <= 0x7fff_ffff
  {
    hide Countable, Expired;
    var k := |ts| - 1;
    UseCountPositive(age, a, ts[..k]);
    CountableNow(age, a, ts[..k]);
  }

  lemma CountableNow(age: nat, a: NetAddr, ts: seq<Timed>)
    requires Countable(age, a, ts)
    ensures Tally(age, a, ts) <= 0x7fff_ffff
  {
    assert ts[..|ts|] == ts;
  }

  lemma UnlinkedExactlyAtZero(age: nat, a: NetAddr, ts: seq<Timed>, now: Jiffies)
    requires Countable(age, a, ts) && a in Run(age, map[], ts)
    ensures var all := ts + [Timed(Sweep, now)];
      a !in Run(age, map[], all) <==> Tally(age, a, all) == 0
  {
    UseCountPositive(age, a, ts);
    var all := ts + [Timed(Sweep, now)];
    assert all[..|all| - 1] == ts;
  }

  /** The bound on the tally is needed: the counted lookup of an entry at the largest
    * atomic_t, and only that, makes its use count negative. */
  lemma LookupKeepsPositiveIff(age: nat, m: Db, a: NetAddr, now: Jiffies)
    requires a in m && 1 <= m[a].useCount <= 0x7fff_ffff
    ensures LookupMap(age, m, a, now)[a].useCount >= 1 <==>
            (Expired(age, m[a].timer, now) || m[a].useCount < 0x7fff_ffff)
  {
  }

  /** One insertion and n lookups at the same time. */
  function Lookups(a: NetAddr, mac: Mac, n: nat): seq<Timed> {
    if n == 0 then [Timed(Insert(a, mac), 0)] else Lookups(a, mac, n - 1) + [Timed(Lookup(a), 0)]
  }

  lemma {:induction false} EachLookupCounts(a: NetAddr, mac: Mac, n: nat)
    ensures Run(1, map[], Lookups(a, mac, n)) == map[a := Info(mac, 0, Wrap32(1 + n))]
  {
    hide Wrap32;
    var ts := Lookups(a, mac, n);
    if n == 0 {
      WrapOne();
      assert ts[..0] == [];
    } else {
      EachLookupCounts(a, mac, n - 1);
      WrapAdd(n, 1);
      assert ts[..|ts| - 1] == Lookups(a, mac, n - 1);
    }
  }

  /** From the empty database on, one insertion and 2^31 - 1 lookups make the count negative. */
  lemma LookupCanWrap(a: NetAddr, mac: Mac)
    ensures var m := Run(1, map[], Lookups(a, mac, 0x7fff_ffff)); a in m && m[a].useCount == -0x8000_0000
  {
    hide Run, Lookups;
    EachLookupCounts(a, mac, 0x7fff_ffff);
  }

  /* ---------- Ageing timer and MAC address ---------- */

  /** When the entry was last inserted or restamped. */
  function Stamp(a: NetAddr, ts: seq<Timed>): Jiffies
    decreases |ts|
  {
    if ts == [] then 0
    else
      var t := ts[|ts| - 1];
      if (t.ev.Insert? || t.ev.Refresh?) && t.ev.addr == a then t.now else Stamp(a, ts[..|ts| - 1])
  }

  /** The MAC address it was last inserted with. */
  function LastMac(a: NetAddr, ts: seq<Timed>): Option<Mac>
    decreases |ts|
  {
    if ts == [] then None
    else
      var t := ts[|ts| - 1];
      if t.ev.Insert? && t.ev.addr == a then Some(t.ev.mac) else LastMac(a, ts[..|ts| - 1])
  }

  /** In every run a present entry has the timer of its last insertion or restamping and the MAC
    * address of its last insertion. */
  lemma {:induction false} TimerIsStamp(age: nat, a: NetAddr, ts: seq<Timed>)
    ensures var m := Run(age, map[], ts);
      a in m ==> m[a].timer == Stamp(a, ts) && LastMac(a, ts) == Some(m[a].mac)
    decreases |ts|
  {
    hide Expired, Wrap32;
    if ts != [] {
      TimerIsStamp(age, a, ts[..|ts| - 1]);
    }
  }

  /** The MAC address a lookup finds. */
  function Answer(age: nat, m: Db, a: NetAddr, now: Jiffies): Option<Mac> {
    if a in m && !Expired(age, m[a].timer, now) then Some(m[a].mac) else None
  }

  /** After any run, an entry that was inserted or restamped less than the ageing time ago answers
    * with the MAC address of its last insertion and passes a sweep unchanged; an older one does
    * neither. */
  lemma AnswersWhileFresh(age: nat, a: NetAddr, ts: seq<Timed>, passed: nat)
    requires age < ULONG / 2 && passed < age + ULONG / 2 && a in Run(age, map[], ts)
    ensures var m, now := Run(age, map[], ts), (Stamp(a, ts) + passed) % ULONG;
      && Answer(age, m, a, now) == (if passed < age then LastMac(a, ts) else None)
      && (passed < age <==> a in SweepMap(age, m, now) && SweepMap(age, m, now)[a] == m[a])
  {
    hide Run, Expired, Stamp, LastMac;
    TimerIsStamp(age, a, ts);
    ExpiredMeansAged(age, Stamp(a, ts), passed);
    SmallStamp(Stamp(a, ts));
    WrapLess(Run(age, map[], ts)[a].useCount);
  }

  lemma SmallStamp(t: Jiffies)
    ensures t % ULONG == t
  {
  }

  lemma WrapLess(n: int)
    ensures Wrap32(n - 1) != n
  {
  }

  /* ---------- The end of an entry ---------- */

  /** Nothing in the run creates or restamps entry a. */
  predicate Untouched(a: NetAddr, ts: seq<Timed>) {
    forall i :: 0 <= i < |ts| ==>
      !ts[i].ev.Cleanup? &&
      (ts[i].ev.Insert? || ts[i].ev.Refresh? ==> ts[i].ev.addr != a)
  }

  function Sweeps(ts: seq<Timed>): nat
    decreases |ts|
  {
    if ts == [] then 0 else Sweeps(ts[..|ts| - 1]) + if ts[|ts| - 1].ev.Sweep? then 1 else 0
  }

  /** How many decrements take a 32-bit count to 0: a count that is not positive goes round. */
  function Decrements(count: int): int {
    if count >= 1 then count else count + 0x1_0000_0000
  }

  lemma OneDecrement(count: int, n: nat)
    requires -0x8000_0000 <= count < 0x8000_0000 && n < Decrements(count)
    ensures Wrap32(Wrap32(count - n) - 1) == Wrap32(count - n - 1)
    ensures Wrap32(count - n - 1) == 0 <==> n + 1 == Decrements(count)
  {
    WrapAdd(count - n, -1);
  }

  /** An entry that has expired and is not restamped, with use count k, survives exactly the
    * first k - 1 sweeps, whatever lookups and other insertions come between; one whose count has
    * become negative, all that it takes to go round. */
  lemma {:induction false} GoneAfterKSweeps(age: nat, m: Db, a: NetAddr, ts: seq<Timed>)
    requires a in m && -0x8000_0000 <= m[a].useCount < 0x8000_0000 && Untouched(a, ts)
    requires forall i :: 0 <= i < |ts| ==> Expired(age, m[a].timer, ts[i].now)
    ensures var r := Run(age, m, ts);
      && (a in r <==> Sweeps(ts) < Decrements(m[a].useCount))
      && (a in r ==> r[a] == m[a].(useCount := Wrap32(m[a].useCount - Sweeps(ts))))
    decreases |ts|
  {
    hide Wrap32, Expired;
    if ts == [] {
      SmallWrap(m[a].useCount);
    } else {
      var n := |ts| - 1;
      assert forall i :: 0 <= i < n ==> ts[..n][i] == ts[i];
      GoneAfterKSweeps(age, m, a, ts[..n]);
      if Sweeps(ts[..n]) < Decrements(m[a].useCount) {
        OneDecrement(m[a].useCount, Sweeps(ts[..n]));
      }
    }
  }

  lemma SmallWrap(n: int)
    requires -0x8000_0000 <= n < 0x8000_0000
    ensures Wrap32(n) == n
  {
  }
}
