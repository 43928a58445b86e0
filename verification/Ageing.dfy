/** Ageing of associated stations in AP mode with active keep-alive checks compiled in
  * (core/rtw_ap.c): the timer loop, the probing of expired stations and their removal. */
module Ageing {

  import opened Bits
  import opened Sequences

  const MAX_TRIES := 3

  /** What ageing keeps of a station. */
  datatype Age = Age(expire: nat, tries: nat, sleeping: bool, aliveChk: bool, asoc: bool)

  /** What happened to a station since the last tick, and how it takes a probe at this one:
    * whether data or control frames arrived, whether a pending alive check was ended by the
    * station (PS-Poll, ADDBA response), whether it now sleeps, and whether it answers a probe. */
  datatype Seen = Seen(moved: bool, ended: bool, sleeps: bool, answers: bool)

  /* ---------- One tick, for one station ---------- */

  /** Between two ticks: a pending alive check may be ended, and the power state may change. */
  function Meanwhile(a: Age, e: Seen, full: nat): Age {
    var b := if e.ended && a.aliveChk then a.(expire := full, aliveChk := false) else a;
    b.(sleeping := e.sleeps)
  }

  function Count(a: Age, moved: bool, full: nat): Age {
    if moved || a.expire == 0 then a.(expire := full, tries := 0) else a.(expire := a.expire - 1)
  }

  /** Whether the station is to be checked; a sleeping one is first given a whole period in
    * which the beacon calls it. */
  function Expired(a: Age, full: nat, active: bool): (Age, bool) {
    if a.expire > 0 then (a, false)
    else if a.sleeping && !a.aliveChk then (a.(expire := full, aliveChk := true), active)
    else (a, true)
  }

  /** The check, and whether the station goes. */
  function Probed(a: Age, full: nat, active: bool, answers: bool): (Age, bool) {
    if !a.asoc then (a, false)
    else if active && answers then (a.(expire := full, tries := 0), false)
    else if active && (a.tries + 1) % 0x100 <= MAX_TRIES then (a.(expire := 1, tries := (a.tries + 1) % 0x100), false)
    else (a.(tries := 0), true)
  }

  function Tick(a: Age, full: nat, active: bool, moved: bool, answers: bool): (Age, bool) {
    var (b, check) := Expired(Count(a, moved, full), full, active);
    if check then Probed(b, full, active, answers) else (b, false)
  }

  /* ---------- Runs ---------- */

  /** The station after these ticks, and whether it was removed by one of them. */
  function After(a: Age, full: nat, active: bool, es: seq<Seen>): (Age, bool) {
    if es == [] then (a, false) else
      var e := es[|es| - 1];
      var (b, gone) := After(a, full, active, es[..|es| - 1]);
      if gone then (b, true) else Tick(Meanwhile(b, e, full), full, active, e.moved, e.answers)
  }

  /** How many ticks at the end of the run saw no frame of the station. */
  function Quiet(es: seq<Seen>): (n: nat)
    ensures n <= |es|
  {
    if es == [] || es[|es| - 1].moved then 0 else 1 + Quiet(es[..|es| - 1])
  }

  /** A station that started with a full timer is removed only after that many silent ticks in a
    * row, whatever its power state and answers were. */
  lemma {:induction false} RemovedOnlyIfQuiet(a: Age, full: nat, active: bool, es: seq<Seen>)
    requires a.expire == full
    ensures var (b, gone) := After(a, full, active, es);
      if gone then exists n :: 0 <= n <= |es| && full <= Quiet(es[..n]) else full <= b.expire + Quiet(es)
  {
    if es != [] {
      var n := |es| - 1;
      var (b, gone) := After(a, full, active, es[..n]);
      RemovedOnlyIfQuiet(a, full, active, es[..n]);
      if gone {
        var k :| 0 <= k <= n && full <= Quiet(es[..n][..k]);
        assert es[..n][..k] == es[..k];
      } else {
        assert es[..|es|] == es;
      }
    }
  }

  /** A station that is not associated is never removed by ageing. */
  lemma {:induction false} OnlyAssociatedRemoved(a: Age, full: nat, active: bool, es: seq<Seen>)
    requires !a.asoc
    ensures var (b, gone) := After(a, full, active, es); !gone && !b.asoc
  {
    if es != [] {
      OnlyAssociatedRemoved(a, full, active, es[..|es| - 1]);
    }
  }

  /** While probes are answered, or frames arrive, an access point that probes removes nobody. */
  lemma {:induction false} AnsweringStays(a: Age, full: nat, es: seq<Seen>)
    requires forall e :: e in es ==> e.answers
    ensures !After(a, full, true, es).1
  {
    if es != [] {
      AnsweringStays(a, full, es[..|es| - 1]);
    }
  }

  /** The timer of a cycle of full + 1 ticks. */
  function Left(full: nat, n: nat): nat {
    full - n % (full + 1)
  }

  lemma LeftStep(full: nat, n: nat)
    ensures Left(full, n + 1) == if Left(full, n) == 0 then full else Left(full, n) - 1
  {
    ModStep(n, full + 1);
  }

  lemma LeftStart(full: nat)
    ensures Left(full, 0) == full
  {
  }

  lemma UnassociatedTick(a: Age, full: nat, active: bool, e: Seen)
    requires !a.asoc && !a.sleeping && a.tries == 0 && Silent(e, false)
    ensures Tick(Meanwhile(a, e, full), full, active, e.moved, e.answers)
            == (a.(expire := if a.expire == 0 then full else a.expire - 1), false)
  {
    assert Meanwhile(a, e, full) == a;
  }

  /** Awake and silent from a full timer on, a station on the list that is not associated only
    * sees its timer run out and start again. */
  lemma {:induction false} UnassociatedCycles(a: Age, full: nat, active: bool, es: seq<Seen>)
    requires !a.asoc && !a.sleeping && a.expire == full && a.tries == 0
    requires forall e :: e in es ==> Silent(e, false)
    ensures After(a, full, active, es) == (a.(expire := Left(full, |es|)), false)
  {
    hide Tick, Meanwhile, Left;
    if es == [] {
      LeftStart(full);
    } else {
      var n := |es| - 1;
      UnassociatedCycles(a, full, active, es[..n]);
      assert es[n] in es;
      UnassociatedTick(a.(expire := Left(full, n)), full, active, es[n]);
      LeftStep(full, n);
    }
  }

  /** No frame comes and no pending check is ended; whether probes are answered is open. */
  predicate Silent(e: Seen, sleeps: bool) {
    !e.moved && !e.ended && e.sleeps == sleeps
  }

  /** How long a station under probing has gone without a sign of life: a frame, or the answer to
    * a probe, which is sent from tick full of the silence on, starts the count again. */
  function Since(full: nat, es: seq<Seen>): (r: nat)
    ensures r <= |es|
  {
    if es == [] then 0
    else
      var r, e := Since(full, es[..|es| - 1]), es[|es| - 1];
      if r >= full + MAX_TRIES then r
      else if e.moved || (r + 1 >= full && e.answers) then 0
      else r + 1
  }

  /** The timer and the tries after r such ticks. */
  predicate Probing(a: Age, full: nat, r: nat) {
    && a.asoc && r < full + MAX_TRIES
    && a.expire == (if r < full then full - r else 1) && a.tries == if r < full then 0 else r - full + 1
  }

  lemma ProbingStep(b: Age, full: nat, r: nat, e: Seen)
    requires full >= 1 && Probing(b, full, r) && !e.ended
    ensures var (c, gone) := Tick(Meanwhile(b, e, full), full, true, e.moved, e.answers);
      if e.moved || (r + 1 >= full && e.answers) then !gone && Probing(c, full, 0)
      else if r + 1 < full + MAX_TRIES then !gone && Probing(c, full, r + 1)
      else gone
  {
    assert Meanwhile(b, e, full) == b.(sleeping := e.sleeps);
  }

  /** Under probing a station that ends no pending check, whatever its traffic, power state and
    * answers, is removed by exactly the tick at which it has gone full + 3 ticks without a sign of
    * life. */
  lemma {:induction false} ProbesDecide(a: Age, full: nat, es: seq<Seen>)
    requires full >= 1 && Probing(a, full, 0)
    requires forall e :: e in es ==> !e.ended
    ensures var (b, gone) := After(a, full, true, es);
      && (gone <==> Since(full, es) >= full + MAX_TRIES)
      && (!gone ==> Probing(b, full, Since(full, es)))
  {
    hide Tick, Meanwhile, Probing;
    if es != [] {
      var n := |es| - 1;
      ProbesDecide(a, full, es[..n]);
      assert es[n] in es;
      var (b, gone) := After(a, full, true, es[..n]);
      if !gone {
        ProbingStep(b, full, Since(full, es[..n]), es[n]);
      }
    }
  }

  /** In the first full + 3 ticks the count is the number of ticks exactly when no probe was
    * answered, and small otherwise. */
  lemma {:induction false} SinceStart(full: nat, es: seq<Seen>)
    requires full >= 1 && |es| <= full + MAX_TRIES && forall e :: e in es ==> !e.moved
    ensures (forall i :: full - 1 <= i < |es| ==> !es[i].answers) ==> Since(full, es) == |es|
    ensures !(forall i :: full - 1 <= i < |es| ==> !es[i].answers) ==> Since(full, es) + full <= |es|
  {
    if es != [] {
      var n := |es| - 1;
      assert es[n] in es;
      SinceStart(full, es[..n]);
      assert forall i :: 0 <= i < n ==> es[..n][i] == es[i];
    }
  }

  /** A silent station is removed on tick full + 3 exactly when every probe sent by then failed. */
  lemma RemovedIffEveryProbeFails(a: Age, full: nat, es: seq<Seen>)
    requires full >= 1 && a.asoc && a.expire == full && a.tries == 0 && |es| == full + MAX_TRIES
    requires forall e :: e in es ==> Silent(e, a.sleeping)
    ensures After(a, full, true, es).1 <==> forall i :: full - 1 <= i < full + MAX_TRIES ==> !es[i].answers
    ensures !After(a, full, true, es[..|es| - 1]).1
  {
    ProbesDecide(a, full, es);
    SinceStart(full, es);
    ProbesDecide(a, full, es[..|es| - 1]);
  }

  /** How many silent ticks a station survives, less one: a sleeping one is given a second period
    * when the access point does not probe, and every one three more tries when it does. */
  function Lifetime(full: nat, active: bool, sleeps: bool): nat {
    if active then full + MAX_TRIES else if sleeps then 2 * full else full
  }

  /** Where such a station stands after n silent ticks. */
  function Standing(a: Age, full: nat, active: bool, n: nat): Age
    requires n < Lifetime(full, active, a.sleeping)
  {
    if n < full then a.(expire := full - n)
    else if active then a.(expire := 1, tries := n - full + 1, aliveChk := a.sleeping)
    else a.(expire := 2 * full - n, aliveChk := true)
  }

  lemma StandingStep(a: Age, full: nat, active: bool, n: nat, e: Seen)
    requires full >= 1 && a.expire == full && a.tries == 0 && a.asoc && !a.aliveChk
    requires n < Lifetime(full, active, a.sleeping) && Silent(e, a.sleeping) && (active ==> !e.answers)
    ensures var (b, gone) := Tick(Meanwhile(Standing(a, full, active, n), e, full), full, active, e.moved, e.answers);
      if n + 1 < Lifetime(full, active, a.sleeping)
      then !gone && b == Standing(a, full, active, n + 1)
      else gone
  {
    var b := Standing(a, full, active, n);
    assert Meanwhile(b, e, full) == b;
    assert b.expire > 0 && Count(b, false, full) == b.(expire := b.expire - 1);
  }

  /** A station that falls silent with a full timer is removed by exactly the tick its lifetime
    * ends with: tick E + 3 when every probe fails, tick E (asleep: 2E) when none is sent. */
  lemma {:induction false} SilentRemovedExactly(a: Age, full: nat, active: bool, es: seq<Seen>)
    requires full >= 1 && a.expire == full && a.tries == 0 && a.asoc && !a.aliveChk
    requires forall e :: e in es ==> Silent(e, a.sleeping) && (active ==> !e.answers)
    ensures After(a, full, active, es).1 <==> |es| >= Lifetime(full, active, a.sleeping)
    ensures |es| < Lifetime(full, active, a.sleeping) ==> After(a, full, active, es).0 == Standing(a, full, active, |es|)
  {
    hide Tick, Meanwhile;
    if es != [] {
      var n := |es| - 1;
      SilentRemovedExactly(a, full, active, es[..n]);
      assert es[n] in es;
      if n < Lifetime(full, active, a.sleeping) {
        StandingStep(a, full, active, n, es[n]);
      }
    }
  }

  /** A run cut in two. */
  lemma {:induction false} AfterInParts(a: Age, full: nat, active: bool, es: seq<Seen>, fs: seq<Seen>)
    requires !After(a, full, active, es).1
    ensures After(a, full, active, es + fs) == After(After(a, full, active, es).0, full, active, fs)
  {
    if fs == [] {
      assert es + fs == es;
    } else {
      var n := |fs| - 1;
      assert (es + fs)[..|es + fs| - 1] == es + fs[..n];
      AfterInParts(a, full, active, es, fs[..n]);
    }
  }

  /** Runs that differ in their start and first event only, and agree after it. */
  lemma {:induction false} AfterSameFirst(a: Age, b: Age, full: nat, active: bool, d: Seen, e: Seen, fs: seq<Seen>)
    requires Meanwhile(a, d, full) == Meanwhile(b, e, full) && d.moved == e.moved && d.answers == e.answers
    ensures After(a, full, active, [d] + fs) == After(b, full, active, [e] + fs)
  {
    hide Tick, Meanwhile;
    if fs == [] {
      assert [d] + fs == [d] && [e] + fs == [e] && [d][..0] == [] && [e][..0] == [];
    } else {
      var n := |fs| - 1;
      assert ([d] + fs)[..|fs|] == [d] + fs[..n] && ([e] + fs)[..|fs|] == [e] + fs[..n];
      AfterSameFirst(a, b, full, active, d, e, fs[..n]);
    }
  }

  /** Asleep and silent without probing, a station that ends the alive check which its expired
    * timer started is given its whole lifetime once more. */
  lemma EndedStartsAgain(a: Age, full: nat, es: seq<Seen>, e: Seen, fs: seq<Seen>)
    requires full >= 1 && a.expire == full && a.tries == 0 && a.asoc && a.sleeping && !a.aliveChk
    requires full <= |es| < 2 * full && forall d :: d in es + fs ==> Silent(d, true)
    requires e.ended && e.sleeps && !e.moved
    ensures After(a, full, false, es + ([e] + fs)).1 <==> |fs| + 1 >= 2 * full
  {
    forall d | d in es ensures Silent(d, true) { assert d in es + fs; }
    SilentRemovedExactly(a, full, false, es);
    AfterInParts(a, full, false, es, [e] + fs);
    var d := e.(ended := false);
    var b := After(a, full, false, es).0;
    assert Meanwhile(a, d, full) == a && Meanwhile(b, e, full) == a;
    AfterSameFirst(b, a, full, false, e, d, fs);
    forall f | f in [d] + fs ensures Silent(f, true) { assert f == d || f in es + fs; }
    SilentRemovedExactly(a, full, false, [d] + fs);
  }

  /* ---------- The station list ---------- */

  class Station {
    var expire: nat
    var tries: nat
    var sleeping: bool
    var aliveChk: bool
    var asoc: bool
    var data: nat
    var ctrl: nat
    var lastData: nat
    var lastCtrl: nat

    ghost function View(): Age
      reads this
    {
      Age(expire, tries, sleeping, aliveChk, asoc)
    }

    ghost predicate Moved()
      reads this
    {
      lastData + lastCtrl != data + ctrl
    }

    /** chk_sta_is_alive */
    method ChkAlive() returns (alive: bool)
      modifies this`lastData, this`lastCtrl
      ensures alive == old(Moved()) && !Moved() && data == old(data) && ctrl == old(ctrl)
    {
      alive := lastData + lastCtrl != data + ctrl;
      lastData, lastCtrl := data, ctrl;
    }

    /** The body of the timer loop: whether the station goes to the check list. */
    method Age1(full: nat, active: bool) returns (check: bool)
      modifies this
      ensures (View(), check) == Expired(Count(old(View()), old(Moved()), full), full, active)
      ensures !Moved()
    {
      check := false;
      var alive := ChkAlive();
      if alive || expire == 0 {
        expire, tries := full, 0;
      } else {
        expire := expire - 1;
      }
      if expire == 0 {
        if sleeping && !aliveChk {
          expire, aliveChk := full, true;
          if !active { return; }
        }
        check := true;
      }
    }

    /** The body of the check loop: whether the station is to be deleted. */
    method Check(full: nat, active: bool, answers: bool) returns (gone: bool)
      modifies this`expire, this`tries
      ensures (View(), gone) == Probed(old(View()), full, active, answers)
    {
      gone := false;
      if !asoc { return; }
      if active {
        tries := (tries + 1) % 0x100;
        if answers {
          expire, tries := full, 0;
          return;
        } else if tries <= MAX_TRIES {
          expire := 1;
          return;
        }
      }
      tries := 0;
      gone := true;
    }
  }

  /** The list without the members of g, in order. */
  function Without<T(==)>(s: seq<T>, g: set<T>): seq<T> {
    if s == [] then [] else
      var r := Without(s[..|s| - 1], g);
      if s[|s| - 1] in g then r else r + [s[|s| - 1]]
  }

  lemma {:induction false} WithoutMembers<T>(s: seq<T>, g: set<T>)
    ensures forall x :: x in Without(s, g) <==> x in s && x !in g
    ensures Distinct(s) ==> Distinct(Without(s, g))
  {
    if s != [] {
      WithoutMembers(s[..|s| - 1], g);
      assert s == s[..|s| - 1] + [s[|s| - 1]];
    }
  }

  lemma {:induction false} WithoutNone<T>(s: seq<T>, g: set<T>)
    requires forall x :: x in s ==> x !in g
    ensures Without(s, g) == s
  {
    if s != [] {
      WithoutNone(s[..|s| - 1], g);
    }
  }

  /** Cutting out position i is leaving out its member. */
  lemma {:induction false} CutIsWithout<T>(s: seq<T>, i: nat)
    requires Distinct(s) && i < |s|
    ensures s[..i] + s[i + 1..] == Without(s, {s[i]})
  {
    var n := |s| - 1;
    if i == n {
      WithoutNone(s[..n], {s[i]});
    } else {
      CutIsWithout(s[..n], i);
      assert s[..i] + s[i + 1..] == (s[..n][..i] + s[..n][i + 1..]) + [s[n]];
    }
  }

  lemma {:induction false} WithoutTwice<T>(s: seq<T>, g: set<T>, h: set<T>)
    ensures Without(Without(s, g), h) == Without(s, g + h)
  {
    if s != [] {
      WithoutTwice(s[..|s| - 1], g, h);
      var r := Without(s[..|s| - 1], g);
      assert (r + [s[|s| - 1]])[..|r|] == r;
    }
  }

  class AccessPoint {
    var list: seq<Station>      // asoc_list
    var cnt: nat                // asoc_list_cnt
    const full: nat             // expire_to of a station that was just heard
    const active: bool          // active_keep_alive_check

    ghost predicate Valid()
      reads this
    {
      cnt == |list| && Distinct(list)
    }

    constructor (expireTo: nat, probe: bool)
      ensures Valid() && list == [] && full == expireTo && active == probe
    {
      list, cnt, full, active := [], 0, expireTo, probe;
    }

    /** A station that completed its association joins the list, with a full timer, once. */
    method Admit(s: Station)
      requires Valid()
      modifies this`list, this`cnt, s`expire
      ensures Valid() && list == if s in old(list) then old(list) else old(list) + [s]
      ensures s.expire == if s in old(list) then old(s.expire) else full
    {
      if s !in list {
        s.expire := full;
        list, cnt := list + [s], cnt + 1;
      }
    }

    /** list_delete and the counter, under the list lock. */
    method Unlink(s: Station)
      requires Valid() && s in list
      modifies this`list, this`cnt
      ensures Valid() && list == Without(old(list), {s})
    {
      var i := 0;
      while list[i] != s
        invariant i < |list| && s in list[i..]
        decreases |list| - i
      {
        i := i + 1;
      }
      CutIsWithout(list, i);
      WithoutMembers(list, {s});
      list, cnt := list[..i] + list[i + 1..], cnt - 1;
    }

    ghost function First(s: Station): (Age, bool)
      reads s
    {
      Expired(Count(s.View(), s.Moved(), full), full, active)
    }

    /** What a tick does to a station on the list. */
    ghost function Fate(s: Station, answers: set<Station>): (Age, bool)
      reads s
    {
      Tick(s.View(), full, active, s.Moved(), s in answers)
    }

    /** The timer loop. */
    method TimerLoop() returns (chk: seq<Station>)
      requires Valid()
      modifies list
      ensures forall s :: s in list ==> s.View() == old(First(s)).0 && !s.Moved()
      ensures forall s :: s in chk <==> s in list && old(First(s)).1
      ensures Distinct(chk)
    {
      chk := [];
      for i := 0 to |list|
        invariant forall k :: 0 <= k < i ==> list[k].View() == old(First(list[k])).0 && !list[k].Moved()
        invariant forall k :: i <= k < |list| ==> list[k].View() == old(list[k].View()) && list[k].Moved() == old(list[k].Moved())
        invariant forall s :: s in chk <==> s in list[..i] && old(First(s)).1
        invariant Distinct(chk)
      {
        var s := list[i];
        TakeOne(list, i);
        var check := s.Age1(full, active);
        if check { chk := chk + [s]; }
      }
    }

    /** The check loop: the stations that go leave the list at once and are freed afterwards. */
    method CheckLoop(chk: seq<Station>, answers: set<Station>) returns (del: seq<Station>)
      requires Valid() && Distinct(chk) && forall s :: s in chk ==> s in list
      modifies this`list, this`cnt, chk`expire, chk`tries
      ensures Valid() && Distinct(del)
      ensures forall s :: s in chk ==> s.View() == old(Probed(s.View(), full, active, s in answers)).0
      ensures forall s :: s in del <==> s in chk && old(Probed(s.View(), full, active, s in answers)).1
      ensures list == Without(old(list), set s | s in del)
    {
      hide Without, Probed;
      del := [];
      WithoutNone(list, {});
      ghost var g: set<Station> := {};
      for i := 0 to |chk|
        invariant Valid() && list == Without(old(list), g) && g == set s | s in del
        invariant forall k :: 0 <= k < i ==>
                    chk[k].View() == old(Probed(chk[k].View(), full, active, chk[k] in answers)).0
        invariant forall k :: i <= k < |chk| ==> chk[k].View() == old(chk[k].View())
        invariant forall s :: s in del <==> s in chk[..i] && old(Probed(s.View(), full, active, s in answers)).1
        invariant Distinct(del)
      {
        var s := chk[i];
        TakeOne(chk, i);
        WithoutMembers(old(list), g);
        var gone := s.Check(full, active, s in answers);
        if gone {
          WithoutTwice(old(list), g, {s});
          Unlink(s);
          del := del + [s];
          g := g + {s};
        }
      }
    }

    /** expire_timeout_chk, its part on the association list: every station fares as its own
      * timer says, and exactly those that were to go have left the list, once each. */
    method ExpireTimeoutChk(answers: set<Station>) returns (del: seq<Station>)
      requires Valid()
      modifies this`list, this`cnt, list
      ensures Valid() && Distinct(del)
      ensures forall s :: s in old(list) ==> s.View() == old(Fate(s, answers)).0 && !s.Moved()
      ensures forall s :: s in del <==> s in old(list) && old(Fate(s, answers)).1
      ensures list == Without(old(list), set s | s in del)
    {
      var chk := TimerLoop();
      assert forall k :: 0 <= k < |chk| ==> chk[k] in chk;
      del := CheckLoop(chk, answers);
    }
  }
}
