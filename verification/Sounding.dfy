/** The sounding period of transmit beamforming (core/rtw_beamforming.c).  The handler starts
  * one listed peer at a time, the end-of-sounding handler calls it back directly, and a peer
  * marked for deletion makes the two call each other. */
module Sounding {

  const MAX_NUM_BEAMFORMEE_SU := 2
  const MAX_NUM_BEAMFORMEE_MU := 6
  const MAX_BEAMFORMEE_ENTRY_NUM := 8
  const NO_ENTRY := 0xFF

  datatype State = StNone | Init | SuStart | SuDown | MuStart | MuDown | TimedOut

  /** struct beamformee_entry, what the sounding period reads and writes of it. */
  datatype Bfee = Bfee(
    used: bool,
    added: bool,          // state == BEAMFORM_ENTRY_HW_STATE_ADDED
    capMu: bool,          // cap has VHT_MU
    capSu: bool,          // cap has VHT_SU or HT_EXPLICIT
    soundCnt: nat,
    period: nat,
    apply: bool,          // bApplySounding
    del: bool,            // bDeleteSounding
    suspend: bool,        // bSuspendSUCap
    sounding: bool,
    candidate: bool,
    timeout: bool,        // bSoundingTimeout
    failCnt: nat)         // LogStatusFailCnt, 5 bits

  /* ---------- Preparing the lists ---------- */

  datatype Listing = Listing(su: seq<nat>, mu: seq<nat>, notReady: nat)

  function Counted(b: Bfee): Bfee {
    if b.soundCnt > 0 then b.(soundCnt := b.soundCnt - 1) else b
  }

  function Chosen(b: Bfee, minPeriod: nat): Bfee
    requires minPeriod > 0
  {
    b.(candidate := true, soundCnt := b.period / minPeriod % 0x100)
  }

  /** A peer whose turn it is goes to the list of its kind, if there is room. */
  function Enlist(b: Bfee, i: nat, l: Listing, minPeriod: nat): (Bfee, Listing)
    requires minPeriod > 0
  {
    if b.capMu then
      if |l.mu| >= MAX_NUM_BEAMFORMEE_MU || !b.apply then (b, l)
      else (Chosen(b, minPeriod), l.(mu := l.mu + [i]))
    else if !b.capSu || |l.su| >= MAX_NUM_BEAMFORMEE_SU then (b, l)
    else if b.del then (b, l.(su := l.su + [i]))
    else if b.apply && !b.suspend then (Chosen(b, minPeriod), l.(su := l.su + [i]))
    else (b, l)
  }

  /** What the scan does with entry i. */
  function Visit(b: Bfee, i: nat, l: Listing, minPeriod: nat): (Bfee, Listing)
    requires minPeriod > 0
  {
    if !b.used then (b, l)
    else if !b.added then (b, l.(notReady := l.notReady + 1))
    else if Counted(b).soundCnt > 0 then (Counted(b), l)
    else Enlist(Counted(b), i, l, minPeriod)
  }

  /** Whether a peer is due: added, and its count of periods to sit out is used up. */
  predicate Due(b: Bfee) {
    b.used && b.added && b.soundCnt <= 1
  }

  predicate DueSu(b: Bfee) {
    Due(b) && !b.capMu && b.capSu && (b.del || (b.apply && !b.suspend))
  }

  predicate DueMu(b: Bfee) {
    Due(b) && b.capMu && b.apply
  }

  lemma VisitKeepsFlags(b: Bfee, i: nat, l: Listing, minPeriod: nat)
    requires minPeriod > 0
    ensures SameFlags(Visit(b, i, l, minPeriod).0, b)
  {
    assert SameFlags(Counted(b), b);
  }

  lemma EnlistLists(b: Bfee, i: nat, l: Listing, minPeriod: nat)
    requires minPeriod > 0 && Due(b)
    ensures var m := Enlist(b, i, l, minPeriod).1;
      && m.su == (if |l.su| < MAX_NUM_BEAMFORMEE_SU && DueSu(b) then l.su + [i] else l.su)
      && m.mu == (if |l.mu| < MAX_NUM_BEAMFORMEE_MU && DueMu(b) then l.mu + [i] else l.mu)
      && m.notReady == l.notReady
  {
    hide Chosen;
  }

  /** An entry is listed exactly when it is due and there is room. */
  lemma VisitLists(b: Bfee, i: nat, l: Listing, minPeriod: nat)
    requires minPeriod > 0
    ensures var m := Visit(b, i, l, minPeriod).1;
      && m.su == (if |l.su| < MAX_NUM_BEAMFORMEE_SU && DueSu(b) then l.su + [i] else l.su)
      && m.mu == (if |l.mu| < MAX_NUM_BEAMFORMEE_MU && DueMu(b) then l.mu + [i] else l.mu)
      && m.notReady == l.notReady + if b.used && !b.added then 1 else 0
  {
    hide Enlist;
    if Due(b) {
      EnlistLists(Counted(b), i, l, minPeriod);
    }
  }

  /** The scan of the first n entries. */
  function Scan(bs: seq<Bfee>, n: nat, minPeriod: nat): (r: (seq<Bfee>, Listing))
    requires n <= |bs| && minPeriod > 0
    ensures |r.0| == |bs|
  {
    if n == 0 then (bs, Listing([], [], 0))
    else
      var (cs, l) := Scan(bs, n - 1, minPeriod);
      var (b, m) := Visit(cs[n - 1], n - 1, l, minPeriod);
      (cs[n - 1 := b], m)
  }

  predicate Increasing(s: seq<nat>, bound: nat) {
    (forall k :: 0 <= k < |s| ==> s[k] < bound) && forall j, k :: 0 <= j < k < |s| ==> s[j] < s[k]
  }

  lemma InRange(s: seq<nat>, bound: nat)
    requires Increasing(s, bound)
    ensures forall k :: 0 <= k < |s| ==> s[k] < bound
  {
  }

  predicate SameFlags(a: Bfee, b: Bfee) {
    a.used == b.used && a.sounding == b.sounding && a.del == b.del
  }

  /** The entries below n that satisfy p, in order, at most room of them. */
  function FirstFew(bs: seq<Bfee>, n: nat, room: nat, p: Bfee -> bool): (r: seq<nat>)
    requires n <= |bs|
    ensures |r| <= room
  {
    if n == 0 then [] else
      var r := FirstFew(bs, n - 1, room, p);
      if |r| < room && p(bs[n - 1]) then r + [n - 1] else r
  }

  lemma {:induction false} FirstFewIn(bs: seq<Bfee>, n: nat, room: nat, p: Bfee -> bool)
    requires n <= |bs|
    ensures var r := FirstFew(bs, n, room, p);
      Increasing(r, n) && forall i :: i in r ==> i < |bs| && p(bs[i])
  {
    if n > 0 {
      FirstFewIn(bs, n - 1, room, p);
    }
  }

  /** The scan looks at each entry once, and leaves the flags of the last period alone. */
  lemma {:induction false} ScanKeepsFlags(bs: seq<Bfee>, n: nat, minPeriod: nat)
    requires n <= |bs| && minPeriod > 0
    ensures var cs := Scan(bs, n, minPeriod).0;
      && (forall k :: n <= k < |bs| ==> cs[k] == bs[k])
      && (forall k :: 0 <= k < |bs| ==> SameFlags(cs[k], bs[k]))
  {
    hide Visit;
    if n > 0 {
      ScanKeepsFlags(bs, n - 1, minPeriod);
      var (cs, l) := Scan(bs, n - 1, minPeriod);
      VisitKeepsFlags(cs[n - 1], n - 1, l, minPeriod);
    }
  }

  /** The listing after one more entry. */
  lemma ScanStep(bs: seq<Bfee>, n: nat, minPeriod: nat)
    requires n < |bs| && minPeriod > 0
    ensures Scan(bs, n + 1, minPeriod).1 == Visit(bs[n], n, Scan(bs, n, minPeriod).1, minPeriod).1
  {
    hide Visit, SameFlags;
    ScanKeepsFlags(bs, n, minPeriod);
  }

  lemma NothingScanned(bs: seq<Bfee>, minPeriod: nat)
    requires minPeriod > 0
    ensures Scan(bs, 0, minPeriod) == (bs, Listing([], [], 0))
  {
  }

  lemma {:induction false} ScanCountsNotReady(bs: seq<Bfee>, n: nat, minPeriod: nat)
    requires n <= |bs| && minPeriod > 0
    ensures Scan(bs, n, minPeriod).1.notReady > 0 <==> exists k :: 0 <= k < n && bs[k].used && !bs[k].added
  {
    hide Scan, Visit, DueSu, DueMu, SameFlags;
    if n == 0 {
      NothingScanned(bs, minPeriod);
    } else {
      ScanCountsNotReady(bs, n - 1, minPeriod);
      ScanStep(bs, n - 1, minPeriod);
      VisitLists(bs[n - 1], n - 1, Scan(bs, n - 1, minPeriod).1, minPeriod);
      assert bs[n - 1].used && !bs[n - 1].added ==> exists k :: 0 <= k < n && bs[k].used && !bs[k].added;
    }
  }

  /** The lists are the first due peers of each kind, as many as there is room for. */
  lemma {:induction false} ScanIsFirstFew(bs: seq<Bfee>, n: nat, minPeriod: nat)
    requires n <= |bs| && minPeriod > 0
    ensures var l := Scan(bs, n, minPeriod).1;
      && l.su == FirstFew(bs, n, MAX_NUM_BEAMFORMEE_SU, DueSu)
      && l.mu == FirstFew(bs, n, MAX_NUM_BEAMFORMEE_MU, DueMu)
  {
    hide Scan, Visit, DueSu, DueMu, SameFlags;
    if n == 0 {
      NothingScanned(bs, minPeriod);
    } else {
      ScanIsFirstFew(bs, n - 1, minPeriod);
      ScanStep(bs, n - 1, minPeriod);
      VisitLists(bs[n - 1], n - 1, Scan(bs, n - 1, minPeriod).1, minPeriod);
    }
  }

  /** The scan lists used entries, each once, in order, and no more than there is room for. */
  lemma ScanLists(bs: seq<Bfee>, n: nat, minPeriod: nat)
    requires n <= |bs| && minPeriod > 0
    ensures var (cs, l) := Scan(bs, n, minPeriod);
      && |l.su| <= MAX_NUM_BEAMFORMEE_SU && |l.mu| <= MAX_NUM_BEAMFORMEE_MU
      && Increasing(l.su, n) && Increasing(l.mu, n)
      && (forall k :: 0 <= k < |bs| ==> SameFlags(cs[k], bs[k]))
      && (forall i :: i in l.su || i in l.mu ==> i < |bs| && bs[i].used)
  {
    hide Scan, Increasing;
    ScanIsFirstFew(bs, n, minPeriod);
    ScanKeepsFlags(bs, n, minPeriod);
    FirstFewIn(bs, n, MAX_NUM_BEAMFORMEE_SU, DueSu);
    FirstFewIn(bs, n, MAX_NUM_BEAMFORMEE_MU, DueMu);
  }

  /** What a scan makes of an entry that is used and added, given whether it was listed and how
    * many periods it then has to sit out. */
  predicate Updated(b: Bfee, c: Bfee, su: bool, mu: bool, periods: nat) {
    if b.soundCnt > 1 then !su && !mu && c == b.(soundCnt := b.soundCnt - 1)
    else if mu || (su && !b.del) then c == b.(soundCnt := periods, candidate := true)
    else c == b.(soundCnt := 0)
  }

  lemma EnlistEntry(b: Bfee, i: nat, l: Listing, minPeriod: nat, periods: nat)
    requires minPeriod > 0 && Chosen(b, minPeriod) == b.(soundCnt := periods, candidate := true)
    ensures var (c, m) := Enlist(b, i, l, minPeriod);
      && (m.su == l.su || m.su == l.su + [i]) && (m.mu == l.mu || m.mu == l.mu + [i])
      && c == if m.mu != l.mu || (m.su != l.su && !b.del) then b.(soundCnt := periods, candidate := true) else b
  {
    hide Chosen;
  }

  lemma VisitCases(b: Bfee, i: nat, l: Listing, minPeriod: nat)
    requires minPeriod > 0
    ensures !b.used || !b.added ==> Visit(b, i, l, minPeriod) == (b, l.(notReady := Visit(b, i, l, minPeriod).1.notReady))
    ensures b.used && b.added && b.soundCnt > 1 ==>
              Visit(b, i, l, minPeriod) == (b.(soundCnt := b.soundCnt - 1), l)
    ensures b.used && b.added && b.soundCnt <= 1 ==>
              Visit(b, i, l, minPeriod) == Enlist(b.(soundCnt := 0), i, l, minPeriod)
  {
    hide Enlist;
    if b.soundCnt == 0 { assert b == b.(soundCnt := 0); }
  }

  lemma VisitEntry(b: Bfee, i: nat, l: Listing, minPeriod: nat, periods: nat)
    requires minPeriod > 0
    requires var z := b.(soundCnt := 0); Chosen(z, minPeriod) == z.(soundCnt := periods, candidate := true)
    ensures var (c, m) := Visit(b, i, l, minPeriod);
      && (m.su == l.su || m.su == l.su + [i]) && (m.mu == l.mu || m.mu == l.mu + [i])
      && (!b.used || !b.added ==> c == b && m.su == l.su && m.mu == l.mu)
      && (b.used && b.added ==> Updated(b, c, m.su != l.su, m.mu != l.mu, periods))
  {
    hide Visit, Enlist, Chosen;
    VisitCases(b, i, l, minPeriod);
    if b.used && b.added && b.soundCnt <= 1 {
      EnlistEntry(b.(soundCnt := 0), i, l, minPeriod, periods);
    }
  }

  lemma ChosenIs(b: Bfee, minPeriod: nat, periods: nat)
    requires minPeriod > 0 && periods == b.period / minPeriod % 256
    ensures Chosen(b, minPeriod) == b.(soundCnt := periods, candidate := true)
  {
  }

  /** Entry i of a list that grows by i or not. */
  lemma Grown(s: seq<nat>, t: seq<nat>, i: nat, n: nat)
    requires Increasing(s, n) && (t == s || t == s + [n])
    ensures i < n ==> (i in t <==> i in s)
    ensures n in t <==> t != s
  {
    if t == s + [n] {
      assert n in t;
    }
  }

  /** For every entry that is used and added: one period less to sit out when there is more than
    * one left; the number of its own periods, and the candidate flag, when it is listed and not to
    * be deleted; else none.  No other field changes, and no other entry. */
  lemma {:induction false} ScanCountsDown(bs: seq<Bfee>, n: nat, minPeriod: nat, i: nat)
    requires i < n <= |bs| && minPeriod > 0
    ensures var (cs, l) := Scan(bs, n, minPeriod);
      && |cs| == |bs|
      && (!bs[i].used || !bs[i].added ==> cs[i] == bs[i] && i !in l.su && i !in l.mu)
      && (bs[i].used && bs[i].added ==> Updated(bs[i], cs[i], i in l.su, i in l.mu, bs[i].period / minPeriod % 256))
  {
    hide Visit, Updated, SameFlags, Increasing, Chosen;
    var (cs, l) := Scan(bs, n - 1, minPeriod);
    ScanLists(bs, n - 1, minPeriod);
    ScanKeepsFlags(bs, n - 1, minPeriod);
    var b := cs[n - 1];
    ChosenIs(b.(soundCnt := 0), minPeriod, b.period / minPeriod % 256);
    VisitEntry(b, n - 1, l, minPeriod, b.period / minPeriod % 256);
    var m := Visit(cs[n - 1], n - 1, l, minPeriod).1;
    Grown(l.su, m.su, i, n - 1);
    Grown(l.mu, m.mu, i, n - 1);
    if i < n - 1 {
      ScanCountsDown(bs, n - 1, minPeriod, i);
    }
  }

  /** Repeated scans of which, whatever happens in between, each finds the entry as the one before
    * left it in use, state and count: a peer with count c, 0 standing for 1, is due at exactly the
    * c-th of them. */
  lemma {:induction false} DueAtItsCount(scans: seq<seq<Bfee>>, i: nat, minPeriod: nat, k: nat)
    requires minPeriod > 0 && k < |scans| && forall j :: 0 <= j < |scans| ==> i < |scans[j]|
    requires scans[0][i].used && scans[0][i].added
    requires forall j :: 0 <= j < k ==> CarriedOver(scans[j], scans[j + 1], i, minPeriod)
    requires k < scans[0][i].soundCnt || k == 0
    ensures scans[k][i].used && scans[k][i].added && scans[k][i].soundCnt == scans[0][i].soundCnt - k
    ensures Due(scans[k][i]) <==> k + 1 == scans[0][i].soundCnt || scans[0][i].soundCnt == 0
  {
    if k > 0 {
      DueAtItsCount(scans, i, minPeriod, k - 1);
      assert CarriedOver(scans[k - 1], scans[k], i, minPeriod);
      ScanCountsDown(scans[k - 1], |scans[k - 1]|, minPeriod, i);
    }
  }

  predicate CarriedOver(before: seq<Bfee>, after: seq<Bfee>, i: nat, minPeriod: nat)
    requires minPeriod > 0 && i < |before| && i < |after|
  {
    var b, c := Scan(before, |before|, minPeriod).0[i], after[i];
    b.used == c.used && b.added == c.added && b.soundCnt == c.soundCnt
  }

  /** The flags of the last period are cleared. */
  function Reset(b: Bfee): Bfee {
    if b.used && b.sounding then b.(sounding := false, candidate := false) else b
  }

  function ResetAll(bs: seq<Bfee>): (r: seq<Bfee>)
    ensures |r| == |bs| && forall k :: 0 <= k < |bs| ==> r[k] == Reset(bs[k])
  {
    seq(|bs|, k requires 0 <= k < |bs| => Reset(bs[k]))
  }

  lemma ResetSounding(bs: seq<Bfee>)
    ensures forall k :: 0 <= k < |bs| ==> ResetAll(bs)[k].used ==> !ResetAll(bs)[k].sounding
    ensures forall k :: 0 <= k < |bs| ==>
      && ResetAll(bs)[k] == bs[k].(sounding := ResetAll(bs)[k].sounding, candidate := ResetAll(bs)[k].candidate)
      && (ResetAll(bs)[k].candidate <==> bs[k].candidate && !(bs[k].used && bs[k].sounding))
  {
  }

  function Pad(s: seq<nat>, n: nat): (r: seq<nat>)
    requires |s| <= n
    ensures |r| == n && forall k :: 0 <= k < n ==> r[k] == if k < |s| then s[k] else NO_ENTRY
  {
    s + seq(n - |s|, _ => NO_ENTRY)
  }

  /** Of the listed SU peers the first n, and no others, carry the sounding flag. */
  predicate Started(bs: seq<Bfee>, su: seq<nat>, n: nat)
    requires Increasing(su, |bs|)
  {
    forall k :: 0 <= k < |su| ==> (bs[su[k]].sounding <==> k < n)
  }

  /** The first n have no deletion left to do, the others as planned. */
  predicate Settled(bs: seq<Bfee>, su: seq<nat>, plan: seq<Start>, n: nat)
    requires Increasing(su, |bs|) && |su| <= |plan|
  {
    forall k :: 0 <= k < |su| ==> (bs[su[k]].del <==> k >= n && plan[k].Delete?)
  }

  /** At the start of a period nothing is started and every deletion is planned. */
  lemma FreshFlags(bs: seq<Bfee>, cs: seq<Bfee>, su: seq<nat>, mu: seq<nat>)
    requires |bs| == |cs| && Increasing(su, |bs|)
    requires forall k :: 0 <= k < |bs| ==> SameFlags(cs[k], bs[k])
    requires forall k :: 0 <= k < |bs| ==> bs[k].used ==> !bs[k].sounding
    requires forall i :: i in su ==> i < |bs| && bs[i].used
    ensures Started(cs, su, 0) && Settled(cs, su, Plan(cs, su, mu), 0)
    ensures var p := Plan(cs, su, mu);
      && (forall k :: 0 <= k < |su| ==> p[k] == Sound(su[k]) || p[k] == Delete(su[k]))
      && (mu != [] ==> p[|su|] == SoundMu(mu))
  {
  }

  /** Starting peer n. */
  lemma StartOne(bs: seq<Bfee>, su: seq<nat>, plan: seq<Start>, n: nat, settled: nat)
    requires Increasing(su, |bs|) && n < |su| <= |plan|
    requires Started(bs, su, n) && Settled(bs, su, plan, settled)
    ensures var cs := bs[su[n] := bs[su[n]].(sounding := true, timeout := false)];
      Started(cs, su, n + 1) && Settled(cs, su, plan, settled)
  {
  }

  /** Ending peer n, with or without a deletion to do. */
  lemma SettleOne(bs: seq<Bfee>, su: seq<nat>, plan: seq<Start>, n: nat, m: nat, b: Bfee)
    requires Increasing(su, |bs|) && n < |su| <= |plan|
    requires Started(bs, su, m) && Settled(bs, su, plan, n)
    requires b.sounding == bs[su[n]].sounding && !b.del
    ensures Started(bs[su[n] := b], su, m) && Settled(bs[su[n] := b], su, plan, n + 1)
  {
  }

  /** The failure counts. */
  function Fails(bs: seq<Bfee>): (r: seq<nat>)
    ensures |r| == |bs|
  {
    seq(|bs|, k requires 0 <= k < |bs| => bs[k].failCnt)
  }

  lemma FailsPut(bs: seq<Bfee>, i: nat, b: Bfee)
    requires i < |bs|
    ensures Fails(bs[i := b]) == Fails(bs)[i := b.failCnt]
    ensures Fails(bs)[i := bs[i].failCnt] == Fails(bs)
  {
  }

  lemma Peer(bs: seq<Bfee>, su: seq<nat>, plan: seq<Start>, n: nat)
    requires Increasing(su, |bs|) && n < |su| <= |plan| && Settled(bs, su, plan, n)
    ensures su[n] < |bs| && (bs[su[n]].del <==> plan[n].Delete?)
  {
  }

  lemma TimeOutOne(bs: seq<Bfee>, su: seq<nat>, plan: seq<Start>, i: nat, n: nat, m: nat)
    requires Increasing(su, |bs|) && |su| <= |plan| && i < |bs|
    requires Started(bs, su, n) && Settled(bs, su, plan, m)
    ensures var cs := bs[i := bs[i].(timeout := true)]; Started(cs, su, n) && Settled(cs, su, plan, m)
  {
  }

  lemma SettledSound(bs: seq<Bfee>, su: seq<nat>, plan: seq<Start>, n: nat)
    requires Increasing(su, |bs|) && n < |su| <= |plan|
    requires Settled(bs, su, plan, n) && !plan[n].Delete?
    ensures Settled(bs, su, plan, n + 1)
  {
  }

  /** Starting the MU peers when every SU peer was started. */
  lemma StartTogether(bs: seq<Bfee>, cs: seq<Bfee>, su: seq<nat>, plan: seq<Start>, n: nat, m: nat)
    requires Increasing(su, |bs|) && |bs| == |cs| && |su| <= |plan| && |su| <= m && |su| <= n
    requires forall k :: 0 <= k < |bs| ==> SameButSounding(cs[k], bs[k])
    requires Started(bs, su, n) && Settled(bs, su, plan, m)
    ensures Started(cs, su, n + 1) && Settled(cs, su, plan, m + 1)
    ensures Fails(bs) == Fails(cs)
  {
  }

  predicate SameButSounding(a: Bfee, b: Bfee) {
    a == b.(sounding := a.sounding) && (b.sounding ==> a.sounding)
  }

  lemma PadPut(s: seq<nat>, n: nat, x: nat)
    requires |s| < n
    ensures Pad(s, n)[|s| := x] == Pad(s + [x], n)
  {
  }

  /* ---------- One period ---------- */

  /** What the handler does for a peer: an NDPA goes out and its end is awaited, or, for a peer
    * marked for deletion, the sounding is ended at once.  MU peers are sounded together. */
  datatype Start = Sound(i: nat) | Delete(i: nat) | SoundMu(peers: seq<nat>)

  /** What a period is to start: every listed SU peer in order, then the MU peers, if any. */
  function Plan(bs: seq<Bfee>, su: seq<nat>, mu: seq<nat>): (p: seq<Start>)
    requires forall k :: 0 <= k < |su| ==> su[k] < |bs|
    ensures |p| == |su| + if mu == [] then 0 else 1
  {
    seq(|su|, k requires 0 <= k < |su| => if bs[su[k]].del then Delete(su[k]) else Sound(su[k]))
      + if mu == [] then [] else [SoundMu(mu)]
  }

  /** The plan names every listed SU peer exactly once, the MU peers at most once, and nothing
    * else. */
  lemma PlanOnce(bs: seq<Bfee>, su: seq<nat>, mu: seq<nat>, i: nat)
    requires Increasing(su, |bs|)
    ensures var p := Plan(bs, su, mu);
      && (forall j, k :: 0 <= j < k < |p| ==> p[j] != p[k])
      && (i in su ==> if bs[i].del then Delete(i) in p && Sound(i) !in p else Sound(i) in p && Delete(i) !in p)
      && (i !in su ==> Sound(i) !in p && Delete(i) !in p)
      && forall s :: s in p && s.SoundMu? ==> s == SoundMu(mu) && mu != []
  {
    var p := Plan(bs, su, mu);
    if i in su {
      var k :| 0 <= k < |su| && su[k] == i;
      assert p[k] == if bs[i].del then Delete(i) else Sound(i);
    }
  }

  /** How many of these starts are waited for. */
  function Awaited(p: seq<Start>): nat {
    if p == [] then 0 else (if p[0].Delete? then 0 else 1) + Awaited(p[1..])
  }

  lemma AwaitedStep(p: seq<Start>, n: nat)
    requires n < |p|
    ensures Awaited(p[n..]) == (if p[n].Delete? then 0 else 1) + Awaited(p[n + 1..])
  {
    assert p[n..][1..] == p[n + 1..];
  }

  /** What ends a wait: the report of the hardware, or the timer.  After the timer has run out
    * reports may still come in before the queued restart is served. */
  datatype End = Report(status: bool) | Expire(late: seq<bool>)

  class Sounder {
    var state: State
    var suList: seq<nat>
    var muList: seq<nat>
    var suCur: nat
    var muCnt: nat
    var waitCnt: nat
    const minPeriod: nat
    var underSurvey: bool        // WIFI_UNDER_SURVEY
    var bfee: seq<Bfee>
    ghost var su: seq<nat>       // the SU peers listed for this period
    ghost var mu: seq<nat>       // the MU peers listed for this period
    ghost var plan: seq<Start>   // what this period is to start
    ghost var log: seq<Start>    // what it has started so far

    constructor (bs: seq<Bfee>, period: nat)
      requires |bs| == MAX_BEAMFORMEE_ENTRY_NUM && period > 0
      ensures Sizes() && state == Init && waitCnt == 0 && bfee == bs && !underSurvey && minPeriod == period
    {
      state, suCur, muCnt, waitCnt := Init, NO_ENTRY, 0, 0;
      suList, muList := Pad([], MAX_NUM_BEAMFORMEE_SU), Pad([], MAX_NUM_BEAMFORMEE_MU);
      minPeriod, underSurvey, bfee := period, false, bs;
      su, mu, plan, log := [], [], [], [];
    }

    ghost predicate Sizes()
      reads this
    {
      && |suList| == MAX_NUM_BEAMFORMEE_SU && |muList| == MAX_NUM_BEAMFORMEE_MU
      && |bfee| == MAX_BEAMFORMEE_ENTRY_NUM && minPeriod > 0
    }

    /** The lists are those of the period. */
    ghost predicate Listed()
      reads this
    {
      && Sizes() && |su| <= MAX_NUM_BEAMFORMEE_SU && |mu| <= MAX_NUM_BEAMFORMEE_MU
      && suList == Pad(su, MAX_NUM_BEAMFORMEE_SU) && muList == Pad(mu, MAX_NUM_BEAMFORMEE_MU)
      && Increasing(su, MAX_BEAMFORMEE_ENTRY_NUM) && Increasing(mu, MAX_BEAMFORMEE_ENTRY_NUM)
      && |plan| == |su| + (if mu == [] then 0 else 1)
      && (forall k :: 0 <= k < |su| ==> plan[k] == Sound(su[k]) || plan[k] == Delete(su[k]))
      && (mu != [] ==> plan[|su|] == SoundMu(mu))
    }

    /** What was started is a prefix of the plan; the sounding flags of the SU peers say which
      * were started, the deletion flags which of the rest are to be deleted. */
    ghost predicate Running(settled: nat)
      reads this
    {
      && Listed() && log <= plan
      && muCnt == (if |log| <= |su| then |mu| else 0)
      && Started(bfee, su, |log|) && Settled(bfee, su, plan, settled)
    }

    /** The SU peer started last is the current one, and it has not timed out. */
    ghost predicate Current()
      reads this
    {
      && 0 < |log| <= |su| && |su| <= |plan| && suCur == su[|log| - 1] && suCur < |bfee|
      && !bfee[suCur].timeout
    }

    /** The period waits for the end of a sounding, or for the restart after a timeout. */
    ghost predicate Waiting()
      reads this
    {
      && Running(|log|) && log != []
      && (state == SuStart ==> Current() && log[|log| - 1].Sound?)
      && (state == MuStart ==> |log| == |su| + 1)
      && (state == SuStart || state == MuStart || state == TimedOut)
    }

    ghost predicate Finished()
      reads this
    {
      Running(|log|) && state == Init && log == plan
    }

    /** The period, its peers and its plan are as before. */
    twostate predicate SamePeriod()
      reads this
    {
      unchanged(this`su, this`mu, this`plan, this`waitCnt, this`underSurvey)
    }

    /** How many more ends of soundings the period will see. */
    ghost function Waits(): nat
      reads this
      requires |log| <= |plan|
    {
      Awaited(plan[|log|..]) + if state == SuStart || state == MuStart then 1 else 0
    }

    /** _sounding_reset_vars */
    method ResetVars()
      requires Sizes()
      modifies this`suList, this`muList, this`suCur, this`muCnt, this`bfee
      ensures Sizes() && bfee == ResetAll(old(bfee)) && suCur == NO_ENTRY && muCnt == 0
      ensures suList == Pad([], MAX_NUM_BEAMFORMEE_SU) && muList == Pad([], MAX_NUM_BEAMFORMEE_MU)
    {
      suList := seq(MAX_NUM_BEAMFORMEE_SU, _ => NO_ENTRY);
      muList := seq(MAX_NUM_BEAMFORMEE_MU, _ => NO_ENTRY);
      suCur, muCnt := NO_ENTRY, 0;
      var idx := 0;
      while idx < MAX_BEAMFORMEE_ENTRY_NUM
        modifies this`bfee
        invariant idx <= MAX_BEAMFORMEE_ENTRY_NUM == |bfee|
        invariant forall k :: 0 <= k < |bfee| ==> bfee[k] == if k < idx then Reset(old(bfee)[k]) else old(bfee)[k]
      {
        if bfee[idx].used && bfee[idx].sounding {
          bfee := bfee[idx := bfee[idx].(sounding := false, candidate := false)];
        }
        idx := idx + 1;
      }
    }

    /** One turn of the loop of _sounding_get_list, with the two list indices. */
    method Consider(i: nat, ghost l: Listing, suIdx: nat, muIdx: nat) returns (su': nat, mu': nat, ready: bool)
      requires Sizes() && i < |bfee|
      requires suIdx == |l.su| <= MAX_NUM_BEAMFORMEE_SU && muIdx == |l.mu| <= MAX_NUM_BEAMFORMEE_MU
      requires suList == Pad(l.su, MAX_NUM_BEAMFORMEE_SU) && muList == Pad(l.mu, MAX_NUM_BEAMFORMEE_MU)
      modifies this`suList, this`muList, this`bfee
      ensures Sizes()
      ensures var (b, m) := Visit(old(bfee)[i], i, l, minPeriod);
        && bfee == old(bfee)[i := b] && su' == |m.su| <= MAX_NUM_BEAMFORMEE_SU && mu' == |m.mu| <= MAX_NUM_BEAMFORMEE_MU
        && suList == Pad(m.su, MAX_NUM_BEAMFORMEE_SU) && muList == Pad(m.mu, MAX_NUM_BEAMFORMEE_MU)
        && m.notReady == l.notReady + if ready then 0 else 1
    {
      hide Pad, Enlist;
      su', mu', ready := suIdx, muIdx, true;
      var b := bfee[i];
      assert bfee[i := b] == bfee;
      if !b.used { return; }
      if !b.added {
        ready := false;
        return;
      }
      if b.soundCnt > 0 {
        b := b.(soundCnt := b.soundCnt - 1);
        bfee := bfee[i := b];
        if b.soundCnt > 0 { return; }
      }
      su', mu' := ConsiderDue(i, l, suIdx, muIdx);
    }

    /** The rest of the turn, for a peer that is due. */
    method ConsiderDue(i: nat, ghost l: Listing, suIdx: nat, muIdx: nat) returns (su': nat, mu': nat)
      requires Sizes() && i < |bfee|
      requires suIdx == |l.su| <= MAX_NUM_BEAMFORMEE_SU && muIdx == |l.mu| <= MAX_NUM_BEAMFORMEE_MU
      requires suList == Pad(l.su, MAX_NUM_BEAMFORMEE_SU) && muList == Pad(l.mu, MAX_NUM_BEAMFORMEE_MU)
      modifies this`suList, this`muList, this`bfee
      ensures Sizes()
      ensures var (b, m) := Enlist(old(bfee)[i], i, l, minPeriod);
        && bfee == old(bfee)[i := b] && su' == |m.su| <= MAX_NUM_BEAMFORMEE_SU && mu' == |m.mu| <= MAX_NUM_BEAMFORMEE_MU
        && suList == Pad(m.su, MAX_NUM_BEAMFORMEE_SU) && muList == Pad(m.mu, MAX_NUM_BEAMFORMEE_MU)
        && m.notReady == l.notReady
    {
      hide Pad;
      su', mu' := suIdx, muIdx;
      var b := bfee[i];
      assert bfee[i := b] == bfee;
      if b.capMu {
        if muIdx >= MAX_NUM_BEAMFORMEE_MU || !b.apply { return; }
        bfee := bfee[i := b.(candidate := true, soundCnt := b.period / minPeriod % 0x100)];
        PadPut(l.mu, MAX_NUM_BEAMFORMEE_MU, i);
        muList := muList[muIdx := i];
        mu' := muIdx + 1;
      } else if b.capSu {
        if suIdx >= MAX_NUM_BEAMFORMEE_SU { return; }
        if !b.del {
          if !b.apply || b.suspend { return; }
          bfee := bfee[i := b.(candidate := true, soundCnt := b.period / minPeriod % 0x100)];
        }
        PadPut(l.su, MAX_NUM_BEAMFORMEE_SU, i);
        suList := suList[suIdx := i];
        su' := suIdx + 1;
      }
    }

    /** _sounding_get_list: the loop is the scan, and the rest of each list stays 0xFF. */
    method GetList() returns (ret: int)
      requires Sizes()
      requires suList == Pad([], MAX_NUM_BEAMFORMEE_SU) && muList == Pad([], MAX_NUM_BEAMFORMEE_MU)
      modifies this`suList, this`muList, this`muCnt, this`bfee
      ensures Sizes()
      ensures var (cs, l) := Scan(old(bfee), MAX_BEAMFORMEE_ENTRY_NUM, minPeriod);
        && bfee == cs && |l.su| <= MAX_NUM_BEAMFORMEE_SU && |l.mu| <= MAX_NUM_BEAMFORMEE_MU
        && suList == Pad(l.su, MAX_NUM_BEAMFORMEE_SU) && muList == Pad(l.mu, MAX_NUM_BEAMFORMEE_MU)
        && muCnt == |l.mu|
        && ret == if l.su != [] || l.mu != [] then 0 else if l.notReady > 0 then -2 else -1
    {
      hide Visit, Pad;
      var muIdx, suIdx, notReady := 0, 0, 0;
      ghost var l := Listing([], [], 0);
      for i := 0 to MAX_BEAMFORMEE_ENTRY_NUM
        modifies this`suList, this`muList, this`bfee
        invariant Sizes()
        invariant (bfee, l) == Scan(old(bfee), i, minPeriod)
        invariant suIdx == |l.su| <= MAX_NUM_BEAMFORMEE_SU && muIdx == |l.mu| <= MAX_NUM_BEAMFORMEE_MU
        invariant notReady == l.notReady
        invariant suList == Pad(l.su, MAX_NUM_BEAMFORMEE_SU)
        invariant muList == Pad(l.mu, MAX_NUM_BEAMFORMEE_MU)
      {
        ghost var (_, m) := Visit(bfee[i], i, l, minPeriod);
        var ready;
        suIdx, muIdx, ready := Consider(i, l, suIdx, muIdx);
        l := m;
        if !ready { notReady := notReady + 1; }
      }
      muCnt := muIdx;
      ret := 0;
      if suIdx + muIdx == 0 {
        ret := -1;
        if notReady > 0 { ret := -2; }
      }
    }

    /** The lists of a new period. */
    method Prepare() returns (ret: int)
      requires Sizes()
      modifies this`suList, this`muList, this`suCur, this`muCnt, this`bfee, this`su, this`mu, this`plan, this`log
      ensures suCur == NO_ENTRY && Running(0) && log == []
      ensures var (cs, l) := Scan(ResetAll(old(bfee)), MAX_BEAMFORMEE_ENTRY_NUM, minPeriod);
        && bfee == cs && su == l.su && mu == l.mu && plan == Plan(cs, l.su, l.mu)
        && ret == if plan != [] then 0 else if l.notReady > 0 then -2 else -1
    {
      hide Pad, Scan, ResetAll, Plan, Started, Settled, Increasing;
      ResetVars();
      ghost var reset := bfee;
      ResetSounding(old(bfee));
      ScanLists(reset, MAX_BEAMFORMEE_ENTRY_NUM, minPeriod);
      InRange(Scan(reset, MAX_BEAMFORMEE_ENTRY_NUM, minPeriod).1.su, MAX_BEAMFORMEE_ENTRY_NUM);
      ret := GetList();
      ghost var (cs, l) := Scan(reset, MAX_BEAMFORMEE_ENTRY_NUM, minPeriod);
      su, mu, log := l.su, l.mu, [];
      plan := Plan(cs, su, mu);
      FreshFlags(ResetAll(old(bfee)), cs, su, mu);
    }

    /** The opening of a period in _sounding_handler.  It goes on exactly when some peer is
      * listed and no survey is running; while peers are not ready it is put off, five times. */
    method Begin() returns (go: bool)
      requires Sizes() && state == Init
      modifies this
      ensures underSurvey == old(underSurvey)
      ensures Running(0) && log == []
      ensures var (cs, l) := Scan(ResetAll(old(bfee)), MAX_BEAMFORMEE_ENTRY_NUM, minPeriod);
        && bfee == cs && su == l.su && mu == l.mu && plan == Plan(cs, l.su, l.mu)
        && (go <==> plan != [] && !underSurvey)
        && state == (if plan != [] || (l.notReady > 0 && old(waitCnt) < 5) then Init else StNone)
        && waitCnt == (if plan == [] && state == Init then old(waitCnt) + 1 else 0)
    {
      hide Scan, ResetAll, Plan, Started, Settled, Pad, Increasing;
      var ret := Prepare();
      go := false;
      if ret == -1 {
        waitCnt, state := 0, StNone;
        return;
      }
      if ret == -2 {
        if waitCnt < 5 {
          waitCnt := waitCnt + 1;
        } else {
          waitCnt, state := 0, StNone;
        }
        return;
      }
      waitCnt := 0;
      go := !underSurvey;
    }

    /** The search of _sounding_handler for a listed SU peer that was not started yet. */
    method PickSu() returns (i: nat)
      requires Running(|log|)
      ensures i == if |log| < |su| then |log| else MAX_NUM_BEAMFORMEE_SU
    {
      i := 0;
      while i < MAX_NUM_BEAMFORMEE_SU && !(suList[i] < MAX_BEAMFORMEE_ENTRY_NUM && !bfee[suList[i]].sounding)
        invariant i <= MAX_NUM_BEAMFORMEE_SU
        invariant forall k :: 0 <= k < i && k < |su| ==> bfee[su[k]].sounding
      {
        i := i + 1;
      }
      if |log| < |su| {
        assert !bfee[su[|log|]].sounding && i <= |log|;
      }
    }

    /** The loop of _sounding_handler that marks the listed MU peers. */
    method MarkMu()
      requires Listed() && muCnt == |mu|
      modifies this`bfee
      ensures |bfee| == old(|bfee|)
      ensures forall k :: 0 <= k < |bfee| ==> SameButSounding(bfee[k], old(bfee)[k])
      ensures forall k :: 0 <= k < |mu| ==> bfee[mu[k]].sounding
    {
      hide Started, Settled, Increasing;
      InRange(mu, MAX_BEAMFORMEE_ENTRY_NUM);
      var i := 0;
      while i < muCnt
        modifies this`bfee
        invariant i <= muCnt && |bfee| == MAX_BEAMFORMEE_ENTRY_NUM
        invariant forall k :: 0 <= k < |bfee| ==> SameButSounding(bfee[k], old(bfee)[k])
        invariant forall k :: 0 <= k < i ==> bfee[mu[k]].sounding
      {
        var m := muList[i];
        bfee := bfee[m := bfee[m].(sounding := true)];
        i := i + 1;
      }
    }

    method StartMu()
      requires Running(|log|) && |log| >= |su| && muCnt > 0
      modifies this`state, this`muCnt, this`bfee, this`log
      ensures Waiting() && state == MuStart
      ensures Waits() == old(Awaited(plan[|log|..])) && Fails(bfee) == old(Fails(bfee))
      ensures |bfee| == |old(bfee)| && forall k :: 0 <= k < |mu| ==> mu[k] < |bfee| && bfee[mu[k]].sounding
    {
      hide Started, Settled, Pad, Awaited, Increasing, Fails;
      InRange(mu, MAX_BEAMFORMEE_ENTRY_NUM);
      state := MuStart;
      ghost var was := bfee;
      AwaitedStep(plan, |log|);
      MarkMu();
      StartTogether(was, bfee, su, plan, |log|, |log|);
      log := log + [SoundMu(mu)];
      muCnt := 0;
    }

    /** The next SU peer becomes the current one, its flags set for a new sounding. */
    method MarkSu(i: nat)
      requires Running(|log|) && i == |log| < |su|
      modifies this`state, this`suCur, this`bfee, this`log
      ensures state == SuStart && log == old(log) + [plan[i]] && Running(i) && Current()
      ensures Fails(bfee) == old(Fails(bfee)) && (bfee[suCur].del <==> plan[i].Delete?)
    {
      hide Started, Settled, Pad, Increasing, Fails;
      Peer(bfee, su, plan, i);
      StartOne(bfee, su, plan, i, i);
      suCur := suList[i];
      state := SuStart;
      var b := bfee[suCur];
      FailsPut(bfee, suCur, b.(sounding := true, timeout := false));
      bfee := bfee[suCur := b.(sounding := true, timeout := false)];
      log := log + [plan[i]];
    }

    /** A peer that is not to be deleted is settled when it is started. */
    lemma StartedSound(i: nat)
      requires |log| == i + 1 && Running(i) && Current() && !plan[i].Delete? && state == SuStart
      ensures Waiting()
    {
      hide Pad, Started, Settled, Increasing;
      SettledSound(bfee, su, plan, i);
    }

    /** Starting the next SU peer; one marked for deletion is ended at once, by a direct call. */
    method StartSu(i: nat)
      requires Running(|log|) && i == |log| < |su|
      modifies this
      ensures SamePeriod()
      ensures (Waiting() || Finished()) && state != TimedOut
      ensures Waits() == old(Awaited(plan[|log|..])) && Fails(bfee) == old(Fails(bfee))
      decreases |plan| - |log|, 0
    {
      hide Listed, Awaited, Fails;
      MarkSu(i);
      AwaitedStep(plan, i);
      FailsPut(bfee, suCur, bfee[suCur]);
      if bfee[suCur].del {
        SoundingDown(false);
      } else {
        StartedSound(i);
      }
    }

    /** The rest of _sounding_handler: the first listed SU peer that was not started, else the
      * MU peers, else the end of the period. */
    method Next()
      requires Running(|log|)
      modifies this
      ensures SamePeriod()
      ensures (Waiting() || Finished()) && state != TimedOut
      ensures Waits() == old(Awaited(plan[|log|..])) && Fails(bfee) == old(Fails(bfee))
      decreases |plan| - |log|, 1
    {
      hide Started, Settled, Pad, Awaited, Increasing, Fails;
      var i := PickSu();
      if i < MAX_NUM_BEAMFORMEE_SU {
        StartSu(i);
      } else if muCnt > 0 {
        StartMu();
      } else {
        state := Init;
      }
    }

    /** The end of an SU sounding.  The early return for a peer that timed out is never taken: a
      * restart clears the flag before the peer can be the current one again. */
    method EndSu(status: bool)
      requires state == SuStart && log != [] && Running(|log| - 1) && Current()
      requires status ==> log[|log| - 1].Sound?
      modifies this`state, this`bfee
      ensures Running(|log|) && state == SuDown
      ensures var b := old(bfee)[suCur];
        Fails(bfee) == old(Fails(bfee))[suCur :=
          if status then 0 else if b.del then b.failCnt else (b.failCnt + 1) % 32]
    {
      hide Started, Settled, Pad, Increasing, Fails;
      var b := bfee[suCur];
      state := SuDown;
      if b.timeout {
        assert false;
      }
      Peer(bfee, su, plan, |log| - 1);
      if status {
        b := b.(failCnt := 0);
      } else if b.del {
        b := b.(del := false);
      } else {
        b := b.(failCnt := (b.failCnt + 1) % 32);
      }
      SettleOne(bfee, su, plan, |log| - 1, |log|, b);
      FailsPut(bfee, suCur, b);
      bfee := bfee[suCur := b];
    }

    /** _beamforming_sounding_down */
    method SoundingDown(status: bool)
      requires state == SuStart ==> log != [] && Running(|log| - 1) && Current() && (status ==> log[|log| - 1].Sound?)
      requires state == MuStart ==> Waiting()
      modifies this
      ensures SamePeriod()
      ensures old(state) != SuStart && old(state) != MuStart ==> unchanged(this)
      ensures old(state) == SuStart || old(state) == MuStart ==>
                (Waiting() || Finished()) && state != TimedOut && Waits() == old(Awaited(plan[|log|..]))
      ensures old(state) != SuStart ==> Fails(bfee) == old(Fails(bfee))
      ensures old(state) == SuStart ==>
                var b := old(bfee)[old(suCur)];
                Fails(bfee) == old(Fails(bfee))[old(suCur) :=
                  if status then 0 else if b.del then b.failCnt else (b.failCnt + 1) % 32]
      decreases |plan| - |log|, 3
    {
      hide Started, Settled, Pad, Awaited, Increasing, Fails;
      if state == MuStart {
        state := MuDown;
      } else if state == SuStart {
        EndSu(status);
      } else {
        return;
      }
      Handler();
    }

    /** _sounding_handler */
    method Handler()
      requires Sizes() && (state in {SuDown, MuDown, TimedOut} ==> Running(|log|))
      modifies this
      ensures Sizes()
      ensures old(state) in {StNone, SuStart, MuStart} ==> unchanged(this)
      ensures old(state) in {SuDown, MuDown, TimedOut} ==>
                && SamePeriod() && (Waiting() || Finished()) && state != TimedOut
                && Waits() == old(Awaited(plan[|log|..])) && Fails(bfee) == old(Fails(bfee))
      ensures old(state) == Init ==>
                var (cs, l) := Scan(ResetAll(old(bfee)), MAX_BEAMFORMEE_ENTRY_NUM, minPeriod);
                && su == l.su && mu == l.mu && Listed() && plan == Plan(cs, su, mu) && log <= plan
                && Fails(bfee) == Fails(cs)
                && if plan != [] && !old(underSurvey)
                   then (Waiting() || Finished()) && state != TimedOut && Waits() == Awaited(plan) && waitCnt == 0
                   else && bfee == cs && log == []
                        && state == (if plan != [] || (l.notReady > 0 && old(waitCnt) < 5) then Init else StNone)
                        && waitCnt == (if plan == [] && state == Init then old(waitCnt) + 1 else 0)
      decreases if state == Init then MAX_BEAMFORMEE_ENTRY_NUM else |plan| - |log|, 2
    {
      hide Started, Settled, Pad, Awaited, Increasing, Fails, Scan, ResetAll, Plan;
      if state != Init && state != SuDown && state != MuDown && state != TimedOut {
        return;
      }
      if state == Init {
        var go := Begin();
        if !go { return; }
        assert plan[|log|..] == plan;
      }
      Next();
    }

    /** _sounding_timeout_timer_handler; the restart it queues is served later. */
    method TimerExpires() returns (restart: bool)
      requires Waiting()
      modifies this
      ensures SamePeriod() && log == old(log) && Fails(bfee) == old(Fails(bfee))
      ensures Waiting() && state == TimedOut && (restart <==> old(state) != TimedOut)
      ensures old(state) == SuStart ==>
                suCur < |old(bfee)| && bfee == old(bfee)[suCur := old(bfee)[suCur].(timeout := true)]
      ensures old(state) != SuStart ==> bfee == old(bfee)
      ensures Waits() == old(Awaited(plan[|log|..]))
    {
      hide Started, Settled, Pad, Awaited, Increasing, Fails;
      restart := true;
      if state == SuStart {
        state := TimedOut;
        var b := bfee[suCur];
        TimeOutOne(bfee, su, plan, suCur, |log|, |log|);
        FailsPut(bfee, suCur, b.(timeout := true));
        bfee := bfee[suCur := b.(timeout := true)];
      } else if state == MuStart {
        state := TimedOut;
      } else {
        restart := false;
      }
    }

    /** One end of a sounding: the report is handled at once; after the timer the late reports
      * find no sounding and change nothing, and then the queued restart is served. */
    method Step(e: End)
      requires Waiting() && state != TimedOut
      modifies this
      ensures SamePeriod() && (Waiting() || Finished()) && state != TimedOut
      ensures Waits() == old(Waits()) - 1
    {
      match e
      case Report(status) =>
        SoundingDown(status);
      case Expire(late) =>
        var restart := TimerExpires();
        ghost var left := Awaited(plan[|log|..]);
        for i := 0 to |late|
          invariant SamePeriod() && Waiting() && state == TimedOut
          invariant Awaited(plan[|log|..]) == left
        {
          SoundingDown(late[i]);
        }
        Handler();
    }

    /** A period, opened from Init, with the ends of its soundings in any mix.  When peers are
      * listed and no survey runs, the period is over exactly when as many ends have come as the
      * plan has soundings to wait for, and then the plan, no more and no less, has been carried
      * out in order. */
    method Period(ends: seq<End>) returns (used: nat)
      requires Sizes() && state == Init
      modifies this
      ensures used <= |ends|
      ensures var (cs, l) := Scan(ResetAll(old(bfee)), MAX_BEAMFORMEE_ENTRY_NUM, minPeriod);
        && su == l.su && mu == l.mu && Listed() && plan == Plan(cs, su, mu) && log <= plan
        && if plan == [] || old(underSurvey) then log == [] && used == 0
           else && used == (if |ends| < Awaited(plan) then |ends| else Awaited(plan))
                && (state == Init <==> used == Awaited(plan))
                && (state == Init ==> log == plan)
    {
      hide Started, Settled, Pad, Increasing, Fails, Scan, ResetAll, Plan;
      used := 0;
      Handler();
      ghost var lists := (su, mu, plan);
      ghost var runs := plan != [] && !old(underSurvey);
      while used < |ends| && (state == SuStart || state == MuStart)
        invariant used <= |ends|
        invariant (su, mu, plan) == lists && Listed()
        invariant if runs
                  then (Waiting() || Finished()) && state != TimedOut && Waits() + used == Awaited(plan)
                  else log == [] && used == 0 && (state == Init || state == StNone)
      {
        Step(ends[used]);
        used := used + 1;
      }
    }
  }
}
