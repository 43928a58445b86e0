/** Station bookkeeping of an access point (core/rtw_ap.c): the num_sta_* counters and the
  * per-station flags behind them, the HT operation mode, and the ERP element of the beacon. */
module ApStations {
  import opened Wrappers

  /** The per-station flags; each has a counter. */
  datatype Flag =
    | NoShortPreamble   // no_short_preamble_set, num_sta_no_short_preamble
    | NonErp            // nonerp_set, num_sta_non_erp
    | NoShortSlot       // no_short_slot_time_set, num_sta_no_short_slot_time
    | NoHt              // no_ht_set, num_sta_no_ht
    | NoGf              // no_ht_gf_set, num_sta_ht_no_gf
    | Ht20              // ht_20mhz_set, num_sta_ht_20mhz
    | Intolerant40      // ht_40mhz_intolerant, num_sta_40mhz_intolerant

  type Flags = set<Flag>

  /** Every station entry that was ever allocated, with the flags last written into it. */
  type Stas = map<nat, Flags>

  /** What a station declares when it associates. */
  datatype Caps = Caps(
    shortPreamble: bool, nonErp: bool, shortSlot: bool,
    ht: bool, greenfield: bool, width40: bool, intolerant40: bool)

  /* ---------- Counting ---------- */

  function Carriers(s: Stas, f: Flag): set<nat> {
    set i | i in s && f in s[i]
  }

  /** The number of stations that carry the flag. */
  function Count(s: Stas, f: Flag): nat {
    |Carriers(s, f)|
  }

  lemma CountPositive(s: Stas, f: Flag)
    ensures Count(s, f) > 0 <==> exists i :: i in s && f in s[i]
  {
    if i :| i in s && f in s[i] {
      assert i in Carriers(s, f);
    }
  }

  /** Rewriting one station's flags moves each counter by what changed. */
  lemma CountUpdate(s: Stas, i: nat, fs: Flags, f: Flag)
    requires i in s
    ensures Count(s[i := fs], f) == Count(s, f) - (if f in s[i] then 1 else 0) + (if f in fs then 1 else 0)
  {
    var a, b := Carriers(s, f), Carriers(s[i := fs], f);
    assert b == (a - {i}) + if f in fs then {i} else {};
  }

  /** The number of entries still allocated that carry the flag. */
  function CountLive(s: Stas, live: set<nat>, f: Flag): nat {
    |Carriers(s, f) * live|
  }

  /** An entry that was freed carries the flag. */
  predicate Stale(s: Stas, live: set<nat>, f: Flag) {
    exists i :: i in s && i !in live && f in s[i]
  }

  lemma CountLiveIff(s: Stas, live: set<nat>, f: Flag)
    ensures Count(s, f) == CountLive(s, live, f) <==> !Stale(s, live, f)
    ensures CountLive(s, live, f) <= Count(s, f)
  {
    var a, b := Carriers(s, f), Carriers(s, f) - live;
    assert a == a * live + b;
    if i :| i in s && i !in live && f in s[i] {
      assert i in b;
    } else {
      assert b == {};
    }
  }

  /** The counters tell the number of stations exactly when no entry was freed with a flag. */
  lemma CountersExactIff(s: Stas, live: set<nat>)
    ensures (forall f :: Count(s, f) == CountLive(s, live, f)) <==> forall i :: i in s && i !in live ==> s[i] == {}
  {
    forall f ensures Count(s, f) == CountLive(s, live, f) <==> !Stale(s, live, f) {
      CountLiveIff(s, live, f);
    }
    if i :| i in s && i !in live && s[i] != {} {
      var f :| f in s[i];
      assert Stale(s, live, f);
    }
  }

  /* ---------- What an event does to a station's flags ---------- */

  function Put(fs: Flags, f: Flag, on: bool): Flags {
    if on then fs + {f} else fs - {f}
  }

  /** The flags after an association with these capabilities.  The first three follow the
    * capabilities; of the HT flags only NoHt can be cleared. */
  function JoinFlags(fs: Flags, c: Caps, ht: bool): Flags {
    if ht then HtJoinFlags(RateJoinFlags(fs, c), c) else RateJoinFlags(fs, c)
  }

  function RateJoinFlags(fs: Flags, c: Caps): Flags {
    Put(Put(Put(fs, NoShortPreamble, !c.shortPreamble), NonErp, c.nonErp), NoShortSlot, !c.shortSlot)
  }

  function HtJoinFlags(fs: Flags, c: Caps): Flags {
    if !c.ht then fs + {NoHt}
    else
      fs - {NoHt} + (if c.greenfield then {} else {NoGf}) + (if c.width40 then {} else {Ht20})
        + (if c.intolerant40 then {Intolerant40} else {})
  }

  /** Flag by flag: the first three say what the station says now; of the HT flags only NoHt does,
    * the others stay from earlier associations. */
  lemma JoinFlagsMean(fs: Flags, c: Caps, ht: bool)
    ensures var r := JoinFlags(fs, c, ht);
      && (NoShortPreamble in r <==> !c.shortPreamble) && (NonErp in r <==> c.nonErp)
      && (NoShortSlot in r <==> !c.shortSlot)
      && (NoHt in r <==> if ht then !c.ht else NoHt in fs)
      && (NoGf in r <==> NoGf in fs || (ht && c.ht && !c.greenfield))
      && (Ht20 in r <==> Ht20 in fs || (ht && c.ht && !c.width40))
      && (Intolerant40 in r <==> Intolerant40 in fs || (ht && c.ht && c.intolerant40))
  {
  }

  /** A station that comes back is counted like a new one with its present capabilities
    * exactly when each HT flag it carried is one these capabilities set again, or the one that
    * they clear. */
  lemma RejoinCountsAsNewIff(fs: Flags, c: Caps, ht: bool)
    ensures JoinFlags(fs, c, ht) == JoinFlags({}, c, ht) <==>
      && (NoHt in fs ==> ht)
      && (NoGf in fs ==> ht && c.ht && !c.greenfield)
      && (Ht20 in fs ==> ht && c.ht && !c.width40)
      && (Intolerant40 in fs ==> ht && c.ht && c.intolerant40)
  {
    var a, b := JoinFlags(fs, c, ht), JoinFlags({}, c, ht);
    SameFlags(a, b);
  }

  lemma SameFlags(a: Flags, b: Flags)
    ensures a == b <==>
      && (NoShortPreamble in a <==> NoShortPreamble in b) && (NonErp in a <==> NonErp in b)
      && (NoShortSlot in a <==> NoShortSlot in b) && (NoHt in a <==> NoHt in b) && (NoGf in a <==> NoGf in b)
      && (Ht20 in a <==> Ht20 in b) && (Intolerant40 in a <==> Intolerant40 in b)
  {
    if a != b {
      var f :| (f in a) != (f in b);
      match f
      case NoShortPreamble => case NonErp => case NoShortSlot => case NoHt => case NoGf => case Ht20 => case Intolerant40 =>
    }
  }

  /** A station that was 20 MHz wide comes back 40 MHz wide and still counts as 20 MHz. */
  lemma RejoinKeepsHt20()
    ensures var c := Caps(true, false, true, true, true, true, false);
      Ht20 in JoinFlags({Ht20}, c, true) && Ht20 !in JoinFlags({}, c, true)
  {
  }

  /* ---------- HT operation mode (section 9.4.2.57 of IEEE 802.11-2016) ---------- */

  const OP_MODE_MASK: bv8 := 0x3
  const NON_GF_DEVS_PRESENT: bv8 := 0x4
  const NON_HT_STA_PRESENT: bv8 := 0x10

  /** The mode: mixed with a non-HT station; else 20 MHz protection when the AP is 40 MHz wide
    * and has a 20 MHz station; else non-member protection with legacy networks around. */
  function OpMode(noHt: bool, ht20: bool, olbcHt: bool): (r: bv8)
    ensures r == 0 || r == 1 || r == 2 || r == 3
  {
    if noHt then 3 else if ht20 then 2 else if olbcHt then 1 else 0
  }

  /** All of the field that stations determine. */
  function HtBits(s: Stas, width: bool, olbcHt: bool): bv8 {
    (if Count(s, NoGf) > 0 then NON_GF_DEVS_PRESENT else 0)
    | (if Count(s, NoHt) > 0 || olbcHt then NON_HT_STA_PRESENT else 0)
    | OpMode(Count(s, NoHt) > 0, width && Count(s, Ht20) > 0, olbcHt)
  }

  const STATION_BITS: bv8 := 0x17

  function Merge(m: bv8, h: bv8): bv8 {
    (m & !STATION_BITS) | h
  }

  /** The field with its station bits replaced and every other bit kept. */
  function HtField(mode: bv8, s: Stas, width: bool, olbcHt: bool): bv8 {
    Merge(mode, HtBits(s, width, olbcHt))
  }

  /** What the field tells a receiver.  Bits 0 and 1: 3 with a non-HT station; else 2 when the AP
    * is 40 MHz wide and has a 20 MHz station; else 1 with legacy networks around; else 0.  Bit 2:
    * a station that is not greenfield.  Bit 4: non-HT stations, here or around. */
  predicate HtMeans(f: bv8, s: Stas, width: bool, olbcHt: bool) {
    var noHt, narrow := Count(s, NoHt) > 0, width && Count(s, Ht20) > 0;
    && (f & 0x3 == 3 <==> noHt)
    && (f & 0x3 == 2 <==> !noHt && narrow)
    && (f & 0x3 == 1 <==> !noHt && !narrow && olbcHt)
    && (f & 0x3 == 0 <==> !noHt && !narrow && !olbcHt)
    && (f & 0x4 != 0 <==> Count(s, NoGf) > 0)
    && (f & 0x10 != 0 <==> noHt || olbcHt)
  }

  /** The bits that stations do not determine. */
  predicate KeepsOthers(f: bv8, before: bv8) {
    f & 0xE8 == before & 0xE8
  }

  lemma HtFieldMeans(mode: bv8, s: Stas, width: bool, olbcHt: bool)
    ensures HtMeans(HtField(mode, s, width, olbcHt), s, width, olbcHt)
    ensures KeepsOthers(HtField(mode, s, width, olbcHt), mode)
  {
    hide Count;
  }

  lemma MergeForgets(m1: bv8, m2: bv8, h: bv8)
    requires m1 & !STATION_BITS == m2 & !STATION_BITS
    ensures Merge(m1, h) == Merge(m2, h)
  {
  }

  lemma MergeKeeps(m: bv8, h: bv8)
    requires h & !STATION_BITS == 0
    ensures Merge(m, h) & !STATION_BITS == m & !STATION_BITS
  {
  }

  /** The field forgets what its station bits were, keeps the others, and computing it again
    * changes nothing. */
  lemma HtFieldForgets(m1: bv8, m2: bv8, s: Stas, width: bool, olbcHt: bool)
    requires m1 & !STATION_BITS == m2 & !STATION_BITS
    ensures HtField(m1, s, width, olbcHt) == HtField(m2, s, width, olbcHt)
    ensures HtField(m1, s, width, olbcHt) & !STATION_BITS == m1 & !STATION_BITS
    ensures HtField(HtField(m1, s, width, olbcHt), s, width, olbcHt) == HtField(m1, s, width, olbcHt)
  {
    hide Merge, HtBits, Count;
    var h := HtBits(s, width, olbcHt);
    HtBitsAreStationBits(s, width, olbcHt);
    MergeForgets(m1, m2, h);
    MergeKeeps(m1, h);
    MergeForgets(Merge(m1, h), m1, h);
  }

  lemma HtBitsAreStationBits(s: Stas, width: bool, olbcHt: bool)
    ensures HtBits(s, width, olbcHt) & !STATION_BITS == 0
  {
    hide Count;
  }

  /* ---------- The access point ---------- */

  /** The number of non-ERP stations went from 0 to something or back. */
  predicate Crossed(before: Stas, after: Stas) {
    Count(before, NonErp) > 0 <==> Count(after, NonErp) == 0
  }

  /** What becomes of the ERP octet when the stations change.  It is rewritten only when the
    * number of non-ERP stations goes from 0 to something or back; both kinds of bits are then
    * right, the other bits are never touched. */
  predicate ErpStep(writable: bool, s0: Stas, erp0: bv8, s1: Stas, erp1: bv8) {
    if writable && Crossed(s0, s1) then
      && erp1 & !0x7 == erp0 & !0x7
      && erp1 & 0x3 == (if Count(s1, NonErp) > 0 then 0x3 else 0)
      && erp1 & 0x4 == if Count(s1, NoShortPreamble) > 0 then 0x4 else 0
    else erp1 == erp0
  }

  lemma ErpStepCounts(writable: bool, s0: Stas, s0': Stas, erp0: bv8, s1: Stas, s1': Stas, erp1: bv8)
    requires ErpStep(writable, s0, erp0, s1, erp1)
    requires Count(s0, NonErp) == Count(s0', NonErp) && Count(s1, NonErp) == Count(s1', NonErp)
    requires Count(s1, NoShortPreamble) == Count(s1', NoShortPreamble)
    ensures ErpStep(writable, s0', erp0, s1', erp1)
  {
  }

  lemma ErpStepOk(ap: AccessPoint, s0: Stas, erp0: bv8)
    requires ErpStep(ap.erpWritable, s0, erp0, ap.stas, ap.erp)
    requires ap.erpWritable ==> erp0 & 0x3 == if Count(s0, NonErp) > 0 then 0x3 else 0
    ensures ap.ErpOk() && ap.erp & !0x7 == erp0 & !0x7
  {
  }

  predicate BarkerBit(erp: bv8, s: Stas) {
    erp & 0x4 == if Count(s, NoShortPreamble) > 0 then 0x4 else 0
  }

  /** A right Barker bit is right after a step exactly when the step rewrites the octet or leaves
    * it open or settled whether there are stations without short preambles, as it was. */
  lemma BarkerStepIff(s0: Stas, erp0: bv8, s1: Stas, erp1: bv8)
    requires ErpStep(true, s0, erp0, s1, erp1) && BarkerBit(erp0, s0)
    ensures BarkerBit(erp1, s1) <==>
      Crossed(s0, s1) || (Count(s0, NoShortPreamble) > 0 <==> Count(s1, NoShortPreamble) > 0)
  {
    hide Count;
  }

  const NON_ERP_PRESENT: bv8 := 0x1
  const USE_PROTECTION: bv8 := 0x2
  const BARKER_PREAMBLE_MODE: bv8 := 0x4

  class AccessPoint {
    const ht: bool          // registrypriv.ht_enable, and the wireless mode supports HT
    const erpWritable: bool // bstart_bss, ERP_enable, and the beacon has an ERP element
    var htOption: bool
    var width: bool         // the AP's own HT capability has the 40 MHz width bit
    var olbcHt: bool
    var htOpMode: bv8       // the low octet of ht_op_mode; nothing writes the high one
    var erp: bv8            // the octet of the ERP element
    var ht20WidthReq: bool
    var htIntolerantChReported: bool
    var stas: Stas
    var live: set<nat>      // the entries in use
    var num: map<Flag, int>

    /** Each counter is the number of entries that carry its flag, freed ones among them. */
    ghost predicate Valid()
      reads this`stas, this`num
    {
      forall f :: f in num && num[f] == Count(stas, f)
    }

    /** Each counter is the number of stations that carry its flag. */
    ghost predicate Exact()
      reads this`stas, this`num, this`live
    {
      forall f :: f in num && num[f] == CountLive(stas, live, f)
    }

    /** The two protection bits say whether there is a non-ERP station. */
    predicate ErpOk()
      reads this`stas, this`erp
    {
      erpWritable ==> erp & 0x3 == if Count(stas, NonErp) > 0 then 0x3 else 0
    }

    /** The Barker preamble bit says whether there is a station without short preambles. */
    predicate BarkerOk()
      reads this`stas, this`erp
    {
      BarkerBit(erp, stas)
    }

    /** The HT operation mode is the function of the stations it is meant to be. */
    predicate HtOk()
      reads this`stas, this`htOption, this`width, this`olbcHt, this`htOpMode
    {
      ht && htOption ==> htOpMode == HtField(htOpMode, stas, width, olbcHt)
    }

    constructor (ht: bool, erpWritable: bool, erp: bv8)
      requires erp & 0x3 == 0
      ensures Valid() && ErpOk() && stas == map[] && live == {}
      ensures this.ht == ht && this.erpWritable == erpWritable && this.erp == erp
    {
      this.ht, this.erpWritable, this.erp := ht, erpWritable, erp;
      htOption, width, olbcHt, htOpMode := false, false, false, 0;
      ht20WidthReq, htIntolerantChReported := false, false;
      stas, live := map[], {};
      num := map[NoShortPreamble := 0, NonErp := 0, NoShortSlot := 0, NoHt := 0, NoGf := 0, Ht20 := 0, Intolerant40 := 0];
      new;
      NoneYet();
    }

    lemma NoneYet()
      requires stas == map[]
      requires num == map[NoShortPreamble := 0, NonErp := 0, NoShortSlot := 0, NoHt := 0, NoGf := 0, Ht20 := 0, Intolerant40 := 0]
      ensures Valid() && Count(stas, NonErp) == 0
    {
      forall f ensures f in num && num[f] == Count(stas, f) {
        assert Carriers(stas, f) == {};
        match f
        case NoShortPreamble => case NonErp => case NoShortSlot => case NoHt => case NoGf => case Ht20 => case Intolerant40 =>
      }
    }

    /** A flag that is not set is set, and counted. */
    method Raise(i: nat, f: Flag)
      requires Valid() && i in stas
      modifies this`stas, this`num
      ensures Valid() && stas == old(stas)[i := old(stas)[i] + {f}]
    {
      if f !in stas[i] {
        ghost var was := stas;
        stas := stas[i := stas[i] + {f}];
        num := num[f := num[f] + 1];
        forall g ensures g in num && num[g] == Count(stas, g) {
          CountUpdate(was, i, was[i] + {f}, g);
        }
      } else {
        assert stas[i] + {f} == stas[i];
      }
    }

    /** A flag that is set is cleared, and no longer counted; the counter was positive. */
    method Lower(i: nat, f: Flag)
      requires Valid() && i in stas
      modifies this`stas, this`num
      ensures Valid() && stas == old(stas)[i := old(stas)[i] - {f}]
    {
      if f in stas[i] {
        ghost var was := stas;
        assert num[f] > 0 by { CountPositive(stas, f); }
        stas := stas[i := stas[i] - {f}];
        num := num[f := num[f] - 1];
        forall g ensures g in num && num[g] == Count(stas, g) {
          CountUpdate(was, i, was[i] - {f}, g);
        }
      } else {
        assert stas[i] - {f} == stas[i];
      }
    }

    /** update_bcn_erpinfo_ie.  The bits are set only when there is exactly one station. */
    method UpdateErp()
      requires Valid()
      modifies this`erp
      ensures erp & !0x7 == old(erp) & !0x7
      ensures !erpWritable ==> erp == old(erp)
      ensures erpWritable ==>
        && erp & 0x3 == (if Count(stas, NonErp) == 1 then 0x3 else 0)
        && erp & 0x4 == if Count(stas, NoShortPreamble) > 0 then 0x4 else 0
    {
      if !erpWritable {
        return;
      }
      if num[NonErp] == 1 {
        erp := erp | (NON_ERP_PRESENT | USE_PROTECTION);
      } else {
        erp := erp & !(NON_ERP_PRESENT | USE_PROTECTION);
      }
      if num[NoShortPreamble] > 0 {
        erp := erp | BARKER_PREAMBLE_MODE;
      } else {
        erp := erp & !BARKER_PREAMBLE_MODE;
      }
    }

    /** rtw_ht_operation_update */
    method HtOperationUpdate() returns (changes: int)
      requires Valid()
      modifies this`htOpMode
      ensures htOpMode == if htOption then HtField(old(htOpMode), stas, width, olbcHt) else old(htOpMode)
      ensures htOption ==> HtMeans(htOpMode, stas, width, olbcHt) && KeepsOthers(htOpMode, old(htOpMode))
      ensures 0 <= changes && (changes == 0 <==> htOpMode == old(htOpMode))
    {
      hide Count, HtField, HtMeans, KeepsOthers, Valid;
      HtFieldMeans(htOpMode, stas, width, olbcHt);
      changes := UpdateGroups();
    }

    /** Its three tests. */
    method UpdateGroups() returns (changes: int)
      requires Valid()
      modifies this`htOpMode
      ensures htOpMode == if htOption then HtField(old(htOpMode), stas, width, olbcHt) else old(htOpMode)
      ensures 0 <= changes && (changes == 0 <==> htOpMode == old(htOpMode))
    {
      hide Count, SetGroup, OpMode, HtField;
      FieldIsGroups(htOpMode, stas, width, olbcHt);
      changes := 0;
      if !htOption {
        return;
      }
      var noGf, noHt, ht20 := num[NoGf] != 0, num[NoHt] != 0, width && num[Ht20] != 0;
      var m, n := SetFlagBit(htOpMode, NON_GF_DEVS_PRESENT, noGf);
      changes := changes + n;
      m, n := SetFlagBit(m, NON_HT_STA_PRESENT, noHt || olbcHt);
      changes := changes + n;
      m, n := SetMode(m, noHt, ht20, olbcHt);
      changes := changes + n;
      htOpMode := m;
    }

    /** update_beacon of the ERP element, when the number of non-ERP stations went from 0 to 1
      * or from 1 to 0. */
    method ErpTransition()
      requires Valid() && Count(stas, NonErp) <= 1
      modifies this`erp
      ensures ErpOk() && erp & !0x7 == old(erp) & !0x7
      ensures if erpWritable then BarkerOk() else erp == old(erp)
    {
      UpdateErp();
    }

    /** The branches of a join for a flag with no other effect. */
    method Follow(i: nat, f: Flag, on: bool)
      requires Valid() && i in stas
      modifies this`stas, this`num
      ensures Valid() && stas == old(stas)[i := Put(old(stas)[i], f, on)]
      ensures forall g :: g != f ==> Count(stas, g) == Count(old(stas), g)
    {
      OthersKept(i, f, on);
      if on { Raise(i, f); } else { Lower(i, f); }
    }

    /** The branches of a join for the non-ERP flag. */
    method FollowErp(i: nat, on: bool)
      requires Valid() && i in stas
      modifies this`stas, this`num, this`erp
      ensures Valid() && stas == old(stas)[i := Put(old(stas)[i], NonErp, on)]
      ensures ErpStep(erpWritable, old(stas), old(erp), stas, erp)
      ensures forall g :: g != NonErp ==> Count(stas, g) == Count(old(stas), g)
    {
      hide Count;
      var was := NonErp in stas[i];
      CountUpdate(stas, i, Put(stas[i], NonErp, on), NonErp);
      Follow(i, NonErp, on);
      if on != was && num[NonErp] == (if on then 1 else 0) {
        assert Crossed(old(stas), stas);
        ErpTransition();
      } else {
        assert !Crossed(old(stas), stas);
      }
    }

    /** The HT part of a join. */
    method JoinHt(i: nat, c: Caps)
      requires Valid() && i in stas
      modifies this`stas, this`num
      ensures Valid() && stas == old(stas)[i := HtJoinFlags(old(stas)[i], c)]
      ensures forall g :: g == NonErp || g == NoShortPreamble ==> Count(stas, g) == Count(old(stas), g)
    {
      hide Count;
      ghost var s := stas;
      if c.ht {
        Lower(i, NoHt);
        if !c.greenfield { Raise(i, NoGf); }
        if !c.width40 { Raise(i, Ht20); }
        if c.intolerant40 { Raise(i, Intolerant40); }
      } else {
        Raise(i, NoHt);
      }
      assert stas[i] == HtJoinFlags(s[i], c);
      CountUpdate(s, i, stas[i], NonErp);
      CountUpdate(s, i, stas[i], NoShortPreamble);
    }

    /** bss_cap_update_on_sta_join.  The Barker bit is only brought up to date when the number
      * of non-ERP stations goes from 0 to 1 or back. */
    method Join(i: nat, c: Caps)
      requires Valid() && i in stas
      modifies this`stas, this`num, this`erp, this`htOpMode
      ensures Valid() && stas == old(stas)[i := JoinFlags(old(stas)[i], c, ht)]
      ensures htOpMode == if ht && htOption then HtField(old(htOpMode), stas, width, olbcHt) else old(htOpMode)
      ensures ht && htOption ==> HtMeans(htOpMode, stas, width, olbcHt)
      ensures old(BarkerOk()) && erpWritable ==>
                (BarkerOk() <==>
                 Crossed(old(stas), stas) || (Count(old(stas), NoShortPreamble) > 0 <==> Count(stas, NoShortPreamble) > 0))
      ensures HtOk()
      ensures ErpStep(erpWritable, old(stas), old(erp), stas, erp)
    {
      hide Count, HtField, HtMeans, HtJoinFlags, RateJoinFlags, Valid, ErpStep, ErpOk, BarkerBit, Crossed;
      ghost var s0, erp0 := stas, erp;
      JoinRates(i, c);
      if ht {
        ghost var s1 := stas;
        JoinHt(i, c);
        ErpStepCounts(erpWritable, s0, s0, erp0, s1, stas, erp);
        HtFieldForgets(htOpMode, htOpMode, stas, width, olbcHt);
        var _ := HtOperationUpdate();
      }
      if erpWritable && BarkerBit(erp0, s0) { BarkerStepIff(s0, erp0, stas, erp); }
    }

    /** The part of a join for preamble, ERP and slot time. */
    method JoinRates(i: nat, c: Caps)
      requires Valid() && i in stas
      modifies this`stas, this`num, this`erp
      ensures Valid() && stas == old(stas)[i := RateJoinFlags(old(stas)[i], c)]
      ensures ErpStep(erpWritable, old(stas), old(erp), stas, erp)
    {
      hide Count, Valid, Put, ErpStep, ErpOk;
      ghost var s0, erp0 := stas, erp;
      Follow(i, NoShortPreamble, !c.shortPreamble);
      ghost var s1 := stas;
      FollowErp(i, c.nonErp);
      ghost var s2 := stas;
      Follow(i, NoShortSlot, !c.shortSlot);
      ErpStepCounts(erpWritable, s1, s0, erp0, s2, stas, erp);
    }

    /** A station entry is allocated, all flags clear. */
    method Allocate(i: nat)
      requires Valid() && i !in stas
      modifies this`stas, this`live
      ensures Valid() && stas == old(stas)[i := {}] && live == old(live) + {i}
      ensures forall f :: Count(stas, f) == Count(old(stas), f)
    {
      forall f ensures Carriers(stas[i := {}], f) == Carriers(stas, f) {
      }
      stas, live := stas[i := {}], live + {i};
    }

    /** An entry is freed.  Its flags are not looked at: ap_free_sta has had them cleared by a
      * leave, but the ageing of the authentication list has not. */
    method Free(i: nat)
      requires Valid() && i in live && live <= stas.Keys
      modifies this`live
      ensures Valid() && live == old(live) - {i}
      ensures old(Exact()) ==> (Exact() <==> stas[i] == {})
    {
      ghost var p := Pop(stas, live);
      if CountsRight(p) { FreeKeepsCountsIff(p, i); }
      live := live - {i};
    }

    /** rtw_process_public_act_bsscoex, for a frame with a body of len octets; body is what
      * stands in memory from there on, of which the driver reads five octets in any case. */
    method BssCoex(i: nat, body: seq<bv8>, len: nat)
      requires Valid() && live <= stas.Keys && BodyOk(body, len)
      modifies this`stas, this`num, this`ht20WidthReq, this`htIntolerantChReported
      ensures Valid()
      ensures i !in live ==>
        && stas == old(stas) && ht20WidthReq == old(ht20WidthReq)
        && htIntolerantChReported == old(htIntolerantChReported)
      ensures i in live ==>
        && stas == (if Intolerant(body, len) then old(stas)[i := old(stas)[i] + {Intolerant40}] else old(stas))
        && ht20WidthReq == (old(ht20WidthReq) || (!Intolerant(body, len) && CoexBit(body, len, 0x4)))
        && htIntolerantChReported == (old(htIntolerantChReported) || ChannelReport(body, len))
      ensures forall f :: f != Intolerant40 ==> Count(stas, f) == Count(old(stas), f)
    {
      if i !in live {
        return;
      }
      if len > 0 && body[2] == 72 && body[3] > 0 {
        if body[4] & 0x2 != 0 {
          assert stas[i] + {Intolerant40} == Put(stas[i], Intolerant40, true);
          Follow(i, Intolerant40, true);
        } else if body[4] & 0x4 != 0 {
          ht20WidthReq := true;
        }
      }
      if len > 8 && body[5] == 73 && body[6] > 0 {
        htIntolerantChReported := true;
      }
    }

    lemma OthersKept(i: nat, f: Flag, on: bool)
      requires i in stas
      ensures forall g :: g != f ==> Count(stas[i := Put(stas[i], f, on)], g) == Count(stas, g)
    {
      forall g | g != f ensures Count(stas[i := Put(stas[i], f, on)], g) == Count(stas, g) {
        CountUpdate(stas, i, Put(stas[i], f, on), g);
      }
    }

    /** bss_cap_update_on_sta_leave; the warning on a zero counter is never reached. */
    method Leave(i: nat)
      requires Valid() && i in stas
      modifies this`stas, this`num, this`erp, this`htOpMode
      ensures Valid() && stas == old(stas)[i := {}]
      ensures htOpMode == if htOption then HtField(old(htOpMode), stas, width, olbcHt) else old(htOpMode)
      ensures htOption ==> HtMeans(htOpMode, stas, width, olbcHt)
      ensures old(BarkerOk()) && erpWritable ==>
                (BarkerOk() <==>
                 Crossed(old(stas), stas) || (Count(old(stas), NoShortPreamble) > 0 <==> Count(stas, NoShortPreamble) > 0))
      ensures HtOk()
      ensures ErpStep(erpWritable, old(stas), old(erp), stas, erp)
    {
      hide Count, HtField, HtMeans, Valid, ErpStep, ErpOk, BarkerBit, Crossed;
      ghost var s0, erp0 := stas, erp;
      LeaveFlags(i);
      HtFieldForgets(htOpMode, htOpMode, stas, width, olbcHt);
      if erpWritable && BarkerBit(erp0, s0) { BarkerStepIff(s0, erp0, stas, erp); }
      var _ := HtOperationUpdate();
    }

    /** All flags of a station that leaves. */
    method LeaveFlags(i: nat)
      requires Valid() && i in stas
      modifies this`stas, this`num, this`erp
      ensures Valid() && stas == old(stas)[i := {}]
      ensures ErpStep(erpWritable, old(stas), old(erp), stas, erp)
    {
      hide Count, Valid, ErpStep, ErpOk;
      ghost var s0, erp0 := stas, erp;
      Follow(i, NoShortPreamble, false);
      ghost var s1 := stas;
      FollowErp(i, false);
      ghost var s2 := stas;
      Follow(i, NoShortSlot, false);
      LeaveHt(i);
      ErpStepCounts(erpWritable, s1, s0, erp0, s2, stas, erp);
      AllFlags(stas[i]);
    }

    /** The HT part of a leave. */
    method LeaveHt(i: nat)
      requires Valid() && i in stas
      modifies this`stas, this`num
      ensures Valid() && stas == old(stas)[i := old(stas)[i] - {NoGf, NoHt, Ht20, Intolerant40}]
      ensures forall g :: g == NonErp || g == NoShortPreamble ==> Count(stas, g) == Count(old(stas), g)
    {
      hide Count;
      ghost var s := stas;
      Lower(i, NoGf);
      Lower(i, NoHt);
      Lower(i, Ht20);
      if Intolerant40 in stas[i] {
        if num[Intolerant40] > 0 {
          Lower(i, Intolerant40);
        } else {
          assert false by { CountPositive(stas, Intolerant40); }   // rtw_warn_on(1)
        }
      }
      assert stas[i] == s[i] - {NoGf, NoHt, Ht20, Intolerant40};
      CountUpdate(s, i, stas[i], NonErp);
      CountUpdate(s, i, stas[i], NoShortPreamble);
    }

    /** One of the two tests on a single bit of the field. */
    static method SetFlagBit(m: bv8, bit: bv8, want: bool) returns (r: bv8, changes: int)
      requires bit == NON_GF_DEVS_PRESENT || bit == NON_HT_STA_PRESENT
      ensures r == SetGroup(m, bit, if want then bit else 0)
      ensures changes == if r == m then 0 else 1
    {
      r, changes := m, 0;
      if m & bit == 0 && want {
        r, changes := m | bit, 1;
      } else if m & bit != 0 && !want {
        r, changes := m & !bit, 1;
      }
    }

    /** The two mode bits. */
    static method SetMode(m: bv8, noHt: bool, ht20: bool, olbc: bool) returns (r: bv8, changes: int)
      ensures r == SetGroup(m, OP_MODE_MASK, OpMode(noHt, ht20, olbc))
      ensures changes == if r == m then 0 else 1
    {
      r, changes := m, 0;
      var newMode: bv8 := 0;
      if noHt {
        newMode := 3;
      } else if ht20 {
        newMode := 2;
      } else if olbc {
        newMode := 1;
      }
      ModeBits(m, newMode);
      if m & OP_MODE_MASK != newMode {
        r := m & !OP_MODE_MASK;
        r := r | newMode;
        changes := 1;
      }
    }
  }

  predicate BodyOk(body: seq<bv8>, len: nat) {
    |body| >= 5 && len <= |body|
  }

  /** A bit of the 20/40 BSS coexistence element of a public action frame. */
  predicate CoexBit(body: seq<bv8>, len: nat, bit: bv8)
    requires BodyOk(body, len)
  {
    len > 0 && body[2] == 72 && body[3] > 0 && body[4] & bit != 0
  }

  predicate Intolerant(body: seq<bv8>, len: nat)
    requires BodyOk(body, len)
  {
    CoexBit(body, len, 0x2)
  }

  predicate ChannelReport(body: seq<bv8>, len: nat)
    requires BodyOk(body, len)
  {
    len > 8 && body[5] == 73 && body[6] > 0
  }

  /** Public action frames (category 4, action 0) with a coexistence element: 40 MHz intolerant;
    * a request for 20 MHz width; and one with a channel report behind it. */
  lemma CoexFrames()
    ensures Intolerant([4, 0, 72, 1, 0x02], 5) && !CoexBit([4, 0, 72, 1, 0x02], 5, 0x4)
    ensures !Intolerant([4, 0, 72, 1, 0x04], 5) && CoexBit([4, 0, 72, 1, 0x04], 5, 0x4)
    ensures !ChannelReport([4, 0, 72, 1, 0x04], 5) && ChannelReport([4, 0, 72, 1, 0, 73, 2, 81, 1], 9)
    ensures !Intolerant([4, 0, 72, 0, 0x02], 5) && !Intolerant([4, 0, 73, 1, 0x02], 5)
  {
    var a: seq<bv8>, b: seq<bv8> := [4, 0, 72, 1, 0x02], [4, 0, 72, 1, 0x04];
    assert a[4] & 0x2 != 0 && a[4] & 0x4 == 0 && b[4] & 0x4 != 0 && b[4] & 0x2 == 0;
  }

  /* ---------- Runs ---------- */

  /** Gone: an entry is freed as it is, by whatever part of the driver. */
  datatype Event =
    | Arrive(i: nat)
    | Joined(i: nat, caps: Caps)
    | Left(i: nat)
    | Gone(i: nat)
    | Coex(i: nat, body: seq<bv8>, len: nat)

  /** All entries, and those in use. */
  datatype Pop = Pop(stas: Stas, live: set<nat>)

  predicate Possible(p: Pop, e: Event) {
    p.live <= p.stas.Keys &&
    match e
    case Arrive(i) => i !in p.stas
    case Joined(i, _) => i in p.live
    case Left(i) => i in p.live
    case Gone(i) => i in p.live
    case Coex(i, body, len) => BodyOk(body, len)
  }

  function After(p: Pop, e: Event, ht: bool): Pop
    requires Possible(p, e)
  {
    match e
    case Arrive(i) => Pop(p.stas[i := {}], p.live + {i})
    case Joined(i, c) => p.(stas := p.stas[i := JoinFlags(p.stas[i], c, ht)])
    case Left(i) => p.(stas := p.stas[i := {}])
    case Gone(i) => p.(live := p.live - {i})
    case Coex(i, body, len) =>
      if i in p.live && Intolerant(body, len) then p.(stas := p.stas[i := p.stas[i] + {Intolerant40}]) else p
  }

  predicate PossibleRun(p: Pop, es: seq<Event>, ht: bool)
    decreases |es|
  {
    es == [] || (Possible(p, es[0]) && PossibleRun(After(p, es[0], ht), es[1..], ht))
  }

  function AfterRun(p: Pop, es: seq<Event>, ht: bool): Pop
    requires PossibleRun(p, es, ht)
    decreases |es|
  {
    if es == [] then p else AfterRun(After(p, es[0], ht), es[1..], ht)
  }

  /** The capabilities of the station's last association since it arrived or left. */
  function Said(es: seq<Event>, i: nat, before: Option<Caps>): Option<Caps>
    decreases |es|
  {
    if es == [] then before else Said(es[1..], i, SaidNow(es[0], i, before))
  }

  function SaidNow(e: Event, i: nat, before: Option<Caps>): Option<Caps> {
    match e
    case Arrive(j) => if j == i then None else before
    case Left(j) => if j == i then None else before
    case Joined(j, c) => if j == i then Some(c) else before
    case _ => before
  }

  /** The flags are those of a station that said this. */
  predicate SaysSo(fs: Flags, said: Option<Caps>, ht: bool) {
    && (NoShortPreamble in fs <==> said.Some? && !said.value.shortPreamble)
    && (NonErp in fs <==> said.Some? && said.value.nonErp)
    && (NoShortSlot in fs <==> said.Some? && !said.value.shortSlot)
    && (NoHt in fs <==> said.Some? && ht && !said.value.ht)
  }

  /** After every run the flags for preamble, ERP, slot time and HT of every station, and so their
    * counts, are those of its last association. */
  lemma {:induction false} FlagsAreLastSaid(p: Pop, es: seq<Event>, ht: bool, i: nat, before: Option<Caps>)
    requires PossibleRun(p, es, ht) && i in p.stas && SaysSo(p.stas[i], before, ht)
    ensures var q := AfterRun(p, es, ht); i in q.stas && SaysSo(q.stas[i], Said(es, i, before), ht)
    decreases |es|
  {
    hide JoinFlags, Intolerant;
    if es != [] {
      if es[0].Joined? && es[0].i in p.stas { JoinFlagsMean(p.stas[es[0].i], es[0].caps, ht); }
      FlagsAreLastSaid(After(p, es[0], ht), es[1..], ht, i, SaidNow(es[0], i, before));
    }
  }

  /** No entry is freed in this run while it carries a flag. */
  predicate CleanRun(p: Pop, es: seq<Event>, ht: bool)
    requires PossibleRun(p, es, ht)
    decreases |es|
  {
    es == [] || ((es[0].Gone? ==> p.stas[es[0].i] == {}) && CleanRun(After(p, es[0], ht), es[1..], ht))
  }

  /** Counting all entries counts the stations. */
  ghost predicate CountsRight(p: Pop) {
    forall f :: Count(p.stas, f) == CountLive(p.stas, p.live, f)
  }

  predicate Clean(p: Pop) {
    forall i :: i in p.stas && i !in p.live ==> p.stas[i] == {}
  }

  lemma CleanCounts(p: Pop)
    ensures CountsRight(p) <==> Clean(p)
  {
    hide Count, CountLive;
    CountersExactIff(p.stas, p.live);
  }

  /** Freeing an entry without a leave keeps every counter right exactly when the station
    * carried no flag. */
  lemma FreeKeepsCountsIff(p: Pop, i: nat)
    requires i in p.live && i in p.stas && CountsRight(p)
    ensures CountsRight(p.(live := p.live - {i})) <==> p.stas[i] == {}
  {
    hide CountsRight;
    CleanCounts(p);
    CleanCounts(p.(live := p.live - {i}));
  }

  /** What was written into an entry before it was freed stays there. */
  lemma {:induction false} FreedForEver(p: Pop, es: seq<Event>, ht: bool, i: nat)
    requires PossibleRun(p, es, ht) && i in p.stas && i !in p.live
    ensures var q := AfterRun(p, es, ht); i in q.stas && i !in q.live && q.stas[i] == p.stas[i]
    decreases |es|
  {
    if es != [] {
      FreedForEver(After(p, es[0], ht), es[1..], ht, i);
    }
  }

  lemma StaysClean(p: Pop, e: Event, ht: bool)
    requires Possible(p, e) && Clean(p) && (e.Gone? ==> p.stas[e.i] == {})
    ensures Clean(After(p, e, ht))
  {
    hide JoinFlags, Intolerant;
  }

  lemma GoneStays(p: Pop, e: Event, ht: bool)
    requires Possible(p, e) && e.Gone?
    ensures e.i in p.live && e.i in p.stas
    ensures var q := After(p, e, ht); e.i in q.stas && e.i !in q.live && q.stas[e.i] == p.stas[e.i]
  {
  }

  /** After a run the counters tell the number of stations exactly when no entry was freed in it
    * while it carried a flag. */
  lemma {:induction false} CleanRunIff(p: Pop, es: seq<Event>, ht: bool)
    requires PossibleRun(p, es, ht) && Clean(p)
    ensures CountsRight(AfterRun(p, es, ht)) <==> CleanRun(p, es, ht)
    decreases |es|
  {
    hide After, Possible, CountsRight;
    if es == [] {
      CleanCounts(p);
    } else {
      var q := After(p, es[0], ht);
      if es[0].Gone? { GoneStays(p, es[0], ht); }
      if es[0].Gone? && p.stas[es[0].i] != {} {
        FreedForEver(q, es[1..], ht, es[0].i);
        CleanCounts(AfterRun(p, es, ht));
      } else {
        StaysClean(p, es[0], ht);
        CleanRunIff(q, es[1..], ht);
      }
    }
  }

  /** The stations as they were when a run last rewrote the ERP octet; w, if it did not. */
  function Written(w: Stas, p: Pop, es: seq<Event>, ht: bool): Stas
    requires PossibleRun(p, es, ht)
    decreases |es|
  {
    if es == [] then w
    else
      var q := After(p, es[0], ht);
      Written(if Crossed(p.stas, q.stas) then q.stas else w, q, es[1..], ht)
  }

  /** Events that leave the three counters of the HT field alone leave a right field right. */
  lemma HtOkKept(mode: bv8, s: Stas, t: Stas, width: bool, olbcHt: bool)
    requires forall f :: f == NoHt || f == NoGf || f == Ht20 ==> Count(s, f) == Count(t, f)
    ensures HtField(mode, s, width, olbcHt) == HtField(mode, t, width, olbcHt)
  {
    hide Count, Merge;
  }

  /** Over every run of arrivals, joins, joins again, leaves, coexistence frames and entries
    * freed in any state: each counter is the number of entries carrying its flag, the
    * protection bits tell whether there is such a non-ERP entry, the HT operation mode is its
    * function of them, bits 3 to 7 of the ERP octet never change, and the Barker bit tells
    * whether there was a station without short preambles when the octet was last rewritten. */
  method Replay(ap: AccessPoint, es: seq<Event>, ghost w: Stas)
    requires ap.Valid() && ap.ErpOk() && ap.HtOk() && PossibleRun(Pop(ap.stas, ap.live), es, ap.ht)
    modifies ap
    ensures ap.Valid() && ap.ErpOk() && ap.HtOk()
    ensures Pop(ap.stas, ap.live) == AfterRun(old(Pop(ap.stas, ap.live)), es, ap.ht)
    ensures ap.erp & !0x7 == old(ap.erp) & !0x7
    ensures ap.ht && ap.htOption ==> HtMeans(ap.htOpMode, ap.stas, ap.width, ap.olbcHt)
    ensures ap.erpWritable && old(BarkerBit(ap.erp, w)) ==>
              BarkerBit(ap.erp, Written(w, old(Pop(ap.stas, ap.live)), es, ap.ht))
    decreases |es|
  {
    hide Count, JoinFlags, After, Possible, HtField, HtMeans, BarkerBit, Crossed;
    if es == [] {
      HtFieldMeans(ap.htOpMode, ap.stas, ap.width, ap.olbcHt);
      return;
    }
    ghost var s0 := ap.stas;
    ApplyEvent(ap, es[0], w);
    Replay(ap, es[1..], if Crossed(s0, ap.stas) then ap.stas else w);
  }

  method ApplyEvent(ap: AccessPoint, e: Event, ghost w: Stas)
    requires ap.Valid() && ap.ErpOk() && ap.HtOk() && Possible(Pop(ap.stas, ap.live), e)
    modifies ap
    ensures ap.Valid() && ap.ErpOk() && ap.HtOk()
    ensures Pop(ap.stas, ap.live) == After(old(Pop(ap.stas, ap.live)), e, ap.ht)
    ensures ap.erp & !0x7 == old(ap.erp) & !0x7
    ensures ap.erpWritable && old(BarkerBit(ap.erp, w)) ==>
              BarkerBit(ap.erp, if Crossed(old(ap.stas), ap.stas) then ap.stas else w)
  {
    hide Count, JoinFlags, ErpStep, HtField, CoexBit, BarkerBit, Crossed;
    ghost var s0, erp0 := ap.stas, ap.erp;
    if e.Joined? {
      ap.Join(e.i, e.caps);
      ErpStepOk(ap, s0, erp0);
      BarkerWritten(ap.erpWritable, s0, erp0, ap.stas, ap.erp, w);
    } else if e.Left? {
      ap.Leave(e.i);
      ErpStepOk(ap, s0, erp0);
      BarkerWritten(ap.erpWritable, s0, erp0, ap.stas, ap.erp, w);
    } else {
      ApplyQuiet(ap, e);
      NotCrossed(s0, ap.stas);
    }
  }

  /** The events that write neither the ERP octet nor the HT field. */
  method ApplyQuiet(ap: AccessPoint, e: Event)
    requires ap.Valid() && ap.ErpOk() && ap.HtOk() && Possible(Pop(ap.stas, ap.live), e) && !e.Joined? && !e.Left?
    modifies ap
    ensures ap.Valid() && ap.ErpOk() && ap.HtOk() && ap.erp == old(ap.erp)
    ensures Pop(ap.stas, ap.live) == After(old(Pop(ap.stas, ap.live)), e, ap.ht)
    ensures Count(ap.stas, NonErp) == Count(old(ap.stas), NonErp)
  {
    hide Count, HtField, CoexBit;
    ghost var s0, mode := ap.stas, ap.htOpMode;
    match e {
      case Arrive(i) =>
        ap.Allocate(i);
        HtOkKept(mode, s0, ap.stas, ap.width, ap.olbcHt);
      case Gone(i) =>
        ap.Free(i);
      case Coex(i, body, len) =>
        ap.BssCoex(i, body, len);
        HtOkKept(mode, s0, ap.stas, ap.width, ap.olbcHt);
    }
  }

  lemma NotCrossed(s: Stas, t: Stas)
    requires Count(s, NonErp) == Count(t, NonErp)
    ensures !Crossed(s, t)
  {
    hide Count;
  }

  lemma BarkerWritten(writable: bool, s0: Stas, erp0: bv8, s1: Stas, erp1: bv8, w: Stas)
    requires ErpStep(writable, s0, erp0, s1, erp1)
    ensures writable && BarkerBit(erp0, w) ==> BarkerBit(erp1, if Crossed(s0, s1) then s1 else w)
  {
    hide Count;
  }

  /** What a run from a clean, right state leaves: the counters tell the number of stations
    * exactly when no entry was freed with a flag, and the Barker bit is right exactly when the
    * last rewriting of the octet and the end of the run agree on whether there are stations
    * without short preambles. */
  method ReplayFromRight(ap: AccessPoint, es: seq<Event>)
    requires ap.Valid() && ap.ErpOk() && ap.HtOk() && PossibleRun(Pop(ap.stas, ap.live), es, ap.ht)
    requires Clean(Pop(ap.stas, ap.live)) && ap.BarkerOk()
    modifies ap
    ensures ap.Exact() <==> CleanRun(old(Pop(ap.stas, ap.live)), es, ap.ht)
    ensures ap.erpWritable ==>
              (ap.BarkerOk() <==>
               (Count(Written(old(ap.stas), old(Pop(ap.stas, ap.live)), es, ap.ht), NoShortPreamble) > 0
                <==> Count(ap.stas, NoShortPreamble) > 0))
  {
    hide Count, CountLive, JoinFlags, After, Possible, HtField, Written, AfterRun, CleanRun, PossibleRun, Clean;
    ghost var p := Pop(ap.stas, ap.live);
    CleanRunIff(p, es, ap.ht);
    Replay(ap, es, ap.stas);
  }

  /** The protection bits say whether there is a non-ERP station exactly when there is one, or
    * none was freed as such. */
  lemma ProtectionRightIff(ap: AccessPoint)
    requires ap.ErpOk() && ap.erpWritable
    ensures ap.erp & 0x3 == (if CountLive(ap.stas, ap.live, NonErp) > 0 then 0x3 else 0) <==>
            CountLive(ap.stas, ap.live, NonErp) > 0 || !Stale(ap.stas, ap.live, NonErp)
  {
    hide Count, CountLive, Stale;
    CountLiveIff(ap.stas, ap.live, NonErp);
  }

  /** A non-ERP station that was freed as such keeps the protection bits set in every run. */
  method StaleProtects(ap: AccessPoint, es: seq<Event>, i: nat)
    requires ap.Valid() && ap.ErpOk() && ap.HtOk() && PossibleRun(Pop(ap.stas, ap.live), es, ap.ht) && ap.erpWritable
    requires i in ap.stas && i !in ap.live && NonErp in ap.stas[i]
    modifies ap
    ensures ap.Valid() && ap.erp & 0x3 == 0x3 && ap.num[NonErp] > CountLive(ap.stas, ap.live, NonErp)
  {
    hide Count, CountLive, JoinFlags, After, Possible, HtField, AfterRun, PossibleRun, Written;
    FreedForEver(Pop(ap.stas, ap.live), es, ap.ht, i);
    Replay(ap, es, ap.stas);
    CountPositive(ap.stas, NonErp);
    CountLiveIff(ap.stas, ap.live, NonErp);
  }

  /** One non-ERP station joins and its entry is freed by the ageing of the authentication list:
    * the counter says 1 and the protection bits are set, with no station left. */
  method LostStation() returns (ap: AccessPoint)
    ensures ap.Valid() && ap.erpWritable && ap.live == {} && ap.num[NonErp] == 1 && ap.erp & 0x3 == 0x3
    ensures ap.stas == map[1 := {NonErp}]
  {
    hide Count;
    ap := new AccessPoint(false, true, 0);
    ap.Allocate(1);
    assert ap.stas == map[1 := {}];
    OneStation({});
    ap.Join(1, Caps(true, true, true, true, true, true, false));
    assert JoinFlags({}, Caps(true, true, true, true, true, true, false), false) == {NonErp};
    assert ap.stas == map[1 := {NonErp}];
    OneStation({NonErp});
    ap.Free(1);
  }

  /** The Barker bit, unlike the protection bits, can be wrong: an ERP station without short
    * preambles joins, and the octet is not rewritten. */
  method BarkerCanLag() returns (ap: AccessPoint)
    ensures ap.Valid() && ap.erpWritable && Count(ap.stas, NoShortPreamble) == 1
    ensures ap.erp & BARKER_PREAMBLE_MODE == 0
  {
    hide Count;
    ap := new AccessPoint(true, true, 0);
    ap.Allocate(1);
    assert ap.stas == map[1 := {}];
    var c := Caps(false, false, true, true, true, true, false);
    OneStation({});
    ap.Join(1, c);
    assert JoinFlags({}, c, true) == {NoShortPreamble};
    assert ap.stas == map[1 := {NoShortPreamble}];
    OneStation({NoShortPreamble});
  }

  lemma OneStation(fs: Flags)
    ensures forall f :: Count(map[1 := fs], f) == if f in fs then 1 else 0
  {
    forall f ensures Count(map[1 := fs], f) == if f in fs then 1 else 0 {
      assert Carriers(map[1 := fs], f) == if f in fs then {1} else {};
    }
  }

  lemma AllFlags(fs: Flags)
    requires NoShortPreamble !in fs && NonErp !in fs && NoShortSlot !in fs
    requires NoGf !in fs && NoHt !in fs && Ht20 !in fs && Intolerant40 !in fs
    ensures fs == {}
  {
    forall f ensures f !in fs {
      match f
      case NoShortPreamble => case NonErp => case NoShortSlot => case NoHt => case NoGf => case Ht20 => case Intolerant40 =>
    }
  }

  /** m with the bits under the mask replaced. */
  function SetGroup(m: bv8, mask: bv8, bits: bv8): bv8 {
    (m & !mask) | bits
  }

  lemma ModeBits(m: bv8, n: bv8)
    requires n == 0 || n == 1 || n == 2 || n == 3
    ensures SetGroup(m, OP_MODE_MASK, n) == m <==> m & OP_MODE_MASK == n
  {
  }

  /** Setting three disjoint groups of bits one after the other sets them all, and nothing
    * changes in the end only if no group changed. */
  lemma Compose(m0: bv8, gf: bool, noHt: bool, mode: bv8)
    requires mode == 0 || mode == 1 || mode == 2 || mode == 3
    ensures var m1 := SetGroup(m0, NON_GF_DEVS_PRESENT, if gf then NON_GF_DEVS_PRESENT else 0);
      var m2 := SetGroup(m1, NON_HT_STA_PRESENT, if noHt then NON_HT_STA_PRESENT else 0);
      var m3 := SetGroup(m2, OP_MODE_MASK, mode);
      && m3 == Merge(m0, (if gf then NON_GF_DEVS_PRESENT else 0) | (if noHt then NON_HT_STA_PRESENT else 0) | mode)
      && (m3 == m0 ==> m1 == m0 && m2 == m1)
  {
  }

  /** The three groups of the field, one after the other. */
  lemma FieldIsGroups(m0: bv8, s: Stas, width: bool, olbcHt: bool)
    ensures var noGf, noHt := Count(s, NoGf) > 0, Count(s, NoHt) > 0;
      var m1 := SetGroup(m0, NON_GF_DEVS_PRESENT, if noGf then NON_GF_DEVS_PRESENT else 0);
      var m2 := SetGroup(m1, NON_HT_STA_PRESENT, if noHt || olbcHt then NON_HT_STA_PRESENT else 0);
      var m3 := SetGroup(m2, OP_MODE_MASK, OpMode(noHt, width && Count(s, Ht20) > 0, olbcHt));
      && m3 == HtField(m0, s, width, olbcHt) && (m3 == m0 ==> m1 == m0 && m2 == m1)
  {
    hide Count, SetGroup, Merge, OpMode;
    var noHt := Count(s, NoHt) > 0;
    Compose(m0, Count(s, NoGf) > 0, noHt || olbcHt, OpMode(noHt, width && Count(s, Ht20) > 0, olbcHt));
  }
}
