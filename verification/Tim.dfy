/** The traffic indication map element (core/rtw_ap.c, rtw_set_tim_ie) and its meaning by
  * section 9.4.2.6 of IEEE 802.11-2016. */
module Tim {
  import opened Bytes
  import opened Wrappers

  const WLAN_EID_TIM: Byte := 5

  type Bitmap = b: seq<Byte> | 1 <= |b| <= 255 witness [0]

  /* ---------- Bits ---------- */

  function Weight(k: nat): (p: nat)
    requires k < 8
    ensures 1 <= p <= 128
  {
    if k == 0 then 1 else if k == 1 then 2 else if k == 2 then 4 else if k == 3 then 8
    else if k == 4 then 16 else if k == 5 then 32 else if k == 6 then 64 else 128
  }

  predicate BitOf(b: Byte, k: nat)
    requires k < 8
  {
    b / Weight(k) % 2 == 1
  }

  /** rtw_bmp_is_set: the bit of an association ID, false outside the bitmap. */
  predicate AidSet(bmp: seq<Byte>, aid: nat) {
    aid / 8 < |bmp| && BitOf(bmp[aid / 8], aid % 8)
  }

  /* ---------- What the element says ---------- */

  /** The element taken apart.  control is the Bitmap Control field: its bit 0 is the group
    * traffic indicator, its other bits are half the number of the first octet carried. */
  datatype Element = Element(count: Byte, period: Byte, control: Byte, partial: seq<Byte>)

  function Parse(e: seq<Byte>): Option<Element> {
    if |e| >= 6 && e[0] == WLAN_EID_TIM && |e| - 2 == e[1]
    then Some(Element(e[2], e[3], e[4], e[5..])) else None
  }

  /** Octet i of the traffic indication virtual bitmap; octets not carried are 0. */
  function Octet(e: Element, i: nat): Byte {
    var first := e.control / 2 * 2;
    if first <= i < first + |e.partial| then e.partial[i - first] else 0
  }

  predicate GroupTraffic(e: Element) {
    e.control % 2 == 1
  }

  /** Traffic for the station with this association ID.  ID 0 stands for group traffic. */
  predicate Buffered(e: Element, aid: nat) {
    if aid == 0 then GroupTraffic(e) else BitOf(Octet(e, aid / 8), aid % 8)
  }

  /** The element says of every association ID what the bitmap says. */
  ghost predicate Lossless(bmp: seq<Byte>, e: Element) {
    forall aid: nat :: Buffered(e, aid) <==> AidSet(bmp, aid)
  }

  /* ---------- The encoder ---------- */

  /** The first non-zero octet, or the length. */
  function FirstNonZero(bmp: seq<Byte>): (i: nat)
    ensures i <= |bmp| && (i < |bmp| ==> bmp[i] != 0)
    ensures forall j :: 0 <= j < i ==> bmp[j] == 0
  {
    if bmp == [] then 0 else if bmp[0] != 0 then 0 else 1 + FirstNonZero(bmp[1..])
  }

  /** The last non-zero octet other than octet 0, or 0. */
  function LastNonZero(bmp: seq<Byte>): (i: nat)
    requires |bmp| >= 1
    ensures i < |bmp| && (i > 0 ==> bmp[i] != 0)
    ensures forall j :: i < j < |bmp| ==> bmp[j] == 0
    decreases |bmp|
  {
    if |bmp| == 1 || bmp[|bmp| - 1] != 0 then |bmp| - 1 else LastNonZero(bmp[..|bmp| - 1])
  }

  /** Number of the first octet carried (n1) and octets carried (bmp_len). */
  function Range(bmp: Bitmap): (r: (nat, nat))
    ensures r.0 + r.1 <= |bmp| && r.1 >= 1 && r.0 % 2 == 0
    ensures forall j :: 0 <= j < |bmp| && !(r.0 <= j < r.0 + r.1) ==> bmp[j] == 0
  {
    var first := FirstNonZero(bmp);
    if first == |bmp| then (0, 1)
    else
      var n1 := first - first % 2;                 // i & 0xFE
      (n1, LastNonZero(bmp) - n1 + 1)
  }

  /** The element written for a bitmap, as a value. */
  function TimOf(count: Byte, period: Byte, bmp: Bitmap): Element {
    var (n1, n) := Range(bmp);
    Element(count, period, n1 + bmp[0] % 2, bmp[n1..n1 + n])   // (bit 0 ? BIT0 : 0) | n1
  }

  /** The octets written; the length field and the value returned are kept in 8 bits. */
  function TimBytes(count: Byte, period: Byte, bmp: Bitmap): (r: seq<Byte>)
    ensures |r| == 5 + Range(bmp).1
    ensures |r| <= 257 ==> Parse(r) == Some(TimOf(count, period, bmp))
  {
    var e := TimOf(count, period, bmp);
    [WLAN_EID_TIM, (3 + |e.partial|) % 0x100, count, period, e.control] + e.partial
  }

  function Returned(bmp: Bitmap): Byte {
    (5 + Range(bmp).1) % 0x100
  }

  /** The value returned is the number of octets written exactly up to 250 bitmap octets; the
    * element itself is well formed up to 252. */
  lemma ReturnedIsLengthIff(count: Byte, period: Byte, bmp: Bitmap)
    ensures Returned(bmp) == |TimBytes(count, period, bmp)| <==> Range(bmp).1 <= 250
    ensures Parse(TimBytes(count, period, bmp)).Some? <==> Range(bmp).1 <= 252
  {
    var r, n := TimBytes(count, period, bmp), Range(bmp).1;
    if n > 252 {
      assert r[1] == 3 + n - 0x100;
    }
  }

  /** The two scans for the stretch that is carried. */
  method ScanRange(bmp: Bitmap) returns (n1: nat, n: nat)
    ensures (n1, n) == Range(bmp)
  {
    var i := 0;
    while i < |bmp| && bmp[i] == 0
      invariant 0 <= i <= |bmp| && forall j :: 0 <= j < i ==> bmp[j] == 0
    {
      i := i + 1;
    }
    if i == |bmp| {
      return 0, 1;
    }
    assert i == FirstNonZero(bmp);
    n1 := i - i % 2;
    i := |bmp| - 1;
    while i > 0 && bmp[i] == 0
      invariant 0 <= i < |bmp| && forall j :: i < j < |bmp| ==> bmp[j] == 0
    {
      i := i - 1;
    }
    assert i == LastNonZero(bmp);
    n := i - n1 + 1;
  }

  /** rtw_set_tim_ie, writing at position at of a buffer. */
  method SetTimIe(count: Byte, period: Byte, bmp: Bitmap, buf: array<Byte>, at: nat) returns (ret: Byte)
    requires at + 5 + Range(bmp).1 <= buf.Length
    modifies buf
    ensures buf[..] == Store(old(buf[..]), at, TimBytes(count, period, bmp))
    ensures ret == Returned(bmp)
  {
    hide Range;
    var n1, n := ScanRange(bmp);
    var out := [WLAN_EID_TIM, (3 + n) % 0x100, count, period, n1 + bmp[0] % 2] + bmp[n1..n1 + n];
    assert out == TimBytes(count, period, bmp);
    forall k | 0 <= k < |out| { buf[at + k] := out[k]; }
    ret := (5 + n) % 0x100;
  }

  /** Every association ID's bit, the group bit among them, is read back from the element. */
  lemma TimIsLossless(count: Byte, period: Byte, bmp: Bitmap)
    ensures Lossless(bmp, TimOf(count, period, bmp))
  {
    var e := TimOf(count, period, bmp);
    var (n1, n) := Range(bmp);
    assert e.control / 2 * 2 == n1;
    forall aid: nat ensures Buffered(e, aid) <==> AidSet(bmp, aid) {
      if aid > 0 && aid / 8 < |bmp| {
        assert Octet(e, aid / 8) == bmp[aid / 8];
      }
    }
  }

  /** Some bit of a non-zero octet is set. */
  lemma SomeBit(b: Byte) returns (k: nat)
    requires b != 0
    ensures k < 8 && BitOf(b, k)
  {
    k := if b % 2 == 1 then 0 else if b / 2 % 2 == 1 then 1 else if b / 4 % 2 == 1 then 2
         else if b / 8 % 2 == 1 then 3 else if b / 16 % 2 == 1 then 4 else if b / 32 % 2 == 1 then 5
         else if b / 64 % 2 == 1 then 6 else 7;
  }

  /** Any lossless element carries every octet but octet 0 that is not zero. */
  lemma MustCarry(bmp: Bitmap, e: Element, i: nat)
    requires Lossless(bmp, e) && 0 < i < |bmp| && bmp[i] != 0
    ensures e.control / 2 * 2 <= i < e.control / 2 * 2 + |e.partial|
  {
    var k := SomeBit(bmp[i]);
    var aid := 8 * i + k;
    assert aid / 8 == i && aid % 8 == k;
    assert AidSet(bmp, aid);
    assert Buffered(e, aid);
  }

  /** No lossless element ends earlier: the upper end of the bitmap is cut as far as it can be. */
  lemma UpperTrimMinimal(count: Byte, period: Byte, bmp: Bitmap, e: Element)
    requires Lossless(bmp, e) && |e.partial| >= 1
    ensures var t := TimOf(count, period, bmp);
      t.control / 2 * 2 + |t.partial| <= e.control / 2 * 2 + |e.partial|
  {
    var (n1, n) := Range(bmp);
    var t := TimOf(count, period, bmp);
    assert t.control / 2 * 2 == n1;
    var last := n1 + n - 1;
    if last > 0 {
      MustCarry(bmp, e, last);
    }
  }

  /** With the group bit clear, no lossless element starts later, unless the bitmap is empty;
    * with it set, octet 0 and 1 are carried even when no station needs them. */
  lemma LowerTrim(count: Byte, period: Byte, bmp: Bitmap, e: Element)
    requires Lossless(bmp, e) && FirstNonZero(bmp) < |bmp|
    ensures var t := TimOf(count, period, bmp);
      && (!AidSet(bmp, 0) ==> e.control / 2 * 2 <= t.control / 2 * 2)
      && (AidSet(bmp, 0) ==> t.control / 2 * 2 == 0)
  {
    hide TimOf, Lossless, LastNonZero;
    var first := FirstNonZero(bmp);
    StartsAt(count, period, bmp);
    if !AidSet(bmp, 0) {
      if first > 0 {
        MustCarry(bmp, e, first);
      } else {
        MustCarryOctet0(bmp, e);
      }
    }
  }

  lemma StartsAt(count: Byte, period: Byte, bmp: Bitmap)
    ensures TimOf(count, period, bmp).control / 2 * 2 == Range(bmp).0
  {
  }

  lemma MustCarryOctet0(bmp: Bitmap, e: Element)
    requires Lossless(bmp, e) && bmp[0] != 0 && !AidSet(bmp, 0)
    ensures e.control / 2 * 2 == 0
  {
    var k := SomeBit(bmp[0]);
    assert k / 8 == 0 && k % 8 == k;
    assert AidSet(bmp, k);
    assert k != 0 && Buffered(e, k);
    assert Octet(e, 0) != 0;
  }
}
