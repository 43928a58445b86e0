/** Elements spliced into and out of the beacon of an access point (core/rtw_ap.c,
  * rtw_add_bcn_ie, rtw_remove_bcn_ie, update_BCNTIM). */
module Beacon {
  import opened Bytes
  import opened Elements
  import opened Tim
  import opened Wrappers

  const FIXED_IE_LENGTH := 12
  const SSID_IE: Byte := 0
  const SUPPORTEDRATES_IE: Byte := 1
  const TIM_IE: Byte := 5

  /** len octets of the buffer are in use: 12 of fixed fields, then exactly these elements. */
  predicate Carries(buf: seq<Byte>, len: nat, es: seq<Elem>) {
    len == FIXED_IE_LENGTH + |EncodeAll(es)| && len <= |buf| && Holds(buf, FIXED_IE_LENGTH, EncodeAll(es))
  }

  /* ---------- The operations on lists ---------- */

  /** The first element whose ID is not below index: where the walk of rtw_add_bcn_ie stops. */
  function FirstNotBelow(es: seq<Elem>, index: Byte): (k: nat)
    ensures k <= |es| && (k < |es| ==> es[k].id >= index)
    ensures forall j :: 0 <= j < k ==> es[j].id < index
  {
    if es == [] then 0 else if es[0].id >= index then 0 else 1 + FirstNotBelow(es[1..], index)
  }

  predicate Matches(es: seq<Elem>, index: Byte) {
    var k := FirstNotBelow(es, index);
    k < |es| && es[k].id == index
  }

  /** The element that is replaced, or else the one the new element goes behind, exists and is
    * not empty; otherwise the function returns without doing anything. */
  predicate Anchored(es: seq<Elem>, index: Byte) {
    var k := FirstNotBelow(es, index);
    if Matches(es, index) then es[k].body != [] else k > 0 && es[k - 1].body != []
  }

  function Added(es: seq<Elem>, index: Byte, data: Body): seq<Elem> {
    var k := FirstNotBelow(es, index);
    if !Anchored(es, index) then es
    else if Matches(es, index) then es[..k] + ([Elem(index, data)] + es[k + 1..])
    else es[..k] + ([Elem(index, data)] + es[k..])
  }

  /** The first element with the ID goes, unless it is empty. */
  function Removed(es: seq<Elem>, index: Byte): seq<Elem> {
    var k := FirstOf(es, index);
    if k < |es| && es[k].body != [] then es[..k] + es[k + 1..] else es
  }

  predicate Sorted(es: seq<Elem>) {
    forall i, j :: 0 <= i < j < |es| ==> es[i].id < es[j].id
  }

  /** What a sorted list says: a body for each ID in it. */
  function AsMap(es: seq<Elem>): map<Byte, Body> {
    map i | 0 <= i < |es| :: es[i].id := es[FirstOf(es, es[i].id)].body
  }

  /** On a sorted list the addition is insert-or-replace, keeping the order and every other
    * element, exactly when it has an anchor (or an empty element is replaced by itself). */
  lemma AddedIsInsertOrReplaceIff(es: seq<Elem>, index: Byte, data: Body)
    requires Sorted(es)
    ensures var r := Added(es, index, data);
      Sorted(r) && AsMap(r) == AsMap(es)[index := data] <==>
      Anchored(es, index) || (Matches(es, index) && data == [])
  {
    hide FirstNotBelow, FirstOf;
    var k, r := FirstNotBelow(es, index), Added(es, index, data);
    if Anchored(es, index) {
      AddedSorted(es, index, data);
      AddedMap(es, index, data);
    } else {
      assert r == es;
      if Matches(es, index) {
        assert AsMap(es)[index] == [];
        MapAt(es, k);
      } else {
        NotInMap(es, index);
      }
    }
  }

  /** An empty element is not replaced, and an empty element that was added is not removed. */
  lemma EmptyElements()
    ensures Added([Elem(7, [])], 7, [1]) == [Elem(7, [])]
    ensures var r := Added([Elem(5, [1])], 7, []);
      r == [Elem(5, [1]), Elem(7, [])] && Removed(r, 7) == r
  {
    assert FirstNotBelow([Elem(5, [1])], 7) == 1;
    assert Added([Elem(5, [1])], 7, []) == [Elem(5, [1])] + ([Elem(7, [])] + []);
    assert FirstOf([Elem(5, [1]), Elem(7, [])], 7) == 1;
  }

  lemma AddedSorted(es: seq<Elem>, index: Byte, data: Body)
    requires Sorted(es) && Anchored(es, index)
    ensures Sorted(Added(es, index, data))
  {
    hide FirstNotBelow, FirstOf;
  }

  /** In a sorted list the map has the body of each element. */
  lemma MapAt(es: seq<Elem>, k: nat)
    requires Sorted(es) && k < |es|
    ensures es[k].id in AsMap(es) && AsMap(es)[es[k].id] == es[k].body
  {
    hide FirstNotBelow, FirstOf;
  }

  lemma NotInMap(es: seq<Elem>, index: Byte)
    requires Sorted(es) && !Matches(es, index)
    ensures index !in AsMap(es)
  {
    hide FirstNotBelow, FirstOf;
  }

  /** Two sorted lists with the same elements but for the one with e's ID. */
  lemma MapUpdate(es: seq<Elem>, r: seq<Elem>, e: Elem)
    requires Sorted(es) && Sorted(r) && e in r
    requires forall x :: x in es && x.id != e.id ==> x in r
    requires forall x :: x in r && x != e ==> x in es && x.id != e.id
    ensures AsMap(r) == AsMap(es)[e.id := e.body]
  {
    hide AsMap, Sorted;
    MapOf(es);
    MapOf(r);
    var m, n := AsMap(r), AsMap(es)[e.id := e.body];
    assert m.Keys == n.Keys;
    forall id | id in m ensures m[id] == n[id] {
      var x :| x in r && x.id == id;
    }
  }

  /** The map has the body of each element and nothing else. */
  lemma MapOf(es: seq<Elem>)
    requires Sorted(es)
    ensures forall x :: x in es ==> x.id in AsMap(es) && AsMap(es)[x.id] == x.body
    ensures AsMap(es).Keys == set x | x in es :: x.id
  {
    hide FirstOf, AsMap;
    forall x | x in es ensures x.id in AsMap(es) && AsMap(es)[x.id] == x.body {
      var j :| 0 <= j < |es| && es[j] == x;
      MapAt(es, j);
    }
    MapKeys(es);
  }

  lemma MapKeys(es: seq<Elem>)
    ensures forall id :: id in AsMap(es) ==> exists x :: x in es && x.id == id
  {
    hide FirstOf;
    forall id | id in AsMap(es) ensures exists x :: x in es && x.id == id {
      var i :| 0 <= i < |es| && es[i].id == id;
      assert es[i] in es;
    }
  }

  /** Who is in the new list. */
  lemma AddedMembers(es: seq<Elem>, index: Byte, data: Body)
    requires Anchored(es, index)
    ensures var r := Added(es, index, data);
      && Elem(index, data) in r
      && (forall x :: x in es && x.id != index ==> x in r)
      && (forall x :: x in r && x != Elem(index, data) ==> x in es)
  {
    hide FirstNotBelow, Anchored;
    var k, r := FirstNotBelow(es, index), Added(es, index, data);
    var rest := if Matches(es, index) then es[k + 1..] else es[k..];
    assert r == es[..k] + ([Elem(index, data)] + rest);
    assert es == es[..k] + (if Matches(es, index) then [es[k]] else []) + rest;
  }

  /** In a sorted list an ID stands once. */
  lemma SortedOnce(r: seq<Elem>, e: Elem, x: Elem)
    requires Sorted(r) && e in r && x in r && x.id == e.id
    ensures x == e
  {
  }

  lemma AddedMap(es: seq<Elem>, index: Byte, data: Body)
    requires Sorted(es) && Anchored(es, index)
    ensures AsMap(Added(es, index, data)) == AsMap(es)[index := data]
  {
    hide FirstNotBelow, AsMap, Sorted, Added, Anchored;
    var r, e := Added(es, index, data), Elem(index, data);
    AddedSorted(es, index, data);
    AddedMembers(es, index, data);
    forall x | x in r && x != e ensures x.id != index {
      if x.id == index { SortedOnce(r, e, x); }
    }
    MapUpdate(es, r, e);
  }

  /** A new element is the first of its ID wherever it is put in, and cutting it out again
    * gives the old list. */
  lemma PutInAndCutOut(es: seq<Elem>, k: nat, e: Elem)
    requires FirstOf(es, e.id) == |es| && k <= |es|
    ensures var r := es[..k] + ([e] + es[k..]);
      FirstOf(r, e.id) == k && r[k] == e && r[..k] + r[k + 1..] == es && r != es
  {
    hide FirstOf;
    var r := es[..k] + ([e] + es[k..]);
    PutInFirst(es, k, es[k..], e);
    assert es[..k] + es[k..] == es;
    assert |r| == |es| + 1;
  }

  /** Removing undoes the addition of a new element exactly when that element was not empty. */
  lemma RemovedUndoesAddedIff(es: seq<Elem>, index: Byte, data: Body)
    requires FirstOf(es, index) == |es| && Anchored(es, index)
    ensures Removed(Added(es, index, data), index) == es <==> data != []
  {
    hide FirstNotBelow, FirstOf;
    var k := FirstNotBelow(es, index);
    assert !Matches(es, index);
    assert Added(es, index, data) == es[..k] + ([Elem(index, data)] + es[k..]);
    PutInAndCutOut(es, k, Elem(index, data));
  }

  /* ---------- The buffer ---------- */

  /** cut octets at dst give way to bs; what follows them moves behind bs. */
  function Spliced(buf: seq<Byte>, len: nat, dst: nat, cut: nat, bs: seq<Byte>): seq<Byte>
    requires dst + cut <= len <= |buf| && len - cut + |bs| <= |buf|
  {
    Store(Store(buf, dst, bs), dst + |bs|, buf[dst + cut..len])
  }

  lemma SplicedHolds(buf: seq<Byte>, len: nat, at: nat, x: seq<Byte>, y: seq<Byte>, z: seq<Byte>, bs: seq<Byte>)
    requires Holds(buf, at, x + (y + z)) && at + |x| + |y| + |z| == len <= |buf| && len - |y| + |bs| <= |buf|
    ensures var r := Spliced(buf, len, at + |x|, |y|, bs);
      |r| == |buf| && Holds(r, at, x + (bs + z)) && r[..at] == buf[..at]
  {
    hide Holds;
    var dst := at + |x|;
    HoldsConcat(buf, at, x, y + z);
    HoldsConcat(buf, dst, y, z);
    HoldsSlice(buf, dst + |y|, z);
    var b1 := Store(buf, dst, bs);
    HoldsBelow(buf, at, x, dst, bs);
    HoldsStored(buf, dst, bs);
    var b2 := Store(b1, dst + |bs|, z);
    HoldsBelow(b1, at, x, dst + |bs|, z);
    HoldsBelow(b1, dst, bs, dst + |bs|, z);
    HoldsStored(b1, dst + |bs|, z);
    HoldsConcat(b2, dst, bs, z);
    HoldsConcat(b2, at, x, bs + z);
  }

  lemma SplicedCarries(buf: seq<Byte>, len: nat, es: seq<Elem>, x: seq<Byte>, y: seq<Byte>, z: seq<Byte>,
                       bs: seq<Byte>, es': seq<Elem>)
    requires Carries(buf, len, es) && EncodeAll(es) == x + (y + z) && EncodeAll(es') == x + (bs + z)
    requires len - |y| + |bs| <= |buf|
    ensures Carries(Spliced(buf, len, FIXED_IE_LENGTH + |x|, |y|, bs), len - |y| + |bs|, es')
    ensures Spliced(buf, len, FIXED_IE_LENGTH + |x|, |y|, bs)[..FIXED_IE_LENGTH] == buf[..FIXED_IE_LENGTH]
  {
    SplicedHolds(buf, len, FIXED_IE_LENGTH, x, y, z, bs);
  }

  /** Replacing the k-th element, by other octets that are an element, or by nothing. */
  lemma ReplaceElem(buf: seq<Byte>, len: nat, es: seq<Elem>, k: nat, e: Elem)
    requires Carries(buf, len, es) && k < |es| && len - (2 + |es[k].body|) + 2 + |e.body| <= |buf|
    ensures var p, n := FIXED_IE_LENGTH + |EncodeAll(es[..k])|, 2 + |es[k].body|;
      && p + n <= len && Carries(Spliced(buf, len, p, n, Encode(e)), len - n + |Encode(e)|, es[..k] + ([e] + es[k + 1..]))
      && Spliced(buf, len, p, n, Encode(e))[..FIXED_IE_LENGTH] == buf[..FIXED_IE_LENGTH]
  {
    hide EncodeAll, Spliced, Carries;
    EncodeAround(es, k);
    EncodeConcat(es[..k], [e] + es[k + 1..]);
    EncodeCons(e, es[k + 1..]);
    LengthOf(buf, len, es);
    SplicedCarries(buf, len, es, EncodeAll(es[..k]), Encode(es[k]), EncodeAll(es[k + 1..]), Encode(e),
                   es[..k] + ([e] + es[k + 1..]));
  }

  lemma DropElem(buf: seq<Byte>, len: nat, es: seq<Elem>, k: nat)
    requires Carries(buf, len, es) && k < |es|
    ensures var p, n := FIXED_IE_LENGTH + |EncodeAll(es[..k])|, 2 + |es[k].body|;
      && p + n <= len && Carries(Spliced(buf, len, p, n, []), len - n, es[..k] + es[k + 1..])
      && Spliced(buf, len, p, n, [])[..FIXED_IE_LENGTH] == buf[..FIXED_IE_LENGTH]
  {
    hide EncodeAll, Spliced, Carries;
    EncodeAround(es, k);
    EncodeConcat(es[..k], es[k + 1..]);
    LengthOf(buf, len, es);
    assert [] + EncodeAll(es[k + 1..]) == EncodeAll(es[k + 1..]);
    SplicedCarries(buf, len, es, EncodeAll(es[..k]), Encode(es[k]), EncodeAll(es[k + 1..]), [], es[..k] + es[k + 1..]);
  }

  lemma InsertElem(buf: seq<Byte>, len: nat, es: seq<Elem>, k: nat, e: Elem)
    requires Carries(buf, len, es) && k <= |es| && len + 2 + |e.body| <= |buf|
    ensures var p := FIXED_IE_LENGTH + |EncodeAll(es[..k])|;
      && p <= len && Carries(Spliced(buf, len, p, 0, Encode(e)), len + |Encode(e)|, es[..k] + ([e] + es[k..]))
      && Spliced(buf, len, p, 0, Encode(e))[..FIXED_IE_LENGTH] == buf[..FIXED_IE_LENGTH]
  {
    hide EncodeAll, Spliced, Carries;
    EncodeCut(es, k);
    EncodeConcat(es[..k], [e] + es[k..]);
    EncodeCons(e, es[k..]);
    LengthOf(buf, len, es);
    assert [] + EncodeAll(es[k..]) == EncodeAll(es[k..]);
    SplicedCarries(buf, len, es, EncodeAll(es[..k]), [], EncodeAll(es[k..]), Encode(e), es[..k] + ([e] + es[k..]));
  }

  lemma EncodeEmpty()
    ensures EncodeAll([]) == []
  {
  }

  lemma LengthOf(buf: seq<Byte>, len: nat, es: seq<Elem>)
    requires Carries(buf, len, es)
    ensures len == FIXED_IE_LENGTH + |EncodeAll(es)| && len <= |buf|
  {
  }

  /* ---------- The TIM element in the list ---------- */

  function TimElem(bmp: Bitmap): Elem
    requires |bmp| <= 250
  {
    Elem(TIM_IE, TimBytes(0, 1, bmp)[2..])
  }

  lemma TimElemBytes(bmp: Bitmap)
    requires |bmp| <= 250
    ensures Encode(TimElem(bmp)) == TimBytes(0, 1, bmp) && Returned(bmp) == |TimBytes(0, 1, bmp)|
    ensures |TimBytes(0, 1, bmp)| == 5 + Range(bmp).1
  {
    ReturnedIsLengthIff(0, 1, bmp);
  }

  predicate HasTim(es: seq<Elem>) {
    var i := FirstOf(es, TIM_IE);
    i < |es| && es[i].body != []
  }

  /** Octets of the first element with this ID, 0 when there is none. */
  function SizeOf(es: seq<Elem>, id: Byte): nat {
    var i := FirstOf(es, id);
    if i < |es| then 2 + |es[i].body| else 0
  }

  /** The place computed for a new TIM, after SSID, rates and the 3 octets of a DS parameter
    * set, is the start of the k-th element. */
  predicate HeadFits(es: seq<Elem>, k: nat) {
    k <= |es| && |EncodeAll(es[..k])| == PlaceOf(es)
  }

  /** Where a new TIM goes, counted from the end of the fixed fields. */
  function PlaceOf(es: seq<Elem>): nat {
    SizeOf(es, SSID_IE) + SizeOf(es, SUPPORTEDRATES_IE) + 3
  }

  function TimReplaced(es: seq<Elem>, t: Elem): seq<Elem>
    requires HasTim(es)
  {
    var i := FirstOf(es, TIM_IE);
    es[..i] + ([t] + es[i + 1..])
  }

  function Inserted(es: seq<Elem>, k: nat, e: Elem): seq<Elem>
    requires k <= |es|
  {
    es[..k] + ([e] + es[k..])
  }

  /** The buffer with cut octets at dst given way to bs; past the end of the list nothing is
    * moved behind it. */
  function PutAt(buf: seq<Byte>, len: nat, dst: nat, cut: nat, bs: seq<Byte>): seq<Byte>
    requires (dst + cut <= len || cut == 0) && cut <= len && dst + |bs| <= |buf| && len - cut + |bs| <= |buf|
    requires len <= |buf|
  {
    if dst + cut <= len then Spliced(buf, len, dst, cut, bs) else Store(buf, dst, bs)
  }

  /** The buffer with the octets of a new element at a place counted from the fixed fields. */
  function Placed(buf: seq<Byte>, len: nat, at: nat, bs: seq<Byte>): seq<Byte>
    requires FIXED_IE_LENGTH + at + |bs| <= |buf| && len + |bs| <= |buf|
  {
    PutAt(buf, len, FIXED_IE_LENGTH + at, 0, bs)
  }

  /** What a receiver of the new beacon makes of it: every other element is as before, and the
    * first TIM element, taken apart, says of every association ID what the bitmap says: when the
    * TIM is replaced, and wherever one is put into a list without. */
  lemma BeaconTellsBitmap(es: seq<Elem>, k: nat, bmp: Bitmap)
    requires |bmp| <= 250 && (HasTim(es) || (k <= |es| && FirstOf(es, TIM_IE) == |es|))
    ensures var r := if HasTim(es) then TimReplaced(es, TimElem(bmp)) else Inserted(es, k, TimElem(bmp));
      var i := FirstOf(r, TIM_IE);
      && i < |r| && r[..i] + r[i + 1..] == (if HasTim(es) then es[..i] + es[i + 1..] else es)
      && var e := Parse(Encode(r[i])); e.Some? && Lossless(bmp, e.value)
  {
    hide FirstOf, TimElem, Parse, Encode, Lossless, SizeOf, EncodeAll;
    var t, i := TimElem(bmp), FirstOf(es, TIM_IE);
    TimElemTells(bmp);
    if !HasTim(es) { assert es[..k] + es[k..] == es; }
    PutInFirst(es, if HasTim(es) then i else k, if HasTim(es) then es[i + 1..] else es[k..], t);
  }

  lemma TimElemTells(bmp: Bitmap)
    requires |bmp| <= 250
    ensures TimElem(bmp).id == TIM_IE
    ensures var e := Parse(Encode(TimElem(bmp))); e.Some? && Lossless(bmp, e.value)
  {
    hide Range, TimBytes, Lossless;
    TimElemBytes(bmp);
    TimIsLossless(0, 1, bmp);
  }

  lemma PutInFirst(es: seq<Elem>, k: nat, rest: seq<Elem>, e: Elem)
    requires k <= |es| && forall j :: 0 <= j < k ==> es[j].id != e.id
    ensures var r := es[..k] + ([e] + rest);
      FirstOf(r, e.id) == k && r[k] == e && r[..k] == es[..k] && r[k + 1..] == rest
  {
    hide FirstOf;
    var r := es[..k] + ([e] + rest);
    assert r[k] == e && forall j :: 0 <= j < k ==> r[j] == es[j];
  }

  /** The place fits a list that starts with SSID, rates and DS parameter set. */
  lemma UsualHeadFits(ssid: Elem, rates: Elem, ds: Elem, rest: seq<Elem>)
    requires ssid.id == SSID_IE && rates.id == SUPPORTEDRATES_IE && |ds.body| == 1
    ensures HeadFits([ssid, rates, ds] + rest, 3)
  {
    var es := [ssid, rates, ds] + rest;
    assert es[..3] == [ssid] + ([rates] + ([ds] + []));
    EncodeCons(ssid, [rates] + ([ds] + []));
    EncodeCons(rates, [ds] + []);
    EncodeCons(ds, []);
    assert FirstOf(es, SSID_IE) == 0 && FirstOf(es, SUPPORTEDRATES_IE) == 1;
  }

  /* ---------- When a new TIM comes out as an element ---------- */

  /** The octets of an element are put in at one place; they are those of the list with the
    * element at its k-th place exactly when that is the same place, or the octets between the two
    * can be exchanged with the element's. */
  lemma SameOctetsIff(bs: seq<Byte>, at: nat, e: seq<Byte>, m: nat)
    requires at <= |bs| && m <= |bs|
    ensures bs[..at] + (e + bs[at..]) == bs[..m] + (e + bs[m..]) <==>
      if at <= m then e + bs[at..m] == bs[at..m] + e else e + bs[m..at] == bs[m..at] + e
  {
    if at <= m { Exchange(bs, at, m, e); } else { Exchange(bs, m, at, e); }
  }

  lemma Exchange(bs: seq<Byte>, lo: nat, hi: nat, e: seq<Byte>)
    requires lo <= hi <= |bs|
    ensures bs[..lo] + (e + bs[lo..]) == bs[..hi] + (e + bs[hi..]) <==> e + bs[lo..hi] == bs[lo..hi] + e
  {
    var a, u, z := bs[..lo], bs[lo..hi], bs[hi..];
    assert bs[lo..] == u + z && bs[..hi] == a + u;
    Regroup(a, e, u, z);
    var x, y := a + ((e + u) + z), a + ((u + e) + z);
    if x == y {
      Middle(a, e + u, z);
      Middle(a, u + e, z);
      assert |e + u| == |u + e|;
    }
  }

  lemma Regroup(a: seq<Byte>, e: seq<Byte>, u: seq<Byte>, z: seq<Byte>)
    ensures a + (e + (u + z)) == a + ((e + u) + z)
    ensures (a + u) + (e + z) == a + ((u + e) + z)
  {
  }

  lemma Middle(a: seq<Byte>, b: seq<Byte>, c: seq<Byte>)
    ensures (a + (b + c))[|a|..|a| + |b|] == b
  {
  }

  /** Where the octets in between begin with another octet than the element, or stop at the start
    * of an element with another ID, they cannot be exchanged. */
  lemma NoExchange(bs: seq<Byte>, lo: nat, hi: nat, e: seq<Byte>)
    requires lo < hi <= |bs| && e != [] && bs[lo] != e[0]
    ensures e + bs[lo..hi] != bs[lo..hi] + e
  {
    assert (e + bs[lo..hi])[0] == e[0] && (bs[lo..hi] + e)[0] == bs[lo];
  }

  /** What a list with an element at its k-th place is in octets. */
  lemma InsertedOctets(es: seq<Elem>, k: nat, t: Elem)
    requires k <= |es|
    ensures var m, bs := |EncodeAll(es[..k])|, EncodeAll(es);
      && m <= |bs| && EncodeAll(Inserted(es, k, t)) == bs[..m] + (Encode(t) + bs[m..])
      && (if k < |es| then m < |bs| && bs[m] == es[k].id else m == |bs|)
  {
    hide EncodeAll, Encode;
    EncodeCut(es, k);
    EncodeConcat(es[..k], [t] + es[k..]);
    EncodeCons(t, es[k..]);
    var m, bs := |EncodeAll(es[..k])|, EncodeAll(es);
    assert bs[..m] == EncodeAll(es[..k]) && bs[m..] == EncodeAll(es[k..]);
    if k < |es| {
      EncodeAround(es, k);
      FirstOctet(es[k]);
      assert bs[m] == (Encode(es[k]) + EncodeAll(es[k + 1..]))[0];
    } else {
      assert es[..k] == es;
    }
  }

  lemma FirstOctet(e: Elem)
    ensures |Encode(e)| >= 2 && Encode(e)[0] == e.id
  {
  }

  /** The octets of the list with a TIM put in at the given place. */
  function NewOctets(es: seq<Elem>, at: nat, t: Elem): seq<Byte>
    requires at <= |EncodeAll(es)|
  {
    var bs := EncodeAll(es);
    bs[..at] + (Encode(t) + bs[at..])
  }

  /** The k-th element starts at the place, or later behind octets that can be exchanged with the
    * new element's. */
  predicate WellPlaced(es: seq<Elem>, at: nat, t: Elem, k: nat)
    requires k <= |es|
  {
    var m, bs := |EncodeAll(es[..k])|, EncodeAll(es);
    m == at || (at < m <= |bs| && Encode(t) + bs[at..m] == bs[at..m] + Encode(t))
  }

  /** For a list without a TIM and a place inside it: the octets written are the list with the TIM
    * at its k-th place exactly when it is well placed there. */
  lemma PlacedAtIff(es: seq<Elem>, at: nat, t: Elem, k: nat)
    requires at <= |EncodeAll(es)| && k <= |es| && t.id == TIM_IE && FirstOf(es, TIM_IE) == |es|
    ensures NewOctets(es, at, t) == EncodeAll(Inserted(es, k, t)) <==> WellPlaced(es, at, t, k)
  {
    hide EncodeAll, Encode, FirstOf;
    var m, bs := |EncodeAll(es[..k])|, EncodeAll(es);
    InsertedOctets(es, k, t);
    SameOctetsIff(bs, at, Encode(t), m);
    FirstOctet(t);
    if m < at {
      NoExchange(bs, m, at, Encode(t));
    } else if m == at {
      assert bs[at..m] == [];
      assert Encode(t) + [] == [] + Encode(t);
    }
  }

  /** Unless the octet at the place happens to be the TIM's own ID, well placed means that an
    * element, or the end of the list, is at the place. */
  lemma WellPlacedIsBoundary(es: seq<Elem>, at: nat, t: Elem, k: nat)
    requires k <= |es| && t.id == TIM_IE && (at < |EncodeAll(es)| ==> EncodeAll(es)[at] != TIM_IE)
    ensures WellPlaced(es, at, t, k) <==> |EncodeAll(es[..k])| == at
  {
    hide EncodeAll, Encode;
    EncodeCut(es, k);
    FirstOctet(t);
    if at < |EncodeAll(es[..k])| {
      NoExchange(EncodeAll(es), at, |EncodeAll(es[..k])|, Encode(t));
    }
  }

  /** The two elements that are counted are two: the place is at most 3 octets past the end. */
  lemma PlaceNear(es: seq<Elem>)
    ensures PlaceOf(es) <= |EncodeAll(es)| + 3
  {
    hide EncodeAll, FirstOf;
    var i, j := FirstOf(es, SSID_IE), FirstOf(es, SUPPORTEDRATES_IE);
    if i < |es| && j < |es| {
      if i < j { TwoSizes(es, i, j); } else { TwoSizes(es, j, i); }
    } else if i < |es| {
      EncodeAround(es, i);
    } else if j < |es| {
      EncodeAround(es, j);
    }
  }

  lemma TwoSizes(es: seq<Elem>, i: nat, j: nat)
    requires i < j < |es|
    ensures |Encode(es[i])| + |Encode(es[j])| <= |EncodeAll(es)|
  {
    hide EncodeAll;
    EncodeCut(es, j);
    EncodeAround(es[..j], i);
    EncodeAround(es, j);
  }

  /** What a new TIM leaves in the buffer, when its place is past the end by g octets: g octets
    * that were there, and the TIM without its last g. */
  lemma PastTheEnd(buf: seq<Byte>, len: nat, es: seq<Elem>, t: seq<Byte>, at: nat)
    requires Carries(buf, len, es) && |EncodeAll(es)| < at && FIXED_IE_LENGTH + at + |t| <= |buf|
    ensures len + |t| <= |buf|
    ensures var r, n := Placed(buf, len, at, t), |EncodeAll(es)|;
      && |r| == |buf| && Holds(r, FIXED_IE_LENGTH, EncodeAll(es))
      && forall i :: 0 <= i < |t| ==> r[FIXED_IE_LENGTH + at + i] == t[i]
  {
    hide EncodeAll;
    HoldsBelow(buf, FIXED_IE_LENGTH, EncodeAll(es), FIXED_IE_LENGTH + at, t);
  }

  /** A place past the end never gives a list with the TIM in it. */
  lemma PastTheEndNeverRight(buf: seq<Byte>, len: nat, es: seq<Elem>, bmp: Bitmap, k: nat)
    requires |bmp| <= 250 && Carries(buf, len, es) && FirstOf(es, TIM_IE) == |es| && k <= |es|
    requires |EncodeAll(es)| < PlaceOf(es) && FIXED_IE_LENGTH + PlaceOf(es) + |Encode(TimElem(bmp))| <= |buf|
    ensures len + |Encode(TimElem(bmp))| <= |buf|
    ensures var t := TimElem(bmp);
      !Carries(Placed(buf, len, PlaceOf(es), Encode(t)), len + |Encode(t)|, Inserted(es, k, t))
  {
    hide EncodeAll, Encode, FirstOf, TimElem, Placed, PlaceOf, Carries;
    var t, bs, at := TimElem(bmp), EncodeAll(es), PlaceOf(es);
    PlaceNear(es);
    PastTheEnd(buf, len, es, Encode(t), at);
    InsertedOctets(es, k, t);
    TimHead(bmp);
    var e, rs := Encode(t), Inserted(es, k, t);
    var r, m, w := Placed(buf, len, at, e), |EncodeAll(es[..k])|, EncodeAll(rs);
    assert |w| == |bs| + |e| && w[m] == e[0];
    if k < |es| {
      assert r[FIXED_IE_LENGTH + m] == bs[m];
      NotCarried(r, len + |e|, rs, m);
    } else {
      var g := at - |bs|;
      assert w[at] == e[g] && r[FIXED_IE_LENGTH + at + 0] == e[0];
      if e[g] != e[0] {
        NotCarried(r, len + |e|, rs, at);
      } else {
        assert w[at + 1] == e[g + 1] && r[FIXED_IE_LENGTH + at + 1] == e[1];
        NotCarried(r, len + |e|, rs, at + 1);
      }
    }
  }

  lemma NotCarried(r: seq<Byte>, len: nat, rs: seq<Elem>, i: nat)
    requires i < |EncodeAll(rs)| && FIXED_IE_LENGTH + i < |r| && r[FIXED_IE_LENGTH + i] != EncodeAll(rs)[i]
    ensures !Carries(r, len, rs)
  {
    hide EncodeAll;
  }

  /** The first octets of a TIM: no other of them is its ID, or the next is not its length. */
  lemma TimHead(bmp: Bitmap)
    requires |bmp| <= 250
    ensures var e := Encode(TimElem(bmp));
      && TimElem(bmp).id == TIM_IE && |e| >= 6 && e[0] == TIM_IE && e[2] == 0 && e[3] == 1
      && e[1] != 0
  {
    TimElemBytes(bmp);
  }

  /** For every list without a TIM and every buffer with room: the buffer carries the list with
    * the new TIM at its k-th place exactly when the computed place is inside the list and the TIM
    * is well placed there. */
  lemma NewTimRightIff(buf: seq<Byte>, len: nat, es: seq<Elem>, bmp: Bitmap, k: nat)
    requires |bmp| <= 250 && Carries(buf, len, es) && FirstOf(es, TIM_IE) == |es| && k <= |es|
    requires len + |Encode(TimElem(bmp))| <= |buf|
    requires FIXED_IE_LENGTH + PlaceOf(es) + |Encode(TimElem(bmp))| <= |buf|
    ensures var t := TimElem(bmp);
      Carries(Placed(buf, len, PlaceOf(es), Encode(t)), len + |Encode(t)|, Inserted(es, k, t))
      <==> WellPlaced(es, PlaceOf(es), t, k)
  {
    hide EncodeAll, Encode, FirstOf, TimElem, Placed, PlaceOf, Carries, Inserted, NewOctets, WellPlaced;
    var t, at := TimElem(bmp), PlaceOf(es);
    if |EncodeAll(es)| < at {
      PastTheEndNeverRight(buf, len, es, bmp, k);
      NotPastTheEnd(es, at, t, k);
    } else {
      TimHead(bmp);
      CarriesNew(buf, len, es, at, t, Inserted(es, k, t));
      PlacedAtIff(es, at, t, k);
    }
  }

  lemma NotPastTheEnd(es: seq<Elem>, at: nat, t: Elem, k: nat)
    requires k <= |es|
    ensures WellPlaced(es, at, t, k) ==> at <= |EncodeAll(es)|
  {
    hide EncodeAll;
    EncodeCut(es, k);
  }

  lemma FitsAt(es: seq<Elem>, k: nat)
    requires k <= |es|
    ensures HeadFits(es, k) <==> |EncodeAll(es[..k])| == PlaceOf(es)
  {
  }

  lemma PrefixShorter(es: seq<Elem>, k: nat)
    requires k <= |es|
    ensures |EncodeAll(es[..k])| <= |EncodeAll(es)|
    ensures HeadFits(es, k) ==> PlaceOf(es) <= |EncodeAll(es)|
  {
    hide EncodeAll;
    EncodeCut(es, k);
  }

  /** Inside the list the buffer carries what the octets say. */
  lemma CarriesNew(buf: seq<Byte>, len: nat, es: seq<Elem>, at: nat, t: Elem, rs: seq<Elem>)
    requires Carries(buf, len, es) && at <= |EncodeAll(es)| && len + |Encode(t)| <= |buf|
    requires FIXED_IE_LENGTH + at + |Encode(t)| <= |buf|
    ensures Carries(Placed(buf, len, at, Encode(t)), len + |Encode(t)|, rs) <==> NewOctets(es, at, t) == EncodeAll(rs)
  {
    hide EncodeAll, Encode, Holds, Spliced;
    var bs, e := EncodeAll(es), Encode(t);
    assert bs == bs[..at] + ([] + bs[at..]);
    SplicedHolds(buf, len, FIXED_IE_LENGTH, bs[..at], [], bs[at..], e);
    var r := Placed(buf, len, at, e);
    HoldsSlice(r, FIXED_IE_LENGTH, NewOctets(es, at, t));
    if Carries(r, len + |e|, rs) {
      HoldsSlice(r, FIXED_IE_LENGTH, EncodeAll(rs));
    }
  }

  /** In particular, at a place that fits, the list with the TIM at that place is written. */
  lemma FittingPlace(buf: seq<Byte>, len: nat, es: seq<Elem>, bmp: Bitmap, k: nat)
    requires |bmp| <= 250 && Carries(buf, len, es) && HeadFits(es, k) && len + |Encode(TimElem(bmp))| <= |buf|
    ensures FIXED_IE_LENGTH + PlaceOf(es) + |Encode(TimElem(bmp))| <= |buf|
    ensures var t := TimElem(bmp);
      Carries(Placed(buf, len, PlaceOf(es), Encode(t)), len + |Encode(t)|, Inserted(es, k, t))
  {
    hide EncodeAll, FirstOf, TimElem, Carries, Spliced, PlaceOf;
    LengthOf(buf, len, es);
    InsertElem(buf, len, es, k, TimElem(bmp));
  }

  /** Two lists without a DS parameter set: the place falls inside an element, or past the end. */
  function NoDs(): seq<Elem> {
    [Elem(SSID_IE, []), Elem(SUPPORTEDRATES_IE, [2]), Elem(48, [1, 2, 3, 4])]
  }

  function NoDsShort(): seq<Elem> {
    [Elem(SSID_IE, []), Elem(SUPPORTEDRATES_IE, [2])]
  }

  lemma NoDsOctets()
    ensures EncodeAll(NoDs()) == [0, 0, 1, 1, 2, 48, 4, 1, 2, 3, 4] && EncodeAll(NoDsShort()) == [0, 0, 1, 1, 2]
  {
    var a, b, c := Elem(SSID_IE, []), Elem(SUPPORTEDRATES_IE, [2]), Elem(48, [1, 2, 3, 4]);
    EncodeEmpty();
    assert NoDs() == [a] + ([b] + ([c] + [])) && NoDsShort() == [a] + ([b] + []);
    EncodeCons(a, [b] + ([c] + []));
    EncodeCons(b, [c] + []);
    EncodeCons(c, []);
    EncodeCons(a, [b] + []);
    EncodeCons(b, []);
  }

  lemma NoDsPlaces()
    ensures PlaceOf(NoDs()) == 8 && PlaceOf(NoDsShort()) == 8
    ensures FirstOf(NoDs(), TIM_IE) == |NoDs()| && FirstOf(NoDsShort(), TIM_IE) == |NoDsShort()|
  {
    assert FirstOf(NoDs(), SSID_IE) == 0 && FirstOf(NoDs(), SUPPORTEDRATES_IE) == 1;
    assert FirstOf(NoDsShort(), SSID_IE) == 0 && FirstOf(NoDsShort(), SUPPORTEDRATES_IE) == 1;
  }

  /** Without a DS parameter set, as on 5 GHz, what is written for these two is not this list with
    * a TIM anywhere in it. */
  lemma NoDsBreaksList(buf: seq<Byte>, len: nat, es: seq<Elem>, bmp: Bitmap, k: nat)
    requires es == NoDs() || es == NoDsShort()
    requires |bmp| <= 250 && Carries(buf, len, es) && len + 3 + |Encode(TimElem(bmp))| <= |buf| && k <= |es|
    ensures FIXED_IE_LENGTH + PlaceOf(es) + |Encode(TimElem(bmp))| <= |buf|
    ensures var t := TimElem(bmp);
      !Carries(Placed(buf, len, PlaceOf(es), Encode(t)), len + |Encode(t)|, Inserted(es, k, t))
  {
    NoDsOctets();
    NoDsPlaces();
    hide EncodeAll, FirstOf, TimElem, Carries, Placed, PlaceOf, Encode, SizeOf, Inserted;
    LengthOf(buf, len, es);
    NewTimRightIff(buf, len, es, bmp, k);
    TimHead(bmp);
    WellPlacedIsBoundary(es, PlaceOf(es), TimElem(bmp), k);
    PrefixShorter(es, k);
    if es == NoDs() { PrefixBytes(es, k); }
  }

  /** A list whose last element ends with a copy of the TIM's octets, at the computed place: no
    * element starts there, and the list with the TIM behind it is written all the same. */
  function EndsWithCopy(t: Elem): seq<Elem>
    requires |Encode(t)| < 0xff
  {
    [Elem(SSID_IE, []), Elem(SUPPORTEDRATES_IE, []), Elem(48, [0] + Encode(t))]
  }

  lemma CopyIsWellPlaced(bmp: Bitmap)
    requires |bmp| <= 200
    ensures var t := TimElem(bmp);
      && |Encode(t)| < 0xff
      && var es := EndsWithCopy(t);
        && FirstOf(es, TIM_IE) == |es| && WellPlaced(es, PlaceOf(es), t, |es|)
        && forall k :: !HeadFits(es, k)
  {
    TimElemBytes(bmp);
    hide EncodeAll, TimElem, PlaceOf;
    var t := TimElem(bmp);
    var es, e := EndsWithCopy(t), Encode(t);
    CopyPlace(t);
    CopyOctets(t);
    assert es[..3] == es;
    assert EncodeAll(es)[7..7 + |e|] == e;
  }

  lemma CopyPlace(t: Elem)
    requires |Encode(t)| < 0xff
    ensures var es := EndsWithCopy(t); PlaceOf(es) == 7 && FirstOf(es, TIM_IE) == |es|
  {
    var es := EndsWithCopy(t);
    assert es[0].id != SUPPORTEDRATES_IE && es[1].id == SUPPORTEDRATES_IE;
    assert FirstOf(es, SSID_IE) == 0 && FirstOf(es, SUPPORTEDRATES_IE) == 1;
  }

  lemma CopyOctets(t: Elem)
    requires |Encode(t)| < 0xff
    ensures var es := EndsWithCopy(t);
      && EncodeAll(es) == [0, 0, 1, 0, 48, 1 + |Encode(t)|, 0] + Encode(t)
      && |EncodeAll(es[..0])| == 0 && |EncodeAll(es[..1])| == 2 && |EncodeAll(es[..2])| == 4
  {
    var es := EndsWithCopy(t);
    EncodeEmpty();
    assert es[..0] == [] && es[..3] == es;
    EncodeSnoc(es, 0);
    EncodeSnoc(es, 1);
    EncodeSnoc(es, 2);
  }

  lemma PrefixBytes(es: seq<Elem>, k: nat)
    requires k <= |es| == 3 && |es[0].body| == 0 && |es[1].body| == 1 && |es[2].body| == 4
    ensures |EncodeAll(es[..k])| == if k == 0 then 0 else if k == 1 then 2 else if k == 2 then 5 else 11
  {
    EncodeEmpty();
    assert es[..0] == [];
    EncodeSnoc(es, 0);
    EncodeSnoc(es, 1);
    EncodeSnoc(es, 2);
  }

  lemma ReplacedLength(es: seq<Elem>, k: nat, e: Elem)
    requires k < |es|
    ensures |EncodeAll(es[..k] + ([e] + es[k + 1..]))| == |EncodeAll(es)| + |e.body| - |es[k].body|
  {
    hide EncodeAll;
    EncodeAround(es, k);
    EncodeConcat(es[..k], [e] + es[k + 1..]);
    EncodeCons(e, es[k + 1..]);
  }

  lemma InsertedLength(es: seq<Elem>, k: nat, e: Elem)
    requires k <= |es|
    ensures |EncodeAll(es[..k] + ([e] + es[k..]))| == |EncodeAll(es)| + 2 + |e.body|
  {
    hide EncodeAll;
    EncodeCut(es, k);
    EncodeConcat(es[..k], [e] + es[k..]);
    EncodeCons(e, es[k..]);
  }

  /** Unsigned 32-bit arithmetic. */
  function Sub32(a: nat, b: nat): (r: nat)
    requires a < 0x8000_0000 && b < 0x8000_0000
    ensures r < 0x1_0000_0000 && if b <= a then r == a - b else r > 0x8000_0000
  {
    if b <= a then a - b else 0x1_0000_0000 - (b - a)
  }

  function Add32(a: nat, b: nat): nat
    requires a < 0x8000_0000 && b < 0x1_0000_0000
  {
    if a + b < 0x1_0000_0000 then a + b else a + b - 0x1_0000_0000
  }

  lemma AddSub(len: nat, dst: nat, cut: nat, n: nat)
    requires len < 0x8000_0000 && dst + cut < 0x8000_0000 && dst + n < 0x8000_0000
    requires cut <= len && len - cut + n < 0x8000_0000
    ensures Add32(dst + n, Sub32(len, dst + cut)) == len - cut + n
  {
  }

  /** WLAN_BSSID_EX: the element buffer and how much of it is in use. */
  class Bss {
    const ies: array<Byte>
    var ieLength: nat

    ghost predicate Has(es: seq<Elem>)
      reads this, ies
    {
      Carries(ies[..], ieLength, es)
    }

    /** rtw_get_ie over the elements behind the fixed fields. */
    method GetIe(id: Byte, ghost es: seq<Elem>) returns (p: Option<nat>)
      requires Has(es)
      ensures var k := FirstOf(es, id);
        p == if k < |es| then Some(FIXED_IE_LENGTH + |EncodeAll(es[..k])|) else None
      ensures p.Some? ==>
        && FIXED_IE_LENGTH <= p.value && p.value + 2 <= ieLength <= ies.Length
        && ies[p.value + 1] == |es[FirstOf(es, id)].body|
    {
      hide FirstOf;
      var i := FIXED_IE_LENGTH;
      ghost var k := 0;
      assert es[..|es|] == es && es[..0] == [];
      while i < ieLength
        invariant 0 <= k <= |es| && i == FIXED_IE_LENGTH + |EncodeAll(es[..k])|
        invariant forall j :: 0 <= j < k ==> es[j].id != id
        decreases |es| - k
      {
        HeaderAt(ies[..], FIXED_IE_LENGTH, es, k);
        if ies[i] == id {
          return Some(i);
        }
        i := i + ies[i + 1] + 2;
        k := k + 1;
      }
      AllPassed(es, k);
      p := None;
    }

    /** The tail of all three functions: save what follows, write, put it back behind. */
    method Splice(dst: nat, cut: nat, bs: seq<Byte>)
      requires dst + cut <= ieLength <= ies.Length && ieLength - cut + |bs| <= ies.Length
      modifies this`ieLength, ies
      ensures ies[..] == Spliced(old(ies[..]), old(ieLength), dst, cut, bs)
      ensures ieLength == old(ieLength) - cut + |bs|
    {
      var remainder := ies[dst + cut..ieLength];
      Write(dst, bs);
      Write(dst + |bs|, remainder);
      ieLength := dst + |bs| + |remainder|;
    }

    method Write(at: nat, bs: seq<Byte>)
      requires at + |bs| <= ies.Length
      modifies ies
      ensures ies[..] == Store(old(ies[..]), at, bs)
    {
      forall k | 0 <= k < |bs| { ies[at + k] := bs[k]; }
    }

    /** rtw_remove_bcn_ie */
    method RemoveBcnIe(index: Byte, ghost es: seq<Elem>)
      requires Has(es)
      modifies this`ieLength, ies
      ensures Has(Removed(es, index)) && ies[..FIXED_IE_LENGTH] == old(ies[..FIXED_IE_LENGTH])
    {
      hide EncodeAll, FirstOf, Carries, Spliced;
      var p := GetIe(index, es);
      if p.None? || ies[p.value + 1] == 0 {
        return;
      }
      DropElem(ies[..], ieLength, es, FirstOf(es, index));
      var n := 2 + ies[p.value + 1] as int;
      Splice(p.value, n, []);
    }

    /** update_BCNTIM */
    method UpdateBcnTim(bmp: Bitmap, ghost es: seq<Elem>)
      requires Has(es) && |bmp| <= 250 && ies.Length < 0x8000_0000
      requires HasTim(es) ==> FIXED_IE_LENGTH + |EncodeAll(TimReplaced(es, TimElem(bmp)))| <= ies.Length
      requires !HasTim(es) ==> ieLength + |Encode(TimElem(bmp))| <= ies.Length
      requires !HasTim(es) ==> FIXED_IE_LENGTH + PlaceOf(es) + |Encode(TimElem(bmp))| <= ies.Length
      modifies this`ieLength, ies
      ensures HasTim(es) ==> Has(TimReplaced(es, TimElem(bmp))) && ies[..FIXED_IE_LENGTH] == old(ies[..FIXED_IE_LENGTH])
      ensures !HasTim(es) ==>
        && ies[..] == Placed(old(ies[..]), old(ieLength), PlaceOf(es), Encode(TimElem(bmp)))
        && ieLength == old(ieLength) + |Encode(TimElem(bmp))|
    {
      hide EncodeAll, FirstOf, Carries, Spliced, Range, TimBytes, Store, PlaceOf, SizeOf;
      LengthOf(ies[..], ieLength, es);
      ghost var t, buf, len := TimElem(bmp), ies[..], ieLength;
      var dst, cut := 0, 0;
      var p := GetIe(TIM_IE, es);
      if p.Some? && ies[p.value + 1] > 0 {
        dst, cut := p.value, 2 + ies[p.value + 1] as int;
        ReplacedLength(es, FirstOf(es, TIM_IE), t);
        ReplaceElem(buf, len, es, FirstOf(es, TIM_IE), t);
      } else {
        dst := HeadLength(es);
      }
      PutTim(bmp, dst, cut);
    }

    /** The place of a new TIM: behind the fixed fields, SSID, rates and a DS parameter set. */
    method HeadLength(ghost es: seq<Elem>) returns (offset: nat)
      requires Has(es)
      ensures offset == FIXED_IE_LENGTH + PlaceOf(es)
    {
      hide EncodeAll, FirstOf, Carries;
      offset := FIXED_IE_LENGTH;
      var p := GetIe(SSID_IE, es);
      if p.Some? { offset := offset + ies[p.value + 1] + 2; }
      p := GetIe(SUPPORTEDRATES_IE, es);
      if p.Some? { offset := offset + ies[p.value + 1] + 2; }
      offset := offset + 3;
    }

    /** The tail of update_BCNTIM.  What follows the place is saved and written back behind the
      * element; when the place lies past the end, the unsigned length of what follows wraps to
      * nearly 2^32, no memory of that size is had, and nothing is saved. */
    method PutTim(bmp: Bitmap, dst: nat, cut: nat)
      requires |bmp| <= 250 && ieLength <= ies.Length < 0x8000_0000 && cut <= ieLength && (dst + cut <= ieLength || cut == 0)
      requires ieLength - cut + |Encode(TimElem(bmp))| <= ies.Length && dst + |Encode(TimElem(bmp))| <= ies.Length
      modifies this`ieLength, ies
      ensures ies[..] == PutAt(old(ies[..]), old(ieLength), dst, cut, Encode(TimElem(bmp)))
      ensures ieLength == old(ieLength) - cut + |Encode(TimElem(bmp))|
    {
      hide Store, TimBytes, Encode, Range, Sub32, Add32;
      ghost var len := ieLength;
      var remainder := Sub32(ieLength, dst + cut);
      var backup: Option<seq<Byte>> := None;
      if 0 < remainder <= ies.Length {
        backup := Some(ies[dst + cut..dst + cut + remainder]);
      }
      TimElemBytes(bmp);
      var n := SetTimIe(0, 1, bmp, ies, dst);
      if backup.Some? {
        Write(dst + n, backup.value);
      } else if dst + cut <= len {
        StoreNothing(ies[..], dst + n);
      }
      AddSub(len, dst, cut, n);
      ieLength := Add32(dst + n, remainder);
    }

    /** p is where the e-th element starts. */
    ghost predicate At(es: seq<Elem>, e: nat, p: nat)
      reads this, ies
    {
      && e < |es| && p == FIXED_IE_LENGTH + |EncodeAll(es[..e])|
      && p + 2 + |es[e].body| <= ieLength <= ies.Length
      && ies[p + 1] == |es[e].body| && |EncodeAll(es[..e + 1])| == |EncodeAll(es[..e])| + 2 + |es[e].body|
    }

    /** The walk of rtw_add_bcn_ie: the last element passed or the one that matches. */
    method Scan(index: Byte, ghost es: seq<Elem>) returns (p: Option<nat>, bmatch: bool)
      requires Has(es)
      ensures var k := FirstNotBelow(es, index);
        && (bmatch <==> Matches(es, index))
        && (p.None? <==> !bmatch && k == 0)
        && (p.Some? ==> At(es, if bmatch then k else k - 1, p.value))
    {
      hide FirstNotBelow, EncodeAll;
      p, bmatch := None, false;
      var i := FIXED_IE_LENGTH;
      ghost var k := 0;
      EncodeEmpty();
      assert es[..|es|] == es && es[..0] == [];
      while i < ieLength
        invariant 0 <= k <= |es| && i == FIXED_IE_LENGTH + |EncodeAll(es[..k])|
        invariant forall j :: 0 <= j < k ==> es[j].id < index
        invariant if k == 0 then p == None else p.Some? && At(es, k - 1, p.value)
        invariant !bmatch
        decreases |es| - k
      {
        HeaderAt(ies[..], FIXED_IE_LENGTH, es, k);
        if ies[i] > index {
          return;
        } else if ies[i] == index {
          return Some(i), true;
        }
        p := Some(i);
        i := i + ies[i + 1] + 2;
        k := k + 1;
      }
      AllPassed(es, k);
    }

    lemma AllPassed(es: seq<Elem>, k: nat)
      requires Has(es) && k <= |es| && ieLength <= FIXED_IE_LENGTH + |EncodeAll(es[..k])|
      ensures k == |es|
    {
      hide EncodeAll;
      if k < |es| {
        HeaderAt(ies[..], FIXED_IE_LENGTH, es, k);
      }
    }

    /** rtw_add_bcn_ie */
    method AddBcnIe(index: Byte, data: Body, ghost es: seq<Elem>)
      requires Has(es) && FIXED_IE_LENGTH + |EncodeAll(Added(es, index, data))| <= ies.Length
      modifies this`ieLength, ies
      ensures Has(Added(es, index, data)) && ies[..FIXED_IE_LENGTH] == old(ies[..FIXED_IE_LENGTH])
    {
      hide EncodeAll, FirstNotBelow, Carries, Spliced;
      LengthOf(ies[..], ieLength, es);
      var p, bmatch := Scan(index, es);
      if p.None? || ies[p.value + 1] == 0 {
        return;
      }
      ghost var k, e := FirstNotBelow(es, index), Elem(index, data);
      var n := 2 + ies[p.value + 1] as int;
      AddedLength(es, index, data);
      if bmatch {
        ReplaceElem(ies[..], ieLength, es, k, e);
        Splice(p.value, n, [index, |data|] + data);
      } else {
        InsertElem(ies[..], ieLength, es, k, e);
        Splice(p.value + n, 0, [index, |data|] + data);
      }
    }
  }

  lemma AddedLength(es: seq<Elem>, index: Byte, data: Body)
    requires Anchored(es, index)
    ensures var k := FirstNotBelow(es, index);
      |EncodeAll(Added(es, index, data))| == |EncodeAll(es)| + 2 + |data| - if Matches(es, index) then 2 + |es[k].body| else 0
  {
    hide FirstNotBelow, EncodeAll;
    var k, e := FirstNotBelow(es, index), Elem(index, data);
    if Matches(es, index) { ReplacedLength(es, k, e); } else { InsertedLength(es, k, e); }
  }
}
