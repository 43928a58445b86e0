/** The HE PPE thresholds (core/rtw_he.c): three-bit fields packed across byte boundaries, as in
  * section 9.4.2.248.5 of IEEE 802.11ax-2021. */
module Ppe {

  import opened Bits
  import opened Bytes

  const RUS := 4
  const STREAMS := 8
  const HEADER_BITS := 7

  /* ---------- Bits of numbers, least significant first ---------- */

  function BitsOf(x: nat, n: nat): (b: seq<bool>)
    ensures |b| == n
  {
    if n == 0 then [] else [x % 2 == 1] + BitsOf(x / 2, n - 1)
  }

  function Num(b: seq<bool>): nat {
    if b == [] then 0 else (if b[0] then 1 else 0) + 2 * Num(b[1..])
  }

  /** A byte string as one string of bits. */
  function BitString(bytes: seq<Byte>): (b: seq<bool>)
    ensures |b| == 8 * |bytes|
  {
    if bytes == [] then [] else BitsOf(bytes[0], 8) + BitString(bytes[1..])
  }

  /** Bits packed into bytes, the last byte filled up with zero bits. */
  function Pack(b: seq<bool>): (bytes: seq<Byte>)
    ensures |bytes| == (|b| + 7) / 8
    decreases |b|
  {
    if b == [] then [] else
      var n := if |b| < 8 then |b| else 8;
      NumBound(b[..n], 8);
      [Num(b[..n])] + Pack(b[n..])
  }

  lemma {:induction false} NumBound(b: seq<bool>, n: nat)
    requires |b| <= n
    ensures Num(b) < Pow2(n) && Pow2(8) == 0x100
  {
    if b != [] {
      NumBound(b[1..], n - 1);
    }
    assert Pow2(4) == 16 && Pow2(6) == 64;
  }

  lemma {:induction false} BitsOfNum(b: seq<bool>, n: nat)
    requires |b| <= n
    ensures BitsOf(Num(b), n)[..|b|] == b
  {
    if b != [] {
      BitsOfNum(b[1..], n - 1);
      assert Num(b) / 2 == Num(b[1..]) && (Num(b) % 2 == 1) == b[0];
      assert BitsOf(Num(b), n)[..|b|] == [b[0]] + BitsOf(Num(b[1..]), n - 1)[..|b| - 1];
    }
  }

  lemma {:induction false} NumOfBits(x: nat, n: nat)
    requires x < Pow2(n)
    ensures Num(BitsOf(x, n)) == x
  {
    if n > 0 {
      NumOfBits(x / 2, n - 1);
      assert BitsOf(x, n)[1..] == BitsOf(x / 2, n - 1);
    }
  }

  lemma {:induction false} ShrDrops(x: nat, n: nat, s: nat)
    requires s <= n
    ensures BitsOf(Shr(x, s), n - s) == BitsOf(x, n)[s..]
  {
    if s > 0 {
      ShrDrops(x / 2, n - 1, s - 1);
      assert BitsOf(x, n)[s..] == BitsOf(x / 2, n - 1)[s - 1..];
    }
  }

  lemma {:induction false} FewerBits(x: nat, m: nat, n: nat)
    requires m <= n
    ensures BitsOf(x, m) == BitsOf(x, n)[..m]
  {
    if m > 0 {
      FewerBits(x / 2, m - 1, n - 1);
    }
  }

  lemma {:induction false} JoinBits(lo: nat, hi: nat, k: nat, m: nat)
    requires lo < Pow2(k)
    ensures BitsOf(lo + Pow2(k) * hi, k + m) == BitsOf(lo, k) + BitsOf(hi, m)
  {
    if k > 0 {
      var t := Pow2(k - 1) * hi;
      assert Pow2(k) * hi == 2 * t;
      assert (lo + 2 * t) % 2 == lo % 2 && (lo + 2 * t) / 2 == lo / 2 + t;
      JoinBits(lo / 2, hi, k - 1, m);
    }
  }

  lemma OneMoreBit(x: nat, n: nat)
    ensures Num(BitsOf(x, n + 1)) == x % 2 + 2 * Num(BitsOf(x / 2, n))
  {
    assert BitsOf(x, n + 1)[1..] == BitsOf(x / 2, n);
  }

  lemma ThreeBits(x: nat)
    ensures x % 8 == Num(BitsOf(x, 3))
  {
    OneMoreBit(x, 2);
    OneMoreBit(x / 2, 1);
    OneMoreBit(x / 2 / 2, 0);
  }

  lemma Mod16(x: nat)
    ensures x % 16 == x % 2 + 2 * (x / 2 % 8)
  {
    var q, r := x / 16, x % 16;
    assert x == 2 * (8 * q) + r;
    assert x / 2 == 8 * q + r / 2 && r / 2 < 8;
    assert x / 2 % 8 == r / 2;
  }

  lemma FourBits(x: nat)
    ensures x % 16 == Num(BitsOf(x, 4))
  {
    hide BitsOf, Num;
    OneMoreBit(x, 3);
    ThreeBits(x / 2);
    Mod16(x);
  }

  lemma {:induction false} BitsAt(bytes: seq<Byte>, o: nat)
    requires o + 1 < |bytes|
    ensures BitString(bytes)[8 * o..8 * o + 16] == BitsOf(bytes[o], 8) + BitsOf(bytes[o + 1], 8)
  {
    if o == 0 {
      assert bytes[1..][0] == bytes[1];
    } else {
      BitsAt(bytes[1..], o - 1);
      assert BitString(bytes)[8 * o..8 * o + 16] == BitString(bytes[1..])[8 * (o - 1)..8 * (o - 1) + 16];
    }
  }

  lemma {:induction false} BitsOfPack(b: seq<bool>, rest: seq<Byte>)
    ensures BitString(Pack(b) + rest)[..|b|] == b
    decreases |b|
  {
    if b != [] {
      var n := if |b| < 8 then |b| else 8;
      var p := Pack(b);
      BitsOfNum(b[..n], 8);
      BitsOfPack(b[n..], rest);
      assert (p + rest)[1..] == Pack(b[n..]) + rest;
      assert BitString(p + rest)[..|b|] == BitsOf(p[0], 8)[..n] + BitString(Pack(b[n..]) + rest)[..|b| - n];
    }
  }

  /* ---------- Reading a field ---------- */

  function Word(ele: seq<Byte>, o: nat): nat
    requires o + 1 < |ele|
  {
    var hi: int := ele[o + 1];
    ele[o] + 0x100 * hi
  }

  /** Three bits at a bit offset, taken from the two bytes there, low byte first. */
  function Read(ele: seq<Byte>, shift: nat): nat
    requires shift / 8 + 1 < |ele|
  {
    Shr(Word(ele, shift / 8), shift % 8) % 8
  }

  lemma WordBits(ele: seq<Byte>, o: nat)
    requires o + 1 < |ele|
    ensures BitsOf(Word(ele, o), 16) == BitString(ele)[8 * o..8 * o + 16]
  {
    hide BitString, BitsOf, Pow2;
    NumBound([], 8);
    JoinBits(ele[o], ele[o + 1], 8, 8);
    BitsAt(ele, o);
  }

  lemma Window(b: seq<bool>, lo: nat, n: nat, s: nat, m: nat)
    requires lo + n <= |b| && s + m <= n
    ensures b[lo..lo + n][s..][..m] == b[lo + s..lo + s + m]
  {
  }

  lemma FieldInWord(ele: seq<Byte>, o: nat, s: nat)
    requires o + 1 < |ele| && s < 8
    ensures 8 * o + s + 3 <= |BitString(ele)|
    ensures Shr(Word(ele, o), s) % 8 == Num(BitString(ele)[8 * o + s..8 * o + s + 3])
  {
    hide BitString, BitsOf, Shr, Word, Num;
    var w, b := Word(ele, o), BitString(ele);
    WordBits(ele, o);
    ShrDrops(w, 16, s);
    FewerBits(Shr(w, s), 3, 16 - s);
    ThreeBits(Shr(w, s));
    Window(b, 8 * o, 16, s, 3);
  }

  /** The read is right wherever the field lies. */
  lemma ReadIsField(ele: seq<Byte>, shift: nat)
    requires shift / 8 + 1 < |ele|
    ensures Read(ele, shift) == Num(BitString(ele)[shift..shift + 3])
  {
    hide BitString, Shr, Word, Num;
    FieldInWord(ele, shift / 8, shift % 8);
  }

  /* ---------- The thresholds of an element ---------- */

  /** PPET16 and PPET8 of one stream count and RU size. */
  type Thr = x: nat | x < 8
  datatype Pair = Pair(ppet16: Thr, ppet8: Thr)

  /** Whether the mask has RU size j. */
  predicate Has(mask: nat, j: nat) {
    Shr(mask, j) % 2 == 1
  }

  /** Cells are numbered by stream count, then RU size.  The bits of the first k of them. */
  function Cells(ppe: seq<Pair>, mask: nat, k: nat): seq<bool>
    requires k <= |ppe|
  {
    if k == 0 then [] else
      Cells(ppe, mask, k - 1)
        + if Has(mask, (k - 1) % RUS) then BitsOf(ppe[k - 1].ppet16, 3) + BitsOf(ppe[k - 1].ppet8, 3) else []
  }

  /** The PPE Thresholds field: NSTS, the RU mask, and a pair for each stream count and each RU
    * size in the mask. */
  function Layout(nsts: nat, mask: nat, ppe: seq<Pair>): seq<bool> {
    BitsOf(nsts, 3) + BitsOf(mask, 4) + Cells(ppe, mask, |ppe|)
  }

  /** The bit offset the parser has reached before cell k. */
  function ShiftAt(mask: nat, k: nat): (s: nat)
    ensures s <= HEADER_BITS + 6 * k
  {
    if k == 0 then HEADER_BITS else ShiftAt(mask, k - 1) + if Has(mask, (k - 1) % RUS) then 6 else 0
  }

  /** The value stored for a pair, and for an RU size that is absent. */
  function Stored(p: Pair): nat {
    p.ppet16 + 8 * p.ppet8
  }

  lemma {:induction false} CellsPrefix(ppe: seq<Pair>, mask: nat, k: nat, n: nat)
    requires k <= n <= |ppe|
    ensures |Cells(ppe, mask, k)| + HEADER_BITS == ShiftAt(mask, k)
    ensures Cells(ppe, mask, k) <= Cells(ppe, mask, n)
    decreases n
  {
    if k < n {
      CellsPrefix(ppe, mask, k, n - 1);
    } else if k > 0 {
      CellsPrefix(ppe, mask, k - 1, n - 1);
    }
  }

  lemma CellBits(b: seq<bool>, nsts: nat, mask: nat, ppe: seq<Pair>, k: nat)
    requires Layout(nsts, mask, ppe) <= b && k < |ppe| && Has(mask, k % RUS)
    ensures ShiftAt(mask, k) + 6 <= |b|
    ensures var s := ShiftAt(mask, k);
      b[s..s + 3] == BitsOf(ppe[k].ppet16, 3) && b[s + 3..s + 6] == BitsOf(ppe[k].ppet8, 3)
  {
    hide BitsOf, Has;
    var x, y := BitsOf(ppe[k].ppet16, 3), BitsOf(ppe[k].ppet8, 3);
    CellsPrefix(ppe, mask, k, |ppe|);
    CellsPrefix(ppe, mask, k + 1, |ppe|);
    var c := BitsOf(nsts, 3) + BitsOf(mask, 4) + Cells(ppe, mask, k);
    assert Cells(ppe, mask, k + 1) == Cells(ppe, mask, k) + (x + y);
    assert c + x + y <= Layout(nsts, mask, ppe);
    Slices(b, c, x, y);
  }

  lemma Slices(b: seq<bool>, c: seq<bool>, x: seq<bool>, y: seq<bool>)
    requires c + x + y <= b
    ensures b[|c|..|c| + |x|] == x && b[|c| + |x|..|c| + |x| + |y|] == y
  {
    assert b[..|c| + |x| + |y|] == c + x + y;
  }

  /** Reading at the running offset gives the pair back, whatever follows the field. */
  lemma CellIsRead(ele: seq<Byte>, nsts: nat, mask: nat, ppe: seq<Pair>, k: nat)
    requires Layout(nsts, mask, ppe) <= BitString(ele) && k < |ppe| && Has(mask, k % RUS)
    requires (ShiftAt(mask, k) + 3) / 8 + 1 < |ele|
    ensures Read(ele, ShiftAt(mask, k)) == ppe[k].ppet16
    ensures Read(ele, ShiftAt(mask, k) + 3) == ppe[k].ppet8
  {
    hide BitString, BitsOf, Read, Num, Layout, ShiftAt, Has;
    var s := ShiftAt(mask, k);
    CellBits(BitString(ele), nsts, mask, ppe, k);
    ReadIsField(ele, s);
    ReadIsField(ele, s + 3);
    assert Pow2(3) == 8;
    NumOfBits(ppe[k].ppet16, 3);
    NumOfBits(ppe[k].ppet8, 3);
  }

  /** The header fields are those of the layout. */
  lemma HeaderIsRead(ele: seq<Byte>, nsts: nat, mask: nat, ppe: seq<Pair>)
    requires Layout(nsts, mask, ppe) <= BitString(ele) && ele != [] && nsts < 8 && mask < 16
    ensures ele[0] % 8 == nsts && Shr(ele[0], 3) % 16 == mask
  {
    hide BitsOf, Num, Shr, Cells;
    var b := BitsOf(ele[0], 8);
    assert b == BitString(ele)[..8];
    Slices(BitString(ele), [], BitsOf(nsts, 3), BitsOf(mask, 4));
    FewerBits(ele[0], 3, 8);
    ThreeBits(ele[0]);
    ShrDrops(ele[0], 8, 3);
    FewerBits(Shr(ele[0], 3), 4, 5);
    FourBits(Shr(ele[0], 3));
    assert b[..3] == BitsOf(nsts, 3) && b[3..][..4] == BitsOf(mask, 4);
    assert Pow2(2) == 4 && Pow2(3) == 8 && Pow2(4) == 16;
    NumOfBits(nsts, 3);
    NumOfBits(mask, 4);
  }

  /* ---------- The parser ---------- */

  lemma {:induction false} ShiftGrows(mask: nat, k: nat, n: nat)
    requires k <= n
    ensures ShiftAt(mask, k) <= ShiftAt(mask, n)
  {
    if k < n {
      ShiftGrows(mask, k, n - 1);
    }
  }

  function Nsts(ele: seq<Byte>): (n: nat)
    requires ele != []
    ensures n < STREAMS
  {
    ele[0] % 8
  }

  function RuMask(ele: seq<Byte>): nat
    requires ele != []
  {
    Shr(ele[0], 3) % 16
  }

  /** How many pairs the first k cells have. */
  function Pairs(mask: nat, k: nat): (p: nat)
    ensures ShiftAt(mask, k) == HEADER_BITS + 6 * p
  {
    if k == 0 then 0 else Pairs(mask, k - 1) + if Has(mask, (k - 1) % RUS) then 1 else 0
  }

  /** Every byte the parser reads is there, in the element or behind it. */
  predicate Readable(ele: seq<Byte>) {
    && ele != []
    && forall k :: 0 <= k < RUS * (Nsts(ele) + 1) && Has(RuMask(ele), k % RUS)
         ==> (ShiftAt(RuMask(ele), k) + 3) / 8 + 1 < |ele|
  }

  /** What is stored for cell k of an element. */
  function Value(ele: seq<Byte>, k: nat): nat
    requires Readable(ele) && k < RUS * (Nsts(ele) + 1)
  {
    var mask := RuMask(ele);
    if Has(mask, k % RUS) then Read(ele, ShiftAt(mask, k)) + 8 * Read(ele, ShiftAt(mask, k) + 3) else 0
  }

  /** The parser inverts the layout: from any element whose bits begin with the layout of some
    * thresholds it takes exactly those thresholds, and 0 for every absent RU size. */
  lemma ParserInvertsLayout(ele: seq<Byte>, nsts: nat, mask: nat, ppe: seq<Pair>, k: nat)
    requires nsts < STREAMS && mask < 16 && |ppe| == RUS * (nsts + 1) && k < |ppe|
    requires Readable(ele) && Layout(nsts, mask, ppe) <= BitString(ele)
    ensures Nsts(ele) == nsts && RuMask(ele) == mask
    ensures Value(ele, k) == if Has(mask, k % RUS) then Stored(ppe[k]) else 0
  {
    hide Layout, BitString, Has, ShiftAt, Read, Shr;
    HeaderIsRead(ele, nsts, mask, ppe);
    AtCell(ele, k / RUS, k % RUS);
    if Has(mask, k % RUS) {
      CellIsRead(ele, nsts, mask, ppe, k);
    }
  }

  /** The last cell that is present. */
  lemma {:induction false} LastPresent(mask: nat, n: nat) returns (k: nat)
    requires Pairs(mask, n) > 0
    ensures k < n && Has(mask, k % RUS) && ShiftAt(mask, k) + 6 == ShiftAt(mask, n)
  {
    if Has(mask, (n - 1) % RUS) {
      k := n - 1;
    } else {
      k := LastPresent(mask, n - 1);
    }
  }

  /** Only the last two-byte read decides whether all of them are inside. */
  lemma ReadableIff(ele: seq<Byte>)
    requires ele != []
    ensures var p := Pairs(RuMask(ele), RUS * (Nsts(ele) + 1));
      Readable(ele) <==> p == 0 || (HEADER_BITS + 6 * p - 3) / 8 + 1 < |ele|
  {
    hide Has, ShiftAt, Nsts, RuMask, Pairs;
    var mask, n := RuMask(ele), RUS * (Nsts(ele) + 1);
    var p := Pairs(mask, n);
    if p > 0 {
      var k := LastPresent(mask, n);
    }
    forall k | 0 <= k < n && Has(mask, k % RUS)
      ensures p > 0 && ShiftAt(mask, k) + 6 <= ShiftAt(mask, n)
    {
      PresentStep(mask, k);
      ShiftGrows(mask, k + 1, n);
      assert ShiftAt(mask, k) == HEADER_BITS + 6 * Pairs(mask, k);
    }
  }

  lemma PresentStep(mask: nat, k: nat)
    requires Has(mask, k % RUS)
    ensures ShiftAt(mask, k + 1) == ShiftAt(mask, k) + 6
  {
  }

  /** With p pairs the last two-byte read leaves the field, which ends with their last bit,
    * unless p is 3 more than a multiple of 4. */
  predicate ReadsOn(p: nat) {
    p > 0 && p % 4 != 3
  }

  lemma ReadsOnIff(p: nat)
    requires p > 0
    ensures ReadsOn(p) <==> (HEADER_BITS + 6 * p - 3) / 8 + 1 >= (HEADER_BITS + 6 * p + 7) / 8
  {
  }

  /** A packed field can be parsed in place exactly when something stands behind it or the last
    * read stays inside. */
  lemma PackedReadableIff(nsts: nat, mask: nat, ppe: seq<Pair>, rest: seq<Byte>)
    requires nsts < STREAMS && mask < 16 && |ppe| == RUS * (nsts + 1)
    ensures var ele := Pack(Layout(nsts, mask, ppe)) + rest;
      && ele != [] && Nsts(ele) == nsts && RuMask(ele) == mask
      && (Readable(ele) <==> rest != [] || !ReadsOn(Pairs(mask, |ppe|)))
  {
    hide BitString, Pack, BitsOf, Cells, Has, Read, Shr, Readable, ShiftAt, Pairs, ReadsOn;
    var b, p := Layout(nsts, mask, ppe), Pairs(mask, |ppe|);
    var ele := Pack(b) + rest;
    BitsOfPack(b, rest);
    CellsPrefix(ppe, mask, |ppe|, |ppe|);
    HeaderIsRead(ele, nsts, mask, ppe);
    ReadableIff(ele);
    if p > 0 { ReadsOnIff(p); } else { NoPairs(); }
  }

  lemma NoPairs()
    ensures !ReadsOn(0)
  {
  }

  /** One stream count and one RU size: the field is two bytes, and the parser reads a third. */
  lemma OnePairReadsOn(ppe: seq<Pair>)
    requires |ppe| == RUS
    ensures |Pack(Layout(0, 1, ppe))| == 2 && !Readable(Pack(Layout(0, 1, ppe)))
  {
    hide Readable, Pack, Layout;
    OnePair();
    CellsPrefix(ppe, 1, RUS, RUS);
    LayoutLength(0, 1, ppe);
    PackedReadableIff(0, 1, ppe, []);
    assert Pack(Layout(0, 1, ppe)) + [] == Pack(Layout(0, 1, ppe));
  }

  lemma LayoutLength(nsts: nat, mask: nat, ppe: seq<Pair>)
    ensures |Layout(nsts, mask, ppe)| == HEADER_BITS + |Cells(ppe, mask, |ppe|)|
  {
  }

  lemma OnePair()
    ensures Pairs(1, RUS) == 1 && ReadsOn(1)
  {
    assert Has(1, 0) && !Has(1, 1) && !Has(1, 2) && !Has(1, 3);
    assert Pairs(1, 1) == 1 && Pairs(1, 2) == 1 && Pairs(1, 3) == 1;
  }

  /** Packing thresholds and parsing them gives them back, whatever stands behind the field. */
  lemma PackThenParse(nsts: nat, mask: nat, ppe: seq<Pair>, rest: seq<Byte>, k: nat)
    requires nsts < STREAMS && mask < 16 && |ppe| == RUS * (nsts + 1) && k < |ppe|
    requires rest != [] || !ReadsOn(Pairs(mask, |ppe|))
    ensures var ele := Pack(Layout(nsts, mask, ppe)) + rest;
      && Readable(ele) && Nsts(ele) == nsts
      && Value(ele, k) == if Has(mask, k % RUS) then Stored(ppe[k]) else 0
  {
    hide BitString, Pack, Layout, Has, Read, Shr, Readable, Value;
    PackedReadableIff(nsts, mask, ppe, rest);
    BitsOfPack(Layout(nsts, mask, ppe), rest);
    ParserInvertsLayout(Pack(Layout(nsts, mask, ppe)) + rest, nsts, mask, ppe, k);
  }

  lemma AtCell(ele: seq<Byte>, i: nat, j: nat)
    requires Readable(ele) && i <= Nsts(ele) && j < RUS
    ensures var (mask, k) := (RuMask(ele), RUS * i + j);
      var s := ShiftAt(mask, k);
      && s + 6 <= 199 && k < RUS * (Nsts(ele) + 1)
      && ShiftAt(mask, k + 1) == s + (if Has(mask, j) then 6 else 0)
      && (Has(mask, j) ==> (s + 3) / 8 + 1 < |ele|)
      && Value(ele, k) == if Has(mask, j) then Read(ele, s) + 8 * Read(ele, s + 3) else 0
  {
    hide Has, Read, Shr;
    var k := RUS * i + j;
    assert k % RUS == j;
  }

  class StaCap {
    var padding: nat          // pkt_padding
    const thr: array2<nat>    // ppe_thr[i][j]

    constructor ()
      ensures fresh(thr) && thr.Length0 == STREAMS && thr.Length1 == RUS && padding == 0
    {
      padding, thr := 0, new nat[STREAMS, RUS];
    }

    /** The inner loop: the row of one stream count. */
    method SetRow(ele: seq<Byte>, mask: nat, i: nat, start: U8) returns (shift: U8)
      requires thr.Length0 == STREAMS && thr.Length1 == RUS
      requires Readable(ele) && mask == RuMask(ele) && i <= Nsts(ele) && start == ShiftAt(mask, RUS * i)
      modifies thr
      ensures shift == ShiftAt(mask, RUS * (i + 1))
      ensures forall c :: 0 <= c < RUS ==> thr[i, c] == Value(ele, RUS * i + c)
      ensures forall r, c :: 0 <= r < STREAMS && 0 <= c < RUS && r != i ==> thr[r, c] == old(thr[r, c])
    {
      hide Read, Shr, ShiftAt, Value, Has, Readable, RuMask, Nsts;
      shift := start;
      for j := 0 to RUS
        invariant shift == ShiftAt(mask, RUS * i + j)
        invariant forall c :: 0 <= c < j ==> thr[i, c] == Value(ele, RUS * i + c)
        invariant forall r, c :: 0 <= r < STREAMS && 0 <= c < RUS && r != i ==> thr[r, c] == old(thr[r, c])
      {
        AtCell(ele, i, j);
        if Has(mask, j) {
          var ppe16 := Read(ele, shift);
          shift := shift + 3;
          var ppe8 := Read(ele, shift);
          shift := shift + 3;
          thr[i, j] := ppe16 + 8 * ppe8;
        } else {
          thr[i, j] := 0;
        }
      }
    }

    /** The outer loop. */
    method SetRows(ele: seq<Byte>, nsts: nat, mask: nat)
      requires thr.Length0 == STREAMS && thr.Length1 == RUS
      requires Readable(ele) && nsts == Nsts(ele) && mask == RuMask(ele)
      modifies thr
      ensures forall r, c :: 0 <= r <= nsts && 0 <= c < RUS ==> thr[r, c] == Value(ele, RUS * r + c)
      ensures forall r, c :: nsts < r < STREAMS && 0 <= c < RUS ==> thr[r, c] == old(thr[r, c])
    {
      var shift: U8 := HEADER_BITS;
      hide Shr, Value, Has, Readable, RuMask, ShiftAt;
      ShiftStart(mask);
      for i := 0 to nsts + 1
        invariant shift == ShiftAt(mask, RUS * i)
        invariant forall r, c :: 0 <= r < i && 0 <= c < RUS ==> thr[r, c] == Value(ele, RUS * r + c)
        invariant forall r, c :: i <= r < STREAMS && 0 <= c < RUS ==> thr[r, c] == old(thr[r, c])
      {
        shift := SetRow(ele, mask, i, shift);
      }
    }

    /** rtw_he_set_asoc_cap_ppe_thre: rows above NSTS are left as they were. */
    method SetPpeThre(ele: seq<Byte>)
      requires thr.Length0 == STREAMS && thr.Length1 == RUS
      requires padding == 3 ==> Readable(ele)
      modifies thr
      ensures padding != 3 ==> unchanged(thr)
      ensures padding == 3 ==>
        forall i, j :: 0 <= i < STREAMS && 0 <= j < RUS ==>
          thr[i, j] == if i <= Nsts(ele) then Value(ele, RUS * i + j) else old(thr[i, j])
    {
      if padding != 3 { return; }
      hide Shr, Value, Has, Readable;
      SetRows(ele, ele[0] % 8, Shr(ele[0], 3) % 16);
    }
  }

  lemma ShiftStart(mask: nat)
    ensures ShiftAt(mask, 0) == HEADER_BITS
  {
  }

  /** The two thresholds of a stored value. */
  lemma StoredFields(p: Pair)
    ensures Stored(p) % 8 == p.ppet16 && Stored(p) / 8 == p.ppet8
  {
  }

  /** One pair for one stream and the first RU size: PPET16 is 3 and PPET8 is 5. */
  lemma FieldAtInput()
    ensures var ele := [0x88, 0x15, 0];
      Readable(ele) && Nsts(ele) == 0 && Value(ele, 0) == 3 + 8 * 5 && Value(ele, 1) == 0
  {
    hide Shr, Word;
    Shifts();
    ShiftStart(1);
  }

  lemma Shifts()
    ensures Shr(0x88, 3) == 17 && Has(1, 0) && !Has(1, 1) && !Has(1, 2) && !Has(1, 3)
    ensures Shr(Word([0x88, 0x15, 0], 0), 7) == 43 && Shr(Word([0x88, 0x15, 0], 1), 2) == 5
  {
    assert Shr(0x88, 3) == Shr(0x44, 2) == Shr(0x22, 1) == 17;
    assert Word([0x88, 0x15, 0], 0) == 5512 && Word([0x88, 0x15, 0], 1) == 21;
    assert Shr(5512, 7) == Shr(2756, 6) == Shr(1378, 5) == Shr(689, 4);
    assert Shr(689, 4) == Shr(344, 3) == Shr(172, 2) == Shr(86, 1) == 43;
    assert Shr(21, 2) == Shr(10, 1) == 5;
  }
}
