/** Reads of the serial EEPROM (core/rtw_eeprom.c): bytes from 16-bit words, words from clocked
  * bits, bits from writes to a line register. */
module Eeprom {

  import opened Bits

  const READ_OPCODE := 6
  const OPCODE_BITS := 3
  const WORD_BITS := 16

  /* ---------- Bits of numbers, most significant first ---------- */

  function MsbBits(x: nat, n: nat): (b: seq<bool>)
    ensures |b| == n
  {
    if n == 0 then [] else MsbBits(x / 2, n - 1) + [x % 2 == 1]
  }

  function Num(b: seq<bool>): nat {
    if b == [] then 0 else 2 * Num(b[..|b| - 1]) + if b[|b| - 1] then 1 else 0
  }

  lemma NumNone()
    ensures Num([]) == 0
  {
  }

  lemma NumSnoc(b: seq<bool>, d: bool)
    ensures Num(b + [d]) == 2 * Num(b) + if d then 1 else 0
  {
    assert (b + [d])[..|b|] == b;
  }

  /** The lines of register EE_9346CR. */
  datatype Lines = Lines(cs: bool, sk: bool, di: bool, dout: bool, em0: bool, em1: bool)

  /** The device: the bits latched since it was selected, and the bits it has yet to present. */
  datatype Chip = Chip(got: seq<bool>, out: seq<bool>, dout: bool)

  const IDLE := Chip([], [], false)

  predicate On(x: Lines) {
    x.cs && x.em1 && !x.em0
  }

  /** A rising clock edge.  The device latches DI until it has an opcode and an address; a read
    * command makes it present the word, one bit at each further edge. */
  function Edge(c: Chip, mem: seq<U16>, di: bool, asize: nat): (r: Chip)
    requires |mem| == Pow2(asize)
  {
    if |c.got| < OPCODE_BITS + asize then
      var got := c.got + [di];
      if |got| == OPCODE_BITS + asize && got[..OPCODE_BITS] == MsbBits(READ_OPCODE, OPCODE_BITS)
      then Chip(got, Presented(mem, got[OPCODE_BITS..], asize), false)
      else c.(got := got)
    else if c.out == [] then c
    else c.(dout := c.out[0], out := c.out[1..])
  }

  function Presented(mem: seq<U16>, address: seq<bool>, asize: nat): (b: seq<bool>)
    requires |mem| == Pow2(asize) && |address| == asize
    ensures |b| == WORD_BITS
  {
    NumBound(address);
    MsbBits(mem[Num(address)], WORD_BITS)
  }

  lemma {:induction false} Pow2Sum(m: nat, n: nat)
    ensures Pow2(m + n) == Pow2(m) * Pow2(n)
  {
    if m > 0 {
      Pow2Sum(m - 1, n);
      assert 2 * Pow2(m - 1) * Pow2(n) == 2 * (Pow2(m - 1) * Pow2(n));
    }
  }

  lemma Pow2Of16()
    ensures Pow2(16) == 0x1_0000 && Pow2(15) == 0x8000
  {
    assert Pow2(4) == 16;
    Pow2Sum(4, 4);
    Pow2Sum(8, 8);
  }

  lemma {:induction false} NumBound(b: seq<bool>)
    ensures Num(b) < Pow2(|b|)
  {
    if b != [] {
      NumBound(b[..|b| - 1]);
    }
  }

  lemma {:induction false} NumOfBits(x: nat, n: nat)
    ensures Num(MsbBits(x, n)) == x % Pow2(n)
  {
    if n > 0 {
      NumOfBits(x / 2, n - 1);
      NumSnoc(MsbBits(x / 2, n - 1), x % 2 == 1);
      HalfMod(x, Pow2(n - 1));
    }
  }

  lemma HalfMod(x: nat, p: nat)
    requires p > 0
    ensures x % (2 * p) == 2 * (x / 2 % p) + x % 2
  {
    var q, r := x / 2 / p, x / 2 % p;
    assert x / 2 == q * p + r;
    var t := q * p;
    assert q * (2 * p) == 2 * t;
    ModUnique(x, 2 * p, q, 2 * r + x % 2);
  }

  /** Edges with these values on DI. */
  function Feed(c: Chip, mem: seq<U16>, bits: seq<bool>, asize: nat): Chip
    requires |mem| == Pow2(asize)
  {
    if bits == [] then c else Edge(Feed(c, mem, bits[..|bits| - 1], asize), mem, bits[|bits| - 1], asize)
  }

  lemma FeedOne(c: Chip, mem: seq<U16>, bits: seq<bool>, i: nat, asize: nat)
    requires |mem| == Pow2(asize) && i < |bits|
    ensures Feed(c, mem, bits[..i + 1], asize) == Edge(Feed(c, mem, bits[..i], asize), mem, bits[i], asize)
  {
    assert bits[..i + 1][..i] == bits[..i];
  }

  lemma FeedNone(c: Chip, mem: seq<U16>, asize: nat)
    requires |mem| == Pow2(asize)
    ensures Feed(c, mem, [], asize) == c
  {
  }

  lemma HalfMask(k: nat)
    ensures Pow2(k) / 2 == if k == 0 then 0 else Pow2(k - 1)
  {
  }

  /** The device latches what is fed until its command is complete. */
  lemma {:induction false} FeedLatches(c: Chip, mem: seq<U16>, bits: seq<bool>, asize: nat)
    requires |mem| == Pow2(asize) && |c.got| + |bits| < OPCODE_BITS + asize
    ensures Feed(c, mem, bits, asize) == c.(got := c.got + bits)
  {
    if bits != [] {
      FeedLatches(c, mem, bits[..|bits| - 1], asize);
      assert c.got + bits[..|bits| - 1] + [bits[|bits| - 1]] == c.got + bits;
    } else {
      assert c.got + bits == c.got;
    }
  }

  lemma LastEdge(mem: seq<U16>, a: seq<bool>, asize: nat)
    requires |mem| == Pow2(asize) && asize == |a| > 0
    ensures var op := MsbBits(READ_OPCODE, OPCODE_BITS);
      Edge(Chip(op + a[..asize - 1], [], false), mem, a[asize - 1], asize) == Chip(op + a, Presented(mem, a, asize), false)
  {
    hide MsbBits, Presented, Pow2;
    var op := MsbBits(READ_OPCODE, OPCODE_BITS);
    var got := op + a[..asize - 1] + [a[asize - 1]];
    assert got == op + a;
    assert got[..OPCODE_BITS] == op && got[OPCODE_BITS..] == a;
  }

  /** The opcode and then an address, fed to a freshly selected device, make it present the word
    * at that address; of the address only the low bits count. */
  lemma ReadCommand(mem: seq<U16>, reg: nat, asize: nat)
    requires |mem| == Pow2(asize) && asize > 0
    ensures var c := Feed(Feed(IDLE, mem, MsbBits(READ_OPCODE, OPCODE_BITS), asize), mem, MsbBits(reg, asize), asize);
      && |c.got| == OPCODE_BITS + asize
      && reg % |mem| < |mem| && c.out == MsbBits(mem[reg % |mem|], WORD_BITS)
  {
    hide MsbBits, Edge, Pow2;
    var op, a := MsbBits(READ_OPCODE, OPCODE_BITS), MsbBits(reg, asize);
    FeedLatches(IDLE, mem, op, asize);
    assert IDLE.got + op == op;
    FeedLatches(IDLE.(got := op), mem, a[..asize - 1], asize);
    LastEdge(mem, a, asize);
    NumOfBits(reg, asize);
  }

  /** The C operator &. */
  function And(x: nat, y: nat): nat {
    if x == 0 || y == 0 then 0 else 2 * And(x / 2, y / 2) + (if x % 2 == 1 && y % 2 == 1 then 1 else 0)
  }

  lemma {:induction false} MaskPicks(x: nat, k: nat)
    ensures And(x, Pow2(k)) != 0 <==> Shr(x, k) % 2 == 1
  {
    if k > 0 {
      MaskPicks(x / 2, k - 1);
      if x == 0 { ShrZero(k); }
    } else if x > 0 {
      assert And(x / 2, 0) == 0;
    }
  }

  lemma {:induction false} ShrZero(k: nat)
    ensures Shr(0, k) == 0
  {
    if k > 0 {
      ShrZero(k - 1);
    }
  }

  /** Bit i of a word sent with its most significant bit first. */
  lemma {:induction false} SentBit(x: nat, n: nat, i: nat)
    requires i < n
    ensures MsbBits(x, n)[i] == (Shr(x, n - 1 - i) % 2 == 1)
  {
    if i < n - 1 {
      SentBit(x / 2, n - 1, i);
    }
  }

  lemma InRange(b: seq<bool>, n: nat)
    requires |b| == n < WORD_BITS
    ensures 2 * Num(b) + 1 < 0x1_0000
  {
    NumBound(b);
    Pow2Grows(n, WORD_BITS - 1);
    Pow2Of16();
  }

  lemma {:induction false} Pow2Grows(m: nat, n: nat)
    requires m <= n
    ensures Pow2(m) <= Pow2(n)
  {
    if m < n {
      Pow2Grows(m, n - 1);
    }
  }

  /** Sending a word bit by bit and putting the bits together gives the word. */
  lemma WordOfBits(w: U16)
    ensures Num(MsbBits(w, WORD_BITS)) == w
  {
    hide MsbBits, Num, Pow2;
    NumOfBits(w, WORD_BITS);
    Pow2Of16();
  }

  /** The word a register names. */
  function WordAt(mem: seq<U16>, reg: nat): U16
    requires mem != []
  {
    mem[reg % |mem|]
  }

  /** Byte n of the memory, low byte of a word first; addresses wrap at its end. */
  function ByteAt(mem: seq<U16>, n: nat): U8
    requires mem != []
  {
    var w := WordAt(mem, n / 2);
    if n % 2 == 0 then w % 0x100 else w / 0x100
  }

  /** A register number is cut to 16 bits before it is cut to the device's address width. */
  lemma CutTwice(mem: seq<U16>, asize: nat, x: nat)
    requires |mem| == Pow2(asize) && asize <= WORD_BITS
    ensures WordAt(mem, Reg(x)) == WordAt(mem, x)
  {
    Pow2Sum(asize, WORD_BITS - asize);
    Pow2Of16();
    ModDivides(x, Pow2(asize), Pow2(WORD_BITS - asize), 0x1_0000);
  }

  lemma ModDivides(x: nat, m: nat, k: nat, n: nat)
    requires m > 0 && n > 0 && n == m * k
    ensures x % n % m == x % m
  {
    var q, r := x / n, x % n;
    var p, s := r / m, r % m;
    assert x == q * n + r && r == p * m + s;
    Regroup(q, k, p, m, n);
    ModUnique(x, m, q * k + p, s);
  }

  lemma Regroup(q: nat, k: nat, p: nat, m: nat, n: nat)
    requires n == m * k
    ensures q * n + p * m == (q * k + p) * m
  {
    assert q * (m * k) == (q * k) * m;
  }

  /** A register number is an unsigned 16-bit variable. */
  function Reg(n: nat): U16 {
    n % 0x1_0000
  }

  lemma NextReg(first: nat, i: nat)
    ensures Reg(Reg(first) + i) == Reg(first + i)
  {
  }

  function Low(w: U16): U8 {
    w % 0x100
  }

  function High(w: U16): U8 {
    w / 0x100 % 0x100
  }

  lemma TwoBytes(mem: seq<U16>, w: nat)
    requires mem != []
    ensures ByteAt(mem, 2 * w) == Low(WordAt(mem, w)) && ByteAt(mem, 2 * w + 1) == High(WordAt(mem, w))
  {
  }

  /** How many bytes a read stores: the length is an unsigned byte, and an odd start takes one
    * from it before it is looked at. */
  function Stored(addr: nat, sz: U8): nat {
    if addr % 2 == 1 && sz == 0 then 0x100 else sz
  }

  /** The number of bytes stored is the length asked for exactly unless an odd start meets length
    * 0: then it is 256. */
  lemma StoredIsLengthIff(addr: nat, sz: U8)
    ensures Stored(addr, sz) == sz <==> addr % 2 == 0 || sz > 0
    ensures Stored(1, 0) == 0x100
  {
  }

  /** How often the reading of one word asks whether the adapter was removed. */
  function WordChecks(asize: nat): nat {
    2 + (OPCODE_BITS + 2) + (asize + 2) + (WORD_BITS + 1) + 4
  }

  /** How many words a read fetches. */
  function WordsRead(addr: nat, sz: U8): nat {
    (addr % 2 + Stored(addr, sz) + 1) / 2
  }

  function Checks(asize: nat, words: nat): nat {
    words * WordChecks(asize)
  }

  lemma OneMoreWord(asize: nat, n: nat)
    ensures Checks(asize, 0) == 0 && Checks(asize, 1) == WordChecks(asize) > 0
    ensures Checks(asize, n + 1) == Checks(asize, n) + WordChecks(asize)
  {
  }

  /* ---------- The adapter ---------- */

  class Adapter {
    var lines: Lines          // EE_9346CR as last written
    var chip: Chip
    const mem: seq<U16>
    const asize: nat          // EepromAddressSize
    var life: nat             // when the surprise removal is noticed
    var gone: bool            // whether it was noticed

    constructor (words: seq<U16>, size: nat, l: nat)
      requires size > 0 && size <= WORD_BITS && |words| == Pow2(size)
      ensures Wired() && Idle() && !gone && life == l && mem == words && asize == size
    {
      lines := Lines(false, false, false, false, false, false);
      chip, mem, asize, life, gone := IDLE, words, size, l, false;
    }

    ghost predicate Wired() {
      0 < asize <= WORD_BITS && |mem| == Pow2(asize)
    }

    /** Not selected, clock low. */
    ghost predicate Idle()
      reads this
    {
      !lines.cs && !lines.sk && chip == IDLE
    }

    /** Selected, between two clocks. */
    ghost predicate Ready()
      reads this
    {
      On(lines) && !lines.sk
    }

    /** After n questions whether the adapter was removed: it is noticed to be gone exactly when
      * it was before or the removal came within them. */
    ghost predicate Asked(was: bool, left: nat, n: nat)
      reads this`life, this`gone
    {
      (gone <==> was || left < n) && (!gone ==> life == left - n)
    }

    /** rtw_is_surprise_removed: from some moment on it says yes. */
    method Removed() returns (r: bool)
      modifies this`life, this`gone
      ensures r == gone && Asked(old(gone), old(life), 1)
    {
      if life == 0 { gone := true; } else { life := life - 1; }
      r := gone;
    }

    method Read8() returns (x: Lines)
      ensures x == lines.(dout := chip.dout)
    {
      x := lines.(dout := chip.dout);
    }

    /** A write of the register, and what the device makes of it. */
    method Write8(x: Lines)
      requires Wired()
      modifies this`lines, this`chip
      ensures lines == x
      ensures chip == if !On(x) then IDLE
                      else if x.sk && !old(lines).sk then Edge(old(chip), mem, x.di, asize) else old(chip)
    {
      if !On(x) {
        chip := IDLE;
      } else if x.sk && !lines.sk {
        chip := Edge(chip, mem, x.di, asize);
      }
      lines := x;
    }

    method UpClk(x: Lines) returns (y: Lines)
      requires Wired()
      modifies this`lines, this`chip
      ensures y == x.(sk := true) && lines == y
      ensures chip == if !On(x) then IDLE else if !old(lines).sk then Edge(old(chip), mem, x.di, asize) else old(chip)
    {
      y := x.(sk := true);
      Write8(y);
    }

    method DownClk(x: Lines) returns (y: Lines)
      requires Wired()
      modifies this`lines, this`chip
      ensures y == x.(sk := false) && lines == y
      ensures chip == if !On(x) then IDLE else old(chip)
    {
      y := x.(sk := false);
      Write8(y);
    }

    /** shift_out_bits: unless the adapter is gone, the device sees the low count bits of data,
      * most significant first, one rising edge each. */
    method ShiftOutBits(data: U16, count: nat)
      requires Wired() && 0 < count <= WORD_BITS && (gone || Ready())
      modifies this`lines, this`chip, this`life, this`gone
      ensures Asked(old(gone), old(life), count + 2)
      ensures gone || (Ready() && chip == Feed(old(chip), mem, MsbBits(data, count), asize))
    {
      hide Edge, MsbBits, Feed, Pow2, And, Shr;
      var r := Removed();
      if r { return; }
      FeedNone(chip, mem, asize);
      var mask := Pow2(count - 1);
      var x := Read8();
      x := x.(dout := false, di := false);
      ghost var i := 0;
      ghost var bits := MsbBits(data, count);
      while true
        invariant i < count && mask == Pow2(count - 1 - i)
        invariant !gone && Asked(old(gone), old(life), i + 1) && Ready() && On(x) && !x.sk
        invariant chip == Feed(old(chip), mem, bits[..i], asize)
        decreases mask
      {
        FeedOne(old(chip), mem, bits, i, asize);
        MaskPicks(data, count - 1 - i);
        SentBit(data, count, i);
        x := x.(di := false);
        if And(data, mask) != 0 {
          x := x.(di := true);
        }
        r := Removed();
        if r { return; }
        Write8(x);
        x := UpClk(x);
        x := DownClk(x);
        HalfMask(count - 1 - i);
        mask := mask / 2;
        i := i + 1;
        if mask == 0 { break; }
      }
      assert bits[..i] == bits;
      r := Removed();
      if r { return; }
      x := x.(di := false);
      Write8(x);
    }

    /** shift_in_bits: unless the adapter is gone, the number the device presents in its next
      * sixteen bits. */
    method ShiftInBits() returns (d: U16)
      requires Wired()
      requires gone || (Ready() && |chip.got| == OPCODE_BITS + asize && |chip.out| == WORD_BITS)
      modifies this`lines, this`chip, this`life, this`gone
      ensures Asked(old(gone), old(life), WORD_BITS + 1)
      ensures gone || (Ready() && d == Num(old(chip).out))
    {
      hide Pow2, MsbBits, Num;
      d := 0;
      NumNone();
      var r := Removed();
      if r { return; }
      var x := Read8();
      x := x.(dout := false, di := false);
      ghost var out := chip.out;
      ghost var got := chip.got;
      for i := 0 to WORD_BITS
        invariant !gone && Asked(old(gone), old(life), i + 1) && Ready() && On(x) && !x.sk && !x.di
        invariant chip.got == got && chip.out == out[i..] && d == Num(out[..i])
      {
        InRange(out[..i], i);
        NumSnoc(out[..i], out[i]);
        assert out[..i + 1] == out[..i] + [out[i]];
        d := d * 2;
        x := UpClk(x);
        r := Removed();
        if r { return; }
        x := Read8();
        x := x.(di := false);
        if x.dout { d := d + 1; }
        x := DownClk(x);
      }
      assert out[..WORD_BITS] == out;
    }

    /** eeprom_clean */
    method Clean()
      requires Wired() && (gone || Ready())
      modifies this`lines, this`chip, this`life, this`gone
      ensures Asked(old(gone), old(life), 4)
      ensures gone || Idle()
    {
      var r := Removed();
      if r { return; }
      var x := Read8();
      r := Removed();
      if r { return; }
      x := x.(cs := false, di := false);
      Write8(x);
      r := Removed();
      if r { return; }
      x := UpClk(x);
      r := Removed();
      if r { return; }
      x := DownClk(x);
    }

    /** eeprom_read16: unless the adapter is gone, the word at the register's low bits; 0 when it
      * was gone before. */
    method Read16(reg: U16) returns (data: U16)
      requires Wired() && (gone || Idle())
      modifies this`lines, this`chip, this`life, this`gone
      ensures Asked(old(gone), old(life), WordChecks(asize))
      ensures gone || (Idle() && data == WordAt(mem, reg))
      ensures old(gone) || old(life) == 0 ==> data == 0
    {
      hide Pow2, MsbBits, Feed;
      data := 0;
      var r := Removed();
      if r { return; }
      var x := Read8();
      r := Removed();
      if r { return; }
      x := x.(di := false, dout := false, sk := false, em0 := false, em1 := true, cs := true);
      Write8(x);
      ReadCommand(mem, reg, asize);
      ShiftOutBits(READ_OPCODE, OPCODE_BITS);
      ShiftOutBits(reg, asize);
      WordOfBits(mem[reg % |mem|]);
      data := ShiftInBits();
      Clean();
    }

    /** Word w of the memory, named by its register: its two bytes. */
    method Fetch(reg: U16, ghost w: nat) returns (stmp: U16)
      requires Wired() && (gone || Idle()) && reg == Reg(w)
      modifies this`lines, this`chip, this`life, this`gone
      ensures Asked(old(gone), old(life), WordChecks(asize))
      ensures gone || Idle()
      ensures gone || (Low(stmp) == ByteAt(mem, 2 * w) && High(stmp) == ByteAt(mem, 2 * w + 1))
      ensures old(gone) || old(life) == 0 ==> Low(stmp) == High(stmp) == 0
    {
      hide Pow2, WordAt, ByteAt, Reg, Low, High, WordChecks;
      CutTwice(mem, asize, w);
      TwoBytes(mem, w);
      NoBytes();
      stmp := Read16(reg);
    }

    /** The first byte of an odd start. */
    method ReadHigh(ghost addr: nat, reg: U16, rbuf: array<U8>)
      requires Wired() && (gone || Idle()) && reg == Reg(addr / 2) && addr % 2 == 1 && rbuf.Length > 0
      modifies this`lines, this`chip, this`life, this`gone, rbuf
      ensures Asked(old(gone), old(life), WordChecks(asize))
      ensures gone || Idle()
      ensures gone || rbuf[0] == ByteAt(mem, addr)
      ensures old(gone) || old(life) == 0 ==> rbuf[0] == 0
      ensures forall k :: 0 < k < rbuf.Length ==> rbuf[k] == old(rbuf[k])
    {
      hide Pow2, WordAt, ByteAt, Reg, Low, High, WordChecks;
      var stmp := Fetch(reg, addr / 2);
      rbuf[0] := High(stmp);
    }

    /** eeprom_read: for any length of at least 1 exactly the bytes from addr on, from odd and
      * even starts alike, unless the adapter is removed before the last word is in.  It always
      * reports success; the bytes are 0 when the adapter was gone from the start. */
    method Read(addr: nat, sz: U8, rbuf: array<U8>) returns (ok: bool)
      requires Wired() && (gone || Idle())
      requires addr < 0x1_0000_0000 && Stored(addr, sz) <= rbuf.Length
      modifies this`lines, this`chip, this`life, this`gone, rbuf
      ensures ok && (gone || Idle())
      ensures Asked(old(gone), old(life), Checks(asize, WordsRead(addr, sz)))
      ensures gone || forall k :: 0 <= k < Stored(addr, sz) ==> rbuf[k] == ByteAt(mem, addr + k)
      ensures old(gone) || old(life) == 0 ==> forall k :: 0 <= k < Stored(addr, sz) ==> rbuf[k] == 0
      ensures forall k :: Stored(addr, sz) <= k < rbuf.Length ==> rbuf[k] == old(rbuf[k])
    {
      hide Pow2, WordAt, ByteAt, Reg, Low, High, WordChecks, Checks;
      var reg: nat, left: nat, idx := Reg(addr / 2), sz, 0;
      OneMoreWord(asize, 0);
      if addr % 2 == 1 {
        ReadHigh(addr, reg, rbuf);
        idx := idx + 1;
        NextReg(addr / 2, 1);
        reg := Reg(reg + 1);
        left := if left == 0 then 0xFF else left - 1;
        OneMoreWord(asize, (left + 1) / 2);
      }
      ReadRest(addr, reg, left, idx, rbuf);
      ok := true;
    }

    /** Whole words and, for an odd rest, the low byte of one more. */
    method ReadRest(ghost addr: nat, start: U16, left: U8, at: nat, rbuf: array<U8>)
      requires Wired() && (gone || Idle()) && addr % 2 == at <= 1 && start == Reg((addr + 1) / 2)
      requires at + left <= rbuf.Length
      requires gone || (at == 1 ==> rbuf[0] == ByteAt(mem, addr))
      modifies this`lines, this`chip, this`life, this`gone, rbuf
      ensures gone || Idle()
      ensures Asked(old(gone), old(life), Checks(asize, (left + 1) / 2))
      ensures gone || forall k :: 0 <= k < at + left ==> rbuf[k] == ByteAt(mem, addr + k)
      ensures old(gone) || old(life) == 0 ==> forall k :: at <= k < at + left ==> rbuf[k] == 0
      ensures forall k :: 0 <= k < at || at + left <= k < rbuf.Length ==> rbuf[k] == old(rbuf[k])
    {
      hide Pow2, WordAt, ByteAt, Reg, Low, High, WordChecks, Checks;
      ghost var first := (addr + 1) / 2;
      var reg: nat, idx := start, at;
      var i := ReadWords(addr, first, reg, left / 2, idx, rbuf);
      idx := idx + 2 * i;
      NextReg(first, i);
      reg := Reg(reg + i);
      if left % 2 == 1 {
        OneMoreWord(asize, i);
        var stmp := Fetch(reg, first + i);
        rbuf[idx] := Low(stmp);
      }
    }

    /** The loop over whole words. */
    method ReadWords(ghost addr: nat, ghost first: nat, reg: U16, quotient: nat, start: nat, rbuf: array<U8>)
      returns (i: nat)
      requires Wired() && (gone || Idle()) && reg == Reg(first)
      requires addr + start == 2 * first && start + 2 * quotient <= rbuf.Length
      requires gone || forall k :: 0 <= k < start ==> rbuf[k] == ByteAt(mem, addr + k)
      modifies this`lines, this`chip, this`life, this`gone, rbuf
      ensures i == quotient && Asked(old(gone), old(life), Checks(asize, quotient))
      ensures gone || Idle()
      ensures gone || forall k :: 0 <= k < start + 2 * quotient ==> rbuf[k] == ByteAt(mem, addr + k)
      ensures old(gone) || old(life) == 0 ==> forall k :: start <= k < start + 2 * quotient ==> rbuf[k] == 0
      ensures forall k :: 0 <= k < start || start + 2 * quotient <= k < rbuf.Length ==> rbuf[k] == old(rbuf[k])
      ensures quotient > 0 && old(life) == 0 ==> gone
    {
      hide Pow2, WordAt, ByteAt, Reg, Low, High, WordChecks, Checks;
      i := 0;
      var idx := start;
      OneMoreWord(asize, 0);
      while i < quotient
        invariant i <= quotient && idx == start + 2 * i && Asked(old(gone), old(life), Checks(asize, i))
        invariant i > 0 && old(life) == 0 ==> gone
        invariant gone || Idle()
        invariant gone || forall k :: 0 <= k < idx ==> rbuf[k] == ByteAt(mem, addr + k)
        invariant old(gone) || old(life) == 0 ==> forall k :: start <= k < idx ==> rbuf[k] == 0
        invariant forall k :: 0 <= k < start || start + 2 * quotient <= k < rbuf.Length ==> rbuf[k] == old(rbuf[k])
      {
        NextReg(first, i);
        OneMoreWord(asize, i);
        var stmp := Fetch(Reg(reg + i), first + i);
        rbuf[idx] := Low(stmp);
        idx := idx + 1;
        rbuf[idx] := High(stmp);
        idx := idx + 1;
        i := i + 1;
      }
    }
  }

  lemma NoBytes()
    ensures Low(0) == High(0) == 0
  {
  }

  /** A device full of ones whose adapter is gone before the first question: the one byte read is
    * 0, and the read reports success. */
  method GoneReportsSuccess() returns (ok: bool, a: Adapter, b: U8)
    ensures ok && a.gone && a.mem != [] && b != ByteAt(a.mem, 0)
  {
    a := new Adapter([0xffff, 0xffff], 1, 0);
    var rbuf := new U8[1];
    ok := a.Read(0, 1, rbuf);
    b := rbuf[0];
  }

  /** Length 0 at an odd address: 256 bytes are stored, high byte of a word first. */
  method ZeroLengthStores() returns (rbuf: array<U8>)
    ensures rbuf.Length == 0x100 && forall k :: 0 <= k < 0x100 ==> rbuf[k] == if k % 2 == 0 then 0x22 else 0x11
  {
    var a := new Adapter([0x2211, 0x2211], 1, 5000);
    rbuf := new U8[0x100];
    var _ := a.Read(1, 0, rbuf);
    forall k | 0 <= k < 0x100 ensures rbuf[k] == if k % 2 == 0 then 0x22 else 0x11 {
      Bytes2211(1 + k);
    }
  }

  lemma Bytes2211(n: nat)
    ensures ByteAt([0x2211, 0x2211], n) == if n % 2 == 0 then 0x11 else 0x22
  {
  }
}
