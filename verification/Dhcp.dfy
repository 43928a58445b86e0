/** Forcing the broadcast flag in DHCP requests (core/rtw_br_ext.c, dhcp_flag_bcast) and the
  * incremental update of the UDP checksum that goes with it. */
module Dhcp {

  import opened Bytes

  type Word = w: int | 0 <= w < 0x1_0000

  /* ---------- One's complement sums (RFC 1071) ---------- */

  /** A 16-bit word as the host loads it from two bytes of the frame. */
  function Load(big: bool, b0: Byte, b1: Byte): Word {
    if big then 0x100 * b0 + b1 else 0x100 * b1 + b0
  }

  /** The words of a datagram, an odd last byte padded with zero. */
  function Words(big: bool, d: seq<Byte>): seq<Word>
    decreases |d|
  {
    if |d| == 0 then []
    else if |d| == 1 then [Load(big, d[0], 0)]
    else [Load(big, d[0], d[1])] + Words(big, d[2..])
  }

  /** Addition with end-around carry. */
  function OnesAdd(a: Word, b: Word): Word {
    if a + b > 0xffff then a + b - 0xffff else a + b
  }

  function OnesSum(ws: seq<Word>): Word {
    if ws == [] then 0 else OnesAdd(ws[0], OnesSum(ws[1..]))
  }

  /** A checksum is valid when everything it covers, itself included, sums to all ones. */
  predicate ChecksumOk(pseudo: seq<Word>, big: bool, datagram: seq<Byte>) {
    OnesSum(pseudo + Words(big, datagram)) == 0xffff
  }

  function Sum(ws: seq<Word>): nat {
    if ws == [] then 0 else ws[0] + Sum(ws[1..])
  }

  lemma {:induction false} OnesSumIsModular(ws: seq<Word>)
    ensures OnesSum(ws) == if Sum(ws) == 0 then 0 else 1 + (Sum(ws) - 1) % 0xffff
  {
    if ws != [] {
      OnesSumIsModular(ws[1..]);
    }
  }

  lemma AllOnesIff(ws: seq<Word>)
    ensures OnesSum(ws) == 0xffff <==> Sum(ws) > 0 && Sum(ws) % 0xffff == 0
  {
    OnesSumIsModular(ws);
  }

  lemma {:induction false} SumConcat(a: seq<Word>, b: seq<Word>)
    ensures Sum(a + b) == Sum(a) + Sum(b)
  {
    if a == [] {
      assert a + b == b;
    } else {
      SumConcat(a[1..], b);
      assert (a + b)[1..] == a[1..] + b;
    }
  }

  /** Rewriting one aligned pair of bytes changes the sum by the change of that word. */
  lemma {:induction false} SumStore(big: bool, d: seq<Byte>, k: nat, b0: Byte, b1: Byte)
    requires k % 2 == 0 && k + 1 < |d|
    ensures Sum(Words(big, d[k := b0][k + 1 := b1]))
         == Sum(Words(big, d)) - Load(big, d[k], d[k + 1]) + Load(big, b0, b1)
    decreases k
  {
    var e := d[k := b0][k + 1 := b1];
    if k == 0 {
      assert e[2..] == d[2..];
    } else {
      SumStore(big, d[2..], k - 2, b0, b1);
      assert e[2..] == d[2..][k - 2 := b0][k - 1 := b1];
    }
  }

  /* ---------- The method ---------- */

  const ETH_HLEN := 14
  const CHECK := 6      // udphdr.check
  const FLAGS := 18     // dhcpMessage.flags, from the UDP header
  const COOKIE := 244   // dhcpMessage.cookie, from the UDP header

  /** Where the UDP header starts: after an IP header of ihl 32-bit words. */
  function UdpAt(f: seq<Byte>): nat
    requires |f| > ETH_HLEN
  {
    ETH_HLEN + f[ETH_HLEN] % 16 * 4
  }

  predicate IsUdp(f: seq<Byte>)
    requires |f| >= ETH_HLEN && (f[12] == 0x08 && f[13] == 0x00 ==> |f| >= ETH_HLEN + 10)
  {
    f[12] == 0x08 && f[13] == 0x00 && f[ETH_HLEN + 9] == 17
  }

  predicate FromClient(f: seq<Byte>)
    requires |f| > ETH_HLEN && |f| >= UdpAt(f) + 4
  {
    var u := UdpAt(f);
    f[u] == 0 && f[u + 1] == 68 && f[u + 2] == 0 && f[u + 3] == 67
  }

  /** The frame holds every byte the function gets to read; the driver does not check. */
  predicate Readable(f: seq<Byte>) {
    && |f| >= ETH_HLEN
    && (f[12] == 0x08 && f[13] == 0x00 ==> |f| >= ETH_HLEN + 10)
    && (IsUdp(f) ==> |f| >= UdpAt(f) + 4 && (FromClient(f) ==> |f| >= UdpAt(f) + COOKIE + 4))
  }

  /** An IPv4 UDP datagram from port 68 to port 67 that carries the DHCP cookie. */
  predicate DhcpRequest(f: seq<Byte>) {
    && Readable(f) && IsUdp(f) && FromClient(f)
    && var u := UdpAt(f);
       f[u + COOKIE] == 0x63 && f[u + COOKIE + 1] == 0x82 && f[u + COOKIE + 2] == 0x53 && f[u + COOKIE + 3] == 0x63
  }

  predicate BroadcastSet(f: seq<Byte>)
    requires DhcpRequest(f)
  {
    f[UdpAt(f) + FLAGS] >= 0x80
  }

  function At16(big: bool, f: seq<Byte>, k: nat): Word
    requires k + 1 < |f|
  {
    Load(big, f[k], f[k + 1])
  }

  /** The folding loop: any number becomes a 16-bit word of the same residue. */
  method Fold(n: nat) returns (r: Word)
    ensures r == if n == 0 then 0 else 1 + (n - 1) % 0xffff
  {
    var sum := n;
    while sum >= 0x1_0000
      invariant sum >= 0 && (n == 0 <==> sum == 0)
      invariant n > 0 ==> (n - 1) % 0xffff == (sum - 1) % 0xffff
      decreases sum
    {
      FoldStep(sum);
      sum := sum % 0x1_0000 + sum / 0x1_0000;
    }
    r := sum;
  }

  lemma MultipleMod(x: int, q: int)
    ensures (x + q * 0xffff) % 0xffff == x % 0xffff
  {
    assert x + q * 0xffff == (x / 0xffff + q) * 0xffff + x % 0xffff;
  }

  lemma FoldStep(s: nat)
    requires s >= 0x1_0000
    ensures var t := s % 0x1_0000 + s / 0x1_0000; 0 < t < s && (s - 1) % 0xffff == (t - 1) % 0xffff
  {
    var q, r := s / 0x1_0000, s % 0x1_0000;
    assert s == q * 0x1_0000 + r && q >= 1;
    MultipleMod(r + q - 1, q);
  }

  /** The innermost branch: set the bit, update the checksum field. */
  method Mark(f: array<Byte>, big: bool, u: nat)
    requires DhcpRequest(f[..]) && !BroadcastSet(f[..]) && u == UdpAt(f[..])
    modifies f
    ensures f[..] == Marked(big, old(f[..]))
  {
    f[u + FLAGS] := f[u + FLAGS] + 0x80;                       // |= htons(BROADCAST_FLAG)
    var sum := 0xffff - Load(big, f[u + CHECK], f[u + CHECK + 1]);
    sum := sum + Load(big, f[u + FLAGS], f[u + FLAGS + 1]);
    var folded := Fold(sum);
    var check: Word := 0xffff - folded;
    f[u + CHECK] := if big then check / 0x100 else check % 0x100;
    f[u + CHECK + 1] := if big then check % 0x100 else check / 0x100;
  }

  /** dhcp_flag_bcast */
  method DhcpFlagBcast(f: array<Byte>, big: bool, disabled: bool)
    requires !disabled ==> Readable(f[..])
    modifies f
    ensures f[..] == (if !disabled && DhcpRequest(old(f[..])) && !BroadcastSet(old(f[..]))
                      then Marked(big, old(f[..])) else old(f[..]))
  {
    if !disabled && f[12] == 0x08 && f[13] == 0x00 && f[ETH_HLEN + 9] == 17 {
      assert IsUdp(f[..]);
      var u := ETH_HLEN + f[ETH_HLEN] % 16 * 4;
      if f[u] == 0 && f[u + 1] == 68 && f[u + 2] == 0 && f[u + 3] == 67 {
        assert FromClient(f[..]);
        if f[u + COOKIE] == 0x63 && f[u + COOKIE + 1] == 0x82
           && f[u + COOKIE + 2] == 0x53 && f[u + COOKIE + 3] == 0x63 && f[u + FLAGS] < 0x80
        {
          Mark(f, big, u);
        }
      }
    }
  }

  /** The checksum word the C code computes from the old one and the new flags word. */
  function NewCheck(check: Word, flags: Word): Word {
    var n := 0xffff - check + flags;
    0xffff - if n == 0 then 0 else 1 + (n - 1) % 0xffff
  }

  /** The frame with the broadcast bit set and the new checksum word. */
  function Marked(big: bool, f: seq<Byte>): seq<Byte>
    requires DhcpRequest(f) && !BroadcastSet(f)
  {
    var u := UdpAt(f);
    var b := f[u + FLAGS] + 0x80;
    var check := NewCheck(At16(big, f, u + CHECK), Load(big, b, f[u + FLAGS + 1]));
    f[u + FLAGS := b]
     [u + CHECK := if big then check / 0x100 else check % 0x100]
     [u + CHECK + 1 := if big then check % 0x100 else check / 0x100]
  }

  /* ---------- The checksum after the update ---------- */

  /** The UDP datagram of the given length inside the frame. */
  function Datagram(f: seq<Byte>, len: nat): seq<Byte>
    requires |f| > ETH_HLEN && UdpAt(f) + len <= |f|
  {
    f[UdpAt(f)..UdpAt(f) + len]
  }

  /** A datagram with these flags and checksum bytes. */
  function Patched(d: seq<Byte>, b: Byte, c0: Byte, c1: Byte): seq<Byte>
    requires FLAGS + 2 <= |d|
  {
    d[FLAGS := b][CHECK := c0][CHECK + 1 := c1]
  }

  lemma MarkedIsPatched(big: bool, f: seq<Byte>, len: nat)
    requires DhcpRequest(f) && !BroadcastSet(f) && FLAGS + 2 <= len && UdpAt(f) + len <= |f|
    ensures |Marked(big, f)| == |f| && UdpAt(Marked(big, f)) == UdpAt(f)
    ensures var d := Datagram(f, len);
      var check := NewCheck(At16(big, d, CHECK), Load(big, d[FLAGS] + 0x80, d[FLAGS + 1]));
      Datagram(Marked(big, f), len) ==
        Patched(d, d[FLAGS] + 0x80, if big then check / 0x100 else check % 0x100,
                if big then check % 0x100 else check / 0x100)
  {
    hide NewCheck;
  }

  lemma PatchedSum(big: bool, d: seq<Byte>, b: Byte, check: Word)
    requires FLAGS + 2 <= |d|
    ensures var e := Patched(d, b, if big then check / 0x100 else check % 0x100,
                             if big then check % 0x100 else check / 0x100);
      Sum(Words(big, e)) ==
        Sum(Words(big, d)) - At16(big, d, FLAGS) + Load(big, b, d[FLAGS + 1]) - At16(big, d, CHECK) + check
  {
    var c0, c1 := if big then check / 0x100 else check % 0x100, if big then check % 0x100 else check / 0x100;
    var d1 := d[FLAGS := b][FLAGS + 1 := d[FLAGS + 1]];
    assert d1 == d[FLAGS := b];
    SumStore(big, d, FLAGS, b, d[FLAGS + 1]);
    SumStore(big, d1, CHECK, c0, c1);
  }

  /** Only two aligned words of the datagram change. */
  lemma MarkedDatagram(big: bool, f: seq<Byte>, len: nat)
    requires DhcpRequest(f) && !BroadcastSet(f) && FLAGS + 2 <= len && UdpAt(f) + len <= |f|
    ensures |Marked(big, f)| == |f| && UdpAt(Marked(big, f)) == UdpAt(f)
    ensures var d, e := Datagram(f, len), Datagram(Marked(big, f), len);
      var flags := Load(big, d[FLAGS] + 0x80, d[FLAGS + 1]);
      && Sum(Words(big, e)) == Sum(Words(big, d)) - At16(big, d, FLAGS) + flags
                               - At16(big, d, CHECK) + NewCheck(At16(big, d, CHECK), flags)
      && e[FLAGS] >= 0x80
  {
    hide NewCheck, Marked, Words, Sum, Load;
    MarkedIsPatched(big, f, len);
    var d := Datagram(f, len);
    PatchedSum(big, d, d[FLAGS] + 0x80, NewCheck(At16(big, d, CHECK), Load(big, d[FLAGS] + 0x80, d[FLAGS + 1])));
  }

  /** The new checksum makes up for the flags word as it is now, not for its change. */
  lemma NewCheckMod(s: int, former: Word, changed: Word, check: Word)
    requires changed > 0
    ensures (s - former + changed - check + NewCheck(check, changed)) % 0xffff == (s - former) % 0xffff
  {
    var n := 0xffff - check + changed;
    var q := (n - 1) / 0xffff;
    assert NewCheck(check, changed) == 0xffff - (n - q * 0xffff);
    MultipleMod(s - former, q);
  }

  /** For every DHCP message whose broadcast bit was clear, of any length that covers its
    * flags and on hosts of either byte order: the datagram has a valid checksum afterwards
    * exactly when its words, before, summed to the old flags word modulo 2^16 - 1. */
  lemma ValidAfterIff(pseudo: seq<Word>, big: bool, f: seq<Byte>, len: nat)
    requires DhcpRequest(f) && !BroadcastSet(f) && FLAGS + 2 <= len && UdpAt(f) + len <= |f|
    ensures |Marked(big, f)| == |f| && UdpAt(Marked(big, f)) == UdpAt(f)
    ensures var d := Datagram(f, len);
      ChecksumOk(pseudo, big, Datagram(Marked(big, f), len)) <==>
      (Sum(pseudo + Words(big, d)) - At16(big, d, FLAGS)) % 0xffff == 0
  {
    hide NewCheck, Marked, Words, Sum;
    MarkedDatagram(big, f, len);
    var d, e := Datagram(f, len), Datagram(Marked(big, f), len);
    SumConcat(pseudo, Words(big, d));
    SumConcat(pseudo, Words(big, e));
    NewCheckMod(Sum(pseudo + Words(big, d)), At16(big, d, FLAGS), Load(big, d[FLAGS] + 0x80, d[FLAGS + 1]), At16(big, d, CHECK));
    AllOnesIff(pseudo + Words(big, e));
    NewWordPositive(pseudo, big, e);
  }

  lemma DifferenceDivides(s: int, x: Word)
    requires s % 0xffff == 0 && x < 0xffff
    ensures (s - x) % 0xffff == 0 <==> x == 0
  {
    MultipleMod(0 - x, s / 0xffff);
  }

  /** The update keeps a valid checksum valid exactly when every flag was 0: the code adds the
    * whole flags word to the sum instead of its change. */
  lemma StaysValidIffFlagsZero(pseudo: seq<Word>, big: bool, f: seq<Byte>, len: nat)
    requires DhcpRequest(f) && !BroadcastSet(f) && FLAGS + 2 <= len && UdpAt(f) + len <= |f|
    requires ChecksumOk(pseudo, big, Datagram(f, len))
    ensures |Marked(big, f)| == |f| && UdpAt(Marked(big, f)) == UdpAt(f)
    ensures ChecksumOk(pseudo, big, Datagram(Marked(big, f), len)) <==> At16(big, Datagram(f, len), FLAGS) == 0
  {
    ValidAfterIff(pseudo, big, f, len);
    var ws := pseudo + Words(big, Datagram(f, len));
    AllOnesIff(ws);
    DifferenceDivides(Sum(ws), At16(big, Datagram(f, len), FLAGS));
  }

  lemma NewCheckZeroIff(check: Word, flags: Word)
    ensures NewCheck(check, flags) == 0 <==> check == flags || (check == 0 && flags == 0xffff)
  {
    var n := 0xffff - check + flags;
    if n > 0xffff {
      assert n - 1 - 0xffff < 0xffff;
    }
  }

  lemma SplitLoads(big: bool, w: Word)
    ensures Load(big, if big then w / 0x100 else w % 0x100, if big then w % 0x100 else w / 0x100) == w
  {
  }

  /** The new checksum field is 0, which in UDP says that there is none, exactly when the old one
    * was the flags word as it is now, or there was none and every flag is now set. */
  lemma NewFieldZeroIff(big: bool, f: seq<Byte>, len: nat)
    requires DhcpRequest(f) && !BroadcastSet(f) && FLAGS + 2 <= len && UdpAt(f) + len <= |f|
    ensures |Marked(big, f)| == |f| && UdpAt(Marked(big, f)) == UdpAt(f)
    ensures var d, e := Datagram(f, len), Datagram(Marked(big, f), len);
      var check, flags := At16(big, d, CHECK), At16(big, e, FLAGS);
      At16(big, e, CHECK) == 0 <==> check == flags || (check == 0 && flags == 0xffff)
  {
    hide NewCheck, Marked, Load;
    MarkedIsPatched(big, f, len);
    var d := Datagram(f, len);
    var flags := Load(big, d[FLAGS] + 0x80, d[FLAGS + 1]);
    SplitLoads(big, NewCheck(At16(big, d, CHECK), flags));
    NewCheckZeroIff(At16(big, d, CHECK), flags);
  }

  /** A datagram sent without a checksum (field 0) gets one all the same, unless every flag is
    * now set; and it is right only when the words happened to sum to the old flags word. */
  lemma UncheckedGetsChecksum(pseudo: seq<Word>, big: bool, f: seq<Byte>, len: nat)
    requires DhcpRequest(f) && !BroadcastSet(f) && FLAGS + 2 <= len && UdpAt(f) + len <= |f|
    requires At16(big, Datagram(f, len), CHECK) == 0
    ensures |Marked(big, f)| == |f| && UdpAt(Marked(big, f)) == UdpAt(f)
    ensures var d, e := Datagram(f, len), Datagram(Marked(big, f), len);
      && (At16(big, e, CHECK) != 0 <==> At16(big, e, FLAGS) != 0xffff)
      && (ChecksumOk(pseudo, big, e) <==>
          (Sum(pseudo + Words(big, d)) - At16(big, d, FLAGS)) % 0xffff == 0)
  {
    hide Marked, Words, Sum, OnesSum, NewCheck;
    ValidAfterIff(pseudo, big, f, len);
    NewFieldZeroIff(big, f, len);
    MarkedDatagram(big, f, len);
  }

  lemma NewWordPositive(pseudo: seq<Word>, big: bool, d: seq<Byte>)
    requires FLAGS + 2 <= |d| && d[FLAGS] >= 0x80
    ensures Sum(pseudo + Words(big, d)) > 0
  {
    SumConcat(pseudo, Words(big, d));
    SumStore(big, d, FLAGS, 0, 0);
  }

  /* ---------- Two requests ---------- */

  const REQUEST_LEN := COOKIE + 4

  /** The words of the UDP pseudo header (RFC 768): addresses, protocol, UDP length. */
  function PseudoHeader(big: bool, f: seq<Byte>): (r: seq<Word>)
    requires |f| >= UDP_AT + 8
  {
    [At16(big, f, ETH_HLEN + 12), At16(big, f, ETH_HLEN + 14), At16(big, f, ETH_HLEN + 16),
     At16(big, f, ETH_HLEN + 18), Load(big, 0, f[ETH_HLEN + 9]), At16(big, f, UDP_AT + 4)]
  }

  const UDP_AT := ETH_HLEN + 20

  /** Ethernet and IP header of a frame from 0.0.0.0 to 255.255.255.255. */
  const HEADERS: seq<Byte> :=
    [0, 0, 0, 0, 0, 0, 0, 0, 0, 0, 0, 0, 0x08, 0,
     0x45, 0, 1, 12, 0, 0, 0, 0, 64, 17, 0, 0, 0, 0, 0, 0, 0xff, 0xff, 0xff, 0xff]

  function Zeros(n: nat): (d: seq<Byte>)
    ensures |d| == n
  {
    seq(n, _ => 0)
  }

  lemma {:induction false} ZerosSum(big: bool, n: nat)
    ensures Sum(Words(big, Zeros(n))) == 0
  {
    if n >= 2 {
      assert Zeros(n)[2..] == Zeros(n - 2);
      ZerosSum(big, n - 2);
    }
  }

  function Put(d: seq<Byte>, k: nat, b0: Byte, b1: Byte): (r: seq<Byte>)
    requires k + 1 < |d|
    ensures |r| == |d|
  {
    d[k := b0][k + 1 := b1]
  }

  /** A word set where there was 0 adds to the sum. */
  lemma PutSum(big: bool, d: seq<Byte>, k: nat, b0: Byte, b1: Byte)
    requires k % 2 == 0 && k + 1 < |d| && d[k] == d[k + 1] == 0
    ensures Sum(Words(big, Put(d, k, b0, b1))) == Sum(Words(big, d)) + Load(big, b0, b1)
  {
    SumStore(big, d, k, b0, b1);
  }

  /** A request of 248 octets: ports, length, checksum, transaction ID, flags and cookie. */
  function Request(c0: Byte, c1: Byte, x0: Byte, x1: Byte, flags: Byte): (d: seq<Byte>)
    ensures |d| == REQUEST_LEN
  {
    var d := Put(Put(Ports(c0, c1), 12, x0, x1), FLAGS, 0, flags);
    Put(Put(d, COOKIE, 0x63, 0x82), COOKIE + 2, 0x53, 0x63)
  }

  function Ports(c0: Byte, c1: Byte): (d: seq<Byte>)
    ensures |d| == REQUEST_LEN
  {
    Put(Put(Put(Put(Zeros(REQUEST_LEN), 0, 0, 68), 2, 0, 67), 4, 0, REQUEST_LEN), CHECK, c0, c1)
  }

  lemma PortsSum(big: bool, c0: Byte, c1: Byte)
    ensures Sum(Words(big, Ports(c0, c1))) ==
      Load(big, 0, 68) + Load(big, 0, 67) + Load(big, 0, REQUEST_LEN) + Load(big, c0, c1)
    ensures forall k :: 8 <= k < REQUEST_LEN ==> Ports(c0, c1)[k] == 0
  {
    hide Sum, Words, Load;
    var z := Zeros(REQUEST_LEN);
    ZerosSum(big, REQUEST_LEN);
    PutSum(big, z, 0, 0, 68);
    PutSum(big, Put(z, 0, 0, 68), 2, 0, 67);
    PutSum(big, Put(Put(z, 0, 0, 68), 2, 0, 67), 4, 0, REQUEST_LEN);
    PutSum(big, Put(Put(Put(z, 0, 0, 68), 2, 0, 67), 4, 0, REQUEST_LEN), CHECK, c0, c1);
  }

  lemma RequestSum(big: bool, c0: Byte, c1: Byte, x0: Byte, x1: Byte, flags: Byte)
    ensures Sum(Words(big, Request(c0, c1, x0, x1, flags))) ==
      Load(big, 0, 68) + Load(big, 0, 67) + Load(big, 0, REQUEST_LEN) + Load(big, c0, c1)
      + Load(big, x0, x1) + Load(big, 0, flags) + Load(big, 0x63, 0x82) + Load(big, 0x53, 0x63)
  {
    hide Sum, Words, Load, Ports;
    PortsSum(big, c0, c1);
    var p := Ports(c0, c1);
    PutSum(big, p, 12, x0, x1);
    PutSum(big, Put(p, 12, x0, x1), FLAGS, 0, flags);
    var q := Put(Put(p, 12, x0, x1), FLAGS, 0, flags);
    PutSum(big, q, COOKIE, 0x63, 0x82);
    PutSum(big, Put(q, COOKIE, 0x63, 0x82), COOKIE + 2, 0x53, 0x63);
  }

  function Frame(c0: Byte, c1: Byte, x0: Byte, x1: Byte, flags: Byte): (f: seq<Byte>)
    ensures |f| == UDP_AT + REQUEST_LEN
  {
    HEADERS + Request(c0, c1, x0, x1, flags)
  }

  lemma RequestFields(c0: Byte, c1: Byte, x0: Byte, x1: Byte, flags: Byte)
    ensures var d := Request(c0, c1, x0, x1, flags);
      && d[..6] == [0, 68, 0, 67, 0, REQUEST_LEN] && d[FLAGS] == 0 && d[COOKIE..] == [0x63, 0x82, 0x53, 0x63]
      && d[CHECK] == c0 && d[CHECK + 1] == c1 && d[FLAGS + 1] == flags
  {
  }

  lemma FrameFields(c0: Byte, c1: Byte, x0: Byte, x1: Byte, flags: Byte)
    ensures var f, d := Frame(c0, c1, x0, x1, flags), Request(c0, c1, x0, x1, flags);
      |f| == UDP_AT + REQUEST_LEN && f[..UDP_AT] == HEADERS && f[UDP_AT..] == d
  {
    hide Request;
  }

  lemma FrameOk(c0: Byte, c1: Byte, x0: Byte, x1: Byte, flags: Byte)
    ensures var f := Frame(c0, c1, x0, x1, flags);
      && DhcpRequest(f) && !BroadcastSet(f) && UdpAt(f) == UDP_AT && |f| == UDP_AT + REQUEST_LEN
      && Datagram(f, REQUEST_LEN) == Request(c0, c1, x0, x1, flags)
  {
    hide Frame, Request;
    FrameFields(c0, c1, x0, x1, flags);
    RequestFields(c0, c1, x0, x1, flags);
    var f, d := Frame(c0, c1, x0, x1, flags), Request(c0, c1, x0, x1, flags);
    var h := f[..UDP_AT];
    assert f[12] == h[12] && f[13] == h[13] && f[ETH_HLEN] == h[ETH_HLEN] && f[ETH_HLEN + 9] == h[ETH_HLEN + 9];
    FromUdp(f, d);
  }

  /** The frame's bytes from the UDP header on. */
  lemma FromUdp(f: seq<Byte>, d: seq<Byte>)
    requires |f| == UDP_AT + REQUEST_LEN && f[UDP_AT..] == d
    requires d[..6] == [0, 68, 0, 67, 0, REQUEST_LEN] && d[COOKIE..] == [0x63, 0x82, 0x53, 0x63]
    ensures |d| == REQUEST_LEN && f[UDP_AT..UDP_AT + REQUEST_LEN] == d && f[UDP_AT + FLAGS] == d[FLAGS]
    ensures f[UDP_AT] == 0 && f[UDP_AT + 1] == 68 && f[UDP_AT + 2] == 0 && f[UDP_AT + 3] == 67
    ensures f[UDP_AT + 4] == 0 && f[UDP_AT + 5] == REQUEST_LEN
    ensures f[UDP_AT + COOKIE] == 0x63 && f[UDP_AT + COOKIE + 1] == 0x82
    ensures f[UDP_AT + COOKIE + 2] == 0x53 && f[UDP_AT + COOKIE + 3] == 0x63
  {
    var x, y := d[..6], d[COOKIE..];
    assert forall k :: 0 <= k < REQUEST_LEN ==> f[UDP_AT + k] == d[k];
    assert d[0] == x[0] && d[1] == x[1] && d[2] == x[2] && d[3] == x[3] && d[4] == x[4] && d[5] == x[5];
    assert d[COOKIE] == y[0] && d[COOKIE + 1] == y[1] && d[COOKIE + 2] == y[2] && d[COOKIE + 3] == y[3];
  }

  lemma FramePseudo(big: bool, c0: Byte, c1: Byte, x0: Byte, x1: Byte, flags: Byte)
    ensures var f := Frame(c0, c1, x0, x1, flags);
      && |f| >= UDP_AT + 8
      && Sum(PseudoHeader(big, f)) == 2 * 0xffff + Load(big, 0, 17) + Load(big, 0, REQUEST_LEN)
  {
    hide Frame, Request, Sum;
    FrameFields(c0, c1, x0, x1, flags);
    RequestFields(c0, c1, x0, x1, flags);
    var f, d := Frame(c0, c1, x0, x1, flags), Request(c0, c1, x0, x1, flags);
    var h := PseudoHeader(big, f);
    FromUdp(f, d);
    assert forall k :: 0 <= k < UDP_AT ==> f[k] == HEADERS[k];
    SixWords(h);
  }

  /** Everything the checksum of such a request covers. */
  lemma CoveredSum(big: bool, c0: Byte, c1: Byte, x0: Byte, x1: Byte, flags: Byte)
    ensures var f := Frame(c0, c1, x0, x1, flags);
      && UdpAt(f) + REQUEST_LEN <= |f|
      && Sum(PseudoHeader(big, f) + Words(big, Datagram(f, REQUEST_LEN))) ==
        2 * 0xffff + Load(big, 0, 17) + 2 * Load(big, 0, REQUEST_LEN) + Load(big, 0, 68) + Load(big, 0, 67)
        + Load(big, c0, c1) + Load(big, x0, x1) + Load(big, 0, flags) + Load(big, 0x63, 0x82) + Load(big, 0x53, 0x63)
  {
    hide Words, Request, Frame, Sum, Load, PseudoHeader;
    FrameOk(c0, c1, x0, x1, flags);
    FramePseudo(big, c0, c1, x0, x1, flags);
    RequestSum(big, c0, c1, x0, x1, flags);
    var f := Frame(c0, c1, x0, x1, flags);
    SumConcat(PseudoHeader(big, f), Words(big, Datagram(f, REQUEST_LEN)));
  }

  lemma SixWords(h: seq<Word>)
    requires |h| == 6
    ensures Sum(h) == h[0] as int + h[1] as int + h[2] as int + h[3] as int + h[4] as int + h[5] as int
  {
    TwoWords(h);
    TwoWords(h[2..]);
    TwoWords(h[4..]);
    assert h[2..][2..] == h[4..];
  }

  lemma TwoWords(h: seq<Word>)
    requires |h| >= 2
    ensures Sum(h) == h[0] as int + h[1] as int + Sum(h[2..])
  {
    assert h[1..][1..] == h[2..];
  }

  /** A request with flags 1 and a valid checksum, which is wrong afterwards. */
  lemma FlaggedFrameBreaks(big: bool)
    ensures var f := Frame(0x46, 0x91, 0, 0, 1);
      && DhcpRequest(f) && !BroadcastSet(f) && UdpAt(f) + REQUEST_LEN == |f|
      && At16(big, Datagram(f, REQUEST_LEN), CHECK) != 0
      && ChecksumOk(PseudoHeader(big, f), big, Datagram(f, REQUEST_LEN))
      && |Marked(big, f)| == |f| && UdpAt(Marked(big, f)) == UdpAt(f)
      && !ChecksumOk(PseudoHeader(big, f), big, Datagram(Marked(big, f), REQUEST_LEN))
  {
    hide Words, Sum, OnesSum, Marked, Frame, Request;
    RequestFields(0x46, 0x91, 0, 0, 1);
    var f := Frame(0x46, 0x91, 0, 0, 1);
    FrameOk(0x46, 0x91, 0, 0, 1);
    CoveredSum(big, 0x46, 0x91, 0, 0, 1);
    AllOnesIff(PseudoHeader(big, f) + Words(big, Datagram(f, REQUEST_LEN)));
    StaysValidIffFlagsZero(PseudoHeader(big, f), big, f, REQUEST_LEN);
  }

  /** A request without flags whose valid checksum is 0x8000: it has none afterwards. */
  lemma ChecksumLost(big: bool)
    ensures var f := Frame(0x80, 0, 0xc6, 0x91, 0);
      && DhcpRequest(f) && !BroadcastSet(f) && UdpAt(f) + REQUEST_LEN == |f|
      && At16(big, Datagram(f, REQUEST_LEN), CHECK) != 0
      && ChecksumOk(PseudoHeader(big, f), big, Datagram(f, REQUEST_LEN))
      && |Marked(big, f)| == |f| && UdpAt(Marked(big, f)) == UdpAt(f)
      && At16(big, Datagram(Marked(big, f), REQUEST_LEN), CHECK) == 0
  {
    hide Words, Sum, OnesSum, Marked, Frame, Request;
    RequestFields(0x80, 0, 0xc6, 0x91, 0);
    var f := Frame(0x80, 0, 0xc6, 0x91, 0);
    FrameOk(0x80, 0, 0xc6, 0x91, 0);
    CoveredSum(big, 0x80, 0, 0xc6, 0x91, 0);
    AllOnesIff(PseudoHeader(big, f) + Words(big, Datagram(f, REQUEST_LEN)));
    MarkedIsPatched(big, f, REQUEST_LEN);
    NewFieldZeroIff(big, f, REQUEST_LEN);
  }

  /** Where the octets stand that make the frame a DHCP request: EtherType, IP protocol, ports and
    * cookie. */
  predicate Decides(k: nat) {
    k == 12 || k == 13 || k == 23 || 34 <= k < 38 || 278 <= k < 282
  }

  /** A request with one of these octets changed is none. */
  lemma EveryOctetDecides(c0: Byte, c1: Byte, x0: Byte, x1: Byte, flags: Byte, k: nat, b: Byte)
    requires Decides(k) && b != Frame(c0, c1, x0, x1, flags)[k]
    ensures var g := Frame(c0, c1, x0, x1, flags)[k := b]; Readable(g) && !DhcpRequest(g)
  {
    hide Frame;
    FrameOk(c0, c1, x0, x1, flags);
  }

  lemma FlagSet(c0: Byte, c1: Byte, x0: Byte, x1: Byte, flags: Byte, b: Byte)
    requires b >= 0x80 && UDP_AT + FLAGS < |Frame(c0, c1, x0, x1, flags)|
    ensures var g := Frame(c0, c1, x0, x1, flags)[UDP_AT + FLAGS := b]; DhcpRequest(g) && BroadcastSet(g)
  {
    hide Frame;
    FrameOk(c0, c1, x0, x1, flags);
  }

  /** Such a frame stays as it is, and so does a request whose broadcast flag is set. */
  method OnlyRequestsMarked(f: array<Byte>, c0: Byte, c1: Byte, x0: Byte, x1: Byte, flags: Byte, k: nat, b: Byte, big: bool)
    requires (Decides(k) && b != Frame(c0, c1, x0, x1, flags)[k]) || (k == UDP_AT + FLAGS && b >= 0x80)
    requires f[..] == Frame(c0, c1, x0, x1, flags)[k := b]
    modifies f
    ensures f[..] == old(f[..])
  {
    hide Frame, Marked;
    if Decides(k) { EveryOctetDecides(c0, c1, x0, x1, flags, k, b); } else { FlagSet(c0, c1, x0, x1, flags, b); }
    DhcpFlagBcast(f, big, false);
  }
}
