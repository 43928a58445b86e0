/** 802.1Q frames on the receive side of the NAT2.5 bridge (core/rtw_br_ext.c,
  * nat25_handle_frame): the tag is moved out of the way, the frame is handled as an untagged
  * one, and the tag is put back, all by two-byte copies inside one buffer. */
module Vlan {

  import opened Bytes
  import opened Wrappers
  import NC = Nat25Cache

  type Frame = seq<Byte>

  /* ---------- Frames ---------- */

  /** EtherType 0x8100 at offset 12. */
  predicate Tagged(f: Frame)
    requires |f| >= 14
  {
    f[12] == 0x81 && f[13] == 0x00
  }

  /** The frame without its 802.1Q tag, which follows the two addresses. */
  function Untag(f: Frame): Frame
    requires |f| >= 16
  {
    f[..12] + f[16..]
  }

  /** The frame with a tag of the given control information. */
  function Retag(f: Frame, tci: seq<Byte>): Frame
    requires |f| >= 12
  {
    f[..12] + [0x81, 0x00] + tci + f[12..]
  }

  lemma IsUntag(f: Frame, u: Frame)
    requires |f| >= 16 && |u| == |f| - 4
    requires forall k :: 0 <= k < |u| && k < 12 ==> u[k] == f[k]
    requires forall k :: 12 <= k < |u| ==> u[k] == f[k + 4]
    ensures u == Untag(f)
  {
    var v := Untag(f);
    forall k | 0 <= k < |u| ensures u[k] == v[k] {
      if k >= 12 { assert v[k] == f[16..][k - 12]; }
    }
  }

  lemma IsRetag(g: Frame, tci: seq<Byte>, r: Frame)
    requires |g| >= 12 && |tci| == 2 && |r| == |g| + 4
    requires r[12] == 0x81 && r[13] == 0x00 && r[14] == tci[0] && r[15] == tci[1]
    requires forall k :: 0 <= k < 12 ==> g[k] == r[k]
    requires forall k :: 12 <= k < |g| ==> g[k] == r[k + 4]
    ensures r == Retag(g, tci)
  {
    var v := Retag(g, tci);
    forall k | 0 <= k < |r| ensures r[k] == v[k] {
      if k >= 16 {
        assert v[k] == g[12..][k - 16] && g[k - 4] == r[k];
      } else if k < 12 {
        assert g[k] == r[k];
      }
    }
  }

  /** Removing the tag loses nothing but its control information, and adding one is undone by
    * removing it. */
  lemma UntagRetag(f: Frame, g: Frame, tci: seq<Byte>)
    requires |f| >= 16 && Tagged(f) && |g| >= 12 && |tci| == 2
    ensures Retag(Untag(f), f[14..16]) == f
    ensures Untag(Retag(g, tci)) == g && Tagged(Retag(g, tci)) && Retag(g, tci)[14..16] == tci
  {
    var r := Retag(Untag(f), f[14..16]);
    assert Untag(f)[..12] == f[..12] && Untag(f)[12..] == f[16..];
    assert f == f[..12] + f[12..14] + f[14..16] + f[16..];
    assert f[12..14] == [0x81, 0x00];
    assert Retag(g, tci)[..12] == g[..12];
    assert Retag(g, tci)[16..] == g[12..];
  }

  /* ---------- The step in the middle ---------- */

  /** What the handling of an untagged frame depends on.  lookup is nat25_db_handle with
    * NAT25_LOOKUP: it may rewrite the frame and shorten it at the end. */
  datatype Config = Config(
    nat25Disable: bool, nat25scDisable: bool,
    scdbIp: seq<Byte>, scdbMac: seq<Byte>, brIp: seq<Byte>,
    lookup: Frame -> (Frame, int))

  ghost predicate ConfigOk(c: Config) {
    && |c.scdbIp| == 4 && |c.scdbMac| == 6 && |c.brIp| == 4
    && forall f: Frame :: |f| >= 14 ==> 14 <= |c.lookup(f).0| <= |f|
  }

  predicate EtherType(f: Frame, hi: Byte, lo: Byte)
    requires |f| >= 14
  {
    f[12] == hi && f[13] == lo
  }

  /** The addresses that are compared lie inside the frame; the driver does not check. */
  predicate Readable(f: Frame) {
    && |f| >= 14
    && (EtherType(f, 0x08, 0x00) ==> |f| >= 34)
    && (EtherType(f, 0x08, 0x06) ==> |f| >= 42)
  }

  /** The effect on an untagged frame and the value returned. */
  function Inner(c: Config, f: Frame): (Frame, int)
    requires Readable(f) && |c.scdbMac| == 6
  {
    if !c.nat25Disable then
      if !c.nat25scDisable && EtherType(f, 0x08, 0x00) && f[30..34] == c.scdbIp
      then (c.scdbMac + f[6..], 0)
      else c.lookup(f)
    else if (EtherType(f, 0x08, 0x00) && f[30..34] == c.brIp) ||
            (EtherType(f, 0x08, 0x06) && f[38..42] == c.brIp)
    then c.lookup(f)
    else (f, 0)
  }

  /** The numbers of some octets. */
  function Octets(bs: seq<bv8>): (r: seq<Byte>)
    ensures |r| == |bs| && forall k :: 0 <= k < |bs| ==> r[k] == bs[k] as int
  {
    seq(|bs|, k requires 0 <= k < |bs| => bs[k] as int)
  }

  lemma OctetsApart(a: seq<bv8>, b: seq<bv8>)
    ensures Octets(a) == Octets(b) <==> a == b
  {
    if |a| == |b| && a != b {
      var k :| 0 <= k < |a| && a[k] != b[k];
      assert Octets(a)[k] != Octets(b)[k];
    }
  }

  /** With the database and its shortcut in use, an IPv4 frame is answered by the cache when its
    * destination address, octets 16 to 19 of the IP header, is the cached one: only the
    * destination MAC address is then rewritten.  All other IPv4 frames go to the database. */
  lemma DestinationDecides(c: Config, n: NC.Cached, f: Frame, ip: NC.Ip)
    requires Readable(f) && EtherType(f, 0x08, 0x00) && !c.nat25Disable && !c.nat25scDisable
    requires c.scdbIp == Octets(n.ip.bytes) && c.scdbMac == Octets(n.mac.bytes)
    requires forall k :: 0 <= k < 4 ==> f[14 + 16 + k] == ip.bytes[k] as int
    ensures match NC.Shortcut(n, ip)
            case None => Inner(c, f) == c.lookup(f)
            case Some(mac) =>
              var (g, r) := Inner(c, f);
              r == 0 && |g| == |f| && g[..6] == Octets(mac.bytes) && g[6..] == f[6..]
  {
    assert f[30..34] == Octets(ip.bytes);
    OctetsApart(ip.bytes, n.ip.bytes);
  }

  /** With the database disabled, exactly the IPv4 and ARP frames to the bridge's own address are
    * looked up; the others stay. */
  lemma OwnAddressDecides(c: Config, f: Frame)
    requires Readable(f) && c.nat25Disable && |c.scdbMac| == 6 && |c.brIp| == 4
    ensures var ipv4 := f[12] == 0x08 && f[13] == 0x00 && forall k :: 0 <= k < 4 ==> f[14 + 16 + k] == c.brIp[k];
      var arp := f[12] == 0x08 && f[13] == 0x06 && forall k :: 0 <= k < 4 ==> f[14 + 24 + k] == c.brIp[k];
      Inner(c, f) == if ipv4 || arp then c.lookup(f) else (f, 0)
  {
    if EtherType(f, 0x08, 0x00) { SameQuad(f, 30, c.brIp); }
    if EtherType(f, 0x08, 0x06) { SameQuad(f, 38, c.brIp); }
  }

  lemma SameQuad(f: Frame, at: nat, q: seq<Byte>)
    requires |q| == 4 && at + 4 <= |f|
    ensures f[at..at + 4] == q <==> forall k :: 0 <= k < 4 ==> f[at + k] == q[k]
  {
    var s := f[at..at + 4];
    assert forall k :: 0 <= k < 4 ==> s[k] == f[at + k];
  }

  predicate Multicast(f: Frame)
    requires |f| >= 14
  {
    f[0] % 2 == 1
  }

  /** The whole function: multicast frames pass, tagged ones are handled around their tag. */
  function Handled(c: Config, f: Frame): (Frame, int)
    requires |f| >= 14 && |c.scdbMac| == 6
    requires !Multicast(f) ==> Acceptable(f)
    requires ConfigOk(c)
  {
    if Multicast(f) then (f, 0)
    else if Tagged(f) then
      var (g, r) := Inner(c, Untag(f));
      (Retag(g, f[14..16]), if r == -1 then -1 else 0)
    else
      var (g, r) := Inner(c, f);
      (g, if r == -1 then -1 else 0)
  }

  predicate Acceptable(f: Frame)
    requires |f| >= 14
  {
    if Tagged(f) then |f| >= 18 && Readable(Untag(f)) else Readable(f)
  }

  /** The tag does not matter to the handling: a tagged frame comes out tagged as it was, with
    * the handling of its untagged form inside, whatever that handling does. */
  lemma HandledAroundTag(c: Config, f: Frame)
    requires ConfigOk(c) && |f| >= 18 && Tagged(f) && !Multicast(f) && Acceptable(f)
    ensures var (g, r) := Handled(c, f);
      && |g| >= 16 && Tagged(g) && g[14..16] == f[14..16]
      && Untag(g) == Inner(c, Untag(f)).0
      && (r == -1 <==> Inner(c, Untag(f)).1 == -1)
    ensures !Tagged(Untag(f)) ==>
      Untag(Handled(c, f).0) == Handled(c, Untag(f)).0 && Handled(c, f).1 == Handled(c, Untag(f)).1
    ensures Inner(c, Untag(f)).0 == Untag(f) ==> Handled(c, f).0 == f
  {
    var u := Untag(f);
    assert u[0] == f[0];
    UntagRetag(f, Inner(c, u).0, f[14..16]);
  }

  /** Frames to a group pass as they are; all others come out as their handling says, and every
    * failure of it but -1 is ignored. */
  lemma GroupFramesPass(c: Config, f: Frame)
    requires |f| >= 14 && ConfigOk(c) && (f[0] % 2 == 0 ==> Acceptable(f))
    ensures f[0] % 2 == 1 ==> Handled(c, f) == (f, 0)
    ensures f[0] % 2 == 0 && !Tagged(f) ==> Handled(c, f).0 == Inner(c, f).0 && (Handled(c, f).1 == -1 <==> Inner(c, f).1 == -1)
    ensures Handled(c, f).1 == 0 || Handled(c, f).1 == -1
  {
  }

  /* ---------- The buffer ---------- */

  lemma SliceOfSlice(s: Frame, at: nat, len: nat, k: nat)
    requires at + len <= |s| && k + 4 <= len
    ensures s[at..at + len][k..k + 4] == s[at + k..at + k + 4]
  {
    var a, b := s[at..at + len][k..k + 4], s[at + k..at + k + 4];
    forall j | 0 <= j < 4 ensures a[j] == b[j] { }
  }

  class Skb {
    const buf: array<Byte>
    var data: nat
    var len: nat

    predicate Valid()
      reads this
    {
      data + len <= buf.Length
    }

    function Contents(): Frame
      reads this, buf
      requires Valid()
    {
      buf[data..data + len]
    }

    /** Six two-byte moves from the back, each possibly overlapping the next. */
    method MoveAddressesUp()
      requires Valid() && len >= 16
      modifies buf
      ensures forall k :: data + 4 <= k < data + 16 ==> buf[k] == old(buf[k - 4])
      ensures forall k :: 0 <= k < buf.Length && !(data + 4 <= k < data + 16) ==> buf[k] == old(buf[k])
    {
      var i := 0;
      while i < 6
        invariant 0 <= i <= 6
        invariant forall k :: 0 <= k < buf.Length && !(data + 16 - 2 * i <= k < data + 16) ==> buf[k] == old(buf[k])
        invariant forall k :: data + 16 - 2 * i <= k < data + 16 ==> buf[k] == old(buf[k - 4])
      {
        buf[data + 14 - 2 * i], buf[data + 15 - 2 * i] := buf[data + 10 - 2 * i], buf[data + 11 - 2 * i];
        i := i + 1;
      }
    }

    /** The moves, then skb_pull. */
    method StripTag()
      requires Valid() && len >= 16
      modifies this`data, this`len, buf
      ensures Valid() && Contents() == Untag(old(Contents()))
      ensures data == old(data) + 4
    {
      hide Untag;
      ghost var f := Contents();
      MoveAddressesUp();
      data, len := data + 4, len - 4;
      forall k | 0 <= k < len ensures buf[data + k] == if k < 12 then f[k] else f[k + 4] {
        assert f[if k < 12 then k else k + 4] == old(buf[data + if k < 12 then k else k + 4]);
      }
      IsUntag(f, Contents());
    }

    /** Six two-byte moves from the front: the addresses move four bytes down. */
    method MoveAddressesDown()
      requires Valid() && len >= 16
      modifies buf
      ensures forall k :: data <= k < data + 12 ==> buf[k] == old(buf[k + 4])
      ensures forall k :: 0 <= k < buf.Length && !(data <= k < data + 12) ==> buf[k] == old(buf[k])
    {
      var i := 0;
      while i < 6
        invariant 0 <= i <= 6
        invariant forall k :: 0 <= k < buf.Length && !(data <= k < data + 2 * i) ==> buf[k] == old(buf[k])
        invariant forall k :: data <= k < data + 2 * i ==> buf[k] == old(buf[k + 4])
      {
        buf[data + 2 * i], buf[data + 2 * i + 1] := buf[data + 4 + 2 * i], buf[data + 5 + 2 * i];
        i := i + 1;
      }
    }

    method WriteTag(tci: seq<Byte>)
      requires Valid() && len >= 16 && |tci| == 2
      modifies buf
      ensures buf[data + 12] == 0x81 && buf[data + 13] == 0x00 && buf[data + 14] == tci[0] && buf[data + 15] == tci[1]
      ensures forall k :: 0 <= k < buf.Length && !(data + 12 <= k < data + 16) ==> buf[k] == old(buf[k])
    {
      buf[data + 12], buf[data + 13] := 0x81, 0x00;
      buf[data + 14], buf[data + 15] := tci[0], tci[1];
    }

    /** skb_push, the moves, and the tag. */
    method PutTag(tci: seq<Byte>)
      requires Valid() && len >= 12 && data >= 4 && |tci| == 2
      modifies this`data, this`len, buf
      ensures Valid() && Contents() == Retag(old(Contents()), tci)
      ensures data == old(data) - 4
    {
      hide Retag;
      ghost var g := Contents();
      data, len := data - 4, len + 4;
      MoveAddressesDown();
      WriteTag(tci);
      forall k | 0 <= k < |g| ensures g[k] == buf[data + if k < 12 then k else k + 4] {
        assert g[k] == old(buf[data + k]);
      }
      IsRetag(g, tci, Contents());
    }

    /** The frame is replaced by one no longer than it. */
    method Overwrite(g: Frame)
      requires Valid() && |g| <= len
      modifies this`len, buf
      ensures Valid() && Contents() == g
    {
      var k := 0;
      while k < |g|
        modifies buf
        invariant 0 <= k <= |g|
        invariant buf[data..data + k] == g[..k]
      {
        buf[data + k] := g[k];
        k := k + 1;
      }
      len := |g|;
    }

    method WriteMac(mac: seq<Byte>)
      requires Valid() && len >= 14 && |mac| == 6
      modifies buf
      ensures Contents() == mac + old(Contents())[6..]
    {
      forall k | 0 <= k < 6 { buf[data + k] := mac[k]; }
    }

    predicate HasType(hi: Byte, lo: Byte)
      reads this, buf
      requires Valid() && len >= 14
      ensures HasType(hi, lo) <==> EtherType(Contents(), hi, lo)
    {
      buf[data + 12] == hi && buf[data + 13] == lo
    }

    /** The four bytes at offset k. */
    function Quad(k: nat): (q: seq<Byte>)
      reads this, buf
      requires Valid() && k + 4 <= len
      ensures q == Contents()[k..k + 4]
    {
      SliceOfSlice(buf[..], data, len, k);
      buf[data + k..data + k + 4]
    }

    method CallLookup(c: Config) returns (retval: int)
      requires Valid() && len >= 14 && ConfigOk(c)
      modifies this`len, buf
      ensures Valid() && (Contents(), retval) == c.lookup(old(Contents()))
    {
      var g := c.lookup(Contents());
      Overwrite(g.0);
      retval := g.1;
    }

    /** The part between taking the tag off and putting it back. */
    method HandleUntagged(c: Config) returns (retval: int)
      requires Valid() && ConfigOk(c) && Readable(Contents())
      modifies this`len, buf
      ensures Valid() && (Contents(), retval) == Inner(c, old(Contents()))
    {
      retval := 0;
      if !c.nat25Disable {
        if !c.nat25scDisable && HasType(0x08, 0x00) && Quad(30) == c.scdbIp {
          WriteMac(c.scdbMac);
        } else {
          retval := CallLookup(c);
        }
      } else if (HasType(0x08, 0x00) && Quad(30) == c.brIp) || (HasType(0x08, 0x06) && Quad(38) == c.brIp) {
        retval := CallLookup(c);
      }
    }

    /** nat25_handle_frame */
    method HandleFrame(c: Config) returns (ret: int)
      requires Valid() && len >= 14 && ConfigOk(c)
      requires !Multicast(Contents()) ==> Acceptable(Contents())
      modifies this`data, this`len, buf
      ensures Valid() && data == old(data)
      ensures (Contents(), ret) == Handled(c, old(Contents()))
    {
      if buf[data] % 2 == 1 {
        return 0;
      }
      var isTag := HasType(0x81, 0x00);
      var tci: seq<Byte> := [];
      if isTag {
        tci := Contents()[14..16];
        StripTag();
      }
      var retval := HandleUntagged(c);
      if isTag {
        PutTag(tci);
      }
      ret := if retval == -1 then -1 else 0;
    }
  }
}
