/** PPPoE discovery through the NAT2.5 bridge (core/rtw_br_ext.c): the client's MAC address
  * travels to the access concentrator and back in a Relay-Session-Id tag (RFC 2516,
  * appendix A), which is inserted into and cut out of the packet in place. */
module Pppoe {

  import opened Bytes
  import opened Sequences
  import opened Wrappers

  const ETH_HLEN := 14
  const LEN_AT := 18        // pppoe_hdr.length
  const TAGS_AT := 20       // pppoe_hdr.tag
  const TAG_HDR_LEN := 4
  const ETH_ALEN := 6
  const OWN_LEN := 8        // the magic code's two octets and RTL_RELAY_TAG_LEN
  const TAG_BUF := 40
  const PTT_RELAY_SID := 0x0110
  const MAGIC: seq<Byte> := [0x81, 0x86]

  /* ---------- Tags ---------- */

  datatype Tag = Tag(typ: nat, value: seq<Byte>)

  function Be16(n: nat): (r: seq<Byte>)
    ensures |r| == 2
  {
    [n / 0x100 % 0x100, n % 0x100]
  }

  function U16(hi: Byte, lo: Byte): nat {
    0x100 * hi + lo
  }

  predicate TagOk(t: Tag) {
    t.typ < 0x1_0000 && |t.value| < 0x1_0000
  }

  function Encode(t: Tag): (r: seq<Byte>)
    ensures |r| == TAG_HDR_LEN + |t.value|
  {
    Be16(t.typ) + Be16(|t.value|) + t.value
  }

  function EncodeAll(ts: seq<Tag>): seq<Byte> {
    Flatten(Encode, ts)
  }

  /** Position of the first tag of a type in a list, or its length. */
  function FirstOf(ts: seq<Tag>, typ: nat): (i: nat)
    ensures i <= |ts| && (i < |ts| ==> ts[i].typ == typ)
    ensures forall j :: 0 <= j < i ==> ts[j].typ != typ
  {
    FirstWhere(ts, (t: Tag) => t.typ == typ)
  }

  lemma EncodeConcat(a: seq<Tag>, b: seq<Tag>)
    ensures EncodeAll(a + b) == EncodeAll(a) + EncodeAll(b)
  {
    FlattenConcat(Encode, a, b);
  }

  /* ---------- The packet buffer as a value ---------- */

  /** All the bytes of the buffer, and how many of them belong to the packet. */
  datatype Packet = Packet(buf: seq<Byte>, len: nat)

  predicate PacketOk(p: Packet) {
    TAGS_AT <= p.len <= |p.buf|
  }

  /** ntohs(ph->length) */
  function TagsLen(p: Packet): nat
    requires PacketOk(p)
  {
    U16(p.buf[LEN_AT], p.buf[LEN_AT + 1])
  }

  predicate Relayable(p: Packet) {
    PacketOk(p) && TAGS_AT + TagsLen(p) <= p.len
  }

  function Tags(p: Packet): seq<Byte>
    requires Relayable(p)
  {
    p.buf[TAGS_AT..TAGS_AT + TagsLen(p)]
  }

  /** What an unsigned short keeps of n. */
  function Low16(n: int): (r: nat)
    ensures r < 0x1_0000 && (0 <= n < 0x1_0000 ==> r == n)
  {
    n % 0x1_0000
  }

  /** ph->length = htons(n), in 16 bits. */
  function SetTagsLen(p: Packet, n: int): Packet
    requires PacketOk(p)
  {
    p.(buf := Store(p.buf, LEN_AT, Be16(Low16(n))))
  }

  /* ---------- What each function does ---------- */

  /** The walk stays inside the packet's buffer. */
  predicate WalkOk(b: seq<Byte>, cur: nat, end: nat)
    decreases end - cur
  {
    cur < end ==> cur + TAG_HDR_LEN <= |b| && WalkOk(b, cur + TAG_HDR_LEN + U16(b[cur + 2], b[cur + 3]), end)
  }

  /** __nat25_find_pppoe_tag */
  function FindFrom(b: seq<Byte>, cur: nat, end: nat, typ: nat): (r: Option<nat>)
    requires WalkOk(b, cur, end)
    ensures r.Some? ==> cur <= r.value < end && r.value + TAG_HDR_LEN <= |b|
    decreases end - cur
  {
    if cur >= end then None
    else if U16(b[cur], b[cur + 1]) == typ then Some(cur)
    else FindFrom(b, cur + TAG_HDR_LEN + U16(b[cur + 2], b[cur + 3]), end, typ)
  }

  predicate CanWalk(p: Packet) {
    PacketOk(p) && WalkOk(p.buf, TAGS_AT, TAGS_AT + TagsLen(p))
  }

  function FindTag(p: Packet, typ: nat): Option<nat>
    requires CanWalk(p)
  {
    FindFrom(p.buf, TAGS_AT, TAGS_AT + TagsLen(p), typ)
  }

  /** skb_pull_and_merge: n bytes at src are cut out. */
  function PullAndMerge(p: Packet, src: nat, n: nat): Option<Packet>
    requires PacketOk(p)
  {
    if src + n > p.len || p.len < n then None
    else Some(Packet(Store(p.buf, src, p.buf[src + n..p.len]), p.len - n))
  }

  /** The tag's length word as the copy takes it: in host order, so a little-endian host reads
    * it with its bytes exchanged. */
  function HostLen(big: bool, n: nat): (r: nat)
    requires n < 0x1_0000
    ensures r < 0x1_0000 && (big ==> r == n)
  {
    if big then n else n % 0x100 * 0x100 + n / 0x100
  }

  /** What stands in memory from the start of tag_buf on, behind its 40 bytes too. */
  type Memory = m: seq<Byte> | |m| == TAG_HDR_LEN + 0x1_0000 witness seq(TAG_HDR_LEN + 0x1_0000, _ => 0)

  function CopyLen(big: bool, m: Memory): (n: nat)
    ensures n < |m|
  {
    TAG_HDR_LEN + HostLen(big, U16(m[2], m[3]))
  }

  /** The packet longer by n bytes, its tags moved up by n. */
  function MakeRoom(p: Packet, n: nat): (r: Packet)
    requires Relayable(p) && |p.buf| - p.len >= n
    ensures PacketOk(r)
  {
    Packet(Store(p.buf, TAGS_AT + n, Tags(p)), p.len + n)
  }

  /** __nat25_add_pppoe_tag with the tag at the start of m. */
  function AddTag(big: bool, p: Packet, m: Memory): Option<Packet>
    requires Relayable(p)
  {
    var dataLen := CopyLen(big, m);
    if |p.buf| - p.len < dataLen then None
    else
      var sized := SetTagsLen(MakeRoom(p, dataLen), TagsLen(p) + dataLen);
      Some(sized.(buf := Store(sized.buf, TAGS_AT, m[..dataLen])))
  }

  /** The value of the relay tag that is put in front. */
  function RelayValue(p: Packet, prior: seq<Byte>): seq<Byte>
    requires PacketOk(p)
  {
    MAGIC + p.buf[ETH_ALEN..2 * ETH_ALEN] + prior
  }

  /** The tag area is exactly these tags. */
  predicate WellFormed(p: Packet, ts: seq<Tag>) {
    TagArea(p, EncodeAll(ts)) && forall t :: t in ts ==> TagOk(t)
  }

  /** The length field counts these bytes and they follow the header. */
  predicate TagArea(p: Packet, bs: seq<Byte>) {
    PacketOk(p) && TagsLen(p) == |bs| && TAGS_AT + |bs| <= p.len && Holds(p.buf, TAGS_AT, bs)
  }

  /* ---------- Finding and cutting ---------- */

  /** Reading a tag's header back. */
  lemma HeaderAt(b: seq<Byte>, at: nat, t: Tag)
    requires TagOk(t) && Holds(b, at, Encode(t))
    ensures U16(b[at], b[at + 1]) == t.typ && U16(b[at + 2], b[at + 3]) == |t.value|
    ensures Holds(b, at + TAG_HDR_LEN, t.value)
  {
    var hdr := Be16(t.typ) + Be16(|t.value|);
    HoldsConcat(b, at, hdr, t.value);
    assert b[at] == hdr[0] && b[at + 1] == hdr[1] && b[at + 2] == hdr[2] && b[at + 3] == hdr[3];
  }

  /** The walk over an encoded list meets the tags one by one. */
  lemma {:induction false} FindInList(b: seq<Byte>, at: nat, ts: seq<Tag>, typ: nat)
    requires Holds(b, at, EncodeAll(ts))
    requires forall t :: t in ts ==> TagOk(t)
    ensures var end := at + |EncodeAll(ts)|; var i := FirstOf(ts, typ);
      && WalkOk(b, at, end)
      && FindFrom(b, at, end, typ) == (if i == |ts| then None else Some(at + |EncodeAll(ts[..i])|))
    decreases |ts|
  {
    if ts != [] {
      var t, rest := ts[0], ts[1..];
      HoldsConcat(b, at, Encode(t), EncodeAll(rest));
      HeaderAt(b, at, t);
      FindInList(b, at + TAG_HDR_LEN + |t.value|, rest, typ);
      WalkStep(b, at, at + |EncodeAll(ts)|, t, typ);
      if 0 < FirstOf(ts, typ) < |ts| {
        EncodePrefix(ts, FirstOf(ts, typ));
      }
    }
  }

  lemma WalkStep(b: seq<Byte>, at: nat, end: nat, t: Tag, typ: nat)
    requires at + TAG_HDR_LEN + |t.value| <= end <= |b|
    requires U16(b[at], b[at + 1]) == t.typ && U16(b[at + 2], b[at + 3]) == |t.value|
    requires WalkOk(b, at + TAG_HDR_LEN + |t.value|, end)
    ensures WalkOk(b, at, end)
    ensures FindFrom(b, at, end, typ) ==
      if t.typ == typ then Some(at) else FindFrom(b, at + TAG_HDR_LEN + |t.value|, end, typ)
  {
  }

  lemma EncodePrefix(ts: seq<Tag>, i: nat)
    requires 0 < i <= |ts|
    ensures EncodeAll(ts[..i]) == Encode(ts[0]) + EncodeAll(ts[1..][..i - 1])
  {
    assert ts[..i][1..] == ts[1..][..i - 1];
  }

  /* ---------- Insertion: PADI and PADR ---------- */

  datatype Outcome = Outcome(p: Packet, ret: int)

  /** Takes an earlier relay tag out of the packet; its value, or none when the packet is
    * refused. */
  function TakeOld(p: Packet): (Packet, Option<seq<Byte>>)
    requires CanWalk(p)
  {
    match FindTag(p, PTT_RELAY_SID)
    case None => (p, Some([]))
    case Some(pos) =>
      var n := U16(p.buf[pos + 2], p.buf[pos + 3]);
      if n + TAG_HDR_LEN + OWN_LEN > TAG_BUF then (p, None)
      else match PullAndMerge(p, pos, TAG_HDR_LEN + n)
        case None => (p, None)
        case Some(q) =>
          (SetTagsLen(q, TagsLen(q) - TAG_HDR_LEN - n), Some(p.buf[pos + TAG_HDR_LEN..pos + TAG_HDR_LEN + n]))
  }

  function Without(ts: seq<Tag>, i: nat): seq<Tag>
    requires i < |ts|
  {
    ts[..i] + ts[i + 1..]
  }

  /** Splitting an encoded list around its i-th tag. */
  lemma EncodeSplit(ts: seq<Tag>, i: nat)
    requires i < |ts|
    ensures EncodeAll(ts) == EncodeAll(ts[..i]) + (Encode(ts[i]) + EncodeAll(ts[i + 1..]))
    ensures EncodeAll(Without(ts, i)) == EncodeAll(ts[..i]) + EncodeAll(ts[i + 1..])
  {
    assert ts == ts[..i] + ts[i..];
    assert ts[i..][1..] == ts[i + 1..];
    EncodeConcat(ts[..i], ts[i..]);
    EncodeConcat(ts[..i], ts[i + 1..]);
  }

  lemma AreaEnd(p: Packet, bs: seq<Byte>)
    requires TagArea(p, bs)
    ensures |bs| < 0x1_0000 && TAGS_AT + |bs| <= p.len <= |p.buf|
  {
  }

  /** Cutting y out of the tag area and out of the length. */
  lemma CutArea(p: Packet, x: seq<Byte>, y: seq<Byte>, z: seq<Byte>)
    requires TagArea(p, x + (y + z))
    ensures PullAndMerge(p, TAGS_AT + |x|, |y|).Some?
    ensures var q := PullAndMerge(p, TAGS_AT + |x|, |y|).value;
      && q.len == p.len - |y| && |q.buf| == |p.buf| && q.buf[..TAGS_AT] == p.buf[..TAGS_AT]
      && TagsLen(q) == TagsLen(p) && TagArea(SetTagsLen(q, TagsLen(q) - |y|), x + z)
  {
    hide Holds, Be16, SetTagsLen, Store;
    var at := TAGS_AT + |x|;
    CutBytes(p.buf, TAGS_AT, x, y, z, p.len);
    AreaEnd(p, x + (y + z));
    var q := PullAndMerge(p, at, |y|).value;
    StoreKeepsBelow(p.buf, at, p.buf[at + |y|..p.len], TAGS_AT);
    assert q.buf[LEN_AT] == q.buf[..TAGS_AT][LEN_AT] && q.buf[LEN_AT + 1] == q.buf[..TAGS_AT][LEN_AT + 1];
    SetLen(q, x + z);
  }

  lemma SetLen(q: Packet, bs: seq<Byte>)
    requires PacketOk(q) && |bs| < 0x1_0000 && TAGS_AT + |bs| <= q.len && Holds(q.buf, TAGS_AT, bs)
    ensures TagArea(SetTagsLen(q, |bs|), bs)
  {
    HoldsBelow(q.buf, TAGS_AT, bs, LEN_AT, Be16(|bs|));
    var b := SetTagsLen(q, |bs|).buf;
    assert b[LEN_AT] == Be16(|bs|)[0] && b[LEN_AT + 1] == Be16(|bs|)[1];
  }

  function OldValue(ts: seq<Tag>): seq<Byte> {
    var i := FirstOf(ts, PTT_RELAY_SID);
    if i < |ts| then ts[i].value else []
  }

  function Others(ts: seq<Tag>): seq<Tag> {
    var i := FirstOf(ts, PTT_RELAY_SID);
    if i < |ts| then Without(ts, i) else ts
  }

  predicate HasRelay(ts: seq<Tag>) {
    FirstOf(ts, PTT_RELAY_SID) < |ts|
  }

  /** Bytes freed by taking an earlier relay tag out. */
  function Freed(ts: seq<Tag>): nat {
    if HasRelay(ts) then TAG_HDR_LEN + |OldValue(ts)| else 0
  }

  lemma FieldsAt(b: seq<Byte>, a: seq<Byte>, t: Tag, c: seq<Byte>)
    requires TagOk(t) && Holds(b, TAGS_AT, a + (Encode(t) + c))
    ensures var pos := TAGS_AT + |a|;
      && U16(b[pos], b[pos + 1]) == t.typ && U16(b[pos + 2], b[pos + 3]) == |t.value|
      && b[pos + TAG_HDR_LEN..pos + TAG_HDR_LEN + |t.value|] == t.value
  {
    HoldsConcat(b, TAGS_AT, a, Encode(t) + c);
    HoldsConcat(b, TAGS_AT + |a|, Encode(t), c);
    HeaderAt(b, TAGS_AT + |a|, t);
  }

  lemma InPrefix(b: seq<Byte>, n: nat, lo: nat, hi: nat)
    requires lo <= hi <= n <= |b|
    ensures b[lo..hi] == b[..n][lo..hi]
  {
    var x, y := b[lo..hi], b[..n][lo..hi];
    forall k | 0 <= k < |x| ensures x[k] == y[k] { }
  }

  lemma LenKeepsHeader(q: Packet, n: int)
    requires PacketOk(q)
    ensures var r := SetTagsLen(q, n); r.buf[..LEN_AT] == q.buf[..LEN_AT] && |r.buf| == |q.buf| && r.len == q.len
  {
  }

  lemma TakeFound(p: Packet, a: seq<Byte>, t: Tag, c: seq<Byte>)
    requires TagArea(p, a + (Encode(t) + c)) && TagOk(t) && CanWalk(p)
    requires FindTag(p, PTT_RELAY_SID) == Some(TAGS_AT + |a|)
    ensures |t.value| + TAG_HDR_LEN + OWN_LEN > TAG_BUF ==> TakeOld(p) == (p, None)
    ensures |t.value| + TAG_HDR_LEN + OWN_LEN <= TAG_BUF ==>
      var (q, v) := TakeOld(p);
      && v == Some(t.value) && TagArea(q, a + c)
      && |q.buf| == |p.buf| && q.len == p.len - |Encode(t)| && q.buf[..LEN_AT] == p.buf[..LEN_AT]
  {
    hide Encode, Store, FindTag, CanWalk, PullAndMerge, SetTagsLen, U16;
    var pos := TAGS_AT + |a|;
    FieldsAt(p.buf, a, t, c);
    CutArea(p, a, Encode(t), c);
    var q := PullAndMerge(p, pos, |Encode(t)|).value;
    LenKeepsHeader(q, TagsLen(q) - |Encode(t)|);
    InPrefix(q.buf, TAGS_AT, 0, LEN_AT);
    InPrefix(p.buf, TAGS_AT, 0, LEN_AT);
  }

  lemma TakeOldOk(p: Packet, ts: seq<Tag>)
    requires WellFormed(p, ts)
    ensures CanWalk(p)
    ensures |OldValue(ts)| + TAG_HDR_LEN + OWN_LEN > TAG_BUF ==> TakeOld(p) == (p, None)
    ensures |OldValue(ts)| + TAG_HDR_LEN + OWN_LEN <= TAG_BUF ==>
      var (q, v) := TakeOld(p);
      && v == Some(OldValue(ts)) && WellFormed(q, Others(ts))
      && |q.buf| == |p.buf| && q.len == p.len - Freed(ts) && q.buf[..LEN_AT] == p.buf[..LEN_AT]
  {
    FindWellFormed(p, ts);
    var i := FirstOf(ts, PTT_RELAY_SID);
    if i < |ts| {
      EncodeSplit(ts, i);
      TakeFound(p, EncodeAll(ts[..i]), ts[i], EncodeAll(ts[i + 1..]));
    }
  }

  lemma TagsAre(p: Packet, bs: seq<Byte>)
    requires TagArea(p, bs)
    ensures Relayable(p) && Tags(p) == bs && TagsLen(p) == |bs|
  {
    HoldsSlice(p.buf, TAGS_AT, bs);
  }

  lemma SameLen(p: Packet, q: Packet)
    requires PacketOk(p) && PacketOk(q) && p.buf[..TAGS_AT] == q.buf[..TAGS_AT]
    ensures TagsLen(p) == TagsLen(q)
  {
    var x := p.buf[..TAGS_AT];
    assert x[LEN_AT] == p.buf[LEN_AT] && x[LEN_AT + 1] == p.buf[LEN_AT + 1];
    assert x[LEN_AT] == q.buf[LEN_AT] && x[LEN_AT + 1] == q.buf[LEN_AT + 1];
  }

  /** Making room in front of the tags and filling it with as many bytes as the copy takes. */
  lemma AddArea(big: bool, p: Packet, bs: seq<Byte>, m: Memory)
    requires TagArea(p, bs) && |p.buf| - p.len >= CopyLen(big, m)
    ensures AddTag(big, p, m).Some?
    ensures var n, q := CopyLen(big, m), AddTag(big, p, m).value;
      && q.len == p.len + n && |q.buf| == |p.buf| && q.buf[..LEN_AT] == p.buf[..LEN_AT]
      && TagsLen(q) == Low16(n + |bs|) && Holds(q.buf, TAGS_AT, m[..n] + bs)
  {
    hide CopyLen, Low16, U16, Be16, Store, Holds, TagArea;
    var n := CopyLen(big, m);
    TagsAre(p, bs);
    var moved := Packet(Store(p.buf, TAGS_AT + n, bs), p.len + n);
    StoreKeepsBelow(p.buf, TAGS_AT + n, bs, TAGS_AT);
    StoreKeepsBelow(p.buf, TAGS_AT + n, bs, LEN_AT);
    SameLen(p, moved);
    HoldsStored(p.buf, TAGS_AT + n, bs);
    var word := Be16(Low16(n + |bs|));
    var sized := SetTagsLen(moved, n + |bs|);
    LenWritten(moved, n + |bs|);
    StoreKeepsBelow(moved.buf, LEN_AT, word, LEN_AT);
    HoldsBelow(moved.buf, TAGS_AT + n, bs, LEN_AT, word);
    var b := Store(sized.buf, TAGS_AT, m[..n]);
    StoreKeepsBelow(sized.buf, TAGS_AT, m[..n], TAGS_AT);
    StoreKeepsBelow(sized.buf, TAGS_AT, m[..n], LEN_AT);
    SameLen(sized, Packet(b, sized.len));
    HoldsStored(sized.buf, TAGS_AT, m[..n]);
    HoldsBelow(sized.buf, TAGS_AT + n, bs, TAGS_AT, m[..n]);
    HoldsConcat(b, TAGS_AT, m[..n], bs);
  }

  lemma LenWritten(q: Packet, n: nat)
    requires PacketOk(q)
    ensures var r := SetTagsLen(q, n); PacketOk(r) && TagsLen(r) == Low16(n) && r.len == q.len && |r.buf| == |q.buf|
  {
    hide Low16;
    var b, w := SetTagsLen(q, n).buf, Low16(n);
    assert b[LEN_AT] == Be16(w)[0] && b[LEN_AT + 1] == Be16(w)[1];
  }

  /** The new tag, written at the start of tag_buf. */
  function TagBuf(m: Memory, t: Tag): Memory
    requires |t.value| < 0x1_0000
  {
    Store(m, 0, Encode(t))
  }

  /** The copy takes the whole tag on a big-endian host, and 256 times its value on a
    * little-endian one. */
  lemma TagCopied(big: bool, m: Memory, t: Tag)
    requires TagOk(t) && |t.value| < 0x100
    ensures CopyLen(big, TagBuf(m, t)) == TAG_HDR_LEN + if big then |t.value| else 0x100 * |t.value|
    ensures TagBuf(m, t)[..|Encode(t)|] == Encode(t)
  {
    hide HostLen, Encode;
    LenWord(t);
    HostLenSmall(big, |t.value|);
    StorePrefix(m, Encode(t));
  }

  lemma LenWord(t: Tag)
    requires |t.value| < 0x100
    ensures Encode(t)[2] == 0 && Encode(t)[3] == |t.value|
  {
  }

  lemma HostLenSmall(big: bool, n: nat)
    requires n < 0x100
    ensures HostLen(big, n) == if big then n else 0x100 * n
  {
  }

  lemma StorePrefix(m: seq<Byte>, x: seq<Byte>)
    requires |x| <= |m|
    ensures Store(m, 0, x)[..|x|] == x
  {
  }

  function Fits(ts: seq<Tag>): bool {
    |OldValue(ts)| + TAG_HDR_LEN + OWN_LEN <= TAG_BUF
  }

  /** NAT25_INSERT of a PADI or PADR with addPPPoETag set; m is what stands in memory where
    * tag_buf begins. */
  function Insert(big: bool, p: Packet, m: Memory, ghost ts: seq<Tag>): Outcome
    requires WellFormed(p, ts)
  {
    TakeOldOk(p, ts);
    match TakeOld(p)
    case (q, None) => Outcome(q, -1)
    case (q, Some(v)) =>
      match AddTag(big, q, TagBuf(m, Tag(PTT_RELAY_SID, RelayValue(q, v))))
      case None => Outcome(q, -1)
      case Some(r) => Outcome(r, 0)
  }

  function RelayTag(p: Packet, ts: seq<Tag>): Tag
    requires PacketOk(p)
  {
    Tag(PTT_RELAY_SID, RelayValue(p, OldValue(ts)))
  }

  /** How many bytes the insertion adds, once an earlier relay tag is out. */
  function Added(big: bool, ts: seq<Tag>): nat {
    var n := OWN_LEN + |OldValue(ts)|;
    TAG_HDR_LEN + if big then n else 0x100 * n
  }

  /** The insertion, when an earlier relay value fits the tag buffer. */
  lemma InsertParts(big: bool, p: Packet, m: Memory, ts: seq<Tag>)
    requires WellFormed(p, ts) && Fits(ts)
    ensures CanWalk(p)
    ensures var q, b := TakeOld(p).0, TagBuf(m, RelayTag(p, ts));
      && WellFormed(q, Others(ts)) && |q.buf| == |p.buf| && q.len == p.len - Freed(ts)
      && q.buf[..LEN_AT] == p.buf[..LEN_AT] && CopyLen(big, b) == Added(big, ts)
      && TAGS_AT + |EncodeAll(Others(ts))| <= q.len
      && Insert(big, p, m, ts) == match AddTag(big, q, b) case None => Outcome(q, -1) case Some(r) => Outcome(r, 0)
  {
    hide TakeOld, AddTag, CopyLen, TagBuf, CanWalk;
    TakeOldOk(p, ts);
    var q := TakeOld(p).0;
    InPrefix(p.buf, LEN_AT, ETH_ALEN, 2 * ETH_ALEN);
    InPrefix(q.buf, LEN_AT, ETH_ALEN, 2 * ETH_ALEN);
    TagCopied(big, m, RelayTag(p, ts));
  }

  /** A packet is forwarded exactly when an earlier relay value fits the tag buffer and the
    * packet has room for what the copy takes: on a little-endian host that is not the tag's
    * length but its bytes exchanged. */
  lemma InsertForwardsIff(big: bool, p: Packet, m: Memory, ts: seq<Tag>)
    requires WellFormed(p, ts)
    ensures Insert(big, p, m, ts).ret == 0 <==> Fits(ts) && |p.buf| - (p.len - Freed(ts)) >= Added(big, ts)
  {
    hide TakeOld, CopyLen, TagBuf;
    TakeOldOk(p, ts);
    if Fits(ts) {
      InsertParts(big, p, m, ts);
    }
  }

  /** What a forwarded packet carries, on hosts of both kinds. */
  lemma InsertResult(big: bool, p: Packet, m: Memory, ts: seq<Tag>)
    requires WellFormed(p, ts) && Insert(big, p, m, ts).ret == 0
    ensures var q, n := Insert(big, p, m, ts).p, Added(big, ts);
      && n < |m| && q.len == p.len - Freed(ts) + n && |q.buf| == |p.buf| && q.buf[..LEN_AT] == p.buf[..LEN_AT]
      && PacketOk(q) && TagsLen(q) == Low16(n + |EncodeAll(Others(ts))|)
      && Holds(q.buf, TAGS_AT, TagBuf(m, RelayTag(p, ts))[..n] + EncodeAll(Others(ts)))
  {
    hide TakeOld, AddTag, CopyLen, TagBuf, Holds, Low16, U16;
    InsertForwardsIff(big, p, m, ts);
    InsertParts(big, p, m, ts);
    AddArea(big, TakeOld(p).0, EncodeAll(Others(ts)), TagBuf(m, RelayTag(p, ts)));
  }

  /** On a big-endian host a forwarded packet carries, first, a relay tag of the magic code, the
    * client's address and the earlier relay value, and after it every other tag; the rest of the
    * header stays. */
  lemma InsertPutsRelayFirst(p: Packet, m: Memory, ts: seq<Tag>)
    requires WellFormed(p, ts) && Insert(true, p, m, ts).ret == 0
    requires |EncodeAll(Others(ts))| + Added(true, ts) < 0x1_0000
    ensures var q := Insert(true, p, m, ts).p;
      && WellFormed(q, [RelayTag(p, ts)] + Others(ts))
      && q.len == p.len - Freed(ts) + Added(true, ts) && q.buf[..LEN_AT] == p.buf[..LEN_AT]
  {
    hide Insert, TakeOld, TagBuf, Holds, WellFormed, CopyLen, AddTag, Low16, U16;
    InsertForwardsIff(true, p, m, ts);
    TakeOldOk(p, ts);
    IsPacket(p, ts);
    var t := RelayTag(p, ts);
    InsertParts(true, p, m, ts);
    InsertResult(true, p, m, ts);
    TagCopied(true, m, t);
    var q, e := Insert(true, p, m, ts).p, |EncodeAll(Others(ts))|;
    assert |Encode(t)| == Added(true, ts);
    assert TagsLen(q) == |Encode(t)| + e;
    InFront(q, t, Others(ts), TakeOld(p).0);
  }

  /** A refused request: one with too long a relay value stays as it is; for lack of room, the
    * earlier relay tag is already out. */
  lemma InsertRefused(big: bool, p: Packet, m: Memory, ts: seq<Tag>)
    requires WellFormed(p, ts) && Insert(big, p, m, ts).ret != 0
    ensures Insert(big, p, m, ts).ret == -1
    ensures var q := Insert(big, p, m, ts).p;
      if Fits(ts) then WellFormed(q, Others(ts)) && q.len == p.len - Freed(ts) && q.buf[..LEN_AT] == p.buf[..LEN_AT]
      else q == p
  {
    hide TakeOld, AddTag, CopyLen, TagBuf, CanWalk;
    TakeOldOk(p, ts);
    if Fits(ts) { InsertParts(big, p, m, ts); }
  }

  /** The octets of the relay tag for a request without one. */
  lemma RelayTagOctets(p: Packet)
    requires PacketOk(p)
    ensures Encode(RelayTag(p, [])) == [0x01, 0x10, 0x00, 0x08, 0x81, 0x86] + p.buf[6..12]
  {
  }

  lemma IsPacket(p: Packet, ts: seq<Tag>)
    requires WellFormed(p, ts)
    ensures PacketOk(p)
  {
  }

  lemma InFront(q: Packet, t: Tag, ts: seq<Tag>, before: Packet)
    requires WellFormed(before, ts) && TagOk(t) && PacketOk(q)
    requires TagsLen(q) == |Encode(t)| + |EncodeAll(ts)| && Holds(q.buf, TAGS_AT, Encode(t) + EncodeAll(ts))
    requires TAGS_AT + |Encode(t)| + |EncodeAll(ts)| <= q.len
    ensures WellFormed(q, [t] + ts)
  {
    hide Holds, Encode, EncodeAll;
    EncodeCons(t, ts);
  }

  /** On a little-endian host a forwarded packet is never the specified one: its length field
    * counts 256 times the tag's value. */
  lemma LittleEndianNeverSpecified(p: Packet, m: Memory, ts: seq<Tag>)
    requires WellFormed(p, ts) && Insert(false, p, m, ts).ret == 0
    ensures !WellFormed(Insert(false, p, m, ts).p, [RelayTag(p, ts)] + Others(ts))
  {
    hide Insert, TagBuf, Holds, Low16, U16;
    InsertForwardsIff(false, p, m, ts);
    InsertResult(false, p, m, ts);
    EncodeCons(RelayTag(p, ts), Others(ts));
    var v, e := OWN_LEN + |OldValue(ts)|, |EncodeAll(Others(ts))|;
    assert |EncodeAll([RelayTag(p, ts)] + Others(ts))| == TAG_HDR_LEN + v + e;
    NotCongruent(v, e);
  }

  lemma NotCongruent(v: nat, e: nat)
    requires 0 < v < 0x100
    ensures Low16(TAG_HDR_LEN + 0x100 * v + e) != TAG_HDR_LEN + v + e
  {
  }

  /** So the specified packet is forwarded exactly on a big-endian host, when an earlier relay
    * value fits the tag buffer and the packet has room. */
  lemma InsertSpecifiedIff(big: bool, p: Packet, m: Memory, ts: seq<Tag>)
    requires WellFormed(p, ts) && |EncodeAll(Others(ts))| + Added(true, ts) < 0x1_0000
    ensures var r := Insert(big, p, m, ts);
      r.ret == 0 && WellFormed(r.p, [RelayTag(p, ts)] + Others(ts)) <==>
        big && Fits(ts) && |p.buf| - (p.len - Freed(ts)) >= Added(true, ts)
  {
    hide Insert;
    InsertForwardsIff(big, p, m, ts);
    if Insert(big, p, m, ts).ret == 0 {
      if big { InsertPutsRelayFirst(p, m, ts); } else { LittleEndianNeverSpecified(p, m, ts); }
    }
  }

  /** A request without tags, with 2052 bytes of room: a little-endian host forwards it with 2052
    * bytes in front, all but 12 of them from behind the tag. */
  lemma LittleEndianForwards(m: Memory)
    ensures var p := Bare(2052);
      && WellFormed(p, []) && Insert(false, p, m, []).ret == 0
      && Insert(false, p, m, []).p.len == TAGS_AT + 2052
      && !WellFormed(Insert(false, p, m, []).p, [RelayTag(p, [])])
  {
    hide Insert, TagBuf, Bare, WellFormed, Holds;
    var p := Bare(2052);
    BareOk(2052);
    NoTags();
    InsertForwardsIff(false, p, m, []);
    InsertResult(false, p, m, []);
    LittleEndianNeverSpecified(p, m, []);
    assert [RelayTag(p, [])] + Others([]) == [RelayTag(p, [])];
  }

  /** A packet without tags and with room. */
  function Bare(room: nat): Packet {
    Packet(seq(TAGS_AT + room, _ => 0), TAGS_AT)
  }

  lemma BareOk(room: nat)
    ensures var p := Bare(room); WellFormed(p, []) && |p.buf| == TAGS_AT + room && p.len == TAGS_AT
  {
    var p := Bare(room);
    assert p.buf[LEN_AT] == 0 && p.buf[LEN_AT + 1] == 0;
    assert TagArea(p, EncodeAll([]));
  }

  lemma NoTags()
    ensures Freed([]) == 0 && Others([]) == [] && OldValue([]) == []
  {
  }

  lemma EncodeCons(t: Tag, ts: seq<Tag>)
    ensures EncodeAll([t] + ts) == Encode(t) + EncodeAll(ts)
  {
    assert ([t] + ts)[1..] == ts;
  }

  /* ---------- Lookup: PADO and PADS ---------- */

  /** The magic code of a long enough relay tag lies inside the buffer. */
  predicate CanLookup(p: Packet) {
    CanWalk(p) &&
    match FindTag(p, PTT_RELAY_SID)
    case None => true
    case Some(pos) => U16(p.buf[pos + 2], p.buf[pos + 3]) >= OWN_LEN ==> pos + TAG_HDR_LEN + OWN_LEN <= |p.buf|
  }

  /** What happens to a relay tag of n value bytes, ours among them, at position pos. */
  function StripAt(p: Packet, pos: nat, n: nat): Outcome
    requires PacketOk(p) && TAGS_AT <= pos && OWN_LEN <= n && pos + TAG_HDR_LEN + OWN_LEN <= |p.buf|
  {
    var p1 := p.(buf := Store(p.buf, 0, p.buf[pos + 6..pos + 12]));
    var offset := if n > OWN_LEN then TAG_HDR_LEN else 0;
    var cut := TAG_HDR_LEN + OWN_LEN - offset;
    match PullAndMerge(p1, pos + offset, cut)
    case None => Outcome(p1, -1)
    case Some(q) =>
      var r := SetTagsLen(q, TagsLen(q) - cut);
      if offset > 0 then Outcome(r.(buf := Store(r.buf, pos + 2, Be16(n - OWN_LEN))), 0)
      else Outcome(r, 0)
  }

  /** NAT25_LOOKUP of a PADO or PADS with addPPPoETag set. */
  function Lookup(p: Packet): Outcome
    requires CanLookup(p)
  {
    match FindTag(p, PTT_RELAY_SID)
    case None => Outcome(p, -1)
    case Some(pos) =>
      var n := U16(p.buf[pos + 2], p.buf[pos + 3]);
      if n < OWN_LEN || p.buf[pos + 4..pos + 6] != MAGIC then Outcome(p, -1)
      else StripAt(p, pos, n)
  }

  /** The relay tag as it comes back: what the insertion put in, or without the client part. */
  function Stripped(prior: seq<Byte>): seq<Tag> {
    if prior == [] then [] else [Tag(PTT_RELAY_SID, prior)]
  }

  lemma AddressWritten(p: Packet, bs: seq<Byte>, mac: seq<Byte>)
    requires TagArea(p, bs) && |mac| == ETH_ALEN
    ensures var q := p.(buf := Store(p.buf, 0, mac));
      TagArea(q, bs) && q.buf[..ETH_ALEN] == mac && q.buf[ETH_ALEN..LEN_AT] == p.buf[ETH_ALEN..LEN_AT]
  {
    HoldsBelow(p.buf, TAGS_AT, bs, 0, mac);
  }

  /** Overwriting some bytes of the tag area by as many others. */
  lemma StoreInArea(p: Packet, x: seq<Byte>, y: seq<Byte>, y': seq<Byte>, z: seq<Byte>)
    requires TagArea(p, x + (y + z)) && |y| == |y'|
    ensures var q := p.(buf := Store(p.buf, TAGS_AT + |x|, y'));
      TagArea(q, x + (y' + z)) && q.buf[..LEN_AT] == p.buf[..LEN_AT]
  {
    var b := Store(p.buf, TAGS_AT + |x|, y');
    HoldsConcat(p.buf, TAGS_AT, x, y + z);
    HoldsConcat(p.buf, TAGS_AT + |x|, y, z);
    HoldsBelow(p.buf, TAGS_AT, x, TAGS_AT + |x|, y');
    HoldsBelow(p.buf, TAGS_AT + |x| + |y|, z, TAGS_AT + |x|, y');
    HoldsConcat(b, TAGS_AT + |x|, y', z);
    HoldsConcat(b, TAGS_AT, x, y' + z);
  }

  /** The reply's relay tag stands where the walk finds it. */
  predicate RelayAt(p: Packet, a: seq<Byte>, mac: seq<Byte>, prior: seq<Byte>, c: seq<Byte>) {
    && PacketOk(p) && |mac| == ETH_ALEN && |prior| + OWN_LEN < 0x1_0000
    && TagArea(p, a + (Encode(Tag(PTT_RELAY_SID, MAGIC + mac + prior)) + c))
    && CanWalk(p) && FindTag(p, PTT_RELAY_SID) == Some(TAGS_AT + |a|)
  }

  /** What the lookup reads from the relay tag. */
  lemma RelayFields(p: Packet, a: seq<Byte>, mac: seq<Byte>, prior: seq<Byte>, c: seq<Byte>)
    requires RelayAt(p, a, mac, prior, c)
    ensures var pos := TAGS_AT + |a|;
      && pos + TAG_HDR_LEN + OWN_LEN <= |p.buf| && U16(p.buf[pos + 2], p.buf[pos + 3]) == OWN_LEN + |prior|
      && p.buf[pos + 4..pos + 6] == MAGIC && p.buf[pos + 6..pos + 12] == mac
  {
    var t := Tag(PTT_RELAY_SID, MAGIC + mac + prior);
    var pos := TAGS_AT + |a|;
    FieldsAt(p.buf, a, t, c);
    HoldsConcat(p.buf, TAGS_AT, a, Encode(t) + c);
    ValueAt(p.buf, pos + 4, mac, prior);
  }

  lemma ValueAt(b: seq<Byte>, at: nat, mac: seq<Byte>, prior: seq<Byte>)
    requires |mac| == ETH_ALEN && at + 2 + |mac| + |prior| <= |b|
    requires b[at..at + 2 + |mac| + |prior|] == MAGIC + mac + prior
    ensures b[at..at + 2] == MAGIC && b[at + 2..at + 8] == mac
  {
    var v := MAGIC + mac + prior;
    assert Holds(b, at, v) by {
      forall k | 0 <= k < |v| ensures b[at + k] == v[k] {
        assert b[at..at + |v|][k] == v[k];
      }
    }
    HoldsConcat(b, at, MAGIC + mac, prior);
    HoldsConcat(b, at, MAGIC, mac);
    HoldsSlice(b, at, MAGIC);
    HoldsSlice(b, at + 2, mac);
  }

  /** With nothing but our own data in the relay tag, the whole tag goes. */
  lemma StripWhole(p: Packet, a: seq<Byte>, mac: seq<Byte>, c: seq<Byte>)
    requires RelayAt(p, a, mac, [], c)
    ensures CanLookup(p) && Lookup(p).ret == 0
    ensures var q := Lookup(p).p;
      && TagArea(q, a + c) && q.buf[..ETH_ALEN] == mac && q.buf[ETH_ALEN..LEN_AT] == p.buf[ETH_ALEN..LEN_AT]
      && q.len == p.len - (TAG_HDR_LEN + OWN_LEN)
  {
    hide Encode, Store, FindTag, CanWalk, TagArea;
    RelayFields(p, a, mac, [], c);
    var t := Tag(PTT_RELAY_SID, MAGIC + mac + []);
    var p1 := p.(buf := Store(p.buf, 0, mac));
    AddressWritten(p, a + (Encode(t) + c), mac);
    CutArea(p1, a, Encode(t), c);
    var q := PullAndMerge(p1, TAGS_AT + |a|, TAG_HDR_LEN + OWN_LEN).value;
    HeaderKept(p1, q, mac);
  }

  /** Equal headers up to the tags, before the length is rewritten. */
  lemma HeaderKept(p: Packet, q: Packet, mac: seq<Byte>)
    requires PacketOk(p) && PacketOk(q) && q.buf[..TAGS_AT] == p.buf[..TAGS_AT] && p.buf[..ETH_ALEN] == mac
    ensures forall n: int :: SetTagsLen(q, n).buf[..ETH_ALEN] == mac
                          && SetTagsLen(q, n).buf[ETH_ALEN..LEN_AT] == p.buf[ETH_ALEN..LEN_AT]
  {
    assert forall k :: 0 <= k < TAGS_AT ==> q.buf[k] == q.buf[..TAGS_AT][k] == p.buf[k];
    assert forall k :: 0 <= k < ETH_ALEN ==> p.buf[k] == mac[k];
  }

  /** The packet after our part of the relay tag was cut out of it. */
  function CutOwn(p: Packet, at: nat, mac: seq<Byte>): Option<Packet>
    requires PacketOk(p) && |mac| == ETH_ALEN && at >= TAGS_AT
  {
    match PullAndMerge(p.(buf := Store(p.buf, 0, mac)), at, OWN_LEN)
    case None => None
    case Some(q) => Some(SetTagsLen(q, TagsLen(q) - OWN_LEN))
  }

  lemma AreaInside(p: Packet, bs: seq<Byte>)
    requires TagArea(p, bs)
    ensures PacketOk(p) && TAGS_AT + |bs| <= |p.buf|
  {
  }

  lemma CutOwnOk(p: Packet, a: seq<Byte>, mac: seq<Byte>, prior: seq<Byte>, c: seq<Byte>)
    requires RelayAt(p, a, mac, prior, c)
    ensures var r := CutOwn(p, TAGS_AT + |a| + TAG_HDR_LEN, mac);
      && r.Some? && TagArea(r.value, (a + Be16(PTT_RELAY_SID)) + (Be16(OWN_LEN + |prior|) + (prior + c)))
      && r.value.buf[..ETH_ALEN] == mac && r.value.buf[ETH_ALEN..LEN_AT] == p.buf[ETH_ALEN..LEN_AT]
      && r.value.len == p.len - OWN_LEN
      && TAGS_AT + |a| + TAG_HDR_LEN <= |r.value.buf|
  {
    hide Store, FindTag, CanWalk, TagArea, Encode;
    var bs := a + (Encode(Tag(PTT_RELAY_SID, MAGIC + mac + prior)) + c);
    var p1 := p.(buf := Store(p.buf, 0, mac));
    AddressWritten(p, bs, mac);
    RelayPieces(a, mac, prior, c);
    var x, z := a + (Be16(PTT_RELAY_SID) + Be16(OWN_LEN + |prior|)), prior + c;
    CutArea(p1, x, MAGIC + mac, z);
    HeaderKept(p1, PullAndMerge(p1, TAGS_AT + |x|, OWN_LEN).value, mac);
    assert x + z == (a + Be16(PTT_RELAY_SID)) + (Be16(OWN_LEN + |prior|) + z);
    AreaInside(CutOwn(p, TAGS_AT + |a| + TAG_HDR_LEN, mac).value, x + z);
  }

  /** With an earlier value behind ours, only our part goes and the tag gets shorter. */
  lemma StripPart(p: Packet, a: seq<Byte>, mac: seq<Byte>, prior: seq<Byte>, c: seq<Byte>)
    requires RelayAt(p, a, mac, prior, c) && prior != []
    ensures CanLookup(p) && Lookup(p).ret == 0
    ensures var q := Lookup(p).p;
      && TagArea(q, a + (Encode(Tag(PTT_RELAY_SID, prior)) + c))
      && q.buf[..ETH_ALEN] == mac && q.buf[ETH_ALEN..LEN_AT] == p.buf[ETH_ALEN..LEN_AT]
      && q.len == p.len - OWN_LEN
  {
    hide Store, FindTag, CanWalk, TagArea, Encode, PullAndMerge, SetTagsLen;
    RelayFields(p, a, mac, prior, c);
    CutOwnOk(p, a, mac, prior, c);
    var r := CutOwn(p, TAGS_AT + |a| + TAG_HDR_LEN, mac).value;
    RelayPieces(a, mac, prior, c);
    StoreInArea(r, a + Be16(PTT_RELAY_SID), Be16(OWN_LEN + |prior|), Be16(|prior|), prior + c);
    var w := r.(buf := Store(r.buf, TAGS_AT + |a| + 2, Be16(|prior|)));
    SamePrefix(r.buf, w.buf);
  }

  lemma SamePrefix(b: seq<Byte>, d: seq<Byte>)
    requires |b| == |d| >= LEN_AT && b[..LEN_AT] == d[..LEN_AT]
    ensures b[..ETH_ALEN] == d[..ETH_ALEN] && b[ETH_ALEN..LEN_AT] == d[ETH_ALEN..LEN_AT]
  {
    InPrefix(b, LEN_AT, 0, ETH_ALEN);
    InPrefix(d, LEN_AT, 0, ETH_ALEN);
    InPrefix(b, LEN_AT, ETH_ALEN, LEN_AT);
    InPrefix(d, LEN_AT, ETH_ALEN, LEN_AT);
  }

  /** The bytes around our part of a relay tag. */
  lemma RelayPieces(a: seq<Byte>, mac: seq<Byte>, prior: seq<Byte>, c: seq<Byte>)
    requires |mac| == ETH_ALEN
    ensures var n := OWN_LEN + |prior|;
      a + (Encode(Tag(PTT_RELAY_SID, MAGIC + mac + prior)) + c)
        == (a + (Be16(PTT_RELAY_SID) + Be16(n))) + ((MAGIC + mac) + (prior + c))
    ensures a + (Encode(Tag(PTT_RELAY_SID, prior)) + c)
        == (a + Be16(PTT_RELAY_SID)) + (Be16(|prior|) + (prior + c))
  {
  }

  /** The tags of a reply: our relay tag somewhere, no other relay tag before it. */
  function Reply(us: seq<Tag>, mac: seq<Byte>, prior: seq<Byte>, vs: seq<Tag>): seq<Tag> {
    us + [Tag(PTT_RELAY_SID, MAGIC + mac + prior)] + vs
  }

  lemma {:induction false} FirstAfter(us: seq<Tag>, t: Tag, vs: seq<Tag>)
    requires !HasRelay(us) && t.typ == PTT_RELAY_SID
    ensures FirstOf(us + [t] + vs, PTT_RELAY_SID) == |us|
  {
    var all := us + [t] + vs;
    if us == [] {
      assert all[0] == t;
    } else {
      assert all[1..] == us[1..] + [t] + vs;
      FirstAfter(us[1..], t, vs);
    }
  }

  /** A reply that echoes the relay tag goes to the client named in it, with every other tag in
    * place, a right length field, and the earlier relay value, if there was one, restored. */
  lemma LookupStrips(p: Packet, us: seq<Tag>, mac: seq<Byte>, prior: seq<Byte>, vs: seq<Tag>)
    requires WellFormed(p, Reply(us, mac, prior, vs)) && !HasRelay(us) && |mac| == ETH_ALEN
    ensures CanLookup(p) && Lookup(p).ret == 0
    ensures var q := Lookup(p).p;
      && WellFormed(q, us + Stripped(prior) + vs)
      && q.buf[..ETH_ALEN] == mac && q.buf[ETH_ALEN..LEN_AT] == p.buf[ETH_ALEN..LEN_AT]
      && q.len == p.len - if prior == [] then 12 else 8
  {
    hide Lookup, Encode, CanLookup, TagArea, CanWalk;
    var t := Tag(PTT_RELAY_SID, MAGIC + mac + prior);
    var ts := Reply(us, mac, prior, vs);
    var a, c := EncodeAll(us), EncodeAll(vs);
    ReplyFound(p, us, mac, prior, vs);
    if prior == [] {
      assert MAGIC + mac + [] == t.value;
      StripWhole(p, a, mac, c);
      EncodeConcat(us, vs);
      assert us + Stripped(prior) + vs == us + vs;
    } else {
      StripPart(p, a, mac, prior, c);
      var t' := Tag(PTT_RELAY_SID, prior);
      assert us + Stripped(prior) + vs == us + ([t'] + vs);
      EncodeConcat(us, [t'] + vs);
      EncodeCons(t', vs);
    }
    assert t in ts;
    forall u | u in us + Stripped(prior) + vs ensures TagOk(u) {
      assert u in ts || u.value == prior;
    }
  }

  lemma EncodeAround(us: seq<Tag>, t: Tag, vs: seq<Tag>)
    ensures EncodeAll(us + [t] + vs) == EncodeAll(us) + (Encode(t) + EncodeAll(vs))
    ensures (us + [t] + vs)[..|us|] == us
  {
    assert us + [t] + vs == us + ([t] + vs);
    EncodeConcat(us, [t] + vs);
    EncodeCons(t, vs);
  }

  lemma ReplyFound(p: Packet, us: seq<Tag>, mac: seq<Byte>, prior: seq<Byte>, vs: seq<Tag>)
    requires WellFormed(p, Reply(us, mac, prior, vs)) && !HasRelay(us) && |mac| == ETH_ALEN
    ensures RelayAt(p, EncodeAll(us), mac, prior, EncodeAll(vs))
  {
    hide Encode, FindTag, CanWalk, TagArea;
    var t := Tag(PTT_RELAY_SID, MAGIC + mac + prior);
    var ts := Reply(us, mac, prior, vs);
    FindWellFormed(p, ts);
    FirstAfter(us, t, vs);
    EncodeAround(us, t, vs);
    AreaInside(p, EncodeAll(ts));
    assert t in ts;
  }

  lemma FindWellFormed(p: Packet, ts: seq<Tag>)
    requires WellFormed(p, ts)
    ensures var i := FirstOf(ts, PTT_RELAY_SID);
      && CanWalk(p)
      && FindTag(p, PTT_RELAY_SID) == (if i == |ts| then None else Some(TAGS_AT + |EncodeAll(ts[..i])|))
  {
    FindInList(p.buf, TAGS_AT, ts, PTT_RELAY_SID);
  }

  /** The relay value of a tag list carries our magic code and an address. */
  predicate Ours(ts: seq<Tag>) {
    HasRelay(ts) && |OldValue(ts)| >= OWN_LEN && OldValue(ts)[..2] == [0x81, 0x86]
  }

  /** A reply is forwarded exactly when the first relay tag among its tags is one of ours;
    * otherwise it stays as it is. */
  lemma LookupForwardsIff(p: Packet, ts: seq<Tag>)
    requires WellFormed(p, ts)
    ensures CanLookup(p)
    ensures Lookup(p).ret == 0 <==> Ours(ts)
    ensures !Ours(ts) ==> Lookup(p) == Outcome(p, -1)
  {
    hide Lookup, CanLookup, CanWalk, FindTag, Encode, TagArea, WellFormed, Reply, Ours;
    if Ours(ts) {
      var us, mac, prior, vs := OursIsReply(ts);
      LookupStrips(p, us, mac, prior, vs);
    } else {
      FindWellFormed(p, ts);
      if HasRelay(ts) { NotOurs(p, ts); } else { NoRelayFound(p); }
    }
  }

  lemma OursIsReply(ts: seq<Tag>) returns (us: seq<Tag>, mac: seq<Byte>, prior: seq<Byte>, vs: seq<Tag>)
    requires Ours(ts)
    ensures ts == Reply(us, mac, prior, vs) && !HasRelay(us) && |mac| == ETH_ALEN
  {
    hide FirstOf;
    var i, v := FirstOf(ts, PTT_RELAY_SID), OldValue(ts);
    us, mac, prior, vs := ts[..i], v[2..OWN_LEN], v[OWN_LEN..], ts[i + 1..];
    ThreeParts(v);
    AroundAt(ts, i);
    NoneBefore(ts, i);
    assert us + ([ts[i]] + vs) == us + [ts[i]] + vs;
  }

  lemma ThreeParts(v: seq<Byte>)
    requires |v| >= OWN_LEN && v[..2] == [0x81, 0x86]
    ensures v == MAGIC + v[2..OWN_LEN] + v[OWN_LEN..]
  {
    assert v == v[..2] + v[2..OWN_LEN] + v[OWN_LEN..];
  }

  lemma NoneBefore(ts: seq<Tag>, i: nat)
    requires i == FirstOf(ts, PTT_RELAY_SID)
    ensures !HasRelay(ts[..i])
  {
    assert forall j :: 0 <= j < i ==> ts[..i][j] == ts[j];
  }

  lemma NoRelayFound(p: Packet)
    requires CanWalk(p) && FindTag(p, PTT_RELAY_SID).None?
    ensures CanLookup(p) && Lookup(p) == Outcome(p, -1)
  {
  }

  lemma NotOurs(p: Packet, ts: seq<Tag>)
    requires WellFormed(p, ts) && HasRelay(ts) && !Ours(ts)
    ensures CanLookup(p) && Lookup(p) == Outcome(p, -1)
  {
    hide Encode, FindTag, CanWalk, U16, WalkOk, Holds, Lookup, CanLookup;
    FindWellFormed(p, ts);
    FoundInside(p, ts);
    var i := FirstOf(ts, PTT_RELAY_SID);
    EncodeSplit(ts, i);
    FieldsAt(p.buf, EncodeAll(ts[..i]), ts[i], EncodeAll(ts[i + 1..]));
    var pos, v := TAGS_AT + |EncodeAll(ts[..i])|, ts[i].value;
    if |v| >= OWN_LEN { StartsWith(p.buf, pos + TAG_HDR_LEN, v); }
    RefusedAt(p, pos, |v|);
  }

  lemma StartsWith(b: seq<Byte>, at: nat, v: seq<Byte>)
    requires at + |v| <= |b| && b[at..at + |v|] == v && |v| >= 2
    ensures b[at..at + 2] == v[..2]
  {
    assert b[at..at + 2] == b[at..at + |v|][..2];
  }

  lemma RefusedAt(p: Packet, pos: nat, n: nat)
    requires CanWalk(p) && FindTag(p, PTT_RELAY_SID) == Some(pos) && pos + TAG_HDR_LEN + n <= |p.buf|
    requires U16(p.buf[pos + 2], p.buf[pos + 3]) == n
    requires n < OWN_LEN || p.buf[pos + 4..pos + 6] != MAGIC
    ensures CanLookup(p) && Lookup(p) == Outcome(p, -1)
  {
    hide FindTag, CanWalk, U16, StripAt;
  }

  /** A reply of another relay agent: it is not touched. */
  lemma OtherRelayStays(p: Packet, mac: seq<Byte>)
    requires |mac| == ETH_ALEN && WellFormed(p, [Tag(PTT_RELAY_SID, [0xaa, 0xbb] + mac)])
    ensures CanLookup(p) && Lookup(p) == Outcome(p, -1)
  {
    var ts := [Tag(PTT_RELAY_SID, [0xaa, 0xbb] + mac)];
    assert OldValue(ts)[0] == 0xaa;
    assert [0x81, 0x86][0] == 0x81;
    LookupForwardsIff(p, ts);
  }

  /** The round trip: a request forwarded with its relay tag, and any reply that echoes that
    * tag unchanged among tags of its own, wherever it puts it. */
  lemma RelayRoundTrip(p: Packet, m: Memory, ts: seq<Tag>, reply: Packet, us: seq<Tag>, vs: seq<Tag>)
    requires WellFormed(p, ts) && Insert(true, p, m, ts).ret == 0
    requires |EncodeAll(Others(ts))| + Added(true, ts) < 0x1_0000
    requires !HasRelay(us)
    requires WellFormed(reply, us + [RelayTag(p, ts)] + vs)
    ensures WellFormed(Insert(true, p, m, ts).p, [RelayTag(p, ts)] + Others(ts))
    ensures CanLookup(reply) && Lookup(reply).ret == 0
    ensures var q := Lookup(reply).p;
      q.buf[..ETH_ALEN] == p.buf[ETH_ALEN..2 * ETH_ALEN] && WellFormed(q, us + Stripped(OldValue(ts)) + vs)
  {
    hide Insert, Lookup, CanLookup;
    InsertPutsRelayFirst(p, m, ts);
    LookupStrips(reply, us, p.buf[ETH_ALEN..2 * ETH_ALEN], OldValue(ts), vs);
  }

  lemma FoundInside(p: Packet, ts: seq<Tag>)
    requires WellFormed(p, ts) && CanWalk(p) && FindTag(p, PTT_RELAY_SID).Some?
    ensures var pos := FindTag(p, PTT_RELAY_SID).value;
      TAGS_AT <= pos && pos + TAG_HDR_LEN + U16(p.buf[pos + 2], p.buf[pos + 3]) <= p.len
  {
    hide FindFrom, WalkOk;
    FindWellFormed(p, ts);
    var i := FirstOf(ts, PTT_RELAY_SID);
    EncodeSplit(ts, i);
    FieldsAt(p.buf, EncodeAll(ts[..i]), ts[i], EncodeAll(ts[i + 1..]));
  }

  /* ---------- The packet buffer in place ---------- */

  class Skb {
    const buf: array<Byte>
    var len: nat

    function Now(): Packet
      reads this, buf
    {
      Packet(buf[..], len)
    }

    /** memmove and memcpy: the source bytes are read before any is written. */
    method Write(at: nat, bs: seq<Byte>)
      requires at + |bs| <= buf.Length
      modifies buf
      ensures buf[..] == Store(old(buf[..]), at, bs)
    {
      forall k | 0 <= k < |bs| { buf[at + k] := bs[k]; }
    }

    /** ph->length = htons(n) */
    method WriteLen(n: int)
      requires PacketOk(Now())
      modifies buf
      ensures Now() == SetTagsLen(old(Now()), n)
    {
      Write(LEN_AT, Be16(Low16(n)));
    }

    /** __nat25_find_pppoe_tag */
    method Find(typ: nat) returns (r: Option<nat>)
      requires CanWalk(Now())
      ensures r == FindTag(Now(), typ)
      ensures r.Some? ==> TAGS_AT <= r.value && r.value + TAG_HDR_LEN <= buf.Length
    {
      var cur, end := TAGS_AT, TAGS_AT + U16(buf[LEN_AT], buf[LEN_AT + 1]);
      while cur < end
        invariant TAGS_AT <= cur && WalkOk(buf[..], cur, end)
        invariant FindTag(Now(), typ) == FindFrom(buf[..], cur, end, typ)
        decreases end - cur
      {
        if U16(buf[cur], buf[cur + 1]) == typ {
          return Some(cur);
        }
        cur := cur + TAG_HDR_LEN + U16(buf[cur + 2], buf[cur + 3]);
      }
      r := None;
    }

    /** skb_pull_and_merge */
    method Pull(src: nat, n: nat) returns (ok: bool)
      requires PacketOk(Now())
      modifies this`len, buf
      ensures ok <==> PullAndMerge(old(Now()), src, n).Some?
      ensures Now() == if ok then PullAndMerge(old(Now()), src, n).value else old(Now())
      ensures TAGS_AT + n <= old(len) ==> PacketOk(Now())
      ensures ok <==> src + n <= old(len)
    {
      if src + n > len || len < n {
        return false;
      }
      Write(src, buf[src + n..len]);
      len := len - n;
      ok := true;
    }

    /** skb_put and the move of the tags. */
    method PushTags(n: nat)
      requires Relayable(Now()) && buf.Length - len >= n
      modifies this`len, buf
      ensures Now() == MakeRoom(old(Now()), n)
    {
      hide Store, U16;
      len := len + n;
      Write(TAGS_AT + n, buf[TAGS_AT..TAGS_AT + U16(buf[LEN_AT], buf[LEN_AT + 1])]);
    }

    /** __nat25_add_pppoe_tag */
    method Add(big: bool, m: Memory) returns (ok: bool)
      requires Relayable(Now())
      modifies this`len, buf
      ensures ok <==> AddTag(big, old(Now()), m).Some?
      ensures Now() == if ok then AddTag(big, old(Now()), m).value else old(Now())
    {
      hide CopyLen, Store, SetTagsLen, U16, MakeRoom;
      var dataLen := CopyLen(big, m);
      if buf.Length - len < dataLen {
        return false;
      }
      var n := U16(buf[LEN_AT], buf[LEN_AT + 1]);
      PushTags(dataLen);
      WriteLen(n + dataLen);
      Write(TAGS_AT, m[..dataLen]);
      ok := true;
    }

    /** The removal of an earlier relay tag: false when the packet is refused. */
    method TakeOut(ghost ts: seq<Tag>) returns (ok: bool, prior: seq<Byte>)
      requires WellFormed(Now(), ts) && CanWalk(Now())
      modifies this`len, buf
      ensures (Now(), if ok then Some(prior) else None) == TakeOld(old(Now()))
    {
      hide Store, FindTag, WalkOk, U16, TagArea, PullAndMerge, SetTagsLen;
      prior := [];
      var pos := Find(PTT_RELAY_SID);
      if pos.Some? {
        var n := U16(buf[pos.value + 2], buf[pos.value + 3]);
        if n + TAG_HDR_LEN + OWN_LEN > TAG_BUF {
          return false, [];
        }
        FoundInside(Now(), ts);
        prior := buf[pos.value + TAG_HDR_LEN..pos.value + TAG_HDR_LEN + n];
        ok := Pull(pos.value, TAG_HDR_LEN + n);
        if !ok {
          return false, prior;
        }
        WriteLen(U16(buf[LEN_AT], buf[LEN_AT + 1]) - TAG_HDR_LEN - n);
      }
      ok := true;
    }

    /** NAT25_INSERT for a PADI or PADR, relay branch. */
    method InsertRelay(big: bool, m: Memory, ghost ts: seq<Tag>) returns (ret: int)
      requires WellFormed(Now(), ts)
      modifies this`len, buf
      ensures Outcome(Now(), ret) == Insert(big, old(Now()), m, ts)
    {
      hide Store, TagBuf, TakeOld, AddTag, CanWalk;
      TakeOldOk(Now(), ts);
      var ok, prior := TakeOut(ts);
      if !ok {
        return -1;
      }
      var added := Add(big, TagBuf(m, Tag(PTT_RELAY_SID, MAGIC + buf[ETH_ALEN..2 * ETH_ALEN] + prior)));
      ret := if added then 0 else -1;
    }

    /** NAT25_LOOKUP for a PADO or PADS, relay branch. */
    method LookupRelay() returns (ret: int)
      requires CanLookup(Now())
      modifies this`len, buf
      ensures Outcome(Now(), ret) == Lookup(old(Now()))
    {
      hide Store, FindTag, WalkOk, U16, StripAt;
      var found := Find(PTT_RELAY_SID);
      if found.None? {
        return -1;
      }
      var pos := found.value;
      var n := U16(buf[pos + 2], buf[pos + 3]);
      if n < OWN_LEN || buf[pos + 4..pos + 6] != MAGIC {
        return -1;
      }
      ret := Strip(pos, n);
    }

    method Strip(pos: nat, n: nat) returns (ret: int)
      requires PacketOk(Now()) && TAGS_AT <= pos && OWN_LEN <= n && pos + TAG_HDR_LEN + OWN_LEN <= buf.Length
      modifies this`len, buf
      ensures Outcome(Now(), ret) == StripAt(old(Now()), pos, n)
    {
      hide Store, U16, PullAndMerge, SetTagsLen, Be16;
      Write(0, buf[pos + 6..pos + 12]);
      var offset := if n > OWN_LEN then TAG_HDR_LEN else 0;
      var cut := TAG_HDR_LEN + OWN_LEN - offset;
      var ok := Pull(pos + offset, cut);
      if !ok {
        return -1;
      }
      WriteLen(U16(buf[LEN_AT], buf[LEN_AT + 1]) - cut);
      if offset > 0 {
        Write(pos + 2, Be16(n - OWN_LEN));
      }
      ret := 0;
    }
  }
}
