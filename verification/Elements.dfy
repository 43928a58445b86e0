/** Lists of information elements: one octet of ID, one of length, and a body.  The walk is
  * that of rtw_get_ie in core/rtw_ieee80211.c. */
module Elements {
  import opened Bytes
  import opened Sequences

  type Body = s: seq<Byte> | |s| < 0x100
  datatype Elem = Elem(id: Byte, body: Body)

  function Encode(e: Elem): (r: seq<Byte>)
    ensures |r| == 2 + |e.body| && r[0] == e.id && r[1] == |e.body|
  {
    [e.id, |e.body|] + e.body
  }

  function EncodeAll(es: seq<Elem>): (r: seq<Byte>) {
    Flatten(Encode, es)
  }

  lemma EncodeConcat(a: seq<Elem>, b: seq<Elem>)
    ensures EncodeAll(a + b) == EncodeAll(a) + EncodeAll(b)
  {
    FlattenConcat(Encode, a, b);
  }

  /** The list cut before its k-th element. */
  lemma EncodeCut(es: seq<Elem>, k: nat)
    requires k <= |es|
    ensures EncodeAll(es) == EncodeAll(es[..k]) + EncodeAll(es[k..])
  {
    assert es == es[..k] + es[k..];
    EncodeConcat(es[..k], es[k..]);
  }

  lemma EncodeCons(e: Elem, es: seq<Elem>)
    ensures EncodeAll([e] + es) == Encode(e) + EncodeAll(es)
  {
    assert ([e] + es)[1..] == es;
  }

  /** The list cut around its k-th element. */
  lemma EncodeAround(es: seq<Elem>, k: nat)
    requires k < |es|
    ensures EncodeAll(es) == EncodeAll(es[..k]) + (Encode(es[k]) + EncodeAll(es[k + 1..]))
  {
    hide EncodeAll, Encode;
    AroundAt(es, k);
    EncodeConcat(es[..k], [es[k]] + es[k + 1..]);
    EncodeCons(es[k], es[k + 1..]);
  }

  lemma EncodeSnoc(es: seq<Elem>, k: nat)
    requires k < |es|
    ensures EncodeAll(es[..k + 1]) == EncodeAll(es[..k]) + Encode(es[k])
  {
    assert es[..k + 1] == es[..k] + [es[k]];
    EncodeConcat(es[..k], [es[k]]);
    EncodeCons(es[k], []);
    assert [es[k]] + [] == [es[k]];
  }

  /** The index of the first element with this ID, or the length of the list. */
  function FirstOf(es: seq<Elem>, id: Byte): (k: nat)
    ensures k <= |es| && (k < |es| ==> es[k].id == id)
    ensures forall j :: 0 <= j < k ==> es[j].id != id
  {
    FirstWhere(es, (e: Elem) => e.id == id)
  }

  /** What stands at the start of the k-th element of a list held at position at. */
  lemma HeaderAt(b: seq<Byte>, at: nat, es: seq<Elem>, k: nat)
    requires k < |es| && Holds(b, at, EncodeAll(es))
    ensures var p := at + |EncodeAll(es[..k])|;
      && p + 2 + |es[k].body| <= at + |EncodeAll(es)| <= |b|
      && b[p] == es[k].id && b[p + 1] == |es[k].body|
      && at + |EncodeAll(es[..k + 1])| == p + 2 + |es[k].body|
  {
    EncodeAround(es, k);
    EncodeSnoc(es, k);
    HoldsConcat(b, at, EncodeAll(es[..k]), Encode(es[k]) + EncodeAll(es[k + 1..]));
    HoldsConcat(b, at + |EncodeAll(es[..k])|, Encode(es[k]), EncodeAll(es[k + 1..]));
    var p := at + |EncodeAll(es[..k])|;
    assert b[p + 0] == Encode(es[k])[0] && b[p + 1] == Encode(es[k])[1];
  }
}
