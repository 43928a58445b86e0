/** Byte buffers as values: overwriting a stretch, and what stands where. */
module Bytes {

  type Byte = b: int | 0 <= b < 0x100

  /** b with the bytes bs written at position at. */
  function Store(b: seq<Byte>, at: nat, bs: seq<Byte>): (r: seq<Byte>)
    requires at + |bs| <= |b|
    ensures |r| == |b|
    ensures forall k :: 0 <= k < |b| ==> r[k] == if at <= k < at + |bs| then bs[k - at] else b[k]
  {
    b[..at] + bs + b[at + |bs|..]
  }

  /** The bytes bs stand at position at. */
  predicate Holds(b: seq<Byte>, at: nat, bs: seq<Byte>) {
    at + |bs| <= |b| && forall k :: 0 <= k < |bs| ==> b[at + k] == bs[k]
  }

  lemma HoldsConcat(b: seq<Byte>, at: nat, x: seq<Byte>, y: seq<Byte>)
    ensures Holds(b, at, x + y) <==> Holds(b, at, x) && Holds(b, at + |x|, y)
  {
    if Holds(b, at, x + y) {
      assert forall k :: 0 <= k < |x| ==> (x + y)[k] == x[k];
      assert forall k :: 0 <= k < |y| ==> (x + y)[|x| + k] == y[k];
    }
  }

  lemma StoreKeepsBelow(b: seq<Byte>, at: nat, x: seq<Byte>, n: nat)
    requires n <= at && at + |x| <= |b|
    ensures Store(b, at, x)[..n] == b[..n]
  {
  }

  lemma StoreNothing(b: seq<Byte>, at: nat)
    requires at <= |b|
    ensures Store(b, at, []) == b
  {
  }

  lemma HoldsSlice(b: seq<Byte>, at: nat, x: seq<Byte>)
    requires Holds(b, at, x)
    ensures at + |x| <= |b| && b[at..at + |x|] == x
  {
  }

  lemma HoldsStored(b: seq<Byte>, at: nat, x: seq<Byte>)
    requires at + |x| <= |b|
    ensures Holds(Store(b, at, x), at, x)
  {
  }

  lemma HoldsBelow(b: seq<Byte>, at: nat, x: seq<Byte>, dst: nat, y: seq<Byte>)
    requires Holds(b, at, x) && dst + |y| <= |b|
    requires at + |x| <= dst || dst + |y| <= at
    ensures Holds(Store(b, dst, y), at, x)
  {
  }

  lemma HoldsShifted(b: seq<Byte>, src: nat, x: seq<Byte>, dst: nat, end: nat)
    requires dst <= src && Holds(b, src, x) && src + |x| <= end <= |b|
    ensures Holds(Store(b, dst, b[src..end]), dst, x)
  {
  }

  /** Moving the bytes after y down onto y. */
  lemma CutBytes(b: seq<Byte>, at: nat, x: seq<Byte>, y: seq<Byte>, z: seq<Byte>, end: nat)
    requires Holds(b, at, x + (y + z)) && at + |x| + |y| + |z| <= end <= |b|
    ensures Holds(Store(b, at + |x|, b[at + |x| + |y|..end]), at, x + z)
  {
    var src, dst := at + |x| + |y|, at + |x|;
    HoldsConcat(b, at, x, y + z);
    HoldsConcat(b, dst, y, z);
    HoldsBelow(b, at, x, dst, b[src..end]);
    HoldsShifted(b, src, z, dst, end);
    HoldsConcat(Store(b, dst, b[src..end]), at, x, z);
  }
}
