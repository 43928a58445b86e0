/** Sequences cut in pieces. */
module Sequences {

  ghost predicate Distinct<T>(s: seq<T>) {
    forall j, k :: 0 <= j < k < |s| ==> s[j] != s[k]
  }

  lemma TakeOne<T>(s: seq<T>, i: nat)
    requires i < |s|
    ensures s[..i + 1] == s[..i] + [s[i]]
    ensures s[i..] == [s[i]] + s[i + 1..]
  {
  }

  lemma AroundAt<T>(s: seq<T>, k: nat)
    requires k < |s|
    ensures s == s[..k] + ([s[k]] + s[k + 1..])
  {
  }

  /** The index of the first entry with property p, or the length of the list. */
  function FirstWhere<T>(s: seq<T>, p: T -> bool): (k: nat)
    ensures k <= |s| && (k < |s| ==> p(s[k]))
    ensures forall j :: 0 <= j < k ==> !p(s[j])
  {
    if s == [] then 0 else if p(s[0]) then 0 else 1 + FirstWhere(s[1..], p)
  }

  /** The codes of all entries, one behind the other. */
  function Flatten<T, U>(code: T -> seq<U>, s: seq<T>): seq<U> {
    if s == [] then [] else code(s[0]) + Flatten(code, s[1..])
  }

  lemma {:induction false} FlattenConcat<T, U>(code: T -> seq<U>, a: seq<T>, b: seq<T>)
    ensures Flatten(code, a + b) == Flatten(code, a) + Flatten(code, b)
  {
    if a == [] {
      assert a + b == b;
    } else {
      assert (a + b)[1..] == a[1..] + b;
      FlattenConcat(code, a[1..], b);
    }
  }
}
