/** Small facts about sequences, stated once so that callers in large contexts need not re-derive them. */
module Seqs {
  import opened Wrappers

  /**
   Swift's `compactMap`: the present results of `f`, in order. Nothing is lost when every
   element maps to a value, and every result comes from some element.
   */
  function CompactMap<A, B>(s: seq<A>, f: A -> Option<B>): (r: seq<B>)
    ensures |r| <= |s|
    ensures (forall i :: 0 <= i < |s| ==> f(s[i]).Some?) ==>
      |r| == |s| && forall i :: 0 <= i < |s| ==> f(s[i]) == Some(r[i])
    ensures forall y :: y in r ==> exists i :: 0 <= i < |s| && f(s[i]) == Some(y)
  {
    if |s| == 0 then []
    else
      var rest := CompactMap(s[..|s| - 1], f);
      InitAgrees(s);
      match f(s[|s| - 1])
      case None => rest
      case Some(y) => rest + [y]
  }

  /** Every present result is kept. */
  lemma {:induction false} CompactMapKeeps<A, B>(s: seq<A>, f: A -> Option<B>)
    ensures forall i :: 0 <= i < |s| && f(s[i]).Some? ==> f(s[i]).value in CompactMap(s, f)
  {
    if |s| > 0 {
      CompactMapKeeps(s[..|s| - 1], f);
      InitAgrees(s);
    }
  }

  /** Mapping back what a one-to-one encoding produced recovers the original sequence. */
  lemma CompactMapInverse<A, B>(s: seq<A>, t: seq<B>, f: A -> Option<B>)
    requires |s| == |t| && forall i :: 0 <= i < |s| ==> f(s[i]) == Some(t[i])
    ensures CompactMap(s, f) == t
  {
  }

  /** One more element adds its result when `f` gives one and nothing otherwise. */
  lemma CompactMapSnoc<A, B>(s: seq<A>, x: A, f: A -> Option<B>)
    ensures CompactMap(s + [x], f) == CompactMap(s, f) + (if f(x).Some? then [f(x).value] else [])
  {
    assert (s + [x])[..|s|] == s;
  }

  /** A non-empty sequence is its prefix followed by its last element. */
  lemma LastSplit<T>(s: seq<T>)
    requires |s| > 0
    ensures s == s[..|s| - 1] + [s[|s| - 1]]
  {
  }

  /** Extending a prefix by one element. */
  lemma PrefixSnoc<T>(s: seq<T>, i: nat)
    requires i < |s|
    ensures s[..i + 1] == s[..i] + [s[i]]
  {
  }

  /** The prefix without the last element agrees with the sequence at every index it has. */
  lemma InitAgrees<T>(s: seq<T>)
    requires |s| > 0
    ensures forall i :: 0 <= i < |s| - 1 ==> s[..|s| - 1][i] == s[i]
  {
  }

  function Sum(s: seq<nat>): nat {
    if |s| == 0 then 0 else Sum(s[..|s| - 1]) + s[|s| - 1]
  }

  /** Appending to both sides of a prefix by one element. */
  lemma AppendPrefixSnoc<T>(a: seq<T>, b: seq<T>, j: nat)
    requires j < |b|
    ensures a + b[..j + 1] == (a + b[..j]) + [b[j]]
  {
  }
}
