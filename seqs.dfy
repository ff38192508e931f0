/**
 * Element-wise maps over sequences, defined from the last element so that
 * a loop which appends one result per step follows the definition.
 */
module Seqs {

  /** The image of `s` under `f`, position by position. */
  function Map<A, B>(f: A -> B, s: seq<A>): (r: seq<B>)
    ensures |r| == |s|
    ensures forall i :: 0 <= i < |s| ==> r[i] == f(s[i])
  {
    if s == [] then [] else Map(f, s[..|s| - 1]) + [f(s[|s| - 1])]
  }

  lemma MapAppend<A, B>(f: A -> B, a: seq<A>, b: seq<A>)
    ensures Map(f, a + b) == Map(f, a) + Map(f, b)
  {
    var l, r := Map(f, a + b), Map(f, a) + Map(f, b);
    forall i | 0 <= i < |l| ensures l[i] == r[i] {
      if i < |a| { assert (a + b)[i] == a[i]; } else { assert (a + b)[i] == b[i - |a|]; }
    }
  }

  /** The concatenation of the images under `f` of the elements of `s`, in order. */
  function FlatMap<A, B>(f: A -> seq<B>, s: seq<A>): seq<B> {
    if s == [] then [] else FlatMap(f, s[..|s| - 1]) + f(s[|s| - 1])
  }

  lemma {:induction false} FlatMapAppend<A, B>(f: A -> seq<B>, a: seq<A>, b: seq<A>)
    ensures FlatMap(f, a + b) == FlatMap(f, a) + FlatMap(f, b)
  {
    if b == [] {
      assert a + b == a;
    } else {
      var init := b[..|b| - 1];
      FlatMapAppend(f, a, init);
      assert (a + b)[..|a + b| - 1] == a + init;
      assert (a + b)[|a + b| - 1] == b[|b| - 1];
    }
  }

  /** Everything in a flat map comes from the image of some element. */
  lemma {:induction false} InFlatMap<A, B>(f: A -> seq<B>, s: seq<A>, x: B)
    requires x in FlatMap(f, s)
    ensures exists i :: 0 <= i < |s| && x in f(s[i])
  {
    var init := s[..|s| - 1];
    if x in FlatMap(f, init) {
      InFlatMap(f, init, x);
      var i :| 0 <= i < |init| && x in f(init[i]);
      assert s[i] == init[i];
    } else {
      assert x in f(s[|s| - 1]);
    }
  }

  /** Everything in the image of an element is in the flat map. */
  lemma InFlatMapOf<A, B>(f: A -> seq<B>, s: seq<A>, i: nat, x: B)
    requires i < |s| && x in f(s[i])
    ensures x in FlatMap(f, s)
  {
    assert s == s[..i] + [s[i]] + s[i + 1..];
    FlatMapAppend(f, s[..i] + [s[i]], s[i + 1..]);
    FlatMapAppend(f, s[..i], [s[i]]);
    assert [s[i]][..0] == [];
  }

  /** When every element has an empty image, so does the sequence. */
  lemma {:induction false} FlatMapOfEmpties<A, B>(f: A -> seq<B>, s: seq<A>)
    requires forall i :: 0 <= i < |s| ==> f(s[i]) == []
    ensures FlatMap(f, s) == []
  {
    if s != [] {
      var init := s[..|s| - 1];
      assert forall i :: 0 <= i < |init| ==> init[i] == s[i];
      FlatMapOfEmpties(f, init);
    }
  }
}
