/**
 * The shape of every "append what passes the test" loop in the core: walk a
 * sequence in order and keep, for each element, zero or one derived value.
 */
module Sequences {
  import opened Wrappers

  /** The zero or one values an element contributes. */
  function Kept<U>(o: Option<U>): seq<U> {
    match o
    case Some(u) => [u]
    case None => []
  }

  /** The values `f` keeps from `s`, in the order of `s`. */
  function FilterMap<T, U>(s: seq<T>, f: T -> Option<U>): (r: seq<U>)
    ensures |r| <= |s|
    decreases |s|
  {
    if |s| == 0 then [] else FilterMap(s[..|s| - 1], f) + Kept(f(s[|s| - 1]))
  }

  /** One more element: what it keeps is appended to what the prefix kept. */
  lemma FilterMapStep<T, U>(s: seq<T>, i: nat, f: T -> Option<U>)
    requires i < |s|
    ensures FilterMap(s[..i + 1], f) == FilterMap(s[..i], f) + Kept(f(s[i]))
  {
    assert s[..i + 1][..i] == s[..i];
  }

  /** Filtering distributes over concatenation: the kept values stay in scan order. */
  lemma {:induction false} FilterMapConcat<T, U>(a: seq<T>, b: seq<T>, f: T -> Option<U>)
    ensures FilterMap(a + b, f) == FilterMap(a, f) + FilterMap(b, f)
    decreases |b|
  {
    if |b| == 0 {
      assert a + b == a;
    } else {
      assert (a + b)[..|a + b| - 1] == a + b[..|b| - 1];
      FilterMapConcat(a, b[..|b| - 1], f);
    }
  }

  /** A value is kept exactly when some element yields it. */
  lemma {:induction false} FilterMapMembership<T, U>(s: seq<T>, f: T -> Option<U>, u: U)
    ensures u in FilterMap(s, f) <==> exists i :: 0 <= i < |s| && f(s[i]) == Some(u)
    decreases |s|
  {
    if |s| > 0 {
      var init := s[..|s| - 1];
      FilterMapMembership(init, f, u);
      if exists i :: 0 <= i < |init| && f(init[i]) == Some(u) {
        var i :| 0 <= i < |init| && f(init[i]) == Some(u);
        assert s[i] == init[i];
      }
      if exists i :: 0 <= i < |s| && f(s[i]) == Some(u) {
        var i :| 0 <= i < |s| && f(s[i]) == Some(u);
        if i < |s| - 1 { assert init[i] == s[i]; }
      }
    }
  }

  /** When every element yields a value, nothing is dropped and positions line up. */
  lemma {:induction false} FilterMapKeepsAll<T, U>(s: seq<T>, f: T -> Option<U>)
    requires forall i :: 0 <= i < |s| ==> f(s[i]).Some?
    ensures |FilterMap(s, f)| == |s|
    ensures forall i :: 0 <= i < |s| ==> FilterMap(s, f)[i] == f(s[i]).value
    decreases |s|
  {
    if |s| > 0 {
      var init := s[..|s| - 1];
      assert forall i :: 0 <= i < |init| ==> init[i] == s[i];
      FilterMapKeepsAll(init, f);
    }
  }
}
