/**
 * Listings built by visiting a sequence in order and appending what each
 * element contributes, the shape of every directory-walking loop of the
 * backend.
 */
module Seqs {
  /** The concatenation of `f(x)` over the elements `x` of `s`, in order. */
  function Flatten<A, B>(f: A -> seq<B>, s: seq<A>): seq<B>
    decreases |s|
  {
    if s == [] then [] else Flatten(f, s[..|s| - 1]) + f(s[|s| - 1])
  }

  /** Visiting one more element appends its contribution. */
  lemma FlattenSnoc<A, B>(f: A -> seq<B>, s: seq<A>, i: nat)
    requires i < |s|
    ensures Flatten(f, s[..i + 1]) == Flatten(f, s[..i]) + f(s[i])
  {
    assert s[..i + 1][..i] == s[..i];
  }

  /** An item is listed exactly when some element contributes it. */
  lemma {:induction false} FlattenMember<A, B>(f: A -> seq<B>, s: seq<A>, b: B)
    ensures b in Flatten(f, s) <==> exists k :: 0 <= k < |s| && b in f(s[k])
    decreases |s|
  {
    if s != [] {
      var n := |s| - 1;
      var init := s[..n];
      FlattenMember(f, init, b);
      assert Flatten(f, s) == Flatten(f, init) + f(s[n]);
      if b in Flatten(f, s) && b !in f(s[n]) {
        var k :| 0 <= k < n && b in f(init[k]);
        assert init[k] == s[k];
      }
      if k :| 0 <= k < n && b in f(s[k]) {
        assert init[k] == s[k];
      }
    }
  }

  /** Concatenation is associative. */
  lemma AppendAssoc<T>(a: seq<T>, b: seq<T>, c: seq<T>)
    ensures a + (b + c) == (a + b) + c
  {
  }
}
