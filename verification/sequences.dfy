/** Sequence facts shared by the decoders and the suppression filter:
    order-preserving selection (subsequences) and the collection of the
    present entries of a sequence of optional values. */
module Sequences {
  import opened Wrappers

  /** `a` can be obtained from `b` by deleting elements, keeping the order. */
  predicate Subsequence<T(==)>(a: seq<T>, b: seq<T>)
    decreases |b|
  {
    if |a| == 0 then true
    else if |b| == 0 then false
    else
      (a[|a| - 1] == b[|b| - 1] && Subsequence(a[..|a| - 1], b[..|b| - 1]))
      || Subsequence(a, b[..|b| - 1])
  }

  lemma SubsequenceRefl<T>(a: seq<T>)
    ensures Subsequence(a, a)
    decreases |a|
  {
    if |a| > 0 {
      SubsequenceRefl(a[..|a| - 1]);
    }
  }

  lemma SubsequenceExtend<T>(a: seq<T>, b: seq<T>, x: T)
    requires Subsequence(a, b)
    ensures Subsequence(a, b + [x])
  {
    if |a| > 0 {
      assert (b + [x])[..|b|] == b;
    }
  }

  lemma SubsequenceAppend<T>(a: seq<T>, b: seq<T>, x: T)
    requires Subsequence(a, b)
    ensures Subsequence(a + [x], b + [x])
  {
    assert (a + [x])[..|a|] == a;
    assert (b + [x])[..|b|] == b;
  }

  /** Every element of a subsequence is an element of the whole. */
  lemma {:induction false} SubsequenceMembers<T>(a: seq<T>, b: seq<T>)
    requires Subsequence(a, b)
    ensures forall x :: x in a ==> x in b
    decreases |b|
  {
    if |a| > 0 && |b| > 0 {
      if a[|a| - 1] == b[|b| - 1] && Subsequence(a[..|a| - 1], b[..|b| - 1]) {
        SubsequenceMembers(a[..|a| - 1], b[..|b| - 1]);
        forall x | x in a ensures x in b {
          if x != a[|a| - 1] {
            assert x in a[..|a| - 1] by {
              var i :| 0 <= i < |a| && a[i] == x;
              assert a[..|a| - 1][i] == x;
            }
            assert x in b[..|b| - 1];
          } else {
            assert b[|b| - 1] == x;
          }
        }
      } else {
        SubsequenceMembers(a, b[..|b| - 1]);
        forall x | x in a ensures x in b {
          assert x in b[..|b| - 1];
        }
      }
    }
  }

  /** Deleting elements can only lower multiplicities. */
  lemma {:induction false} SubsequenceMultiset<T>(a: seq<T>, b: seq<T>)
    requires Subsequence(a, b)
    ensures multiset(a) <= multiset(b)
    decreases |b|
  {
    if |a| > 0 && |b| > 0 {
      if a[|a| - 1] == b[|b| - 1] && Subsequence(a[..|a| - 1], b[..|b| - 1]) {
        SubsequenceMultiset(a[..|a| - 1], b[..|b| - 1]);
        assert a == a[..|a| - 1] + [a[|a| - 1]];
        assert b == b[..|b| - 1] + [b[|b| - 1]];
      } else {
        SubsequenceMultiset(a, b[..|b| - 1]);
        assert b == b[..|b| - 1] + [b[|b| - 1]];
      }
    }
  }

  /** The present values of `xs`, in order: the C# idiom of appending to a
      list only when a candidate was found. */
  function Somes<T(==)>(xs: seq<Option<T>>): (r: seq<T>)
    ensures |r| <= |xs|
    ensures forall i :: 0 <= i < |xs| && xs[i].Some? ==> xs[i].value in r
    ensures forall y :: y in r ==> Some(y) in xs
    decreases |xs|
  {
    if |xs| == 0 then []
    else
      var rest := Somes(xs[..|xs| - 1]);
      assert forall i :: 0 <= i < |xs| - 1 ==> xs[..|xs| - 1][i] == xs[i];
      match xs[|xs| - 1]
      case None => rest
      case Some(v) => rest + [v]
  }

  /** If every entry of `ys` is either absent or equal to the entry of `xs`
      at the same place, the values of `ys` are a subsequence of those of `xs`. */
  lemma {:induction false} SomesShrink<T>(ys: seq<Option<T>>, xs: seq<Option<T>>)
    requires |ys| == |xs|
    requires forall i :: 0 <= i < |xs| ==> ys[i].None? || ys[i] == xs[i]
    ensures Subsequence(Somes(ys), Somes(xs))
    decreases |xs|
  {
    if |xs| == 0 {
    } else {
      var n := |xs| - 1;
      SomesShrink(ys[..n], xs[..n]);
      var a := Somes(ys[..n]);
      var b := Somes(xs[..n]);
      match xs[n]
      case None =>
        assert Somes(ys) == a;
      case Some(v) =>
        if ys[n].None? {
          assert Somes(ys) == a;
          SubsequenceExtend(a, b, v);
        } else {
          SubsequenceAppend(a, b, v);
        }
    }
  }
}
