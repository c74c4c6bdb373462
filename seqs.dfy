/** The order-preserving filter that the repository writes out as
    `for ... { if keep { out = append(out, x) } }` in several places. */
module Seqs {
  import opened Results

  /** The elements of `s` satisfying `keep`, in their original order. */
  function Filter<T>(s: seq<T>, keep: T -> bool): (r: seq<T>)
    ensures |r| <= |s|
    ensures forall x :: x in r ==> x in s && keep(x)
  {
    if s == [] then [] else Filter(s[..|s| - 1], keep) + (if keep(s[|s| - 1]) then [s[|s| - 1]] else [])
  }

  /** Filtering distributes over concatenation: the relative order of kept elements is preserved. */
  lemma {:induction false} FilterConcat<T>(a: seq<T>, b: seq<T>, keep: T -> bool)
    ensures Filter(a + b, keep) == Filter(a, keep) + Filter(b, keep)
    decreases |b|
  {
    if b == [] {
      assert a + b == a;
    } else {
      var b' := b[..|b| - 1];
      assert (a + b)[..|a + b| - 1] == a + b';
      assert (a + b)[|a + b| - 1] == b[|b| - 1];
      FilterConcat(a, b', keep);
    }
  }

  /** Every element of `s` that satisfies `keep` is kept. */
  lemma {:induction false} FilterComplete<T>(s: seq<T>, keep: T -> bool, x: T)
    requires x in s && keep(x)
    ensures x in Filter(s, keep)
  {
    if x != s[|s| - 1] {
      assert x in s[..|s| - 1] by {
        var i :| 0 <= i < |s| && s[i] == x;
        assert s[..|s| - 1][i] == x;
      }
      FilterComplete(s[..|s| - 1], keep, x);
    }
  }

  /** An element is kept exactly when it occurs and satisfies `keep`. */
  lemma FilterIff<T>(s: seq<T>, keep: T -> bool, x: T)
    ensures x in Filter(s, keep) <==> x in s && keep(x)
  {
    if x in s && keep(x) {
      FilterComplete(s, keep, x);
    }
  }

  /** The values `f` gives for the elements of `xs` on which it gives one, in order. */
  function FilterMap<A, B>(xs: seq<A>, f: A --> Option<B>): (ys: seq<B>)
    requires forall i :: 0 <= i < |xs| ==> f.requires(xs[i])
    ensures |ys| <= |xs|
  {
    if xs == [] then []
    else
      var last := xs[|xs| - 1];
      FilterMap(xs[..|xs| - 1], f) + (if f(last).Some? then [f(last).value] else [])
  }

  /** A value is kept exactly when `f` gives it for some element. */
  lemma {:induction false} FilterMapIff<A, B>(xs: seq<A>, f: A --> Option<B>, y: B)
    requires forall i :: 0 <= i < |xs| ==> f.requires(xs[i])
    ensures y in FilterMap(xs, f) <==> exists i :: 0 <= i < |xs| && f(xs[i]) == Some(y)
  {
    if xs != [] {
      var init := xs[..|xs| - 1];
      FilterMapIff(init, f, y);
      if y in FilterMap(init, f) {
        var i :| 0 <= i < |init| && f(init[i]) == Some(y);
        assert xs[i] == init[i];
      } else if f(xs[|xs| - 1]) != Some(y) {
        forall i | 0 <= i < |xs| ensures f(xs[i]) != Some(y) {
          if i < |init| {
            assert xs[i] == init[i];
          }
        }
      }
    }
  }
}
