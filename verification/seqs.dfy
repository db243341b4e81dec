/**
 * Filtering a sequence while keeping its order: the `QuerySet.filter` of the
 * model, with the facts about it that the views and the list rules use.
 */
module Seqs {

  /** `queryset.filter(...)`: the elements that satisfy `matches`, in their original order. */
  function Keep<T(!new)>(xs: seq<T>, matches: T -> bool): (r: seq<T>)
    ensures |r| <= |xs|
    ensures forall x :: x in r <==> x in xs && matches(x)
  {
    if xs == [] then []
    else Keep(xs[..|xs| - 1], matches) + (if matches(xs[|xs| - 1]) then [xs[|xs| - 1]] else [])
  }

  /** When nothing matches, nothing is kept. */
  lemma {:induction false} KeepNone<T(!new)>(xs: seq<T>, matches: T -> bool)
    requires forall x :: x in xs ==> !matches(x)
    ensures Keep(xs, matches) == []
    decreases |xs|
  {
    if xs != [] {
      assert xs[|xs| - 1] in xs;
      assert forall x :: x in xs[..|xs| - 1] ==> x in xs;
      KeepNone(xs[..|xs| - 1], matches);
    }
  }

  /** `r` can be obtained from `xs` by dropping elements. */
  ghost predicate SubsequenceOf<T>(r: seq<T>, xs: seq<T>)
    decreases |xs|
  {
    if r == [] then true
    else if xs == [] then false
    else if r[|r| - 1] == xs[|xs| - 1] then SubsequenceOf(r[..|r| - 1], xs[..|xs| - 1])
    else SubsequenceOf(r, xs[..|xs| - 1])
  }

  lemma {:induction false} SubsequenceOfSelf<T>(xs: seq<T>)
    ensures SubsequenceOf(xs, xs)
    decreases |xs|
  {
    if xs != [] {
      SubsequenceOfSelf(xs[..|xs| - 1]);
    }
  }

  /** Filtering keeps an order-preserving selection of the input. */
  lemma {:induction false} KeepIsSubsequence<T(!new)>(xs: seq<T>, matches: T -> bool)
    ensures SubsequenceOf(Keep(xs, matches), xs)
    decreases |xs|
  {
    if xs != [] {
      var init, last := xs[..|xs| - 1], xs[|xs| - 1];
      KeepIsSubsequence(init, matches);
      if matches(last) {
        assert Keep(xs, matches)[..|Keep(xs, matches)| - 1] == Keep(init, matches);
      } else {
        assert Keep(xs, matches) == Keep(init, matches);
        if Keep(init, matches) != [] {
          SubsequenceAppend(Keep(init, matches), init, last);
        }
      }
    }
  }

  lemma {:induction false} SubsequenceAppend<T>(r: seq<T>, xs: seq<T>, x: T)
    requires SubsequenceOf(r, xs)
    ensures SubsequenceOf(r, xs + [x])
    decreases |xs|, 1
  {
    var ys := xs + [x];
    assert ys[..|ys| - 1] == xs;
    if r != [] && r[|r| - 1] == x {
      // Matching `x` itself needs `r`'s prefix to be a subsequence of `xs`.
      SubsequenceDropLast(r, xs);
    }
  }

  lemma {:induction false} SubsequenceDropLast<T>(r: seq<T>, xs: seq<T>)
    requires r != [] && SubsequenceOf(r, xs)
    ensures SubsequenceOf(r[..|r| - 1], xs)
    decreases |xs|, 0
  {
    var init := xs[..|xs| - 1];
    if r[|r| - 1] == xs[|xs| - 1] {
      SubsequenceAppend(r[..|r| - 1], init, xs[|xs| - 1]);
      assert init + [xs[|xs| - 1]] == xs;
    } else {
      SubsequenceDropLast(r, init);
      SubsequenceAppend(r[..|r| - 1], init, xs[|xs| - 1]);
      assert init + [xs[|xs| - 1]] == xs;
    }
  }

  /** Dropping elements twice is dropping elements once. */
  lemma {:induction false} SubsequenceTransitive<T>(a: seq<T>, b: seq<T>, c: seq<T>)
    requires SubsequenceOf(a, b) && SubsequenceOf(b, c)
    ensures SubsequenceOf(a, c)
    decreases |c|
  {
    if a != [] && b != [] {
      var c' := c[..|c| - 1];
      if b[|b| - 1] == c[|c| - 1] {
        var b' := b[..|b| - 1];
        if a[|a| - 1] == b[|b| - 1] {
          SubsequenceTransitive(a[..|a| - 1], b', c');
        } else {
          SubsequenceTransitive(a, b', c');
          SubsequenceAppend(a, c', c[|c| - 1]);
          assert c' + [c[|c| - 1]] == c;
        }
      } else {
        SubsequenceTransitive(a, b, c');
        SubsequenceAppend(a, c', c[|c| - 1]);
        assert c' + [c[|c| - 1]] == c;
      }
    }
  }

  /** Filtering keeps every copy of a matching element and no copy of any other. */
  lemma {:induction false} KeepMultiset<T(!new)>(xs: seq<T>, matches: T -> bool)
    ensures forall x :: multiset(Keep(xs, matches))[x] == if matches(x) then multiset(xs)[x] else 0
    decreases |xs|
  {
    if xs != [] {
      var init, last := xs[..|xs| - 1], xs[|xs| - 1];
      KeepMultiset(init, matches);
      assert xs == init + [last];
    }
  }

  /** Filtering a concatenation filters each part: with `Keep([x])` this defines `Keep` completely. */
  lemma {:induction false} KeepConcat<T(!new)>(a: seq<T>, b: seq<T>, matches: T -> bool)
    ensures Keep(a + b, matches) == Keep(a, matches) + Keep(b, matches)
    decreases |b|
  {
    if b == [] {
      assert a + b == a;
    } else {
      var init := b[..|b| - 1];
      assert (a + b)[..|a + b| - 1] == a + init;
      KeepConcat(a, init, matches);
    }
  }

  /** Filtering twice with the same condition is filtering once. */
  lemma {:induction false} KeepIdempotent<T(!new)>(xs: seq<T>, matches: T -> bool)
    ensures Keep(Keep(xs, matches), matches) == Keep(xs, matches)
    decreases |xs|
  {
    if xs != [] {
      var init, last := xs[..|xs| - 1], xs[|xs| - 1];
      var kept := Keep(init, matches);
      KeepIdempotent(init, matches);
      if matches(last) {
        assert Keep(xs, matches) == kept + [last];
        KeepConcat(kept, [last], matches);
        assert [last][..0] == [];
        assert Keep([last], matches) == [last];
      } else {
        assert Keep(xs, matches) == kept;
      }
    }
  }

  /** The first kept element is the first element of the input that matches; `i` is its position. */
  lemma {:induction false} KeepHead<T(!new)>(xs: seq<T>, matches: T -> bool) returns (i: nat)
    requires Keep(xs, matches) != []
    ensures i < |xs| && xs[i] == Keep(xs, matches)[0] && matches(xs[i])
    ensures forall j :: 0 <= j < i ==> !matches(xs[j])
    decreases |xs|
  {
    var init, last := xs[..|xs| - 1], xs[|xs| - 1];
    var kept := Keep(init, matches);
    assert Keep(xs, matches) == kept + (if matches(last) then [last] else []);
    if kept != [] {
      i := KeepHead(init, matches);
      assert xs[i] == init[i];
      assert forall j :: 0 <= j < i ==> xs[j] == init[j];
    } else {
      forall j | 0 <= j < |init| ensures !matches(xs[j]) {
        assert xs[j] == init[j] && init[j] in init;
      }
      i := |xs| - 1;
    }
  }

  /** `rel` holds of every pair of elements in their order in `xs`. */
  ghost predicate Pairwise<T>(xs: seq<T>, rel: (T, T) -> bool) {
    forall i, j :: 0 <= i < j < |xs| ==> rel(xs[i], xs[j])
  }

  lemma PairwiseAppend<T>(xs: seq<T>, y: T, rel: (T, T) -> bool)
    requires Pairwise(xs, rel)
    requires forall x :: x in xs ==> rel(x, y)
    ensures Pairwise(xs + [y], rel)
  {
    var ys := xs + [y];
    forall i, j | 0 <= i < j < |ys| ensures rel(ys[i], ys[j]) {
      if j == |xs| {
        assert ys[i] in xs;
      } else {
        assert ys[i] == xs[i] && ys[j] == xs[j];
      }
    }
  }

  /** Filtering keeps every pairwise property. */
  lemma {:induction false} KeepPairwise<T(!new)>(xs: seq<T>, matches: T -> bool, rel: (T, T) -> bool)
    requires Pairwise(xs, rel)
    ensures Pairwise(Keep(xs, matches), rel)
    decreases |xs|
  {
    if xs != [] {
      var init, last := xs[..|xs| - 1], xs[|xs| - 1];
      assert Pairwise(init, rel) by {
        forall i, j | 0 <= i < j < |init| ensures rel(init[i], init[j]) {
          assert init[i] == xs[i] && init[j] == xs[j];
        }
      }
      KeepPairwise(init, matches, rel);
      if matches(last) {
        forall x | x in Keep(init, matches) ensures rel(x, last) {
          var i :| 0 <= i < |init| && init[i] == x;
          assert xs[i] == x;
        }
        PairwiseAppend(Keep(init, matches), last, rel);
      }
    }
  }

  lemma PairwisePrepend<T>(y: T, xs: seq<T>, rel: (T, T) -> bool)
    requires Pairwise(xs, rel)
    requires forall x :: x in xs ==> rel(y, x)
    ensures Pairwise([y] + xs, rel)
  {
    var ys := [y] + xs;
    forall i, j | 0 <= i < j < |ys| ensures rel(ys[i], ys[j]) {
      if i == 0 {
        assert ys[j] in xs;
      } else {
        assert ys[i] == xs[i - 1] && ys[j] == xs[j - 1];
      }
    }
  }
}
