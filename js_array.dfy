/** `Array.prototype.filter` and the order and membership facts about it that the
    profile component relies on. */
module JsArray {

  /** `s` can be obtained from `t` by deleting elements: the order of `t` is kept. */
  predicate IsSubsequence<T(==)>(s: seq<T>, t: seq<T>) {
    s == [] ||
    (t != [] &&
     ((s[|s| - 1] == t[|t| - 1] && IsSubsequence(s[..|s| - 1], t[..|t| - 1])) ||
      IsSubsequence(s, t[..|t| - 1])))
  }

  /** `xs.filter(keep)`. */
  function Filter<T>(xs: seq<T>, keep: T -> bool): (r: seq<T>)
    ensures |r| <= |xs|
    ensures forall x :: x in r ==> keep(x)
  {
    if xs == [] then []
    else Filter(xs[..|xs| - 1], keep) + (if keep(xs[|xs| - 1]) then [xs[|xs| - 1]] else [])
  }

  /** Filtering one element more: the count grows by one exactly when it is accepted. */
  lemma FilterStep<T>(xs: seq<T>, i: nat, keep: T -> bool)
    requires i < |xs|
    ensures |Filter(xs[..i + 1], keep)| == |Filter(xs[..i], keep)| + (if keep(xs[i]) then 1 else 0)
  {
    assert xs[..i + 1][..i] == xs[..i];
  }

  /** The filtered list holds exactly the elements of `xs` that `keep` accepts. */
  lemma {:induction false} FilterKeepsAccepted<T>(xs: seq<T>, keep: T -> bool)
    ensures forall x :: x in Filter(xs, keep) <==> x in xs && keep(x)
  {
    if xs != [] {
      var init, last := xs[..|xs| - 1], xs[|xs| - 1];
      FilterKeepsAccepted(init, keep);
      assert xs == init + [last];
    }
  }

  /** Each accepted value occurs in the filtered list as often as in `xs`, and a
      rejected one not at all. */
  lemma {:induction false} FilterKeepsCounts<T>(xs: seq<T>, keep: T -> bool)
    ensures forall x :: multiset(Filter(xs, keep))[x] == if keep(x) then multiset(xs)[x] else 0
  {
    if xs != [] {
      var init, last := xs[..|xs| - 1], xs[|xs| - 1];
      FilterKeepsCounts(init, keep);
      assert xs == init + [last];
    }
  }

  /** The filtered list keeps the order of `xs`. */
  lemma {:induction false} FilterKeepsOrder<T>(xs: seq<T>, keep: T -> bool)
    ensures IsSubsequence(Filter(xs, keep), xs)
  {
    if xs != [] {
      var init, last := xs[..|xs| - 1], xs[|xs| - 1];
      var r := Filter(xs, keep);
      FilterKeepsOrder(init, keep);
      if keep(last) {
        assert r[..|r| - 1] == Filter(init, keep) && r[|r| - 1] == last;
      } else {
        assert r == Filter(init, keep);
      }
    }
  }

  /** A filter and its complement split the list: every element lands in exactly one
      of the two, and their lengths add up. */
  lemma {:induction false} FilterSplitsLength<T>(xs: seq<T>, keep: T -> bool, drop: T -> bool)
    requires forall x :: drop(x) == !keep(x)
    ensures forall x :: x in Filter(xs, drop) <==> x in xs && x !in Filter(xs, keep)
    ensures |Filter(xs, keep)| + |Filter(xs, drop)| == |xs|
  {
    FilterKeepsAccepted(xs, keep);
    FilterKeepsAccepted(xs, drop);
    if xs != [] {
      FilterSplitsLength(xs[..|xs| - 1], keep, drop);
    }
  }

  /** Filtering a concatenation filters both parts. */
  lemma {:induction false} FilterAppend<T>(xs: seq<T>, ys: seq<T>, keep: T -> bool)
    ensures Filter(xs + ys, keep) == Filter(xs, keep) + Filter(ys, keep)
  {
    if ys == [] {
      assert xs + ys == xs;
    } else {
      var init := ys[..|ys| - 1];
      assert (xs + ys)[..|xs + ys| - 1] == xs + init;
      FilterAppend(xs, init, keep);
    }
  }

  /** A filter that accepts every element changes nothing. */
  lemma {:induction false} FilterAll<T>(xs: seq<T>, keep: T -> bool)
    requires forall i :: 0 <= i < |xs| ==> keep(xs[i])
    ensures Filter(xs, keep) == xs
  {
    if xs != [] {
      FilterAll(xs[..|xs| - 1], keep);
    }
  }

  /** No element occurs twice. */
  predicate NoDuplicates<T(==)>(xs: seq<T>) {
    forall i, j :: 0 <= i < j < |xs| ==> xs[i] != xs[j]
  }

  /** Filtering a list without duplicates gives a list without duplicates. */
  lemma {:induction false} FilterKeepsDistinct<T>(xs: seq<T>, keep: T -> bool)
    ensures NoDuplicates(xs) ==> NoDuplicates(Filter(xs, keep))
  {
    if xs != [] && NoDuplicates(xs) {
      var init, last := xs[..|xs| - 1], xs[|xs| - 1];
      assert NoDuplicates(init);
      FilterKeepsDistinct(init, keep);
      FilterKeepsAccepted(init, keep);
      assert last !in init;
    }
  }
}
