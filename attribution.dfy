/**
 * What the attribution models share: the `filter` that drops excluded interactions, the
 * all-excluded fallback, the `map` that attaches one weight, and the total of the weights.
 */
module Attribution {
  import opened Options
  import opened Types

  /** `!interaction.excluded`. */
  predicate Included(x: Interaction) {
    !IsExcluded(x)
  }

  /** `!interaction.direct`. */
  predicate NotDirect(x: Interaction) {
    !IsDirect(x)
  }

  /** `xs.filter(keep)`: the elements that `keep` accepts, in their original order. */
  function Filter(xs: seq<Interaction>, keep: Interaction -> bool): (r: seq<Interaction>)
    ensures |r| <= |xs|
    ensures forall y :: y in r <==> y in xs && keep(y)
    decreases |xs|
  {
    if xs == [] then []
    else if keep(xs[0]) then [xs[0]] + Filter(xs[1..], keep)
    else Filter(xs[1..], keep)
  }

  /** Index `i` holds the first element of `xs` that `keep` accepts. */
  predicate FirstWhere(xs: seq<Interaction>, keep: Interaction -> bool, i: int) {
    0 <= i < |xs| && keep(xs[i]) && forall j :: 0 <= j < i ==> !keep(xs[j])
  }

  /** Index `i` holds the last element of `xs` that `keep` accepts. */
  predicate LastWhere(xs: seq<Interaction>, keep: Interaction -> bool, i: int) {
    0 <= i < |xs| && keep(xs[i]) && forall j :: i < j < |xs| ==> !keep(xs[j])
  }

  /** Filtering distributes over concatenation. */
  lemma {:induction false} FilterAppend(a: seq<Interaction>, b: seq<Interaction>, keep: Interaction -> bool)
    ensures Filter(a + b, keep) == Filter(a, keep) + Filter(b, keep)
    decreases |a|
  {
    if a == [] {
      assert a + b == b;
    } else {
      assert (a + b)[0] == a[0] && (a + b)[1..] == a[1..] + b;
      FilterAppend(a[1..], b, keep);
    }
  }

  /** The filter is empty exactly when no element is accepted. */
  lemma FilterEmpty(xs: seq<Interaction>, keep: Interaction -> bool)
    ensures Filter(xs, keep) == [] <==> forall i :: 0 <= i < |xs| ==> !keep(xs[i])
  {
    if Filter(xs, keep) == [] {
      forall i | 0 <= i < |xs| ensures !keep(xs[i]) {
        assert xs[i] in xs;
      }
    } else {
      assert Filter(xs, keep)[0] in Filter(xs, keep);
    }
  }

  /** The head of a non-empty filter is the first accepted element. */
  lemma {:induction false} FilterHead(xs: seq<Interaction>, keep: Interaction -> bool)
    requires Filter(xs, keep) != []
    ensures exists i :: FirstWhere(xs, keep, i) && Filter(xs, keep)[0] == xs[i]
    decreases |xs|
  {
    if keep(xs[0]) {
      assert FirstWhere(xs, keep, 0);
    } else {
      FilterHead(xs[1..], keep);
      var i :| FirstWhere(xs[1..], keep, i) && Filter(xs[1..], keep)[0] == xs[1..][i];
      assert FirstWhere(xs, keep, i + 1);
    }
  }

  /** The last element of a non-empty filter is the last accepted element. */
  lemma {:induction false} FilterLast(xs: seq<Interaction>, keep: Interaction -> bool)
    requires Filter(xs, keep) != []
    ensures exists i :: LastWhere(xs, keep, i) && Filter(xs, keep)[|Filter(xs, keep)| - 1] == xs[i]
  {
    var n := |xs| - 1;
    assert xs == xs[..n] + [xs[n]];
    FilterAppend(xs[..n], [xs[n]], keep);
    if keep(xs[n]) {
      assert Filter([xs[n]], keep) == [xs[n]];
      assert LastWhere(xs, keep, n);
    } else {
      assert Filter([xs[n]], keep) == [];
      assert Filter(xs, keep) == Filter(xs[..n], keep);
      FilterLast(xs[..n], keep);
      var i :| LastWhere(xs[..n], keep, i) && Filter(xs[..n], keep)[|Filter(xs[..n], keep)| - 1] == xs[..n][i];
      assert xs[..n][i] == xs[i];
      assert forall j :: i < j < n ==> xs[..n][j] == xs[j];
      assert LastWhere(xs, keep, i);
    }
  }

  /** Filtering twice is filtering once by the conjunction. */
  lemma {:induction false} FilterFilter(xs: seq<Interaction>, a: Interaction -> bool, b: Interaction -> bool, both: Interaction -> bool)
    requires forall x :: both(x) == (a(x) && b(x))
    ensures Filter(Filter(xs, a), b) == Filter(xs, both)
    decreases |xs|
  {
    if xs != [] {
      FilterFilter(xs[1..], a, b, both);
      if a(xs[0]) {
        assert Filter(xs, a)[0] == xs[0] && Filter(xs, a)[1..] == Filter(xs[1..], a);
      }
    }
  }

  /**
   * The interactions a model attributes: the non-excluded ones, or all of them when every one
   * is excluded ("better than nothing").
   */
  function Eligible(xs: seq<Interaction>): (r: seq<Interaction>)
    ensures xs != [] <==> r != []
    ensures (exists i :: 0 <= i < |xs| && Included(xs[i])) ==> r == Filter(xs, Included)
    ensures (forall i :: 0 <= i < |xs| ==> IsExcluded(xs[i])) ==> r == xs
    ensures |r| <= |xs|
  {
    FilterEmpty(xs, Included);
    var included := Filter(xs, Included);
    if included == [] then xs else included
  }

  /** `xs.map(x => ({...x, weight: w}))`. */
  function WithWeights(xs: seq<Interaction>, w: real): (r: seq<Weighted>)
    ensures |r| == |xs|
    ensures forall i :: 0 <= i < |xs| ==> r[i].interaction == xs[i] && r[i].weight == w
    ensures forall i :: 0 <= i < |xs| ==> r[i].occurrences.None? && r[i].value.None?
    decreases |xs|
  {
    if xs == [] then [] else [WithWeight(xs[0], w)] + WithWeights(xs[1..], w)
  }

  /** The total weight of a weighted list. */
  function SumWeights(ws: seq<Weighted>): real
    decreases |ws|
  {
    if ws == [] then 0.0 else ws[0].weight + SumWeights(ws[1..])
  }

  /** Sums add up over concatenation. */
  lemma {:induction false} SumWeightsAppend(a: seq<Weighted>, b: seq<Weighted>)
    ensures SumWeights(a + b) == SumWeights(a) + SumWeights(b)
    decreases |a|
  {
    if a == [] {
      assert a + b == b;
    } else {
      assert (a + b)[0] == a[0] && (a + b)[1..] == a[1..] + b;
      SumWeightsAppend(a[1..], b);
    }
  }

  /** Weighting by one over `n` is dividing by `n`. */
  lemma TimesInverse(k: real, n: real)
    requires n != 0.0
    ensures k * (1.0 / n) == k / n
  {
  }

  /** `n` entries of weight `w` weigh `n * w`. */
  lemma {:induction false} SumWithWeights(xs: seq<Interaction>, w: real)
    ensures SumWeights(WithWeights(xs, w)) == |xs| as real * w
    decreases |xs|
  {
    if xs != [] {
      SumWithWeights(xs[1..], w);
    }
  }

  /** `k` entries of weight `1/n` weigh `k/n`. */
  lemma SumEqualShares(xs: seq<Interaction>, n: nat)
    requires n > 0
    ensures SumWeights(WithWeights(xs, 1.0 / n as real)) == |xs| as real / n as real
  {
    SumWithWeights(xs, 1.0 / n as real);
    TimesInverse(|xs| as real, n as real);
  }

  /** The whole list weighted `1/n` for its own length `n` weighs exactly 1. */
  lemma SumWholeShares(xs: seq<Interaction>)
    requires xs != []
    ensures SumWeights(WithWeights(xs, 1.0 / |xs| as real)) == 1.0
  {
    SumEqualShares(xs, |xs|);
    DivSelf(|xs| as real);
  }

  /** A list weighted `c/n` for its own length `n` weighs `c`. */
  lemma SumScaledShares(xs: seq<Interaction>, c: real)
    requires xs != []
    ensures SumWeights(WithWeights(xs, c / |xs| as real)) == c
  {
    SumWithWeights(xs, c / |xs| as real);
    ScaledShare(|xs| as real, c);
  }

  /** `k` parts of `c / k` make `c`. */
  lemma ScaledShare(k: real, c: real)
    requires k != 0.0
    ensures k * (c / k) == c
  {
  }

  lemma DivSelf(n: real)
    requires n != 0.0
    ensures n / n == 1.0
  {
  }
}
