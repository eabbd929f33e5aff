/** Order-preserving selection from a sequence, shared by the column
    selector and the catalogue filters. */
module Sequences {

  predicate Distinct<T(==)>(xs: seq<T>)
  {
    forall a, b :: 0 <= a < b < |xs| ==> xs[a] != xs[b]
  }

  predicate Increasing(ps: seq<nat>)
  {
    forall a, b :: 0 <= a < b < |ps| ==> ps[a] < ps[b]
  }

  /** The positions of the elements `keep` accepts, in increasing order. */
  function Positions<T>(xs: seq<T>, keep: T -> bool): (ps: seq<nat>)
    ensures Increasing(ps)
    ensures forall i :: 0 <= i < |ps| ==> ps[i] < |xs|
    ensures forall k :: 0 <= k < |xs| ==> (k in ps <==> keep(xs[k]))
    decreases |xs|
  {
    if xs == [] then []
    else
      var k := |xs| - 1;
      var rest := Positions(xs[..k], keep);
      assert forall j :: 0 <= j < k ==> xs[..k][j] == xs[j];
      if keep(xs[k]) then rest + [k] else rest
  }

  /** The elements `keep` accepts, in their original order: element `i`
      of the result is element `Positions(xs, keep)[i]` of `xs`. */
  function Filter<T>(xs: seq<T>, keep: T -> bool): (r: seq<T>)
    ensures var ps := Positions(xs, keep);
      |r| == |ps| && forall i :: 0 <= i < |ps| ==> r[i] == xs[ps[i]]
  {
    var ps := Positions(xs, keep);
    seq(|ps|, i requires 0 <= i < |ps| => xs[ps[i]])
  }

  /** An element survives the filter exactly when it is in `xs` and is
      accepted. */
  lemma FilterMembers<T>(xs: seq<T>, keep: T -> bool)
    ensures forall x :: x in Filter(xs, keep) <==> x in xs && keep(x)
  {
    var ps := Positions(xs, keep);
    var r := Filter(xs, keep);
    forall x | x in r ensures x in xs && keep(x) {
      var i :| 0 <= i < |r| && r[i] == x;
      assert ps[i] in ps;
    }
    forall x | x in xs && keep(x) ensures x in r {
      var k :| 0 <= k < |xs| && xs[k] == x;
      var i :| 0 <= i < |ps| && ps[i] == k;
      assert r[i] == x;
    }
  }

  /** Filtering a concatenation filters each part. */
  lemma {:induction false} FilterAppend<T>(xs: seq<T>, ys: seq<T>, keep: T -> bool)
    ensures Filter(xs + ys, keep) == Filter(xs, keep) + Filter(ys, keep)
    decreases |ys|
  {
    if ys == [] {
      assert xs + ys == xs;
    } else {
      var zs := xs + ys;
      var k := |zs| - 1;
      assert zs[..k] == xs + ys[..|ys| - 1];
      assert zs[k] == ys[|ys| - 1];
      FilterAppend(xs, ys[..|ys| - 1], keep);
      FilterLast(zs, keep);
      FilterLast(ys, keep);
    }
  }

  /** The filter of a non-empty sequence, peeling off its last element. */
  lemma FilterLast<T>(xs: seq<T>, keep: T -> bool)
    requires xs != []
    ensures Filter(xs, keep) ==
      Filter(xs[..|xs| - 1], keep) + (if keep(xs[|xs| - 1]) then [xs[|xs| - 1]] else [])
  {
    var k := |xs| - 1;
    var ps := Positions(xs, keep);
    var qs := Positions(xs[..k], keep);
    assert forall j :: 0 <= j < k ==> xs[..k][j] == xs[j];
    assert ps == if keep(xs[k]) then qs + [k] else qs;
  }

  /** Filtering keeps at most every element. */
  lemma {:induction false} FilterLength<T>(xs: seq<T>, keep: T -> bool)
    ensures |Filter(xs, keep)| <= |xs|
    decreases |xs|
  {
    if xs != [] {
      FilterLast(xs, keep);
      FilterLength(xs[..|xs| - 1], keep);
    }
  }

  /** A filter that accepts every element keeps the whole sequence. */
  lemma {:induction false} FilterAll<T>(xs: seq<T>, keep: T -> bool)
    requires forall k :: 0 <= k < |xs| ==> keep(xs[k])
    ensures Filter(xs, keep) == xs
    decreases |xs|
  {
    if xs != [] {
      var k := |xs| - 1;
      FilterLast(xs, keep);
      assert forall j :: 0 <= j < k ==> xs[..k][j] == xs[j];
      FilterAll(xs[..k], keep);
      assert xs[..k] + [xs[k]] == xs;
    }
  }

  /** Filtering keeps distinct elements distinct. */
  lemma FilterDistinct<T>(xs: seq<T>, keep: T -> bool)
    requires Distinct(xs)
    ensures Distinct(Filter(xs, keep))
  {
    var ps := Positions(xs, keep);
    var r := Filter(xs, keep);
    forall a, b | 0 <= a < b < |r| ensures r[a] != r[b] {
      assert ps[a] < ps[b];
    }
  }

  lemma FilterSingle<T>(x: T, keep: T -> bool)
    ensures Filter([x], keep) == if keep(x) then [x] else []
  {
    FilterLast([x], keep);
    assert [x][..0] == [];
  }

  /** When `p` accepts exactly the first `m` elements and `q` exactly the
      rest, the two filters give back the two parts. */
  lemma FrontBack<T>(xs: seq<T>, m: nat, p: T -> bool, q: T -> bool)
    requires m <= |xs|
    requires forall k :: 0 <= k < m ==> p(xs[k]) && !q(xs[k])
    requires forall k :: m <= k < |xs| ==> q(xs[k]) && !p(xs[k])
    ensures Filter(xs, p) + Filter(xs, q) == xs
  {
    var front, back := xs[..m], xs[m..];
    assert xs == front + back;
    forall k | 0 <= k < |front| ensures p(front[k]) && !q(front[k]) {
      assert front[k] == xs[k];
    }
    forall k | 0 <= k < |back| ensures q(back[k]) && !p(back[k]) {
      assert back[k] == xs[m + k];
    }
    assert Filter(xs, p) == front by {
      FilterAppend(front, back, p);
      FilterAll(front, p);
      FilterNone(back, p);
    }
    assert Filter(xs, q) == back by {
      FilterAppend(front, back, q);
      FilterNone(front, q);
      FilterAll(back, q);
    }
  }

  /** Two accepted elements keep their order in the filter. */
  lemma FilterPair<T>(xs: seq<T>, keep: T -> bool, a: nat, b: nat) returns (i: nat, j: nat)
    requires a < b < |xs| && keep(xs[a]) && keep(xs[b])
    ensures i < j < |Filter(xs, keep)|
    ensures Filter(xs, keep)[i] == xs[a] && Filter(xs, keep)[j] == xs[b]
  {
    var ps := Positions(xs, keep);
    assert a in ps && b in ps;
    i :| 0 <= i < |ps| && ps[i] == a;
    j :| 0 <= j < |ps| && ps[j] == b;
    assert i < j;
  }

  /** An element of the second part of a concatenation. */
  lemma AppendAt<T>(front: seq<T>, back: seq<T>, i: nat)
    requires i < |back|
    ensures (front + back)[|front| + i] == back[i]
  {
  }

  /** Filtering two elements, one at a time. */
  lemma FilterTwo<T>(a: T, b: T, keep: T -> bool)
    ensures Filter([a, b], keep) == (if keep(a) then [a] else []) + (if keep(b) then [b] else [])
  {
    assert [a, b] == [a] + [b];
    FilterAppend([a], [b], keep);
    FilterSingle(a, keep);
    FilterSingle(b, keep);
  }

  /** Filtering three elements, one at a time. */
  lemma FilterThree<T>(a: T, b: T, c: T, keep: T -> bool)
    ensures Filter([a, b, c], keep) ==
      (if keep(a) then [a] else []) + (if keep(b) then [b] else []) + (if keep(c) then [c] else [])
  {
    assert [a, b, c] == [a] + [b] + [c];
    FilterAppend([a] + [b], [c], keep);
    FilterAppend([a], [b], keep);
    FilterSingle(a, keep);
    FilterSingle(b, keep);
    FilterSingle(c, keep);
  }

  /** A second, stricter filter sees only what the first let through. */
  lemma {:induction false} FilterFilter<T>(xs: seq<T>, p: T -> bool, q: T -> bool)
    requires forall x :: q(x) ==> p(x)
    ensures Filter(Filter(xs, p), q) == Filter(xs, q)
    decreases |xs|
  {
    if xs != [] {
      var k := |xs| - 1;
      var x := xs[k];
      var front := xs[..k];
      assert xs == front + [x];
      FilterAppend(front, [x], p);
      FilterAppend(front, [x], q);
      FilterSingle(x, p);
      FilterSingle(x, q);
      FilterFilter(front, p, q);
      FilterAppend(Filter(front, p), Filter([x], p), q);
      if !p(x) {
        assert Filter([], q) == [];
      }
    }
  }

  /** `sub` can be had from `xs` by deleting elements: the order of what
      remains is the order in `xs`. */
  predicate SubsequenceOf<T(==)>(sub: seq<T>, xs: seq<T>)
    decreases |xs|
  {
    if xs == [] then sub == []
    else
      var front := xs[..|xs| - 1];
      SubsequenceOf(sub, front) ||
      (sub != [] && sub[|sub| - 1] == xs[|xs| - 1] && SubsequenceOf(sub[..|sub| - 1], front))
  }

  /** Filtering keeps the survivors in their original order. */
  lemma {:induction false} FilterSubsequence<T>(xs: seq<T>, keep: T -> bool)
    ensures SubsequenceOf(Filter(xs, keep), xs)
    decreases |xs|
  {
    if xs != [] {
      var k := |xs| - 1;
      var front, r := xs[..k], Filter(xs, keep);
      FilterLast(xs, keep);
      FilterSubsequence(front, keep);
      if keep(xs[k]) {
        assert r == Filter(front, keep) + [xs[k]];
        assert r[..|r| - 1] == Filter(front, keep);
        assert r[|r| - 1] == xs[k];
      } else {
        assert r == Filter(front, keep);
      }
    }
  }

  /** Two filters that never accept the same element keep at most every
      element between them, and all of them only when each element is
      accepted by one of the two. */
  lemma {:induction false} FilterTwoCount<T>(xs: seq<T>, p: T -> bool, q: T -> bool)
    requires forall x :: !(p(x) && q(x))
    ensures |Filter(xs, p)| + |Filter(xs, q)| <= |xs|
    ensures |Filter(xs, p)| + |Filter(xs, q)| == |xs| ==> forall k :: 0 <= k < |xs| ==> p(xs[k]) || q(xs[k])
    decreases |xs|
  {
    if xs != [] {
      var n := |xs| - 1;
      var init := xs[..n];
      assert |Filter(xs, p)| == |Filter(init, p)| + (if p(xs[n]) then 1 else 0) by {
        FilterLast(xs, p);
      }
      assert |Filter(xs, q)| == |Filter(init, q)| + (if q(xs[n]) then 1 else 0) by {
        FilterLast(xs, q);
      }
      FilterTwoCount(init, p, q);
      assert !(p(xs[n]) && q(xs[n]));
      if |Filter(xs, p)| + |Filter(xs, q)| == |xs| {
        assert |Filter(init, p)| + |Filter(init, q)| == |init|;
        assert forall j :: 0 <= j < |init| ==> p(init[j]) || q(init[j]);
        assert p(xs[n]) || q(xs[n]);
        forall k | 0 <= k < |xs| ensures p(xs[k]) || q(xs[k]) {
          if k < n {
            assert init[k] == xs[k];
            assert p(init[k]) || q(init[k]);
          } else {
            assert k == n;
          }
        }
      }
    }
  }

  /** A filter that accepts nothing keeps nothing. */
  lemma {:induction false} FilterNone<T>(xs: seq<T>, keep: T -> bool)
    requires forall k :: 0 <= k < |xs| ==> !keep(xs[k])
    ensures Filter(xs, keep) == []
    decreases |xs|
  {
    if xs != [] {
      var k := |xs| - 1;
      assert forall j :: 0 <= j < k ==> xs[..k][j] == xs[j];
      FilterLast(xs, keep);
      FilterNone(xs[..k], keep);
    }
  }
}
