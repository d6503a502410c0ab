/** Order-preserving list combinators: the `Array.prototype.filter`,
    `reduce` and `slice` shapes that every store in the storefront is built
    from, with the facts about them the stores rely on. */
module Lists {

  /** The elements of `s` that `keep` accepts, in their original order
      (`s.filter(keep)`). */
  function Filter<T>(s: seq<T>, keep: T -> bool): (r: seq<T>)
    ensures |r| <= |s|
    ensures forall i :: 0 <= i < |r| ==> keep(r[i])
  {
    if |s| == 0 then []
    else (if keep(s[0]) then [s[0]] else []) + Filter(s[1..], keep)
  }

  /** The filter keeps exactly the accepted elements: each kept element
      comes from the input, and each accepted input element is kept. */
  lemma {:induction false} FilterMembers<T>(s: seq<T>, keep: T -> bool)
    ensures forall i :: 0 <= i < |Filter(s, keep)| ==> Filter(s, keep)[i] in s
    ensures forall i :: 0 <= i < |s| && keep(s[i]) ==> s[i] in Filter(s, keep)
  {
    if |s| > 0 {
      var tail := s[1..];
      FilterMembers(tail, keep);
      var r := Filter(s, keep);
      var head := if keep(s[0]) then [s[0]] else [];
      assert r == head + Filter(tail, keep);
      forall i | 0 <= i < |r|
        ensures r[i] in s
      {
        if i >= |head| {
          assert r[i] == Filter(tail, keep)[i - |head|];
        }
      }
      forall i | 0 <= i < |s| && keep(s[i])
        ensures s[i] in r
      {
        if i > 0 {
          assert s[i] == tail[i - 1];
        }
      }
    }
  }

  /** Filtering a list with an element in front. */
  lemma FilterCons<T>(x: T, s: seq<T>, keep: T -> bool)
    ensures Filter([x] + s, keep) == (if keep(x) then [x] else []) + Filter(s, keep)
  {
    assert ([x] + s)[1..] == s;
  }

  /** Filtering distributes over concatenation: kept elements stay in the
      order they had, block by block. */
  lemma {:induction false} FilterAppend<T>(a: seq<T>, b: seq<T>, keep: T -> bool)
    ensures Filter(a + b, keep) == Filter(a, keep) + Filter(b, keep)
  {
    if |a| == 0 {
      assert a + b == b;
    } else {
      assert (a + b)[1..] == a[1..] + b;
      FilterAppend(a[1..], b, keep);
    }
  }

  /** A filter that rejects `x` and accepts everything around it drops
      exactly `x`. */
  lemma FilterDropsOnly<T>(before: seq<T>, x: T, after: seq<T>, keep: T -> bool)
    requires forall i :: 0 <= i < |before| ==> keep(before[i])
    requires forall i :: 0 <= i < |after| ==> keep(after[i])
    requires !keep(x)
    ensures Filter(before + [x] + after, keep) == before + after
  {
    FilterAppend(before + [x], after, keep);
    FilterAppend(before, [x], keep);
    FilterKeepsAll(before, keep);
    FilterKeepsAll(after, keep);
    FilterCons(x, [], keep);
    assert [x] + [] == [x];
    assert Filter(before + [x], keep) == before;
  }

  /** A filter that rejects nothing returns its input unchanged. */
  lemma {:induction false} FilterKeepsAll<T>(s: seq<T>, keep: T -> bool)
    requires forall i :: 0 <= i < |s| ==> keep(s[i])
    ensures Filter(s, keep) == s
  {
    if |s| > 0 {
      FilterKeepsAll(s[1..], keep);
    }
  }

  /** A filter that accepts nothing returns the empty list. */
  lemma {:induction false} FilterKeepsNone<T>(s: seq<T>, keep: T -> bool)
    requires forall i :: 0 <= i < |s| ==> !keep(s[i])
    ensures Filter(s, keep) == []
  {
    if |s| > 0 {
      FilterKeepsNone(s[1..], keep);
    }
  }

  /** A filter that rejects some element returns a strictly shorter list. */
  lemma {:induction false} FilterDrops<T>(s: seq<T>, keep: T -> bool, i: int)
    requires 0 <= i < |s| && !keep(s[i])
    ensures |Filter(s, keep)| < |s|
  {
    if i > 0 {
      FilterDrops(s[1..], keep, i - 1);
    }
  }

  /** Filtering keeps exactly one element when exactly one passes. */
  lemma {:induction false} FilterSingle<T>(s: seq<T>, keep: T -> bool, p: int)
    requires 0 <= p < |s| && keep(s[p])
    requires forall i :: 0 <= i < |s| && i != p ==> !keep(s[i])
    ensures Filter(s, keep) == [s[p]]
  {
    var tail := s[1..];
    assert Filter(s, keep) == (if keep(s[0]) then [s[0]] else []) + Filter(tail, keep);
    if p == 0 {
      assert forall i :: 0 <= i < |tail| ==> tail[i] == s[i + 1];
      FilterKeepsNone(tail, keep);
    } else {
      assert forall i :: 0 <= i < |tail| && i != p - 1 ==> tail[i] == s[i + 1];
      FilterSingle(tail, keep, p - 1);
    }
  }

  /** What holds of every element holds of every element kept. */
  lemma {:induction false} FilterAll<T>(s: seq<T>, keep: T -> bool, good: T -> bool)
    requires forall i :: 0 <= i < |s| ==> good(s[i])
    ensures forall i :: 0 <= i < |Filter(s, keep)| ==> good(Filter(s, keep)[i])
  {
    if |s| > 0 {
      var tail := s[1..];
      FilterAll(tail, keep, good);
      assert Filter(s, keep) == (if keep(s[0]) then [s[0]] else []) + Filter(tail, keep);
    }
  }

  /** The negation of a predicate. */
  function Not<T>(p: T -> bool): T -> bool
  {
    x => !p(x)
  }

  /** Filtering with one predicate and then with its negation splits a list
      into two blocks that together hold exactly its elements. */
  lemma {:induction false} FilterSplit<T>(s: seq<T>, first: T -> bool)
    ensures multiset(Filter(s, first) + Filter(s, Not(first))) == multiset(s)
  {
    if |s| > 0 {
      var tail := s[1..];
      FilterSplit(tail, first);
      var a, b := Filter(tail, first), Filter(tail, Not(first));
      var r := Filter(s, first) + Filter(s, Not(first));
      FilterHead(s, first);
      InsertOne(s[0], a, b);
      assert multiset(r) == multiset{s[0]} + multiset(a + b);
      assert s == [s[0]] + tail;
    }
  }

  /** Both filters of a non-empty list: its head joins the block it
      belongs to, in front of the filtered rest of that block. */
  lemma FilterHead<T>(s: seq<T>, first: T -> bool)
    requires |s| > 0
    ensures var a, b := Filter(s[1..], first), Filter(s[1..], Not(first));
            Filter(s, first) + Filter(s, Not(first))
            == if first(s[0]) then [s[0]] + a + b else a + ([s[0]] + b)
  {
    var a, b := Filter(s[1..], first), Filter(s[1..], Not(first));
    if first(s[0]) {
      assert Filter(s, first) == [s[0]] + a;
      assert Filter(s, Not(first)) == b;
    } else {
      assert Filter(s, first) == a;
      assert Filter(s, Not(first)) == [s[0]] + b;
    }
  }

  /** One more element put at the front or between two blocks adds that
      element once. */
  lemma InsertOne<T>(x: T, a: seq<T>, b: seq<T>)
    ensures multiset([x] + a + b) == multiset{x} + multiset(a + b)
    ensures multiset(a + ([x] + b)) == multiset{x} + multiset(a + b)
  {
  }

  /** Each element of a list sits somewhere in any rearrangement of it. */
  lemma InRearrangement<T>(a: seq<T>, b: seq<T>, j: int)
    requires multiset(a) == multiset(b) && 0 <= j < |a|
    ensures exists i :: 0 <= i < |b| && b[i] == a[j]
  {
    assert a[j] in multiset(b);
  }

  /** Elements satisfying `p` fail `Not(p)`. */
  lemma NotNegates<T>(s: seq<T>, p: T -> bool)
    requires forall i :: 0 <= i < |s| ==> p(s[i])
    ensures forall i :: 0 <= i < |s| ==> !Not(p)(s[i])
  {
  }

  /** A block of `first` elements followed by a block of the others:
      filtering either way recovers its block, and no `first` element comes
      after another element. */
  lemma TwoBlocks<T>(a: seq<T>, b: seq<T>, first: T -> bool)
    requires forall i :: 0 <= i < |a| ==> first(a[i])
    requires forall i :: 0 <= i < |b| ==> !first(b[i])
    ensures Filter(a + b, first) == a
    ensures Filter(a + b, Not(first)) == b
    ensures forall i, j :: 0 <= i < j < |a + b| && first((a + b)[j]) ==> first((a + b)[i])
  {
    FilterAppend(a, b, first);
    FilterAppend(a, b, Not(first));
    FilterKeepsAll(a, first);
    FilterKeepsNone(b, first);
    NotNegates(a, first);
    FilterKeepsNone(a, Not(first));
    FilterKeepsAll(b, Not(first));
    forall i, j | 0 <= i < j < |a + b| && first((a + b)[j])
      ensures first((a + b)[i])
    {
      assert j < |a|;
    }
  }

  /** A stable partition: the elements satisfying `first`, then the others,
      each block in its original order. It is what a stable sort does with a
      comparator that only ranks `first` elements ahead of the rest. */
  function Partition<T>(s: seq<T>, first: T -> bool): (r: seq<T>)
    ensures |r| == |s|
    ensures multiset(r) == multiset(s)
    ensures forall i, j :: 0 <= i < j < |r| && first(r[j]) ==> first(r[i])
    ensures Filter(r, first) == Filter(s, first)
    ensures Filter(r, Not(first)) == Filter(s, Not(first))
  {
    var a := Filter(s, first);
    var b := Filter(s, Not(first));
    forall i | 0 <= i < |b|
      ensures !first(b[i])
    {
      assert Not(first)(b[i]);
    }
    FilterSplit(s, first);
    assert |a + b| == |s| by {
      assert |multiset(a + b)| == |multiset(s)|;
    }
    TwoBlocks(a, b, first);
    a + b
  }

  /** The left-to-right sum `s.reduce((t, x) => t + f(x), 0)`. */
  function Sum<T>(s: seq<T>, f: T -> int): int
  {
    if |s| == 0 then 0 else Sum(s[..|s| - 1], f) + f(s[|s| - 1])
  }

  /** A sum over a concatenation is the sum of the sums. */
  lemma {:induction false} SumAppend<T>(a: seq<T>, b: seq<T>, f: T -> int)
    ensures Sum(a + b, f) == Sum(a, f) + Sum(b, f)
  {
    if |b| == 0 {
      assert a + b == a;
    } else {
      assert (a + b)[..|a + b| - 1] == a + b[..|b| - 1];
      SumAppend(a, b[..|b| - 1], f);
    }
  }

  /** Sums of non-negative terms are non-negative. */
  lemma {:induction false} SumNonNegative<T>(s: seq<T>, f: T -> int)
    requires forall i :: 0 <= i < |s| ==> f(s[i]) >= 0
    ensures Sum(s, f) >= 0
  {
    if |s| > 0 {
      SumNonNegative(s[..|s| - 1], f);
    }
  }

  /** Sums of terms that are each at least one are at least the length. */
  lemma {:induction false} SumAtLeastLength<T>(s: seq<T>, f: T -> int)
    requires forall i :: 0 <= i < |s| ==> f(s[i]) >= 1
    ensures Sum(s, f) >= |s|
  {
    if |s| > 0 {
      SumAtLeastLength(s[..|s| - 1], f);
    }
  }

  /** Two lists whose elements contribute the same terms position by
      position have the same sum. */
  lemma {:induction false} SumPointwise<T, U>(a: seq<T>, f: T -> int, b: seq<U>, g: U -> int)
    requires |a| == |b|
    requires forall i :: 0 <= i < |a| ==> f(a[i]) == g(b[i])
    ensures Sum(a, f) == Sum(b, g)
  {
    if |a| > 0 {
      SumPointwise(a[..|a| - 1], f, b[..|b| - 1], g);
    }
  }

  /** The sum over a list split around one element. */
  lemma SumStep<T>(before: seq<T>, x: T, after: seq<T>, f: T -> int)
    ensures Sum(before + [x] + after, f) == Sum(before, f) + f(x) + Sum(after, f)
  {
    SumAppend(before + [x], after, f);
    SumAppend(before, [x], f);
    assert [x][..0] == [];
  }

  /** A sum is its first term plus the sum of the rest. */
  lemma SumFront<T>(s: seq<T>, f: T -> int)
    requires |s| > 0
    ensures Sum(s, f) == f(s[0]) + Sum(s[1..], f)
  {
    assert s == [s[0]] + s[1..];
    SumAppend([s[0]], s[1..], f);
    assert [s[0]][..0] == [];
  }

  /** The sum over a filter is the first term, when it is kept, plus the
      sum over the filtered rest. */
  lemma SumFilterFront<T>(s: seq<T>, keep: T -> bool, f: T -> int)
    requires |s| > 0
    ensures Sum(Filter(s, keep), f) == (if keep(s[0]) then f(s[0]) else 0) + Sum(Filter(s[1..], keep), f)
  {
    var head := if keep(s[0]) then [s[0]] else [];
    assert Filter(s, keep) == head + Filter(s[1..], keep);
    SumAppend(head, Filter(s[1..], keep), f);
    assert [s[0]][..0] == [];
  }

  /** Replacing one element replaces its term, and only that term, in the
      sum. */
  lemma SumReplaceAt<T>(s: seq<T>, p: int, y: T, f: T -> int)
    requires 0 <= p < |s|
    ensures Sum(s[p := y], f) == Sum(s, f) - f(s[p]) + f(y)
  {
    var before, after := s[..p], s[p + 1..];
    assert Sum(s, f) == Sum(before, f) + f(s[p]) + Sum(after, f) by {
      assert s == before + [s[p]] + after;
      SumStep(before, s[p], after, f);
    }
    assert Sum(s[p := y], f) == Sum(before, f) + f(y) + Sum(after, f) by {
      assert s[p := y] == before + [y] + after;
      SumStep(before, y, after, f);
    }
  }

  /** A sum splits into the sum over the kept elements and the sum over the
      others. */
  lemma {:induction false} SumFilterSplit<T>(s: seq<T>, keep: T -> bool, f: T -> int)
    ensures Sum(s, f) == Sum(Filter(s, keep), f) + Sum(Filter(s, Not(keep)), f)
  {
    if |s| > 0 {
      var head := [s[0]];
      var tail := s[1..];
      SumFilterSplit(tail, keep, f);
      assert s == head + tail;
      SumAppend(head, tail, f);
      assert head[..0] == [];
      var a := if keep(s[0]) then head else [];
      var b := if keep(s[0]) then [] else head;
      assert Filter(s, keep) == a + Filter(tail, keep);
      assert Filter(s, Not(keep)) == b + Filter(tail, Not(keep));
      SumAppend(a, Filter(tail, keep), f);
      SumAppend(b, Filter(tail, Not(keep)), f);
    }
  }

  /** `s.slice(0, end)` with ECMAScript's treatment of the end index: a
      negative end counts back from the length, and both ends are clamped. */
  function SliceTo<T>(s: seq<T>, end: int): (r: seq<T>)
    ensures 0 <= end <= |s| ==> r == s[..end]
    ensures end > |s| ==> r == s
    ensures end < 0 ==> r == s[..if |s| + end < 0 then 0 else |s| + end]
  {
    var stop := if end < 0 then (if |s| + end < 0 then 0 else |s| + end)
                else if end > |s| then |s| else end;
    s[..stop]
  }
}
