/** Lists of records identified by a key, the shape shared by the cart, the
    favourites and the photo lists: membership by id, removal by id,
    add-if-absent, toggle and per-id update. Each operation is generic in the
    record type and in the function that reads its key. */
module Keyed {
  import opened Lists

  /** Some element of `s` has key `k` (`s.some(x => key(x) === k)`). */
  predicate Has<T, K(==,!new)>(s: seq<T>, key: T -> K, k: K)
  {
    exists i :: 0 <= i < |s| && key(s[i]) == k
  }

  /** No two elements of `s` share a key. */
  ghost predicate Unique<T, K(!new)>(s: seq<T>, key: T -> K)
  {
    forall i, j :: 0 <= i < j < |s| ==> key(s[i]) != key(s[j])
  }

  /** Recognises the elements with key `k`. */
  function KeyIs<T, K(==)>(key: T -> K, k: K): T -> bool
  {
    x => key(x) == k
  }

  /** `s.filter(x => key(x) !== k)`: every element with key `k` removed. */
  function Without<T, K(==,!new)>(s: seq<T>, key: T -> K, k: K): (r: seq<T>)
    ensures !Has(r, key, k)
    ensures forall i :: 0 <= i < |s| && key(s[i]) != k ==> s[i] in r
    ensures forall i :: 0 <= i < |r| ==> r[i] in s
    ensures Has(s, key, k) ==> |r| < |s|
    ensures !Has(s, key, k) ==> r == s
  {
    var r := Filter(s, Not(KeyIs(key, k)));
    FilterMembers(s, Not(KeyIs(key, k)));
    if Has(s, key, k) then
      var i :| 0 <= i < |s| && key(s[i]) == k;
      FilterDrops(s, Not(KeyIs(key, k)), i);
      r
    else
      FilterKeepsAll(s, Not(KeyIs(key, k)));
      r
  }

  /** Removing a key from a list whose keys are unique leaves them unique. */
  lemma {:induction false} WithoutKeepsUnique<T, K(!new)>(s: seq<T>, key: T -> K, k: K)
    requires Unique(s, key)
    ensures Unique(Without(s, key, k), key)
  {
    FilterKeepsUnique(s, key, Not(KeyIs(key, k)));
  }

  lemma {:induction false} FilterKeepsUnique<T, K(!new)>(s: seq<T>, key: T -> K, keep: T -> bool)
    requires Unique(s, key)
    ensures Unique(Filter(s, keep), key)
  {
    if |s| > 0 {
      var rest := Filter(s[1..], keep);
      FilterKeepsUnique(s[1..], key, keep);
      FilterMembers(s[1..], keep);
      assert Filter(s, keep) == (if keep(s[0]) then [s[0]] else []) + rest;
      forall j | 0 <= j < |rest|
        ensures key(s[0]) != key(rest[j])
      {
        var m :| 0 <= m < |s[1..]| && s[1..][m] == rest[j];
        assert s[1 + m] == rest[j];
      }
    }
  }

  /** Removal is order preserving: removing a key from a concatenation
      removes it from each block in place. */
  lemma WithoutAppend<T, K(!new)>(a: seq<T>, b: seq<T>, key: T -> K, k: K)
    ensures Without(a + b, key, k) == Without(a, key, k) + Without(b, key, k)
  {
    FilterAppend(a, b, Not(KeyIs(key, k)));
  }

  /** With unique keys, removing the key of the element at `p` removes
      exactly that element. */
  lemma WithoutUniqueAt<T, K(!new)>(s: seq<T>, key: T -> K, p: int)
    requires Unique(s, key)
    requires 0 <= p < |s|
    ensures Without(s, key, key(s[p])) == s[..p] + s[p + 1..]
  {
    forall i | 0 <= i < |s| && i != p
      ensures key(s[i]) != key(s[p])
    {
      if i < p {
        assert key(s[i]) != key(s[p]);
      } else {
        assert key(s[p]) != key(s[i]);
      }
    }
    WithoutOnlyAt(s, key, p);
  }

  /** When no other element shares the key of the element at `p`,
      removing that key removes exactly that element. */
  lemma WithoutOnlyAt<T, K(!new)>(s: seq<T>, key: T -> K, p: int)
    requires 0 <= p < |s|
    requires forall i :: 0 <= i < |s| && i != p ==> key(s[i]) != key(s[p])
    ensures Without(s, key, key(s[p])) == s[..p] + s[p + 1..]
  {
    var keep := Not(KeyIs(key, key(s[p])));
    var before, after := s[..p], s[p + 1..];
    forall i | 0 <= i < |before|
      ensures keep(before[i])
    {
      assert before[i] == s[i];
    }
    forall i | 0 <= i < |after|
      ensures keep(after[i])
    {
      assert after[i] == s[p + 1 + i];
    }
    assert s == before + [s[p]] + after;
    FilterDropsOnly(before, s[p], after, keep);
  }

  /** Appends `x` unless an element with its key is already present. */
  function AddIfAbsent<T, K(==,!new)>(s: seq<T>, key: T -> K, x: T): (r: seq<T>)
    ensures Has(r, key, key(x))
    ensures Has(s, key, key(x)) ==> r == s
    ensures !Has(s, key, key(x)) ==> r == s + [x]
  {
    if Has(s, key, key(x)) then s
    else
      assert (s + [x])[|s|] == x;
      s + [x]
  }

  /** Adding a key that is absent, or not adding one that is present, keeps
      the keys unique. */
  lemma AddIfAbsentKeepsUnique<T, K(!new)>(s: seq<T>, key: T -> K, x: T)
    requires Unique(s, key)
    ensures Unique(AddIfAbsent(s, key, x), key)
  {
    if !Has(s, key, key(x)) {
      var r := s + [x];
      forall i, j | 0 <= i < j < |r|
        ensures key(r[i]) != key(r[j])
      {
        if j == |s| {
          assert r[i] == s[i];
        }
      }
    }
  }

  /** Removes the key if present, otherwise appends `x`. */
  function Toggle<T, K(==,!new)>(s: seq<T>, key: T -> K, x: T): (r: seq<T>)
    ensures Has(r, key, key(x)) <==> !Has(s, key, key(x))
    ensures forall k :: k != key(x) ==> (Has(r, key, k) <==> Has(s, key, k))
  {
    if Has(s, key, key(x)) then
      var r := Without(s, key, key(x));
      assert forall k :: k != key(x) && Has(s, key, k) ==> Has(r, key, k) by {
        forall k | k != key(x) && Has(s, key, k)
          ensures Has(r, key, k)
        {
          var i :| 0 <= i < |s| && key(s[i]) == k;
          var j :| 0 <= j < |r| && r[j] == s[i];
        }
      }
      assert forall k :: Has(r, key, k) ==> Has(s, key, k) by {
        forall k | Has(r, key, k)
          ensures Has(s, key, k)
        {
          var i :| 0 <= i < |r| && key(r[i]) == k;
          var j :| 0 <= j < |s| && s[j] == r[i];
        }
      }
      r
    else
      var r := s + [x];
      assert r[|s|] == x;
      assert forall k :: Has(r, key, k) && k != key(x) ==> Has(s, key, k) by {
        forall k | Has(r, key, k) && k != key(x)
          ensures Has(s, key, k)
        {
          var i :| 0 <= i < |r| && key(r[i]) == k;
          assert i < |s| && r[i] == s[i];
        }
      }
      assert forall k :: Has(s, key, k) ==> Has(r, key, k) by {
        forall k | Has(s, key, k)
          ensures Has(r, key, k)
        {
          var i :| 0 <= i < |s| && key(s[i]) == k;
          assert r[i] == s[i];
        }
      }
      r
  }

  /** Toggling an absent element twice restores the original list exactly. */
  lemma {:induction false} ToggleTwiceRestores<T, K(!new)>(s: seq<T>, key: T -> K, x: T)
    requires !Has(s, key, key(x))
    ensures Toggle(Toggle(s, key, x), key, x) == s
  {
    var once := s + [x];
    assert Toggle(s, key, x) == once;
    assert once[|s|] == x;
    WithoutAppend(s, [x], key, key(x));
    assert Without([x], key, key(x)) == [] by {
      assert Has([x], key, key(x)) by { assert [x][0] == x; }
    }
  }

  /** Toggling keeps the keys unique. */
  lemma ToggleKeepsUnique<T, K(!new)>(s: seq<T>, key: T -> K, x: T)
    requires Unique(s, key)
    ensures Unique(Toggle(s, key, x), key)
  {
    if Has(s, key, key(x)) {
      WithoutKeepsUnique(s, key, key(x));
    } else {
      AddIfAbsentKeepsUnique(s, key, x);
    }
  }

  /** `s.map(x => key(x) === k ? change(x) : x)`: every element with key `k`
      replaced by `change` of it, every other element left as it was. */
  function Update<T, K(==,!new)>(s: seq<T>, key: T -> K, k: K, change: T -> T): (r: seq<T>)
    ensures |r| == |s|
    ensures forall i :: 0 <= i < |s| && key(s[i]) == k ==> r[i] == change(s[i])
    ensures forall i :: 0 <= i < |s| && key(s[i]) != k ==> r[i] == s[i]
  {
    seq(|s|, i requires 0 <= i < |s| => if key(s[i]) == k then change(s[i]) else s[i])
  }

  /** An update whose change keeps keys passes the elements with other
      keys through unchanged and in order. */
  lemma {:induction false} FilterUpdateOthers<T, K(!new)>(s: seq<T>, key: T -> K, k: K, change: T -> T)
    requires forall x :: key(change(x)) == key(x)
    ensures Filter(Update(s, key, k, change), Not(KeyIs(key, k))) == Filter(s, Not(KeyIs(key, k)))
  {
    if |s| > 0 {
      var keep := Not(KeyIs(key, k));
      var u := Update(s, key, k, change);
      assert u == [u[0]] + u[1..];
      assert s == [s[0]] + s[1..];
      assert u[1..] == Update(s[1..], key, k, change);
      FilterUpdateOthers(s[1..], key, k, change);
      FilterCons(u[0], u[1..], keep);
      FilterCons(s[0], s[1..], keep);
      assert key(u[0]) == key(s[0]);
      NotKeyIs(key, k, u[0]);
      NotKeyIs(key, k, s[0]);
    }
  }

  /** What `Not(KeyIs(key, k))` accepts. */
  lemma NotKeyIs<T, K>(key: T -> K, k: K, x: T)
    ensures Not(KeyIs(key, k))(x) <==> key(x) != k
  {
  }

  /** An update whose change keeps keys leaves the set of keys, and their
      uniqueness, as it was. */
  lemma UpdateKeepsKeys<T, K(!new)>(s: seq<T>, key: T -> K, k: K, change: T -> T)
    requires forall i :: 0 <= i < |s| ==> key(change(s[i])) == key(s[i])
    ensures forall i :: 0 <= i < |s| ==> key(Update(s, key, k, change)[i]) == key(s[i])
    ensures Unique(s, key) ==> Unique(Update(s, key, k, change), key)
    ensures forall k' :: Has(Update(s, key, k, change), key, k') <==> Has(s, key, k')
  {
    var r := Update(s, key, k, change);
    assert forall k' :: Has(r, key, k') ==> Has(s, key, k') by {
      forall k' | Has(r, key, k')
        ensures Has(s, key, k')
      {
        var i :| 0 <= i < |r| && key(r[i]) == k';
        assert key(s[i]) == k';
      }
    }
    assert forall k' :: Has(s, key, k') ==> Has(r, key, k') by {
      forall k' | Has(s, key, k')
        ensures Has(r, key, k')
      {
        var i :| 0 <= i < |s| && key(s[i]) == k';
        assert key(r[i]) == k';
      }
    }
  }

  /** With unique keys, removing key `k` takes exactly the term of the one
      element holding it out of any sum. */
  lemma SumWithoutUnique<T, K(!new)>(s: seq<T>, key: T -> K, p: int, f: T -> int)
    requires Unique(s, key)
    requires 0 <= p < |s|
    ensures Sum(Without(s, key, key(s[p])), f) == Sum(s, f) - f(s[p])
  {
    var k := key(s[p]);
    SumFilterSplit(s, KeyIs(key, k), f);
    forall i | 0 <= i < |s| && i != p
      ensures !KeyIs(key, k)(s[i])
    {
      assert key(s[i]) != key(s[p]);
    }
    FilterSingle(s, KeyIs(key, k), p);
    assert [s[p]][..0] == [];
  }

  /** With unique keys, updating key `k` replaces the term of the one
      element holding it, and only that term, in any sum. */
  lemma SumUpdateUnique<T, K(!new)>(s: seq<T>, key: T -> K, p: int, change: T -> T, f: T -> int)
    requires Unique(s, key)
    requires 0 <= p < |s|
    ensures Sum(Update(s, key, key(s[p]), change), f) == Sum(s, f) - f(s[p]) + f(change(s[p]))
  {
    var r := Update(s, key, key(s[p]), change);
    assert r == s[p := change(s[p])] by {
      forall i | 0 <= i < |s| && i != p
        ensures r[i] == s[i]
      {
        assert key(s[i]) != key(s[p]);
      }
    }
    SumReplaceAt(s, p, change(s[p]), f);
  }
}
