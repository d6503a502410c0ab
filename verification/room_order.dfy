/** The order of the room list after a send: `rooms.sort((a, b) =>
    b.updated_at - a.updated_at)`, newest first. ECMAScript's
    `Array.prototype.sort` is stable, so rooms with equal timestamps keep
    their relative order; the model is a stable insertion sort. */
module RoomOrder {
  import opened Lists
  import opened ChatApi

  /** Rooms ordered by `updatedAt`, most recent first. */
  ghost predicate NewestFirst(rs: seq<Room>)
  {
    forall i, j :: 0 <= i < j < |rs| ==> rs[i].updatedAt >= rs[j].updatedAt
  }

  /** Recognises the rooms last updated at time `t`. */
  function StampIs(t: int): Room -> bool
  {
    (x: Room) => x.updatedAt == t
  }

  /** The rooms last updated at time `t`, in list order. */
  function Stamped(rs: seq<Room>, t: int): seq<Room>
  {
    Filter(rs, StampIs(t))
  }

  /** A room at least as recent as the head of a newest-first list can go
      in front of it. */
  lemma ConsNewestFirst(x: Room, s: seq<Room>)
    requires NewestFirst(s)
    requires |s| == 0 || s[0].updatedAt <= x.updatedAt
    ensures NewestFirst([x] + s)
  {
    forall i, j | 0 <= i < j < |[x] + s|
      ensures ([x] + s)[i].updatedAt >= ([x] + s)[j].updatedAt
    {
      if i == 0 {
        assert ([x] + s)[j] == s[j - 1];
      }
    }
  }

  /** Places `r` into a newest-first list after every room at least as
      recent as it. The head of the result is as recent as the newer of
      `r` and the old head. */
  function Insert(sorted: seq<Room>, r: Room): (res: seq<Room>)
    requires NewestFirst(sorted)
    ensures |res| == |sorted| + 1
    ensures NewestFirst(res)
    ensures multiset(res) == multiset(sorted) + multiset{r}
    ensures res[0].updatedAt == if |sorted| > 0 && sorted[0].updatedAt >= r.updatedAt then sorted[0].updatedAt else r.updatedAt
  {
    if |sorted| == 0 then [r]
    else if sorted[0].updatedAt < r.updatedAt then
      ConsNewestFirst(r, sorted);
      [r] + sorted
    else
      var rest := Insert(sorted[1..], r);
      assert sorted == [sorted[0]] + sorted[1..];
      ConsNewestFirst(sorted[0], rest);
      [sorted[0]] + rest
  }

  /** How insertion unfolds when `r` is no newer than the head: the head
      stays in front of the insertion into the rest. */
  lemma InsertBehindHead(sorted: seq<Room>, r: Room)
    requires NewestFirst(sorted)
    requires |sorted| > 0 && sorted[0].updatedAt >= r.updatedAt
    ensures NewestFirst(sorted[1..])
    ensures Insert(sorted, r) == [sorted[0]] + Insert(sorted[1..], r)
  {
  }

  /** `r` alone when it was last updated at time `t`, otherwise nothing. */
  function Mine(r: Room, t: int): seq<Room>
  {
    if r.updatedAt == t then [r] else []
  }

  /** Stamping a list with a room in front. */
  lemma StampedFront(x: Room, s: seq<Room>, t: int)
    ensures Stamped([x] + s, t) == Mine(x, t) + Stamped(s, t)
  {
    FilterCons(x, s, StampIs(t));
  }

  /** Stamping a list with a room at the back. */
  lemma StampedBack(s: seq<Room>, x: Room, t: int)
    ensures Stamped(s + [x], t) == Stamped(s, t) + Mine(x, t)
  {
    FilterAppend(s, [x], StampIs(t));
    StampedFront(x, [], t);
    assert [x] + [] == [x];
  }

  /** Putting the same room in front of a list and of its insertion keeps
      the relation between their stamped rooms. */
  lemma StampedStep(x: Room, tail: seq<Room>, ins: seq<Room>, r: Room, t: int)
    requires Stamped(ins, t) == Stamped(tail, t) + Mine(r, t)
    ensures Stamped([x] + ins, t) == Stamped([x] + tail, t) + Mine(r, t)
  {
    StampedFront(x, ins, t);
    StampedFront(x, tail, t);
  }

  /** No room of a newest-first list is stamped later than its head. */
  lemma NoneStampedAbove(sorted: seq<Room>, t: int)
    requires NewestFirst(sorted)
    requires |sorted| > 0 && sorted[0].updatedAt < t
    ensures Stamped(sorted, t) == []
  {
    forall i | 0 <= i < |sorted|
      ensures !StampIs(t)(sorted[i])
    {
      assert sorted[i].updatedAt <= sorted[0].updatedAt;
    }
    FilterKeepsNone(sorted, StampIs(t));
  }

  /** Insertion appends `r` to the rooms sharing its timestamp and leaves
      the other timestamp classes as they were. */
  lemma {:induction false} InsertIsStable(sorted: seq<Room>, r: Room, t: int)
    requires NewestFirst(sorted)
    ensures Stamped(Insert(sorted, r), t) == Stamped(sorted, t) + Mine(r, t)
  {
    if |sorted| == 0 {
      assert Insert(sorted, r) == [r] + sorted;
      StampedFront(r, sorted, t);
    } else if sorted[0].updatedAt < r.updatedAt {
      assert Insert(sorted, r) == [r] + sorted;
      StampedFront(r, sorted, t);
      if r.updatedAt == t {
        NoneStampedAbove(sorted, t);
      }
    } else {
      var tail := sorted[1..];
      assert sorted == [sorted[0]] + tail;
      InsertBehindHead(sorted, r);
      InsertIsStable(tail, r, t);
      StampedStep(sorted[0], tail, Insert(tail, r), r, t);
    }
  }

  /** Adding `r` by insertion adds its term to any sum over the rooms. */
  lemma {:induction false} InsertSum(sorted: seq<Room>, r: Room, f: Room -> int)
    requires NewestFirst(sorted)
    ensures Sum(Insert(sorted, r), f) == Sum(sorted, f) + f(r)
  {
    if |sorted| == 0 {
      assert Insert(sorted, r) == [r];
      assert [r][..0] == [];
    } else if sorted[0].updatedAt < r.updatedAt {
      SumAppend([r], sorted, f);
      assert [r][..0] == [];
    } else {
      InsertSum(sorted[1..], r, f);
      SumAppend([sorted[0]], Insert(sorted[1..], r), f);
      SumAppend([sorted[0]], sorted[1..], f);
      assert sorted == [sorted[0]] + sorted[1..];
    }
  }

  /** The room list sorted newest first: a permutation of `rs` that is
      ordered by `updatedAt` and keeps rooms with equal timestamps in their
      original relative order, which determines it uniquely. */
  function SortNewestFirst(rs: seq<Room>): (res: seq<Room>)
    ensures |res| == |rs|
    ensures NewestFirst(res)
    ensures multiset(res) == multiset(rs)
    ensures forall t :: Stamped(res, t) == Stamped(rs, t)
  {
    if |rs| == 0 then []
    else
      var init := rs[..|rs| - 1];
      var last := rs[|rs| - 1];
      var sortedInit := SortNewestFirst(init);
      assert rs == init + [last];
      var res := Insert(sortedInit, last);
      assert forall t :: Stamped(res, t) == Stamped(rs, t) by {
        forall t
          ensures Stamped(res, t) == Stamped(rs, t)
        {
          InsertIsStable(sortedInit, last, t);
          StampedBack(init, last, t);
        }
      }
      res
  }

  /** Sorting does not change any sum over the rooms. */
  lemma {:induction false} SortKeepsSum(rs: seq<Room>, f: Room -> int)
    ensures Sum(SortNewestFirst(rs), f) == Sum(rs, f)
  {
    if |rs| > 0 {
      var init := rs[..|rs| - 1];
      SortKeepsSum(init, f);
      InsertSum(SortNewestFirst(init), rs[|rs| - 1], f);
    }
  }
}
