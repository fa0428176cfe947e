/**
 * Sorting by an integer rank, ties kept in their original order: the contract of
 * JavaScript's Array.prototype.sort with a rank-difference comparator.
 */
module StableSorting {
  import opened Prelude

  /** Put `x` behind every element whose rank is not larger. */
  function Insert<T>(s: seq<T>, x: T, rank: T -> int): seq<T> {
    if |s| == 0 || rank(Last(s)) <= rank(x) then s + [x]
    else Insert(Front(s), x, rank) + [Last(s)]
  }

  function SortBy<T>(s: seq<T>, rank: T -> int): seq<T> {
    if |s| == 0 then [] else Insert(SortBy(Front(s), rank), Last(s), rank)
  }

  ghost predicate Ordered<T>(s: seq<T>, rank: T -> int) {
    forall i, j :: 0 <= i < j < |s| ==> rank(s[i]) <= rank(s[j])
  }

  /** The elements of one rank, in order. */
  function OfRank<T>(s: seq<T>, rank: T -> int, r: int): seq<T> {
    if |s| == 0 then []
    else if rank(Last(s)) == r then OfRank(Front(s), rank, r) + [Last(s)]
    else OfRank(Front(s), rank, r)
  }

  lemma {:induction false} InsertAdds<T>(s: seq<T>, x: T, rank: T -> int)
    ensures multiset(Insert(s, x, rank)) == multiset(s) + multiset{x}
    ensures |Insert(s, x, rank)| == |s| + 1
  {
    if |s| == 0 || rank(Last(s)) <= rank(x) {
    } else {
      InsertAdds(Front(s), x, rank);
      assert s == Front(s) + [Last(s)];
    }
  }

  lemma {:induction false} InsertKeepsOrder<T>(s: seq<T>, x: T, rank: T -> int)
    requires Ordered(s, rank)
    ensures Ordered(Insert(s, x, rank), rank)
    ensures |Insert(s, x, rank)| > 0
    ensures rank(Last(Insert(s, x, rank))) == if |s| == 0 then rank(x) else Max(rank(x), rank(Last(s)))
  {
    if |s| == 0 || rank(Last(s)) <= rank(x) {
      forall i | 0 <= i < |s| ensures rank(s[i]) <= rank(x) {
        assert rank(s[i]) <= rank(Last(s));
      }
    } else {
      InsertKeepsOrder(Front(s), x, rank);
      var front := Insert(Front(s), x, rank);
      assert rank(Last(front)) <= rank(Last(s)) by {
        if |s| > 1 { assert rank(s[|s| - 2]) <= rank(s[|s| - 1]); }
      }
      forall i | 0 <= i < |front| ensures rank(front[i]) <= rank(Last(s)) {
        assert rank(front[i]) <= rank(Last(front));
      }
    }
  }

  lemma {:induction false} InsertIsStable<T>(s: seq<T>, x: T, rank: T -> int, r: int)
    requires Ordered(s, rank)
    ensures OfRank(Insert(s, x, rank), rank, r) == OfRank(s, rank, r) + if rank(x) == r then [x] else []
  {
    if |s| == 0 || rank(Last(s)) <= rank(x) {
      assert Front(s + [x]) == s;
    } else {
      InsertIsStable(Front(s), x, rank, r);
      assert Front(Insert(s, x, rank)) == Insert(Front(s), x, rank);
      if rank(Last(s)) == r {
        assert rank(x) != r;
      }
    }
  }

  lemma {:induction false} SortPermutes<T>(s: seq<T>, rank: T -> int)
    ensures multiset(SortBy(s, rank)) == multiset(s)
  {
    if |s| > 0 {
      SortPermutes(Front(s), rank);
      InsertAdds(SortBy(Front(s), rank), Last(s), rank);
      assert s == Front(s) + [Last(s)];
    }
  }

  lemma {:induction false} SortOrders<T>(s: seq<T>, rank: T -> int)
    ensures Ordered(SortBy(s, rank), rank)
  {
    if |s| > 0 {
      SortOrders(Front(s), rank);
      InsertKeepsOrder(SortBy(Front(s), rank), Last(s), rank);
    }
  }

  lemma SortIsOrderedPermutation<T>(s: seq<T>, rank: T -> int)
    ensures Ordered(SortBy(s, rank), rank)
    ensures multiset(SortBy(s, rank)) == multiset(s)
    ensures |SortBy(s, rank)| == |s|
    ensures forall x :: x in SortBy(s, rank) <==> x in s
  {
    SortOrders(s, rank);
    SortPermutes(s, rank);
    SameMembers(SortBy(s, rank), s);
  }

  lemma {:induction false} SortIsStable<T>(s: seq<T>, rank: T -> int, r: int)
    ensures OfRank(SortBy(s, rank), rank, r) == OfRank(s, rank, r)
  {
    if |s| > 0 {
      SortIsStable(Front(s), rank, r);
      SortOrders(Front(s), rank);
      InsertIsStable(SortBy(Front(s), rank), Last(s), rank, r);
    }
  }

  /** Order and stability leave one sequence only, so any stable sort gives this one. */
  lemma {:induction false} StableSortIsUnique<T>(s: seq<T>, t: seq<T>, rank: T -> int)
    requires Ordered(s, rank) && Ordered(t, rank)
    requires forall r :: OfRank(s, rank, r) == OfRank(t, rank, r)
    ensures s == t
  {
    if |s| == 0 {
      if |t| > 0 {
        var r := rank(Last(t));
        assert |OfRank(s, rank, r)| == 0;
        assert false;
      }
    } else if |t| == 0 {
      var r := rank(Last(s));
      assert |OfRank(t, rank, r)| == 0;
      assert false;
    } else {
      var r := if rank(Last(s)) >= rank(Last(t)) then rank(Last(s)) else rank(Last(t));
      RankBound(s, rank, r);
      RankBound(t, rank, r);
      assert rank(Last(s)) == rank(Last(t)) == r;
      assert Last(OfRank(s, rank, r)) == Last(OfRank(t, rank, r));
      forall q ensures OfRank(Front(s), rank, q) == OfRank(Front(t), rank, q) {
        if q == r {
          assert OfRank(s, rank, q) == OfRank(Front(s), rank, q) + [Last(s)];
          assert OfRank(t, rank, q) == OfRank(Front(t), rank, q) + [Last(t)];
          assert OfRank(Front(s), rank, q) == Front(OfRank(s, rank, q));
          assert OfRank(Front(t), rank, q) == Front(OfRank(t, rank, q));
        } else {
          assert OfRank(s, rank, q) == OfRank(t, rank, q);
        }
      }
      StableSortIsUnique(Front(s), Front(t), rank);
      assert s == Front(s) + [Last(s)] && t == Front(t) + [Last(t)];
    }
  }

  /** A rank that occurs in an ordered sequence is at most the last one. */
  lemma {:induction false} RankBound<T>(s: seq<T>, rank: T -> int, r: int)
    requires Ordered(s, rank) && |s| > 0
    ensures |OfRank(s, rank, r)| > 0 ==> r <= rank(Last(s))
  {
    if |s| == 1 {
      assert OfRank(Front(s), rank, r) == [];
    } else if rank(Last(s)) != r {
      RankBound(Front(s), rank, r);
      assert rank(s[|s| - 2]) <= rank(s[|s| - 1]);
    }
  }

  /** By rank, then by position. */
  ghost predicate LexOrdered<T>(s: seq<T>, rank: T -> int, pos: T -> int) {
    forall i, j :: 0 <= i < j < |s| ==>
      rank(s[i]) < rank(s[j]) || (rank(s[i]) == rank(s[j]) && pos(s[i]) < pos(s[j]))
  }

  lemma {:induction false} InsertIsLexOrdered<T>(s: seq<T>, x: T, rank: T -> int, pos: T -> int)
    requires LexOrdered(s, rank, pos)
    requires forall i :: 0 <= i < |s| ==> pos(s[i]) < pos(x)
    ensures LexOrdered(Insert(s, x, rank), rank, pos)
    ensures forall y :: y in Insert(s, x, rank) ==> y == x || y in s
  {
    if |s| > 0 {
      if rank(Last(s)) <= rank(x) {
        forall i | 0 <= i < |s| ensures rank(s[i]) <= rank(x) {
          assert i < |s| - 1 ==> rank(s[i]) <= rank(s[|s| - 1]);
        }
      } else {
        InsertIsLexOrdered(Front(s), x, rank, pos);
        var front := Insert(Front(s), x, rank);
        forall i | 0 <= i < |front|
          ensures rank(front[i]) < rank(Last(s)) || (rank(front[i]) == rank(Last(s)) && pos(front[i]) < pos(Last(s)))
        {
          assert front[i] in front;
          if front[i] != x {
            var k :| 0 <= k < |Front(s)| && Front(s)[k] == front[i];
            assert s[k] == front[i];
          }
        }
      }
    }
  }

  /** A stable sort orders by rank first and by original position second. */
  lemma {:induction false} SortIsLexOrdered<T>(s: seq<T>, rank: T -> int, pos: T -> int)
    requires forall i, j :: 0 <= i < j < |s| ==> pos(s[i]) < pos(s[j])
    ensures LexOrdered(SortBy(s, rank), rank, pos)
    ensures forall y :: y in SortBy(s, rank) ==> y in s
  {
    if |s| > 0 {
      SortIsLexOrdered(Front(s), rank, pos);
      var sorted := SortBy(Front(s), rank);
      forall i | 0 <= i < |sorted| ensures pos(sorted[i]) < pos(Last(s)) {
        assert sorted[i] in Front(s);
        var k :| 0 <= k < |Front(s)| && Front(s)[k] == sorted[i];
        assert s[k] == sorted[i];
      }
      InsertIsLexOrdered(sorted, Last(s), rank, pos);
      assert s == Front(s) + [Last(s)];
    }
  }
}
