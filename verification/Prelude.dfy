/** Small shared vocabulary: optional values, results, and facts about sequences. */
module Prelude {

  datatype Option<+T> = None | Some(value: T)

  datatype Result<+T, +E> = Ok(value: T) | Err(error: E)

  function Min(a: int, b: int): int {
    if a <= b then a else b
  }

  function Max(a: int, b: int): int {
    if a >= b then a else b
  }

  /** All but the last element. */
  function Front<T>(s: seq<T>): seq<T>
    requires |s| > 0
  {
    s[..|s| - 1]
  }

  function Last<T>(s: seq<T>): T
    requires |s| > 0
  {
    s[|s| - 1]
  }

  ghost predicate Distinct<T(!new)>(s: seq<T>) {
    forall i, j :: 0 <= i < j < |s| ==> s[i] != s[j]
  }

  /** The elements satisfying `keep`, in their original order. */
  function Filter<T>(s: seq<T>, keep: T -> bool): seq<T> {
    if |s| == 0 then []
    else if keep(Last(s)) then Filter(Front(s), keep) + [Last(s)]
    else Filter(Front(s), keep)
  }

  /** How many elements satisfy `keep`. */
  function Count<T>(s: seq<T>, keep: T -> bool): nat {
    if |s| == 0 then 0
    else Count(Front(s), keep) + if keep(Last(s)) then 1 else 0
  }

  lemma FilterMembers<T>(s: seq<T>, keep: T -> bool)
    ensures forall x :: x in Filter(s, keep) <==> x in s && keep(x)
  {
    if |s| > 0 {
      FilterMembers(Front(s), keep);
      assert s == Front(s) + [Last(s)];
    }
  }

  lemma {:induction false} CountIsFilterLength<T>(s: seq<T>, keep: T -> bool)
    ensures Count(s, keep) == |Filter(s, keep)|
  {
    if |s| > 0 { CountIsFilterLength(Front(s), keep); }
  }

  /** Two equal elements at different places count at least twice. */
  lemma TwiceCountsTwo<T>(s: seq<T>, i: nat, j: nat)
    requires i < j < |s| && s[i] == s[j]
    ensures multiset(s)[s[i]] >= 2
  {
    var rest := s[..j] + s[j + 1..];
    assert s == s[..j] + [s[j]] + s[j + 1..];
    assert multiset(s) == multiset(rest) + multiset{s[j]};
    assert rest[i] == s[i];
    assert multiset(rest)[s[i]] >= 1;
  }

  /** Sequences with the same multiset have the same length and members. */
  lemma SameMembers<T>(s: seq<T>, t: seq<T>)
    requires multiset(s) == multiset(t)
    ensures |s| == |t|
    ensures forall x :: x in s <==> x in t
  {
    assert |multiset(s)| == |s| && |multiset(t)| == |t|;
    forall x ensures x in s <==> x in t {
      assert x in s <==> x in multiset(s);
      assert x in t <==> x in multiset(t);
    }
  }

  /** Counting depends only on what the predicate says of the members. */
  lemma {:induction false} CountAgrees<T>(s: seq<T>, p: T -> bool, q: T -> bool)
    requires forall i :: 0 <= i < |s| ==> p(s[i]) == q(s[i])
    ensures Count(s, p) == Count(s, q)
  {
    if |s| > 0 {
      assert Last(s) == s[|s| - 1];
      CountAgrees(Front(s), p, q);
    }
  }

  lemma {:induction false} CountNothing<T>(s: seq<T>, keep: T -> bool)
    requires forall k :: 0 <= k < |s| ==> !keep(s[k])
    ensures Count(s, keep) == 0
  {
    if |s| > 0 {
      assert Last(s) == s[|s| - 1];
      CountNothing(Front(s), keep);
    }
  }

  lemma {:induction false} CountAtMostOne<T>(s: seq<T>, keep: T -> bool)
    requires forall i, j :: 0 <= i < j < |s| ==> !(keep(s[i]) && keep(s[j]))
    ensures Count(s, keep) <= 1
  {
    if |s| > 0 {
      assert Last(s) == s[|s| - 1];
      if keep(Last(s)) {
        CountNothing(Front(s), keep);
      } else {
        CountAtMostOne(Front(s), keep);
      }
    }
  }

  /** Two exclusive predicates count together what their union counts. */
  lemma {:induction false} CountSplits<T>(s: seq<T>, p: T -> bool, q: T -> bool, either: T -> bool)
    requires forall i :: 0 <= i < |s| ==> (either(s[i]) <==> p(s[i]) || q(s[i])) && !(p(s[i]) && q(s[i]))
    ensures Count(s, either) == Count(s, p) + Count(s, q)
  {
    if |s| > 0 {
      assert Last(s) == s[|s| - 1];
      CountSplits(Front(s), p, q, either);
    }
  }

  lemma {:induction false} FilterWithout<T>(s: seq<T>, i: nat, keep: T -> bool)
    requires i < |s|
    ensures multiset(Filter(s, keep)) ==
            multiset(Filter(s[..i] + s[i + 1..], keep)) + if keep(s[i]) then multiset{s[i]} else multiset{}
  {
    var rest := s[..i] + s[i + 1..];
    if i == |s| - 1 {
      assert rest == Front(s);
    } else {
      FilterWithout(Front(s), i, keep);
      assert Front(rest) == Front(s)[..i] + Front(s)[i + 1..];
      assert Last(rest) == Last(s);
    }
  }

  lemma WithoutOne<T>(s: seq<T>, i: nat)
    requires i < |s|
    ensures multiset(s) == multiset(s[..i] + s[i + 1..]) + multiset{s[i]}
  {
    assert s == s[..i] + [s[i]] + s[i + 1..];
  }

  lemma CancelOne<T>(m: multiset<T>, n: multiset<T>, x: T)
    requires m + multiset{x} == n + multiset{x}
    ensures m == n
  {
    assert m == (m + multiset{x}) - multiset{x};
    assert n == (n + multiset{x}) - multiset{x};
  }

  /** Removing one occurrence of the last element of `s` from a permutation of `s`. */
  lemma RemoveLast<T>(s: seq<T>, t: seq<T>) returns (i: nat)
    requires multiset(s) == multiset(t) && |s| > 0
    ensures i < |t| && t[i] == Last(s)
    ensures multiset(t[..i] + t[i + 1..]) == multiset(Front(s))
  {
    SameMembers(s, t);
    assert Last(s) in t;
    i :| 0 <= i < |t| && t[i] == Last(s);
    WithoutOne(t, i);
    WithoutOne(s, |s| - 1);
    assert s[..|s| - 1] + s[|s|..] == Front(s);
    CancelOne(multiset(t[..i] + t[i + 1..]), multiset(Front(s)), Last(s));
  }

  /** Filtering commutes with reordering. */
  lemma {:induction false} FilterOfPermutation<T>(s: seq<T>, t: seq<T>, keep: T -> bool)
    requires multiset(s) == multiset(t)
    ensures multiset(Filter(s, keep)) == multiset(Filter(t, keep))
    ensures |Filter(s, keep)| == |Filter(t, keep)|
    ensures |Filter(s, keep)| == 1 ==> Filter(s, keep) == Filter(t, keep)
  {
    SameMembers(s, t);
    if |s| > 0 {
      var i := RemoveLast(s, t);
      FilterOfPermutation(Front(s), t[..i] + t[i + 1..], keep);
      FilterWithout(t, i, keep);
    }
    SameMembers(Filter(s, keep), Filter(t, keep));
    if |Filter(s, keep)| == 1 {
      assert Filter(s, keep)[0] in Filter(t, keep);
    }
  }

  /** Position of the first element satisfying `ok`, or |s|. */
  function First<T>(s: seq<T>, ok: T -> bool): (i: nat)
    ensures i <= |s|
    ensures i < |s| ==> ok(s[i])
    ensures forall j :: 0 <= j < i ==> !ok(s[j])
  {
    if |s| == 0 || ok(s[0]) then 0 else 1 + First(s[1..], ok)
  }
}
