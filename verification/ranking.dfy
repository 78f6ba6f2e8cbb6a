/**
 Ranking scored items the way `list.sort(key=score, reverse=True)` does:
 Python's sort is stable, so items with equal scores keep their input order.
 Each item carries its position in the input, and "stable descending" becomes
 one strict order on (score, position).
 */
module Ranking {

  datatype Ranked<T> = Ranked(score: real, pos: int, item: T)

  /** `a` comes before `b`: a higher score, or the same score and an earlier position. */
  predicate Before<T>(a: Ranked<T>, b: Ranked<T>) {
    a.score > b.score || (a.score == b.score && a.pos < b.pos)
  }

  /** Scores never increase along `s`, and ties are in input order. */
  predicate InRankOrder<T>(s: seq<Ranked<T>>) {
    forall i, j :: 0 <= i < j < |s| ==> Before(s[i], s[j])
  }

  /** The input order: positions strictly increase. */
  predicate InInputOrder<T>(s: seq<Ranked<T>>) {
    forall i, j :: 0 <= i < j < |s| ==> s[i].pos < s[j].pos
  }

  /** Places `x` after every element that scores at least as much. */
  function Insert<T>(s: seq<Ranked<T>>, x: Ranked<T>): (r: seq<Ranked<T>>)
    requires InRankOrder(s)
    requires forall i :: 0 <= i < |s| ==> s[i].pos < x.pos
    ensures InRankOrder(r)
    ensures multiset(r) == multiset(s) + multiset{x}
    decreases |s|
  {
    if |s| == 0 then [x]
    else if s[0].score >= x.score then
      var rest := Insert(s[1..], x);
      InsertHeadFirst(s[0], s[1..], x, rest);
      assert s == [s[0]] + s[1..];
      [s[0]] + rest
    else
      [x] + s
  }

  lemma InsertHeadFirst<T>(h: Ranked<T>, t: seq<Ranked<T>>, x: Ranked<T>, rest: seq<Ranked<T>>)
    requires InRankOrder([h] + t)
    requires h.score >= x.score && h.pos < x.pos
    requires InRankOrder(rest)
    requires multiset(rest) == multiset(t) + multiset{x}
    ensures InRankOrder([h] + rest)
  {
    var s := [h] + t;
    forall e | e in multiset(rest)
      ensures Before(h, e)
    {
      if e != x {
        assert e in multiset(t);
        var j :| 0 <= j < |t| && t[j] == e;
        assert s[0] == h && s[j + 1] == e;
      }
    }
    var r := [h] + rest;
    forall i, j | 0 <= i < j < |r|
      ensures Before(r[i], r[j])
    {
      if i == 0 {
        assert r[j] == rest[j - 1];
        assert r[j] in multiset(rest);
      } else {
        assert r[i] == rest[i - 1] && r[j] == rest[j - 1];
      }
    }
  }

  /** A stable sort of `s` by descending score (insertion sort). */
  function SortDesc<T>(s: seq<Ranked<T>>): (r: seq<Ranked<T>>)
    requires InInputOrder(s)
    ensures InRankOrder(r)
    ensures multiset(r) == multiset(s)
    decreases |s|
  {
    if |s| == 0 then []
    else
      var init := s[..|s| - 1];
      var last := s[|s| - 1];
      var sorted := SortDesc(init);
      EarlierPositions(init, sorted, last);
      assert s == init + [last];
      Insert(sorted, last)
  }

  lemma EarlierPositions<T>(init: seq<Ranked<T>>, sorted: seq<Ranked<T>>, last: Ranked<T>)
    requires InInputOrder(init + [last])
    requires multiset(sorted) == multiset(init)
    ensures forall i :: 0 <= i < |sorted| ==> sorted[i].pos < last.pos
  {
    var s := init + [last];
    forall i | 0 <= i < |sorted|
      ensures sorted[i].pos < last.pos
    {
      assert sorted[i] in multiset(init);
      var j :| 0 <= j < |init| && init[j] == sorted[i];
      assert s[j] == init[j] && s[|init|] == last;
    }
  }

  /**
   A sequence in rank order is determined by its elements: every stable sort
   by descending score, whatever its algorithm, returns the same sequence.
   */
  lemma {:induction false} RankOrderIsUnique<T>(a: seq<Ranked<T>>, b: seq<Ranked<T>>)
    requires InRankOrder(a) && InRankOrder(b)
    requires multiset(a) == multiset(b)
    ensures a == b
    decreases |a|
  {
    if |a| > 0 {
      SameHead(a, b);
      TailInRankOrder(a);
      TailInRankOrder(b);
      assert multiset(a) == multiset{a[0]} + multiset(a[1..]) by {
        assert a == [a[0]] + a[1..];
      }
      assert multiset(b) == multiset{b[0]} + multiset(b[1..]) by {
        assert b == [b[0]] + b[1..];
      }
      assert multiset(a[1..]) == multiset(a) - multiset{a[0]};
      assert multiset(b[1..]) == multiset(b) - multiset{b[0]};
      RankOrderIsUnique(a[1..], b[1..]);
      assert a == [a[0]] + a[1..] && b == [b[0]] + b[1..];
    }
  }

  lemma SameHead<T>(a: seq<Ranked<T>>, b: seq<Ranked<T>>)
    requires InRankOrder(a) && InRankOrder(b)
    requires multiset(a) == multiset(b)
    requires |a| > 0
    ensures |b| > 0 && a[0] == b[0]
  {
    assert a[0] in multiset(b);
    assert b[0] in multiset(a);
    var j :| 0 <= j < |b| && b[j] == a[0];
    var i :| 0 <= i < |a| && a[i] == b[0];
    HeadComesFirst(a, i);
    HeadComesFirst(b, j);
  }

  lemma TailInRankOrder<T>(s: seq<Ranked<T>>)
    requires InRankOrder(s) && |s| > 0
    ensures InRankOrder(s[1..])
  {
    forall i, j | 0 <= i < j < |s| - 1
      ensures Before(s[1..][i], s[1..][j])
    {
      assert s[1..][i] == s[i + 1] && s[1..][j] == s[j + 1];
    }
  }

  lemma HeadComesFirst<T>(s: seq<Ranked<T>>, k: int)
    requires InRankOrder(s)
    requires 0 <= k < |s|
    ensures k == 0 || Before(s[0], s[k])
  {
  }

  /** Elements in rank order are pairwise distinct, so a position appears once. */
  lemma RankOrderDistinctPositions<T>(s: seq<Ranked<T>>, i: int, j: int)
    requires InRankOrder(s)
    requires 0 <= i < |s| && 0 <= j < |s| && i != j
    ensures s[i] != s[j]
  {
    if i < j {
      assert Before(s[i], s[j]);
    } else {
      assert Before(s[j], s[i]);
    }
  }
}
