/**
 * Ordered candidate lists, the way the readers keep them: a Python dict
 * from label to score iterates in insertion order, `sorted(..., reverse=True)`
 * is a stable descending sort, and `max(d, key=d.get)` returns the first
 * maximal key. A list of `Scored` pairs stands for such a dict.
 */
module Ranking {

  datatype Scored<K> = Scored(key: K, score: real)

  function Keys<K>(xs: seq<Scored<K>>): (ks: seq<K>)
    ensures |ks| == |xs| && forall i :: 0 <= i < |xs| ==> ks[i] == xs[i].key
  {
    if |xs| == 0 then [] else [xs[0].key] + Keys(xs[1..])
  }

  function ScoresOf<K>(xs: seq<Scored<K>>): (vs: seq<real>)
    ensures |vs| == |xs| && forall i :: 0 <= i < |xs| ==> vs[i] == xs[i].score
  {
    if |xs| == 0 then [] else [xs[0].score] + ScoresOf(xs[1..])
  }

  /** The largest score of a non-empty list (reference definition). */
  function MaxScore<K>(xs: seq<Scored<K>>): (m: real)
    requires |xs| > 0
    ensures forall i :: 0 <= i < |xs| ==> xs[i].score <= m
  {
    if |xs| == 1 then xs[0].score
    else
      var t := MaxScore(xs[1..]);
      assert forall i :: 1 <= i < |xs| ==> xs[i] == xs[1..][i - 1];
      if xs[0].score >= t then xs[0].score else t
  }

  /** The smallest score of a non-empty list (reference definition). */
  function MinScore<K>(xs: seq<Scored<K>>): (m: real)
    requires |xs| > 0
    ensures forall i :: 0 <= i < |xs| ==> m <= xs[i].score
  {
    if |xs| == 1 then xs[0].score
    else
      var t := MinScore(xs[1..]);
      assert forall i :: 1 <= i < |xs| ==> xs[i] == xs[1..][i - 1];
      if xs[0].score <= t then xs[0].score else t
  }

  /** Python `max(d, key=d.get)`: the position of the first maximal score. */
  function ArgMaxFirst<K>(xs: seq<Scored<K>>): (i: nat)
    requires |xs| > 0
    ensures i < |xs| && xs[i].score == MaxScore(xs)
    ensures forall j :: 0 <= j < i ==> xs[j].score < xs[i].score
  {
    if |xs| == 1 then 0
    else
      var j := ArgMaxFirst(xs[1..]);
      if xs[0].score >= xs[1 + j].score then 0 else 1 + j
  }

  /** A position holding the smallest score: the minimum is attained. */
  function ArgMin<K>(xs: seq<Scored<K>>): (i: nat)
    requires |xs| > 0
    ensures i < |xs| && xs[i].score == MinScore(xs)
  {
    if |xs| == 1 then 0
    else
      var j := ArgMin(xs[1..]);
      if xs[0].score <= xs[1 + j].score then 0 else 1 + j
  }

  function RemoveAt<T>(xs: seq<T>, i: nat): (r: seq<T>)
    requires i < |xs|
    ensures |r| == |xs| - 1
    ensures forall j :: 0 <= j < i ==> r[j] == xs[j]
    ensures forall j :: i <= j < |r| ==> r[j] == xs[j + 1]
  {
    xs[..i] + xs[i + 1..]
  }

  /** The best score once the first maximum is set aside: the runner-up. */
  function SecondScore<K>(xs: seq<Scored<K>>): (m: real)
    requires |xs| >= 2
    ensures m <= MaxScore(xs)
  {
    RunnerUpBelowMax(xs);
    MaxScore(RemoveAt(xs, ArgMaxFirst(xs)))
  }

  lemma {:induction false} RunnerUpBelowMax<K>(xs: seq<Scored<K>>)
    requires |xs| >= 2
    ensures MaxScore(RemoveAt(xs, ArgMaxFirst(xs))) <= MaxScore(xs)
  {
    var am := ArgMaxFirst(xs);
    var rest := RemoveAt(xs, am);
    var k := ArgMaxFirst(rest);
    if k < am {
      assert rest[k] == xs[k];
    } else {
      assert rest[k] == xs[k + 1];
    }
  }

  predicate SortedDesc<K>(xs: seq<Scored<K>>)
  {
    forall i, j :: 0 <= i < j < |xs| ==> xs[i].score >= xs[j].score
  }

  /** Inserts x ahead of the first element whose score does not exceed x's. */
  function InsertDesc<K(==)>(x: Scored<K>, xs: seq<Scored<K>>): (r: seq<Scored<K>>)
    requires SortedDesc(xs)
    ensures SortedDesc(r)
    ensures multiset(r) == multiset(xs) + multiset{x}
    ensures |r| == |xs| + 1
    ensures forall i :: 0 <= i < |r| ==> r[i] == x || r[i] in xs
  {
    if |xs| == 0 || x.score >= xs[0].score then [x] + xs
    else
      var t := InsertDesc(x, xs[1..]);
      InsertDescTail(x, xs, t);
      [xs[0]] + t
  }

  lemma {:induction false} InsertDescTail<K>(x: Scored<K>, xs: seq<Scored<K>>, t: seq<Scored<K>>)
    requires SortedDesc(xs) && |xs| > 0 && x.score < xs[0].score
    requires SortedDesc(t) && multiset(t) == multiset(xs[1..]) + multiset{x}
    requires forall i :: 0 <= i < |t| ==> t[i] == x || t[i] in xs[1..]
    ensures SortedDesc([xs[0]] + t)
    ensures multiset([xs[0]] + t) == multiset(xs) + multiset{x}
    ensures forall i :: 0 <= i < |t| + 1 ==> ([xs[0]] + t)[i] == x || ([xs[0]] + t)[i] in xs
  {
    assert xs == [xs[0]] + xs[1..];
    forall i | 0 <= i < |t|
      ensures xs[0].score >= t[i].score
    {
      if t[i] != x {
        var k :| 0 <= k < |xs[1..]| && xs[1..][k] == t[i];
        assert xs[k + 1] == t[i];
      }
    }
  }

  /** Python `sorted(items, key=score, reverse=True)`: descending and stable. */
  function SortDesc<K(==)>(xs: seq<Scored<K>>): (r: seq<Scored<K>>)
    ensures SortedDesc(r)
    ensures multiset(r) == multiset(xs)
    ensures |r| == |xs|
  {
    if |xs| == 0 then []
    else
      assert xs == [xs[0]] + xs[1..];
      InsertDesc(xs[0], SortDesc(xs[1..]))
  }

  /** Stability at the top: the head of the sorted list is the first maximum of the input. */
  lemma {:induction false} SortDescHead<K>(xs: seq<Scored<K>>)
    requires |xs| > 0
    ensures SortDesc(xs)[0] == xs[ArgMaxFirst(xs)]
  {
    if |xs| > 1 {
      var t := xs[1..];
      var s := SortDesc(t);
      SortDescHead(t);
      SortedHeadIsMax(s, t);
      assert s[0].score == MaxScore(t);
    }
  }

  /** A descending list holding the same elements as ys starts with ys's maximum. */
  lemma {:induction false} SortedHeadIsMax<K>(r: seq<Scored<K>>, ys: seq<Scored<K>>)
    requires SortedDesc(r) && multiset(r) == multiset(ys) && |ys| > 0
    ensures |r| > 0 && r[0].score == MaxScore(ys)
  {
    assert |r| == |multiset(r)| == |ys|;
    var k := ArgMaxFirst(ys);
    assert ys[k] in multiset(ys);
    assert ys[k] in r;
    assert r[0] in multiset(r);
    assert r[0] in ys;
  }

  /** A descending list holding the same elements as ys ends with ys's minimum. */
  lemma {:induction false} SortedLastIsMin<K>(r: seq<Scored<K>>, ys: seq<Scored<K>>)
    requires SortedDesc(r) && multiset(r) == multiset(ys) && |ys| > 0
    ensures |r| == |ys| && r[|r| - 1].score == MinScore(ys)
  {
    assert |r| == |multiset(r)| == |ys|;
    var k := ArgMin(ys);
    assert ys[k] in multiset(ys);
    assert ys[k] in r;
    assert r[|r| - 1] in multiset(r);
    assert r[|r| - 1] in ys;
  }

  /** The first three positions of the descending sort are the maximum, the runner-up and the minimum
      the decision rules read from it. */
  lemma {:induction false} SortDescPositions<K>(xs: seq<Scored<K>>)
    requires |xs| >= 2
    ensures SortDesc(xs)[0] == xs[ArgMaxFirst(xs)]
    ensures SortDesc(xs)[0].score == MaxScore(xs)
    ensures SortDesc(xs)[1].score == SecondScore(xs)
    ensures SortDesc(xs)[|xs| - 1].score == MinScore(xs)
  {
    var r := SortDesc(xs);
    assert |r| == |xs|;
    SortDescHead(xs);
    var am := ArgMaxFirst(xs);
    assert r[0] == xs[am] && xs[am].score == MaxScore(xs);
    SortedLastIsMin(r, xs);
    SortedSecond(r, xs);
  }

  /** A descending list holding the same elements as xs and headed by xs's first maximum
      continues with the runner-up. */
  lemma {:induction false} SortedSecond<K>(r: seq<Scored<K>>, xs: seq<Scored<K>>)
    requires |xs| >= 2 && SortedDesc(r) && multiset(r) == multiset(xs)
    requires |r| == |xs| && r[0] == xs[ArgMaxFirst(xs)]
    ensures r[1].score == SecondScore(xs)
  {
    var am := ArgMaxFirst(xs);
    var rest := RemoveAt(xs, am);
    MultisetRemoveAt(xs, am);
    MultisetTail(r);
    MultisetCancel(multiset(r[1..]), multiset(rest), r[0]);
    SortedTail(r);
    SortedHeadIsMax(r[1..], rest);
  }

  lemma {:induction false} MultisetCancel<T>(a: multiset<T>, b: multiset<T>, x: T)
    requires a + multiset{x} == b + multiset{x}
    ensures a == b
  {
    forall y
      ensures a[y] == b[y]
    {
      assert (a + multiset{x})[y] == (b + multiset{x})[y];
    }
  }

  lemma {:induction false} MultisetRemoveAt<T>(xs: seq<T>, i: nat)
    requires i < |xs|
    ensures multiset(xs) == multiset(RemoveAt(xs, i)) + multiset{xs[i]}
  {
    assert xs == xs[..i] + [xs[i]] + xs[i + 1..];
  }

  lemma {:induction false} MultisetTail<T>(r: seq<T>)
    requires |r| > 0
    ensures multiset(r) == multiset(r[1..]) + multiset{r[0]}
  {
    assert r == [r[0]] + r[1..];
  }

  lemma {:induction false} SortedTail<K>(r: seq<Scored<K>>)
    requires SortedDesc(r) && |r| > 0
    ensures SortedDesc(r[1..])
  {
  }

  /** The runner-up is the larger of the other scores: at least each of them, and equal to one. */
  lemma {:induction false} SecondScoreBounds<K>(xs: seq<Scored<K>>)
    requires |xs| >= 2
    ensures forall j :: 0 <= j < |xs| && j != ArgMaxFirst(xs) ==> xs[j].score <= SecondScore(xs)
    ensures exists j :: 0 <= j < |xs| && j != ArgMaxFirst(xs) && xs[j].score == SecondScore(xs)
  {
    var am := ArgMaxFirst(xs);
    var rest := RemoveAt(xs, am);
    forall j | 0 <= j < |xs| && j != am
      ensures xs[j].score <= SecondScore(xs)
    {
      if j < am {
        assert rest[j] == xs[j];
      } else {
        assert rest[j - 1] == xs[j];
      }
    }
    var k := ArgMaxFirst(rest);
    if k < am {
      assert xs[k].score == SecondScore(xs);
    } else {
      assert xs[k + 1].score == SecondScore(xs);
    }
  }

  /** A position other than the first maximum that holds the runner-up score. */
  lemma {:induction false} SecondIndex<K>(xs: seq<Scored<K>>) returns (j: nat)
    requires |xs| >= 2
    ensures j < |xs| && j != ArgMaxFirst(xs) && xs[j].score == SecondScore(xs)
  {
    SecondScoreBounds(xs);
    j :| 0 <= j < |xs| && j != ArgMaxFirst(xs) && xs[j].score == SecondScore(xs);
  }

  /** `sorted[1][1] if len(sorted) > 1 else 0`: the runner-up, or 0 for a single candidate. */
  function SecondOrZero<K>(xs: seq<Scored<K>>): (m: real)
    requires |xs| > 0
    ensures |xs| == 1 ==> m == 0.0
    ensures |xs| >= 2 ==> m == SecondScore(xs)
  {
    if |xs| >= 2 then SecondScore(xs) else 0.0
  }

  /** The head of the descending sort is the first maximum, and the element after it (when there
      is one) carries the runner-up score. */
  lemma {:induction false} SortDescTop<K>(xs: seq<Scored<K>>)
    requires |xs| > 0
    ensures |SortDesc(xs)| == |xs|
    ensures SortDesc(xs)[0] == xs[ArgMaxFirst(xs)] && SortDesc(xs)[0].score == MaxScore(xs)
    ensures |xs| >= 2 ==> SortDesc(xs)[1].score == SecondScore(xs)
  {
    if |xs| >= 2 {
      SortDescPositions(xs);
    } else {
      SortDescHead(xs);
    }
  }
}
