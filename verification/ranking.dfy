/**
 The detector's final `sort((a, b) => b.confidence - a.confidence)`.
 `Array.prototype.sort` is stable, so with this comparator the result is
 ordered by decreasing confidence and readings of equal confidence keep their
 original relative order. The model is a stable insertion sort.
 */
module Ranking {
  import opened Emotions

  /** Non-increasing by confidence. */
  predicate SortedDesc(s: seq<EmotionData>)
  {
    forall i, j :: 0 <= i < j < |s| ==> s[i].confidence >= s[j].confidence
  }

  /** No emotion occurs twice. */
  predicate DistinctEmotions(s: seq<EmotionData>)
  {
    forall i, j :: 0 <= i < j < |s| ==> s[i].emotion != s[j].emotion
  }

  /** The readings of `s` whose confidence is `c`, in their order in `s`. */
  function WithConfidence(s: seq<EmotionData>, c: int): seq<EmotionData>
  {
    if s == [] then []
    else (if s[0].confidence == c then [s[0]] else []) + WithConfidence(s[1..], c)
  }

  /** Places `x` in front of the first reading it is not below; ties keep `x` first. */
  function Insert(x: EmotionData, t: seq<EmotionData>): (r: seq<EmotionData>)
    requires SortedDesc(t)
    ensures SortedDesc(r)
    ensures multiset(r) == multiset(t) + multiset{x}
    ensures TotalConfidence(r) == x.confidence + TotalConfidence(t)
  {
    if t == [] || x.confidence >= t[0].confidence then [x] + t
    else
      var rest := Insert(x, t[1..]);
      assert t == [t[0]] + t[1..];
      BoundedBy(t[0], x, t[1..], rest);
      [t[0]] + rest
  }

  /** A permutation of `t` plus `x`, all at most `top`, may follow `top`. */
  lemma BoundedBy(top: EmotionData, x: EmotionData, t: seq<EmotionData>, rest: seq<EmotionData>)
    requires x.confidence <= top.confidence
    requires forall k :: 0 <= k < |t| ==> t[k].confidence <= top.confidence
    requires multiset(rest) == multiset(t) + multiset{x}
    ensures SortedDesc(rest) ==> SortedDesc([top] + rest)
  {
    forall j | 0 <= j < |rest|
      ensures rest[j].confidence <= top.confidence
    {
      assert rest[j] in multiset(rest);
      if rest[j] != x {
        assert rest[j] in multiset(t);
        var k :| 0 <= k < |t| && t[k] == rest[j];
      }
    }
  }

  /** The stable descending sort: sorted, and a permutation of its input. */
  function SortDesc(s: seq<EmotionData>): (r: seq<EmotionData>)
    ensures SortedDesc(r)
    ensures multiset(r) == multiset(s)
    ensures |r| == |s|
    ensures TotalConfidence(r) == TotalConfidence(s)
  {
    if s == [] then []
    else
      assert s == [s[0]] + s[1..];
      Insert(s[0], SortDesc(s[1..]))
  }

  lemma {:induction false} InsertKeepsDistinct(x: EmotionData, t: seq<EmotionData>)
    requires SortedDesc(t) && DistinctEmotions(t)
    requires forall y | y in t :: y.emotion != x.emotion
    ensures DistinctEmotions(Insert(x, t))
  {
    if t == [] || x.confidence >= t[0].confidence {
      ConsDistinct(x, t);
    } else {
      assert DistinctEmotions(t[1..]) && SortedDesc(t[1..]);
      InsertKeepsDistinct(x, t[1..]);
      var rest := Insert(x, t[1..]);
      forall y | y in rest
        ensures y.emotion != t[0].emotion
      {
        assert y in multiset(t[1..]) + multiset{x};
        if y != x {
          var k :| 0 <= k < |t[1..]| && t[1..][k] == y;
          assert t[k + 1] == y;
        }
      }
      ConsDistinct(t[0], rest);
      assert Insert(x, t) == [t[0]] + rest;
    }
  }

  /** A reading whose emotion is new may go in front of distinct readings. */
  lemma ConsDistinct(x: EmotionData, t: seq<EmotionData>)
    requires DistinctEmotions(t)
    requires forall y | y in t :: y.emotion != x.emotion
    ensures DistinctEmotions([x] + t)
  {
    forall i, j | 0 <= i < j < |[x] + t|
      ensures ([x] + t)[i].emotion != ([x] + t)[j].emotion
    {
      if i == 0 {
        assert ([x] + t)[j] == t[j - 1] && t[j - 1] in t;
      } else {
        assert ([x] + t)[i] == t[i - 1] && ([x] + t)[j] == t[j - 1];
      }
    }
  }

  /** Sorting never makes two readings share an emotion. */
  lemma {:induction false} SortKeepsDistinct(s: seq<EmotionData>)
    requires DistinctEmotions(s)
    ensures DistinctEmotions(SortDesc(s))
  {
    if s != [] {
      SortKeepsDistinct(s[1..]);
      var t := SortDesc(s[1..]);
      forall y | y in t
        ensures y.emotion != s[0].emotion
      {
        assert y in multiset(s[1..]);
        var k :| 0 <= k < |s[1..]| && s[1..][k] == y;
        assert s[k + 1] == y;
      }
      InsertKeepsDistinct(s[0], t);
    }
  }

  lemma {:induction false} InsertIsStable(x: EmotionData, t: seq<EmotionData>, c: int)
    requires SortedDesc(t)
    ensures WithConfidence(Insert(x, t), c)
         == (if x.confidence == c then [x] else []) + WithConfidence(t, c)
  {
    if t == [] || x.confidence >= t[0].confidence {
      assert ([x] + t)[1..] == t;
    } else {
      InsertIsStable(x, t[1..], c);
      assert ([t[0]] + Insert(x, t[1..]))[1..] == Insert(x, t[1..]);
    }
  }

  /**
   Stability: for every confidence value, the readings carrying it appear in
   the output in exactly the order they had in the input.
   */
  lemma {:induction false} SortIsStable(s: seq<EmotionData>, c: int)
    ensures WithConfidence(SortDesc(s), c) == WithConfidence(s, c)
  {
    if s != [] {
      SortIsStable(s[1..], c);
      InsertIsStable(s[0], SortDesc(s[1..]), c);
    }
  }
}
