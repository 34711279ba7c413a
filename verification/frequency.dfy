/**
 The history panel's chart data. A `forEach` over the history counts each
 emotion in `emotionCounts`; `Object.keys` then lists those keys in insertion
 order (ordinary own-property order, section 10.1.11.1 of ECMA-262, for keys
 that are not array indices), and each key becomes a bar with its count and
 its colour, falling back to `'#ccc'` for an unknown key.

 The dictionary is modelled as a sequence of buckets in insertion order. Its
 keys are emotions rather than their label strings; `Name` is injective, so
 the two are interchangeable.
 */
module Frequency {
  import opened Emotions
  import opened History

  /** One `emotionCounts` key with its count. */
  datatype Bucket = Bucket(emotion: Emotion, count: nat)

  /** `EmotionCount`: one bar of the chart. */
  datatype EmotionCount = EmotionCount(name: string, count: nat, color: string)

  /** The colour used for a key missing from the colour table. */
  const Fallback: string := "#ccc"

  /**
   `emotionColors[name] || '#ccc'`, with the table as a plain lookup: each of
   the seven labels gets its colour and any other string the fallback. The
   object's prototype chain is not part of this model.
   */
  function ColorOf(name: string): (r: string)
    ensures r == Fallback <==> forall e :: Name(e) != name
  {
    if name == Name(Happy) then "#FFC107"
    else if name == Name(Sad) then "#64B5F6"
    else if name == Name(Angry) then "#EF5350"
    else if name == Name(Neutral) then "#B0BEC5"
    else if name == Name(Surprised) then "#AB47BC"
    else if name == Name(Fear) then "#7E57C2"
    else if name == Name(Disgust) then "#66BB6A"
    else Fallback
  }

  /** Every emotion's label is in the colour table: the fallback is unreachable. */
  lemma EveryEmotionHasColor(e: Emotion)
    ensures ColorOf(Name(e)) != Fallback
  {
  }

  /** Keys of a bucket sequence, in order. */
  predicate DistinctKeys(t: seq<Bucket>)
  {
    forall i, j :: 0 <= i < j < |t| ==> t[i].emotion != t[j].emotion
  }

  /**
   `emotionCounts[e] = (emotionCounts[e] || 0) + 1`. Existing keys keep their
   place and each count grows by at most one; a new bucket for `e`, with
   count 1, is added at the end exactly when `e` is not yet a key; keys stay
   distinct.
   */
  function Bump(t: seq<Bucket>, e: Emotion): (r: seq<Bucket>)
    ensures |t| <= |r| <= |t| + 1
    ensures forall k :: 0 <= k < |t| ==>
      r[k].emotion == t[k].emotion && t[k].count <= r[k].count <= t[k].count + 1
    ensures |r| == |t| + 1 <==> forall k :: 0 <= k < |t| ==> t[k].emotion != e
    ensures |r| == |t| + 1 ==> r[|t|] == Bucket(e, 1)
    ensures DistinctKeys(t) ==> DistinctKeys(r)
  {
    if t == [] then [Bucket(e, 1)]
    else if t[0].emotion == e then [Bucket(e, t[0].count + 1)] + t[1..]
    else [t[0]] + Bump(t[1..], e)
  }

  /**
   The `forEach` over the history's emotions, oldest first. Every key is an
   emotion of `s`, no key repeats, and every count is at least 1.
   */
  function Tally(s: seq<Emotion>): (r: seq<Bucket>)
    ensures |r| <= |s|
    ensures DistinctKeys(r)
    ensures forall k :: 0 <= k < |r| ==> r[k].emotion in s && r[k].count >= 1
  {
    if s == [] then [] else Bump(Tally(s[..|s| - 1]), s[|s| - 1])
  }

  /** The emotions of a history, oldest first. */
  function EmotionsOf(h: seq<HistoryEntry>): (s: seq<Emotion>)
    ensures |s| == |h|
    ensures forall k :: 0 <= k < |h| ==> s[k] == h[k].emotion
  {
    seq(|h|, k requires 0 <= k < |h| => h[k].emotion)
  }

  /**
   The `map` callback applied to one key: the bar is labelled with the key's
   name, carries its count, and is coloured from the table, never with the
   fallback.
   */
  function Bar(b: Bucket): (r: EmotionCount)
    ensures r.name == Name(b.emotion) && r.count == b.count
    ensures r.color == ColorOf(r.name) && r.color != Fallback
  {
    EmotionCount(Name(b.emotion), b.count, ColorOf(Name(b.emotion)))
  }

  /** `Object.keys(emotionCounts).map(...)`: one bar per key, in key order. */
  function Bars(t: seq<Bucket>): (r: seq<EmotionCount>)
    ensures |r| == |t|
    ensures forall k :: 0 <= k < |t| ==> r[k] == Bar(t[k])
  {
    if t == [] then [] else [Bar(t[0])] + Bars(t[1..])
  }

  /**
   The aggregation effect: history in, chart data out. There are no more bars
   than entries, no two bars share a label, and every bar has a count of at
   least 1 and a colour from the table.
   */
  function Aggregate(h: seq<HistoryEntry>): (r: seq<EmotionCount>)
    ensures |r| <= |h|
    ensures forall i, j :: 0 <= i < j < |r| ==> r[i].name != r[j].name
    ensures forall k :: 0 <= k < |r| ==> r[k].count >= 1 && r[k].color != Fallback
  {
    var t := Tally(EmotionsOf(h));
    var r := Bars(t);
    forall i, j | 0 <= i < j < |r|
      ensures r[i].name != r[j].name
    {
      NameInjective(t[i].emotion, t[j].emotion);
    }
    r
  }

  // ---------------------------------------------------------------------------
  // Reference: distinct emotions in order of first occurrence, with counts.
  // ---------------------------------------------------------------------------

  /** The distinct elements of `s`, each where it first occurs. */
  function FirstOccurrences(s: seq<Emotion>): seq<Emotion>
  {
    if s == [] then []
    else
      var d := FirstOccurrences(s[..|s| - 1]);
      if s[|s| - 1] in d then d else d + [s[|s| - 1]]
  }

  /** Position of the first occurrence of `e` in `s`. */
  function FirstIndex(s: seq<Emotion>, e: Emotion): (i: nat)
    requires e in s
    ensures i < |s| && s[i] == e
    ensures forall j :: 0 <= j < i ==> s[j] != e
  {
    if s[0] == e then 0 else 1 + FirstIndex(s[1..], e)
  }

  /** The tally the aggregation ought to produce. */
  function Expected(s: seq<Emotion>): seq<Bucket>
  {
    var d := FirstOccurrences(s);
    seq(|d|, k requires 0 <= k < |d| => Bucket(d[k], multiset(s)[d[k]]))
  }

  lemma {:induction false} FirstOccurrencesFacts(s: seq<Emotion>)
    ensures forall e :: e in FirstOccurrences(s) <==> e in s
    ensures forall i, j :: 0 <= i < j < |FirstOccurrences(s)| ==> FirstOccurrences(s)[i] != FirstOccurrences(s)[j]
  {
    if s != [] {
      var p := s[..|s| - 1];
      FirstOccurrencesFacts(p);
      assert s == p + [s[|s| - 1]];
    }
  }

  lemma FirstIndexUnique(s: seq<Emotion>, e: Emotion, i: nat)
    requires i < |s| && s[i] == e
    requires forall j :: 0 <= j < i ==> s[j] != e
    ensures FirstIndex(s, e) == i
  {
  }

  /**
   The reference lists the distinct emotions in the order in which they first
   occur in `s`.
   */
  lemma {:induction false} FirstOccurrencesOrdered(s: seq<Emotion>)
    ensures forall i, j :: 0 <= i < j < |FirstOccurrences(s)| ==>
      FirstOccurrences(s)[i] in s && FirstOccurrences(s)[j] in s &&
      FirstIndex(s, FirstOccurrences(s)[i]) < FirstIndex(s, FirstOccurrences(s)[j])
  {
    FirstOccurrencesFacts(s);
    if s != [] {
      var p := s[..|s| - 1];
      var x := s[|s| - 1];
      assert s == p + [x];
      FirstOccurrencesOrdered(p);
      FirstOccurrencesFacts(p);
      var d := FirstOccurrences(p);
      forall y | y in p
        ensures FirstIndex(s, y) == FirstIndex(p, y)
      {
        FirstIndexUnique(s, y, FirstIndex(p, y));
      }
      if x !in d {
        FirstIndexUnique(s, x, |p|);
      }
    }
  }

  lemma {:induction false} BumpPresent(t: seq<Bucket>, e: Emotion, j: nat)
    requires DistinctKeys(t) && j < |t| && t[j].emotion == e
    ensures Bump(t, e) == t[j := Bucket(e, t[j].count + 1)]
  {
    if t[0].emotion != e {
      assert DistinctKeys(t[1..]);
      BumpPresent(t[1..], e, j - 1);
      assert Bump(t, e) == [t[0]] + Bump(t[1..], e);
      assert t[j := Bucket(e, t[j].count + 1)] == [t[0]] + t[1..][j - 1 := Bucket(e, t[j].count + 1)];
    } else {
      assert j == 0;
    }
  }

  lemma {:induction false} BumpAbsent(t: seq<Bucket>, e: Emotion)
    requires forall k :: 0 <= k < |t| ==> t[k].emotion != e
    ensures Bump(t, e) == t + [Bucket(e, 1)]
  {
    if t != [] {
      BumpAbsent(t[1..], e);
    }
  }

  lemma ExpectedStepPresent(p: seq<Emotion>, e: Emotion)
    requires e in p
    ensures Expected(p + [e]) == Bump(Expected(p), e)
  {
    FirstOccurrencesFacts(p);
    var d := FirstOccurrences(p);
    var j :| 0 <= j < |d| && d[j] == e;
    ExpectedKeysDistinct(p);
    ExpectedAddsOne(p, e, j);
    BumpPresent(Expected(p), e, j);
  }

  lemma ExpectedKeysDistinct(p: seq<Emotion>)
    ensures DistinctKeys(Expected(p))
  {
    FirstOccurrencesFacts(p);
  }

  /** Appending an emotion already seen adds one to its bucket only. */
  lemma ExpectedAddsOne(p: seq<Emotion>, e: Emotion, j: nat)
    requires j < |FirstOccurrences(p)| && FirstOccurrences(p)[j] == e
    ensures Expected(p + [e]) == Expected(p)[j := Bucket(e, Expected(p)[j].count + 1)]
  {
    var s := p + [e];
    var d := FirstOccurrences(p);
    assert s[..|s| - 1] == p && s[|s| - 1] == e;
    assert e in d;
    assert FirstOccurrences(s) == d;
    assert multiset(s) == multiset(p) + multiset{e};
    ExpectedKeysDistinct(p);
    var t := Expected(p);
    var u := t[j := Bucket(e, t[j].count + 1)];
    assert |Expected(s)| == |u|;
    forall k | 0 <= k < |d|
      ensures Expected(s)[k] == u[k]
    {
      if k != j {
        assert t[k].emotion != t[j].emotion;
      }
    }
  }

  lemma ExpectedStepAbsent(p: seq<Emotion>, e: Emotion)
    requires e !in p
    ensures Expected(p + [e]) == Bump(Expected(p), e)
  {
    var s := p + [e];
    assert s[..|s| - 1] == p;
    FirstOccurrencesFacts(p);
    var d := FirstOccurrences(p);
    assert FirstOccurrences(s) == d + [e];
    var t := Expected(p);
    BumpAbsent(t, e);
    assert multiset(s) == multiset(p) + multiset{e};
    assert multiset(p)[e] == 0;
    var u := t + [Bucket(e, 1)];
    forall k | 0 <= k < |d| + 1
      ensures Expected(s)[k] == u[k]
    {
      if k < |d| {
        assert d[k] != e;
      }
    }
  }

  /**
   The `forEach` tally agrees with the reference: one bucket per distinct
   emotion, in first-occurrence order, holding its number of occurrences.
   */
  lemma {:induction false} TallyMatchesReference(s: seq<Emotion>)
    ensures Tally(s) == Expected(s)
  {
    if s != [] {
      var p := s[..|s| - 1];
      var e := s[|s| - 1];
      assert s == p + [e];
      TallyMatchesReference(p);
      if e in p {
        ExpectedStepPresent(p, e);
      } else {
        ExpectedStepAbsent(p, e);
      }
    }
  }

  function SumBuckets(t: seq<Bucket>): int
  {
    if t == [] then 0 else t[0].count + SumBuckets(t[1..])
  }

  function SumCounts(r: seq<EmotionCount>): int
  {
    if r == [] then 0 else r[0].count + SumCounts(r[1..])
  }

  lemma {:induction false} SumBump(t: seq<Bucket>, e: Emotion)
    ensures SumBuckets(Bump(t, e)) == SumBuckets(t) + 1
  {
    if t != [] && t[0].emotion != e {
      SumBump(t[1..], e);
      assert ([t[0]] + Bump(t[1..], e))[1..] == Bump(t[1..], e);
    } else if t != [] {
      assert ([Bucket(e, t[0].count + 1)] + t[1..])[1..] == t[1..];
    }
  }

  lemma {:induction false} SumTally(s: seq<Emotion>)
    ensures SumBuckets(Tally(s)) == |s|
  {
    if s != [] {
      SumTally(s[..|s| - 1]);
      SumBump(Tally(s[..|s| - 1]), s[|s| - 1]);
    }
  }

  lemma {:induction false} SumBars(t: seq<Bucket>)
    ensures SumCounts(Bars(t)) == SumBuckets(t)
  {
    if t != [] {
      SumBars(t[1..]);
      assert Bars(t)[1..] == Bars(t[1..]);
    }
  }

  // ---------------------------------------------------------------------------
  // What the chart data means.
  // ---------------------------------------------------------------------------

  /**
   The bars are the distinct emotions of the history in order of first
   occurrence, each labelled with its name and coloured from the table.
   */
  lemma AggregateInFirstOccurrenceOrder(h: seq<HistoryEntry>)
    ensures |Aggregate(h)| == |FirstOccurrences(EmotionsOf(h))|
    ensures forall k :: 0 <= k < |Aggregate(h)| ==>
      Aggregate(h)[k].name == Name(FirstOccurrences(EmotionsOf(h))[k])
    ensures forall i, j :: 0 <= i < j < |Aggregate(h)| ==>
      Aggregate(h)[i].name != Aggregate(h)[j].name
  {
    var s := EmotionsOf(h);
    TallyMatchesReference(s);
    FirstOccurrencesFacts(s);
    forall i, j | 0 <= i < j < |Aggregate(h)|
      ensures Aggregate(h)[i].name != Aggregate(h)[j].name
    {
      NameInjective(FirstOccurrences(s)[i], FirstOccurrences(s)[j]);
    }
  }

  /**
   An emotion has a bar exactly when it occurs in the history, and that bar's
   count is its number of occurrences, so every count is at least 1.
   */
  lemma AggregateCounts(h: seq<HistoryEntry>, e: Emotion)
    ensures (exists k :: 0 <= k < |Aggregate(h)| && Aggregate(h)[k].name == Name(e))
        <==> (exists i :: 0 <= i < |h| && h[i].emotion == e)
    ensures forall k :: 0 <= k < |Aggregate(h)| && Aggregate(h)[k].name == Name(e) ==>
      Aggregate(h)[k].count == multiset(EmotionsOf(h))[e] >= 1
  {
    var s := EmotionsOf(h);
    var r := Aggregate(h);
    TallyMatchesReference(s);
    ReferenceBars(s, e, r);
    if exists i :: 0 <= i < |h| && h[i].emotion == e {
      var i :| 0 <= i < |h| && h[i].emotion == e;
      assert s[i] == e;
    }
  }

  /** The bars built from the reference tally: one per emotion of `s`, with its count. */
  lemma ReferenceBars(s: seq<Emotion>, e: Emotion, r: seq<EmotionCount>)
    requires r == Bars(Expected(s))
    ensures (exists k :: 0 <= k < |r| && r[k].name == Name(e)) <==> e in s
    ensures forall k :: 0 <= k < |r| && r[k].name == Name(e) ==> r[k].count == multiset(s)[e] >= 1
  {
    var d := FirstOccurrences(s);
    var t := Expected(s);
    assert |r| == |t| == |d|;
    FirstOccurrencesFacts(s);
    forall k | 0 <= k < |r| && r[k].name == Name(e)
      ensures r[k].count == multiset(s)[e] >= 1 && e in s
    {
      assert r[k] == Bar(t[k]) && t[k] == Bucket(d[k], multiset(s)[d[k]]);
      NameInjective(d[k], e);
      assert d[k] in s;
      assert d[k] in multiset(s);
    }
    if e in s {
      var k :| 0 <= k < |d| && d[k] == e;
      assert r[k] == Bar(t[k]) && t[k].emotion == e;
    }
  }

  /** The counts add up to the history's length; an empty history has no bars. */
  lemma AggregateTotal(h: seq<HistoryEntry>)
    ensures SumCounts(Aggregate(h)) == |h|
    ensures h == [] <==> Aggregate(h) == []
  {
    SumTally(EmotionsOf(h));
    SumBars(Tally(EmotionsOf(h)));
  }

  /** Every bar gets its emotion's own colour, never the fallback. */
  lemma AggregateColors(h: seq<HistoryEntry>)
    ensures forall k :: 0 <= k < |Aggregate(h)| ==>
      Aggregate(h)[k].color == ColorOf(Aggregate(h)[k].name) && Aggregate(h)[k].color != Fallback
  {
  }
}
