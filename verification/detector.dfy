/**
 The simulated emotion detector `mockEmotionDetection`. Every
 `Math.floor(Math.random() * n)` becomes the next integer of an injected
 stream `rolls`, each in `[0, n)`:

   rolls[0]       the dominant index, in [0, 7)
   rolls[1]       the dominant's offset above 30, in [0, 40)
   rolls[2], ...  one share draw in [0, 20) per emotion that is neither the
                  dominant nor the "last" emotion, consumed in order

 With the draws fixed the generator is a total, deterministic function.
 */
module Detector {
  import opened Emotions
  import opened Ranking

  /** The confidence budget the generator starts from. */
  const Total := 100
  /** Lowest confidence the dominant emotion receives. */
  const DominantFloor := 30
  /** Number of values the dominant's offset draw can take. */
  const DominantSpread := 40
  /** Number of values a share draw can take. */
  const ShareSpread := 20
  /** Position in `rolls` of the first share draw. */
  const FirstShareDraw := 2
  /** The most draws one call consumes: two for the dominant and six shares. */
  const MaxDraws := 8

  /** A stream of draws as `Math.floor(Math.random() * n)` can produce them. */
  predicate ValidRolls(rolls: seq<int>)
  {
    && |rolls| >= MaxDraws
    && 0 <= rolls[0] < |Order|
    && 0 <= rolls[1] < DominantSpread
    && forall k :: FirstShareDraw <= k < |rolls| ==> 0 <= rolls[k] < ShareSpread
  }

  /**
   Which index receives "whatever confidence is left". The source tests
   `i === emotions.length - 1` (`AsWritten`); the evidently intended rule is the
   last emotion other than the dominant (`LastNonDominant`).
   */
  datatype LastRule = AsWritten | LastNonDominant

  function LastSlot(d: nat, rule: LastRule): (last: nat)
    requires d < |Order|
    ensures last < |Order|
    ensures rule == AsWritten ==> last == |Order| - 1
    ensures rule == LastNonDominant ==> last != d
    // every index after `last` is the dominant, which the loop skips
    ensures last == |Order| - 1 || (last == |Order| - 2 && d == |Order| - 1)
  {
    if rule == LastNonDominant && d == |Order| - 1 then |Order| - 2 else |Order| - 1
  }

  /** The dominant's confidence, `Math.floor(Math.random() * 40) + 30`. */
  function DominantConfidence(rolls: seq<int>): (c: int)
    requires ValidRolls(rolls)
    ensures DominantFloor <= c <= DominantFloor + DominantSpread - 1
    ensures c != 70
  {
    rolls[1] + DominantFloor
  }

  /** Loop state: readings pushed so far, `remainingConfidence`, next unread draw. */
  datatype Walk = Walk(pushed: seq<EmotionData>, remaining: int, next: nat)

  function Min(a: int, b: int): int
  {
    if a <= b then a else b
  }

  /** State before the loop: the dominant is pushed and its share taken off. */
  function Start(rolls: seq<int>): (w: Walk)
    requires ValidRolls(rolls)
    ensures TotalConfidence(w.pushed) + w.remaining == Total
    ensures Total - DominantFloor - DominantSpread < w.remaining <= Total - DominantFloor
    ensures |w.pushed| == 1 && w.pushed[0].emotion == Order[rolls[0]]
  {
    var c := DominantConfidence(rolls);
    Walk([EmotionData(Order[rolls[0]], c)], Total - c, FirstShareDraw)
  }

  /**
   One iteration of the loop, for index `i`. It only ever appends, at most one
   reading, for emotion `i`; the dominant's index is skipped. Any other index
   but the last reads the next draw and clamps it to the budget: the clamped
   value is pushed exactly when it is positive and is taken off the budget, so
   confidence moves from the budget to the readings without any being created,
   and the budget never goes below 0. The last index receives the whole budget
   without it being taken off and reads no draw.
   */
  function Step(rolls: seq<int>, last: nat, i: nat, w: Walk): (r: Walk)
    requires ValidRolls(rolls) && i < |Order|
    requires i != rolls[0] && i != last ==> w.next < |rolls|
    ensures |w.pushed| <= |r.pushed| <= |w.pushed| + 1 && r.pushed[..|w.pushed|] == w.pushed
    ensures |r.pushed| == |w.pushed| + 1 ==> r.pushed[|w.pushed|].emotion == Order[i]
    ensures i == rolls[0] ==> r == w
    ensures i != last ==>
      TotalConfidence(r.pushed) + r.remaining == TotalConfidence(w.pushed) + w.remaining
    ensures i != last && 0 <= w.remaining && FirstShareDraw <= w.next ==> 0 <= r.remaining <= w.remaining
    ensures i != rolls[0] && i != last ==>
      && r.next == w.next + 1
      && (|r.pushed| == |w.pushed| + 1 <==> Min(w.remaining, rolls[w.next]) > 0)
      && (|r.pushed| == |w.pushed| + 1 ==>
            r.pushed[|w.pushed|] == EmotionData(Order[i], Min(w.remaining, rolls[w.next]))
            && r.remaining == w.remaining - Min(w.remaining, rolls[w.next]))
      && (|r.pushed| == |w.pushed| ==> r.remaining == w.remaining)
    ensures i == last && i != rolls[0] ==>
      |r.pushed| == |w.pushed| + 1 && r.remaining == w.remaining && r.next == w.next
      && r.pushed[|w.pushed|] == EmotionData(Order[i], w.remaining)
      && TotalConfidence(r.pushed) == TotalConfidence(w.pushed) + w.remaining
  {
    if i == rolls[0] then w
    else if i == last then
      var x := EmotionData(Order[i], w.remaining);
      TotalConfidenceAppend(w.pushed, x);
      assert (w.pushed + [x])[..|w.pushed|] == w.pushed;
      Walk(w.pushed + [x], w.remaining, w.next)
    else
      var conf := Min(w.remaining, rolls[w.next]);
      if conf > 0 then
        var x := EmotionData(Order[i], conf);
        TotalConfidenceAppend(w.pushed, x);
        assert (w.pushed + [x])[..|w.pushed|] == w.pushed;
        Walk(w.pushed + [x], w.remaining - conf, w.next + 1)
      else
        Walk(w.pushed, w.remaining, w.next + 1)
  }

  /** Number of indices below `i` that draw a share: neither dominant nor last. */
  function DrawsBefore(d: nat, last: nat, i: nat): nat
  {
    if i == 0 then 0
    else DrawsBefore(d, last, i - 1) + (if i - 1 != d && i - 1 != last then 1 else 0)
  }

  lemma {:induction false} DrawsBeforeBound(d: nat, last: nat, i: nat)
    ensures DrawsBefore(d, last, i) + (if d < i then 1 else 0) <= i
  {
    if i > 0 {
      DrawsBeforeBound(d, last, i - 1);
    }
  }

  /**
   The loop state after the iterations for indices `0 .. i-1`. Exactly one
   draw is read per visited index that is neither the dominant nor the last.
   */
  function StateAfter(rolls: seq<int>, rule: LastRule, i: nat): (w: Walk)
    requires ValidRolls(rolls) && i <= |Order|
    ensures w.next == FirstShareDraw + DrawsBefore(rolls[0], LastSlot(rolls[0], rule), i)
    decreases i
  {
    if i == 0 then Start(rolls)
    else
      var prev := StateAfter(rolls, rule, i - 1);
      DrawsBeforeBound(rolls[0], LastSlot(rolls[0], rule), i - 1);
      Step(rolls, LastSlot(rolls[0], rule), i - 1, prev)
  }

  /** The index of `last` has been visited and received the leftover. */
  predicate Settled(d: nat, last: nat, i: nat)
  {
    last != d && last < i
  }

  /** The bounds a non-dominant reading's confidence obeys. */
  predicate ShareBounds(rolls: seq<int>, last: nat, x: EmotionData)
    requires ValidRolls(rolls)
  {
    if IndexOf(x.emotion) == last then 0 <= x.confidence <= Total - DominantConfidence(rolls)
    else 1 <= x.confidence <= ShareSpread - 1
  }

  /** Readings after the first come from visited, non-dominant indices, in increasing index order. */
  ghost predicate OrderedShares(d: nat, i: nat, s: seq<EmotionData>)
  {
    && (forall k :: 1 <= k < |s| ==> IndexOf(s[k].emotion) < i && IndexOf(s[k].emotion) != d)
    && (forall k, m :: 1 <= k < m < |s| ==> IndexOf(s[k].emotion) < IndexOf(s[m].emotion))
  }

  /** Whether some reading after the first is for index `j`. */
  ghost predicate HasShareAt(s: seq<EmotionData>, j: nat)
  {
    exists k :: 1 <= k < |s| && IndexOf(s[k].emotion) == j
  }

  /** The loop invariant of the distribution loop, after `i` iterations. */
  ghost predicate Inv(rolls: seq<int>, last: nat, i: nat, w: Walk)
    requires ValidRolls(rolls)
  {
    var d := rolls[0];
    && 1 <= |w.pushed| <= i + (if d < i then 0 else 1)
    && w.pushed[0] == EmotionData(Order[d], DominantConfidence(rolls))
    && 0 <= w.remaining <= Total - DominantConfidence(rolls)
    && (if Settled(d, last, i) then TotalConfidence(w.pushed) == Total
        else TotalConfidence(w.pushed) + w.remaining == Total)
    && OrderedShares(d, i, w.pushed)
    && (forall k :: 1 <= k < |w.pushed| ==> ShareBounds(rolls, last, w.pushed[k]))
    && (Settled(d, last, i) <==> HasShareAt(w.pushed, last))
  }

  /** Appending a reading for index `i` keeps the shares ordered, now up to `i + 1`. */
  lemma AppendOrdered(d: nat, i: nat, s: seq<EmotionData>, x: EmotionData)
    requires |s| >= 1 && OrderedShares(d, i, s)
    requires IndexOf(x.emotion) == i && i != d
    ensures OrderedShares(d, i + 1, s + [x])
    ensures forall j :: j != i ==> (HasShareAt(s + [x], j) <==> HasShareAt(s, j))
    ensures HasShareAt(s + [x], i)
  {
    var s' := s + [x];
    assert s'[|s|] == x;
    forall j | j != i
      ensures HasShareAt(s', j) <==> HasShareAt(s, j)
    {
      if HasShareAt(s', j) {
        var k :| 1 <= k < |s'| && IndexOf(s'[k].emotion) == j;
        assert k < |s| && s[k] == s'[k];
      }
      if HasShareAt(s, j) {
        var k :| 1 <= k < |s| && IndexOf(s[k].emotion) == j;
        assert s'[k] == s[k];
      }
    }
  }

  /** Monotonicity of the visited bound. */
  lemma OrderedWiden(d: nat, i: nat, s: seq<EmotionData>)
    requires OrderedShares(d, i, s)
    ensures OrderedShares(d, i + 1, s)
  {
  }

  lemma StepSkip(rolls: seq<int>, last: nat, i: nat, w: Walk)
    requires ValidRolls(rolls) && i < |Order| && i == rolls[0]
    requires Inv(rolls, last, i, w)
    ensures Inv(rolls, last, i + 1, Step(rolls, last, i, w))
  {
    OrderedWiden(rolls[0], i, w.pushed);
    assert Settled(rolls[0], last, i) == Settled(rolls[0], last, i + 1);
  }

  lemma StepLast(rolls: seq<int>, last: nat, i: nat, w: Walk)
    requires ValidRolls(rolls) && i < |Order| && i != rolls[0] && i == last
    requires Inv(rolls, last, i, w)
    ensures Inv(rolls, last, i + 1, Step(rolls, last, i, w))
  {
    var x := EmotionData(Order[i], w.remaining);
    IndexOfOrder(i);
    TotalConfidenceAppend(w.pushed, x);
    AppendOrdered(rolls[0], i, w.pushed, x);
    assert Step(rolls, last, i, w).pushed == w.pushed + [x];
  }

  /** Pushing a share `x` taken from the remaining budget keeps the invariant. */
  lemma PushShare(rolls: seq<int>, last: nat, i: nat, w: Walk, x: EmotionData)
    requires ValidRolls(rolls) && i < |Order| && i != rolls[0] && i != last
    requires last < i ==> i == rolls[0]
    requires Inv(rolls, last, i, w)
    requires IndexOf(x.emotion) == i
    requires 1 <= x.confidence <= ShareSpread - 1 && x.confidence <= w.remaining
    ensures Inv(rolls, last, i + 1, Walk(w.pushed + [x], w.remaining - x.confidence, w.next + 1))
  {
    var s' := w.pushed + [x];
    TotalConfidenceAppend(w.pushed, x);
    AppendOrdered(rolls[0], i, w.pushed, x);
    assert ShareBounds(rolls, last, x);
    forall k | 1 <= k < |s'|
      ensures ShareBounds(rolls, last, s'[k])
    {
      if k < |w.pushed| {
        assert s'[k] == w.pushed[k];
      }
    }
    assert !Settled(rolls[0], last, i + 1);
  }

  lemma StepShare(rolls: seq<int>, last: nat, i: nat, w: Walk)
    requires ValidRolls(rolls) && i < |Order| && i != rolls[0] && i != last
    requires FirstShareDraw <= w.next < |rolls|
    requires last < i ==> i == rolls[0]
    requires Inv(rolls, last, i, w)
    ensures Inv(rolls, last, i + 1, Step(rolls, last, i, w))
  {
    var conf := Min(w.remaining, rolls[w.next]);
    if conf > 0 {
      var x := EmotionData(Order[i], conf);
      IndexOfOrder(i);
      assert Step(rolls, last, i, w) == Walk(w.pushed + [x], w.remaining - conf, w.next + 1);
      PushShare(rolls, last, i, w, x);
    } else {
      assert Step(rolls, last, i, w) == Walk(w.pushed, w.remaining, w.next + 1);
      OrderedWiden(rolls[0], i, w.pushed);
      assert Settled(rolls[0], last, i) == Settled(rolls[0], last, i + 1);
    }
  }

  lemma StepPreserves(rolls: seq<int>, rule: LastRule, i: nat, w: Walk)
    requires ValidRolls(rolls) && i < |Order|
    requires w.next >= FirstShareDraw
    requires i != rolls[0] && i != LastSlot(rolls[0], rule) ==> w.next < |rolls|
    requires Inv(rolls, LastSlot(rolls[0], rule), i, w)
    ensures Inv(rolls, LastSlot(rolls[0], rule), i + 1, Step(rolls, LastSlot(rolls[0], rule), i, w))
  {
    var last := LastSlot(rolls[0], rule);
    if i == rolls[0] {
      StepSkip(rolls, last, i, w);
    } else if i == last {
      StepLast(rolls, last, i, w);
    } else {
      StepShare(rolls, last, i, w);
    }
  }

  /** The invariant holds after every number of iterations, by induction. */
  lemma {:induction false} Invariant(rolls: seq<int>, rule: LastRule, i: nat)
    requires ValidRolls(rolls) && i <= |Order|
    ensures Inv(rolls, LastSlot(rolls[0], rule), i, StateAfter(rolls, rule, i))
  {
    if i > 0 {
      Invariant(rolls, rule, i - 1);
      DrawsBeforeBound(rolls[0], LastSlot(rolls[0], rule), i - 1);
      StepPreserves(rolls, rule, i - 1, StateAfter(rolls, rule, i - 1));
    }
  }

  /**
   `remainingConfidence` never goes negative, nor above what the dominant
   left, at any point of the loop: each share is `min(remaining, draw)`.
   */
  lemma {:induction false} RemainingStaysInRange(rolls: seq<int>, rule: LastRule, i: nat)
    requires ValidRolls(rolls) && i <= |Order|
    ensures 0 <= StateAfter(rolls, rule, i).remaining <= Total - DominantConfidence(rolls)
  {
    Invariant(rolls, rule, i);
  }

  /** The readings pushed by the whole loop, before sorting. */
  function Pushed(rolls: seq<int>, rule: LastRule): (s: seq<EmotionData>)
    requires ValidRolls(rolls)
    ensures 1 <= |s| <= |Order|
    ensures s[0] == EmotionData(Order[rolls[0]], DominantConfidence(rolls))
  {
    Invariant(rolls, rule, |Order|);
    StateAfter(rolls, rule, |Order|).pushed
  }

  /** The generator under either rule for the leftover: the loop, then the stable sort. */
  function Detect(rolls: seq<int>, rule: LastRule): (out: seq<EmotionData>)
    requires ValidRolls(rolls)
    ensures 1 <= |out| <= |Order|
    ensures SortedDesc(out)
    ensures forall k :: 0 <= k < |out| ==> out[0].confidence >= out[k].confidence
    ensures multiset(out) == multiset(Pushed(rolls, rule))
  {
    SortDesc(Pushed(rolls, rule))
  }

  /**
   The final value of `remainingConfidence` under the source's rule: the
   share already handed to `disgust` when `disgust` is not the dominant
   (`LeftoverIsDisgustShare`), and the amount never assigned to anyone when it
   is (`MockEmotionDetection`).
   */
  function Leftover(rolls: seq<int>): (r: int)
    requires ValidRolls(rolls)
    ensures 0 <= r <= Total - DominantFloor
  {
    RemainingStaysInRange(rolls, AsWritten, |Order|);
    StateAfter(rolls, AsWritten, |Order|).remaining
  }

  /**
   `mockEmotionDetection` as written. The confidences sum to 100 unless the
   dominant is `disgust` (index 6); then the leftover is never handed out and
   the sum falls short by exactly `Leftover(rolls)`.
   */
  function MockEmotionDetection(rolls: seq<int>): (out: seq<EmotionData>)
    requires ValidRolls(rolls)
    ensures rolls[0] != |Order| - 1 ==> TotalConfidence(out) == Total
    ensures rolls[0] == |Order| - 1 ==> TotalConfidence(out) == Total - Leftover(rolls)
    ensures TotalConfidence(out) <= Total
  {
    Invariant(rolls, AsWritten, |Order|);
    Detect(rolls, AsWritten)
  }

  /** The generator with the leftover given to the last non-dominant emotion. */
  function CorrectedEmotionDetection(rolls: seq<int>): (out: seq<EmotionData>)
    requires ValidRolls(rolls)
    ensures TotalConfidence(out) == Total
  {
    Invariant(rolls, LastNonDominant, |Order|);
    Detect(rolls, LastNonDominant)
  }

  lemma InPushed(rolls: seq<int>, rule: LastRule, x: EmotionData)
    requires ValidRolls(rolls)
    requires x in Detect(rolls, rule)
    ensures exists k :: 0 <= k < |Pushed(rolls, rule)| && Pushed(rolls, rule)[k] == x
  {
    assert x in multiset(Detect(rolls, rule));
    assert x in multiset(Pushed(rolls, rule));
  }

  /** Each emotion is reported at most once. */
  lemma EachEmotionAtMostOnce(rolls: seq<int>, rule: LastRule)
    requires ValidRolls(rolls)
    ensures DistinctEmotions(Detect(rolls, rule))
  {
    Invariant(rolls, rule, |Order|);
    var s := Pushed(rolls, rule);
    forall i, j | 0 <= i < j < |s|
      ensures s[i].emotion != s[j].emotion
    {
      IndexOfOrder(rolls[0]);
    }
    SortKeepsDistinct(s);
  }

  /**
   The dominant emotion is reported, with its drawn confidence in [30, 69],
   and every reading of that emotion carries that confidence.
   */
  lemma DominantReported(rolls: seq<int>, rule: LastRule)
    requires ValidRolls(rolls)
    ensures exists k :: (0 <= k < |Detect(rolls, rule)|
      && Detect(rolls, rule)[k] == EmotionData(Order[rolls[0]], DominantConfidence(rolls)))
    ensures forall k :: (0 <= k < |Detect(rolls, rule)| && Detect(rolls, rule)[k].emotion == Order[rolls[0]]
      ==> DominantFloor <= Detect(rolls, rule)[k].confidence <= DominantFloor + DominantSpread - 1)
  {
    var s := Pushed(rolls, rule);
    var out := Detect(rolls, rule);
    Invariant(rolls, rule, |Order|);
    assert s[0] in multiset(out);
    forall k | 0 <= k < |out| && out[k].emotion == Order[rolls[0]]
      ensures DominantFloor <= out[k].confidence <= DominantFloor + DominantSpread - 1
    {
      InPushed(rolls, rule, out[k]);
      var m :| 0 <= m < |s| && s[m] == out[k];
      IndexOfOrder(rolls[0]);
    }
  }

  /**
   Every other reading takes 1..19, except the one at the last index, which
   takes the leftover (0..70). Hence only the last index can report 0.
   */
  lemma ShareConfidences(rolls: seq<int>, rule: LastRule)
    requires ValidRolls(rolls)
    ensures forall k :: 0 <= k < |Detect(rolls, rule)| && Detect(rolls, rule)[k].emotion != Order[rolls[0]] ==>
      if Detect(rolls, rule)[k].emotion == Order[LastSlot(rolls[0], rule)]
      then 0 <= Detect(rolls, rule)[k].confidence <= Total - DominantFloor
      else 1 <= Detect(rolls, rule)[k].confidence <= ShareSpread - 1
  {
    var s := Pushed(rolls, rule);
    var out := Detect(rolls, rule);
    var last := LastSlot(rolls[0], rule);
    Invariant(rolls, rule, |Order|);
    forall k | 0 <= k < |out| && out[k].emotion != Order[rolls[0]]
      ensures if out[k].emotion == Order[last] then 0 <= out[k].confidence <= Total - DominantFloor
              else 1 <= out[k].confidence <= ShareSpread - 1
    {
      InPushed(rolls, rule, out[k]);
      var m :| 0 <= m < |s| && s[m] == out[k];
      assert m != 0;
      assert ShareBounds(rolls, last, s[m]);
      IndexOfOrder(last);
    }
  }

  /**
   The clamped share of a visited index that is neither the dominant nor the
   last: `Math.min(remainingConfidence, draw)` with the draw that index reads.
   */
  function Share(rolls: seq<int>, rule: LastRule, i: nat): int
    requires ValidRolls(rolls) && i < |Order|
    requires i != rolls[0] && i != LastSlot(rolls[0], rule)
  {
    DrawsBeforeBound(rolls[0], LastSlot(rolls[0], rule), i);
    var w := StateAfter(rolls, rule, i);
    Min(w.remaining, rolls[w.next])
  }

  /** One iteration appends at most one reading, for the index it visits. */
  lemma StepAppends(rolls: seq<int>, rule: LastRule, i: nat)
    requires ValidRolls(rolls) && i < |Order|
    ensures var b := StateAfter(rolls, rule, i).pushed;
      var c := StateAfter(rolls, rule, i + 1).pushed;
      && |b| <= |c| <= |b| + 1 && c[..|b|] == b
      && (|c| == |b| + 1 ==> c[|b|].emotion == Order[i])
  {
    DrawsBeforeBound(rolls[0], LastSlot(rolls[0], rule), i);
    assert StateAfter(rolls, rule, i + 1)
        == Step(rolls, LastSlot(rolls[0], rule), i, StateAfter(rolls, rule, i));
  }

  /**
   The pushed readings only grow: the state after `j` iterations is a prefix
   of the state after `n`, and everything pushed in between is for an index
   in `j .. n-1`.
   */
  lemma {:induction false} PushedExtends(rolls: seq<int>, rule: LastRule, j: nat, n: nat)
    requires ValidRolls(rolls) && j <= n <= |Order|
    ensures GrowsFrom(StateAfter(rolls, rule, j).pushed, StateAfter(rolls, rule, n).pushed, j, n)
    decreases n
  {
    if n > j {
      PushedExtends(rolls, rule, j, n - 1);
      StepAppends(rolls, rule, n - 1);
      IndexOfOrder(n - 1);
      GrowsOneMore(StateAfter(rolls, rule, j).pushed, StateAfter(rolls, rule, n - 1).pushed,
                   StateAfter(rolls, rule, n).pushed, j, n - 1);
    }
  }

  /** `c` extends `a`, and what it adds is for indices in `j .. n-1`. */
  predicate GrowsFrom(a: seq<EmotionData>, c: seq<EmotionData>, j: nat, n: nat)
  {
    && |a| <= |c| && c[..|a|] == a
    && forall k :: |a| <= k < |c| ==> j <= IndexOf(c[k].emotion) < n
  }

  lemma GrowsOneMore(a: seq<EmotionData>, b: seq<EmotionData>, c: seq<EmotionData>, j: nat, i: nat)
    requires GrowsFrom(a, b, j, i) && j <= i
    requires |b| <= |c| <= |b| + 1 && c[..|b|] == b
    requires |c| == |b| + 1 ==> IndexOf(c[|b|].emotion) == i
    ensures GrowsFrom(a, c, j, i + 1)
  {
    assert c[..|a|] == b[..|a|];
    forall k | |a| <= k < |c|
      ensures j <= IndexOf(c[k].emotion) < i + 1
    {
      if k < |b| {
        assert c[k] == b[k];
      }
    }
  }

  /**
   A reading for `e` that is absent from `a`, from everything after `a'` in
   `p`, and appended by the step from `a` to `a'` if at all, is the sole
   reading for `e` in `p`.
   */
  lemma SoleReading(p: seq<EmotionData>, a: seq<EmotionData>, a': seq<EmotionData>, e: Emotion)
    requires |a| <= |a'| <= |a| + 1 && |a'| <= |p|
    requires p[..|a'|] == a' && a'[..|a|] == a
    requires forall m :: 0 <= m < |a| ==> a[m].emotion != e
    requires forall m :: |a'| <= m < |p| ==> IndexOf(p[m].emotion) != IndexOf(e)
    requires |a'| == |a| + 1 ==> a'[|a|].emotion == e
    ensures (exists m :: 0 <= m < |p| && p[m].emotion == e) <==> |a'| == |a| + 1
    ensures forall m :: 0 <= m < |p| && p[m].emotion == e ==> m == |a| && p[m] == a'[|a|]
  {
    forall m | 0 <= m < |a|
      ensures p[m] == a[m]
    {
      assert p[m] == a'[m];
    }
    if |a'| == |a| + 1 {
      assert p[|a|] == a'[|a|];
    }
  }

  /** Before index `i` is visited, no reading for it has been pushed. */
  lemma NoneBefore(rolls: seq<int>, rule: LastRule, i: nat)
    requires ValidRolls(rolls) && i < |Order| && i != rolls[0]
    ensures forall m :: 0 <= m < |StateAfter(rolls, rule, i).pushed| ==>
      StateAfter(rolls, rule, i).pushed[m].emotion != Order[i]
  {
    var s := StateAfter(rolls, rule, i).pushed;
    Invariant(rolls, rule, i);
    IndexOfOrder(i);
    IndexOfOrder(rolls[0]);
    forall m | 1 <= m < |s|
      ensures s[m].emotion != Order[i]
    {
      assert IndexOf(s[m].emotion) < i;
    }
  }

  /** The iteration for a share index pushes its clamped draw exactly when it is positive. */
  lemma ShareStep(rolls: seq<int>, rule: LastRule, i: nat)
    requires ValidRolls(rolls) && i < |Order|
    requires i != rolls[0] && i != LastSlot(rolls[0], rule)
    ensures var a := StateAfter(rolls, rule, i).pushed;
      var a' := StateAfter(rolls, rule, i + 1).pushed;
      && |a| <= |a'| <= |a| + 1 && a'[..|a|] == a
      && (|a'| == |a| + 1 <==> Share(rolls, rule, i) > 0)
      && (|a'| == |a| + 1 ==> a'[|a|] == EmotionData(Order[i], Share(rolls, rule, i)))
  {
    var last := LastSlot(rolls[0], rule);
    DrawsBeforeBound(rolls[0], last, i);
    assert StateAfter(rolls, rule, i + 1) == Step(rolls, last, i, StateAfter(rolls, rule, i));
  }

  /**
   Among the pushed readings, a share index appears exactly when its clamped
   draw is positive, and then with that clamped draw as its confidence.
   */
  lemma PushedShare(rolls: seq<int>, rule: LastRule, i: nat)
    requires ValidRolls(rolls) && i < |Order|
    requires i != rolls[0] && i != LastSlot(rolls[0], rule)
    ensures (exists m :: 0 <= m < |Pushed(rolls, rule)| && Pushed(rolls, rule)[m].emotion == Order[i])
        <==> Share(rolls, rule, i) > 0
    ensures forall m :: 0 <= m < |Pushed(rolls, rule)| && Pushed(rolls, rule)[m].emotion == Order[i] ==>
      Pushed(rolls, rule)[m] == EmotionData(Order[i], Share(rolls, rule, i))
  {
    var a := StateAfter(rolls, rule, i).pushed;
    var a' := StateAfter(rolls, rule, i + 1).pushed;
    var p := StateAfter(rolls, rule, |Order|).pushed;
    ShareStep(rolls, rule, i);
    NoneBefore(rolls, rule, i);
    PushedExtends(rolls, rule, i + 1, |Order|);
    IndexOfOrder(i);
    SoleReading(p, a, a', Order[i]);
    assert Pushed(rolls, rule) == p;
  }

  /** Readings for `e` are the same in any permutation. */
  lemma SameReadings(p: seq<EmotionData>, out: seq<EmotionData>, x: EmotionData)
    requires multiset(out) == multiset(p)
    requires forall m :: 0 <= m < |p| && p[m].emotion == x.emotion ==> p[m] == x
    ensures (exists k :: 0 <= k < |out| && out[k].emotion == x.emotion)
        <==> (exists m :: 0 <= m < |p| && p[m].emotion == x.emotion)
    ensures forall k :: 0 <= k < |out| && out[k].emotion == x.emotion ==> out[k] == x
  {
    forall k | 0 <= k < |out| && out[k].emotion == x.emotion
      ensures out[k] == x
    {
      assert out[k] in multiset(p);
    }
    if exists m :: 0 <= m < |p| && p[m].emotion == x.emotion {
      var m :| 0 <= m < |p| && p[m].emotion == x.emotion;
      assert p[m] in multiset(out);
    }
    if exists k :: 0 <= k < |out| && out[k].emotion == x.emotion {
      var k :| 0 <= k < |out| && out[k].emotion == x.emotion;
      assert out[k] in multiset(p);
      var m :| 0 <= m < |p| && p[m] == out[k];
    }
  }

  /**
   Every share index other than the last is reported exactly when its clamped
   draw `Math.min(remainingConfidence, draw)` is positive, and then with that
   clamped draw as its confidence.
   */
  lemma ShareReported(rolls: seq<int>, rule: LastRule, i: nat)
    requires ValidRolls(rolls) && i < |Order|
    requires i != rolls[0] && i != LastSlot(rolls[0], rule)
    ensures (exists k :: 0 <= k < |Detect(rolls, rule)| && Detect(rolls, rule)[k].emotion == Order[i])
        <==> Share(rolls, rule, i) > 0
    ensures forall k :: 0 <= k < |Detect(rolls, rule)| && Detect(rolls, rule)[k].emotion == Order[i] ==>
      Detect(rolls, rule)[k].confidence == Share(rolls, rule, i)
  {
    PushedShare(rolls, rule, i);
    SameReadings(Pushed(rolls, rule), Detect(rolls, rule), EmotionData(Order[i], Share(rolls, rule, i)));
  }

  /**
   As written, when `disgust` is not the dominant it is reported with exactly
   the final `remainingConfidence`.
   */
  lemma LeftoverIsDisgustShare(rolls: seq<int>)
    requires ValidRolls(rolls) && rolls[0] != |Order| - 1
    ensures EmotionData(Disgust, Leftover(rolls)) in MockEmotionDetection(rolls)
  {
    var w := StateAfter(rolls, AsWritten, |Order| - 1);
    var w' := StateAfter(rolls, AsWritten, |Order|);
    DrawsBeforeBound(rolls[0], |Order| - 1, |Order| - 1);
    assert w' == Step(rolls, |Order| - 1, |Order| - 1, w);
    var x := w'.pushed[|w.pushed|];
    assert x == EmotionData(Disgust, Leftover(rolls));
    assert x in multiset(Pushed(rolls, AsWritten));
    assert x in multiset(Detect(rolls, AsWritten));
  }

  /** When the last index is not the dominant, it is always reported, even with 0. */
  lemma LastAlwaysReported(rolls: seq<int>, rule: LastRule)
    requires ValidRolls(rolls)
    requires LastSlot(rolls[0], rule) != rolls[0]
    ensures exists k :: 0 <= k < |Detect(rolls, rule)| && Detect(rolls, rule)[k].emotion == Order[LastSlot(rolls[0], rule)]
  {
    var s := Pushed(rolls, rule);
    Invariant(rolls, rule, |Order|);
    assert Settled(rolls[0], LastSlot(rolls[0], rule), |Order|);
    assert HasShareAt(s, LastSlot(rolls[0], rule));
    var m :| 1 <= m < |s| && IndexOf(s[m].emotion) == LastSlot(rolls[0], rule);
    assert s[m] in multiset(Detect(rolls, rule));
  }

  /**
   The first reading, the one the detector shows as dominant, is either the
   drawn dominant or the last index: every other share is below 30.
   */
  lemma TopIsDominantOrLast(rolls: seq<int>, rule: LastRule)
    requires ValidRolls(rolls)
    ensures Detect(rolls, rule)[0].emotion == Order[rolls[0]]
         || Detect(rolls, rule)[0].emotion == Order[LastSlot(rolls[0], rule)]
  {
    var out := Detect(rolls, rule);
    DominantReported(rolls, rule);
    ShareConfidences(rolls, rule);
    var k :| 0 <= k < |out| && out[k] == EmotionData(Order[rolls[0]], DominantConfidence(rolls));
    assert out[0].confidence >= out[k].confidence;
  }

  /** Counterexample: the drawn dominant is not always first after sorting. */
  lemma DominantNotAlwaysFirst()
    ensures ValidRolls([0, 0, 0, 0, 0, 0, 0, 0])
    ensures MockEmotionDetection([0, 0, 0, 0, 0, 0, 0, 0])
         == [EmotionData(Disgust, 70), EmotionData(Happy, 30)]
  {
    var rolls := [0, 0, 0, 0, 0, 0, 0, 0];
    assert ValidRolls(rolls);
    var h := [EmotionData(Happy, 30)];
    assert StateAfter(rolls, AsWritten, 1) == Walk(h, 70, 2);
    assert StateAfter(rolls, AsWritten, 2) == Walk(h, 70, 3);
    assert StateAfter(rolls, AsWritten, 3) == Walk(h, 70, 4);
    assert StateAfter(rolls, AsWritten, 4) == Walk(h, 70, 5);
    assert StateAfter(rolls, AsWritten, 5) == Walk(h, 70, 6);
    assert StateAfter(rolls, AsWritten, 6) == Walk(h, 70, 7);
    assert StateAfter(rolls, AsWritten, 7) == Walk(h + [EmotionData(Disgust, 70)], 70, 7);
    assert SortDesc([EmotionData(Disgust, 70)]) == [EmotionData(Disgust, 70)];
  }

  /**
   Counterexample to "sums to 100": with `disgust` dominant at 30 and every
   share draw 0, the 70 left over is never assigned.
   */
  lemma DisgustDominantFallsShort()
    ensures ValidRolls([6, 0, 0, 0, 0, 0, 0, 0])
    ensures MockEmotionDetection([6, 0, 0, 0, 0, 0, 0, 0]) == [EmotionData(Disgust, 30)]
    ensures TotalConfidence(MockEmotionDetection([6, 0, 0, 0, 0, 0, 0, 0])) == 30
  {
    var rolls := [6, 0, 0, 0, 0, 0, 0, 0];
    assert ValidRolls(rolls);
    var g := [EmotionData(Disgust, 30)];
    assert StateAfter(rolls, AsWritten, 1) == Walk(g, 70, 3);
    assert StateAfter(rolls, AsWritten, 2) == Walk(g, 70, 4);
    assert StateAfter(rolls, AsWritten, 3) == Walk(g, 70, 5);
    assert StateAfter(rolls, AsWritten, 4) == Walk(g, 70, 6);
    assert StateAfter(rolls, AsWritten, 5) == Walk(g, 70, 7);
    assert StateAfter(rolls, AsWritten, 6) == Walk(g, 70, 8);
    assert StateAfter(rolls, AsWritten, 7) == Walk(g, 70, 8);
  }
}
