/**
 The history panel's buffer: the functional `setHistory` updater that appends
 the current dominant reading and keeps only the newest 50 entries, and the
 effect that decides whether to call it. `Date.now()` becomes the parameter
 `now`.
 */
module History {
  import opened Emotions

  /** Most entries the buffer keeps. */
  const Capacity := 50

  /** `EmotionHistoryData`: a timestamped dominant reading. */
  datatype HistoryEntry = HistoryEntry(timestamp: int, emotion: Emotion, confidence: int)

  /** A nullable prop (`EmotionData | null`). */
  datatype Option<T> = None | Some(value: T)

  /** Reference: the newest `min(|s|, Capacity)` elements of `s`, in order. */
  function Newest(s: seq<HistoryEntry>): (r: seq<HistoryEntry>)
    ensures |r| <= Capacity
  {
    var n := if |s| < Capacity then |s| else Capacity;
    s[|s| - n..]
  }

  /**
   The updater passed to `setHistory`: append, then slice off the oldest
   entries when there are more than 50.
   */
  function Append(prev: seq<HistoryEntry>, entry: HistoryEntry): (r: seq<HistoryEntry>)
    ensures 1 <= |r| <= Capacity
    ensures r[|r| - 1] == entry
    ensures r == Newest(prev + [entry])
    ensures |prev| < Capacity ==> r == prev + [entry]
    ensures |prev| == Capacity ==> r == prev[1..] + [entry]
  {
    var newHistory := prev + [entry];
    if |newHistory| > Capacity then newHistory[|newHistory| - Capacity..] else newHistory
  }

  /**
   The entry recorded for a dominant reading at time `now`: the reading's
   emotion and confidence, unchanged, stamped with `now`.
   */
  function EntryOf(now: int, x: EmotionData): (r: HistoryEntry)
    ensures r.timestamp == now && EmotionData(r.emotion, r.confidence) == x
  {
    HistoryEntry(now, x.emotion, x.confidence)
  }

  /**
   One run of the recording effect: the buffer changes only when the panel is
   active and a dominant reading is present; there is no reset when the panel
   turns inactive.
   */
  function Record(prev: seq<HistoryEntry>, isActive: bool, dominant: Option<EmotionData>, now: int)
    : (r: seq<HistoryEntry>)
    ensures !isActive || dominant.None? ==> r == prev
    ensures isActive && dominant.Some? ==>
      |r| >= 1 && r[|r| - 1] == EntryOf(now, dominant.value) && r == Newest(prev + [EntryOf(now, dominant.value)])
    ensures |prev| <= Capacity ==> |r| <= Capacity
  {
    if isActive && dominant.Some? then Append(prev, EntryOf(now, dominant.value)) else prev
  }

  /** The inputs of one run of the recording effect. */
  datatype Tick = Tick(isActive: bool, dominant: Option<EmotionData>, now: int)

  /**
   Runs the recording effect once per tick, in order. A buffer within
   capacity stays within capacity; it never shrinks except down to exactly
   `Capacity` entries; and it grows by at most the number of ticks that
   record something.
   */
  function Replay(h: seq<HistoryEntry>, ticks: seq<Tick>): (r: seq<HistoryEntry>)
    ensures |h| <= Capacity ==> |r| <= Capacity
    ensures |h| <= |r| || |r| == Capacity
    ensures |r| <= |h| + |Recorded(ticks)| <= |h| + |ticks|
    decreases |ticks|
  {
    if ticks == [] then h
    else Replay(Record(h, ticks[0].isActive, ticks[0].dominant, ticks[0].now), ticks[1..])
  }

  /** The entries the ticks would record if nothing were ever dropped. */
  function Recorded(ticks: seq<Tick>): seq<HistoryEntry>
  {
    if ticks == [] then []
    else
      (if ticks[0].isActive && ticks[0].dominant.Some?
       then [EntryOf(ticks[0].now, ticks[0].dominant.value)] else [])
      + Recorded(ticks[1..])
  }

  /** Trimming first and trimming once at the end keep the same newest entries. */
  lemma NewestOfNewest(s: seq<HistoryEntry>, u: seq<HistoryEntry>)
    ensures Newest(Newest(s) + u) == Newest(s + u)
  {
    var a := Newest(s) + u;
    var b := s + u;
    assert a == b[|b| - |a|..];
    var na := if |a| < Capacity then |a| else Capacity;
    var nb := if |b| < Capacity then |b| else Capacity;
    assert na == nb;
    assert a[|a| - na..] == b[|b| - nb..];
  }

  lemma ConcatAssoc(a: seq<HistoryEntry>, b: seq<HistoryEntry>, c: seq<HistoryEntry>)
    ensures (a + b) + c == a + (b + c)
  {
  }

  /**
   From a buffer within capacity, any run of ticks leaves exactly the newest
   50 of the old buffer followed by everything recorded, in order.
   */
  lemma {:induction false} ReplayKeepsNewest(h: seq<HistoryEntry>, ticks: seq<Tick>)
    requires |h| <= Capacity
    ensures Replay(h, ticks) == Newest(h + Recorded(ticks))
    ensures |Replay(h, ticks)| <= Capacity
    decreases |ticks|
  {
    if ticks == [] {
      assert h + [] == h;
    } else {
      var t := ticks[0];
      var head := if t.isActive && t.dominant.Some? then [EntryOf(t.now, t.dominant.value)] else [];
      var rest := Recorded(ticks[1..]);
      var h' := Record(h, t.isActive, t.dominant, t.now);
      assert h' == Newest(h + head) by {
        if head == [] {
          assert h + head == h;
        }
      }
      assert Replay(h, ticks) == Replay(h', ticks[1..]);
      ReplayKeepsNewest(h', ticks[1..]);
      NewestOfNewest(h + head, rest);
      var all := Recorded(ticks);
      assert all == head + rest;
      ConcatAssoc(h, head, rest);
    }
  }

  /**
   Recording 60 readings on an empty buffer keeps the last 50 of them: the
   first ten are evicted.
   */
  lemma SixtyRecordsKeepLastFifty(ticks: seq<Tick>)
    requires |ticks| == 60
    requires forall k :: 0 <= k < |ticks| ==> ticks[k].isActive && ticks[k].dominant.Some?
    ensures |Recorded(ticks)| == 60 && Replay([], ticks) == Recorded(ticks)[10..]
  {
    RecordedAll(ticks);
    ReplayKeepsNewest([], ticks);
    assert [] + Recorded(ticks) == Recorded(ticks);
  }

  lemma {:induction false} RecordedAll(ticks: seq<Tick>)
    requires forall k :: 0 <= k < |ticks| ==> ticks[k].isActive && ticks[k].dominant.Some?
    ensures |Recorded(ticks)| == |ticks|
  {
    if ticks != [] {
      RecordedAll(ticks[1..]);
    }
  }
}
