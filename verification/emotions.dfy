/**
 The vocabulary shared by the detector and the history panel: the closed
 `Emotion` union, the order in which the detector walks it, the label strings
 the history panel uses as dictionary keys, and one (emotion, confidence)
 reading.
 */
module Emotions {

  /** The seven members of the `Emotion` string-literal union. */
  datatype Emotion = Happy | Sad | Angry | Neutral | Surprised | Fear | Disgust

  /** The detector's `emotions` array: the order in which it hands out shares. */
  const Order: seq<Emotion> := [Happy, Sad, Angry, Neutral, Surprised, Fear, Disgust]

  /** Position of an emotion in `Order`; the inverse of indexing `Order`. */
  function IndexOf(e: Emotion): (i: nat)
    ensures i < |Order| && Order[i] == e
  {
    match e
    case Happy => 0
    case Sad => 1
    case Angry => 2
    case Neutral => 3
    case Surprised => 4
    case Fear => 5
    case Disgust => 6
  }

  /** Indexing `Order` and `IndexOf` are mutually inverse, so `Order` has no repeats. */
  lemma IndexOfOrder(i: nat)
    requires i < |Order|
    ensures IndexOf(Order[i]) == i
  {
  }

  /** The string literal that stands for an emotion at run time. */
  function Name(e: Emotion): string
  {
    match e
    case Happy => "happy"
    case Sad => "sad"
    case Angry => "angry"
    case Neutral => "neutral"
    case Surprised => "surprised"
    case Fear => "fear"
    case Disgust => "disgust"
  }

  /** Distinct emotions have distinct labels, so keying by label is keying by emotion. */
  lemma NameInjective(a: Emotion, b: Emotion)
    ensures Name(a) == Name(b) ==> a == b
  {
  }

  /** `EmotionData`: one emotion with its confidence in percent. */
  datatype EmotionData = EmotionData(emotion: Emotion, confidence: int)

  /** Sum of the confidences of a sequence of readings. */
  function TotalConfidence(s: seq<EmotionData>): int
  {
    if s == [] then 0 else s[0].confidence + TotalConfidence(s[1..])
  }

  lemma {:induction false} TotalConfidenceAppend(s: seq<EmotionData>, x: EmotionData)
    ensures TotalConfidence(s + [x]) == TotalConfidence(s) + x.confidence
  {
    if s != [] {
      assert (s + [x])[1..] == s[1..] + [x];
      TotalConfidenceAppend(s[1..], x);
    }
  }
}
