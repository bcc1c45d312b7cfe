/** The detection filter and aggregator of one timeframe (app.py:59-65):
    the OCR result is scanned once, scores above 0.5 are kept, and the
    emitted confidence is their arithmetic mean. */
module Aggregation {
  import opened Errors

  /** A corner of the box EasyOCR reports around a detection. */
  datatype Point = Point(x: real, y: real)

  /** One `(coord, text, score)` triple of `readtext`'s result. */
  datatype Detection = Detection(coord: seq<Point>, text: string, score: real)

  /** A detection is kept when its score is strictly above this value. */
  const Threshold: real := 0.5

  /** The scores the loop appends to `scores`, in detection order. */
  function Retained(ocr: seq<Detection>): (r: seq<real>)
    ensures |r| <= |ocr|
    ensures forall k :: 0 <= k < |r| ==> r[k] > Threshold
  {
    if ocr == [] then []
    else
      var last := ocr[|ocr| - 1];
      Retained(ocr[..|ocr| - 1]) + (if last.score > Threshold then [last.score] else [])
  }

  /** Filtering distributes over concatenation: the retained scores keep the
      order the detections came in. */
  lemma {:induction false} RetainedAppend(a: seq<Detection>, b: seq<Detection>)
    ensures Retained(a + b) == Retained(a) + Retained(b)
  {
    if b == [] {
      assert a + b == a;
    } else {
      var b' := b[..|b| - 1];
      assert (a + b)[..|a + b| - 1] == a + b';
      RetainedAppend(a, b');
    }
  }

  /** A value is retained exactly when some detection carries it as a score
      above the threshold. */
  lemma {:induction false} RetainedMembership(ocr: seq<Detection>, x: real)
    ensures x in Retained(ocr) <==>
            exists i :: 0 <= i < |ocr| && ocr[i].score == x && x > Threshold
  {
    if ocr != [] {
      var init := ocr[..|ocr| - 1];
      RetainedMembership(init, x);
      if x in Retained(init) {
        var i :| 0 <= i < |init| && init[i].score == x && x > Threshold;
        assert ocr[i] == init[i];
      }
      if exists i :: 0 <= i < |ocr| && ocr[i].score == x && x > Threshold {
        var i :| 0 <= i < |ocr| && ocr[i].score == x && x > Threshold;
        if i < |init| {
          assert init[i] == ocr[i];
        }
      }
    }
  }

  /** Nothing is retained exactly when no score exceeds the threshold; this
      covers the empty OCR result too. */
  lemma {:induction false} NothingRetained(ocr: seq<Detection>)
    ensures Retained(ocr) == [] <==> forall i :: 0 <= i < |ocr| ==> ocr[i].score <= Threshold
  {
    if ocr != [] {
      var init := ocr[..|ocr| - 1];
      NothingRetained(init);
      assert forall i :: 0 <= i < |init| ==> init[i] == ocr[i];
    }
  }

  /** Python's `sum` over the score list, with exact arithmetic. */
  function Sum(s: seq<real>): real
  {
    if s == [] then 0.0 else Sum(s[..|s| - 1]) + s[|s| - 1]
  }

  /** `sum(scores) / len(scores)`: the mean, or a division by zero when the
      list is empty (the source does not guard it). */
  function Confidence(scores: seq<real>): (r: Result<real>)
    ensures r.Failure? <==> scores == []
    ensures r.Failure? ==> r.error == ZeroDivision
    ensures r.Success? ==> r.value * (|scores| as real) == Sum(scores)
  {
    if |scores| == 0 then Failure(ZeroDivision) else Success(Sum(scores) / (|scores| as real))
  }

  /** Scores above `lo` sum to more than `lo` per element. */
  lemma {:induction false} SumAbove(s: seq<real>, lo: real)
    requires s != []
    requires forall k :: 0 <= k < |s| ==> lo < s[k]
    ensures lo * (|s| as real) < Sum(s)
  {
    var init := s[..|s| - 1];
    if init != [] {
      assert forall k :: 0 <= k < |init| ==> init[k] == s[k];
      SumAbove(init, lo);
    }
  }

  /** Scores of at most `hi` sum to at most `hi` per element. */
  lemma {:induction false} SumAtMost(s: seq<real>, hi: real)
    requires forall k :: 0 <= k < |s| ==> s[k] <= hi
    ensures Sum(s) <= hi * (|s| as real)
  {
    if s != [] {
      var init := s[..|s| - 1];
      assert forall k :: 0 <= k < |init| ==> init[k] == s[k];
      SumAtMost(init, hi);
    }
  }

  /** The mean of scores above `lo` is above `lo`. */
  lemma ConfidenceAbove(scores: seq<real>, lo: real)
    requires scores != []
    requires forall k :: 0 <= k < |scores| ==> lo < scores[k]
    ensures Confidence(scores).Success? && lo < Confidence(scores).value
  {
    var n := |scores| as real;
    SumAbove(scores, lo);
    assert lo * n < Confidence(scores).value * n;
  }

  /** The mean of scores of at most `hi` is at most `hi`. */
  lemma ConfidenceAtMost(scores: seq<real>, hi: real)
    requires scores != []
    requires forall k :: 0 <= k < |scores| ==> scores[k] <= hi
    ensures Confidence(scores).Success? && Confidence(scores).value <= hi
  {
    var n := |scores| as real;
    SumAtMost(scores, hi);
    assert Confidence(scores).value * n <= hi * n;
  }

  /** Whenever a confidence is emitted it is above the threshold and no larger
      than the largest score of the timeframe. */
  lemma EmittedConfidenceBounds(ocr: seq<Detection>, hi: real)
    requires forall i :: 0 <= i < |ocr| ==> ocr[i].score <= hi
    requires Retained(ocr) != []
    ensures Confidence(Retained(ocr)).Success?
    ensures Threshold < Confidence(Retained(ocr)).value <= hi
  {
    var r := Retained(ocr);
    forall k | 0 <= k < |r| ensures r[k] <= hi {
      RetainedMembership(ocr, r[k]);
    }
    ConfidenceAbove(r, Threshold);
    ConfidenceAtMost(r, hi);
  }

  /** The value of `text` after the loop. The loop variable of the `for`
      statement is also called `text`, so each iteration overwrites the
      accumulator with the detection's own text; `text += text + " "`
      then doubles it. Only the last detection decides the result. */
  function EmittedText(ocr: seq<Detection>): string
  {
    if ocr == [] then ""
    else
      var last := ocr[|ocr| - 1];
      if last.score > Threshold then last.text + last.text + " " else last.text
  }

  /** Earlier detections have no effect on the emitted text. */
  lemma EarlierDetectionsIgnored(earlier: seq<Detection>, later: seq<Detection>)
    requires later != []
    ensures EmittedText(earlier + later) == EmittedText(later)
  {
    assert (earlier + later)[|earlier + later| - 1] == later[|later| - 1];
  }

  /** The inner loop of app.py:59-64, with the same shadowing of `text`. */
  method Aggregate(ocr: seq<Detection>) returns (text: string, scores: seq<real>)
    ensures scores == Retained(ocr)
    ensures text == EmittedText(ocr)
  {
    text := "";
    scores := [];
    var i := 0;
    while i < |ocr|
      invariant 0 <= i <= |ocr|
      invariant scores == Retained(ocr[..i])
      invariant text == EmittedText(ocr[..i])
    {
      var d := ocr[i];
      text := d.text;
      if d.score > Threshold {
        text := text + (text + " ");
        scores := scores + [d.score];
      }
      assert ocr[..i + 1][..i] == ocr[..i];
      i := i + 1;
    }
    assert ocr[..|ocr|] == ocr;
  }
}
