/** `EasyOcrWrapper._annotate` (app.py:27-76): one new view, one `contain`
    entry, then for each timeframe of the input view a TextDocument with its
    confidence and an Alignment from the timeframe to it. */
module EasyOcrApp {
  import opened Errors
  import opened Aggregation
  import opened Sampling
  import opened Mmif

  /** A TimeFrame annotation of the input view, with its `start` and `end`. */
  datatype TimeFrame = TimeFrame(id: Id, start: real, end: real)

  /** A decoded frame as the image array `extract_mid_frame` returns
      (rows of pixels of colour channels). */
  type Image = seq<seq<seq<bv8>>>

  /** The frame extractor and the OCR engine, both outside the model:
      `extract_mid_frame` and `reader.readtext`. */
  datatype Engine = Engine(extractMidFrame: TimeFrame -> Image, readText: Image -> seq<Detection>)

  /** What is emitted for one timeframe. */
  datatype Payload = Payload(text: string, confidence: real)

  /** How the run ends: it returns the document, or it raises. */
  datatype Outcome = Done | Failed(error: Error)

  /** The OCR result of the single-frame branch: the mid frame, recognised. */
  function MidFrameOcr(tf: TimeFrame, engine: Engine): seq<Detection>
  {
    engine.readText(engine.extractMidFrame(tf))
  }

  /** app.py:59-65 on one OCR result: the emitted text and the mean of the
      retained scores, or the division by zero when nothing is retained. */
  function MidFramePayload(ocr: seq<Detection>): (r: Result<Payload>)
    ensures r.Failure? <==> forall i :: 0 <= i < |ocr| ==> ocr[i].score <= Threshold
    ensures r.Failure? ==> r.error == ZeroDivision
    ensures r.Success? ==> r.value.text == EmittedText(ocr)
    ensures r.Success? ==> Confidence(Retained(ocr)) == Success(r.value.confidence)
    ensures r.Success? ==> r.value.confidence > Threshold
  {
    var scores := Retained(ocr);
    NothingRetained(ocr);
    match Confidence(scores)
    case Failure(e) => Failure(e)
    case Success(c) =>
      ConfidenceAbove(scores, Threshold);
      Success(Payload(EmittedText(ocr), c))
  }

  /** What one timeframe yields: a payload, or the error that aborts the run. */
  function FrameResult(tf: TimeFrame, sampleFrames: int, engine: Engine): (r: Result<Payload>)
    ensures sampleFrames == 1 ==> r == MidFramePayload(MidFrameOcr(tf, engine))
    ensures sampleFrames != 1 ==> r.Failure?
    ensures sampleFrames != 1 ==>
              (r.error == ZeroDivision <==> SampleCount(tf.start, tf.end, sampleFrames) == 0)
    ensures r.Failure? ==> r.error == ZeroDivision || r.error == NotImplemented
  {
    if sampleFrames == 1 then
      MidFramePayload(MidFrameOcr(tf, engine))
    else if SampleCount(tf.start, tf.end, sampleFrames) == 0 then
      Failure(ZeroDivision)
    else
      Failure(NotImplemented)
  }

  /** With `sampleFrames == 1` the payload depends on nothing but the OCR
      result of the one mid frame: not on the timeframe's id or bounds. */
  lemma MidFrameOcrIsSoleInput(tf1: TimeFrame, engine1: Engine, tf2: TimeFrame, engine2: Engine)
    requires MidFrameOcr(tf1, engine1) == MidFrameOcr(tf2, engine2)
    ensures FrameResult(tf1, 1, engine1) == FrameResult(tf2, 1, engine2)
  {
  }

  /** Timeframe `k` succeeded and annotations `2k` and `2k + 1` are its
      TextDocument and the Alignment from the timeframe to that document. */
  ghost predicate EmittedAt(viewId: nat, timeframes: seq<TimeFrame>, k: nat, sampleFrames: int,
                            engine: Engine, annotations: seq<Annotation>)
    requires k < |timeframes| && 2 * k + 1 < |annotations|
  {
    var r := FrameResult(timeframes[k], sampleFrames, engine);
    r.Success? &&
    annotations[2 * k] == TextDocumentNode(Id(viewId, 2 * k), r.value.text, r.value.confidence) &&
    annotations[2 * k + 1] == AlignmentNode(Id(viewId, 2 * k + 1), timeframes[k].id, Id(viewId, 2 * k))
  }

  /** The first `n` timeframes succeeded and the view holds, for each of them
      in order, its TextDocument followed by its Alignment, and nothing else. */
  ghost predicate EmittedFor(viewId: nat, timeframes: seq<TimeFrame>, n: nat, sampleFrames: int,
                             engine: Engine, annotations: seq<Annotation>)
  {
    n <= |timeframes| && |annotations| == 2 * n &&
    forall k: nat :: k < n ==> EmittedAt(viewId, timeframes, k, sampleFrames, engine, annotations)
  }

  /** Every Alignment the stage emits links one of the input timeframes to a
      TextDocument of the same view. */
  lemma AlignmentsResolve(viewId: nat, timeframes: seq<TimeFrame>, n: nat, sampleFrames: int,
                          engine: Engine, annotations: seq<Annotation>, j: int)
    requires EmittedFor(viewId, timeframes, n, sampleFrames, engine, annotations)
    requires 0 <= j < |annotations| && annotations[j].AlignmentNode?
    ensures exists k :: 0 <= k < |timeframes| && timeframes[k].id == annotations[j].source
    ensures exists i :: 0 <= i < |annotations| && annotations[i].TextDocumentNode? &&
                        annotations[i].id == annotations[j].target
  {
    var k: nat := j / 2;
    assert EmittedAt(viewId, timeframes, k, sampleFrames, engine, annotations);
    assert annotations[2 * k].TextDocumentNode?;
    assert j == 2 * k + 1;
  }

  /** Appending one successful timeframe's TextDocument and Alignment extends
      what was emitted by one timeframe. */
  lemma EmittedForExtend(viewId: nat, timeframes: seq<TimeFrame>, n: nat, sampleFrames: int,
                         engine: Engine, annotations: seq<Annotation>, p: Payload)
    requires EmittedFor(viewId, timeframes, n, sampleFrames, engine, annotations)
    requires n < |timeframes| && FrameResult(timeframes[n], sampleFrames, engine) == Success(p)
    ensures EmittedFor(viewId, timeframes, n + 1, sampleFrames, engine,
                       annotations + [TextDocumentNode(Id(viewId, 2 * n), p.text, p.confidence),
                                      AlignmentNode(Id(viewId, 2 * n + 1), timeframes[n].id, Id(viewId, 2 * n))])
  {
    var extended := annotations + [TextDocumentNode(Id(viewId, 2 * n), p.text, p.confidence),
                                   AlignmentNode(Id(viewId, 2 * n + 1), timeframes[n].id, Id(viewId, 2 * n))];
    forall k: nat | k < n + 1
      ensures EmittedAt(viewId, timeframes, k, sampleFrames, engine, extended)
    {
      if k < n {
        assert EmittedAt(viewId, timeframes, k, sampleFrames, engine, annotations);
        assert extended[2 * k] == annotations[2 * k];
        assert extended[2 * k + 1] == annotations[2 * k + 1];
      }
    }
  }

  /** app.py:43-65 for one timeframe: obtain the OCR result (or fail in the
      multi-frame branch), scan it, and take the mean of the kept scores. */
  method RecogniseTimeframe(tf: TimeFrame, sampleFrames: int, engine: Engine)
    returns (r: Result<Payload>)
    ensures r == FrameResult(tf, sampleFrames, engine)
  {
    var ocr: seq<Detection>;
    if sampleFrames == 1 {
      var image := engine.extractMidFrame(tf);
      ocr := engine.readText(image);
    } else {
      var plan := PlanSamples(tf.start, tf.end, sampleFrames);
      if plan.Failure? {
        return Failure(plan.error);
      }
      // The sampled frames would be extracted here; the branch is unfinished.
      return Failure(NotImplemented);
    }
    var text, scores := Aggregate(ocr);
    var score := Confidence(scores);
    if score.Failure? {
      return Failure(score.error);
    }
    r := Success(Payload(text, score.value));
  }

  /** The driver: a new view declaring the video document, then the timeframes
      in input order; the first failing timeframe aborts the run and leaves
      what the earlier ones appended. */
  method Annotate(mmif: MmifDocument, videoDoc: Id, timeframes: seq<TimeFrame>, sampleFrames: int,
                  engine: Engine)
    returns (view: View, outcome: Outcome)
    modifies mmif
    ensures fresh(view) && mmif.views == old(mmif.views) + [view]
    ensures forall w :: w in old(mmif.views) ==> w.id != view.id
    ensures forall w :: w in old(mmif.views) ==> unchanged(w)
    ensures view.contains == map[Relation := videoDoc]
    ensures view.Valid()
    ensures EmittedFor(view.id, timeframes, |view.annotations| / 2, sampleFrames, engine, view.annotations)
    ensures outcome == Done <==> |view.annotations| == 2 * |timeframes|
    ensures outcome.Failed? ==>
              FrameResult(timeframes[|view.annotations| / 2], sampleFrames, engine) == Failure(outcome.error)
  {
    view := mmif.NewView();
    view.NewContain(Relation, videoDoc);
    var i := 0;
    while i < |timeframes|
      invariant 0 <= i <= |timeframes|
      invariant fresh(view) && mmif.views == old(mmif.views) + [view]
      invariant view.contains == map[Relation := videoDoc]
      invariant view.Valid()
      invariant EmittedFor(view.id, timeframes, i, sampleFrames, engine, view.annotations)
    {
      var tf := timeframes[i];
      var result := RecogniseTimeframe(tf, sampleFrames, engine);
      if result.Failure? {
        assert |view.annotations| / 2 == i;
        return view, Failed(result.error);
      }
      ghost var before := view.annotations;
      EmittedForExtend(view.id, timeframes, i, sampleFrames, engine, before, result.value);
      var docId := view.NewTextDocument(result.value.text, result.value.confidence);
      var alignmentId := view.NewAlignment(tf.id, docId);
      assert docId == Id(view.id, 2 * i) && alignmentId == Id(view.id, 2 * i + 1);
      assert view.annotations == before + [TextDocumentNode(docId, result.value.text, result.value.confidence),
                                           AlignmentNode(alignmentId, tf.id, docId)];
      i := i + 1;
    }
    outcome := Done;
  }
}
