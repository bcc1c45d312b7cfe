# EasyOCR wrapper: the annotation loop

A Dafny model of `EasyOcrWrapper._annotate`, the annotation stage of a CLAMS app
that runs EasyOCR on video timeframes. The method takes an MMIF document and
creates one new view. The view declares a `contain` entry for `Relation` that
points at the video document. Then, for each TimeFrame annotation of the input
view, in input order, the method:

- recognises the mid frame of the timeframe (when `sampleFrames == 1`);
- keeps the detection scores strictly above 0.5 and takes their mean as the
  confidence;
- appends one TextDocument with that confidence to the view;
- appends one Alignment from the timeframe to that TextDocument.

The model follows the code as written, including three behaviours that look
unintended:

- The loop variable `text` shadows the accumulator of the same name. The
  emitted text therefore depends only on the last detection: it is `t + t + " "`
  when that detection's score is above 0.5, and `t` otherwise.
- The mean is not guarded. When no score passes the threshold, including when
  the OCR result is empty, the run raises a division by zero.
- The multi-frame branch (`sampleFrames != 1`) clamps the count to
  `int(end - start)` and computes the stride from `int(start + end)`, not from
  the interval's length. It then always raises: `ZeroDivisionError` for a count
  of 0 and `NotImplementedError` otherwise.

Modules:

- `Errors`: the two errors (`ZeroDivision`, `NotImplemented`) and a `Result` type.
- `Aggregation`: detections, the score filter `Retained`, `Sum`, the mean
  `Confidence`, the emitted text `EmittedText`, and the inner loop as the method
  `Aggregate`, proved against them.
- `Sampling`: Python's `int()` (`Trunc`) and `//` (`FloorDiv`), the effective
  count `SampleCount`, and the in-place count/stride computation `PlanSamples`.
- `Mmif`: the MMIF document (`MmifDocument`) and a view (`View`) whose
  annotation list only grows. Annotation `k` of view `v` has id `Id(v, k)`, and
  view ids are chosen fresh.
- `EasyOcrApp`: timeframes, the frame extractor and OCR engine as abstract
  functions (`Engine`), the result of one timeframe (`FrameResult`), its
  computation (`RecogniseTimeframe`), and the driver `Annotate`.

`Annotate` proves the following. The new view is the only view added, and it is
fresh. Existing views are unchanged. The view's `contains` is exactly
`Relation ↦ video document`. For every processed timeframe `k`, annotation `2k`
is its TextDocument and annotation `2k + 1` is the Alignment from its id to that
TextDocument's id. The run ends `Done` exactly when every timeframe was
processed. Otherwise the timeframe after the last processed one failed with the
reported error, and the annotations appended before it remain.

## Model

| member | source | states |
|---|---|---|
| `Aggregation.Retained` | app.py:60-64 | every kept score is strictly above 0.5, and no more scores are kept than there are detections |
| `Aggregation.RetainedAppend` | app.py:61-64 | filtering distributes over concatenation, so kept scores stay in detection order |
| `Aggregation.RetainedMembership` | app.py:61-64 | a value is kept if and only if some detection has it as a score above 0.5 |
| `Aggregation.NothingRetained` | app.py:61-65 | the score list is empty if and only if no detection scores above 0.5 (including the empty OCR result) |
| `Aggregation.Confidence` | app.py:65 | `sum(scores) / len(scores)` fails with a division by zero exactly when the list is empty; otherwise the mean times the count equals the sum |
| `Aggregation.ConfidenceAbove` | app.py:62-65 | the mean of scores that all exceed a bound exceeds that bound |
| `Aggregation.ConfidenceAtMost` | app.py:65 | the mean of scores that are all at most a bound is at most that bound |
| `Aggregation.EmittedConfidenceBounds` | app.py:61-65 | when some score is kept, the confidence is defined, above 0.5, and at most the largest detection score |
| `Aggregation.EarlierDetectionsIgnored` | app.py:59-63 | because of the shadowed `text`, detections before the last one do not affect the emitted text |
| `Aggregation.Aggregate` | app.py:59-64 | the loop yields exactly the kept scores (`Retained`) and the shadowed text (`EmittedText`): `""` for no detections, `t + t + " "` when the last detection has text `t` and a score above 0.5, and `t` otherwise |
| `Sampling.Trunc` | app.py:47 | `int()` truncates toward zero: the result is within 1 of the argument, on the zero side |
| `Sampling.FloorDiv` | app.py:51-52 | `//` rounds the quotient down: the remainder lies between 0 and the divisor, taking the divisor's sign |
| `Sampling.FloorDivMatchesEuclidean` | app.py:51-52 | Python's `//` and Dafny's Euclidean `/` agree for every positive divisor; for a negative divisor they agree exactly when the division leaves no remainder |
| `Sampling.SampleCount` | app.py:47-50 | the effective count is the smaller of `sampleFrames` and `int(end - start)` |
| `Sampling.PlanSamples` | app.py:47-52 | the in-place clamp fails with a division by zero exactly when the effective count is 0; otherwise the stride is `int(start + end) // count` |
| `Sampling.StrideUsesSumOfBounds` | app.py:51-52 | for a timeframe from 100 to 200 with 10 samples, the stride is 30 (from `start + end`), not 10 (from the length) |
| `Mmif.MmifDocument.NewView` | app.py:33 | the new view is fresh and empty, has an id no existing view has, and is appended to the view list |
| `Mmif.View.NewContain` | app.py:35-38 | declares the type with its document unless that type is already declared; annotations are untouched |
| `Mmif.View.NewTextDocument` | app.py:69-70 | appends exactly one TextDocument with the text and confidence under a fresh id and returns that id |
| `Mmif.View.NewAlignment` | app.py:71-73 | appends exactly one Alignment with the given source and target under a fresh id and returns that id |
| `Mmif.DistinctIds` | app.py:69-73 | two annotations of one view never share an id |
| `EasyOcrApp.MidFramePayload` | app.py:59-65 | one OCR result fails with a division by zero if and only if no score is above 0.5; otherwise its text is the emitted text and its confidence is the mean of the kept scores, above 0.5 |
| `EasyOcrApp.FrameResult` | app.py:43-65 | with `sampleFrames == 1` the mid frame's OCR result decides the payload; otherwise the timeframe always fails, with a division by zero exactly when the effective count is 0 and with NotImplemented otherwise |
| `EasyOcrApp.MidFrameOcrIsSoleInput` | app.py:43-45 | with `sampleFrames == 1` the payload depends on nothing but the mid frame's OCR result |
| `EasyOcrApp.RecogniseTimeframe` | app.py:43-65 | the per-timeframe computation (extraction and recognition, or the multi-frame branch, then the loop and the mean) yields exactly `FrameResult` |
| `EasyOcrApp.AlignmentsResolve` | app.py:69-73 | every emitted Alignment has an input timeframe as its source and a TextDocument of the same view as its target |
| `EasyOcrApp.EmittedForExtend` | app.py:69-73 | appending one TextDocument and then its Alignment for the next successful timeframe extends the emitted prefix by exactly that timeframe |
| `EasyOcrApp.Annotate` | app.py:27-76 | the only change to the document is one new view, whose `contains` is `Relation ↦ video document`; timeframes are handled in input order, each success appends its TextDocument then its Alignment, and the first failure stops the run and keeps what was appended |

## Left out

- Constructing the EasyOCR reader and choosing CUDA or CPU (app.py:15-18): a foreign model and hardware.
- `readtext` and `vdh.extract_mid_frame` (app.py:44-45): the fields of `Engine`, functions with no interpretation. Exceptions they might raise are not modelled.
- `vdh.sample_frames` and `vdh.extract_frames_as_images` (app.py:53-55): video decoding in a library that is not part of this model. They are assumed to return normally, so the branch reaches `raise NotImplementedError` whenever the count is not 0. Their results are never used.
- Looking up the video document and the input view (app.py:29-30): `videoDoc` and `timeframes` are parameters. The `IndexError` that an MMIF without a video document or input view would raise is not modelled.
- `get_configuration` and `sign_view` (app.py:32, 34): configuration parsing and view signing. `sampleFrames` is a parameter.
- The mmif library's id strings (`v_N`, `td_N`, ...) and the `contain` entries it adds on its own for TextDocument and Alignment: library internals. Ids are the fresh, distinct values `Id(view, serial)`, and `contains` holds only what `_annotate` itself declares.
- `new_textdocument` followed by `add_property("confidence", ...)` is one call, `NewTextDocument`, because nothing observes the document in between. Likewise `NewAlignment` takes its `source` and `target` directly.
- Mutable annotation objects and aliasing inside the MMIF library: annotations are values in the view's list.
- `print` and the logger calls (app.py:28, 41, 66): output only.
- The command-line entry point and the `Restifier` HTTP service (app.py:79-98): network and CLI plumbing.
- `_appmetadata` and metadata.py: declarative app metadata with no decisions.
- Floating-point rounding: scores, the sum and the mean are exact `real`s, and timeframe bounds are `real`s.
- Python's handling of non-finite numbers (`int()` of an infinity or NaN) is not modelled.
