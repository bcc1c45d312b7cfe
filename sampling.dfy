/** The sample-count and stride arithmetic of the multi-frame branch
    (app.py:46-57), with Python's `int()` and `//` written out. */
module Sampling {
  import opened Errors

  /** Python's `int(x)` on a number: truncation toward zero. */
  function Trunc(x: real): (n: int)
    ensures 0.0 <= x ==> n as real <= x < n as real + 1.0
    ensures x < 0.0 ==> n as real - 1.0 < x <= n as real
  {
    if x >= 0.0 then x.Floor else -((-x).Floor)
  }

  /** Python's floor division `a // b`: the quotient rounded down, so the
      remainder takes the sign of the divisor. */
  function FloorDiv(a: int, b: int): (q: int)
    requires b != 0
    ensures b > 0 ==> q * b <= a < q * b + b
    ensures b < 0 ==> q * b + b < a <= q * b
  {
    // Dafny's `/` is Euclidean: its remainder `a % b` is never negative.
    if b < 0 && a % b != 0 then a / b - 1 else a / b
  }

  /** Python's `//` and Dafny's `/` agree for a positive divisor; for a
      negative one they agree exactly when the division leaves no remainder.
      The count is negative when the timeframe ends before it starts or when
      `sampleFrames` itself is negative (the parameter has no lower bound). */
  lemma FloorDivMatchesEuclidean(a: int, b: int)
    requires b != 0
    ensures b > 0 ==> FloorDiv(a, b) == a / b
    ensures b < 0 ==> (FloorDiv(a, b) == a / b <==> a % b == 0)
  {
  }

  /** The effective sample count: `sampleFrames`, lowered to the truncated
      length `int(end - start)` when the timeframe is shorter. */
  function SampleCount(start: real, end: real, sampleFrames: int): (c: int)
    ensures c <= sampleFrames && c <= Trunc(end - start)
    ensures c == sampleFrames || c == Trunc(end - start)
  {
    var length := Trunc(end - start);
    if length < sampleFrames then length else sampleFrames
  }

  /** The count and the stride (`sample_ratio`) the branch passes on. */
  datatype SamplePlan = SamplePlan(count: int, stride: int)

  /** app.py:47-52: `sample_frames` is reassigned in place, then the stride is
      `int(start + end) // sample_frames`; a count of zero raises. */
  method PlanSamples(start: real, end: real, sampleFrames: int) returns (r: Result<SamplePlan>)
    ensures r.Failure? <==> SampleCount(start, end, sampleFrames) == 0
    ensures r.Failure? ==> r.error == ZeroDivision
    ensures r.Success? ==> r.value.count == SampleCount(start, end, sampleFrames)
    ensures r.Success? ==> r.value.stride == FloorDiv(Trunc(start + end), r.value.count)
  {
    var length := Trunc(end - start);
    var count := sampleFrames;
    if length < count {
      count := length;
    }
    if count == 0 {
      return Failure(ZeroDivision);
    }
    var stride := FloorDiv(Trunc(start + end), count);
    r := Success(SamplePlan(count, stride));
  }

  /** The stride is taken from `start + end`, not from the interval's length:
      a timeframe from 100 to 200 sampled 10 times gets a stride of 30, not 10. */
  lemma StrideUsesSumOfBounds()
    ensures SampleCount(100.0, 200.0, 10) == 10
    ensures FloorDiv(Trunc(100.0 + 200.0), 10) == 30
    ensures FloorDiv(Trunc(200.0 - 100.0), 10) == 10
  {
  }
}
