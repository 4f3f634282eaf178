/** The stats counter tween of the main page: every `.stat-value` element
    counts from 0 up to its `data-value` target in equal steps, one step per
    animation frame, and the last step is clamped onto the target.

    A frame is one loop iteration here; the frame scheduler, the wall clock
    and locale-aware number formatting are not modelled, and a displayed value
    is the integer written into the element. */
module StatsCounter {

  /** Total animation time in milliseconds. */
  const Duration: int := 1200
  /** Nominal frame interval in milliseconds the step size is derived from. */
  const FrameInterval: int := 16
  /** Number of nominal frames per animation: 1200 / 16 is exactly 75, so the
      floating-point division of the original is exact here. */
  const FrameCount: int := Duration / FrameInterval

  function Min(a: int, b: int): int
  {
    if a <= b then a else b
  }

  /** The fixed increment `Math.ceil(endValue / (duration / 16))`, for any
      integer target: the least integer whose multiple of 75 reaches it. */
  function Step(endValue: int): (step: int)
    ensures FrameCount * (step - 1) < endValue <= FrameCount * step
    ensures endValue >= 0 ==> step >= 0
    ensures endValue > 0 ==> step >= 1
    ensures endValue <= 0 ==> endValue <= step <= 0
  {
    -((-endValue) / FrameCount)
  }

  /** One run of `update`'s arithmetic: add the step, clamp to the target. */
  function Tick(current: int, step: int, endValue: int): int
  {
    if current + step > endValue then endValue else current + step
  }

  /** The value a tick writes never passes the target: it is the sum of the
      value and the step, clamped onto the target when the sum passes it. */
  lemma TickClamps(current: int, step: int, endValue: int)
    ensures Tick(current, step, endValue) <= endValue
    ensures Tick(current, step, endValue) == Min(current + step, endValue)
  {
  }

  /** The values one `update` chain writes, starting from `current`: one tick
      runs unconditionally, and another follows while the value written is
      still below the target. */
  function Shown(endValue: int, step: int, current: int): (shown: seq<int>)
    requires step > 0 || current + step >= endValue
    ensures |shown| >= 1
    ensures shown[|shown| - 1] == endValue
    ensures forall k :: 0 <= k < |shown| ==> shown[k] <= endValue
    ensures forall k :: 0 <= k < |shown| - 1 ==> shown[k] < shown[k + 1]
    ensures forall k :: 0 <= k < |shown| - 1 ==> shown[k] < endValue
    ensures step > 0 && current < endValue ==> current < shown[0]
    decreases endValue - current
  {
    var next := Tick(current, step, endValue);
    if next < endValue then [next] + Shown(endValue, step, next) else [next]
  }

  /** The displayed values of one counter animated from 0 to `endValue`. */
  function CounterValues(endValue: int): seq<int>
  {
    Shown(endValue, Step(endValue), 0)
  }

  /** Every displayed value is the step multiple for its frame, clamped to the
      target: the k-th written value is min(current + (k+1)*step, endValue). */
  lemma {:induction false} ShownClosedForm(endValue: int, step: int, current: int)
    requires step > 0 || current + step >= endValue
    ensures forall k :: 0 <= k < |Shown(endValue, step, current)| ==>
              Shown(endValue, step, current)[k] == Min(current + (k + 1) * step, endValue)
    decreases endValue - current
  {
    var shown := Shown(endValue, step, current);
    var next := Tick(current, step, endValue);
    if next < endValue {
      ShownClosedForm(endValue, step, next);
      var rest := Shown(endValue, step, next);
      assert shown == [next] + rest;
      forall k | 0 <= k < |shown|
        ensures shown[k] == Min(current + (k + 1) * step, endValue)
      {
        if k > 0 {
          assert shown[k] == rest[k - 1];
          assert next + k * step == current + (k + 1) * step;
        }
      }
    }
  }

  /** Number of frames: with a positive step and the target still ahead, the
      chain runs ceil((endValue - current) / step) ticks, i.e. the least n
      with current + n * step reaching the target. */
  lemma {:induction false} ShownLength(endValue: int, step: int, current: int)
    requires step > 0 && current < endValue
    ensures var n := |Shown(endValue, step, current)|;
            step * (n - 1) < endValue - current <= step * n
    decreases endValue - current
  {
    var next := Tick(current, step, endValue);
    if next < endValue {
      assert next == current + step;
      ShownLength(endValue, step, next);
      var m := |Shown(endValue, step, next)|;
      assert |Shown(endValue, step, current)| == m + 1;
      assert step * (m - 1) + step == step * m;
      assert step * (m + 1) == step * m + step;
    } else {
      assert |Shown(endValue, step, current)| == 1;
      assert endValue - current <= step;
    }
  }

  /** A positive target is reached after ceil(endValue / step) frames; a
      target of zero or below is written on the first frame, which ends the
      chain. */
  lemma CounterFrameCount(endValue: int)
    ensures endValue > 0 ==>
              var n := |CounterValues(endValue)|;
              Step(endValue) * (n - 1) < endValue <= Step(endValue) * n
    ensures endValue <= 0 ==> CounterValues(endValue) == [endValue]
  {
    if endValue > 0 {
      ShownLength(endValue, Step(endValue), 0);
    }
  }

  lemma MulMonotone(a: int, b: int, c: int)
    requires a >= 0 && b <= c
    ensures a * b <= a * c
  {
    assert a * c - a * b == a * (c - b);
  }

  /** With a positive target the chain is pinned down by its step and its
      length n, the least with n * step reaching the target: the k-th value
      is (k+1) * step clamped to the target. */
  lemma CounterValuesFromStep(endValue: int, step: int, n: int)
    requires endValue > 0 && step == Step(endValue)
    requires step * (n - 1) < endValue <= step * n
    ensures |CounterValues(endValue)| == n
    ensures forall k :: 0 <= k < n ==> CounterValues(endValue)[k] == Min((k + 1) * step, endValue)
  {
    var v := CounterValues(endValue);
    CounterFrameCount(endValue);
    var m := |v|;
    if m < n {
      MulMonotone(step, m, n - 1);
    } else if m > n {
      MulMonotone(step, n, m - 1);
    }
    ShownClosedForm(endValue, step, 0);
  }

  /** Target 1000: step 14, 72 frames; frame 71 shows 994 and frame 72
      computes 1008 and clamps it to 1000. */
  lemma ThousandScenario()
    ensures Step(1000) == 14
    ensures |CounterValues(1000)| == 72
    ensures CounterValues(1000)[70] == 994
    ensures CounterValues(1000)[71] == 1000
  {
    assert FrameCount == 75;
    CounterValuesFromStep(1000, 14, 72);
  }

  /** Target 7: step 1 and the values 1, 2, ..., 7. */
  lemma SevenScenario()
    ensures CounterValues(7) == [1, 2, 3, 4, 5, 6, 7]
  {
    assert FrameCount == 75;
    CounterValuesFromStep(7, 1, 7);
  }

  /** Target 0: step 0 and a single frame that writes 0. */
  lemma ZeroScenario()
    ensures Step(0) == 0
    ensures CounterValues(0) == [0]
  {
  }

  lemma ConcatAssoc(a: seq<int>, b: seq<int>, c: seq<int>)
    ensures a + (b + c) == (a + b) + c
  {
  }

  /** `animateStats` for one counter, written as the frame loop: the value is
      bumped once, then again on every frame while it is below the target. */
  method AnimateCounter(endValue: int) returns (shown: seq<int>)
    ensures shown == CounterValues(endValue)
    ensures |shown| >= 1 && shown[|shown| - 1] == endValue
    ensures forall k :: 0 <= k < |shown| ==> shown[k] <= endValue
    ensures forall k :: 0 <= k < |shown| - 1 ==> shown[k] < shown[k + 1]
  {
    var step := Step(endValue);
    var current := Tick(0, step, endValue);
    assert CounterValues(endValue) ==
           [current] + (if current < endValue then Shown(endValue, step, current) else []);
    shown := [current];
    while current < endValue
      invariant step > 0 || current >= endValue
      invariant current <= endValue
      invariant CounterValues(endValue) ==
                shown + (if current < endValue then Shown(endValue, step, current) else [])
      decreases endValue - current
    {
      assert step > 0;
      var next := Tick(current, step, endValue);
      ghost var rest: seq<int> := if next < endValue then Shown(endValue, step, next) else [];
      assert Shown(endValue, step, current) == [next] + rest;
      ConcatAssoc(shown, [next], rest);
      current := next;
      shown := shown + [current];
    }
  }

  /** `animateStats`: every `.stat-value` element of the page (collected
      once at load) runs its own chain and ends on its own target. */
  method AnimateStats(targets: seq<int>) returns (runs: seq<seq<int>>)
    ensures |runs| == |targets|
    ensures forall i :: 0 <= i < |targets| ==> runs[i] == CounterValues(targets[i])
    ensures forall i :: 0 <= i < |targets| ==>
              |runs[i]| >= 1 && runs[i][|runs[i]| - 1] == targets[i]
  {
    runs := [];
    var i := 0;
    while i < |targets|
      invariant 0 <= i <= |targets|
      invariant |runs| == i
      invariant forall j :: 0 <= j < i ==> runs[j] == CounterValues(targets[j])
    {
      var one := AnimateCounter(targets[i]);
      runs := runs + [one];
      i := i + 1;
    }
  }
}
