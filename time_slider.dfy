/** The step state of the `TimeSlider` component
    (src/components/TimeSlider/TimeSlider.tsx): which list of steps it
    shows, where it starts, and how the selected step moves under the
    prev/next buttons, a click on the gauge and the auto-play timer. */
module TimeSliderComponent {
  import opened Wrappers
  import opened TimeSliderTypes
  import opened TimeSteps
  import opened TimeIndex

  /** The `steps` prop: absent, a list of dates, or a function building one
      from the configuration. */
  datatype StepSource =
    | Generated
    | StepList(list: seq<Timestamp>)
    | StepFunction(build: (Timestamp, Timestamp, int, TimeUnit) -> seq<Timestamp>)

  /** `calculatedSteps`: a given list wins, even an empty one (an array is
      truthy); a given function is called with the configuration; only
      without a `steps` prop are the steps generated. */
  function CalculatedSteps(source: StepSource, start: Timestamp, end: Timestamp, stepValue: int, stepUnit: TimeUnit, advance: Advance): (r: seq<Timestamp>)
    requires source.Generated? ==> start > end || MovesForward(advance, stepUnit, stepValue)
    ensures source.StepList? ==> r == source.list
    ensures source.StepFunction? ==> r == source.build(start, end, stepValue, stepUnit)
    ensures source.Generated? ==> (r == [] <==> start > end)
    ensures source.Generated? && start <= end ==> r[0] == start
    ensures source.Generated? ==> forall i :: 0 <= i < |r| ==> start <= r[i] <= end
  {
    match source
    case Generated =>
      StepsShape(start, end, stepValue, stepUnit, advance);
      StepsFrom(start, end, stepValue, stepUnit, advance)
    case StepList(list) => list
    case StepFunction(build) => build(start, end, stepValue, stepUnit)
  }

  /** `initialTimestamp`: `initialDate` when it is exactly one of the steps,
      otherwise `start`. */
  function InitialTimestamp(initialDate: Option<Timestamp>, steps: seq<Timestamp>, start: Timestamp): (r: Timestamp)
    ensures r == start || (initialDate == Some(r) && r in steps)
    ensures initialDate.Some? && initialDate.value in steps ==> r == initialDate.value
    ensures (initialDate.None? || initialDate.value !in steps) ==> r == start
  {
    if initialDate.Some? && initialDate.value in steps then initialDate.value else start
  }

  /** `Math.abs(a - b)` */
  function Distance(a: Timestamp, b: Timestamp): nat
  {
    if a >= b then a - b else b - a
  }

  /** The `reduce` of `initialStepIndex` over the first `n` steps, starting
      from index 0: an index of a step nearest to `t`, the earliest one on a
      tie because the comparison is strict. */
  function NearestPrefix(steps: seq<Timestamp>, t: Timestamp, n: nat): (r: nat)
    requires n <= |steps|
    decreases n
    ensures n == 0 ==> r == 0
    ensures n > 0 ==> r < n
    ensures forall j :: 0 <= j < n ==> Distance(steps[r], t) <= Distance(steps[j], t)
    ensures forall j :: 0 <= j < r ==> Distance(steps[r], t) < Distance(steps[j], t)
  {
    if n == 0 then 0
    else
      var prev := NearestPrefix(steps, t, n - 1);
      if Distance(steps[n - 1], t) < Distance(steps[prev], t) then n - 1 else prev
  }

  /** `initialStepIndex`; 0 for an empty list, where `reduce` returns its
      initial value. */
  function InitialStepIndex(steps: seq<Timestamp>, t: Timestamp): nat
  {
    NearestPrefix(steps, t, |steps|)
  }

  /** When `t` is a step, the initial index is its first occurrence. */
  lemma InitialStepIndexFindsStep(steps: seq<Timestamp>, t: Timestamp)
    requires t in steps
    ensures var r := InitialStepIndex(steps, t);
      r < |steps| && steps[r] == t && t !in steps[..r]
  {
    var r := InitialStepIndex(steps, t);
    var k :| 0 <= k < |steps| && steps[k] == t;
    assert Distance(steps[r], t) <= Distance(steps[k], t);
    forall j | 0 <= j < r ensures steps[..r][j] != t {
      assert Distance(steps[r], t) < Distance(steps[j], t);
    }
  }

  /** With generated steps and `start <= end`, the slider starts on the step
      `initialDate` names when it is one, and on the first step otherwise. */
  lemma GeneratedStartIndex(start: Timestamp, end: Timestamp, stepValue: int, stepUnit: TimeUnit, advance: Advance, initialDate: Option<Timestamp>)
    requires MovesForward(advance, stepUnit, stepValue)
    requires start <= end
    ensures var steps := CalculatedSteps(Generated, start, end, stepValue, stepUnit, advance);
      var r := InitialStepIndex(steps, InitialTimestamp(initialDate, steps, start));
      && r < |steps|
      && (initialDate.Some? && initialDate.value in steps ==> steps[r] == initialDate.value)
      && (initialDate.None? ==> r == 0)
  {
    var steps := CalculatedSteps(Generated, start, end, stepValue, stepUnit, advance);
    var t := InitialTimestamp(initialDate, steps, start);
    assert t in steps by {
      if t == start {
        assert steps[0] == start;
      }
    }
    InitialStepIndexFindsStep(steps, t);
    if initialDate.None? {
      assert Distance(steps[0], t) == 0;
    }
  }

  /** `handleNext`: one step on while there is one. */
  function NextIndex(i: int, length: nat): (r: int)
    ensures r == i + 1 <==> i + 1 < length
    ensures r == i <==> i + 1 >= length
    ensures 0 <= i < length ==> 0 <= r < length
  {
    if i + 1 < length then i + 1 else i
  }

  /** `handlePrev`: one step back except at index 0. */
  function PrevIndex(i: int): (r: int)
    ensures r == i - 1 <==> i != 0
    ensures r == i <==> i == 0
    ensures i >= 0 ==> 0 <= r <= i
  {
    if i == 0 then i else i - 1
  }

  /** Back after forward, and forward after back, return to the same step. */
  lemma NextPrevInverse(i: int, length: nat)
    ensures 0 <= i && i + 1 < length ==> PrevIndex(NextIndex(i, length)) == i
    ensures 0 < i < length ==> NextIndex(PrevIndex(i), length) == i
  {
  }

  /** The interval callback: the next index while there is one, and at the
      last index the same index with the timer switched off. */
  function TickStep(i: int, length: nat): (r: (int, bool))
    ensures r.1 <==> i + 1 < length
    ensures r.1 ==> r.0 == i + 1
    ensures !r.1 ==> r.0 == i
  {
    var next := i + 1;
    if next < length then (next, true) else (i, false)
  }

  /** `k` timer ticks from index `i` (the timer fires only while running). */
  function Play(i: int, running: bool, length: nat, k: nat): (int, bool)
    decreases k
  {
    if k == 0 || !running then (i, running)
    else
      var s := TickStep(i, length);
      Play(s.0, s.1, length, k - 1)
  }

  /** Auto-play from a valid index runs to the last step, still playing,
      after `length - 1 - i` ticks, and the next tick stops it there. */
  lemma {:induction false} PlayToEnd(i: int, length: nat)
    requires 0 <= i < length
    decreases length - i
    ensures Play(i, true, length, length - 1 - i) == (length - 1, true)
    ensures Play(i, true, length, length - i) == (length - 1, false)
  {
    if i + 1 < length {
      PlayToEnd(i + 1, length);
    }
  }

  /** Auto-play never leaves the steps. */
  lemma {:induction false} PlayInRange(i: int, running: bool, length: nat, k: nat)
    requires 0 <= i < length
    decreases k
    ensures 0 <= Play(i, running, length, k).0 < length
  {
    if k > 0 && running {
      var s := TickStep(i, length);
      PlayInRange(s.0, s.1, length, k - 1);
    }
  }

  /** The gauge element's `getBoundingClientRect()`: its left edge and width. */
  datatype GaugeRect = GaugeRect(left: real, width: real)

  /** One mounted slider: its fixed step list and the two pieces of React
      state, `currentIndex` and `isRun`. */
  class Slider {
    const steps: seq<Timestamp>
    var currentIndex: int
    var isRun: bool

    /** With any steps at all, the selected index names one of them. */
    ghost predicate Valid()
      reads this
    {
      |steps| > 0 ==> 0 <= currentIndex < |steps|
    }

    /** Mount: compute the steps, start on `initialStepIndex`, stopped. */
    constructor(source: StepSource, start: Timestamp, end: Timestamp, stepValue: int, stepUnit: TimeUnit, advance: Advance, initialDate: Option<Timestamp>)
      requires source.Generated? ==> start > end || MovesForward(advance, stepUnit, stepValue)
      ensures steps == CalculatedSteps(source, start, end, stepValue, stepUnit, advance)
      ensures currentIndex == InitialStepIndex(steps, InitialTimestamp(initialDate, steps, start))
      ensures !isRun
      ensures Valid()
    {
      var s: seq<Timestamp>;
      match source {
        case Generated =>
          s := GenerateSteps(start, end, stepValue, advance, stepUnit);
        case StepList(list) =>
          s := list;
        case StepFunction(build) =>
          s := build(start, end, stepValue, stepUnit);
      }
      steps := s;
      currentIndex := InitialStepIndex(s, InitialTimestamp(initialDate, s, start));
      isRun := false;
    }

    /** `handleNext` */
    method HandleNext()
      requires Valid()
      modifies this
      ensures currentIndex == NextIndex(old(currentIndex), |steps|)
      ensures isRun == old(isRun)
      ensures Valid()
    {
      var nextIndex := currentIndex + 1;
      if nextIndex < |steps| {
        currentIndex := nextIndex;
      }
    }

    /** `handlePrev` */
    method HandlePrev()
      requires Valid()
      modifies this
      ensures currentIndex == PrevIndex(old(currentIndex))
      ensures isRun == old(isRun)
      ensures Valid()
    {
      if currentIndex == 0 {
        return;
      }
      currentIndex := currentIndex - 1;
    }

    /** `handleClick`: nothing without a mounted gauge; otherwise select
        the step under the click (a no-op when it is already selected). */
    method HandleClick(gauge: Option<GaugeRect>, clientX: real)
      requires Valid()
      requires gauge.Some? ==> gauge.value.width > 0.0
      modifies this
      ensures gauge.None? ==> currentIndex == old(currentIndex)
      ensures gauge.Some? ==> currentIndex == CalculateIndex(clientX, gauge.value.left, gauge.value.width, |steps|)
      ensures isRun == old(isRun)
      ensures Valid()
    {
      if gauge.None? {
        return;
      }
      var newIndex := CalculateIndex(clientX, gauge.value.left, gauge.value.width, |steps|);
      if currentIndex == newIndex {
        return;
      }
      currentIndex := newIndex;
    }

    /** The play/stop button: `setIsRun(!isRun)`. */
    method TogglePlay()
      requires Valid()
      modifies this
      ensures isRun == !old(isRun)
      ensures currentIndex == old(currentIndex)
      ensures Valid()
    {
      isRun := !isRun;
    }

    /** One firing of the auto-play interval, which exists only while the
        slider runs. */
    method Tick()
      requires Valid()
      requires isRun
      modifies this
      ensures (currentIndex, isRun) == TickStep(old(currentIndex), |steps|)
      ensures Valid()
    {
      var nextIndex := currentIndex + 1;
      if nextIndex < |steps| {
        currentIndex := nextIndex;
      } else {
        isRun := false;
      }
    }
  }
}
