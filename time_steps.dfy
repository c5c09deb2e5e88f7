/** Step generation of the time slider (`generateSteps`,
    src/components/TimeSlider/TimeSlider.func.ts). */
module TimeSteps {
  import opened TimeSliderTypes

  /** The dates `generateSteps` lists from `current` on: `current` itself
      while it is not past `end`, then the dates that follow by adding
      `value` units, again and again. */
  function StepsFrom(current: Timestamp, end: Timestamp, value: int, unit: TimeUnit, advance: Advance): (r: seq<Timestamp>)
    requires current > end || MovesForward(advance, unit, value)
    decreases end - current
    ensures r == [] <==> current > end
    ensures r != [] ==> r[0] == current
  {
    if current > end then []
    else [current] + StepsFrom(advance(current, unit, value), end, value, unit, advance)
  }

  /** `generateSteps(start, end, stepValue, stepUnit)`: the loop pushes a
      copy of `current` and advances it until it passes `end`. */
  method GenerateSteps(start: Timestamp, end: Timestamp, stepValue: int, advance: Advance, stepUnit: TimeUnit := Minute)
    returns (steps: seq<Timestamp>)
    requires start > end || MovesForward(advance, stepUnit, stepValue)
    ensures steps == StepsFrom(start, end, stepValue, stepUnit, advance)
  {
    steps := [];
    var current := start;
    while current <= end
      invariant current > end || MovesForward(advance, stepUnit, stepValue)
      invariant steps + StepsFrom(current, end, stepValue, stepUnit, advance) == StepsFrom(start, end, stepValue, stepUnit, advance)
      decreases end - current
    {
      var next := advance(current, stepUnit, stepValue);
      ghost var rest := StepsFrom(next, end, stepValue, stepUnit, advance);
      assert StepsFrom(current, end, stepValue, stepUnit, advance) == [current] + rest;
      assert (steps + [current]) + rest == steps + ([current] + rest);
      steps := steps + [current];
      current := next;
    }
  }

  /** No step is before `current` or past `end`, each step is the one
      before it advanced by `value` units, and the last one advanced would
      be past `end`: the loop stops at the first date past `end`. */
  lemma {:induction false} StepsShape(current: Timestamp, end: Timestamp, value: int, unit: TimeUnit, advance: Advance)
    requires current > end || MovesForward(advance, unit, value)
    ensures var r := StepsFrom(current, end, value, unit, advance);
      && (forall i :: 0 <= i < |r| ==> current <= r[i] <= end)
      && (forall i :: 0 <= i < |r| - 1 ==> r[i + 1] == advance(r[i], unit, value))
      && (r != [] ==> advance(r[|r| - 1], unit, value) > end)
    decreases end - current
  {
    if current <= end {
      var next := advance(current, unit, value);
      StepsShape(next, end, value, unit, advance);
      var r := StepsFrom(current, end, value, unit, advance);
      var rest := StepsFrom(next, end, value, unit, advance);
      assert r == [current] + rest;
      forall i | 0 <= i < |r| ensures current <= r[i] <= end {
        if i > 0 { assert r[i] == rest[i - 1]; }
      }
      forall i | 0 <= i < |r| - 1 ensures r[i + 1] == advance(r[i], unit, value) {
        if i > 0 { assert r[i] == rest[i - 1]; }
      }
    }
  }

  /** The steps strictly increase: each is later than all before it. */
  lemma {:induction false} StepsIncreasing(current: Timestamp, end: Timestamp, value: int, unit: TimeUnit, advance: Advance)
    requires current > end || MovesForward(advance, unit, value)
    ensures var r := StepsFrom(current, end, value, unit, advance);
      forall i, j :: 0 <= i < j < |r| ==> r[i] < r[j]
    decreases end - current
  {
    if current <= end {
      var next := advance(current, unit, value);
      StepsIncreasing(next, end, value, unit, advance);
      var r := StepsFrom(current, end, value, unit, advance);
      assert r[1..] == StepsFrom(next, end, value, unit, advance);
      forall i, j | 0 <= i < j < |r| ensures r[i] < r[j] {
        if i > 0 {
          assert r[i] == r[1..][i - 1] && r[j] == r[1..][j - 1];
        } else {
          assert r[j] == r[1..][j - 1];
        }
      }
    }
  }

  /** The steps are exactly the dates from `current` that are reached by
      whole steps and are not past `end`. */
  lemma {:induction false} StepsComplete(current: Timestamp, end: Timestamp, value: int, unit: TimeUnit, advance: Advance, k: nat)
    requires MovesForward(advance, unit, value)
    ensures var r := StepsFrom(current, end, value, unit, advance);
      k < |r| <==> Iterate(current, value, unit, advance, k) <= end
    ensures var r := StepsFrom(current, end, value, unit, advance);
      k < |r| ==> r[k] == Iterate(current, value, unit, advance, k)
    decreases k
  {
    var r := StepsFrom(current, end, value, unit, advance);
    var next := advance(current, unit, value);
    if k > 0 {
      StepsComplete(next, end, value, unit, advance, k - 1);
      IterateForward(next, value, unit, advance, k - 1);
      if current <= end {
        assert r[1..] == StepsFrom(next, end, value, unit, advance);
      }
    }
  }

  /** `current` after `k` iterations of the loop body. */
  function Iterate(t: Timestamp, value: int, unit: TimeUnit, advance: Advance, k: nat): Timestamp
    decreases k
  {
    if k == 0 then t else Iterate(advance(t, unit, value), value, unit, advance, k - 1)
  }

  lemma {:induction false} IterateForward(t: Timestamp, value: int, unit: TimeUnit, advance: Advance, k: nat)
    requires MovesForward(advance, unit, value)
    ensures Iterate(t, value, unit, advance, k) >= t
    decreases k
  {
    if k > 0 {
      IterateForward(advance(t, unit, value), value, unit, advance, k - 1);
    }
  }

  /** Minutes as a fixed 60000 ms, as `setMinutes` adds them. */
  function MinuteClock(): Advance
  {
    (t: Timestamp, unit: TimeUnit, value: int) => t + value * 60000
  }

  /** The default story: 07:47 to 09:47 in 30-minute steps gives the five
      steps 07:47, 08:17, 08:47, 09:17 and 09:47 (timestamps counted from
      the start of the day). */
  lemma StoryFiveSteps()
    ensures
      var minute := 60000;
      var start := (7 * 60 + 47) * minute;
      var end := (9 * 60 + 47) * minute;
      StepsFrom(start, end, 30, Minute, MinuteClock())
        == [start, (8 * 60 + 17) * minute, (8 * 60 + 47) * minute, (9 * 60 + 17) * minute, end]
  {
    var minute := 60000;
    var end := (9 * 60 + 47) * minute;
    var adv := MinuteClock();
    assert MovesForward(adv, Minute, 30);
    var s5 := StepsFrom(end + 30 * minute, end, 30, Minute, adv);
    assert s5 == [];
    var s4 := StepsFrom(end, end, 30, Minute, adv);
    assert s4 == [end] + s5;
    var s3 := StepsFrom((9 * 60 + 17) * minute, end, 30, Minute, adv);
    assert s3 == [(9 * 60 + 17) * minute] + s4;
    var s2 := StepsFrom((8 * 60 + 47) * minute, end, 30, Minute, adv);
    assert s2 == [(8 * 60 + 47) * minute] + s3;
    var s1 := StepsFrom((8 * 60 + 17) * minute, end, 30, Minute, adv);
    assert s1 == [(8 * 60 + 17) * minute] + s2;
    var s0 := StepsFrom((7 * 60 + 47) * minute, end, 30, Minute, adv);
    assert s0 == [(7 * 60 + 47) * minute] + s1;
  }
}
