/** Shared vocabulary of the time slider
    (src/components/TimeSlider/TimeSlider.types.ts). */
module TimeSliderTypes {
  /** `TimeUnit`: the unit `stepValue` counts in. */
  datatype TimeUnit = Year | Month | Day | Hour | Minute | Second

  /** A date as its millisecond timestamp (`Date.prototype.getTime`). */
  type Timestamp = int

  /** `current.setX(current.getX() + stepValue)` for the unit `X`: the
      calendar arithmetic of the host's `Date` in local time, which is not
      part of this model. */
  type Advance = (Timestamp, TimeUnit, int) -> Timestamp

  /** Adding `value` units always moves a date strictly forward. */
  ghost predicate MovesForward(advance: Advance, unit: TimeUnit, value: int)
  {
    forall t :: advance(t, unit, value) > t
  }
}
