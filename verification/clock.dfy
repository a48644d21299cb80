/** Clock readings in milliseconds, as `Date` arithmetic gives them, and the units the client shows. */
module Clock {
  const SecondMs := 1000
  const MinuteMs := 60 * SecondMs
  const HourMs := 60 * MinuteMs
  const DayMs := 24 * HourMs

  /** Whole units elapsed never decrease as time passes (`Math.floor` of a quotient by a positive unit). */
  lemma DivMonotone(a: int, b: int, d: int)
    requires a <= b && d > 0
    ensures a / d <= b / d
  {
    var p, q := a / d, b / d;
    assert p * d <= a && b < (q + 1) * d;
  }
}
