/**
 Mixed-precision times and the availability predicate (quant_data/temporal.py). Dates
 are day numbers; a datetime keeps the date and time as written, and its offset.
 */
module Temporal {
  import opened Wrappers

  const MINUTE: int := 60_000_000 // microseconds
  const DAY: int := 1440 * MINUTE

  datatype TemporalValue =
    | Date(day: int)
    | DateTime(day: int, time: int, offset: int) // microseconds of the day, minutes east of UTC
    | Inferred
    | Unknown

  datatype DateOnlyPolicy = CompletedDate | CalendarDateInclusive

  datatype Decision = Decision(included: bool, warned: bool)

  /** What the parser can return. */
  predicate Valid(v: TemporalValue) {
    v.DateTime? ==> 0 <= v.time < DAY && -1440 < v.offset < 1440
  }

  /** The instant in UTC. */
  function Instant(v: TemporalValue): int
    requires v.DateTime?
  {
    v.day * DAY + v.time - v.offset * MINUTE
  }

  /** `availability_at_or_before`. */
  function AvailabilityAtOrBefore(availability: TemporalValue, cutoff: TemporalValue, policy: DateOnlyPolicy)
    : Result<Decision, Fault>
  {
    if !cutoff.Date? && !cutoff.DateTime? then Err(ValidationFault)
    else match availability
      case Inferred => Ok(Decision(false, false))
      case Unknown => Ok(Decision(false, false))
      case Date(available) =>
        if cutoff.Date? then Ok(Decision(available <= cutoff.day, false))
        else if policy == CompletedDate then Ok(Decision(available < cutoff.day, false))
        else
          var included := available <= cutoff.day;
          Ok(Decision(included, included && available == cutoff.day))
      case DateTime(written, _, _) =>
        if cutoff.Date? then Ok(Decision(written <= cutoff.day, false))
        else Ok(Decision(Instant(availability) <= Instant(cutoff), false))
  }

  predicate Admitted(availability: TemporalValue, cutoff: TemporalValue, policy: DateOnlyPolicy) {
    var r := AvailabilityAtOrBefore(availability, cutoff, policy);
    r.Ok? && r.value.included
  }

  /** The instant at which a calendar day is over at a given offset. */
  function EndOfDay(day: int, offset: int): int {
    (day + 1) * DAY - offset * MINUTE
  }

  /** At a date cutoff a date is admitted, whatever the policy, exactly when its day is over
      no later than the cutoff's day, at one offset or at every offset. */
  lemma DateCutoffMeansTheDayIsOver(day: int, cutoff: int, policy: DateOnlyPolicy, offset: int)
    ensures Admitted(Date(day), Date(cutoff), policy) <==> EndOfDay(day, offset) <= EndOfDay(cutoff, offset)
    ensures Admitted(Date(day), Date(cutoff), policy) <==>
      forall o :: EndOfDay(day, o) <= EndOfDay(cutoff, o)
  {
    if day > cutoff {
      assert (day + 1) * DAY >= (cutoff + 2) * DAY;
      assert EndOfDay(day, offset) > EndOfDay(cutoff, offset);
    } else {
      assert (day + 1) * DAY <= (cutoff + 1) * DAY;
    }
  }

  /** Under the inclusive policy it is enough that the day has begun at the cutoff's offset. */
  lemma InclusiveMeansTheDayHasBegun(day: int, cutoff: TemporalValue)
    requires cutoff.DateTime? && Valid(cutoff)
    ensures Admitted(Date(day), cutoff, CalendarDateInclusive) <==>
      EndOfDay(day - 1, cutoff.offset) <= Instant(cutoff)
  {
    DayOrder(day, cutoff.day, cutoff.time);
  }

  /** What is inferred or unknown is never admitted, and no cutoff can be. */
  lemma OnlyStatedTimesCount(availability: TemporalValue, cutoff: TemporalValue, policy: DateOnlyPolicy)
    ensures availability.Inferred? || availability.Unknown? ==> !Admitted(availability, cutoff, policy)
    ensures AvailabilityAtOrBefore(availability, cutoff, policy).Err? <==> cutoff.Inferred? || cutoff.Unknown?
    ensures cutoff.Inferred? || cutoff.Unknown? ==>
      AvailabilityAtOrBefore(availability, cutoff, policy) == Err(ValidationFault)
  {
  }

  /** A value with a time is admitted at a datetime cutoff exactly when, counted at one
      offset, its date and time are not behind the cutoff's. */
  lemma TimesCompareAsInstants(a: TemporalValue, cutoff: TemporalValue, policy: DateOnlyPolicy)
    requires a.DateTime? && cutoff.DateTime?
    ensures Admitted(a, cutoff, policy) <==>
      (a.day - cutoff.day) * DAY + (a.time - cutoff.time) <= (a.offset - cutoff.offset) * MINUTE
  {
  }

  /** At a datetime cutoff a date-only value is admitted as completed exactly when that
      whole day, at the cutoff's offset, is over by then. */
  lemma CompletedMeansTheDayIsOver(day: int, cutoff: TemporalValue)
    requires cutoff.DateTime? && Valid(cutoff)
    ensures Admitted(Date(day), cutoff, CompletedDate) <==> EndOfDay(day, cutoff.offset) <= Instant(cutoff)
  {
    DayOrder(day + 1, cutoff.day, cutoff.time);
  }

  lemma DayOrder(a: int, b: int, time: int)
    requires 0 <= time < DAY
    ensures a <= b <==> a * DAY <= b * DAY + time
  {
    if a <= b {
      assert a * DAY <= b * DAY;
    } else {
      assert a * DAY >= (b + 1) * DAY;
    }
  }

  /** The completed policy admits nothing the inclusive one does not, and the warning
      marks exactly what only the inclusive one admits. */
  lemma WarningMarksTheDifference(availability: TemporalValue, cutoff: TemporalValue)
    requires cutoff.Date? || cutoff.DateTime?
    ensures Admitted(availability, cutoff, CompletedDate) ==> Admitted(availability, cutoff, CalendarDateInclusive)
    ensures AvailabilityAtOrBefore(availability, cutoff, CalendarDateInclusive).value.warned <==>
      Admitted(availability, cutoff, CalendarDateInclusive) && !Admitted(availability, cutoff, CompletedDate)
    ensures !AvailabilityAtOrBefore(availability, cutoff, CompletedDate).value.warned
  {
  }

  /** A value with a time is admitted at a date cutoff exactly when it would be at the
      last microsecond of that date, at its own offset. */
  lemma DateCutoffIsEndOfOwnDay(availability: TemporalValue, day: int, policy: DateOnlyPolicy)
    requires availability.DateTime? && Valid(availability)
    ensures Admitted(availability, Date(day), policy) <==>
      Admitted(availability, DateTime(day, DAY - 1, availability.offset), policy)
  {
    if availability.day <= day {
      assert availability.day * DAY <= day * DAY;
    } else {
      assert availability.day * DAY >= (day + 1) * DAY;
    }
  }

  // ----- later cutoffs -----

  /** Both dates, or both with a time, the second one not earlier. */
  predicate NotEarlier(a: TemporalValue, b: TemporalValue) {
    (a.Date? && b.Date? && a.day <= b.day) || (a.DateTime? && b.DateTime? && Instant(a) <= Instant(b))
  }

  /** For cutoffs of one precision, a later one admits everything an earlier one does
      exactly when its written date is not earlier. */
  lemma LaterCutoffAdmitsAsMuch(a: TemporalValue, b: TemporalValue, policy: DateOnlyPolicy)
    requires NotEarlier(a, b)
    ensures (forall v :: Admitted(v, a, policy) ==> Admitted(v, b, policy)) <==> a.day <= b.day
  {
    if a.day > b.day {
      var lost := Date(if policy == CompletedDate then a.day - 1 else a.day);
      assert Admitted(lost, a, policy) && !Admitted(lost, b, policy);
    }
  }

  /** With one offset the written date never goes back. */
  lemma SameOffsetKeepsDates(a: TemporalValue, b: TemporalValue)
    requires a.DateTime? && b.DateTime? && Valid(a) && Valid(b) && a.offset == b.offset && Instant(a) <= Instant(b)
    ensures a.day <= b.day
  {
    DayOrder(a.day, b.day, b.time);
    assert a.day * DAY <= b.day * DAY + b.time;
  }

  /** With different offsets it can: 01:00+02:00 on the second day is before 23:30+00:00
      on the first. */
  lemma OffsetsCanLoseADate()
    ensures var a, b := DateTime(1, 60 * MINUTE, 120), DateTime(0, 1410 * MINUTE, 0);
      && Valid(a) && Valid(b) && NotEarlier(a, b)
      && Admitted(Date(0), a, CompletedDate) && !Admitted(Date(0), b, CompletedDate)
  {
  }

  /** Values with a time are never lost. */
  lemma TimesStayAdmitted(v: TemporalValue, a: TemporalValue, b: TemporalValue, policy: DateOnlyPolicy)
    requires a.DateTime? && NotEarlier(a, b) && v.DateTime? && Admitted(v, a, policy)
    ensures Admitted(v, b, policy)
  {
  }
}
