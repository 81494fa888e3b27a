/**
 * Time is counted in whole minutes from a local Monday 00:00, so the local
 * calendar week of an instant t starts at the largest multiple of a week not
 * above t. Time-zone conversion happens before any value reaches this model.
 */
module Time {
  import opened Common

  const MinutesPerHour: int := 60
  const MinutesPerDay: int := 24 * MinutesPerHour
  const MinutesPerWeek: int := 7 * MinutesPerDay

  /** Monday 00:00 of the week that contains t (`_week_bounds`, `week_bounds`). */
  function WeekStart(t: int): (ws: int)
    ensures ws <= t < ws + MinutesPerWeek
    ensures ws % MinutesPerWeek == 0
  {
    t - t % MinutesPerWeek
  }

  /** The half-open week window [Monday 00:00, next Monday 00:00) around t. */
  function WeekBounds(t: int): (b: (int, int))
    ensures b.0 <= t < b.1
    ensures b.1 - b.0 == MinutesPerWeek
    ensures b.0 % MinutesPerWeek == 0
  {
    var ws := WeekStart(t);
    (ws, ws + MinutesPerWeek)
  }

  /** A Monday midnight whose week contains t is the one WeekStart picks. */
  lemma WeekStartUnique(t: int, m: int)
    requires m % MinutesPerWeek == 0 && m <= t < m + MinutesPerWeek
    ensures m == WeekStart(t)
  {
    var ws := WeekStart(t);
    assert m == (m / MinutesPerWeek) * MinutesPerWeek;
    assert ws == (ws / MinutesPerWeek) * MinutesPerWeek;
  }

  /** Every instant of a week window has that same window. */
  lemma SameWeek(t: int, u: int)
    requires WeekStart(t) <= u < WeekStart(t) + MinutesPerWeek
    ensures WeekBounds(u) == WeekBounds(t)
  {
    WeekStartUnique(u, WeekStart(t));
  }

  /** `_overlaps` in views.py: the half-open intervals are not disjoint. */
  function Overlaps(aStart: int, aEnd: int, bStart: int, bEnd: int): (r: bool)
    ensures r <==> aStart < bEnd && bStart < aEnd
  {
    !(aEnd <= bStart || bEnd <= aStart)
  }

  /** `overlaps` in services.py: the later start comes before the earlier end. */
  function OverlapsByBounds(aStart: int, aEnd: int, bStart: int, bEnd: int): (r: bool)
    ensures r <==> aStart < bEnd && bStart < aEnd && aStart < aEnd && bStart < bEnd
  {
    Max(aStart, bStart) < Min(aEnd, bEnd)
  }

  /** Overlap is symmetric, and intervals that only touch do not overlap. */
  lemma OverlapsSymmetricNotTouching(aStart: int, aEnd: int, bStart: int, bEnd: int)
    ensures Overlaps(aStart, aEnd, bStart, bEnd) == Overlaps(bStart, bEnd, aStart, aEnd)
    ensures aEnd == bStart ==> !Overlaps(aStart, aEnd, bStart, bEnd)
    ensures aEnd == bStart ==> !OverlapsByBounds(aStart, aEnd, bStart, bEnd)
  {
  }

  /** The two formulas agree on non-empty intervals. */
  lemma OverlapFormulasAgree(aStart: int, aEnd: int, bStart: int, bEnd: int)
    requires aStart < aEnd && bStart < bEnd
    ensures Overlaps(aStart, aEnd, bStart, bEnd) == OverlapsByBounds(aStart, aEnd, bStart, bEnd)
  {
  }

  /** ... and disagree on an empty one: [5, 5) lies inside [0, 10). */
  lemma OverlapFormulasDifferOnEmpty()
    ensures Overlaps(5, 5, 0, 10) && !OverlapsByBounds(5, 5, 0, 10)
  {
  }

  /** A number of minutes in hours, exactly (no float rounding). */
  function Hours(minutes: int): (h: real)
    ensures h * (MinutesPerHour as real) == minutes as real
  {
    minutes as real / (MinutesPerHour as real)
  }

  /** `_hours_between`: the length of [a, b) in hours. */
  function HoursBetween(a: int, b: int): (h: real)
    ensures h * (MinutesPerHour as real) == (b - a) as real
  {
    Hours(b - a)
  }

  /** More minutes are never fewer hours. */
  lemma HoursMonotone(m: int, n: int)
    requires m <= n
    ensures Hours(m) <= Hours(n)
  {
  }
}
