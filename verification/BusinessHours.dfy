/**
 auth/dependencies.py: weekly business hours with same-day and overnight windows.

 A moment is a weekday (0 for Monday) and the microseconds since its midnight.
 */
module BusinessHours {
  import opened Prelude

  const MINUTE := 60_000_000
  const DAY := 24 * 60 * MINUTE
  const WEEK := 7 * DAY

  datatype Hours = Hours(start: int, end: int, days: set<int>)

  /** "HH:MM" once split and read as two numbers. */
  function ParseHhmm(raw: Option<(int, int)>): Option<int> {
    if raw.Some? && 0 <= raw.value.0 < 24 && 0 <= raw.value.1 < 60
    then Some((raw.value.0 * 60 + raw.value.1) * MINUTE) else None
  }

  /** `_parse_hours`; None stands for the PolicyError. No "days" means every day. */
  function ParseHours(start: Option<(int, int)>, end: Option<(int, int)>, days: Option<seq<int>>): Option<Hours> {
    var listed := if days.Some? then days.value else [0, 1, 2, 3, 4, 5, 6];
    var s, e := ParseHhmm(start), ParseHhmm(end);
    if listed == [] || exists d | d in listed :: !(0 <= d < 7) then None
    else if s.None? || e.None? || s.value == e.value then None
    else Some(Hours(s.value, e.value, set d | d in listed))
  }

  /** `_within_hours`: the early part of an overnight window belongs to the previous day. */
  predicate Within(weekday: int, t: int, h: Hours) {
    if h.start < h.end then h.start <= t < h.end && weekday in h.days
    else (t >= h.start || t < h.end) && (if t >= h.start then weekday else (weekday - 1) % 7) in h.days
  }

  /** How long before the moment the window of day `d` last opened, going round the week. */
  function SinceOpening(weekday: int, t: int, d: int, start: int): int {
    ((weekday - d) * DAY + t - start) % WEEK
  }

  function Length(start: int, end: int): int {
    (end - start) % DAY
  }

  lemma WrapOnce(x: int, m: int)
    requires m > 0 && -m <= x < m
    ensures x % m == if x < 0 then x + m else x
  {
    if x < 0 {
      assert x == -1 * m + (x + m);
    }
  }

  /** Being in the window that opened on day d, for one day. */
  lemma DayWindow(weekday: int, t: int, d: int, start: int, end: int)
    requires 0 <= weekday < 7 && 0 <= d < 7 && 0 <= t < DAY
    requires 0 <= start < DAY && 0 <= end < DAY && start != end
    ensures SinceOpening(weekday, t, d, start) < Length(start, end)
            <==> if start < end then start <= t < end && weekday == d
                 else (t >= start && weekday == d) || (t < end && (weekday - 1) % 7 == d)
  {
    WrapOnce((weekday - d) * DAY + t - start, WEEK);
    WrapOnce(end - start, DAY);
  }

  /** Minutes and hours of a well-formed "HH:MM", as microseconds since midnight. */
  predicate IsClock(raw: Option<(int, int)>) {
    raw.Some? && 0 <= raw.value.0 < 24 && 0 <= raw.value.1 < 60
  }

  function Opening(raw: (int, int)): int {
    raw.0 * (60 * MINUTE) + raw.1 * MINUTE
  }

  /** What the loader accepts, and that start, end and days end up where they belong. */
  lemma LoadedHours(start: Option<(int, int)>, end: Option<(int, int)>, days: Option<seq<int>>)
    ensures ParseHours(start, end, days).Some?
       <==> && IsClock(start) && IsClock(end) && start != end
            && (days.Some? ==> days.value != [] && forall d | d in days.value :: 0 <= d < 7)
    ensures ParseHours(start, end, days).Some? ==>
              var h := ParseHours(start, end, days).value;
              && h.start == Opening(start.value) && h.end == Opening(end.value) && h.start != h.end
              && 0 <= h.start < DAY && 0 <= h.end < DAY
              && forall d :: d in h.days <==> if days.Some? then d in days.value else 0 <= d < 7
  {
    if IsClock(start) && IsClock(end) {
      ClockIsUnique(start.value, end.value);
    }
  }

  lemma ClockIsUnique(a: (int, int), b: (int, int))
    requires IsClock(Some(a)) && IsClock(Some(b))
    ensures Opening(a) == Opening(b) <==> a == b
    ensures 0 <= Opening(a) < DAY
  {
    assert Opening(a) - Opening(b) == ((a.0 - b.0) * 60 + (a.1 - b.1)) * MINUTE;
  }

  /**
   Main result: for hours the loader accepts, a moment is within them exactly when it lies, going
   round the week, less than the time from start to end after the start on some listed day.
   */
  lemma WithinIsModular(start: Option<(int, int)>, end: Option<(int, int)>, days: Option<seq<int>>, weekday: int, t: int)
    requires ParseHours(start, end, days).Some? && 0 <= weekday < 7 && 0 <= t < DAY
    ensures start.Some? && end.Some?
    ensures var h := ParseHours(start, end, days).value;
            Within(weekday, t, h)
            <==> exists d | 0 <= d < 7 && (days.Some? ==> d in days.value) ::
                   SinceOpening(weekday, t, d, Opening(start.value)) < Length(Opening(start.value), Opening(end.value))
  {
    hide ParseHours, Opening, SinceOpening, Length;
    LoadedHours(start, end, days);
    var h := ParseHours(start, end, days).value;
    forall d | d in h.days
      ensures SinceOpening(weekday, t, d, h.start) < Length(h.start, h.end)
              <==> if h.start < h.end then h.start <= t < h.end && weekday == d
                   else (t >= h.start && weekday == d) || (t < h.end && (weekday - 1) % 7 == d)
    {
      DayWindow(weekday, t, d, h.start, h.end);
    }
  }
}
