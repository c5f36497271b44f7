/** Calendar dates as day numbers.

    A date is the number of days since 1970-01-01 (a Thursday). The source
    works on `datetime`/`date` values and ISO `YYYY-MM-DD` strings; the model
    keeps the day number and takes string parsing as a parameter wherever the
    source parses. */
module Calendar {

  /** Days since 1970-01-01; negative before it. */
  type Date = int

  /** Python's `date.weekday()`: Monday is 0, Sunday is 6. */
  function Weekday(d: Date): (w: nat)
    ensures w < 7
  {
    (d + 3) % 7
  }

  /** English day names, as `strftime("%A")` prints them, indexed by weekday. */
  const DayNames: seq<string> :=
    ["Monday", "Tuesday", "Wednesday", "Thursday", "Friday", "Saturday", "Sunday"]

  function DayName(d: Date): string {
    DayNames[Weekday(d)]
  }

  /** The Monday of the week holding `d`: `d - timedelta(days=d.weekday())`. */
  function MondayOf(d: Date): (m: Date)
    ensures Weekday(m) == 0
    ensures m <= d < m + 7
  {
    d - Weekday(d)
  }

  /** The weekday advances by one per day within a Monday-anchored week. */
  lemma {:induction false} WeekdayOfOffset(m: Date, i: nat)
    requires Weekday(m) == 0
    requires i < 7
    ensures Weekday(m + i) == i
  {
    assert (m + 3) % 7 == 0;
    assert m + 3 == 7 * ((m + 3) / 7);
    assert m + i + 3 == 7 * ((m + 3) / 7) + i;
  }

  /** Every date of a week has the same Monday. */
  lemma MondayOfWeekDays(d: Date, i: nat)
    requires i < 7
    ensures MondayOf(MondayOf(d) + i) == MondayOf(d)
  {
    WeekdayOfOffset(MondayOf(d), i);
  }
}
