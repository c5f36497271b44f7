/** The agent's user-data tools (app/midwaife/tools/user_data_tools.py):
    the pregnancy-week estimate, the sleep and symptom logging tools with
    their validation and field-scoped writes, and the rainbow-colour summary. */
module UserDataTools {
  import opened Wrappers
  import opened Calendar
  import opened DailyLogModels
  import opened DailyLogService

  // ---------------------------------------------------------------------
  // Pregnancy week
  // ---------------------------------------------------------------------

  /** Microseconds in a day: the resolution of the source's clock. */
  const MicrosPerDay: nat := 86_400_000_000

  /** `due_date.split('T')[0]`: everything before the first 'T'. */
  function DatePart(s: string): (r: string)
    ensures r <= s
    ensures 'T' !in r
    ensures |r| < |s| ==> s[|r|] == 'T'
  {
    if s == [] || s[0] == 'T' then []
    else [s[0]] + DatePart(s[1..])
  }

  /** `(due - now).days` for a due date at midnight and a current time
      `elapsed` microseconds into day `today`: a timedelta's days are the
      floor of its length, so any time past midnight loses a day. */
  function DaysUntil(due: Date, today: Date, elapsed: nat): (diff: int)
    requires elapsed < MicrosPerDay
    ensures diff == if elapsed == 0 then due - today else due - today - 1
  {
    var micros := (due - today) * MicrosPerDay - elapsed;
    FloorDivLemma(due - today, elapsed);
    micros / MicrosPerDay
  }

  lemma FloorDivLemma(days: int, elapsed: nat)
    requires elapsed < MicrosPerDay
    ensures (days * MicrosPerDay - elapsed) / MicrosPerDay ==
      if elapsed == 0 then days else days - 1
  {
    var x := days * MicrosPerDay - elapsed;
    var q := if elapsed == 0 then days else days - 1;
    assert q * MicrosPerDay <= x < q * MicrosPerDay + MicrosPerDay;
  }

  /** The clamped week for `diff` days left: floor((280 - diff) / 7), kept
      within 1 and 42. */
  function WeekFromDays(diff: int): (w: int)
    ensures 1 <= w <= 42
    ensures w == 1 <==> 280 - diff < 14
    ensures w == 42 <==> 280 - diff >= 294
    ensures 1 < w < 42 ==> 7 * w <= 280 - diff < 7 * w + 7
  {
    var weeks := (280 - diff) / 7;
    if weeks < 1 then 1 else if weeks > 42 then 42 else weeks
  }

  /** More days left never gives a later week. */
  lemma WeekFromDaysMonotone(d1: int, d2: int)
    requires d1 <= d2
    ensures WeekFromDays(d2) <= WeekFromDays(d1)
  {
  }

  /** `calculate_pregnancy_week` with the clock passed in: a missing or
      empty due date gives the fallback week 14; a due date whose date part
      does not parse raises, which is the failure case here. */
  function CalculatePregnancyWeek(dueDate: Option<string>, parse: string -> Option<Date>,
                                  today: Date, elapsed: nat): (r: Result<int, string>)
    requires elapsed < MicrosPerDay
    ensures dueDate.None? || dueDate == Some("") ==> r == Success(14)
    ensures dueDate.Some? && dueDate.value != "" ==>
      (r.Failure? <==> parse(DatePart(dueDate.value)).None?)
    ensures r.Success? ==> 1 <= r.value <= 42
    ensures dueDate.Some? && dueDate.value != "" && parse(DatePart(dueDate.value)).Some? ==>
      r == Success(WeekFromDays(DaysUntil(parse(DatePart(dueDate.value)).value, today, elapsed)))
  {
    if dueDate.None? || dueDate.value == "" then Success(14)
    else
      match parse(DatePart(dueDate.value))
      case None => Failure("Invalid isoformat string: " + dueDate.value)
      case Some(due) => Success(WeekFromDays(DaysUntil(due, today, elapsed)))
  }

  /** A later due date never yields a larger week. */
  lemma LaterDueDateNoLaterWeek(due1: string, due2: string, parse: string -> Option<Date>,
                                today: Date, elapsed: nat)
    requires elapsed < MicrosPerDay
    requires due1 != "" && due2 != ""
    requires parse(DatePart(due1)).Some? && parse(DatePart(due2)).Some?
    requires parse(DatePart(due1)).value <= parse(DatePart(due2)).value
    ensures CalculatePregnancyWeek(Some(due2), parse, today, elapsed).value <=
      CalculatePregnancyWeek(Some(due1), parse, today, elapsed).value
  {
    var d1 := DaysUntil(parse(DatePart(due1)).value, today, elapsed);
    var d2 := DaysUntil(parse(DatePart(due2)).value, today, elapsed);
    WeekFromDaysMonotone(d1, d2);
  }

  // ---------------------------------------------------------------------
  // Symptom names and enum validation
  // ---------------------------------------------------------------------

  /** One character of `s.lower().replace(' ', '_')`, for ASCII letters. */
  function NormalizeChar(c: char): (d: char)
    ensures d != ' '
    ensures !('A' <= d <= 'Z')
    ensures c != ' ' && !('A' <= c <= 'Z') ==> d == c
  {
    if 'A' <= c <= 'Z' then (c as int + 32) as char
    else if c == ' ' then '_'
    else c
  }

  /** `s.lower().replace(' ', '_')`. */
  function NormalizeSymptom(s: string): (r: string)
    ensures |r| == |s|
    ensures forall i :: 0 <= i < |s| ==> r[i] == NormalizeChar(s[i])
  {
    if s == [] then [] else [NormalizeChar(s[0])] + NormalizeSymptom(s[1..])
  }

  /** A normalized name has no spaces and no upper-case letters, and
      normalizing it again changes nothing. */
  lemma NormalizeSymptomIdempotent(s: string)
    ensures ' ' !in NormalizeSymptom(s)
    ensures NormalizeSymptom(NormalizeSymptom(s)) == NormalizeSymptom(s)
  {
    var r := NormalizeSymptom(s);
    assert forall i :: 0 <= i < |r| ==> NormalizeChar(r[i]) == r[i];
  }

  /** The whole list normalized, one name per entry in the same order. */
  function NormalizeSymptoms(xs: seq<string>): (ys: seq<string>)
    ensures |ys| == |xs|
    ensures forall i :: 0 <= i < |xs| ==> ys[i] == NormalizeSymptom(xs[i])
  {
    if xs == [] then [] else [NormalizeSymptom(xs[0])] + NormalizeSymptoms(xs[1..])
  }

  lemma NormalizeSymptomsIdempotent(xs: seq<string>)
    ensures NormalizeSymptoms(NormalizeSymptoms(xs)) == NormalizeSymptoms(xs)
  {
    forall i | 0 <= i < |xs| ensures NormalizeSymptom(NormalizeSymptom(xs[i])) == NormalizeSymptom(xs[i]) {
      NormalizeSymptomIdempotent(xs[i]);
    }
  }

  const ValidQualities: seq<string> := ["poor", "fair", "good", "excellent"]
  const ValidSeverities: seq<string> := ["mild", "moderate", "severe"]

  /** `if value and value not in valid`: only a non-empty value outside the
      list is rejected. */
  predicate Rejected(value: Option<string>, valid: seq<string>) {
    value.Some? && value.value != "" && value.value !in valid
  }

  /** The placeholder user the tools fall back to without a session. */
  const DefaultUserId: string := "00000000-0000-0000-0000-000000000001"

  /** The user a tool acts for: the argument, else the session's user, else
      the placeholder. */
  function ResolveUser(userId: Option<string>, sessionUser: Option<string>): (u: string)
    ensures userId.Some? ==> u == userId.value
    ensures userId.None? && sessionUser.Some? ==> u == sessionUser.value
    ensures userId.None? && sessionUser.None? ==> u == DefaultUserId
  {
    if userId.Some? then userId.value else sessionUser.GetOr(DefaultUserId)
  }

  // ---------------------------------------------------------------------
  // Field-scoped writes
  // ---------------------------------------------------------------------

  /** The log with its three sleep columns blanked: what a sleep write must
      leave alone. */
  function SleepCleared(d: LogData): LogData {
    d.(sleepHours := None, sleepQuality := None, sleepNotes := None)
  }

  /** The log with its three symptom columns blanked. */
  function SymptomsCleared(d: LogData): LogData {
    d.(symptoms := None, symptomSeverity := None, symptomNotes := None)
  }

  /** The sleep tool's write: the three sleep columns of an existing log are
      set (a None quality or note clears it), or a new log holding only them
      is inserted. */
  function WriteSleep(t: Table, k: Key, hours: real, quality: Option<string>, notes: Option<string>,
                      freshId: string): (t': Table)
    ensures SameExcept(t, t', k) && k in t'
    ensures var d := t'[k].data;
      d.sleepHours == Some(hours) && d.sleepQuality == quality && d.sleepNotes == notes
    ensures k in t ==> t'[k].id == t[k].id
    ensures k in t ==> SleepCleared(t'[k].data) == SleepCleared(t[k].data)
    ensures k !in t ==> t'[k].id == freshId && SleepCleared(t'[k].data) == NoData
  {
    if k in t then
      t[k := t[k].(data := t[k].data.(sleepHours := Some(hours), sleepQuality := quality, sleepNotes := notes))]
    else
      t[k := LogRow(freshId, NoData.(sleepHours := Some(hours), sleepQuality := quality, sleepNotes := notes))]
  }

  /** The symptom tool's write, the mirror image on the three symptom columns. */
  function WriteSymptoms(t: Table, k: Key, symptoms: seq<string>, severity: Option<string>,
                         notes: Option<string>, freshId: string): (t': Table)
    ensures SameExcept(t, t', k) && k in t'
    ensures var d := t'[k].data;
      d.symptoms == Some(symptoms) && d.symptomSeverity == severity && d.symptomNotes == notes
    ensures k in t ==> t'[k].id == t[k].id
    ensures k in t ==> SymptomsCleared(t'[k].data) == SymptomsCleared(t[k].data)
    ensures k !in t ==> t'[k].id == freshId && SymptomsCleared(t'[k].data) == NoData
  {
    if k in t then
      t[k := t[k].(data := t[k].data.(symptoms := Some(symptoms), symptomSeverity := severity, symptomNotes := notes))]
    else
      t[k := LogRow(freshId, NoData.(symptoms := Some(symptoms), symptomSeverity := severity, symptomNotes := notes))]
  }

  /** Because the two writes touch disjoint columns, logging sleep and
      symptoms in either order stores the same data. */
  lemma SleepAndSymptomWritesCommute(t: Table, k: Key, hours: real, quality: Option<string>,
      sleepNotes: Option<string>, symptoms: seq<string>, severity: Option<string>,
      symptomNotes: Option<string>, id1: string, id2: string)
    ensures var a := WriteSymptoms(WriteSleep(t, k, hours, quality, sleepNotes, id1), k, symptoms, severity, symptomNotes, id2);
      var b := WriteSleep(WriteSymptoms(t, k, symptoms, severity, symptomNotes, id2), k, hours, quality, sleepNotes, id1);
      a.Keys == b.Keys && a[k].data == b[k].data && (k in t ==> a == b)
  {
    var a := WriteSymptoms(WriteSleep(t, k, hours, quality, sleepNotes, id1), k, symptoms, severity, symptomNotes, id2);
    var b := WriteSleep(WriteSymptoms(t, k, symptoms, severity, symptomNotes, id2), k, hours, quality, sleepNotes, id1);
    assert a.Keys == b.Keys;
    assert forall k' :: k' in a && k' != k ==> a[k'] == b[k'];
  }

  datatype SleepLogged = SleepLogged(sleepHours: real, sleepQuality: Option<string>, logDate: Date)
  datatype SymptomsLogged = SymptomsLogged(symptoms: seq<string>, symptomSeverity: Option<string>, logDate: Date)

  /** The day a tool logs for: the given date string as the database reads
      it, or today when none is given; None when the given string is not a
      date, which makes the tool's first query raise. */
  function LogDay(logDate: Option<string>, parse: string -> Option<Date>, today: Date): Option<Date> {
    if logDate.None? then Some(today) else parse(logDate.value)
  }

  /** `log_sleep_tool`: a rejected quality fails before the table is read,
      and a log date the database cannot read fails at the first query;
      otherwise the sleep columns of the user's log for the day are written
      and nothing else changes. */
  function LogSleep(t: Table, hours: real, quality: Option<string>, notes: Option<string>,
                    userId: Option<string>, sessionUser: Option<string>, logDate: Option<string>,
                    parse: string -> Option<Date>, today: Date, freshId: string): (r: (Table, Result<SleepLogged, string>))
    ensures r.1.Failure? <==> Rejected(quality, ValidQualities) || (logDate.Some? && parse(logDate.value).None?)
    ensures r.1.Failure? ==> r.0 == t
    ensures r.1.Success? ==>
      var k := (ResolveUser(userId, sessionUser), LogDay(logDate, parse, today).value);
      && r.1.value == SleepLogged(hours, quality, k.1)
      && SameExcept(t, r.0, k) && k in r.0
      && r.0[k].data.sleepHours == Some(hours) && r.0[k].data.sleepQuality == quality
      && r.0[k].data.sleepNotes == notes
      && (k in t ==> r.0[k].data.symptoms == t[k].data.symptoms &&
                     r.0[k].data.symptomSeverity == t[k].data.symptomSeverity &&
                     r.0[k].data.symptomNotes == t[k].data.symptomNotes)
      && (k !in t ==> r.0[k].data.symptoms.None? && r.0[k].data.symptomSeverity.None? &&
                      r.0[k].data.symptomNotes.None?)
  {
    var user := ResolveUser(userId, sessionUser);
    if Rejected(quality, ValidQualities) then
      (t, Failure("Invalid sleep quality. Must be one of: poor, fair, good, excellent"))
    else
      match LogDay(logDate, parse, today)
      case None => (t, Failure("invalid input syntax for type date"))
      case Some(date) =>
        (WriteSleep(t, (user, date), hours, quality, notes, freshId), Success(SleepLogged(hours, quality, date)))
  }

  /** `log_symptoms_tool`: a rejected severity fails before the table is
      read, and a log date the database cannot read fails at the first
      query; otherwise the normalized symptoms and the severity and notes are
      written to the user's log for the day and nothing else changes. */
  function LogSymptoms(t: Table, symptoms: seq<string>, severity: Option<string>, notes: Option<string>,
                       userId: Option<string>, sessionUser: Option<string>, logDate: Option<string>,
                       parse: string -> Option<Date>, today: Date, freshId: string): (r: (Table, Result<SymptomsLogged, string>))
    ensures r.1.Failure? <==> Rejected(severity, ValidSeverities) || (logDate.Some? && parse(logDate.value).None?)
    ensures r.1.Failure? ==> r.0 == t
    ensures r.1.Success? ==>
      var k := (ResolveUser(userId, sessionUser), LogDay(logDate, parse, today).value);
      && r.1.value == SymptomsLogged(NormalizeSymptoms(symptoms), severity, k.1)
      && SameExcept(t, r.0, k) && k in r.0
      && r.0[k].data.symptoms == Some(NormalizeSymptoms(symptoms))
      && r.0[k].data.symptomSeverity == severity && r.0[k].data.symptomNotes == notes
      && (k in t ==> r.0[k].data.sleepHours == t[k].data.sleepHours &&
                     r.0[k].data.sleepQuality == t[k].data.sleepQuality &&
                     r.0[k].data.sleepNotes == t[k].data.sleepNotes)
      && (k !in t ==> r.0[k].data.sleepHours.None? && r.0[k].data.sleepQuality.None? &&
                      r.0[k].data.sleepNotes.None?)
  {
    var user := ResolveUser(userId, sessionUser);
    if Rejected(severity, ValidSeverities) then
      (t, Failure("Invalid symptom severity. Must be one of: mild, moderate, severe"))
    else
      match LogDay(logDate, parse, today)
      case None => (t, Failure("invalid input syntax for type date"))
      case Some(date) =>
        var normalized := NormalizeSymptoms(symptoms);
        (WriteSymptoms(t, (user, date), normalized, severity, notes, freshId),
         Success(SymptomsLogged(normalized, severity, date)))
  }

  // ---------------------------------------------------------------------
  // Rainbow summary
  // ---------------------------------------------------------------------

  /** The five canonical produce colours, in display order. */
  const AllColors: seq<string> := ["Red", "Orange/Yellow", "Green", "Blue/Purple", "White/Brown"]

  /** One row of the per-colour aggregate query. */
  datatype ColorRow = ColorRow(color: string, daysConsumed: nat, timesConsumed: nat, exampleFoods: string)

  datatype ColorStats = ColorStats(daysConsumed: nat, timesConsumed: nat, exampleFoods: string)

  datatype RainbowSummary = RainbowSummary(
    startDate: Date,
    consumedColors: map<string, ColorStats>,
    missingColors: seq<string>,
    totalColorsConsumed: nat,
    colorsNeeded: int)

  /** The `consumed_colors` dictionary: one entry per colour, a later row for
      the same colour replacing an earlier one. */
  function Consumed(rows: seq<ColorRow>): (m: map<string, ColorStats>)
    ensures forall c :: c in m <==> exists i :: 0 <= i < |rows| && rows[i].color == c
    decreases |rows|
  {
    if rows == [] then map[]
    else
      var last := rows[|rows| - 1];
      var pre := rows[..|rows| - 1];
      Consumed(pre)[last.color := ColorStats(last.daysConsumed, last.timesConsumed, last.exampleFoods)]
  }

  /** Row `i` is the last row of colour `c`, and `stats` are its figures. */
  predicate LastRowOf(rows: seq<ColorRow>, c: string, i: int, stats: ColorStats) {
    && 0 <= i < |rows| && rows[i].color == c
    && stats == ColorStats(rows[i].daysConsumed, rows[i].timesConsumed, rows[i].exampleFoods)
    && forall j :: i < j < |rows| ==> rows[j].color != c
  }

  /** Each colour's entry holds the figures of the last row of that colour. */
  lemma {:induction false} ConsumedLastWins(rows: seq<ColorRow>, c: string)
    requires c in Consumed(rows)
    ensures exists i :: LastRowOf(rows, c, i, Consumed(rows)[c])
    decreases |rows|
  {
    var last := rows[|rows| - 1];
    var pre := rows[..|rows| - 1];
    if last.color == c {
      assert LastRowOf(rows, c, |rows| - 1, Consumed(rows)[c]);
    } else {
      assert Consumed(rows) == Consumed(pre)[last.color := ColorStats(last.daysConsumed, last.timesConsumed, last.exampleFoods)];
      assert c in Consumed(pre) && Consumed(rows)[c] == Consumed(pre)[c];
      ConsumedLastWins(pre, c);
      var i :| LastRowOf(pre, c, i, Consumed(pre)[c]);
      assert rows[i] == pre[i];
      forall j | i < j < |rows| ensures rows[j].color != c {
        if j < |pre| {
          assert rows[j] == pre[j];
        }
      }
      assert LastRowOf(rows, c, i, Consumed(rows)[c]);
    }
  }

  /** The colours of `colors` that are not keys of `m`, in order. */
  function MissingFrom(colors: seq<string>, m: map<string, ColorStats>): (r: seq<string>)
    ensures forall c :: c in r <==> c in colors && c !in m
    ensures |r| <= |colors|
  {
    if colors == [] then []
    else (if colors[0] in m then [] else [colors[0]]) + MissingFrom(colors[1..], m)
  }

  /** `get_rainbow_summary_tool` over the week's aggregate rows. */
  function GetRainbowSummary(rows: seq<ColorRow>, today: Date): (s: RainbowSummary)
    ensures s.startDate == MondayOf(today)
    ensures s.consumedColors == Consumed(rows)
    ensures forall c :: c in s.consumedColors <==> exists i :: 0 <= i < |rows| && rows[i].color == c
    ensures s.missingColors == MissingFrom(AllColors, s.consumedColors)
    ensures forall c :: c in s.missingColors <==> c in AllColors && c !in s.consumedColors
    ensures s.totalColorsConsumed == |s.consumedColors|
    ensures s.totalColorsConsumed + s.colorsNeeded == 5
  {
    var consumed := Consumed(rows);
    RainbowSummary(MondayOf(today), consumed, MissingFrom(AllColors, consumed), |consumed|, 5 - |consumed|)
  }

  /** The position of a colour in the canonical list; 5 for any other colour. */
  function ColorRank(c: string): (k: nat)
    ensures k < 5 ==> AllColors[k] == c
    ensures k == 5 <==> c !in AllColors
  {
    if c == "Red" then 0
    else if c == "Orange/Yellow" then 1
    else if c == "Green" then 2
    else if c == "Blue/Purple" then 3
    else if c == "White/Brown" then 4
    else 5
  }

  /** Colours listed in strictly increasing canonical position. */
  predicate InCanonicalOrder(colors: seq<string>) {
    forall i, j :: 0 <= i < j < |colors| ==> ColorRank(colors[i]) < ColorRank(colors[j])
  }

  /** Dropping colours keeps the canonical order. */
  lemma {:induction false} MissingKeepsOrder(colors: seq<string>, m: map<string, ColorStats>)
    requires InCanonicalOrder(colors)
    ensures InCanonicalOrder(MissingFrom(colors, m))
  {
    if colors != [] {
      var tail := colors[1..];
      var rest := MissingFrom(tail, m);
      MissingKeepsOrder(tail, m);
      assert InCanonicalOrder(tail) by {
        forall i, j | 0 <= i < j < |tail| ensures ColorRank(tail[i]) < ColorRank(tail[j]) {
          assert tail[i] == colors[i + 1] && tail[j] == colors[j + 1];
        }
      }
      forall k | 0 <= k < |rest| ensures ColorRank(colors[0]) < ColorRank(rest[k]) {
        assert rest[k] in rest;
        var j :| 0 <= j < |tail| && tail[j] == rest[k];
        assert colors[j + 1] == rest[k];
      }
    }
  }

  /** The missing list follows the canonical order. */
  lemma MissingInCanonicalOrder(rows: seq<ColorRow>, today: Date)
    ensures InCanonicalOrder(GetRainbowSummary(rows, today).missingColors)
  {
    CanonicalListInOrder();
    MissingKeepsOrder(AllColors, Consumed(rows));
    assert GetRainbowSummary(rows, today).missingColors == MissingFrom(AllColors, Consumed(rows));
  }

  lemma CanonicalListInOrder()
    ensures InCanonicalOrder(AllColors)
  {
    forall k | 0 <= k < 5 ensures ColorRank(AllColors[k]) == k {
    }
  }

  /** How many entries of `colors` are in `k`. */
  function CountIn(colors: seq<string>, k: set<string>): nat {
    if colors == [] then 0 else (if colors[0] in k then 1 else 0) + CountIn(colors[1..], k)
  }

  lemma {:induction false} MissingPlusCount(colors: seq<string>, m: map<string, ColorStats>)
    ensures |MissingFrom(colors, m)| + CountIn(colors, m.Keys) == |colors|
  {
    if colors != [] {
      MissingPlusCount(colors[1..], m);
    }
  }

  /** A set drawn from a repeat-free list has as many members as the list
      has entries in it. */
  lemma {:induction false} CountInIsCard(colors: seq<string>, k: set<string>)
    requires forall i, j :: 0 <= i < j < |colors| ==> colors[i] != colors[j]
    requires forall c :: c in k ==> c in colors
    ensures CountIn(colors, k) == |k|
  {
    if colors != [] {
      var tail := colors[1..];
      var k' := k - {colors[0]};
      forall c | c in k' ensures c in tail {
        var i :| 0 <= i < |colors| && colors[i] == c;
      }
      CountInIsCard(tail, k');
      CountInSame(tail, k, k');
    }
  }

  lemma {:induction false} CountInSame(colors: seq<string>, k: set<string>, k': set<string>)
    requires forall i :: 0 <= i < |colors| ==> (colors[i] in k <==> colors[i] in k')
    ensures CountIn(colors, k) == CountIn(colors, k')
  {
    if colors != [] {
      CountInSame(colors[1..], k, k');
    }
  }

  /** When every consumed colour is canonical, the number still needed is
      the length of the missing list. A colour outside the five is counted
      as consumed without shortening the list. */
  lemma NeededMatchesMissing(rows: seq<ColorRow>, today: Date)
    requires forall i :: 0 <= i < |rows| ==> rows[i].color in AllColors
    ensures var s := GetRainbowSummary(rows, today);
      s.colorsNeeded == |s.missingColors|
  {
    var m := Consumed(rows);
    MissingPlusCount(AllColors, m);
    forall c | c in m.Keys ensures c in AllColors {
      var i :| 0 <= i < |rows| && rows[i].color == c;
    }
    CanonicalListInOrder();
    assert forall i, j :: 0 <= i < j < |AllColors| ==> ColorRank(AllColors[i]) < ColorRank(AllColors[j]);
    CountInIsCard(AllColors, m.Keys);
  }

  /** A non-canonical colour makes the count and the list disagree. */
  lemma OffPaletteColorSkewsNeeded(today: Date)
    ensures var s := GetRainbowSummary([ColorRow("Teal", 1, 1, "kale")], today);
      s.colorsNeeded == 4 && |s.missingColors| == 5
  {
    var rows := [ColorRow("Teal", 1, 1, "kale")];
    var m := Consumed(rows);
    assert m == map["Teal" := ColorStats(1, 1, "kale")];
    MissingFromDisjoint(AllColors, m);
  }

  lemma {:induction false} MissingFromDisjoint(colors: seq<string>, m: map<string, ColorStats>)
    requires forall i :: 0 <= i < |colors| ==> colors[i] !in m
    ensures MissingFrom(colors, m) == colors
  {
    if colors != [] {
      MissingFromDisjoint(colors[1..], m);
    }
  }
}
