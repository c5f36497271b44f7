/** The training-session side of the vector store (app/db/chroma_service.py):
    decoding the JSON-string fields of a session's metadata, and building the
    Monday-to-Sunday grid with its weekly counters. The store itself is a
    sequence of stored sessions; the JSON parser and the date parser are
    parameters. */
module ChromaService {
  import opened Wrappers
  import opened Calendar

  // ---------------------------------------------------------------------
  // Metadata deserialization
  // ---------------------------------------------------------------------

  /** A JSON value. */
  datatype Json =
    | JNull
    | JBool(b: bool)
    | JNum(n: int)
    | JStr(s: string)
    | JArr(items: seq<Json>)
    | JObj(fields: map<string, Json>)

  /** The four metadata keys stored as JSON strings, each with the value that
      replaces a string that does not parse. */
  function DefaultFor(key: string): Option<Json> {
    if key == "calendar" then Some(JObj(map["events" := JArr([])]))
    else if key == "weather" then Some(JObj(map["hours" := JArr([])]))
    else if key == "time_scheduled" then Some(JArr([]))
    else if key == "data_points" then Some(JObj(map["laps" := JArr([])]))
    else None
  }

  /** One step of `_deserialize_metadata`: a string under `key` is replaced by
      its parse, or by the key's default when it does not parse. */
  function DecodeKey(m: map<string, Json>, key: string, default: Json, parse: string -> Option<Json>):
    (r: map<string, Json>)
    ensures r.Keys == m.Keys
    ensures forall k :: k in m && k != key ==> r[k] == m[k]
    ensures key in m && m[key].JStr? ==> r[key] == parse(m[key].s).GetOr(default)
    ensures key in m && !m[key].JStr? ==> r[key] == m[key]
  {
    if key in m && m[key].JStr? then m[key := parse(m[key].s).GetOr(default)] else m
  }

  /** `_deserialize_metadata`: works on a copy, so the keys stay the same. */
  function DeserializeMetadata(m: map<string, Json>, parse: string -> Option<Json>): (r: map<string, Json>)
    ensures r.Keys == m.Keys
  {
    var m1 := DecodeKey(m, "calendar", JObj(map["events" := JArr([])]), parse);
    var m2 := DecodeKey(m1, "weather", JObj(map["hours" := JArr([])]), parse);
    var m3 := DecodeKey(m2, "time_scheduled", JArr([]), parse);
    DecodeKey(m3, "data_points", JObj(map["laps" := JArr([])]), parse)
  }

  /** Key by key: any key but the four is untouched, and so is a non-string
      under one of them; a string under one of them becomes its parse, or the
      key's default when it does not parse. */
  lemma DeserializeMetadataMeaning(m: map<string, Json>, parse: string -> Option<Json>, k: string)
    requires k in m
    ensures var r := DeserializeMetadata(m, parse);
      && (DefaultFor(k).None? ==> r[k] == m[k])
      && (DefaultFor(k).Some? && !m[k].JStr? ==> r[k] == m[k])
      && (DefaultFor(k).Some? && m[k].JStr? ==> r[k] == parse(m[k].s).GetOr(DefaultFor(k).value))
  {
  }

  /** Metadata without a string under any of the four keys comes back unchanged. */
  lemma DeserializeWithoutStrings(m: map<string, Json>, parse: string -> Option<Json>)
    requires forall k :: k in m && DefaultFor(k).Some? ==> !m[k].JStr?
    ensures DeserializeMetadata(m, parse) == m
  {
    var r := DeserializeMetadata(m, parse);
    forall k | k in m ensures r[k] == m[k] {
      DeserializeMetadataMeaning(m, parse, k);
    }
  }

  /** The metadata keys the weekly grid reads. */
  const GridKeys: set<string> := {"date", "type", "distance", "actual_distance", "session_completed"}

  /** Deserializing leaves the keys the weekly grid reads untouched, so the
      grid's `SessionMeta` holds exactly what was stored under them. */
  lemma DeserializeKeepsGridKeys(m: map<string, Json>, parse: string -> Option<Json>)
    ensures forall k :: k in m && k in GridKeys ==> DeserializeMetadata(m, parse)[k] == m[k]
  {
    forall k | k in m && k in GridKeys ensures DeserializeMetadata(m, parse)[k] == m[k] {
      assert DefaultFor(k).None?;
      DeserializeMetadataMeaning(m, parse, k);
    }
  }

  /** An unparseable calendar string becomes the empty event list. */
  lemma UnparseableCalendar(m: map<string, Json>, parse: string -> Option<Json>)
    requires "calendar" in m && m["calendar"].JStr? && parse(m["calendar"].s).None?
    ensures DeserializeMetadata(m, parse)["calendar"] == JObj(map["events" := JArr([])])
  {
    DeserializeMetadataMeaning(m, parse, "calendar");
  }

  // ---------------------------------------------------------------------
  // The weekly grid
  // ---------------------------------------------------------------------

  /** The metadata fields the weekly view reads; an absent key is None.
      Deserializing does not touch these keys (`DeserializeKeepsGridKeys`),
      so they are taken as stored. */
  datatype SessionMeta = SessionMeta(
    date: Date,
    sessionType: Option<string>,
    distance: Option<int>,
    actualDistance: Option<int>,
    sessionCompleted: Option<bool>)

  datatype StoredSession = StoredSession(id: string, document: string, meta: SessionMeta)

  /** Entry `i` is the last stored session dated `d`. */
  predicate LastOfDate(store: seq<StoredSession>, i: int, d: Date) {
    && 0 <= i < |store| && store[i].meta.date == d
    && forall j :: i < j < |store| ==> store[j].meta.date != d
  }

  /** The session the grid uses for date `d`: the per-day lookups overwrite
      one dictionary entry per date, so the last stored session of that date wins. */
  function LastSessionOn(store: seq<StoredSession>, d: Date): (r: Option<StoredSession>)
    ensures r.Some? ==> r.value in store && r.value.meta.date == d
    decreases |store|
  {
    if store == [] then None
    else
      var last := store[|store| - 1];
      if last.meta.date == d then Some(last) else LastSessionOn(store[..|store| - 1], d)
  }

  /** The lookup finds a session exactly when one is stored for the date, and
      then it is the last one stored. */
  lemma {:induction false} LastSessionOnIsLast(store: seq<StoredSession>, d: Date)
    ensures LastSessionOn(store, d).None? <==> forall i :: 0 <= i < |store| ==> store[i].meta.date != d
    ensures LastSessionOn(store, d).Some? ==>
      exists i :: LastOfDate(store, i, d) && store[i] == LastSessionOn(store, d).value
    decreases |store|
  {
    if store != [] {
      var pre := store[..|store| - 1];
      var last := store[|store| - 1];
      LastSessionOnIsLast(pre, d);
      assert forall i :: 0 <= i < |pre| ==> store[i] == pre[i];
      if last.meta.date == d {
        assert LastOfDate(store, |store| - 1, d);
      } else if LastSessionOn(pre, d).Some? {
        var i :| LastOfDate(pre, i, d) && pre[i] == LastSessionOn(pre, d).value;
        assert LastOfDate(store, i, d);
      }
    }
  }

  /** One row of `week_data`. */
  datatype DayEntry = DayEntry(
    date: Date,
    dayName: string,
    sessionType: string,
    plannedDistance: int,
    actualDistance: int,
    sessionCompleted: bool,
    hasActivity: bool,
    isToday: bool)

  /** The grid row for date `d`: the session's fields with their defaults,
      or the fixed "No Session" row when no session is stored for it. */
  function EntryFor(s: Option<StoredSession>, d: Date, today: Date): (e: DayEntry)
    ensures e.date == d && e.dayName == DayName(d) && (e.isToday <==> d == today)
    ensures s.None? ==> e.sessionType == "No Session" && e.plannedDistance == 0
    ensures s.None? ==> e.actualDistance == 0 && !e.sessionCompleted && !e.hasActivity
    ensures s.Some? ==>
      && e.sessionType == s.value.meta.sessionType.GetOr("No Session")
      && e.plannedDistance == s.value.meta.distance.GetOr(0)
      && e.actualDistance == s.value.meta.actualDistance.GetOr(0)
      && e.sessionCompleted == s.value.meta.sessionCompleted.GetOr(false)
    ensures e.hasActivity <==> e.sessionType != "Rest Day" && e.actualDistance > 0
  {
    match s
    case None => DayEntry(d, DayName(d), "No Session", 0, 0, false, false, d == today)
    case Some(x) =>
      var kind := x.meta.sessionType.GetOr("No Session");
      var actual := x.meta.actualDistance.GetOr(0);
      DayEntry(d, DayName(d), kind, x.meta.distance.GetOr(0), actual,
        x.meta.sessionCompleted.GetOr(false), kind != "Rest Day" && actual > 0, d == today)
  }

  /** A day that counts toward the session totals: not a rest day, and with a
      positive planned distance. */
  predicate Counted(e: DayEntry) {
    e.sessionType != "Rest Day" && e.plannedDistance > 0
  }

  /** Reference counters over a prefix of the grid (folded from the left). */
  function CountedSessions(days: seq<DayEntry>): nat
    decreases |days|
  {
    if days == [] then 0
    else CountedSessions(days[..|days| - 1]) + (if Counted(days[|days| - 1]) then 1 else 0)
  }

  function PlannedTotal(days: seq<DayEntry>): int
    decreases |days|
  {
    if days == [] then 0
    else
      var e := days[|days| - 1];
      PlannedTotal(days[..|days| - 1]) + (if Counted(e) then e.plannedDistance else 0)
  }

  function CompletedTotal(days: seq<DayEntry>): int
    decreases |days|
  {
    if days == [] then 0
    else
      var e := days[|days| - 1];
      CompletedTotal(days[..|days| - 1]) + (if Counted(e) then e.actualDistance else 0)
  }

  function CompletedSessions(days: seq<DayEntry>): nat
    decreases |days|
  {
    if days == [] then 0
    else CompletedSessions(days[..|days| - 1]) + (if days[|days| - 1].sessionCompleted then 1 else 0)
  }

  /** `completed_sessions / total_sessions * 100`, or 0 with no sessions. */
  function CompletionRate(completed: nat, total: nat): (rate: real)
    ensures total == 0 ==> rate == 0.0
    ensures total > 0 ==> rate * (total as real) == (completed as real) * 100.0
  {
    if total > 0 then (completed as real) / (total as real) * 100.0 else 0.0
  }

  datatype WeekSummary = WeekSummary(
    totalDistancePlanned: int,
    totalDistanceCompleted: int,
    totalSessions: nat,
    completedSessions: nat,
    completionRate: real,
    weekStart: Date,
    weekEnd: Date)

  datatype WeeklyResult =
    | WeekError(message: string)
    | WeekOk(data: seq<DayEntry>, summary: WeekSummary)

  /** The grid: the seven days from `monday`, each with its stored session. */
  function WeekGrid(store: seq<StoredSession>, monday: Date, today: Date): (days: seq<DayEntry>)
    ensures |days| == 7
    ensures forall i :: 0 <= i < 7 ==> days[i] == EntryFor(LastSessionOn(store, monday + i), monday + i, today)
    ensures Weekday(monday) == 0 ==> forall i :: 0 <= i < 7 ==> days[i].dayName == DayNames[i]
  {
    var days := seq(7, i requires 0 <= i < 7 => EntryFor(LastSessionOn(store, monday + i), monday + i, today));
    WeekDayNames(days, monday, today, store);
    days
  }

  lemma WeekDayNames(days: seq<DayEntry>, monday: Date, today: Date, store: seq<StoredSession>)
    requires |days| == 7
    requires forall i :: 0 <= i < 7 ==> days[i] == EntryFor(LastSessionOn(store, monday + i), monday + i, today)
    ensures Weekday(monday) == 0 ==> forall i :: 0 <= i < 7 ==> days[i].dayName == DayNames[i]
  {
    if Weekday(monday) == 0 {
      forall i | 0 <= i < 7 ensures days[i].dayName == DayNames[i] {
        WeekdayOfOffset(monday, i);
      }
    }
  }

  /** The summary loop of `get_weekly_sessions`. */
  method SummarizeWeek(days: seq<DayEntry>, monday: Date) returns (s: WeekSummary)
    ensures s.totalSessions == CountedSessions(days)
    ensures s.totalDistancePlanned == PlannedTotal(days)
    ensures s.totalDistanceCompleted == CompletedTotal(days)
    ensures s.completedSessions == CompletedSessions(days)
    ensures s.completionRate == CompletionRate(s.completedSessions, s.totalSessions)
    ensures s.weekStart == monday && s.weekEnd == monday + 6
  {
    var planned, completed, total, done := 0, 0, 0, 0;
    var i := 0;
    while i < |days|
      invariant 0 <= i <= |days|
      invariant total == CountedSessions(days[..i])
      invariant planned == PlannedTotal(days[..i])
      invariant completed == CompletedTotal(days[..i])
      invariant done == CompletedSessions(days[..i])
    {
      var e := days[i];
      assert days[..i + 1][..i] == days[..i];
      if e.sessionType != "Rest Day" && e.plannedDistance > 0 {
        total := total + 1;
        planned := planned + e.plannedDistance;
        completed := completed + e.actualDistance;
      }
      if e.sessionCompleted {
        done := done + 1;
      }
      i := i + 1;
    }
    assert days[..i] == days;
    s := WeekSummary(planned, completed, total, done, CompletionRate(done, total), monday, monday + 6);
  }

  /** `get_weekly_sessions`: an unparseable start date is an error; otherwise
      the week from the Monday on or before the start date, Monday to Sunday,
      with its summary. */
  method GetWeeklySessions(startDate: string, parse: string -> Option<Date>, store: seq<StoredSession>,
                           today: Date) returns (r: WeeklyResult)
    ensures parse(startDate).None? <==> r.WeekError?
    ensures r.WeekOk? ==>
      var start := parse(startDate).value;
      && |r.data| == 7
      && r.summary.weekStart <= start < r.summary.weekStart + 7
      && Weekday(r.summary.weekStart) == 0
      && r.summary.weekEnd == r.summary.weekStart + 6
      && r.data == WeekGrid(store, r.summary.weekStart, today)
      && r.summary.totalSessions == CountedSessions(r.data)
      && r.summary.completedSessions == CompletedSessions(r.data)
      && r.summary.totalDistancePlanned == PlannedTotal(r.data)
      && r.summary.totalDistanceCompleted == CompletedTotal(r.data)
      && r.summary.completionRate == CompletionRate(r.summary.completedSessions, r.summary.totalSessions)
  {
    var start := parse(startDate);
    if start.None? {
      return WeekError("Invalid date format. Use YYYY-MM-DD");
    }
    var monday := MondayOf(start.value);
    var days := WeekGrid(store, monday, today);
    var summary := SummarizeWeek(days, monday);
    r := WeekOk(days, summary);
  }

  /** A date without a stored session gives the empty "No Session" row. */
  lemma NoSessionRow(store: seq<StoredSession>, d: Date, today: Date)
    requires forall i :: 0 <= i < |store| ==> store[i].meta.date != d
    ensures var e := EntryFor(LastSessionOn(store, d), d, today);
      e.sessionType == "No Session" && e.plannedDistance == 0 && e.actualDistance == 0 &&
      !e.sessionCompleted && !e.hasActivity
  {
    LastSessionOnIsLast(store, d);
  }

  /** The counters never exceed the days they range over. */
  lemma {:induction false} CountersBounded(days: seq<DayEntry>)
    ensures CountedSessions(days) <= |days| && CompletedSessions(days) <= |days|
    decreases |days|
  {
    if days != [] {
      CountersBounded(days[..|days| - 1]);
    }
  }

  /** Rest days never count as sessions, whatever their distance. */
  lemma {:induction false} RestDaysNotCounted(days: seq<DayEntry>)
    requires forall i :: 0 <= i < |days| ==> days[i].sessionType == "Rest Day"
    ensures CountedSessions(days) == 0 && PlannedTotal(days) == 0 && CompletedTotal(days) == 0
    decreases |days|
  {
    if days != [] {
      RestDaysNotCounted(days[..|days| - 1]);
    }
  }

  /** A rest day anywhere in the week, whatever its distance, leaves the
      session count and both distance totals as they are without it. */
  lemma {:induction false} RestDayAddsNothing(a: seq<DayEntry>, e: DayEntry, b: seq<DayEntry>)
    requires e.sessionType == "Rest Day"
    ensures CountedSessions(a + [e] + b) == CountedSessions(a + b)
    ensures PlannedTotal(a + [e] + b) == PlannedTotal(a + b)
    ensures CompletedTotal(a + [e] + b) == CompletedTotal(a + b)
    decreases |b|
  {
    if b == [] {
      assert a + [e] + b == a + [e];
      assert (a + [e])[..|a|] == a;
      assert a + b == a;
    } else {
      var b' := b[..|b| - 1];
      RestDayAddsNothing(a, e, b');
      assert (a + [e] + b)[..|a + [e] + b| - 1] == a + [e] + b';
      assert (a + b)[..|a + b| - 1] == a + b';
      assert (a + [e] + b)[|a + [e] + b| - 1] == b[|b| - 1];
      assert (a + b)[|a + b| - 1] == b[|b| - 1];
    }
  }

  /** The session count is the number of days that count, independently of
      the order the loop visits them in. */
  lemma {:induction false} CountedSessionsIsCard(days: seq<DayEntry>)
    ensures CountedSessions(days) == |set i | 0 <= i < |days| && Counted(days[i])|
    decreases |days|
  {
    if days != [] {
      var n := |days|;
      var pre := days[..n - 1];
      CountedSessionsIsCard(pre);
      var A := set i | 0 <= i < |pre| && Counted(pre[i]);
      var B := set i | 0 <= i < n && Counted(days[i]);
      var last := if Counted(days[n - 1]) then {n - 1} else {};
      forall i | i in A ensures i in B {
        assert days[i] == pre[i];
      }
      forall i | i in B ensures i in A + last {
        if i < n - 1 {
          assert days[i] == pre[i];
        }
      }
      assert B == A + last;
      assert n - 1 !in A;
    }
  }

  /** The completed count is the number of completed days, rest days included. */
  lemma {:induction false} CompletedSessionsIsCard(days: seq<DayEntry>)
    ensures CompletedSessions(days) == |set i | 0 <= i < |days| && days[i].sessionCompleted|
    decreases |days|
  {
    if days != [] {
      var n := |days|;
      var pre := days[..n - 1];
      CompletedSessionsIsCard(pre);
      var A := set i | 0 <= i < |pre| && pre[i].sessionCompleted;
      var B := set i | 0 <= i < n && days[i].sessionCompleted;
      var last := if days[n - 1].sessionCompleted then {n - 1} else {};
      forall i | i in A ensures i in B {
        assert days[i] == pre[i];
      }
      forall i | i in B ensures i in A + last {
        if i < n - 1 {
          assert days[i] == pre[i];
        }
      }
      assert B == A + last;
      assert n - 1 !in A;
    }
  }

  /** Completed days are counted whether or not they count as sessions, so
      the rate can pass 100: one completed run and one completed rest day
      give 200. */
  lemma CompletionRateCanPassHundred()
    ensures var days := [DayEntry(0, "Thursday", "Run", 5, 5, true, true, false),
                         DayEntry(1, "Friday", "Rest Day", 0, 0, true, false, false)];
      CountedSessions(days) == 1 && CompletedSessions(days) == 2 &&
      CompletionRate(CompletedSessions(days), CountedSessions(days)) == 200.0
  {
    var days := [DayEntry(0, "Thursday", "Run", 5, 5, true, true, false),
                 DayEntry(1, "Friday", "Rest Day", 0, 0, true, false, false)];
    assert days[..1] == [days[0]];
    assert days[..1][..0] == [];
  }
}
