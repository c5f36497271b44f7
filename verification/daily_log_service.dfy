/** The daily-log store (app/daily_logs/service.py). The `daily_logs` table,
    whose (user, date) pair is unique, is a map from that pair to the row's
    id and data; each operation returns the new table with its result. */
module DailyLogService {
  import opened Wrappers
  import opened Calendar
  import opened DailyLogModels

  /** The stored part of a row besides its key. */
  datatype LogRow = LogRow(id: string, data: LogData)

  type Key = (string, Date)
  type Table = map<Key, LogRow>

  /** Nothing outside key `k` differs between `t` and `u`. */
  ghost predicate SameExcept(t: Table, u: Table, k: Key) {
    forall k' :: k' != k ==> (k' in t <==> k' in u) && (k' in t && k' in u ==> t[k'] == u[k'])
  }

  /** `_map_daily_log`: the row as a log, with a NULL symptom list read as
      the empty list. */
  function MapDailyLog(user: string, date: Date, row: LogRow): (log: DailyLog)
    ensures log.id == row.id && log.userId == user && log.logDate == date
    ensures log.data.symptoms.Some?
    ensures row.data.symptoms.Some? ==> log.data.symptoms == row.data.symptoms
    ensures row.data.symptoms.None? ==> log.data.symptoms == Some([])
    ensures log.data.(symptoms := row.data.symptoms) == row.data
  {
    var symptoms := if row.data.symptoms.Some? then row.data.symptoms else Some([]);
    DailyLog(row.id, user, date, row.data.(symptoms := symptoms))
  }

  /** `get_daily_log`. */
  function GetDailyLog(t: Table, user: string, date: Date): (r: Option<DailyLog>)
    ensures r.Some? <==> (user, date) in t
    ensures r.Some? ==> r.value.id == t[(user, date)].id && r.value.userId == user && r.value.logDate == date
    ensures r.Some? ==> r.value.data.(symptoms := t[(user, date)].data.symptoms) == t[(user, date)].data
    ensures r.Some? ==> r.value == MapDailyLog(user, date, t[(user, date)])
    ensures r.Some? && t[(user, date)].data.symptoms.None? ==> r.value.data.symptoms == Some([])
    ensures r.Some? && t[(user, date)].data.symptoms.Some? ==>
      r.value.data.symptoms == t[(user, date)].data.symptoms
  {
    if (user, date) in t then Some(MapDailyLog(user, date, t[(user, date)])) else None
  }

  /** `get_daily_logs_range`: the user's logs dated `start` to `end`, both
      included, newest first. */
  function GetDailyLogsRange(t: Table, user: string, start: Date, end: Date): (logs: seq<DailyLog>)
    ensures forall i :: 0 <= i < |logs| ==>
      start <= logs[i].logDate <= end && GetDailyLog(t, user, logs[i].logDate) == Some(logs[i])
    ensures forall i, j :: 0 <= i < j < |logs| ==> logs[i].logDate > logs[j].logDate
    ensures forall d :: start <= d <= end && (user, d) in t ==> GetDailyLog(t, user, d).value in logs
    decreases end - start
  {
    if end < start then []
    else
      var rest := GetDailyLogsRange(t, user, start, end - 1);
      var here := GetDailyLog(t, user, end);
      if here.Some? then [here.value] + rest else rest
  }

  /** `create_daily_log`: a plain INSERT, so a second log for the same user
      and date violates the unique constraint and fails. */
  function CreateDailyLog(t: Table, c: DailyLogCreate, freshId: string): (r: Result<(Table, DailyLog), string>)
    ensures r.Failure? <==> (c.userId, c.logDate) in t
    ensures r.Success? ==>
      var (t', log) := r.value;
      && SameExcept(t, t', (c.userId, c.logDate))
      && (c.userId, c.logDate) in t' && t'[(c.userId, c.logDate)] == LogRow(freshId, c.data)
      && GetDailyLog(t', c.userId, c.logDate) == Some(log)
  {
    var k := (c.userId, c.logDate);
    if k in t then Failure("duplicate key value violates unique constraint")
    else
      var t' := t[k := LogRow(freshId, c.data)];
      Success((t', MapDailyLog(c.userId, c.logDate, t'[k])))
  }

  /** Every field of the update is None: nothing to write. */
  predicate NoFields(u: DailyLogUpdate) {
    u == NoData
  }

  /** One column of the dynamic SET clause: written when given, kept otherwise. */
  function Overwrite<T>(stored: Option<T>, given: Option<T>): (r: Option<T>)
    ensures given.Some? ==> r == given
    ensures given.None? ==> r == stored
  {
    if given.Some? then given else stored
  }

  /** The data after the dynamic UPDATE. */
  function ApplyUpdate(d: LogData, u: DailyLogUpdate): LogData {
    LogData(
      Overwrite(d.sleepHours, u.sleepHours),
      Overwrite(d.sleepQuality, u.sleepQuality),
      Overwrite(d.sleepNotes, u.sleepNotes),
      Overwrite(d.symptoms, u.symptoms),
      Overwrite(d.symptomSeverity, u.symptomSeverity),
      Overwrite(d.symptomNotes, u.symptomNotes))
  }

  /** `update_daily_log`: with no field given, no write and the current log;
      with no stored log, no write and None; otherwise exactly the given
      fields are overwritten and the new log returned. */
  function UpdateDailyLog(t: Table, user: string, date: Date, u: DailyLogUpdate): (r: (Table, Option<DailyLog>))
    ensures NoFields(u) ==> r.0 == t && r.1 == GetDailyLog(t, user, date)
    ensures !NoFields(u) && (user, date) !in t ==> r.0 == t && r.1.None?
    ensures !NoFields(u) && (user, date) in t ==>
      && SameExcept(t, r.0, (user, date))
      && (user, date) in r.0
      && r.0[(user, date)].id == t[(user, date)].id
      && r.1 == GetDailyLog(r.0, user, date)
  {
    var k := (user, date);
    if NoFields(u) then (t, GetDailyLog(t, user, date))
    else if k !in t then (t, None)
    else
      var t' := t[k := LogRow(t[k].id, ApplyUpdate(t[k].data, u))];
      (t', GetDailyLog(t', user, date))
  }

  /** The stored data after an update, field by field: a field given as None
      keeps its stored value and any other field takes the given one. */
  lemma UpdateFieldwise(t: Table, user: string, date: Date, u: DailyLogUpdate)
    requires (user, date) in t
    ensures var d := t[(user, date)].data;
      var d' := UpdateDailyLog(t, user, date, u).0[(user, date)].data;
      && (u.sleepHours.None? ==> d'.sleepHours == d.sleepHours)
      && (u.sleepHours.Some? ==> d'.sleepHours == u.sleepHours)
      && (u.sleepQuality.None? ==> d'.sleepQuality == d.sleepQuality)
      && (u.sleepQuality.Some? ==> d'.sleepQuality == u.sleepQuality)
      && (u.sleepNotes.None? ==> d'.sleepNotes == d.sleepNotes)
      && (u.sleepNotes.Some? ==> d'.sleepNotes == u.sleepNotes)
      && (u.symptoms.None? ==> d'.symptoms == d.symptoms)
      && (u.symptoms.Some? ==> d'.symptoms == u.symptoms)
      && (u.symptomSeverity.None? ==> d'.symptomSeverity == d.symptomSeverity)
      && (u.symptomSeverity.Some? ==> d'.symptomSeverity == u.symptomSeverity)
      && (u.symptomNotes.None? ==> d'.symptomNotes == d.symptomNotes)
      && (u.symptomNotes.Some? ==> d'.symptomNotes == u.symptomNotes)
  {
  }

  /** Applying the same update twice stores what applying it once does. */
  lemma UpdateIdempotent(t: Table, user: string, date: Date, u: DailyLogUpdate)
    ensures var t1 := UpdateDailyLog(t, user, date, u).0;
      UpdateDailyLog(t1, user, date, u).0 == t1
  {
    var k := (user, date);
    if !NoFields(u) && k in t {
      var t1 := UpdateDailyLog(t, user, date, u).0;
      assert ApplyUpdate(t1[k].data, u) == t1[k].data;
      assert t1[k := LogRow(t1[k].id, ApplyUpdate(t1[k].data, u))] == t1;
    }
  }

  /** `upsert_daily_log`: insert when absent; otherwise replace all six data
      fields with the given ones, None included, keeping the row's id. */
  function UpsertDailyLog(t: Table, c: DailyLogCreate, freshId: string): (r: (Table, DailyLog))
    ensures SameExcept(t, r.0, (c.userId, c.logDate))
    ensures (c.userId, c.logDate) in r.0 && r.0[(c.userId, c.logDate)].data == c.data
    ensures r.0[(c.userId, c.logDate)].id ==
      if (c.userId, c.logDate) in t then t[(c.userId, c.logDate)].id else freshId
    ensures GetDailyLog(r.0, c.userId, c.logDate) == Some(r.1)
  {
    var k := (c.userId, c.logDate);
    var id := if k in t then t[k].id else freshId;
    var t' := t[k := LogRow(id, c.data)];
    (t', MapDailyLog(c.userId, c.logDate, t'[k]))
  }

  /** On an absent key, upsert stores what create would. */
  lemma UpsertAgreesWithCreate(t: Table, c: DailyLogCreate, freshId: string)
    requires (c.userId, c.logDate) !in t
    ensures CreateDailyLog(t, c, freshId) == Success(UpsertDailyLog(t, c, freshId))
  {
  }

  /** On a stored key, an update that gives every field writes what upsert
      writes; an upsert differs from an update exactly in that its None
      fields clear the stored ones. */
  lemma FullUpdateIsUpsert(t: Table, c: DailyLogCreate, freshId: string)
    requires (c.userId, c.logDate) in t
    requires c.data.sleepHours.Some? && c.data.sleepQuality.Some? && c.data.sleepNotes.Some?
    requires c.data.symptoms.Some? && c.data.symptomSeverity.Some? && c.data.symptomNotes.Some?
    ensures UpdateDailyLog(t, c.userId, c.logDate, c.data) ==
      (UpsertDailyLog(t, c, freshId).0, Some(UpsertDailyLog(t, c, freshId).1))
  {
  }

  /** An upsert whose sleep fields are None clears the stored sleep data,
      where an update would have kept it. */
  lemma UpsertClearsSleep(t: Table, c: DailyLogCreate, freshId: string)
    requires (c.userId, c.logDate) in t
    requires c.data.sleepHours.None? && c.data.symptoms.Some?
    ensures UpsertDailyLog(t, c, freshId).0[(c.userId, c.logDate)].data.sleepHours.None?
    ensures UpdateDailyLog(t, c.userId, c.logDate, c.data).0[(c.userId, c.logDate)].data.sleepHours ==
      t[(c.userId, c.logDate)].data.sleepHours
  {
  }

  /** `delete_daily_log`: reports whether a row was removed. */
  function DeleteDailyLog(t: Table, user: string, date: Date): (r: (Table, bool))
    ensures r.1 <==> (user, date) in t
    ensures GetDailyLog(r.0, user, date).None?
    ensures SameExcept(t, r.0, (user, date))
  {
    var k := (user, date);
    (t - {k}, k in t)
  }

  /** Deleting what was just created gives the table back. */
  lemma DeleteUndoesCreate(t: Table, c: DailyLogCreate, freshId: string)
    requires (c.userId, c.logDate) !in t
    ensures var t1 := CreateDailyLog(t, c, freshId).value.0;
      DeleteDailyLog(t1, c.userId, c.logDate) == (t, true)
  {
    var t1 := CreateDailyLog(t, c, freshId).value.0;
    assert t1 - {(c.userId, c.logDate)} == t;
  }
}
