/** The daily sleep-and-symptom log records (app/daily_logs/models.py). */
module DailyLogModels {
  import opened Wrappers
  import opened Calendar

  /** The six data fields of a log, each optional and absent by default.
      Sleep hours are a decimal in the source; the model keeps them as a
      `real` and does no arithmetic on them. */
  datatype LogData = LogData(
    sleepHours: Option<real>,
    sleepQuality: Option<string>,
    sleepNotes: Option<string>,
    symptoms: Option<seq<string>>,
    symptomSeverity: Option<string>,
    symptomNotes: Option<string>)

  /** Every data field at its default. */
  const NoData: LogData := LogData(None, None, None, None, None, None)

  /** `DailyLogCreate`: the key fields are required, the data optional. */
  datatype DailyLogCreate = DailyLogCreate(userId: string, logDate: Date, data: LogData)

  /** `DailyLogUpdate` has exactly the six optional data fields, so it is the
      data record itself; a field left at None means "leave unchanged". */
  type DailyLogUpdate = LogData

  /** `DailyLog` without its two timestamps. */
  datatype DailyLog = DailyLog(id: string, userId: string, logDate: Date, data: LogData)
}
