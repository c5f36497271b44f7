# midwAIfe backend core in Dafny

This project models the pure logic of the midwAIfe pregnancy companion's backend and proves properties of it. The logic covers:

- **Meal planner** (`app/meals`):
  - a meal's micronutrient flags are the OR of its food items' flags;
  - the daily summary gives four required nutrients (calcium, iron, folic acid, protein) their covering slots, a missing/moderate/good status and a missing list, plus a day-level warning flag;
  - food rows are decoded into presence flags and a warning bit;
  - flags are encoded to and from nutrient-table names;
  - meal-type labels map to the five slots;
  - the query rows of a date range are grouped into one day per date.
- **Daily sleep and symptom log** (`app/daily_logs`). The `daily_logs` table is a map from (user, date) to a row. It supports get, range, create, partial update (None means "keep"), full upsert (None means "clear") and delete, each with a frame condition.
- **Assistant tools** (`app/midwaife/tools/user_data_tools.py`):
  - the pregnancy week from a due date (floor division, clamped to 1..42);
  - symptom normalisation;
  - quality and severity validation;
  - the sleep-only and symptom-only writes;
  - the rainbow colour summary of the current week.
- **Training-session grid** (`app/db/chroma_service.py`). This is the Monday-anchored seven-day grid of `get_weekly_sessions` with its counters, plus the fallback rules of `_deserialize_metadata`.
- **Chat helpers** (`app/chat/services.py`):
  - the today's-meals roll-up;
  - the reordering of recent messages;
  - the greeting's hour buckets.

Everything the source reads from outside is a parameter:

- database query results are passed in as sequences, in the order the query returns them;
- the `daily_logs` table is an immutable map;
- ChromaDB's stored sessions are a sequence;
- "today", the current hour and the time past midnight are integers;
- date-string and JSON parsing are partial functions returning an `Option`.

Dates are day numbers (`Calendar.Date`), and `Calendar.Weekday` counts Monday as 0, as Python's `weekday()` does.

Modules: `Wrappers`, `Calendar`, `MealModels`, `MealService`, `MealGrouping`, `DailyLogModels`, `DailyLogService`, `UserDataTools`, `ChromaService`, `ChatServices`. Each lives in the file of the same name in snake case.

## Model

| member | source | states |
|---|---|---|
| MealModels.DefaultsAreEmpty | app/meals/models.py:8-15 | A default `MicronutrientPresence` sets no flag. A default `DayMeals` has no meal in any of the five slots. A placeholder summary marks every nutrient uncovered and missing. |
| MealModels.DayMeals.Set | app/meals/models.py:59-64 | Setting one slot's meal changes that slot and leaves the other four as they were. |
| MealService.AggregateMicronutrients | app/meals/service.py:359-369 | Each of the seven aggregate flags is set iff some item has it set. The three optional flags always come out as a boolean, never None. |
| MealService.AggregateEmpty | app/meals/service.py:359-369 | An empty item list sets no flag, and the optional flags are `False`. |
| MealService.AggregateDependsOnlyOnItemSet | app/meals/service.py:359-369 | Two item lists with the same members have the same aggregate. Reordering or duplicating items never changes it. |
| MealService.AggregateAppend | app/meals/service.py:359-369 | The aggregate of two concatenated lists is the flag-wise OR of their aggregates. Adding items can only switch flags on. |
| MealService.OrFlags | app/meals/service.py:359-369 | Each flag of the OR of two presence sets is set iff it is set in either of them. |
| MealService.Covering | app/meals/service.py:382-396 | The covering slots are exactly the listed slots whose meal provides the nutrient. They keep slot order and have no repeats. |
| MealService.NutrientSummary | app/meals/service.py:382-396 | `mealsCovered` is exactly the present slots providing the nutrient, in breakfast-to-dinner order. `covered` is true iff that list is non-empty. |
| MealService.CalculateDailySummary | app/meals/service.py:371-441 | Per nutrient:<br>• the status is missing iff uncovered, moderate iff exactly one slot covers it, good iff two or more do;<br>• `mealsCovered` is exactly the providing slots in order.<br>Per day:<br>• the missing list holds exactly the uncovered nutrients, in the order Calcium, Iron, Folic Acid, Protein;<br>• its length is 4 minus the covered count;<br>• `hasWarnings` holds iff some item of some present meal has a warning. |
| MealService.MissingListMeaning | app/meals/service.py:401-409 | The four checks in order list exactly the uncovered nutrients, in summary order, one per uncovered nutrient. |
| MealService.MissingNamesMeaning | app/meals/service.py:401-409 | A nutrient's display name is in the missing names iff the nutrient is uncovered. There are 4 minus the covered count of them, each one of "Calcium", "Iron", "Folic Acid", "Protein". |
| MealService.SlotsWarnAll | app/meals/service.py:380-399 | Scanning the five slots finds a warning iff some present meal has an item with a warning. |
| MealService.SummaryEntries | app/meals/service.py:418-441 | A summary assembled from the four per-nutrient entries answers every nutrient with that nutrient's entry. |
| MealService.EmptyDaySummary | app/meals/service.py:371-441 | A day without meals has every nutrient uncovered and missing with no covering slots. All four nutrients are listed missing and there is no warning. |
| MealService.UncoveredStatus | app/meals/service.py:411-416 | A nutrient no slot provides gets `covered = false`, no slots and status missing. |
| MealService.CoveredIffSomeItemHasIt | app/meals/service.py:161-168 | When each meal carries the aggregate of its items, a nutrient is covered iff some item of some present meal has its flag. |
| MealService.MealTypeKeyRoundTrip | app/meals/service.py:443-452 | Each slot's own label maps back to that slot. Any label that is none of the five maps to breakfast. |
| MealService.NameFlagOfFlagName | app/meals/service.py:293-301 | Reading a flag's table name back gives the flag, so the names 'calcium', 'iron', 'folate', 'protein', 'vitamin_d', 'dha', 'fiber' are distinct. |
| MealService.FlagNameInjective | app/meals/service.py:332-348 | Distinct flags have distinct table names. |
| MealService.SetFlagsFromOrdered | app/meals/service.py:334-348 | Keeping only the set flags preserves the checking order. |
| MealService.EncodeFlags | app/meals/service.py:334-348 | The encoded flags are exactly the set ones, in the order the source checks them. |
| MealService.EncodeNutrients | app/meals/service.py:332-348 | A flag's table name is written iff the flag is set. No name is written twice, and every name is a known one. |
| MealService.EncodedNamesMeaning | app/meals/service.py:334-348 | The names of an ordered flag list are distinct and known, and a flag's name occurs iff the flag is in the list. |
| MealService.DecodeNutrientsMeaning | app/meals/service.py:293-301 | Each decoded flag is set iff its table name occurs. The optional flags are None exactly for an empty name list. |
| MealService.DecodeEncode | app/meals/service.py:293-301 | Encoding and then decoding a presence set:<br>• restores every flag's truth value;<br>• restores calcium, iron, folic acid and protein exactly;<br>• gives None optional flags only when no flag at all was set. |
| MealService.EncodeDecode | app/meals/service.py:293-301 | Decoding a name list and encoding it back keeps exactly the list's known names. |
| MealService.MapFoodItem | app/meals/service.py:281-307 | `hasWarnings` holds iff the safety column is NULL or false, or the warning message is non-empty; an absent safety column counts as safe. The presence set is the decoding of the food's names: each flag is set iff its table name is among them, and the three optional flags are None exactly when the food has no names. All other columns are copied unchanged: id, name, portion, macro category, colour, phytonutrient focus, warning message and type, tags, description. |
| MealGrouping.Select | app/meals/service.py:95-113 | The selected rows are exactly the table's rows of the user dated from `start` to `end`, both included. |
| MealGrouping.AddRow | app/meals/service.py:144-159 | After a row, its slot holds a meal. An empty slot gets a new meal with the row's id, type and notes and the default presence set; an existing meal keeps them. The meal's items are its previous items, plus the row's food item appended at the end when the row carries a food. |
| MealGrouping.RawDayStep | app/meals/service.py:122-159 | A row leaves other dates' days alone. On its own date it starts the day when the date is new, then adds the row to its slot. |
| MealGrouping.GroupedDates | app/meals/service.py:119-139 | A date gets a day iff some row carries it, and no date gets two days. |
| MealGrouping.SortedRowsGiveSortedDays | app/meals/service.py:111-170 | Rows in ascending date order, as the query's ORDER BY gives them, produce days in strictly ascending date order. |
| MealGrouping.SlotRowsMeaning | app/meals/service.py:141-159 | A slot's rows are exactly the rows on that date mapped to that slot. The first of them is the first such row of the input. |
| MealGrouping.FoodItemsMeaning | app/meals/service.py:155-159 | Exactly the rows that carry a food contribute an item. |
| MealGrouping.FoodItemsInRowOrder | app/meals/service.py:155-159 | Items keep row order and multiplicity. Two runs of rows give the first run's items followed by the second's. A single row gives its item when it carries a food, and nothing otherwise. |
| MealGrouping.RawMealMeaning | app/meals/service.py:141-159 | A slot holds a meal iff some row of that date maps to it. The meal's id and notes come from the first such row, so a food-less row still creates an empty meal. Its items are exactly the food items of all such rows. |
| MealGrouping.AddToDays | app/meals/service.py:122-159 | One loop turn turns the grouping of a row prefix into the grouping of the prefix plus the row. |
| MealGrouping.GroupRows | app/meals/service.py:119-159 | The first loop yields one day per distinct date, in order of first appearance, each holding its grouped meals. |
| MealGrouping.FinalizeMeal | app/meals/service.py:162-166 | A present meal keeps its items, id, type and notes. Its presence set becomes the items' aggregate: each flag is set iff some item has it, and the three optional flags are always a boolean (`False` when no item sets them), never None. An absent meal stays absent. |
| MealGrouping.FinalizeDay | app/meals/service.py:161-168 | Finishing a day keeps its date and weekday name and finishes every slot's meal. |
| MealGrouping.FinalizedDaySummary | app/meals/service.py:161-168 | A finished day's summary describes its aggregated meals: statuses, covering slots, missing list and warning flag. |
| MealGrouping.GetMealsByDateRange | app/meals/service.py:93-170 | The result has one finished day per distinct date of the user's rows in the range, in order of first appearance. |
| MealGrouping.DaysInRange | app/meals/service.py:93-170 | Every returned date lies in the range and has a meal of the user, every such date is returned, and none twice. |
| MealGrouping.GetWeekMeals | app/meals/service.py:88-91 | A start date string that does not parse is the failure (the `strptime` error). Otherwise the result is the range from the start to six days later, one finished day per distinct date, so at most seven days. |
| DailyLogService.MapDailyLog | app/daily_logs/service.py:228-242 | A NULL symptom list is read as the empty list. Every other field is copied from the row. |
| DailyLogService.GetDailyLog | app/daily_logs/service.py:7-31 | A log is returned iff a row is stored for (user, date). It is that row mapped as `_map_daily_log` does: the row's id and data, with a NULL symptom list read as the empty list. |
| DailyLogService.GetDailyLogsRange | app/daily_logs/service.py:33-54 | The result holds exactly the user's stored logs dated from `start` to `end`, newest first without repeats. |
| DailyLogService.CreateDailyLog | app/daily_logs/service.py:56-99 | Creating fails iff a row already exists for (user, date). Otherwise only that key changes, and reading it back returns the written data. |
| DailyLogService.UpdateDailyLog | app/daily_logs/service.py:101-163 | With no field given:<br>• nothing is written;<br>• the current log, or None, is returned.<br>With no stored row, nothing changes and None is returned. Otherwise:<br>• only that key changes;<br>• the row keeps its id;<br>• the new log is returned. |
| DailyLogService.UpdateFieldwise | app/daily_logs/service.py:109-131 | Each field given as None keeps its stored value, and each given field takes the new value. |
| DailyLogService.UpdateIdempotent | app/daily_logs/service.py:101-163 | Applying the same update twice stores what applying it once does. |
| DailyLogService.UpsertDailyLog | app/daily_logs/service.py:165-216 | Only the key changes. Its data becomes exactly the given data, None included. The id is kept when a row existed and fresh otherwise, and reading back returns the log. |
| DailyLogService.UpsertAgreesWithCreate | app/daily_logs/service.py:165-216 | On an absent key, upsert succeeds exactly as create does. |
| DailyLogService.FullUpdateIsUpsert | app/daily_logs/service.py:133-186 | On a stored key, an update that gives all six fields writes and returns what upsert does. |
| DailyLogService.UpsertClearsSleep | app/daily_logs/service.py:179-186 | An upsert with None sleep hours clears the stored hours, where an update keeps them. |
| DailyLogService.DeleteDailyLog | app/daily_logs/service.py:218-226 | Delete reports true iff a row existed. Afterwards the log is gone and nothing else changes. |
| DailyLogService.DeleteUndoesCreate | app/daily_logs/service.py:56-99 | Deleting what was just created gives back the original table. |
| UserDataTools.DatePart | app/midwaife/tools/user_data_tools.py:29 | The date part is the longest prefix without 'T'. It is followed by a 'T' unless it is the whole string. |
| UserDataTools.DaysUntil | app/midwaife/tools/user_data_tools.py:33 | `(due - now).days` is the whole-day difference, one less whenever the clock is past midnight. It is proved from the timedelta's floor division. |
| UserDataTools.WeekFromDays | app/midwaife/tools/user_data_tools.py:36-40 | The week is within 1..42. It is 1 iff fewer than 14 days have passed and 42 iff at least 294 have. In between it is the floor of (280 − days left) / 7. |
| UserDataTools.WeekFromDaysMonotone | app/midwaife/tools/user_data_tools.py:33-40 | More days left never gives a later week. |
| UserDataTools.CalculatePregnancyWeek | app/midwaife/tools/user_data_tools.py:16-40 | A missing or empty due date gives 14. Otherwise the result fails iff the date part does not parse. For a parsed due date the week is the clamped floor of (280 − whole days until the due date) / 7, which lies within 1..42. |
| UserDataTools.LaterDueDateNoLaterWeek | app/midwaife/tools/user_data_tools.py:29-40 | A later due date never yields a larger week. |
| UserDataTools.NormalizeSymptom | app/midwaife/tools/user_data_tools.py:421 | Normalising keeps the length and maps each character by itself: upper case to lower case, space to underscore. |
| UserDataTools.NormalizeSymptomIdempotent | app/midwaife/tools/user_data_tools.py:421 | A normalised name has no space, and normalising it again changes nothing. |
| UserDataTools.NormalizeSymptoms | app/midwaife/tools/user_data_tools.py:421 | The list keeps its length and order, each entry normalised. |
| UserDataTools.NormalizeSymptomsIdempotent | app/midwaife/tools/user_data_tools.py:421 | Normalising a normalised list changes nothing. |
| UserDataTools.ResolveUser | app/midwaife/tools/user_data_tools.py:303-310 | The tools act for the given user, else the session's, else the placeholder user. |
| UserDataTools.WriteSleep | app/midwaife/tools/user_data_tools.py:330-359 | Only the key changes, and its three sleep columns take the given values. An existing log keeps its id and every symptom column. A new log holds only the sleep columns. |
| UserDataTools.WriteSymptoms | app/midwaife/tools/user_data_tools.py:429-457 | Only the key changes, and its three symptom columns take the given values. An existing log keeps its id and every sleep column. A new log holds only the symptom columns. |
| UserDataTools.SleepAndSymptomWritesCommute | app/midwaife/tools/user_data_tools.py:330-457 | Logging sleep and then symptoms stores the same data as the other order. |
| UserDataTools.LogSleep | app/midwaife/tools/user_data_tools.py:278-367 | The call fails, with the table unchanged, iff a non-empty quality outside poor/fair/good/excellent is given or the given log date is not a date. Otherwise the user's log for the day (today when no date is given) gets the given sleep columns, the symptom columns are kept, and nothing else changes. |
| UserDataTools.LogSymptoms | app/midwaife/tools/user_data_tools.py:370-466 | The call fails, with the table unchanged, iff a non-empty severity outside mild/moderate/severe is given or the given log date is not a date. Otherwise the user's log for the day gets the normalised symptoms, the severity and the notes. The sleep columns are kept and nothing else changes. |
| UserDataTools.Consumed | app/midwaife/tools/user_data_tools.py:257-265 | A colour has an entry iff some row carries it. |
| UserDataTools.ConsumedLastWins | app/midwaife/tools/user_data_tools.py:259-265 | Each colour's entry holds the figures of the last row of that colour. |
| UserDataTools.MissingFrom | app/midwaife/tools/user_data_tools.py:267 | A colour is missing iff it is listed and not consumed. |
| UserDataTools.GetRainbowSummary | app/midwaife/tools/user_data_tools.py:212-275 | The week starts on the Monday of today's week. The consumed colours are the dictionary built from the week's rows, with an entry for exactly the colours some row carries. The missing colours are the five canonical colours without an entry, and consumed plus needed is 5. |
| UserDataTools.MissingInCanonicalOrder | app/midwaife/tools/user_data_tools.py:256-267 | The missing colours follow the canonical order Red, Orange/Yellow, Green, Blue/Purple, White/Brown. |
| UserDataTools.NeededMatchesMissing | app/midwaife/tools/user_data_tools.py:267-274 | When every consumed colour is canonical, the number still needed equals the length of the missing list. |
| UserDataTools.OffPaletteColorSkewsNeeded | app/midwaife/tools/user_data_tools.py:267-274 | A colour outside the five counts as consumed without shortening the missing list: 4 needed, 5 missing. |
| ChromaService.DecodeKey | app/db/chroma_service.py:364-389 | A string under the key becomes its parse, or the key's default when it does not parse. Everything else is untouched. |
| ChromaService.DeserializeMetadataMeaning | app/db/chroma_service.py:358-391 | Key by key:<br>• keys other than calendar/weather/time_scheduled/data_points are unchanged;<br>• so is a non-string under one of those keys;<br>• a string under one becomes its parse, or that key's empty default ({"events": []}, {"hours": []}, [], {"laps": []}). |
| ChromaService.DeserializeWithoutStrings | app/db/chroma_service.py:358-391 | Metadata with no string under the four keys comes back unchanged. |
| ChromaService.UnparseableCalendar | app/db/chroma_service.py:364-368 | An unparseable calendar string becomes `{"events": []}`. |
| ChromaService.DeserializeKeepsGridKeys | app/db/chroma_service.py:464-498 | The date, type, distance, actual distance and completion keys the grid reads come back from deserializing exactly as stored, for any metadata. |
| ChromaService.LastSessionOnIsLast | app/db/chroma_service.py:471-477 | A session is found for a date iff one is stored for it, and then it is the last one stored. |
| ChromaService.EntryFor | app/db/chroma_service.py:486-530 | A stored session's grid row takes its fields with defaults 'No Session', 0, 0, false. A day without one gets the empty 'No Session' row. `has_activity` holds iff the type is not 'Rest Day' and the actual distance is positive. |
| ChromaService.CompletionRate | app/db/chroma_service.py:538 | With no sessions the rate is 0. Otherwise rate × total = completed × 100. |
| ChromaService.WeekGrid | app/db/chroma_service.py:486-530 | Seven rows for seven consecutive dates, each with its date's last stored session. From a Monday the names run Monday to Sunday. |
| ChromaService.SummarizeWeek | app/db/chroma_service.py:500-507 | The totals are:<br>• sessions, planned and completed distance over days that are not rest days and have a positive plan;<br>• completed sessions over all days.<br>The rate is derived from these totals. |
| ChromaService.GetWeeklySessions | app/db/chroma_service.py:411-548 | An unparseable start date is the error result. Otherwise the result has:<br>• seven days from the Monday on or before the start date;<br>• a week end of Monday + 6;<br>• the grid and the totals over it. |
| ChromaService.NoSessionRow | app/db/chroma_service.py:519-530 | A date without a stored session gives 'No Session', zero distances, not completed and no activity. |
| ChromaService.CountersBounded | app/db/chroma_service.py:500-507 | Neither session counter exceeds the number of days. |
| ChromaService.RestDaysNotCounted | app/db/chroma_service.py:501-504 | A week made only of rest days has no sessions and zero distance totals. |
| ChromaService.RestDayAddsNothing | app/db/chroma_service.py:500-504 | A rest day anywhere in a week, whatever its distance, leaves the session count and both distance totals as they are without it. |
| ChromaService.CountedSessionsIsCard | app/db/chroma_service.py:500-502 | `total_sessions` is the number of days that are not rest days and have a positive planned distance. |
| ChromaService.CompletedSessionsIsCard | app/db/chroma_service.py:506-507 | `completed_sessions` is the number of completed days, rest days included. |
| ChromaService.CompletionRateCanPassHundred | app/db/chroma_service.py:500-507 | Completed rest days count as completed but not as sessions, so the rate can reach 200. |
| ChatServices.GetTodayMeals | app/chat/services.py:44-79 | No rows gives the empty answer with zero counts and no samples. Otherwise:<br>• the food count is the number of rows;<br>• the meal count is the number of lists;<br>• the lists, colours and samples are the grouped foods, the sorted colour set and the first foods. |
| ChatServices.GroupFoodsMeaning | app/chat/services.py:58-67 | The dict's keys are distinct and are exactly the rows' meal types. Each key's list is that type's foods in row order. |
| ChatServices.GroupFoodsCount | app/chat/services.py:63-67 | The lists together hold one food per row. |
| ChatServices.MealCountIsDistinctTypes | app/chat/services.py:74 | `meal_count` equals the number of distinct meal types among the rows. |
| ChatServices.ColorsMeaning | app/chat/services.py:69-77 | `unique_colors` is strictly sorted in Python's string order. It holds exactly the rows' non-empty colours and never the empty string. |
| ChatServices.ColorsAreSortedSet | app/chat/services.py:77 | Any strictly sorted list of exactly those colours equals `unique_colors`, so it is `sorted(set(colours))`. |
| ChatServices.SampleFoodsMeaning | app/chat/services.py:78 | The samples are the first min(3, n) foods in row order. |
| ChatServices.RecentMessages | app/chat/services.py:184-226 | The result is a permutation of the rows. With a non-empty since-date it is the rows unchanged. Without one it is the rows reversed, so that the newest-first query comes back oldest first. |
| ChatServices.RecentMessagesChronological | app/chat/services.py:184-226 | Given each query's order (ascending with a since-date, descending without), the caller always gets oldest first. |
| ChatServices.GreetingContext | app/chat/services.py:254-258 | The planning context is chosen iff the hour is before 6, and tracking otherwise. |
| ChatServices.TimeOfDay | app/chat/services.py:246-252 | Morning iff the hour is before 12, afternoon iff it is from 12 to 17, evening iff it is 18 or later. |
| ChatServices.PlanningIsMorning | app/chat/services.py:246-258 | Every planning hour falls in the morning bucket. |
| Calendar.MondayOf | app/db/chroma_service.py:438-441 | The Monday of a date's week is a Monday, on or before the date and less than seven days before it. |
| Calendar.MondayOfWeekDays | app/midwaife/tools/user_data_tools.py:234-236 | Every date of a week has the same Monday. |

## Left out

- Database and vector-store I/O are parameters:
  - `execute_query` calls and the connection pool;
  - the SQL itself (WHERE filters become `MealGrouping.Select`; ORDER BY becomes an assumption on the input order);
  - the ChromaDB client.
- Rows are taken in the order given. The `ORDER BY CASE` of today's meals and the ORDER BY of the rainbow query are not re-derived.
- The `LIMIT` of `get_recent_messages` is not modelled. Nor is the user filter of the two message queries: the rows passed in are the query's result.
- Wall-clock reads (`datetime.now`, `date.today`) are integer parameters: the day, the microseconds past midnight, the hour.
- Where the source parses a date string it is a parse parameter (`strptime`, `fromisoformat`, or the database reading a date column), and a failed parse is the error the source raises. This holds for `UserDataTools.CalculatePregnancyWeek`, `UserDataTools.LogSleep`, `UserDataTools.LogSymptoms`, `MealGrouping.GetWeekMeals` and `ChromaService.GetWeeklySessions`. Dates are day numbers, and formatting them back into strings is not modelled.
- MealGrouping.GetMealsByDateRange: takes its two range ends as dates. A malformed date string, which the database would reject, is not modelled for it; `MealGrouping.GetWeekMeals` models that error for the week view.
- UserDataTools.GetRainbowSummary: takes the rows of the grouped colour query as given. The query's user and date filter and its grouping are not re-derived.
- JSON parsing in `_deserialize_metadata` is a partial parse parameter. The outer `try/except` that returns the input on any other exception is not modelled, because no other exception arises in the modelled steps.
- Number types are simplified:
  - sleep hours (Decimal) are a `real` carried without arithmetic;
  - session distances are integers;
  - the completion rate is a `real` computed exactly, not a float.
- `UserDataTools.NormalizeSymptom`: lower-casing covers ASCII letters only. Python's Unicode `lower()` is not modelled.
- Timestamps (`created_at`, `updated_at`) and the `is_today` flag's clock source are not modelled. `is_today` compares with the day parameter.
- Response dictionaries and messages are reduced to the fields the properties need:
  - success or error flags;
  - message strings;
  - the rainbow summary's per-colour figures beyond their identity.
- Meal CRUD and reference-data operations of `app/meals/service.py` are outside the modelled core: `upsert_meal`, `add_meal_item`, `remove_meal_item`, `delete_meal`, food and milestone queries.
- `_insert_nutrient_mappings` is modelled only as the name list it writes. `_get_food_nutrients_map` is a `NutrientsMap` parameter.
- `DayData`'s `id` and `date` are the same date string in the source. The model keeps the date once.
- The enum comments on `sleep_quality`, `symptom_severity` and `NutrientStatus.status` are not enforced by the source's models. The validation lists of the two logging tools and the `Status` datatype carry them instead.
- `FoodItem.hasWarnings` defaults to false in the model class. Every item is built through `MealService.MapFoodItem`, which always sets it, so the default is not modelled.
- Three assistant tools that only read and reshape rows are not modelled: `get_current_week_meals_tool`, `get_user_info_tool` and `get_daily_log_tool`.
- Other chat code is not modelled:
  - `save_message` and `get_today_greeting`, which are plain inserts and lookups;
  - the LLM greeting generation and its thread-pool wrapper;
  - the prompt text.
- The agent, the routes, the WebSocket layer and `app/users` are outside this model.
- `ChromaService.DeserializeMetadata`: its own contract states only that the keys are kept. The per-key behaviour is stated by `ChromaService.DeserializeMetadataMeaning`.
- `MealService.MissingNames`: its own contract states only the length. Its content is stated by `MealService.MissingNamesMeaning`.

Two behaviours of the source are stated as lemmas:

- `ChromaService.CompletionRateCanPassHundred`: completed rest days make the completion rate exceed 100.
- `UserDataTools.OffPaletteColorSkewsNeeded`: a stored colour outside the five canonical ones makes `colors_needed` disagree with `missing_colors`.

Both follow from the code as written and may be intended, so they are recorded here rather than corrected.
