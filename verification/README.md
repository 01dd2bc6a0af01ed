# Food detector core, modelled in Dafny

This project models the core of a food-detection web application.
- A camera frame goes through an object detector.
- A **detection stabilizer** turns the detector's raw output into "pending" candidates that a user may confirm.
- A confirmed detection is written to a **persistence store**. The store has two documents:
  - a history list of detection records;
  - a date-keyed summary of calories and food counts per day.
- A fixed **calorie table** supplies calories and a category for each of the ten food classes.

Everything is modelled with immutable datatypes and pure functions that thread the state. The exception is the all-time statistics: `MostDetectedFood` is a method with two loops (tallying, then picking the maximum), and `GetAllTimeStats` is a method that calls it.

Modules:
- `Wrappers` is `Option`.
- `AssocList` is an insertion-ordered dictionary, as a Python dict or JSON object behaves. It supports lookup, assignment and the laws relating them.
- `Tally` covers counting and first-occurrence order.
- `Decimal` is the decimal text of an integer, as Python's `str(int)` produces it, with its parse back.
- `Config` holds the ten food classes in the detector's class order.
- `CalorieMapper` is the calorie table.
- `FoodDetector` is the stabilizer.
- `FileHandler` is the store and its queries.
- `StoreInvariants` covers how the two documents stay consistent.

Representation choices:
- Detector time is integer milliseconds. The stabilization delay is 500 ms and the staleness window 5000 ms.
- Box corners are reals. Python's `int()` on them is truncation toward zero (`Trunc`).
- A candidate's identity key is the actual text `food + "_" + str(int(x1)) + "_" + str(int(y1))`. Its injectivity is proved.
- Store timestamps are integer microseconds of local wall-clock time.
  - A date is the day number `t / 86_400_000_000`.
  - Stored ISO timestamps come in two forms, because `isoformat()` leaves out the fraction when the microsecond is 0. Their text order still matches the order of the instants: the form without a fraction is a prefix of any later instant in the same second, and a prefix sorts first. One instant always has one text. So the source's string comparisons and equalities are modelled on these integers.
- The summary document is an association list in insertion order. This is how `days_tracked = len(logs)` and the all-time sum see it.
- `round(confidence, 2)` is kept as integer hundredths, rounded half to even (`RoundHundredths`).
- The clock readings `now` and `today`, and the detector's output for a frame, are parameters.

## Model

| member | source | states |
|---|---|---|
| CalorieMapper.TablesCoverFoodClasses | utils/calorie_mapper.py:9-34 | the calorie table and the category table have the same keys, and these are exactly the ten classes the detector can report |
| CalorieMapper.GetCalories | utils/calorie_mapper.py:36-46 | a known food gets its table value and any other label 0; the value lies in 0..285 and is positive exactly for the ten classes |
| CalorieMapper.GetCategory | utils/calorie_mapper.py:48-58 | a known food gets its table category; the result is "Unknown" exactly when the label is not one of the ten classes |
| CalorieMapper.GetAllFoods | utils/calorie_mapper.py:60-67 | the copy holds exactly the ten classes, each with the calories `GetCalories` gives it, all positive |
| CalorieMapper.CalculateTotalCalories | utils/calorie_mapper.py:69-82 | the total of any label list is non-negative and at most 285 per label |
| CalorieMapper.TotalCaloriesAppend | utils/calorie_mapper.py:79-82 | the total is additive over concatenation of label lists |
| CalorieMapper.GetNutritionalSummary | utils/calorie_mapper.py:84-106 | the per-category summary; its contract is stated by `NutritionalSummaryKeys`, `NutritionalSummaryDistinct`, `NutritionalSummaryGroups`, `NutritionalSummarySums` and `NutritionalSummaryOrder` below |
| CalorieMapper.NutritionalSummaryKeys | utils/calorie_mapper.py:94-104 | the summary's categories are the labels' categories, each once, in order of first occurrence |
| CalorieMapper.NutritionalSummaryDistinct | utils/calorie_mapper.py:94-104 | no category has two entries in the summary |
| CalorieMapper.NutritionalSummaryGroups | utils/calorie_mapper.py:94-104 | a category has an entry exactly when some label falls in it; that entry lists exactly those labels in input order, with their number and their calorie total |
| CalorieMapper.AddFoodSums | utils/calorie_mapper.py:99-104 | counting one label in raises the sum of counts by one and the sum of calories by that label's calories |
| CalorieMapper.NutritionalSummarySums | utils/calorie_mapper.py:94-104 | the category counts add up to the number of labels, and the category calories add up to the total of the whole list |
| CalorieMapper.NutritionalSummaryOrder | utils/calorie_mapper.py:99-100 | categories appear in the order in which a label of each first occurs |
| Decimal.ParseNatToString | utils/food_detector.py:62 | the decimal text of a natural number parses back to that number |
| Decimal.IntToStringInjective | utils/food_detector.py:62 | two integers have the same decimal text exactly when they are equal |
| FoodDetector.Trunc | utils/food_detector.py:62 | a corner coordinate truncates toward zero: the whole pixel lies within one unit of it, on the side of zero |
| FoodDetector.Observe | utils/food_detector.py:60-81 | an unknown class changes nothing and reports nothing; a new key is tracked with first_seen = now, unconfirmed, and not reported; a tracked key leaves the entry as it was and reports the current snapshot iff 500 ms have passed since first_seen and it is unconfirmed |
| FoodDetector.ObserveAll | utils/food_detector.py:50-88 | over a frame: at most one report per detection; tracked entries are never altered; every known detection's key is tracked afterwards; every new entry is the candidate (label, confidence, box, first_seen = now, unconfirmed) built from the first detection of the frame with that key |
| FoodDetector.FirstIndexOfKeyIsFirst | utils/food_detector.py:65-73 | the position found for a key is that of the first known detection carrying it, and it is past the end exactly when no detection carries it |
| FoodDetector.TracksIndex | utils/food_detector.py:50-73 | "every known detection of the frame is tracked" holds exactly when each such detection's key is in the map |
| FoodDetector.Sweep | utils/food_detector.py:90-94 | an entry survives iff it was first seen less than 5000 ms ago, and survivors are unchanged |
| FoodDetector.DetectFood | utils/food_detector.py:38-96 | with no model, nothing is reported and no state changes; otherwise at most one report per detection, every survivor is younger than 5000 ms, every young entry survives unchanged, every old entry that survives is unchanged (so seeing a key again never renews it), every known detection whose key was untracked or younger than 5000 ms is tracked afterwards, every new entry is the candidate built from the frame's first detection with that key, and an empty frame reports nothing but still sweeps |
| FoodDetector.StaleEntryDroppedWhenSeenAgain | utils/food_detector.py:74-94 | an entry first seen at least 5000 ms before the frame is gone after it, even when the frame detects its key again |
| FoodDetector.SweepTracksFresh | utils/food_detector.py:65-94 | after the sweep, every key the frame tracked that was new in the frame or younger than 5000 ms is still tracked |
| FoodDetector.TracksFreshIndex | utils/food_detector.py:65-94 | "every fresh known detection is tracked" holds exactly when each such detection's key is in the map |
| FoodDetector.DetectionKey | utils/food_detector.py:62 | the key text `"{food}_{x}_{y}"`; its contract is stated by `KeyInjective` and `KeySensitivity` below |
| FoodDetector.KeyInjective | utils/food_detector.py:62 | for labels without '_', two keys are equal exactly when label, x and y all are |
| FoodDetector.FoodClassesHaveNoSeparator | config.py:26-29 | no food class name contains the key separator '_' |
| FoodDetector.KeySensitivity | utils/food_detector.py:62 | two detections of one class share a key exactly when their truncated top-left corners coincide |
| FoodDetector.ObserveNewKey | utils/food_detector.py:65-73 | an untracked key adds exactly one entry, under that key, and reports nothing |
| FoodDetector.ObserveAllPair | utils/food_detector.py:64-81 | a two-detection frame observes the first detection, then the second against the state the first left, and reports the first's snapshot before the second's |
| FoodDetector.TwoNewKeysObserved | utils/food_detector.py:65-73 | two untracked detections with different keys, observed in turn, become two new entries and report nothing |
| FoodDetector.DistinctCornersTrackedSeparately | utils/food_detector.py:62-73 | two untracked detections of one class whose truncated x1 or y1 differ have different keys and, observed in turn, become two new entries with nothing reported |
| FoodDetector.ObserveAllReportsStable | utils/food_detector.py:64-81 | a frame reports exactly the snapshots of its detections whose key was already tracked before the frame, unconfirmed, for at least 500 ms, in frame order |
| FoodDetector.PendingAreStableSnapshots | utils/food_detector.py:44-96 | with a model loaded, the pending list is exactly those stable snapshots, judged against the state before the frame |
| FoodDetector.FramePreservesUnconfirmed | utils/food_detector.py:67-94 | a frame never sets any entry's confirmed flag |
| FoodDetector.Run | utils/food_detector.py:27-96 | over a sequence of frames, each frame reports at most one candidate per detection |
| FoodDetector.NewDetectorNeverConfirms | utils/food_detector.py:13-15 | a detector constructed with no tracked candidates confirms nothing over any run of frames |
| FoodDetector.RunNeverConfirms | utils/food_detector.py:67-94 | no run of frames confirms anything, so the confirmed flag never suppresses a report |
| FoodDetector.ReobservationTiming | utils/food_detector.py:65-94 | a key first seen at t0 and seen again at t1: nothing at t0; the new snapshot at t1 iff t1-t0 >= 500 ms; the entry keeps its t0 values and survives t1 iff t1-t0 < 5000 ms |
| FileHandler.DateOf | utils/file_handler.py:194 | the date of an instant is the day that contains it |
| FileHandler.RoundHundredths | utils/file_handler.py:59 | the stored confidence is within half a hundredth of the input, and ties go to the even hundredth |
| FileHandler.UpdateDailySummary | utils/file_handler.py:69-90 | counting one detection into today's entry; its contract is stated by `LogDetection` (today's fields, other dates, date order) and `RemoveAfterUpdate` |
| FileHandler.LogDetection | utils/file_handler.py:44-90 | one record {now, food, rounded confidence, calories} is appended after unchanged earlier records; today's summary is created if absent, and gains the calories, one detection and one count for food; other foods' counts and every other date are untouched; today joins the dates if new |
| FileHandler.FindByTimestamp | utils/file_handler.py:216-224 | no result exactly when no record has the timestamp; otherwise the first record that has it |
| FileHandler.DeleteDetection | utils/file_handler.py:203-251 | success iff some record has the timestamp; on failure nothing changes; on success only the first such record is removed, others keep their order, and the summary document becomes that record's food and calories taken out of today's entry (the effect is stated two rows below) |
| FileHandler.RemoveFromDailySummary | utils/file_handler.py:233-251 | taking one detection back out of today's entry; its contract is stated by `RemoveFromDailySummaryEffect` (next row) |
| FileHandler.RemoveFromDailySummaryEffect | utils/file_handler.py:233-251 | without an entry for today nothing changes; with one, its calories drop by the record's calories, its detection count by one and the food's count by one, the food leaving the map once its count is at most zero; other foods, other dates and the date order are untouched |
| FileHandler.DeleteDetectionOnRecordDay | utils/file_handler.py:235-251 | corrected deletion: the record's food and calories come out of the summary of the day it was logged on |
| FileHandler.GetDailySummary | utils/file_handler.py:92-110 | a date without an entry gets the zero summary; otherwise the entry stored for it |
| FileHandler.GetRecentDetections | utils/file_handler.py:112-123 | the result is a suffix of the history in stored order: min(limit, size) records for limit >= 1, everything for limit 0, and all but the first -limit records for negative limit |
| FileHandler.GetWeeklySummary | utils/file_handler.py:125-148 | exactly seven distinct dates, today and the six before, in that order, each with its stored or zero summary |
| FileHandler.OnDate | utils/file_handler.py:191-196 | a record is kept iff it falls on the date |
| FileHandler.NewestFirstPairwise | utils/file_handler.py:199 | a list is newest-first exactly when every record is at least as new as every record after it |
| FileHandler.InsertNewestFirst | utils/file_handler.py:199 | inserting into a newest-first list keeps it newest-first, makes it one longer, and puts either the new record or the old head first |
| FileHandler.InsertPermutes | utils/file_handler.py:199 | inserting adds exactly the one record and keeps all the others |
| FileHandler.InsertKeepsStampOrder | utils/file_handler.py:199 | a record inserted with timestamp t goes after every record already holding t |
| FileHandler.SortNewestFirst | utils/file_handler.py:199 | the result is newest-first and as long as the input |
| FileHandler.SortPermutes | utils/file_handler.py:199 | the sorted list holds exactly the input records, each as often |
| FileHandler.SortIsStable | utils/file_handler.py:199 | records with equal timestamps keep their relative input order |
| FileHandler.GetTodaysDetections | utils/file_handler.py:181-201 | exactly today's records, each as often as in the history, newest first |
| FileHandler.TodaysDetectionsKeepLoggingOrder | utils/file_handler.py:192-199 | today's records with equal timestamps are listed in the order they were logged |
| FileHandler.TallyStep | utils/file_handler.py:165-168 | counting one more record keeps the table a count of each food seen so far |
| FileHandler.CountTableEntry | utils/file_handler.py:165-168 | the m-th entry of the count table is the m-th distinct food in first-seen order, with its number of occurrences |
| FileHandler.MostDetectedFoodIsMost | utils/file_handler.py:170 | the table entry holding the first maximal count names a food with maximal count, and no food seen earlier has that count |
| FileHandler.MostDetectedFood | utils/file_handler.py:164-170 | ("None", 0) for no records; otherwise a food that occurs, its count, no food with a larger count, and every food first seen earlier has a smaller count |
| FileHandler.GetAllTimeStats | utils/file_handler.py:150-179 | the total is the sum of the daily totals, the detections are the number of records, the days tracked are the number of summary entries, and the most detected food is as above |
| StoreInvariants.EmptyStoreConsistent | utils/file_handler.py:23-29 | the fresh documents are consistent |
| StoreInvariants.LogKeepsOtherDays | utils/file_handler.py:69-90 | logging leaves the summary of every day but today as it was |
| StoreInvariants.LogPreservesConsistency | utils/file_handler.py:44-90 | logging an instant of today keeps every day's summary equal to the aggregate of that day's records |
| StoreInvariants.LogTodayMirrors | utils/file_handler.py:44-90 | logging a detection stamped today keeps today's summary equal to the aggregate of today's records |
| StoreInvariants.AddKeepsMirror | utils/file_handler.py:81-88 | counting a record of a day into that day's summary, as the update does field by field, keeps the summary equal to the aggregate of the records with the new one appended |
| StoreInvariants.SubtractKeepsMirror | utils/file_handler.py:240-249 | taking a record out of the history and out of its own day's summary keeps that summary equal to the day's aggregate |
| StoreInvariants.RemoveRecordKeepsConsistency | utils/file_handler.py:235-249 | removing any record dated today from the history and from today's summary keeps the documents consistent |
| StoreInvariants.DeletePreservesConsistency | utils/file_handler.py:203-251 | deleting a record logged today keeps the documents consistent |
| StoreInvariants.DeleteOnLaterDayBreaksConsistency | utils/file_handler.py:235-251 | a record logged on day 0 and deleted on day 1 leaves day 0's summary at 95 calories with no record behind it |
| StoreInvariants.CorrectedDeletePreservesConsistency | utils/file_handler.py:235-251 | deleting from the record's own day keeps the documents consistent whenever the delete happens |
| StoreInvariants.CorrectedDeleteOnLaterDay | utils/file_handler.py:235-251 | on the same two-day example, the corrected delete leaves day 0 at the zero summary |
| StoreInvariants.SubtractUndoesAdd | utils/file_handler.py:242-249 | taking back a detection just counted in gives back the summary when no food count in it was zero or negative |
| StoreInvariants.DeleteFindsLogged | utils/file_handler.py:216-251 | deleting the instant just logged finds that record, gives back the earlier history and takes the record out of today's summary |
| StoreInvariants.RemoveAfterUpdate | utils/file_handler.py:242-249 | counting a detection into today's summary and taking it back out leaves today's prior summary in place |
| StoreInvariants.LogThenDeleteDocuments | utils/file_handler.py:203-251 | logging a fresh instant then deleting it the same day succeeds, gives back the history, and leaves the summary document with today's prior summary in place |
| StoreInvariants.LogThenDeleteRestores | utils/file_handler.py:235-251 | after log then delete on one day, every date's summary equals its prior value, and the document itself is restored iff today already had an entry (otherwise a zeroed entry for today remains) |
| StoreInvariants.LogAll | utils/file_handler.py:44-67 | a run of logs adds one record per call |
| StoreInvariants.LogAllConsistent | utils/file_handler.py:63-88 | from empty documents, logs on one day keep them consistent and stamp every record with that day |
| StoreInvariants.OneDayTotals | utils/file_handler.py:63-88 | from empty documents, after logs on one day, that day's total is the sum of the records' calories and its count is the number of records |
| StoreInvariants.WeeklyAfterLog | utils/file_handler.py:139-148 | a log raises today's weekly row by its calories and one detection, and leaves the other six rows unchanged |
| StoreInvariants.TotalsMatchByDay | utils/file_handler.py:160 | when each entry's total is its day's record calories, the sum of entry totals is the per-entry sum of record calories |
| StoreInvariants.CaloriesByDayCoversHistory | utils/file_handler.py:160 | when every record's date has exactly one entry, summing record calories entry by entry counts every record once |
| StoreInvariants.AllTimeTotalMatchesHistory | utils/file_handler.py:160 | in consistent documents with one entry per date, the all-time total equals the sum of the records' calories |
| StoreInvariants.OperationsKeepDistinctDates | utils/file_handler.py:74-79 | logging and deleting never give a date a second entry |

## Left out

- YOLO inference and tensor extraction, in utils/food_detector.py lines 8, 21 and 42 to 57, are a foreign library. A frame's detector output is the input sequence `modelOutput`, and whether a model loaded is a flag.
- Camera capture, JPEG encoding, box drawing and the streaming generator, in utils/food_detector.py lines 83 to 88 and 98 to 159, are I/O and OpenCV.
- JSON file reading and writing, directory creation and the corrupt-file fallback, in utils/file_handler.py lines 18 to 42, are file I/O. The two documents are values read and written whole.
- `time.time()`, `datetime.now()` and `date.today()` are clock readings and are parameters here.
- FoodDetector.DetectFood: time is whole milliseconds, so readings closer together than 1 ms are not distinguished.
- FoodDetector.RawDetection: the class id is a natural number. The detector never reports a negative class. Python would index a negative id from the end of `FOOD_CLASSES`.
- FileHandler.DailySummary: `foods` is an unordered map. In the source it is an insertion-ordered dict, and the summary's JSON shows that order: a food deleted to zero and logged again moves to the end. No computation depends on this order.
- FileHandler.GetAllTimeStats: `avg_calories_per_day` is a floating-point division rounded to one decimal, and it is not modelled.
- FileHandler.RoundHundredths: this assumes the confidence is the exact value of the float. Binary floating-point representation error in `round(x, 2)` is not modelled.
- FileHandler.DeleteDetection: an id that is not exactly the stored text of a timestamp matches no record; it is modelled as an instant no record has. This includes a differently spelled text of a stored instant, such as one with a `.000000` fraction or a space in place of `T`. The string itself is not modelled.
- The read-modify-write races between concurrent requests are not modelled, because their point is concurrency. Each operation is one atomic step here.
- Flask routes and the global pending list in app.py are HTTP glue.
- static/js/main.js is DOM, fetch and timer code.
- config.py contributes only `FOOD_CLASSES`, a fixed sequence.
- The model follows the code as written; in particular:
  - a re-observed candidate's stored confidence and box are not updated;
  - eviction counts from when a candidate was first seen, not last seen;
  - a frame reports only candidates detected in that frame;
  - deletion adjusts today's summary (see Findings);
  - a limit of 0 returns the whole history.

## Findings

| source | as written | input that shows it | evidently intended | confidence | as-written member | corrected member |
|---|---|---|---|---|---|---|
| utils/file_handler.py:231-249 | deleting a record takes its food and calories out of TODAY's summary, whatever day the record was logged on | log an Apple (95 kcal) on day 0, then delete it on day 1: the history is empty but day 0's summary still shows 95 kcal and one detection, and day 1 is untouched | take the record out of the summary of the day it was logged on | medium, not executed | StoreInvariants.DeleteOnLaterDayBreaksConsistency | StoreInvariants.CorrectedDeletePreservesConsistency |
