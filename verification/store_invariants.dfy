/**
 * How the summary document relates to the history document: each day's
 * summary is meant to aggregate that day's records. Logging keeps that
 * relation; deleting keeps it only for a record logged on the day of the
 * deletion, because the source always adjusts today's summary.
 */
module StoreInvariants {
  import opened Wrappers
  import opened AssocList
  import opened FileHandler

  /** Calories of the records logged on `d`. */
  function CaloriesOn(h: seq<Record>, d: Date): int {
    if h == [] then 0
    else CaloriesOn(h[..|h| - 1], d) + (if DateOf(h[|h| - 1].timestamp) == d then h[|h| - 1].calories else 0)
  }

  /** Number of records logged on `d`. */
  function CountOn(h: seq<Record>, d: Date): nat {
    if h == [] then 0
    else CountOn(h[..|h| - 1], d) + (if DateOf(h[|h| - 1].timestamp) == d then 1 else 0)
  }

  /** Number of records of `food` logged on `d`. */
  function FoodCountOn(h: seq<Record>, d: Date, food: string): nat {
    if h == [] then 0
    else
      var last := h[|h| - 1];
      FoodCountOn(h[..|h| - 1], d, food) + (if DateOf(last.timestamp) == d && last.food == food then 1 else 0)
  }

  /** All three per-day tallies are additive over concatenation. */
  lemma {:induction false} TalliesAppend(a: seq<Record>, b: seq<Record>, d: Date, food: string)
    ensures CaloriesOn(a + b, d) == CaloriesOn(a, d) + CaloriesOn(b, d)
    ensures CountOn(a + b, d) == CountOn(a, d) + CountOn(b, d)
    ensures FoodCountOn(a + b, d, food) == FoodCountOn(a, d, food) + FoodCountOn(b, d, food)
    decreases |b|
  {
    if b == [] {
      assert a + b == a;
    } else {
      var c := b[..|b| - 1];
      assert (a + b)[..|a + b| - 1] == a + c;
      TalliesAppend(a, c, d, food);
    }
  }

  /** `s` is exactly the aggregate of the records `h` holds for day `d`. */
  ghost predicate Mirrors(s: DailySummary, h: seq<Record>, d: Date) {
    && s.totalCalories == CaloriesOn(h, d)
    && s.detectionCount == CountOn(h, d)
    && (forall f :: FoodCount(s.foods, f) == FoodCountOn(h, d, f))
    && (forall f :: f in s.foods ==> s.foods[f] > 0)
  }

  /** Every day's summary, as `get_daily_summary` reports it, aggregates that day's records. */
  ghost predicate Consistent(st: Store) {
    forall d :: Mirrors(GetDailySummary(st.logs, d), st.history, d)
  }

  lemma EmptyStoreConsistent()
    ensures Consistent(EmptyStore)
  {
  }

  /** A log leaves every other day's summary as it was. */
  lemma LogKeepsOtherDays(st: Store, now: Timestamp, today: Date, food: string, confidence: real, calories: int, d: Date)
    requires d != today
    ensures GetDailySummary(LogDetection(st, now, today, food, confidence, calories).logs, d) == GetDailySummary(st.logs, d)
  {
    var r := LogDetection(st, now, today, food, confidence, calories);
    assert Get(r.logs, d) == Get(st.logs, d);
  }

  /** Logging a detection on the day it is stamped keeps the documents consistent. */
  lemma LogPreservesConsistency(st: Store, now: Timestamp, today: Date, food: string, confidence: real, calories: int)
    requires Consistent(st) && DateOf(now) == today
    ensures Consistent(LogDetection(st, now, today, food, confidence, calories))
  {
    var r := LogDetection(st, now, today, food, confidence, calories);
    forall d
      ensures Mirrors(GetDailySummary(r.logs, d), r.history, d)
    {
      assert Mirrors(GetDailySummary(st.logs, d), st.history, d);
      if d != today {
        LogKeepsOtherDays(st, now, today, food, confidence, calories, d);
        assert r.history == st.history + [r.history[|st.history|]];
        TalliesAppend(st.history, [r.history[|st.history|]], d, food);
        forall f
          ensures FoodCountOn(r.history, d, f) == FoodCountOn(st.history, d, f)
        {
          TalliesAppend(st.history, [r.history[|st.history|]], d, f);
        }
      } else {
        LogTodayMirrors(st, now, today, food, confidence, calories);
      }
    }
  }

  /** Logging a detection stamped today keeps today's summary equal to today's aggregate. */
  lemma LogTodayMirrors(st: Store, now: Timestamp, today: Date, food: string, confidence: real, calories: int)
    requires Mirrors(GetDailySummary(st.logs, today), st.history, today) && DateOf(now) == today
    ensures var r := LogDetection(st, now, today, food, confidence, calories);
      Mirrors(GetDailySummary(r.logs, today), r.history, today)
  {
    var r := LogDetection(st, now, today, food, confidence, calories);
    var x := r.history[|st.history|];
    assert r.history == st.history + [x];
    AddKeepsMirror(GetDailySummary(st.logs, today), GetDailySummary(r.logs, today), st.history, x, today);
  }

  /** Counting record `x` of day `d` into a summary that mirrors `h` makes it mirror `h + [x]`. */
  lemma AddKeepsMirror(before: DailySummary, after: DailySummary, h: seq<Record>, x: Record, d: Date)
    requires Mirrors(before, h, d) && DateOf(x.timestamp) == d
    requires after.totalCalories == before.totalCalories + x.calories
    requires after.detectionCount == before.detectionCount + 1
    requires FoodCount(after.foods, x.food) == FoodCount(before.foods, x.food) + 1
    requires after.foods.Keys == before.foods.Keys + {x.food}
    requires forall f :: f != x.food ==> FoodCount(after.foods, f) == FoodCount(before.foods, f)
    ensures Mirrors(after, h + [x], d)
  {
    assert (h + [x])[..|h|] == h;
    forall f
      ensures FoodCount(after.foods, f) == FoodCountOn(h + [x], d, f)
    {
    }
    assert FoodCount(before.foods, x.food) >= 0;
    forall f | f in after.foods
      ensures after.foods[f] > 0
    {
      if f != x.food {
        assert FoodCount(after.foods, f) == FoodCount(before.foods, f);
      }
    }
  }

  /** Removing the record at `i` takes exactly its contribution out of its own day's tallies. */
  lemma {:induction false} RemoveTallies(h: seq<Record>, i: nat, d: Date, f: string)
    requires i < |h|
    ensures var rest, x := h[..i] + h[i + 1..], h[i];
      var here := DateOf(x.timestamp) == d;
      && CaloriesOn(h, d) == CaloriesOn(rest, d) + (if here then x.calories else 0)
      && CountOn(h, d) == CountOn(rest, d) + (if here then 1 else 0)
      && FoodCountOn(h, d, f) == FoodCountOn(rest, d, f) + (if here && f == x.food then 1 else 0)
  {
    assert h == h[..i] + [h[i]] + h[i + 1..];
    assert ([] + [h[i]])[..0] == [];
    TalliesAppend(h[..i] + [h[i]], h[i + 1..], d, f);
    TalliesAppend(h[..i], [h[i]], d, f);
    TalliesAppend(h[..i], h[i + 1..], d, f);
    TalliesAppend([], [h[i]], d, f);
    assert [] + [h[i]] == [h[i]];
  }

  /** Taking a detection that the summary mirrors out of both keeps the mirror. */
  lemma SubtractKeepsMirror(s: DailySummary, h: seq<Record>, i: nat, d: Date)
    requires i < |h| && DateOf(h[i].timestamp) == d && Mirrors(s, h, d)
    ensures Mirrors(SubtractFromSummary(s, h[i].food, h[i].calories), h[..i] + h[i + 1..], d)
  {
    var rest, x := h[..i] + h[i + 1..], h[i];
    var s' := SubtractFromSummary(s, x.food, x.calories);
    forall f
      ensures FoodCountOn(h, d, f) == FoodCountOn(rest, d, f) + (if f == x.food then 1 else 0)
    {
      RemoveTallies(h, i, d, f);
    }
    RemoveTallies(h, i, d, x.food);
    assert FoodCount(s.foods, x.food) >= 1;
    forall f
      ensures FoodCount(s'.foods, f) == FoodCountOn(rest, d, f)
    {
    }
  }

  /** Removing a record from another day leaves a day's mirror intact. */
  lemma OtherDayKeepsMirror(s: DailySummary, h: seq<Record>, i: nat, d: Date)
    requires i < |h| && DateOf(h[i].timestamp) != d && Mirrors(s, h, d)
    ensures Mirrors(s, h[..i] + h[i + 1..], d)
  {
    forall f
      ensures FoodCountOn(h, d, f) == FoodCountOn(h[..i] + h[i + 1..], d, f)
    {
      RemoveTallies(h, i, d, f);
    }
    RemoveTallies(h, i, d, "");
  }

  /** Removing record `i`, logged on `today`, from the history and from today's summary keeps
      the documents consistent. */
  lemma RemoveRecordKeepsConsistency(st: Store, i: nat, today: Date)
    requires Consistent(st) && i < |st.history| && DateOf(st.history[i].timestamp) == today
    ensures var h := st.history;
      Consistent(Store(h[..i] + h[i + 1..], RemoveFromDailySummary(st.logs, today, h[i].food, h[i].calories)))
  {
    var h := st.history;
    var rest := h[..i] + h[i + 1..];
    var s := GetDailySummary(st.logs, today);
    assert today in Keys(st.logs) by {
      assert Mirrors(s, h, today);
      RemoveTallies(h, i, today, h[i].food);
    }
    GetPresent(st.logs, today);
    var s' := SubtractFromSummary(s, h[i].food, h[i].calories);
    var logs := Put(st.logs, today, s');
    assert RemoveFromDailySummary(st.logs, today, h[i].food, h[i].calories) == logs;
    forall d
      ensures Mirrors(GetDailySummary(logs, d), rest, d)
    {
      GetPut(st.logs, today, s', d);
      assert Mirrors(GetDailySummary(st.logs, d), h, d);
      if d == today {
        SubtractKeepsMirror(s, h, i, today);
      } else {
        OtherDayKeepsMirror(GetDailySummary(st.logs, d), h, i, d);
      }
    }
  }

  /** Deleting a record logged today keeps the documents consistent. */
  lemma DeletePreservesConsistency(st: Store, id: Timestamp, today: Date)
    requires Consistent(st) && DateOf(id) == today
    ensures Consistent(DeleteDetection(st, id, today).store)
  {
    var r := DeleteDetection(st, id, today);
    if r.deleted {
      var h := st.history;
      var i :| && 0 <= i < |h|
        && h[i].timestamp == id
        && (forall j :: 0 <= j < i ==> h[j].timestamp != id)
        && r.store.history == h[..i] + h[i + 1..]
        && r.store.logs == RemoveFromDailySummary(st.logs, today, h[i].food, h[i].calories);
      RemoveRecordKeepsConsistency(st, i, today);
    }
  }

  /** A record logged on one day and deleted on a later one leaves its calories in its own
      day's summary while it is gone from the history. */
  lemma DeleteOnLaterDayBreaksConsistency()
    ensures var logged := LogDetection(EmptyStore, 0, 0, "Apple", 0.9, 95);
      var r := DeleteDetection(logged, 0, 1);
      && Consistent(logged)
      && r.deleted
      && r.store.history == []
      && GetDailySummary(r.store.logs, 0).totalCalories == 95
      && !Consistent(r.store)
  {
    EmptyStoreConsistent();
    LogPreservesConsistency(EmptyStore, 0, 0, "Apple", 0.9, 95);
    var logged := LogDetection(EmptyStore, 0, 0, "Apple", 0.9, 95);
    assert logged.logs == [(0, DailySummary(95, map["Apple" := 1], 1))];
    var r := DeleteDetection(logged, 0, 1);
    assert r.store.logs == logged.logs;
    assert !Mirrors(GetDailySummary(r.store.logs, 0), r.store.history, 0);
  }

  /** Taking back a detection just counted in gives back the summary, provided no food
      count in it was zero or negative. */
  lemma SubtractUndoesAdd(s: DailySummary, food: string, calories: int)
    requires food in s.foods ==> s.foods[food] > 0
    ensures SubtractFromSummary(AddToSummary(s, food, calories), food, calories) == s
  {
    var added := AddToSummary(s, food, calories);
    if food in s.foods {
      assert added.foods[food := s.foods[food]] == s.foods;
    } else {
      assert added.foods - {food} == s.foods;
    }
  }

  /** Deleting a fresh instant right after logging it finds the new last record. */
  lemma DeleteFindsLogged(st: Store, now: Timestamp, today: Date, food: string, confidence: real, calories: int)
    requires forall j :: 0 <= j < |st.history| ==> st.history[j].timestamp != now
    ensures var logged := LogDetection(st, now, today, food, confidence, calories);
      DeleteDetection(logged, now, today)
        == DeleteResult(Store(st.history, RemoveFromDailySummary(logged.logs, today, food, calories)), true)
  {
    var h := st.history;
    var logged := LogDetection(st, now, today, food, confidence, calories);
    assert FindByTimestamp(logged.history, now) == Some(|h|);
    assert logged.history[|h|] == Record(now, food, RoundHundredths(confidence), calories);
    assert logged.history[..|h|] + logged.history[|h| + 1..] == h;
  }

  /** Taking the logged detection back out of today's entry leaves today's prior summary there. */
  lemma RemoveAfterUpdate(logs: Logs, today: Date, food: string, calories: int)
    requires var s := Get(logs, today).GetOr(ZeroSummary); food in s.foods ==> s.foods[food] > 0
    ensures RemoveFromDailySummary(UpdateDailySummary(logs, today, food, calories), today, food, calories)
      == Put(logs, today, Get(logs, today).GetOr(ZeroSummary))
  {
    var before := Get(logs, today).GetOr(ZeroSummary);
    var added := AddToSummary(before, food, calories);
    GetPut(logs, today, added, today);
    SubtractUndoesAdd(before, food, calories);
    PutPut(logs, today, added, before);
  }

  /** Logging then deleting gives back the history, and the summary document up to a
      today entry put in place of a missing one. */
  lemma LogThenDeleteDocuments(st: Store, now: Timestamp, today: Date, food: string, confidence: real, calories: int)
    requires forall j :: 0 <= j < |st.history| ==> st.history[j].timestamp != now
    requires var s := GetDailySummary(st.logs, today); food in s.foods ==> s.foods[food] > 0
    ensures var r := DeleteDetection(LogDetection(st, now, today, food, confidence, calories), now, today);
      && r.deleted
      && r.store.history == st.history
      && r.store.logs == Put(st.logs, today, GetDailySummary(st.logs, today))
  {
    DeleteFindsLogged(st, now, today, food, confidence, calories);
    assert Get(st.logs, today).GetOr(ZeroSummary) == GetDailySummary(st.logs, today);
    RemoveAfterUpdate(st.logs, today, food, calories);
  }

  /** Logging a detection and then deleting it on the same day gives back the history and
      every day's summary. The summary document itself is given back too when today already
      had an entry; otherwise it keeps a zeroed entry for today, which `days_tracked` counts. */
  lemma LogThenDeleteRestores(st: Store, now: Timestamp, today: Date, food: string, confidence: real, calories: int)
    requires forall j :: 0 <= j < |st.history| ==> st.history[j].timestamp != now
    requires var s := GetDailySummary(st.logs, today); food in s.foods ==> s.foods[food] > 0
    ensures var r := DeleteDetection(LogDetection(st, now, today, food, confidence, calories), now, today);
      && r.deleted
      && r.store.history == st.history
      && (forall d :: GetDailySummary(r.store.logs, d) == GetDailySummary(st.logs, d))
      && (today in Keys(st.logs) ==> r.store.logs == st.logs)
      && (today !in Keys(st.logs) ==> Keys(r.store.logs) == Keys(st.logs) + [today])
  {
    LogThenDeleteDocuments(st, now, today, food, confidence, calories);
    var before := GetDailySummary(st.logs, today);
    var logs := Put(st.logs, today, before);
    forall d
      ensures GetDailySummary(logs, d) == GetDailySummary(st.logs, d)
    {
      GetPut(st.logs, today, before, d);
    }
    KeysPut(st.logs, today, before);
    GetPresent(st.logs, today);
    if today in Keys(st.logs) {
      PutSame(st.logs, today, before);
    }
  }

  /** One call of `log_detection`. */
  datatype LogCall = LogCall(now: Timestamp, food: string, confidence: real, calories: int)

  /** Performs the calls in order, all on day `today`. */
  function LogAll(st: Store, calls: seq<LogCall>, today: Date): (r: Store)
    ensures |r.history| == |st.history| + |calls|
  {
    if calls == [] then st
    else
      var c := calls[|calls| - 1];
      LogDetection(LogAll(st, calls[..|calls| - 1], today), c.now, today, c.food, c.confidence, c.calories)
  }

  function SumCalories(h: seq<Record>): int {
    if h == [] then 0 else SumCalories(h[..|h| - 1]) + h[|h| - 1].calories
  }

  /** Logging keeps the documents consistent and stamps every record with `today`. */
  lemma {:induction false} LogAllConsistent(calls: seq<LogCall>, today: Date)
    requires forall i :: 0 <= i < |calls| ==> DateOf(calls[i].now) == today
    ensures var st := LogAll(EmptyStore, calls, today);
      && Consistent(st)
      && forall j :: 0 <= j < |st.history| ==> DateOf(st.history[j].timestamp) == today
  {
    if calls == [] {
      EmptyStoreConsistent();
    } else {
      var c := calls[|calls| - 1];
      var pre := LogAll(EmptyStore, calls[..|calls| - 1], today);
      LogAllConsistent(calls[..|calls| - 1], today);
      LogPreservesConsistency(pre, c.now, today, c.food, c.confidence, c.calories);
    }
  }

  /** With every record on day `d`, the day's tallies are the history's totals. */
  lemma {:induction false} AllOnOneDay(h: seq<Record>, d: Date)
    requires forall j :: 0 <= j < |h| ==> DateOf(h[j].timestamp) == d
    ensures CaloriesOn(h, d) == SumCalories(h) && CountOn(h, d) == |h|
  {
    if h != [] {
      AllOnOneDay(h[..|h| - 1], d);
    }
  }

  /** Starting from empty documents, after any number of detections logged on one day, that
      day's summary holds the sum of the records' calories and their number. */
  lemma OneDayTotals(calls: seq<LogCall>, today: Date)
    requires forall i :: 0 <= i < |calls| ==> DateOf(calls[i].now) == today
    ensures var st := LogAll(EmptyStore, calls, today);
      && GetDailySummary(st.logs, today).totalCalories == SumCalories(st.history)
      && GetDailySummary(st.logs, today).detectionCount == |st.history| == |calls|
  {
    var st := LogAll(EmptyStore, calls, today);
    LogAllConsistent(calls, today);
    AllOnOneDay(st.history, today);
    assert Mirrors(GetDailySummary(st.logs, today), st.history, today);
  }

  /** A log changes only today's row of the weekly summary. */
  lemma WeeklyAfterLog(st: Store, now: Timestamp, today: Date, food: string, confidence: real, calories: int)
    ensures var w, w' := GetWeeklySummary(st.logs, today),
                         GetWeeklySummary(LogDetection(st, now, today, food, confidence, calories).logs, today);
      && w'[0].1.totalCalories == w[0].1.totalCalories + calories
      && w'[0].1.detectionCount == w[0].1.detectionCount + 1
      && forall i :: 1 <= i < 7 ==> w'[i] == w[i]
  {
    var r := LogDetection(st, now, today, food, confidence, calories);
    forall d | today - 6 <= d < today
      ensures GetDailySummary(r.logs, d) == GetDailySummary(st.logs, d)
    {
      LogKeepsOtherDays(st, now, today, food, confidence, calories, d);
    }
  }

  /** Sum over the summary document's dates of the calories the history holds for each. */
  function CaloriesByDay(h: seq<Record>, logs: Logs): int {
    if logs == [] then 0 else CaloriesOn(h, logs[0].0) + CaloriesByDay(h, logs[1..])
  }

  /** A record adds its calories to the one date it falls on, when that date is listed. */
  lemma {:induction false} CaloriesByDayStep(h: seq<Record>, x: Record, logs: Logs)
    requires DistinctKeys(logs)
    ensures CaloriesByDay(h + [x], logs)
      == CaloriesByDay(h, logs) + (if DateOf(x.timestamp) in Keys(logs) then x.calories else 0)
  {
    assert (h + [x])[..|h + [x]| - 1] == h;
    if logs != [] {
      CaloriesByDayStep(h, x, logs[1..]);
      assert Keys(logs) == [logs[0].0] + Keys(logs[1..]);
      assert logs[0].0 !in Keys(logs[1..]);
    }
  }

  /** When every record falls on a listed date, the per-date sums add up to the whole history. */
  lemma {:induction false} CaloriesByDayCoversHistory(h: seq<Record>, logs: Logs)
    requires DistinctKeys(logs)
    requires forall j :: 0 <= j < |h| ==> DateOf(h[j].timestamp) in Keys(logs)
    ensures CaloriesByDay(h, logs) == SumCalories(h)
  {
    if h == [] {
      CaloriesByDayEmpty(logs);
    } else {
      var init := h[..|h| - 1];
      CaloriesByDayCoversHistory(init, logs);
      CaloriesByDayStep(init, h[|h| - 1], logs);
      assert init + [h[|h| - 1]] == h;
    }
  }

  lemma {:induction false} CaloriesByDayEmpty(logs: Logs)
    ensures CaloriesByDay([], logs) == 0
  {
    if logs != [] {
      CaloriesByDayEmpty(logs[1..]);
    }
  }

  /** Summed totals equal the per-date history sums when each entry mirrors its date. */
  lemma {:induction false} TotalsMatchByDay(h: seq<Record>, logs: Logs)
    requires forall i :: 0 <= i < |logs| ==> logs[i].1.totalCalories == CaloriesOn(h, logs[i].0)
    ensures SumValues(logs, TotalOf) == CaloriesByDay(h, logs)
  {
    if logs != [] {
      TotalsMatchByDay(h, logs[1..]);
    }
  }

  /** A record is counted on its own date. */
  lemma {:induction false} CountOnOwnDate(h: seq<Record>, j: nat)
    requires j < |h|
    ensures CountOn(h, DateOf(h[j].timestamp)) >= 1
  {
    if j < |h| - 1 {
      CountOnOwnDate(h[..|h| - 1], j);
    }
  }

  /** In consistent documents with one entry per date, the all-time total that `get_all_time_stats`
      reports is the sum of the calories of the history's records. */
  lemma AllTimeTotalMatchesHistory(st: Store)
    requires Consistent(st) && DistinctKeys(st.logs)
    ensures SumValues(st.logs, TotalOf) == SumCalories(st.history)
  {
    var h := st.history;
    forall i | 0 <= i < |st.logs|
      ensures st.logs[i].1.totalCalories == CaloriesOn(h, st.logs[i].0)
    {
      GetAt(st.logs, i);
      assert Mirrors(GetDailySummary(st.logs, st.logs[i].0), h, st.logs[i].0);
    }
    TotalsMatchByDay(h, st.logs);
    forall j | 0 <= j < |h|
      ensures DateOf(h[j].timestamp) in Keys(st.logs)
    {
      var d := DateOf(h[j].timestamp);
      CountOnOwnDate(h, j);
      assert Mirrors(GetDailySummary(st.logs, d), h, d);
    }
    CaloriesByDayCoversHistory(h, st.logs);
  }

  /** Logging and deleting never give a date two entries. */
  lemma OperationsKeepDistinctDates(st: Store, now: Timestamp, id: Timestamp, today: Date, food: string, confidence: real, calories: int)
    requires DistinctKeys(st.logs)
    ensures DistinctKeys(LogDetection(st, now, today, food, confidence, calories).logs)
    ensures DistinctKeys(DeleteDetection(st, id, today).store.logs)
  {
    PutKeepsDistinct(st.logs, today, AddToSummary(Get(st.logs, today).GetOr(ZeroSummary), food, calories));
    match Get(st.logs, today)
    case None =>
    case Some(s) =>
      forall f: string, c: int {
        PutKeepsDistinct(st.logs, today, SubtractFromSummary(s, f, c));
      }
  }

  /** Deleting from the record's own day keeps the documents consistent, whenever it happens. */
  lemma CorrectedDeletePreservesConsistency(st: Store, id: Timestamp)
    requires Consistent(st)
    ensures Consistent(DeleteDetectionOnRecordDay(st, id).store)
  {
    DeletePreservesConsistency(st, id, DateOf(id));
  }

  /** On the counterexample above, the corrected deletion leaves no trace of the record. */
  lemma CorrectedDeleteOnLaterDay()
    ensures var logged := LogDetection(EmptyStore, 0, 0, "Apple", 0.9, 95);
      var r := DeleteDetectionOnRecordDay(logged, 0);
      && r.deleted
      && r.store.history == []
      && GetDailySummary(r.store.logs, 0) == ZeroSummary
  {
    LogAppleOnEmpty();
    DeleteOnlyApple(RoundHundredths(0.9));
  }

  /** Deleting, on its own day, the only record of documents holding one Apple of day 0. */
  lemma DeleteOnlyApple(confidence: int)
    ensures var st := Store([Record(0, "Apple", confidence, 95)], [(0, DailySummary(95, map["Apple" := 1], 1))]);
      DeleteDetectionOnRecordDay(st, 0) == DeleteResult(Store([], [(0, ZeroSummary)]), true)
  {
    var st := Store([Record(0, "Apple", confidence, 95)], [(0, DailySummary(95, map["Apple" := 1], 1))]);
    assert FindByTimestamp(st.history, 0) == Some(0);
    assert Get(st.logs, 0) == Some(DailySummary(95, map["Apple" := 1], 1));
    assert map["Apple" := 1] - {"Apple"} == map[];
    assert SubtractFromSummary(DailySummary(95, map["Apple" := 1], 1), "Apple", 95) == ZeroSummary;
    assert Put(st.logs, 0, ZeroSummary) == [(0, ZeroSummary)];
  }

  /** The documents after logging one Apple of 95 kcal at instant 0 of day 0 into empty ones. */
  lemma LogAppleOnEmpty()
    ensures LogDetection(EmptyStore, 0, 0, "Apple", 0.9, 95)
      == Store([Record(0, "Apple", RoundHundredths(0.9), 95)], [(0, DailySummary(95, map["Apple" := 1], 1))])
  {
    var logged := LogDetection(EmptyStore, 0, 0, "Apple", 0.9, 95);
    assert logged.history == [Record(0, "Apple", RoundHundredths(0.9), 95)];
    assert logged.logs == [(0, DailySummary(95, map["Apple" := 1], 1))] by {
      assert map[]["Apple" := FoodCount(map[], "Apple") + 1] == map["Apple" := 1];
    }
  }
}
