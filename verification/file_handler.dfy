/**
 * The persistence and aggregation store: a history of logged detections and
 * a date-keyed map of daily summaries, each a whole document that every
 * operation reads and (for mutations) writes back.
 *
 * The two documents are values here; the clock readings the source takes
 * (`datetime.now()`, `date.today()`) are parameters. An instant is its
 * naive local wall-clock time in microseconds and a date is its day number,
 * so comparing or matching the ISO-8601 strings the source stores amounts to
 * comparing or matching these integers.
 */
module FileHandler {
  import opened Wrappers
  import opened AssocList
  import Tally

  type Timestamp = int

  type Date = int

  const MicrosPerDay := 86_400_000_000

  /** The calendar date an instant falls on. */
  function DateOf(t: Timestamp): (d: Date)
    ensures d * MicrosPerDay <= t < (d + 1) * MicrosPerDay
  {
    t / MicrosPerDay
  }

  /** Python's `round(c, 2)` as a whole number of hundredths: the nearest one, ties to even. */
  function RoundHundredths(c: real): (h: int)
    ensures -0.5 <= c * 100.0 - h as real <= 0.5
    ensures (c * 100.0 - h as real == 0.5 || c * 100.0 - h as real == -0.5) ==> h % 2 == 0
  {
    var x := c * 100.0;
    var f := x.Floor;
    if x - f as real < 0.5 then f
    else if x - f as real > 0.5 then f + 1
    else if f % 2 == 0 then f
    else f + 1
  }

  /** One logged detection; its timestamp doubles as its identifier. */
  datatype Record = Record(timestamp: Timestamp, food: string, confidence: int, calories: int)

  /** One day's aggregate: calories, per-food counts and number of detections. */
  datatype DailySummary = DailySummary(totalCalories: int, foods: map<string, int>, detectionCount: int)

  /** What a date without an entry reads as. */
  const ZeroSummary := DailySummary(0, map[], 0)

  /** The summary document: an insertion-ordered map from date to summary. */
  type Logs = seq<(Date, DailySummary)>

  datatype Store = Store(history: seq<Record>, logs: Logs)

  /** The documents as first created: `[]` and `{}`. */
  const EmptyStore := Store([], [])

  /** `foods.get(f, 0)`. */
  function FoodCount(foods: map<string, int>, f: string): int {
    if f in foods then foods[f] else 0
  }

  // ---------------------------------------------------------------------------
  // Logging

  /** A day's summary with one more detection of `food` worth `calories`. */
  function AddToSummary(s: DailySummary, food: string, calories: int): DailySummary {
    DailySummary(s.totalCalories + calories, s.foods[food := FoodCount(s.foods, food) + 1], s.detectionCount + 1)
  }

  /** Counts one detection into today's entry, creating it zeroed when absent. */
  function UpdateDailySummary(logs: Logs, today: Date, food: string, calories: int): Logs {
    Put(logs, today, AddToSummary(Get(logs, today).GetOr(ZeroSummary), food, calories))
  }

  /** Appends a record stamped `now` to the history, then counts it into `today`'s summary. */
  function LogDetection(s: Store, now: Timestamp, today: Date, food: string, confidence: real, calories: int): (r: Store)
    ensures |r.history| == |s.history| + 1
    ensures r.history[..|s.history|] == s.history
    ensures r.history[|s.history|] == Record(now, food, RoundHundredths(confidence), calories)
    ensures var before, after := GetDailySummary(s.logs, today), GetDailySummary(r.logs, today);
      && after.totalCalories == before.totalCalories + calories
      && after.detectionCount == before.detectionCount + 1
      && FoodCount(after.foods, food) == FoodCount(before.foods, food) + 1
      && after.foods.Keys == before.foods.Keys + {food}
      && forall f :: f != food ==> FoodCount(after.foods, f) == FoodCount(before.foods, f)
    ensures forall d :: d != today ==> Get(r.logs, d) == Get(s.logs, d)
    ensures Keys(r.logs) == if today in Keys(s.logs) then Keys(s.logs) else Keys(s.logs) + [today]
  {
    var logs := UpdateDailySummary(s.logs, today, food, calories);
    var v := AddToSummary(Get(s.logs, today).GetOr(ZeroSummary), food, calories);
    GetPut(s.logs, today, v, today);
    KeysPut(s.logs, today, v);
    assert forall d :: d != today ==> Get(logs, d) == Get(s.logs, d) by {
      forall d | d != today
        ensures Get(logs, d) == Get(s.logs, d)
      {
        GetPut(s.logs, today, v, d);
      }
    }
    Store(s.history + [Record(now, food, RoundHundredths(confidence), calories)], logs)
  }

  // ---------------------------------------------------------------------------
  // Deleting

  /** Position of the first record stamped `id`, if any. */
  function FindByTimestamp(history: seq<Record>, id: Timestamp): (r: Option<nat>)
    ensures r.None? <==> forall j :: 0 <= j < |history| ==> history[j].timestamp != id
    ensures r.Some? ==> r.value < |history| && history[r.value].timestamp == id
    ensures r.Some? ==> forall j :: 0 <= j < r.value ==> history[j].timestamp != id
  {
    if history == [] then None
    else if history[0].timestamp == id then Some(0)
    else
      match FindByTimestamp(history[1..], id)
      case None => None
      case Some(i) => Some(i + 1)
  }

  /** A day's summary with one detection of `food` worth `calories` taken back; the food's
      count disappears once it drops to zero or below. */
  function SubtractFromSummary(s: DailySummary, food: string, calories: int): DailySummary {
    var foods :=
      if food !in s.foods then s.foods
      else if s.foods[food] - 1 <= 0 then s.foods - {food}
      else s.foods[food := s.foods[food] - 1];
    DailySummary(s.totalCalories - calories, foods, s.detectionCount - 1)
  }

  /** Takes one detection back out of TODAY's entry, whatever day it was logged on;
      nothing happens when today has no entry. */
  function RemoveFromDailySummary(logs: Logs, today: Date, food: string, calories: int): Logs {
    match Get(logs, today)
    case None => logs
    case Some(s) => Put(logs, today, SubtractFromSummary(s, food, calories))
  }

  /** Taking a detection back out of today's entry: without an entry nothing changes; with
      one, its calories drop by `calories`, its detection count by one, and the food's count by
      one, the food leaving the map once its count is no longer positive. Other foods, other
      dates and the order of dates are untouched. */
  lemma RemoveFromDailySummaryEffect(logs: Logs, today: Date, food: string, calories: int)
    ensures var r := RemoveFromDailySummary(logs, today, food, calories);
      && Keys(r) == Keys(logs)
      && (forall d :: d != today ==> Get(r, d) == Get(logs, d))
      && (today !in Keys(logs) ==> r == logs)
      && (today in Keys(logs) ==>
            && Get(logs, today).Some? && Get(r, today).Some?
            && var before, after := Get(logs, today).value, Get(r, today).value;
            && after.totalCalories == before.totalCalories - calories
            && after.detectionCount == before.detectionCount - 1
            && (food in after.foods <==> food in before.foods && before.foods[food] > 1)
            && (food in after.foods ==> after.foods[food] == before.foods[food] - 1)
            && (forall f :: f != food ==> (f in after.foods <==> f in before.foods))
            && (forall f :: f != food && f in after.foods ==> after.foods[f] == before.foods[f]))
  {
    GetPresent(logs, today);
    match Get(logs, today)
    case None =>
    case Some(v) =>
      var v' := SubtractFromSummary(v, food, calories);
      KeysPut(logs, today, v');
      assert Get(Put(logs, today, v'), today) == Some(v') by {
        GetPut(logs, today, v', today);
      }
      forall d | d != today
        ensures Get(Put(logs, today, v'), d) == Get(logs, d)
      {
        GetPut(logs, today, v', d);
      }
  }

  datatype DeleteResult = DeleteResult(store: Store, deleted: bool)

  /** Removes the first record stamped `id` and takes it out of today's summary. */
  function DeleteDetection(s: Store, id: Timestamp, today: Date): (r: DeleteResult)
    ensures r.deleted <==> exists j :: 0 <= j < |s.history| && s.history[j].timestamp == id
    ensures !r.deleted ==> r.store == s
    ensures r.deleted ==> exists i ::
      && 0 <= i < |s.history|
      && s.history[i].timestamp == id
      && (forall j :: 0 <= j < i ==> s.history[j].timestamp != id)
      && r.store.history == s.history[..i] + s.history[i + 1..]
      && r.store.logs == RemoveFromDailySummary(s.logs, today, s.history[i].food, s.history[i].calories)
  {
    match FindByTimestamp(s.history, id)
    case None => DeleteResult(s, false)
    case Some(i) =>
      var victim := s.history[i];
      DeleteResult(
        Store(s.history[..i] + s.history[i + 1..], RemoveFromDailySummary(s.logs, today, victim.food, victim.calories)),
        true)
  }

  /** Deletion as evidently intended: the record comes out of the summary of the day it was
      logged on, whichever day the deletion happens. */
  function DeleteDetectionOnRecordDay(s: Store, id: Timestamp): (r: DeleteResult)
    ensures r.deleted <==> exists j :: 0 <= j < |s.history| && s.history[j].timestamp == id
    ensures !r.deleted ==> r.store == s
    ensures r.deleted ==> exists i ::
      && 0 <= i < |s.history|
      && s.history[i].timestamp == id
      && (forall j :: 0 <= j < i ==> s.history[j].timestamp != id)
      && r.store.history == s.history[..i] + s.history[i + 1..]
      && r.store.logs == RemoveFromDailySummary(s.logs, DateOf(s.history[i].timestamp), s.history[i].food, s.history[i].calories)
  {
    DeleteDetection(s, id, DateOf(id))
  }

  // ---------------------------------------------------------------------------
  // Queries

  /** The summary stored for `date`, or the zero summary when there is none. */
  function GetDailySummary(logs: Logs, date: Date): (s: DailySummary)
    ensures date !in Keys(logs) ==> s == ZeroSummary
    ensures date in Keys(logs) ==> (date, s) in logs
  {
    GetPresent(logs, date);
    if Get(logs, date).Some? then GetIn(logs, date); Get(logs, date).value
    else ZeroSummary
  }

  /** Where a Python slice `xs[start:]` of a sequence of length `n` begins. */
  function SliceStart(start: int, n: nat): (i: nat)
    ensures i <= n
  {
    if start < 0 then (if n + start < 0 then 0 else n + start)
    else if start > n then n
    else start
  }

  /** `history[-limit:]`: the last `limit` records for a positive limit, in stored order. */
  function GetRecentDetections(history: seq<Record>, limit: int): (r: seq<Record>)
    ensures |r| <= |history| && r == history[|history| - |r|..]
    ensures limit >= 1 ==> |r| == if limit < |history| then limit else |history|
    ensures limit == 0 ==> r == history
    ensures limit < 0 ==> |r| == if -limit < |history| then |history| + limit else 0
  {
    if history == [] then [] else history[SliceStart(-limit, |history|)..]
  }

  /** Today and the six days before it, newest first, each with its summary or the zero summary. */
  function GetWeeklySummary(logs: Logs, today: Date): (w: seq<(Date, DailySummary)>)
    ensures |w| == 7 && DistinctKeys(w)
    ensures forall d :: d in Keys(w) <==> today - 6 <= d <= today
    ensures forall i :: 0 <= i < 7 ==> w[i] == (today - i, GetDailySummary(logs, today - i))
  {
    var w := seq(7, i requires 0 <= i < 7 => (today - i, GetDailySummary(logs, today - i)));
    assert forall d :: d in Keys(w) <==> today - 6 <= d <= today by {
      forall d | today - 6 <= d <= today
        ensures d in Keys(w)
      {
        assert Keys(w)[today - d] == d;
      }
    }
    w
  }

  /** The records logged on `date`, in stored order. */
  function OnDate(history: seq<Record>, date: Date): (r: seq<Record>)
    ensures forall x :: x in r <==> x in history && DateOf(x.timestamp) == date
  {
    if history == [] then []
    else
      var last := history[|history| - 1];
      assert history == history[..|history| - 1] + [last];
      OnDate(history[..|history| - 1], date) + (if DateOf(last.timestamp) == date then [last] else [])
  }

  /** Each record is at least as new as the next one. */
  predicate NewestFirst(rs: seq<Record>) {
    |rs| <= 1 || (rs[0].timestamp >= rs[1].timestamp && NewestFirst(rs[1..]))
  }

  /** Newest-first order is the same as: every record is at least as new as every later one. */
  lemma NewestFirstPairwise(rs: seq<Record>)
    ensures NewestFirst(rs) <==> forall i, j :: 0 <= i < j < |rs| ==> rs[i].timestamp >= rs[j].timestamp
  {
    if NewestFirst(rs) {
      NewestFirstOrdersAll(rs);
    }
    if forall i, j :: 0 <= i < j < |rs| ==> rs[i].timestamp >= rs[j].timestamp {
      OrderedIsNewestFirst(rs);
    }
  }

  lemma {:induction false} NewestFirstOrdersAll(rs: seq<Record>)
    requires NewestFirst(rs)
    ensures forall i, j :: 0 <= i < j < |rs| ==> rs[i].timestamp >= rs[j].timestamp
  {
    if |rs| > 1 {
      var tail := rs[1..];
      NewestFirstOrdersAll(tail);
      forall i, j | 0 <= i < j < |rs|
        ensures rs[i].timestamp >= rs[j].timestamp
      {
        assert rs[j] == tail[j - 1];
        if i > 0 {
          assert rs[i] == tail[i - 1];
        } else if j > 1 {
          assert rs[1] == tail[0];
        }
      }
    }
  }

  lemma {:induction false} OrderedIsNewestFirst(rs: seq<Record>)
    requires forall i, j :: 0 <= i < j < |rs| ==> rs[i].timestamp >= rs[j].timestamp
    ensures NewestFirst(rs)
  {
    if |rs| > 1 {
      var tail := rs[1..];
      forall i, j | 0 <= i < j < |tail|
        ensures tail[i].timestamp >= tail[j].timestamp
      {
        assert tail[i] == rs[i + 1] && tail[j] == rs[j + 1];
      }
      OrderedIsNewestFirst(tail);
    }
  }

  /** Inserts `x` after every record at least as new, so that equal timestamps keep their order. */
  function InsertNewestFirst(x: Record, sorted: seq<Record>): (r: seq<Record>)
    requires NewestFirst(sorted)
    ensures NewestFirst(r)
    ensures |r| == |sorted| + 1
    ensures r[0] == x || (sorted != [] && r[0] == sorted[0])
  {
    if sorted == [] then [x]
    else if sorted[0].timestamp >= x.timestamp then
      var rest := InsertNewestFirst(x, sorted[1..]);
      assert ([sorted[0]] + rest)[1..] == rest;
      [sorted[0]] + rest
    else
      assert ([x] + sorted)[1..] == sorted;
      [x] + sorted
  }

  /** Insertion adds exactly the one record. */
  lemma {:induction false} InsertPermutes(x: Record, sorted: seq<Record>)
    requires NewestFirst(sorted)
    ensures multiset(InsertNewestFirst(x, sorted)) == multiset(sorted) + multiset{x}
  {
    if sorted != [] && sorted[0].timestamp >= x.timestamp {
      InsertPermutes(x, sorted[1..]);
      assert sorted == [sorted[0]] + sorted[1..];
    }
  }

  /** Sorts by timestamp, newest first, like Python's stable `sort(reverse=True)`. */
  function SortNewestFirst(rs: seq<Record>): (r: seq<Record>)
    ensures NewestFirst(r)
    ensures |r| == |rs|
  {
    if rs == [] then [] else InsertNewestFirst(rs[|rs| - 1], SortNewestFirst(rs[..|rs| - 1]))
  }

  /** Sorting only reorders. */
  lemma {:induction false} SortPermutes(rs: seq<Record>)
    ensures multiset(SortNewestFirst(rs)) == multiset(rs)
  {
    if rs != [] {
      var init, last := rs[..|rs| - 1], rs[|rs| - 1];
      var sortedInit := SortNewestFirst(init);
      assert SortNewestFirst(rs) == InsertNewestFirst(last, sortedInit);
      assert multiset(sortedInit) == multiset(init) by {
        SortPermutes(init);
      }
      assert multiset(InsertNewestFirst(last, sortedInit)) == multiset(sortedInit) + multiset{last} by {
        InsertPermutes(last, sortedInit);
      }
      assert multiset(rs) == multiset(init) + multiset{last} by {
        assert rs == init + [last];
      }
    }
  }

  /** The records stamped exactly `t`, in their order in `rs`. */
  function Stamped(rs: seq<Record>, t: Timestamp): seq<Record> {
    if rs == [] then [] else (if rs[0].timestamp == t then [rs[0]] else []) + Stamped(rs[1..], t)
  }

  lemma {:induction false} StampedAppend(a: seq<Record>, b: seq<Record>, t: Timestamp)
    ensures Stamped(a + b, t) == Stamped(a, t) + Stamped(b, t)
  {
    if a != [] {
      assert (a + b)[1..] == a[1..] + b;
      StampedAppend(a[1..], b, t);
    } else {
      assert a + b == b;
    }
  }

  /** In a newest-first list whose head is older than `t`, nothing is stamped `t`. */
  lemma {:induction false} StampedNone(rs: seq<Record>, t: Timestamp)
    requires NewestFirst(rs) && (rs != [] ==> rs[0].timestamp < t)
    ensures Stamped(rs, t) == []
  {
    if rs != [] {
      StampedNone(rs[1..], t);
    }
  }

  /** Insertion puts `x` behind every record with the same timestamp. */
  lemma {:induction false} InsertKeepsStampOrder(x: Record, sorted: seq<Record>, t: Timestamp)
    requires NewestFirst(sorted)
    ensures Stamped(InsertNewestFirst(x, sorted), t) == Stamped(sorted, t) + (if x.timestamp == t then [x] else [])
  {
    if sorted == [] {
      assert [x][1..] == [];
    } else if sorted[0].timestamp >= x.timestamp {
      InsertKeepsStampOrder(x, sorted[1..], t);
      InsertBehind(x, sorted, t);
    } else {
      InsertInFront(x, sorted, t);
    }
  }

  /** Inserting behind the head: the head's stamp group is unaffected. */
  lemma InsertBehind(x: Record, sorted: seq<Record>, t: Timestamp)
    requires NewestFirst(sorted) && sorted != [] && sorted[0].timestamp >= x.timestamp
    requires Stamped(InsertNewestFirst(x, sorted[1..]), t) == Stamped(sorted[1..], t) + (if x.timestamp == t then [x] else [])
    ensures Stamped(InsertNewestFirst(x, sorted), t) == Stamped(sorted, t) + (if x.timestamp == t then [x] else [])
  {
    var mine := if x.timestamp == t then [x] else [];
    var head := if sorted[0].timestamp == t then [sorted[0]] else [];
    var rest := InsertNewestFirst(x, sorted[1..]);
    var tail := Stamped(sorted[1..], t);
    assert Stamped(InsertNewestFirst(x, sorted), t) == head + Stamped(rest, t) by {
      assert InsertNewestFirst(x, sorted) == [sorted[0]] + rest;
      assert ([sorted[0]] + rest)[1..] == rest;
    }
    assert head + (tail + mine) == (head + tail) + mine;
  }

  /** Inserting in front of an older head: nothing in the list has `x`'s stamp. */
  lemma InsertInFront(x: Record, sorted: seq<Record>, t: Timestamp)
    requires NewestFirst(sorted) && sorted != [] && sorted[0].timestamp < x.timestamp
    ensures Stamped(InsertNewestFirst(x, sorted), t) == Stamped(sorted, t) + (if x.timestamp == t then [x] else [])
  {
    var mine := if x.timestamp == t then [x] else [];
    assert Stamped(InsertNewestFirst(x, sorted), t) == mine + Stamped(sorted, t) by {
      assert InsertNewestFirst(x, sorted) == [x] + sorted;
      assert ([x] + sorted)[1..] == sorted;
    }
    if x.timestamp == t {
      StampedNone(sorted, t);
      assert mine + [] == [] + mine;
    } else {
      assert [] + Stamped(sorted, t) == Stamped(sorted, t) + [];
    }
  }

  lemma SortStep(rs: seq<Record>)
    requires rs != []
    ensures SortNewestFirst(rs) == InsertNewestFirst(rs[|rs| - 1], SortNewestFirst(rs[..|rs| - 1]))
  {
  }

  /** The sort is stable: records with equal timestamps keep their relative order. */
  lemma {:induction false} SortIsStable(rs: seq<Record>, t: Timestamp)
    ensures Stamped(SortNewestFirst(rs), t) == Stamped(rs, t)
    decreases |rs|
  {
    if rs != [] {
      SortIsStable(rs[..|rs| - 1], t);
      SortStableStep(rs, t);
    }
  }

  lemma SortStableStep(rs: seq<Record>, t: Timestamp)
    requires rs != []
    requires Stamped(SortNewestFirst(rs[..|rs| - 1]), t) == Stamped(rs[..|rs| - 1], t)
    ensures Stamped(SortNewestFirst(rs), t) == Stamped(rs, t)
  {
    var init, last := rs[..|rs| - 1], rs[|rs| - 1];
    var sortedInit := SortNewestFirst(init);
    var tail := if last.timestamp == t then [last] else [];
    SortStep(rs);
    InsertKeepsStampOrder(last, sortedInit, t);
    assert Stamped(SortNewestFirst(rs), t) == Stamped(init, t) + tail;
    StampedAppend(init, [last], t);
    assert Stamped([last], t) == tail by {
      assert [last][1..] == [];
    }
    assert init + [last] == rs;
  }

  /** Today's detections list same-instant records in the order they were logged. */
  lemma TodaysDetectionsKeepLoggingOrder(history: seq<Record>, today: Date, t: Timestamp)
    ensures Stamped(GetTodaysDetections(history, today), t) == Stamped(OnDate(history, today), t)
  {
    SortIsStable(OnDate(history, today), t);
  }

  /** Today's records, newest first. */
  function GetTodaysDetections(history: seq<Record>, today: Date): (r: seq<Record>)
    ensures NewestFirst(r)
    ensures multiset(r) == multiset(OnDate(history, today))
    ensures forall x :: x in r <==> x in history && DateOf(x.timestamp) == today
  {
    var r := SortNewestFirst(OnDate(history, today));
    SortPermutes(OnDate(history, today));
    assert forall x :: x in r <==> x in multiset(r);
    r
  }

  /** The most detected food, with the first-encountered food winning a tie, or ("None", 0)
      for an empty history. */
  predicate IsMostDetected(foods: seq<string>, food: string, count: nat) {
    if foods == [] then food == "None" && count == 0
    else
      && food in foods
      && count == Tally.Count(foods, food)
      && (forall i :: 0 <= i < |foods| ==> Tally.Count(foods, foods[i]) <= count)
      && (forall i :: 0 <= i < Tally.IndexOf(foods, food) ==> Tally.Count(foods, foods[i]) < count)
  }

  function FoodsOf(history: seq<Record>): (foods: seq<string>)
    ensures |foods| == |history|
    ensures forall i :: 0 <= i < |history| ==> foods[i] == history[i].food
  {
    seq(|history|, i requires 0 <= i < |history| => history[i].food)
  }

  /** Tallies the labels into an insertion-ordered count table, then keeps the first entry
      with the largest count. */
  method MostDetectedFood(foods: seq<string>) returns (food: string, count: nat)
    ensures IsMostDetected(foods, food, count)
  {
    var counts: seq<(string, nat)> := [];
    var i := 0;
    while i < |foods|
      invariant 0 <= i <= |foods|
      invariant IsCountTable(counts, foods[..i])
    {
      TallyStep(counts, foods, i);
      counts := Put<string, nat>(counts, foods[i], CountIn(counts, foods[i]) + 1);
      i := i + 1;
    }
    assert foods[..i] == foods;
    if counts == [] {
      return "None", 0;
    }
    var best := 0;
    var j := 1;
    while j < |counts|
      invariant 1 <= j <= |counts| && best < j
      invariant forall m :: 0 <= m < j ==> counts[m].1 <= counts[best].1
      invariant forall m :: 0 <= m < best ==> counts[m].1 < counts[best].1
    {
      if counts[j].1 > counts[best].1 {
        best := j;
      }
      j := j + 1;
    }
    food, count := counts[best].0, counts[best].1;
    MostDetectedFoodIsMost(foods, counts, best);
  }

  /** `food_counts.get(k, 0)`. */
  function CountIn(counts: seq<(string, nat)>, k: string): nat {
    Get(counts, k).GetOr(0)
  }

  /** `counts` is the source's `food_counts` after scanning `foods`: its keys in order of first
      occurrence, each with its number of occurrences. */
  ghost predicate IsCountTable(counts: seq<(string, nat)>, foods: seq<string>) {
    && Keys(counts) == Tally.FirstSeen(foods)
    && DistinctKeys(counts)
    && forall k :: CountIn(counts, k) == Tally.Count(foods, k)
  }

  /** One iteration of the counting loop keeps the table exact. */
  lemma TallyStep(counts: seq<(string, nat)>, foods: seq<string>, i: nat)
    requires i < |foods| && IsCountTable(counts, foods[..i])
    ensures IsCountTable(Put<string, nat>(counts, foods[i], CountIn(counts, foods[i]) + 1), foods[..i + 1])
  {
    var x := foods[i];
    var n: nat := CountIn(counts, x);
    var next := Put<string, nat>(counts, x, n + 1);
    var seen := foods[..i];
    assert foods[..i + 1] == seen + [x];
    assert Keys(next) == Tally.FirstSeen(seen + [x]) by {
      GetPresent(counts, x);
      KeysPut<string, nat>(counts, x, n + 1);
      Tally.FirstSeenSnoc(seen, x);
    }
    PutKeepsDistinct<string, nat>(counts, x, n + 1);
    forall k
      ensures CountIn(next, k) == Tally.Count(seen + [x], k)
    {
      GetPut<string, nat>(counts, x, n + 1, k);
      Tally.CountAppend(seen, [x], k);
    }
  }

  /** Entry `m` of an exact count table is the `m`-th distinct food, with its count. */
  lemma CountTableEntry(counts: seq<(string, nat)>, foods: seq<string>, m: nat)
    requires IsCountTable(counts, foods) && m < |counts|
    ensures counts[m].0 == Tally.FirstSeen(foods)[m]
    ensures counts[m].1 == Tally.Count(foods, counts[m].0)
  {
    GetAt(counts, m);
    assert Keys(counts)[m] == counts[m].0;
    assert CountIn(counts, counts[m].0) == counts[m].1;
  }

  /** The count table's first maximal entry is the most detected food. */
  lemma MostDetectedFoodIsMost(foods: seq<string>, counts: seq<(string, nat)>, best: nat)
    requires IsCountTable(counts, foods)
    requires best < |counts|
    requires forall m :: 0 <= m < |counts| ==> counts[m].1 <= counts[best].1
    requires forall m :: 0 <= m < best ==> counts[m].1 < counts[best].1
    ensures IsMostDetected(foods, counts[best].0, counts[best].1)
  {
    var ds := Tally.FirstSeen(foods);
    var food := counts[best].0;
    CountTableEntry(counts, foods, best);
    assert food in foods by {
      assert food == ds[best];
    }
    forall i | 0 <= i < |foods|
      ensures Tally.Count(foods, foods[i]) <= counts[best].1
      ensures i < Tally.IndexOf(foods, food) ==> Tally.Count(foods, foods[i]) < counts[best].1
    {
      assert foods[i] in ds;
      var m :| 0 <= m < |ds| && ds[m] == foods[i];
      CountTableEntry(counts, foods, m);
      if i < Tally.IndexOf(foods, food) {
        assert Tally.IndexOf(foods, ds[m]) <= i;
        Tally.FirstSeenIndexOrder(foods, m, best);
      }
    }
  }

  /** The all-time figures the source reports, except the floating-point average. */
  datatype Stats = Stats(
    totalCalories: int, totalDetections: nat, daysTracked: nat,
    mostDetectedFood: string, mostDetectedCount: nat)

  function TotalOf(s: DailySummary): int { s.totalCalories }

  method GetAllTimeStats(s: Store) returns (st: Stats)
    ensures st.totalCalories == SumValues(s.logs, TotalOf)
    ensures st.totalDetections == |s.history|
    ensures st.daysTracked == |s.logs|
    ensures IsMostDetected(FoodsOf(s.history), st.mostDetectedFood, st.mostDetectedCount)
  {
    var food, count := MostDetectedFood(FoodsOf(s.history));
    st := Stats(SumValues(s.logs, TotalOf), |s.history|, |s.logs|, food, count);
  }
}
