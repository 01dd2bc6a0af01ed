/**
 * The detection stabilizer: per-frame bookkeeping that turns the detection
 * model's noisy output into "pending" candidates a user may confirm.
 *
 * The model itself is a black box here; its output for one frame is the
 * input sequence `modelOutput`. Time is the frame's clock reading in integer
 * milliseconds.
 */
module FoodDetector {
  import opened Wrappers
  import Config
  import Decimal

  /** A tracked candidate is reported once it was first seen at least this long ago (ms). */
  const StabilizationDelay := 500

  /** A tracked candidate is dropped once it was first seen at least this long ago (ms). */
  const StalenessWindow := 5000

  /** A box as the model reports it, corners in fractional pixels. */
  datatype Box = Box(x1: real, y1: real, x2: real, y2: real)

  /** One raw detection of the model: class index, confidence and box. */
  datatype RawDetection = RawDetection(classId: nat, confidence: real, box: Box)

  /** A box with its corners truncated to whole pixels. */
  datatype PixelBox = PixelBox(x1: int, y1: int, x2: int, y2: int)

  /** A tracked candidate: what was seen when its key first appeared. */
  datatype Candidate = Candidate(food: string, confidence: real, bbox: PixelBox, firstSeen: int, confirmed: bool)

  /** A snapshot offered to the user for confirmation. */
  datatype PendingDetection = PendingDetection(food: string, confidence: real, bbox: PixelBox)

  /** Tracked candidates by identity key. */
  type Tracked = map<string, Candidate>

  /** The detector: whether a model could be loaded, and the candidates it tracks. */
  datatype Detector = Detector(modelLoaded: bool, tracked: Tracked)

  datatype Observation = Observation(tracked: Tracked, emitted: Option<PendingDetection>)

  datatype FrameResult = FrameResult(tracked: Tracked, pending: seq<PendingDetection>)

  datatype DetectResult = DetectResult(detector: Detector, pending: seq<PendingDetection>)

  /** A freshly constructed detector tracks nothing. */
  function NewDetector(modelLoaded: bool): Detector {
    Detector(modelLoaded, map[])
  }

  /** Python's `int(x)` on a float: truncation toward zero. */
  function Trunc(r: real): (n: int)
    ensures 0.0 <= r ==> n as real <= r < n as real + 1.0
    ensures r < 0.0 ==> n as real - 1.0 < r <= n as real
  {
    if r >= 0.0 then r.Floor else -((-r).Floor)
  }

  function PixelsOf(b: Box): PixelBox {
    PixelBox(Trunc(b.x1), Trunc(b.y1), Trunc(b.x2), Trunc(b.y2))
  }

  /** The identity key `"{food}_{x}_{y}"` of a label and a whole-pixel top-left corner. */
  function DetectionKey(food: string, x: int, y: int): string {
    food + "_" + Decimal.IntToString(x) + "_" + Decimal.IntToString(y)
  }

  /** A class id the configuration can name. */
  predicate Known(d: RawDetection) {
    d.classId < |Config.FoodClasses|
  }

  function FoodOf(d: RawDetection): string
    requires Known(d)
  {
    Config.FoodClasses[d.classId]
  }

  function KeyOf(d: RawDetection): string
    requires Known(d)
  {
    DetectionKey(FoodOf(d), Trunc(d.box.x1), Trunc(d.box.y1))
  }

  /** The pending snapshot of a detection: the current frame's label, confidence and box. */
  function Snapshot(d: RawDetection): PendingDetection
    requires Known(d)
  {
    PendingDetection(FoodOf(d), d.confidence, PixelsOf(d.box))
  }

  /** The candidate a detection starts when its key is first seen at `now`. */
  function NewCandidate(d: RawDetection, now: int): Candidate
    requires Known(d)
  {
    Candidate(FoodOf(d), d.confidence, PixelsOf(d.box), now, false)
  }

  /** The position of the first known detection of `ds` with key `k`, or `|ds|` if none. */
  function FirstIndexOfKey(ds: seq<RawDetection>, k: string): (n: nat)
    ensures n <= |ds|
    ensures n < |ds| ==> Known(ds[n]) && KeyOf(ds[n]) == k
    decreases |ds|
  {
    if ds == [] then 0
    else if Known(ds[0]) && KeyOf(ds[0]) == k then 0
    else 1 + FirstIndexOfKey(ds[1..], k)
  }

  /** Every known detection of `ds` has its key in `m`. */
  predicate Tracks(ds: seq<RawDetection>, m: Tracked)
    decreases |ds|
  {
    ds == [] || ((Known(ds[0]) ==> KeyOf(ds[0]) in m) && Tracks(ds[1..], m))
  }

  /** A detection whose key was untracked before the frame, or tracked but not yet stale. */
  predicate Fresh(before: Tracked, d: RawDetection, now: int)
    requires Known(d)
  {
    KeyOf(d) !in before || now - before[KeyOf(d)].firstSeen < StalenessWindow
  }

  /** Every known, fresh detection of `ds` has its key in `m`. */
  predicate TracksFresh(before: Tracked, ds: seq<RawDetection>, now: int, m: Tracked)
    decreases |ds|
  {
    ds == [] || ((Known(ds[0]) && Fresh(before, ds[0], now) ==> KeyOf(ds[0]) in m)
                 && TracksFresh(before, ds[1..], now, m))
  }

  /** Processes one raw detection of a frame taken at `now`. */
  function Observe(tracked: Tracked, d: RawDetection, now: int): (o: Observation)
    ensures !Known(d) ==> o == Observation(tracked, None)
    ensures Known(d) && KeyOf(d) !in tracked ==>
      && o.emitted == None
      && o.tracked.Keys == tracked.Keys + {KeyOf(d)}
      && o.tracked[KeyOf(d)] == NewCandidate(d, now)
      && forall k :: k in tracked ==> o.tracked[k] == tracked[k]
    ensures Known(d) && KeyOf(d) in tracked ==>
      && o.tracked == tracked
      && (o.emitted.Some? <==>
            now - tracked[KeyOf(d)].firstSeen >= StabilizationDelay && !tracked[KeyOf(d)].confirmed)
      && (o.emitted.Some? ==> o.emitted.value == Snapshot(d))
  {
    if !Known(d) then Observation(tracked, None)
    else
      var key := KeyOf(d);
      if key !in tracked then
        Observation(tracked[key := NewCandidate(d, now)], None)
      else if now - tracked[key].firstSeen >= StabilizationDelay && !tracked[key].confirmed then
        Observation(tracked, Some(Snapshot(d)))
      else
        Observation(tracked, None)
  }

  /** What one observation reports, as a list. */
  function Emitted(o: Observation): seq<PendingDetection> {
    if o.emitted.Some? then [o.emitted.value] else []
  }

  /** Processes a frame's detections in order, collecting the pending snapshots. */
  function ObserveAll(tracked: Tracked, ds: seq<RawDetection>, now: int): (r: FrameResult)
    ensures |r.pending| <= |ds|
    ensures forall k :: k in tracked ==> k in r.tracked && r.tracked[k] == tracked[k]
    ensures Tracks(ds, r.tracked)
    ensures forall k :: k in r.tracked && k !in tracked ==>
      && FirstIndexOfKey(ds, k) < |ds|
      && r.tracked[k] == NewCandidate(ds[FirstIndexOfKey(ds, k)], now)
    decreases |ds|
  {
    if ds == [] then FrameResult(tracked, [])
    else
      var o := Observe(tracked, ds[0], now);
      var rest := ObserveAll(o.tracked, ds[1..], now);
      assert forall k :: k in rest.tracked && k !in tracked ==>
        && FirstIndexOfKey(ds, k) < |ds|
        && rest.tracked[k] == NewCandidate(ds[FirstIndexOfKey(ds, k)], now) by {
        forall k | k in rest.tracked && k !in tracked
          ensures FirstIndexOfKey(ds, k) < |ds| && rest.tracked[k] == NewCandidate(ds[FirstIndexOfKey(ds, k)], now)
        {
          if k !in o.tracked {
            assert FirstIndexOfKey(ds, k) == 1 + FirstIndexOfKey(ds[1..], k);
            assert ds[FirstIndexOfKey(ds, k)] == ds[1..][FirstIndexOfKey(ds[1..], k)];
          }
        }
      }
      FrameResult(rest.tracked, Emitted(o) + rest.pending)
  }

  /** Drops every candidate first seen at least `StalenessWindow` before `now`. */
  function Sweep(tracked: Tracked, now: int): (r: Tracked)
    ensures forall k :: k in r <==> k in tracked && now - tracked[k].firstSeen < StalenessWindow
    ensures forall k :: k in r ==> r[k] == tracked[k]
  {
    map k | k in tracked && now - tracked[k].firstSeen < StalenessWindow :: tracked[k]
  }

  /** One frame: observe the model's detections, then sweep out stale candidates.
      Without a model nothing is observed and nothing is swept. */
  function DetectFood(det: Detector, modelOutput: seq<RawDetection>, now: int): (r: DetectResult)
    ensures !det.modelLoaded ==> r == DetectResult(det, [])
    ensures r.detector.modelLoaded == det.modelLoaded
    ensures |r.pending| <= |modelOutput|
    ensures det.modelLoaded ==>
      forall k :: k in r.detector.tracked ==> now - r.detector.tracked[k].firstSeen < StalenessWindow
    ensures det.modelLoaded ==>
      forall k :: k in det.tracked && now - det.tracked[k].firstSeen < StalenessWindow ==>
        k in r.detector.tracked && r.detector.tracked[k] == det.tracked[k]
    ensures det.modelLoaded ==>
      forall k :: k in r.detector.tracked && k in det.tracked ==> r.detector.tracked[k] == det.tracked[k]
    ensures det.modelLoaded ==> TracksFresh(det.tracked, modelOutput, now, r.detector.tracked)
    ensures det.modelLoaded ==>
      forall k :: k in r.detector.tracked && k !in det.tracked ==>
        && FirstIndexOfKey(modelOutput, k) < |modelOutput|
        && r.detector.tracked[k] == NewCandidate(modelOutput[FirstIndexOfKey(modelOutput, k)], now)
    ensures det.modelLoaded && modelOutput == [] ==>
      && r.pending == []
      && forall k :: k in r.detector.tracked <==> k in det.tracked && now - det.tracked[k].firstSeen < StalenessWindow
  {
    if !det.modelLoaded then DetectResult(det, [])
    else
      var frame := ObserveAll(det.tracked, modelOutput, now);
      SweepTracksFresh(det.tracked, modelOutput, now, frame.tracked);
      DetectResult(Detector(true, Sweep(frame.tracked, now)), frame.pending)
  }

  /** The sweep keeps every fresh key a frame tracked: a key new in the frame was first seen
      just now, and an older one keeps its entry from before the frame. */
  lemma {:induction false} SweepTracksFresh(before: Tracked, ds: seq<RawDetection>, now: int, m: Tracked)
    requires Tracks(ds, m)
    requires forall k :: k in before ==> k in m && m[k] == before[k]
    requires forall k :: k in m && k !in before ==> m[k].firstSeen == now
    ensures TracksFresh(before, ds, now, Sweep(m, now))
    decreases |ds|
  {
    if ds != [] {
      SweepTracksFresh(before, ds[1..], now, m);
    }
  }

  /** `FirstIndexOfKey` finds the first known detection with the key, and only a missing key
      gives `|ds|`. */
  lemma {:induction false} FirstIndexOfKeyIsFirst(ds: seq<RawDetection>, k: string)
    ensures forall j :: 0 <= j < FirstIndexOfKey(ds, k) ==> !(Known(ds[j]) && KeyOf(ds[j]) == k)
    ensures FirstIndexOfKey(ds, k) == |ds| <==> forall j :: 0 <= j < |ds| ==> !(Known(ds[j]) && KeyOf(ds[j]) == k)
    decreases |ds|
  {
    if ds != [] {
      FirstIndexOfKeyIsFirst(ds[1..], k);
      if !(Known(ds[0]) && KeyOf(ds[0]) == k) {
        forall j | 0 < j < |ds|
          ensures ds[j] == ds[1..][j - 1]
        {
        }
      }
    }
  }

  /** `Tracks` is the index-wise statement: every known detection's key is in the map. */
  lemma {:induction false} TracksIndex(ds: seq<RawDetection>, m: Tracked)
    ensures Tracks(ds, m) <==> forall i :: 0 <= i < |ds| && Known(ds[i]) ==> KeyOf(ds[i]) in m
    decreases |ds|
  {
    if ds != [] {
      TracksIndex(ds[1..], m);
      forall i | 0 < i < |ds|
        ensures ds[i] == ds[1..][i - 1]
      {
      }
    }
  }

  /** `TracksFresh` is the index-wise statement: every known, fresh detection's key is in the map. */
  lemma {:induction false} TracksFreshIndex(before: Tracked, ds: seq<RawDetection>, now: int, m: Tracked)
    ensures TracksFresh(before, ds, now, m) <==>
      forall i :: 0 <= i < |ds| && Known(ds[i]) && Fresh(before, ds[i], now) ==> KeyOf(ds[i]) in m
    decreases |ds|
  {
    if ds != [] {
      TracksFreshIndex(before, ds[1..], now, m);
      forall i | 0 < i < |ds|
        ensures ds[i] == ds[1..][i - 1]
      {
      }
    }
  }

  // ---------------------------------------------------------------------------
  // Identity keys

  /** Splitting at the first separator: a prefix free of '_' is recovered from the whole. */
  lemma SplitAtSeparator(a: string, b: string, a': string, b': string)
    requires '_' !in a && '_' !in a'
    requires a + "_" + b == a' + "_" + b'
    ensures a == a' && b == b'
  {
    var w := a + "_" + b;
    if |a| < |a'| {
      SeparatorAt(a, b);
      assert false;
    } else if |a'| < |a| {
      SeparatorAt(a', b');
      assert false;
    }
    assert a == w[..|a|] == a';
    assert b == w[|a| + 1..] == b';
  }

  lemma SeparatorAt(a: string, b: string)
    ensures (a + "_" + b)[|a|] == '_'
  {
  }

  /** The printed form of an integer contains no separator. */
  lemma NoSeparatorInNumber(n: int)
    ensures '_' !in Decimal.IntToString(n)
  {
  }

  /** Keys of separator-free labels are equal exactly when label and corner are. */
  lemma KeyInjective(f1: string, x1: int, y1: int, f2: string, x2: int, y2: int)
    requires '_' !in f1 && '_' !in f2
    ensures DetectionKey(f1, x1, y1) == DetectionKey(f2, x2, y2) <==> f1 == f2 && x1 == x2 && y1 == y2
  {
    var sx1, sy1 := Decimal.IntToString(x1), Decimal.IntToString(y1);
    var sx2, sy2 := Decimal.IntToString(x2), Decimal.IntToString(y2);
    if DetectionKey(f1, x1, y1) == DetectionKey(f2, x2, y2) {
      assert DetectionKey(f1, x1, y1) == f1 + "_" + (sx1 + "_" + sy1);
      assert DetectionKey(f2, x2, y2) == f2 + "_" + (sx2 + "_" + sy2);
      SplitAtSeparator(f1, sx1 + "_" + sy1, f2, sx2 + "_" + sy2);
      NoSeparatorInNumber(x1);
      NoSeparatorInNumber(x2);
      SplitAtSeparator(sx1, sy1, sx2, sy2);
      Decimal.IntToStringInjective(x1, x2);
      Decimal.IntToStringInjective(y1, y2);
    }
  }

  /** No configured class name contains the separator. */
  lemma FoodClassesHaveNoSeparator(d: RawDetection)
    requires Known(d)
    ensures '_' !in FoodOf(d)
  {
  }

  /** Two detections of the same class whose truncated corners differ in x or y have different
      keys; two detections with the same truncated corner share a key however their boxes differ. */
  lemma KeySensitivity(d1: RawDetection, d2: RawDetection)
    requires Known(d1) && Known(d2) && d1.classId == d2.classId
    ensures KeyOf(d1) == KeyOf(d2) <==>
      Trunc(d1.box.x1) == Trunc(d2.box.x1) && Trunc(d1.box.y1) == Trunc(d2.box.y1)
  {
    FoodClassesHaveNoSeparator(d1);
    KeyInjective(FoodOf(d1), Trunc(d1.box.x1), Trunc(d1.box.y1), FoodOf(d2), Trunc(d2.box.x1), Trunc(d2.box.y1));
  }

  /** A new key adds exactly one tracked candidate and reports nothing. */
  lemma ObserveNewKey(tracked: Tracked, d: RawDetection, now: int)
    requires Known(d) && KeyOf(d) !in tracked
    ensures var o := Observe(tracked, d, now);
      && o.emitted == None
      && o.tracked.Keys == tracked.Keys + {KeyOf(d)}
      && |o.tracked| == |tracked| + 1
  {
    var o := Observe(tracked, d, now);
    assert |o.tracked.Keys| == |tracked.Keys| + 1;
  }

  /** A frame is its first observation followed by the rest of the frame. */
  lemma ObserveAllCons(tracked: Tracked, ds: seq<RawDetection>, now: int)
    requires ds != []
    ensures var o := Observe(tracked, ds[0], now);
      var rest := ObserveAll(o.tracked, ds[1..], now);
      ObserveAll(tracked, ds, now) == FrameResult(rest.tracked, Emitted(o) + rest.pending)
  {
  }

  /** A two-detection frame is one observation after the other. */
  lemma ObserveAllPair(tracked: Tracked, d1: RawDetection, d2: RawDetection, now: int)
    ensures var o1 := Observe(tracked, d1, now);
      var o2 := Observe(o1.tracked, d2, now);
      ObserveAll(tracked, [d1, d2], now) == FrameResult(o2.tracked, Emitted(o1) + Emitted(o2))
  {
    var o1 := Observe(tracked, d1, now);
    var o2 := Observe(o1.tracked, d2, now);
    assert ObserveAll(o1.tracked, [d2], now) == FrameResult(o2.tracked, Emitted(o2)) by {
      ObserveAllCons(o1.tracked, [d2], now);
      assert [d2][1..] == [];
      assert Emitted(o2) + [] == Emitted(o2);
    }
    assert ObserveAll(tracked, [d1, d2], now) == FrameResult(o2.tracked, Emitted(o1) + Emitted(o2)) by {
      ObserveAllCons(tracked, [d1, d2], now);
      assert [d1, d2][1..] == [d2];
    }
  }

  /** Two new detections with different keys, observed one after the other as in a frame,
      become two tracked candidates and report nothing. */
  lemma TwoNewKeysObserved(tracked: Tracked, d1: RawDetection, d2: RawDetection, now: int)
    requires Known(d1) && Known(d2) && KeyOf(d1) != KeyOf(d2)
    requires KeyOf(d1) !in tracked && KeyOf(d2) !in tracked
    ensures var o1 := Observe(tracked, d1, now);
      var o2 := Observe(o1.tracked, d2, now);
      && o2.tracked.Keys == tracked.Keys + {KeyOf(d1), KeyOf(d2)}
      && |o2.tracked| == |tracked| + 2
      && Emitted(o1) + Emitted(o2) == []
  {
    var o1 := Observe(tracked, d1, now);
    ObserveNewKey(tracked, d1, now);
    ObserveNewKey(o1.tracked, d2, now);
  }

  /** Two new detections of the same class with different corners, observed one after the
      other as in a frame, become two separately tracked candidates and report nothing. */
  lemma DistinctCornersTrackedSeparately(tracked: Tracked, d1: RawDetection, d2: RawDetection, now: int)
    requires Known(d1) && Known(d2) && d1.classId == d2.classId
    requires Trunc(d1.box.x1) != Trunc(d2.box.x1) || Trunc(d1.box.y1) != Trunc(d2.box.y1)
    requires KeyOf(d1) !in tracked && KeyOf(d2) !in tracked
    ensures KeyOf(d1) != KeyOf(d2)
    ensures var o1 := Observe(tracked, d1, now);
      var o2 := Observe(o1.tracked, d2, now);
      && o2.tracked.Keys == tracked.Keys + {KeyOf(d1), KeyOf(d2)}
      && |o2.tracked| == |tracked| + 2
      && Emitted(o1) + Emitted(o2) == []
  {
    assert KeyOf(d1) != KeyOf(d2) by {
      KeySensitivity(d1, d2);
    }
    TwoNewKeysObserved(tracked, d1, d2, now);
  }

  // ---------------------------------------------------------------------------
  // What a frame reports

  /** A detection that reports its candidate: a known class whose key was already tracked
      before the frame, first seen at least `StabilizationDelay` ago and not confirmed. */
  predicate Stable(tracked: Tracked, d: RawDetection, now: int) {
    && Known(d)
    && KeyOf(d) in tracked
    && now - tracked[KeyOf(d)].firstSeen >= StabilizationDelay
    && !tracked[KeyOf(d)].confirmed
  }

  /** The snapshots of the stable detections of a frame, in detection order. */
  function StableSnapshots(tracked: Tracked, ds: seq<RawDetection>, now: int): seq<PendingDetection> {
    if ds == [] then []
    else (if Stable(tracked, ds[0], now) then [Snapshot(ds[0])] else []) + StableSnapshots(tracked, ds[1..], now)
  }

  /** Generalisation used for the induction: `tracked` extends `before` only by keys first
      seen in this frame. */
  lemma {:induction false} ObserveAllReportsStable(before: Tracked, tracked: Tracked, ds: seq<RawDetection>, now: int)
    requires forall k :: k in before ==> k in tracked && tracked[k] == before[k]
    requires forall k :: k in tracked && k !in before ==> tracked[k].firstSeen == now
    ensures ObserveAll(tracked, ds, now).pending == StableSnapshots(before, ds, now)
    decreases |ds|
  {
    if ds != [] {
      var o := Observe(tracked, ds[0], now);
      ObserveAllReportsStable(before, o.tracked, ds[1..], now);
    }
  }

  /** The pending list of a frame is exactly the snapshots of its detections whose keys were
      tracked before the frame, first seen at least 0.5 s earlier and unconfirmed: a key first
      seen in this frame is never reported in it, however often it recurs. */
  lemma PendingAreStableSnapshots(det: Detector, modelOutput: seq<RawDetection>, now: int)
    requires det.modelLoaded
    ensures DetectFood(det, modelOutput, now).pending == StableSnapshots(det.tracked, modelOutput, now)
  {
    ObserveAllReportsStable(det.tracked, det.tracked, modelOutput, now);
  }

  // ---------------------------------------------------------------------------
  // Across frames

  predicate NoneConfirmed(tracked: Tracked) {
    forall k :: k in tracked ==> !tracked[k].confirmed
  }

  /** The detector never marks a candidate confirmed. */
  lemma FramePreservesUnconfirmed(det: Detector, modelOutput: seq<RawDetection>, now: int)
    requires NoneConfirmed(det.tracked)
    ensures NoneConfirmed(DetectFood(det, modelOutput, now).detector.tracked)
  {
  }

  /** An entry first seen at least 5000 ms ago is gone after the frame, even when the frame
      sees its key again: re-observation never renews `firstSeen`. */
  lemma StaleEntryDroppedWhenSeenAgain(det: Detector, modelOutput: seq<RawDetection>, now: int, k: string)
    requires det.modelLoaded && k in det.tracked
    requires now - det.tracked[k].firstSeen >= StalenessWindow
    ensures k !in DetectFood(det, modelOutput, now).detector.tracked
  {
  }

  /** A stream of frames: each frame's clock reading and the model's output for it. */
  datatype Frame = Frame(now: int, modelOutput: seq<RawDetection>)

  /** Runs the detector over a stream of frames, collecting each frame's pending list. */
  function Run(det: Detector, frames: seq<Frame>): (r: (Detector, seq<seq<PendingDetection>>))
    ensures |r.1| == |frames|
    ensures forall i :: 0 <= i < |frames| ==> |r.1[i]| <= |frames[i].modelOutput|
    decreases |frames|
  {
    if frames == [] then (det, [])
    else
      var step := DetectFood(det, frames[0].modelOutput, frames[0].now);
      var rest := Run(step.detector, frames[1..]);
      (rest.0, [step.pending] + rest.1)
  }

  /** However long a detector runs, starting from a fresh one, no candidate becomes confirmed. */
  lemma {:induction false} RunNeverConfirms(det: Detector, frames: seq<Frame>)
    requires NoneConfirmed(det.tracked)
    ensures NoneConfirmed(Run(det, frames).0.tracked)
    decreases |frames|
  {
    if frames != [] {
      FramePreservesUnconfirmed(det, frames[0].modelOutput, frames[0].now);
      RunNeverConfirms(DetectFood(det, frames[0].modelOutput, frames[0].now).detector, frames[1..]);
    }
  }

  /** A freshly constructed detector, whatever frames it then runs over, never confirms anything. */
  lemma NewDetectorNeverConfirms(modelLoaded: bool, frames: seq<Frame>)
    ensures NoneConfirmed(Run(NewDetector(modelLoaded), frames).0.tracked)
  {
    RunNeverConfirms(NewDetector(modelLoaded), frames);
  }

  /** A detection first seen in one frame and seen again (same key) in a later frame: the
      first frame reports nothing; the second reports the new frame's snapshot exactly when at
      least 0.5 s have passed, even past the 5 s window; the stored candidate keeps the first
      frame's values; and it survives the second frame only if fewer than 5 s have passed since
      it was FIRST seen. */
  lemma ReobservationTiming(det: Detector, d: RawDetection, e: RawDetection, t0: int, t1: int)
    requires det.modelLoaded
    requires Known(d) && Known(e) && KeyOf(d) == KeyOf(e) && KeyOf(d) !in det.tracked
    requires t0 <= t1
    ensures var first := DetectFood(det, [d], t0);
      var second := DetectFood(first.detector, [e], t1);
      && first.pending == []
      && second.pending == (if t1 - t0 >= StabilizationDelay then [Snapshot(e)] else [])
      && (KeyOf(d) in second.detector.tracked <==> t1 - t0 < StalenessWindow)
      && (KeyOf(d) in second.detector.tracked ==>
            second.detector.tracked[KeyOf(d)] == Candidate(FoodOf(d), d.confidence, PixelsOf(d.box), t0, false))
  {
    var first := DetectFood(det, [d], t0);
    assert [d][1..] == [];
    assert [e][1..] == [];
    PendingAreStableSnapshots(det, [d], t0);
    PendingAreStableSnapshots(first.detector, [e], t1);
  }
}
