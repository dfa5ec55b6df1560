/**
 * Queries over pre-computed sound analysis data: beats and bars of the
 * rhythm analysis (RhythmAnalysis) and the sampled loudness envelope
 * (LoudnessAnalysis). All `start` and `duration` values are milliseconds;
 * the query clocks of RhythmAnalysis are seconds.
 */
module Analyses {
  import opened Wrappers

  datatype Beat = Beat(start: real, confidence: real)

  datatype Bar = Bar(start: real, duration: real)

  datatype RhythmData = RhythmData(beats: seq<Beat>, bars: seq<Bar>)

  /** The threshold used once the maximum beat confidence is known to be non-zero. */
  const DefaultConfidenceThreshold: real := 0.5

  /** A query clock in seconds, converted to milliseconds. */
  function ToMs(clock: real): real {
    clock * 1000.0
  }

  /**
   * `confidence < threshold`. A threshold of None stands for JavaScript's
   * `undefined`, with which every `<` comparison is false.
   */
  predicate Below(confidence: real, threshold: Option<real>) {
    threshold.Some? && confidence < threshold.value
  }

  /** A beat that the confidence filter does not skip. */
  predicate Passes(b: Beat, threshold: Option<real>) {
    !Below(b.confidence, threshold)
  }

  /* ---------------- maximum confidence ---------------- */

  /** The running maximum of the initBeats loop, started at 0. */
  function MaxConfidence(beats: seq<Beat>): real
  {
    if beats == [] then 0.0
    else
      var m := MaxConfidence(beats[..|beats| - 1]);
      if beats[|beats| - 1].confidence > m then beats[|beats| - 1].confidence else m
  }

  /** MaxConfidence is the maximum of 0 and all beat confidences. */
  lemma {:induction false} MaxConfidenceIsMaximum(beats: seq<Beat>)
    ensures 0.0 <= MaxConfidence(beats)
    ensures forall i :: 0 <= i < |beats| ==> beats[i].confidence <= MaxConfidence(beats)
    ensures MaxConfidence(beats) == 0.0 ||
            exists i :: 0 <= i < |beats| && beats[i].confidence == MaxConfidence(beats)
  {
    if beats != [] {
      var init := beats[..|beats| - 1];
      MaxConfidenceIsMaximum(init);
      assert forall i :: 0 <= i < |init| ==> init[i] == beats[i];
      if MaxConfidence(beats) != 0.0 && beats[|beats| - 1].confidence <= MaxConfidence(init) {
        var i :| 0 <= i < |init| && init[i].confidence == MaxConfidence(init);
        assert beats[i].confidence == MaxConfidence(beats);
      }
    }
  }

  /* ---------------- latest item at a clock ---------------- */

  /** `r` if the rest of the scan found something, else what was found so far. */
  function Latest(found: Option<Beat>, r: Option<Beat>): Option<Beat> {
    if r.Some? then r else found
  }

  /**
   * The item a findLast-style scan returns: the last item passing the filter
   * that is seen before the first passing item with `start > clock`.
   */
  function LastAtClock(items: seq<Beat>, clock: real, threshold: Option<real>): Option<Beat>
  {
    if items == [] then None
    else if !Passes(items[0], threshold) then LastAtClock(items[1..], clock, threshold)
    else if items[0].start > clock then None
    else Latest(Some(items[0]), LastAtClock(items[1..], clock, threshold))
  }

  /** Whatever LastAtClock returns is an item of the list that passes the filter and is not after the clock. */
  lemma {:induction false} LastAtClockSound(items: seq<Beat>, clock: real, threshold: Option<real>)
    ensures var r := LastAtClock(items, clock, threshold);
            r.Some? ==> r.value in items && Passes(r.value, threshold) && r.value.start <= clock
  {
    if items != [] {
      LastAtClockSound(items[1..], clock, threshold);
    }
  }

  /** The scan stops at the first passing item after the clock: nothing behind it is looked at. */
  lemma {:induction false} LastAtClockStops(items: seq<Beat>, clock: real, threshold: Option<real>, k: nat)
    requires k < |items| && Passes(items[k], threshold) && items[k].start > clock
    ensures LastAtClock(items, clock, threshold) == LastAtClock(items[..k], clock, threshold)
  {
    if k > 0 {
      assert items[..k][1..] == items[1..][..k - 1];
      LastAtClockStops(items[1..], clock, threshold, k - 1);
    }
  }

  predicate SortedByStart(items: seq<Beat>) {
    forall i, j :: 0 <= i < j < |items| ==> items[i].start <= items[j].start
  }

  /** A passing item not after the clock. */
  predicate Eligible(b: Beat, clock: real, threshold: Option<real>) {
    Passes(b, threshold) && b.start <= clock
  }

  /**
   * On a list sorted by start, LastAtClock returns exactly the last eligible
   * item (the latest qualifying beat at or before the clock).
   */
  lemma {:induction false} LastAtClockSortedIsLastEligible(items: seq<Beat>, clock: real, threshold: Option<real>, k: nat)
    requires SortedByStart(items)
    requires k < |items| && Eligible(items[k], clock, threshold)
    requires forall j :: k < j < |items| ==> !Eligible(items[j], clock, threshold)
    ensures LastAtClock(items, clock, threshold) == Some(items[k])
  {
    var rest := items[1..];
    assert SortedByStart(rest);
    if k == 0 {
      NoEligibleNone(rest, clock, threshold);
    } else {
      LastAtClockSortedIsLastEligible(rest, clock, threshold, k - 1);
      if Passes(items[0], threshold) {
        assert items[0].start <= items[k].start;
      }
    }
  }

  /** With no eligible item the scan returns None, sorted or not. */
  lemma {:induction false} NoEligibleNone(items: seq<Beat>, clock: real, threshold: Option<real>)
    requires forall j :: 0 <= j < |items| ==> !Eligible(items[j], clock, threshold)
    ensures LastAtClock(items, clock, threshold) == None
  {
    if items != [] {
      NoEligibleNone(items[1..], clock, threshold);
    }
  }

  /** On a sorted list, an eligible item guarantees a result. */
  lemma {:induction false} SortedEligibleFound(items: seq<Beat>, clock: real, threshold: Option<real>, k: nat)
    requires SortedByStart(items)
    requires k < |items| && Eligible(items[k], clock, threshold)
    ensures LastAtClock(items, clock, threshold).Some?
  {
    if !Passes(items[0], threshold) {
      assert SortedByStart(items[1..]);
      SortedEligibleFound(items[1..], clock, threshold, k - 1);
    } else {
      assert items[0].start <= items[k].start;
    }
  }

  /** On a sorted list, LastAtClock is None exactly when no item is eligible. */
  lemma {:induction false} LastAtClockSortedNone(items: seq<Beat>, clock: real, threshold: Option<real>)
    requires SortedByStart(items)
    ensures LastAtClock(items, clock, threshold) == None <==>
            forall j :: 0 <= j < |items| ==> !Eligible(items[j], clock, threshold)
  {
    if exists k :: 0 <= k < |items| && Eligible(items[k], clock, threshold) {
      var k :| 0 <= k < |items| && Eligible(items[k], clock, threshold);
      SortedEligibleFound(items, clock, threshold, k);
    } else {
      NoEligibleNone(items, clock, threshold);
    }
  }

  /* ---------------- the rhythm analysis object ---------------- */

  /** A passing beat strictly after the clock (what findNextBeat looks for). */
  predicate After(b: Beat, clock: real, threshold: Option<real>) {
    Passes(b, threshold) && b.start > clock
  }

  /** Index k holds the first passing beat after the clock. */
  predicate FirstAfter(beats: seq<Beat>, clock: real, threshold: Option<real>, k: int) {
    0 <= k < |beats| && After(beats[k], clock, threshold) &&
    forall j :: 0 <= j < k ==> !After(beats[j], clock, threshold)
  }

  /** The clock lies in the half-open interval [start, start + duration) of the bar. */
  predicate InBar(b: Bar, clock: real) {
    b.start <= clock < b.start + b.duration
  }

  /** Index k holds the first bar containing the clock. */
  predicate FirstBar(bars: seq<Bar>, clock: real, k: int) {
    0 <= k < |bars| && InBar(bars[k], clock) &&
    forall j :: 0 <= j < k ==> !InBar(bars[j], clock)
  }

  /** Constructing a RhythmAnalysis throws when no data is given. */
  method NewRhythmAnalysis(data: Option<RhythmData>) returns (r: Result<RhythmAnalysis>)
    ensures r.Failure? <==> data.None?
    ensures r.Success? ==> fresh(r.value) && r.value.data == data.value
    ensures r.Success? ==> r.value.maxBeatConfidence == 0.0 && r.value.minBeatConfidence == None
  {
    if data.None? {
      return Failure("Rhythm data must be given");
    }
    var a := new RhythmAnalysis(data.value);
    return Success(a);
  }

  class RhythmAnalysis {
    const data: RhythmData
    /** The maximum beat confidence of the song; 0 until InitBeats runs. */
    var maxBeatConfidence: real
    /** The default confidence threshold; undefined (None) until InitBeats runs. */
    var minBeatConfidence: Option<real>

    constructor (data: RhythmData)
      ensures this.data == data
      ensures maxBeatConfidence == 0.0 && minBeatConfidence == None
    {
      this.data := data;
      maxBeatConfidence := 0.0;
      minBeatConfidence := None;
    }

    /**
     * Scans all beats for the maximum confidence and picks the default
     * threshold: 0 when no beat has a positive confidence, 0.5 otherwise.
     */
    method InitBeats()
      modifies this
      ensures maxBeatConfidence == MaxConfidence(data.beats)
      ensures minBeatConfidence == Some(if maxBeatConfidence == 0.0 then 0.0 else DefaultConfidenceThreshold)
    {
      var beats := data.beats;
      var m := 0.0;
      var i := 0;
      while i < |beats|
        invariant 0 <= i <= |beats|
        invariant m == MaxConfidence(beats[..i])
      {
        assert beats[..i + 1][..i] == beats[..i];
        if beats[i].confidence > m {
          m := beats[i].confidence;
        }
        i := i + 1;
      }
      assert beats[..i] == beats;
      maxBeatConfidence := m;
      if m == 0.0 {
        minBeatConfidence := Some(0.0);
      } else {
        minBeatConfidence := Some(DefaultConfidenceThreshold);
      }
    }

    /**
     * The first beat, in list order, that passes the default threshold and
     * starts after the clock (seconds); None stands for the sentinel 0.
     * The skip rate is accepted and has no effect.
     */
    method FindNextBeat(clock: real, skip: int) returns (beat: Option<Beat>)
      ensures beat.None? <==>
              forall k :: 0 <= k < |data.beats| ==> !After(data.beats[k], ToMs(clock), minBeatConfidence)
      ensures beat.Some? ==>
              exists k :: FirstAfter(data.beats, ToMs(clock), minBeatConfidence, k) && data.beats[k] == beat.value
    {
      var beats := data.beats;
      var ms := ToMs(clock);
      var confidenceThreshold := minBeatConfidence;
      beat := None;
      for i := 0 to |beats|
        invariant beat.None?
        invariant forall j :: 0 <= j < i ==> !After(beats[j], ms, confidenceThreshold)
      {
        var t := beats[i];
        if Below(t.confidence, confidenceThreshold) {
          continue;
        }
        if t.start > ms {
          beat := Some(t);
          assert FirstAfter(beats, ms, confidenceThreshold, i);
          break;
        }
      }
    }

    /**
     * The latest beat at the clock (seconds). Without an override the default
     * threshold filters the beats; with any override the threshold reads an
     * undefined local, so no beat is filtered.
     */
    method FindBeatAtClock(clock: real, thresholdOverride: Option<real>) returns (beat: Option<Beat>)
      ensures beat == LastAtClock(data.beats, ToMs(clock),
                                  if thresholdOverride.Some? then None else minBeatConfidence)
    {
      var beats := data.beats;
      var ms := ToMs(clock);
      // The source tests the argument but reads the not yet assigned local.
      var confidenceThreshold := if thresholdOverride.Some? then None else minBeatConfidence;
      beat := None;
      for i := 0 to |beats|
        invariant LastAtClock(beats, ms, confidenceThreshold) ==
                  Latest(beat, LastAtClock(beats[i..], ms, confidenceThreshold))
      {
        var t := beats[i];
        assert beats[i..][1..] == beats[i + 1..];
        if Below(t.confidence, confidenceThreshold) {
          continue;
        }
        if t.start <= ms {
          beat := Some(t);
        }
        if t.start > ms {
          break;
        }
      }
    }

    /** Generic latest-item search; the clock is used as given, without conversion. */
    method FindLast(items: seq<Beat>, clock: real, skip: int, confidenceThreshold: Option<real>)
      returns (item: Option<Beat>)
      ensures item == LastAtClock(items, clock, confidenceThreshold)
    {
      item := None;
      for i := 0 to |items|
        invariant LastAtClock(items, clock, confidenceThreshold) ==
                  Latest(item, LastAtClock(items[i..], clock, confidenceThreshold))
      {
        var t := items[i];
        assert items[i..][1..] == items[i + 1..];
        if Below(t.confidence, confidenceThreshold) {
          continue;
        }
        if t.start > clock {
          break;
        }
        item := Some(t);
      }
    }

    /** The index of the first bar containing the clock (seconds), or -1. */
    method FindBarAtClock(clock: real) returns (index: int)
      ensures -1 <= index < |data.bars|
      ensures index >= 0 ==> FirstBar(data.bars, ToMs(clock), index)
      ensures index == -1 <==> forall j :: 0 <= j < |data.bars| ==> !InBar(data.bars[j], ToMs(clock))
    {
      var bars := data.bars;
      var ms := ToMs(clock);
      for i := 0 to |bars|
        invariant forall j :: 0 <= j < i ==> !InBar(bars[j], ms)
      {
        var b := bars[i];
        if ms >= b.start && ms < b.start + b.duration {
          return i;
        }
      }
      return -1;
    }

    /**
     * The index after the bar containing the clock, or -1 when no bar
     * contains the clock or that bar is the last one.
     */
    method FindNextBar(clock: real) returns (index: int)
      ensures -1 <= index < |data.bars|
      ensures index >= 0 ==> index >= 1 && FirstBar(data.bars, ToMs(clock), index - 1)
      ensures index == -1 <==>
              (forall j :: 0 <= j < |data.bars| ==> !InBar(data.bars[j], ToMs(clock))) ||
              FirstBar(data.bars, ToMs(clock), |data.bars| - 1)
    {
      var bari := FindBarAtClock(clock);
      if bari < 0 {
        return -1;
      }
      bari := bari + 1;
      if bari >= |data.bars| {
        return -1;
      }
      return bari;
    }
  }

  /* ---------------- loudness ---------------- */

  /** One loudness sample: peak, decay and RMS levels. */
  datatype Sample = Sample(peak: real, decay: real, rms: real)

  /** Loudness samples taken every `interval` units of the query clock. */
  datatype LoudnessAnalysis = LoudnessAnalysis(interval: real, peaks: seq<Sample>)
  {
    /**
     * The level at the clock: 0 before the start and past the end of the
     * samples, otherwise the first element (the peak) of the sample whose
     * interval contains the clock.
     */
    function GetLevel(clock: real): (level: real)
      requires interval > 0.0
      ensures clock < 0.0 ==> level == 0.0
      ensures clock >= |peaks| as real * interval ==> level == 0.0
      ensures forall k :: 0 <= k < |peaks| && Within(k, clock, interval) ==> level == peaks[k].peak
    {
      if clock < 0.0 then 0.0
      else
        var index := (clock / interval).Floor;
        SampleIndex(clock, interval, |peaks|);
        if index >= |peaks| then 0.0
        else peaks[index].peak
    }
  }

  /** The clock lies in sample interval k: [k * interval, (k + 1) * interval). */
  predicate Within(k: int, clock: real, interval: real) {
    k as real * interval <= clock < (k + 1) as real * interval
  }

  /** `floor(clock / interval)` is the one integer whose sample interval holds the clock. */
  lemma WithinIsFloor(clock: real, interval: real, k: int)
    requires interval > 0.0
    ensures Within(k, clock, interval) <==> k == (clock / interval).Floor
  {
    var q := clock / interval;
    QuotientTimesDivisor(clock, interval);
    WithinExactlyAtFloor(clock, interval, q, q.Floor, k);
  }

  lemma QuotientTimesDivisor(a: real, b: real)
    requires b > 0.0
    ensures (a / b) * b == a
  {
  }

  /** With clock == q * interval and i <= q < i + 1, sample interval k holds the clock exactly when k == i. */
  lemma WithinExactlyAtFloor(clock: real, interval: real, q: real, i: int, k: int)
    requires interval > 0.0 && q * interval == clock
    requires i as real <= q < (i + 1) as real
    ensures Within(k, clock, interval) <==> k == i
  {
    if k == i {
      ScaleMonotone(k as real, q, interval, false);
      ScaleMonotone(q, (k + 1) as real, interval, true);
    } else if k < i {
      ScaleMonotone((k + 1) as real, q, interval, false);
    } else {
      ScaleMonotone(q, k as real, interval, true);
    }
  }

  /** The facts GetLevel needs about its sample index. */
  lemma SampleIndex(clock: real, interval: real, n: nat)
    requires interval > 0.0
    ensures forall k :: Within(k, clock, interval) ==> k == (clock / interval).Floor
    ensures (clock / interval).Floor < n ==> clock < n as real * interval
  {
    var index := (clock / interval).Floor;
    forall k | Within(k, clock, interval) ensures k == index {
      WithinIsFloor(clock, interval, k);
    }
    WithinIsFloor(clock, interval, index);
    assert clock < (index + 1) as real * interval;
    if index < n {
      ScaleMonotone((index + 1) as real, n as real, interval, false);
      assert (index + 1) as real * interval <= n as real * interval;
    }
  }

  lemma ScaleMonotone(a: real, b: real, c: real, strict: bool)
    requires c > 0.0 && (if strict then a < b else a <= b)
    ensures if strict then a * c < b * c else a * c <= b * c
  {
  }
}
