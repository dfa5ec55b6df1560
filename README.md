# Krusovice slideshow engine: rhythm queries, scroller key frames and load bookkeeping

This project is a Dafny model of three sequential parts of the Krusovice
slideshow engine, with the properties of each part proved.

- **Rhythm and loudness queries** (`src/analyses.js`, module `Analyses`).
  - `RhythmAnalysis` is a class. It holds the rhythm data, the maximum beat
    confidence and the default confidence threshold, which `InitBeats`
    computes in place.
  - The lookups `FindNextBeat`, `FindBeatAtClock`, `FindLast` and
    `FindBarAtClock` are read-only loops with the source's
    `continue`/`break` structure. Each is proved against either an index
    characterisation or the recursive function `LastAtClock`.
  - `FindNextBar` has no loop of its own. It is arithmetic on the result
    of `FindBarAtClock`.
  - `LoudnessAnalysis.GetLevel` is a function on the loudness samples.
  - JavaScript's `undefined` threshold is `None`. Every `<` comparison with
    it is false, so such a threshold filters nothing.
  - The sentinels `0` (no next beat) and `null` (no beat) are `None`.
- **2D scroller key frames** (`src/backgrounds/scroll2d.js`, module `Scroll2D`).
  - `CalculateKeyFrame` is the bounded random search for a viewport inside
    the source image. It keeps the source's post-decrement retry counter.
  - `CreateAnimation` builds the timeline with a jittered clock.
  - `GetFramePair` finds the two frames around a playback clock.
  - `RenderClamp` is the clamp of `render`, as written.
  - Random draws come from an injected oracle `o(n, lo, hi)`: draw number
    `n`, asked for in the range `[lo, hi]`. Each operation takes the number of
    its first draw and returns the number of the next unused draw.
  - `InRange(o)` states that every draw lies in its range. Properties that
    need it say so.
- **Load bookkeeping** (`src/loader.js`, module `Loading`).
  - `Loader` is a class with a per-name counter map and two totals.
  - `Add` and `Mark` preserve the invariant `nowLoaded + Σ loadElements ==
    totalElementsToLoad` (`Valid()`).

The code behaves as follows where one might expect otherwise, and the model
follows the code:
- `getLevel` returns element `[0]` of the sample triplet, the peak
  (src/analyses.js:267 lists the triplet as peak, decay, RMS), although the
  comment on the return at src/analyses.js:270 says "decay".
- The key frame search throws only when the 99th candidate is the first to
  fit. When all 100 candidates fail, it returns the last candidate unchecked.
- The first frame is searched around a random start position, like every
  other frame. The start position itself is never used as a frame.
- A threshold passed to `findBeatAtClock` disables filtering instead of
  replacing the default.
- The span of `createAnimation` uses the Scroll2D defaults 15 and 10, not the configuration.
- `getFramePair` with a clock before the first frame reads `frames[-1]` and
  fails. It does not return null, so this case is excluded by a precondition.

## Model

| member | source | states |
|---|---|---|
| `Analyses.NewRhythmAnalysis` | src/analyses.js:20-28 | construction fails exactly when no data is given; otherwise it holds the data, max confidence 0 and an undefined threshold |
| `Analyses.RhythmAnalysis.constructor` | src/analyses.js:20-37 | the new object references the data, with maximum confidence 0 and no threshold yet |
| `Analyses.RhythmAnalysis.InitBeats` | src/analyses.js:42-67 | the loop leaves `maxBeatConfidence == MaxConfidence(beats)` and the threshold at 0 when that is 0, else 0.5 |
| `Analyses.MaxConfidenceIsMaximum` | src/analyses.js:45-53 | the running maximum is ≥ 0, ≥ every beat confidence, and is 0 or attained by some beat |
| `Analyses.RhythmAnalysis.FindNextBeat` | src/analyses.js:78-102 | None exactly when no beat passes the default threshold with start > 1000·clock; otherwise the first such beat in list order; `skip` plays no part |
| `Analyses.RhythmAnalysis.FindBeatAtClock` | src/analyses.js:113-143 | the result is `LastAtClock` of the beats at 1000·clock, filtered by the default threshold without an override and not filtered at all with one |
| `Analyses.RhythmAnalysis.FindLast` | src/analyses.js:155-176 | the result is `LastAtClock` of the items at the clock as given (no ×1000), with the given threshold |
| `Analyses.LastAtClockSound` | src/analyses.js:123-141 | a returned item is in the list, passes the filter and starts at or before the clock |
| `Analyses.LastAtClockStops` | src/analyses.js:134-137 | items after the first passing item that starts after the clock never affect the result |
| `Analyses.NoEligibleNone` | src/analyses.js:115-141 | with no passing item at or before the clock the result is None, sorted or not |
| `Analyses.SortedEligibleFound` | src/analyses.js:123-141 | on a start-sorted list, one passing item at or before the clock guarantees a result |
| `Analyses.LastAtClockSortedNone` | src/analyses.js:113-143 | on a start-sorted list the result is None exactly when no passing item starts at or before the clock |
| `Analyses.LastAtClockSortedIsLastEligible` | src/analyses.js:113-143 | on a start-sorted list the result is exactly the last passing item that starts at or before the clock |
| `Analyses.RhythmAnalysis.FindBarAtClock` | src/analyses.js:187-206 | the smallest index whose bar holds 1000·clock in [start, start + duration), or -1 exactly when no bar does |
| `Analyses.RhythmAnalysis.FindNextBar` | src/analyses.js:217-231 | the result is in [-1, bars.length); it is -1 exactly when no bar holds the clock or the holding bar is the last; otherwise it is the holding bar's index + 1 |
| `Analyses.LoudnessAnalysis.GetLevel` | src/analyses.js:252-272 | 0 for a negative clock and for a clock at or past interval·peaks.length; otherwise the peak (element 0) of the sample whose interval holds the clock, with no unit conversion |
| `Scroll2D.Rangernd` | src/backgrounds/scroll2d.js:61-62 | a `rangernd(lo, hi)` draw lies in [lo, hi] when the oracle keeps to its ranges |
| `Scroll2D.Splitrnd` | src/backgrounds/scroll2d.js:91-92 | a `splitrnd(v)` draw lies in [-v, v] when the oracle keeps to its ranges |
| `Scroll2D.GoodXY` | src/backgrounds/scroll2d.js:64-82 | holds exactly when x ≥ 0, y ≥ 0, x + width ≤ image width and y + height ≤ image height |
| `Scroll2D.FirstAccepted` | src/backgrounds/scroll2d.js:86-93 | the first candidate from k on that fits the image, or 101 when none of k..100 fits; its contract places it in [k, 101] (that it is the first fitting one is `FirstAcceptedIsFirst`) |
| `Scroll2D.FirstAcceptedIsFirst` | src/backgrounds/scroll2d.js:86-93 | every candidate from k up to the stopping index fails to fit the image, and the candidate at that index fits whenever it is one of the 100 drawn |
| `Scroll2D.StopsAtLastDrawn` | src/backgrounds/scroll2d.js:86-93 | a search that stops at candidate k (every earlier candidate misses the image; k fits unless it is the 100th) stops where `LastDrawn` says; candidate k fits exactly when `FirstAccepted` finds a fit; k is 99 exactly when the 99th candidate is the first to fit |
| `Scroll2D.CalculateKeyFrame` | src/backgrounds/scroll2d.js:56-102 | the search stops at candidate `drawn`: every earlier candidate misses the image and `drawn` fits unless it is the 100th; it throws ("Could not create key frame") exactly when `drawn` is 99, i.e. when the 99th candidate is the first to fit; otherwise it returns candidate `drawn` at clock t, which is the first fitting candidate or the 100th unchecked; its size lies in the zoom ranges and it lies within maxMove (default 500 for 0) of the anchor; it consumes 2 + 2·drawn draws |
| `Scroll2D.CreateAnimation` | src/backgrounds/scroll2d.js:104-131 | in every outcome it returns, as ghost results, the frames its key frame searches produced (on failure ending with the stopping candidate of the search that threw), where each search started and where it stopped: every one of these frames is the result of its own search around the random start point (first frame) or the previous frame's position (`Searched`); the first clock is 0, every clock but the last is before the duration (`LoopClocks`), and each later clock is the previous one plus the span drawn right after the previous search (`SpanClocks`); the searches' draws follow one another from draw p + 2, each starting one span draw after the last draw of the search before, and the returned draw counter follows the last search (`DrawChain`); it fails exactly when its last search stopped at the 99th candidate (the first to fit), and every earlier search did not (`Retried`); on success it returns the configuration with exactly those frames, the last at or past the duration, each clock 15 ± 10 after the previous, every size in the zoom ranges and each frame within maxMove of its predecessor |
| `Scroll2D.TrailFailure` | src/backgrounds/scroll2d.js:120-123 | when the search after a span draw throws, its stopping candidate, one drawn span after the last frame, extends the searched frames and the draw chain |
| `Scroll2D.SearchedThrows` | src/backgrounds/scroll2d.js:86-100 | in searched frames, search i stopped at the 99th candidate, where calculateKeyFrame throws, exactly when the 99th candidate is the first of its search to fit |
| `Scroll2D.DrawChainExtends` | src/backgrounds/scroll2d.js:120-123 | a search started one draw after the span draw that follows the previous search continues the draw chain |
| `Scroll2D.SpanClocksExtends` | src/backgrounds/scroll2d.js:120-124 | a frame whose clock is the last clock plus the span drawn after the last search keeps every clock one drawn span after its predecessor |
| `Scroll2D.TrailExtends` | src/backgrounds/scroll2d.js:120-126 | one more loop step of createAnimation that finds a frame keeps all of the timeline's facts: the draw chain, no failed search, the span clocks, the growth bounds and each frame's tie to its search |
| `Scroll2D.FromSearchContained` | src/backgrounds/scroll2d.js:56-102 | a frame returned by a key frame search is the last candidate drawn, and it lies inside the image exactly when some candidate of its search fit |
| `Scroll2D.SearchedAt` | src/backgrounds/scroll2d.js:112-126 | in a timeline built by createAnimation, frame i is the result of the search started at its recorded draw around its anchor: the start point for frame 0, the position of frame i − 1 after |
| `Scroll2D.SearchedContained` | src/backgrounds/scroll2d.js:112-126 | in a timeline built by createAnimation, frame i lies inside the image exactly when its own search found a fitting candidate |
| `Scroll2D.SearchedExtends` | src/backgrounds/scroll2d.js:120-125 | appending the frame searched around the last frame's position keeps every frame tied to its search |
| `Scroll2D.SpacedGap` | src/backgrounds/scroll2d.js:120-126 | j − i spans after frame i, the clock has grown by between 5·(j − i) and 25·(j − i) |
| `Scroll2D.SpacedIncreasing` | src/backgrounds/scroll2d.js:120-126 | timeline clocks strictly increase |
| `Scroll2D.TimelineLength` | src/backgrounds/scroll2d.js:116-126 | the timeline has one frame exactly when the duration is not positive, and otherwise between duration/25 + 1 and duration/5 + 2 frames (so the loop ends) |
| `Scroll2D.SafetyStop` | src/backgrounds/scroll2d.js:140-147 | fails exactly when the viewport is wider or taller than the background image |
| `Scroll2D.SafetyStopFits` | src/backgrounds/scroll2d.js:140-147 | the safety stop passes exactly when a viewport of that size fits somewhere inside the image (some x, y satisfy `goodxy`) |
| `Scroll2D.GetFramePair` | src/backgrounds/scroll2d.js:180-194 | None exactly when no frame's clock is after the clock; otherwise index is the first such frame (≥ 1), last/current are frames index−1 and index, last.clock ≤ clock < current.clock and 0 ≤ delta < 1 with delta·(current − last) = clock − last |
| `Scroll2D.RenderClamp` | src/backgrounds/scroll2d.js:221-235 | h becomes the image height when it is at least that and is kept otherwise, and likewise w with the image width; a viewport reaching the bottom edge ends exactly on it, and one that does not keeps its y; one reaching the right edge gets x := image width − x, and one that does not keeps its x |
| `Scroll2D.RenderClampMovesOut` | src/backgrounds/scroll2d.js:233-235 | a viewport inside a 100×100 image that touches its right edge is moved outside the image by the clamp as written |
| `Scroll2D.RenderClampIntended` | src/backgrounds/scroll2d.js:221-235 | with x := image width − w the clamped viewport never crosses the right or bottom edge, lies inside the image when x, y ≥ 0, and leaves a viewport already inside unchanged |
| `Loading.Loader.constructor` | src/loader.js:20-29 | counters video, audio, images, backgroundImages at 0, both totals 0, no error, invariant holds |
| `Loading.SumUpdate` | src/loader.js:64-92 | setting one counter to v changes the sum of counters by v minus its old value (missing counts as 0) |
| `Loading.Loader.Add` | src/loader.js:64-74 | the counter of name (missing as 0) and the total grow by count; nothing else changes; the invariant is preserved |
| `Loading.Loader.GetLeftCount` | src/loader.js:76-78 | returns nowLoaded + Σ counters, i.e. the total ever queued, not what is left |
| `Loading.Loader.Mark` | src/loader.js:80-99 | fails exactly when the counter minus count is negative, then nothing changes; otherwise the counter drops and nowLoaded grows by count; the total and other names are unchanged; the invariant is preserved |
| `Loading.SumNonNegative` | src/loader.js:20-29 | non-negative counters have a non-negative sum |
| `Loading.ProgressInUnit` | src/loader.js:104-106 | with loaded ≥ 0, non-negative counters and loaded + Σ counters = total > 0, loaded/total lies in [0, 1] |
| `Loading.Loader.GetProgress` | src/loader.js:104-106 | nowLoaded/totalElementsToLoad, with value times total equal to nowLoaded; None exactly for a zero total, where None stands for the NaN (0/0) or ±Infinity that JavaScript's division gives; in [0, 1] under the invariant with a positive total and no negative counts |
| `Loading.Loader.SetError` | src/loader.js:113-118 | errorMessage becomes the message; the counters are unchanged |

## Left out

- `RealTimeSpectrumAnalysis` (src/analyses.js:281-388) is not modelled: it is Web Audio analysis, interval polling and canvas drawing.
- `Loader.loadImage` (src/loader.js:129-177) is not modelled: it is DOM image loading with event callbacks.
- The progress callback of `mark` and the `errorCallback` of `setError` are not modelled. They are opaque calls into caller code.
- The `console` logging is not modelled.
- `Scroll2D.prepare`, the image load and the `drawImage` call of `render` are not modelled: they are image I/O and canvas drawing.
- The WebGL render passes in src/renderers/ and the image and label drawing in src/showobjects/framedimage.js are not part of this model.
- The `easeRange("easeInOutSine")` and `shrinkToAspectRatio` calls of `render` are not modelled. They are trigonometric floating point in utilities that are not part of this model. Their results are the inputs of `RenderClamp`.
- `rangernd`/`splitrnd` are not part of this model. Only the range of each draw is assumed, not its distribution.
- Floating point is modelled with unbounded reals. The model has no IEEE rounding (of `clock * 1000`, for one), no NaN and no infinities.
- `loadElements` sits on the prototype and is shared by every `Loader`. The model has one loader. `$.extend(this, cfg)` overriding defaults at construction is not modelled.
- Analyses.RhythmAnalysis.FindLast: the items are beats, which always have a confidence. For items without one, such as bars, JavaScript's comparison is false and nothing is filtered; the model does not cover that case.
- Analyses.NewRhythmAnalysis: only absent data is modelled. Data without a `beats` list makes `initBeats` fail with a TypeError, and that is not modelled.
- Analyses.LoudnessAnalysis.GetLevel: requires a positive sample interval. With interval 0, JavaScript divides to infinity or NaN, and that is not modelled.
- Scroll2D.CalculateKeyFrame: `oldFrame.x || 0` is the anchor coordinate itself. Only an undefined or NaN coordinate would differ, and frames always carry numbers.
- Scroll2D.CreateAnimation: its unused `timeline` and `analysis` parameters are dropped. The searched frames, draw numbers and stopping candidates that tie each frame to its search are ghost results.
- Scroll2D.GetFramePair: requires the clock to be at or after the first frame's clock. Otherwise the source reads `frames[-1]` and throws a TypeError.

## Findings

| source | as written | input that shows it | evidently intended | confidence | as-written member | corrected member |
|---|---|---|---|---|---|---|
| src/backgrounds/scroll2d.js:233-235 | a viewport reaching the right edge gets `x = image.width - x` | a 100×100 image and the viewport x = 10, w = 90, which is inside and touches the right edge; it becomes x = 90, so its right edge is at 180 | `x = image.width - w`, mirroring the vertical clamp | high; not executed | `Scroll2D.RenderClamp`, `Scroll2D.RenderClampMovesOut` | `Scroll2D.RenderClampIntended` |
