/**
 * The 2D scroller background: a timeline of viewport key frames inside a
 * larger source image, generated with random moves and jittered spans, and
 * the lookup of the two key frames around a playback clock.
 *
 * Random draws come from an injected oracle: `o(n, lo, hi)` is the n-th
 * value drawn, asked for in the range [lo, hi]. Every operation takes the
 * number of the first draw it may use and returns the number of the next
 * unused draw, so every property below holds for every draw sequence.
 */
module Scroll2D {
  import opened Wrappers

  /** Scroll2D defaults read through `this` by createAnimation and calculateKeyFrame. */
  const SpanDuration: real := 15.0
  const SpanVariation: real := 10.0
  const DefaultMaxMove: real := 500.0
  /** Candidate budget of one key frame search. */
  const KeyFrameAttempts: int := 100

  datatype Size = Size(width: real, height: real)

  datatype ZoomSizes = ZoomSizes(minW: real, maxW: real, minH: real, maxH: real)

  /** The animation configuration; a `maxMove` of 0 stands for an absent one. */
  datatype Config = Config(orignalSize: Size, zoomSizes: ZoomSizes, maxMove: real)

  datatype Point = Point(x: real, y: real)

  datatype KeyFrame = KeyFrame(clock: real, x: real, y: real, width: real, height: real)

  /** A copy of the configuration with the generated frames added. */
  datatype Animation = Animation(config: Config, frames: seq<KeyFrame>)

  datatype FramePair = FramePair(last: KeyFrame, current: KeyFrame, delta: real, index: nat)

  /** A viewport rectangle in image pixels. */
  datatype Viewport = Viewport(x: real, y: real, width: real, height: real)

  /* ---------------- random draws ---------------- */

  type Oracle = (nat, real, real) -> real

  /** Every draw lies in the range it was asked for. */
  ghost predicate InRange(o: Oracle) {
    forall n: nat, lo: real, hi: real :: lo <= hi ==> lo <= o(n, lo, hi) <= hi
  }

  /** rangernd(lo, hi) as draw number n. */
  function Rangernd(o: Oracle, n: nat, lo: real, hi: real): (r: real)
    ensures InRange(o) && lo <= hi ==> lo <= r <= hi
  {
    o(n, lo, hi)
  }

  /** splitrnd(v), a signed offset of magnitude at most v, as draw number n. */
  function Splitrnd(o: Oracle, n: nat, v: real): (r: real)
    ensures InRange(o) && 0.0 <= v ==> -v <= r <= v
  {
    o(n, -v, v)
  }

  /* ---------------- key frames ---------------- */

  /** The configured maximum move, or the Scroll2D default when it is absent or 0. */
  function MoveRange(cfg: Config): real {
    if cfg.maxMove == 0.0 then DefaultMaxMove else cfg.maxMove
  }

  /** goodxy: a width x height rectangle at (x, y) lies inside the source image. */
  function GoodXY(x: real, y: real, width: real, height: real, size: Size): (ok: bool)
    ensures ok <==> 0.0 <= x && 0.0 <= y && x + width <= size.width && y + height <= size.height
  {
    if x + width > size.width then false
    else if x < 0.0 then false
    else if y + height > size.height then false
    else if y < 0.0 then false
    else true
  }

  predicate Contained(f: KeyFrame, size: Size) {
    GoodXY(f.x, f.y, f.width, f.height, size)
  }

  /** The frame's size lies in the configured zoom ranges (where those ranges are not empty). */
  predicate Sized(f: KeyFrame, z: ZoomSizes) {
    (z.minW <= z.maxW ==> z.minW <= f.width <= z.maxW) &&
    (z.minH <= z.maxH ==> z.minH <= f.height <= z.maxH)
  }

  function Abs(r: real): real {
    if r < 0.0 then -r else r
  }

  /** The frame lies within `move` of the anchor on both axes. */
  predicate Near(anchor: Point, f: KeyFrame, move: real) {
    Abs(f.x - anchor.x) <= move && Abs(f.y - anchor.y) <= move
  }

  /**
   * Candidate k (1-based) of the search started at draw p: the width and
   * height are draws p and p + 1, the offsets of candidate k draws p + 2k
   * and p + 2k + 1.
   */
  function Candidate(t: real, cfg: Config, o: Oracle, p: nat, anchor: Point, k: nat): KeyFrame {
    var z := cfg.zoomSizes;
    var m := MoveRange(cfg);
    KeyFrame(t,
             anchor.x + Splitrnd(o, p + 2 * k, m),
             anchor.y + Splitrnd(o, p + 2 * k + 1, m),
             Rangernd(o, p, z.minW, z.maxW),
             Rangernd(o, p + 1, z.minH, z.maxH))
  }

  /** The first accepted candidate from k on, or KeyFrameAttempts + 1 when none of them is. */
  function FirstAccepted(t: real, cfg: Config, o: Oracle, p: nat, anchor: Point, k: nat): (f: nat)
    requires 1 <= k <= KeyFrameAttempts + 1
    ensures k <= f <= KeyFrameAttempts + 1
    decreases KeyFrameAttempts + 1 - k
  {
    if k == KeyFrameAttempts + 1 then k
    else if Contained(Candidate(t, cfg, o, p, anchor, k), cfg.orignalSize) then k
    else FirstAccepted(t, cfg, o, p, anchor, k + 1)
  }

  /** FirstAccepted rejects every candidate before its result and accepts the one it returns. */
  lemma {:induction false} FirstAcceptedIsFirst(t: real, cfg: Config, o: Oracle, p: nat, anchor: Point, k: nat)
    requires 1 <= k <= KeyFrameAttempts + 1
    ensures var f := FirstAccepted(t, cfg, o, p, anchor, k);
            (forall j :: k <= j < f ==> !Contained(Candidate(t, cfg, o, p, anchor, j), cfg.orignalSize)) &&
            (f <= KeyFrameAttempts ==> Contained(Candidate(t, cfg, o, p, anchor, f), cfg.orignalSize))
    decreases KeyFrameAttempts + 1 - k
  {
    if k <= KeyFrameAttempts && !Contained(Candidate(t, cfg, o, p, anchor, k), cfg.orignalSize) {
      FirstAcceptedIsFirst(t, cfg, o, p, anchor, k + 1);
    }
  }

  /** The last candidate the search draws: the first that fits, or the 100th when none does. */
  function LastDrawn(t: real, cfg: Config, o: Oracle, p: nat, anchor: Point): nat {
    var f := FirstAccepted(t, cfg, o, p, anchor, 1);
    if f <= KeyFrameAttempts then f else KeyFrameAttempts
  }

  /**
   * The search started at draw p around anchor stops at candidate k: every
   * earlier candidate misses the image, and k fits unless it is the last
   * one the budget allows.
   */
  predicate StopsAt(t: real, cfg: Config, o: Oracle, p: nat, anchor: Point, k: nat) {
    1 <= k <= KeyFrameAttempts &&
    (forall j :: 1 <= j < k ==> !Contained(Candidate(t, cfg, o, p, anchor, j), cfg.orignalSize)) &&
    (k < KeyFrameAttempts ==> Contained(Candidate(t, cfg, o, p, anchor, k), cfg.orignalSize))
  }

  /**
   * The stopping candidate is the one LastDrawn names; it fits exactly when
   * FirstAccepted finds a fit, and it is the 99th exactly when the 99th is
   * the first to fit.
   */
  lemma StopsAtLastDrawn(t: real, cfg: Config, o: Oracle, p: nat, anchor: Point, k: nat)
    requires StopsAt(t, cfg, o, p, anchor, k)
    ensures k == LastDrawn(t, cfg, o, p, anchor)
    ensures Contained(Candidate(t, cfg, o, p, anchor, k), cfg.orignalSize) <==>
              FirstAccepted(t, cfg, o, p, anchor, 1) <= KeyFrameAttempts
    ensures k == KeyFrameAttempts - 1 <==> FirstAccepted(t, cfg, o, p, anchor, 1) == KeyFrameAttempts - 1
  {
    FirstAcceptedIs(t, cfg, o, p, anchor, k);
  }

  /**
   * calculateKeyFrame: draws a size, then offsets around the anchor until
   * a candidate fits the image, with the source's post-decrement budget.
   * The search throws exactly when the 99th candidate is the first to fit;
   * when no candidate of 100 fits it returns the 100th unchecked.
   */
  method CalculateKeyFrame(t: real, anchor: Point, cfg: Config, o: Oracle, p: nat)
    returns (res: Result<KeyFrame>, next: nat, ghost drawn: nat)
    ensures res.Failure? ==> StopsAt(t, cfg, o, p, anchor, drawn)
    ensures res.Failure? <==> drawn == KeyFrameAttempts - 1
    ensures res.Failure? ==> res.error == "Could not create key frame"
    ensures res.Success? ==> res.value.clock == t && FromSearch(res.value, cfg, o, p, anchor, drawn)
    ensures next == p + 2 + 2 * drawn
    ensures InRange(o) && res.Success? ==> Sized(res.value, cfg.zoomSizes)
    ensures InRange(o) && res.Success? && 0.0 <= MoveRange(cfg) ==> Near(anchor, res.value, MoveRange(cfg))
  {
    var width := Rangernd(o, p, cfg.zoomSizes.minW, cfg.zoomSizes.maxW);
    var height := Rangernd(o, p + 1, cfg.zoomSizes.minH, cfg.zoomSizes.maxH);
    var move := MoveRange(cfg);
    var attempts := KeyFrameAttempts;
    var x, y := -1.0, -1.0;
    next := p + 2;
    ghost var k := 0;
    // The budget is tested, then decremented, before each fit test.
    while true
      invariant 0 <= k <= KeyFrameAttempts && attempts == KeyFrameAttempts - k
      invariant next == p + 2 + 2 * k
      invariant k == 0 ==> x == -1.0 && y == -1.0
      invariant k > 0 ==> KeyFrame(t, x, y, width, height) == Candidate(t, cfg, o, p, anchor, k)
      invariant forall j :: 1 <= j < k ==> !Contained(Candidate(t, cfg, o, p, anchor, j), cfg.orignalSize)
      decreases attempts
    {
      var before := attempts;
      attempts := attempts - 1;
      if before == 0 || GoodXY(x, y, width, height, cfg.orignalSize) {
        break;
      }
      x := anchor.x + Splitrnd(o, next, move);
      y := anchor.y + Splitrnd(o, next + 1, move);
      next := next + 2;
      k := k + 1;
    }
    drawn := k;
    if attempts == 0 {
      return Failure("Could not create key frame"), next, drawn;
    }
    return Success(KeyFrame(t, x, y, width, height)), next, drawn;
  }

  /** Candidates 1 .. k-1 rejected and candidate k accepted (or k the last) pins down FirstAccepted. */
  lemma {:induction false} FirstAcceptedIs(t: real, cfg: Config, o: Oracle, p: nat, anchor: Point, k: nat)
    requires 1 <= k <= KeyFrameAttempts
    requires forall j :: 1 <= j < k ==> !Contained(Candidate(t, cfg, o, p, anchor, j), cfg.orignalSize)
    ensures var f := FirstAccepted(t, cfg, o, p, anchor, 1);
            if Contained(Candidate(t, cfg, o, p, anchor, k), cfg.orignalSize) then f == k else f > k
  {
    FirstAcceptedIsFirst(t, cfg, o, p, anchor, 1);
  }

  /* ---------------- the animation timeline ---------------- */

  /** f is what the key frame search at clock f.clock, started at draw q around anchor, returns, stopping at candidate d. */
  predicate FromSearch(f: KeyFrame, cfg: Config, o: Oracle, q: nat, anchor: Point, d: nat) {
    StopsAt(f.clock, cfg, o, q, anchor, d) && f == Candidate(f.clock, cfg, o, q, anchor, d)
  }

  /** A searched frame is the last candidate drawn, and it lies inside the image exactly when its search found a fit. */
  lemma FromSearchContained(f: KeyFrame, cfg: Config, o: Oracle, q: nat, anchor: Point, d: nat)
    requires FromSearch(f, cfg, o, q, anchor, d)
    ensures f == Candidate(f.clock, cfg, o, q, anchor, LastDrawn(f.clock, cfg, o, q, anchor))
    ensures Contained(f, cfg.orignalSize) <==> FirstAccepted(f.clock, cfg, o, q, anchor, 1) <= KeyFrameAttempts
  {
    StopsAtLastDrawn(f.clock, cfg, o, q, anchor, d);
  }

  /** The anchor of frame i's search: the start point for the first frame, the previous frame's position after. */
  function AnchorOf(frames: seq<KeyFrame>, i: nat, start: Point): Point
    requires i < |frames|
  {
    if i == 0 then start else Point(frames[i - 1].x, frames[i - 1].y)
  }

  /**
   * Every frame came out of a key frame search started at draw starts[i]
   * around its anchor (stated frame by frame from the last one back).
   */
  predicate Searched(frames: seq<KeyFrame>, cfg: Config, o: Oracle, start: Point, starts: seq<nat>, drawn: seq<nat>)
    decreases |frames|
  {
    var n := |frames|;
    |starts| == n && |drawn| == n &&
    (n == 0 ||
     (Searched(frames[..n - 1], cfg, o, start, starts[..n - 1], drawn[..n - 1]) &&
      FromSearch(frames[n - 1], cfg, o, starts[n - 1], AnchorOf(frames, n - 1, start), drawn[n - 1])))
  }

  /** In a searched timeline, frame i is the result of the search started at starts[i] around its anchor. */
  lemma {:induction false} SearchedAt(frames: seq<KeyFrame>, cfg: Config, o: Oracle, start: Point, starts: seq<nat>,
                                     drawn: seq<nat>, i: nat)
    requires Searched(frames, cfg, o, start, starts, drawn) && i < |frames|
    ensures FromSearch(frames[i], cfg, o, starts[i], AnchorOf(frames, i, start), drawn[i])
    decreases |frames|
  {
    var n := |frames|;
    if i < n - 1 {
      var pre := frames[..n - 1];
      SearchedAt(pre, cfg, o, start, starts[..n - 1], drawn[..n - 1], i);
      assert pre[i] == frames[i] && starts[..n - 1][i] == starts[i] && drawn[..n - 1][i] == drawn[i];
      assert AnchorOf(pre, i, start) == AnchorOf(frames, i, start);
    }
  }

  /**
   * The timeline's containment: in a searched timeline, a frame lies inside
   * the image exactly when its search found a fitting candidate.
   */
  lemma SearchedContained(frames: seq<KeyFrame>, cfg: Config, o: Oracle, start: Point, starts: seq<nat>,
                          drawn: seq<nat>, i: nat)
    requires Searched(frames, cfg, o, start, starts, drawn) && i < |frames|
    ensures Contained(frames[i], cfg.orignalSize) <==>
              FirstAccepted(frames[i].clock, cfg, o, starts[i], AnchorOf(frames, i, start), 1) <= KeyFrameAttempts
  {
    SearchedAt(frames, cfg, o, start, starts, drawn, i);
    FromSearchContained(frames[i], cfg, o, starts[i], AnchorOf(frames, i, start), drawn[i]);
  }

  /**
   * In searched frames, search i stopped at the 99th candidate, the case in
   * which calculateKeyFrame throws, exactly when the 99th candidate is the
   * first of its search to fit the image.
   */
  lemma SearchedThrows(frames: seq<KeyFrame>, cfg: Config, o: Oracle, start: Point, starts: seq<nat>,
                       drawn: seq<nat>, i: nat)
    requires Searched(frames, cfg, o, start, starts, drawn) && i < |frames|
    ensures drawn[i] == KeyFrameAttempts - 1 <==>
              FirstAccepted(frames[i].clock, cfg, o, starts[i], AnchorOf(frames, i, start), 1) == KeyFrameAttempts - 1
  {
    SearchedAt(frames, cfg, o, start, starts, drawn, i);
    StopsAtLastDrawn(frames[i].clock, cfg, o, starts[i], AnchorOf(frames, i, start), drawn[i]);
  }

  /** A timeline of one searched frame is Searched. */
  lemma SearchedSingle(f: KeyFrame, cfg: Config, o: Oracle, start: Point, q: nat, d: nat)
    requires FromSearch(f, cfg, o, q, start, d)
    ensures Searched([f], cfg, o, start, [q], [d])
  {
    assert [f][..0] == [] && [q][..0] == [] && [d][..0] == [];
    assert AnchorOf([f], 0, start) == start;
  }

  /** Appending the frame searched around the last frame keeps Searched. */
  lemma SearchedExtends(frames: seq<KeyFrame>, cfg: Config, o: Oracle, start: Point, starts: seq<nat>, drawn: seq<nat>,
                        last: KeyFrame, f: KeyFrame, q: nat, k: nat)
    requires Searched(frames, cfg, o, start, starts, drawn) && |frames| >= 1 && frames[|frames| - 1] == last
    requires FromSearch(f, cfg, o, q, Point(last.x, last.y), k)
    ensures Searched(frames + [f], cfg, o, start, starts + [q], drawn + [k])
  {
    var d, s, ks := frames + [f], starts + [q], drawn + [k];
    assert d[..|d| - 1] == frames && s[..|s| - 1] == starts && ks[..|ks| - 1] == drawn;
    assert AnchorOf(d, |d| - 1, start) == Point(last.x, last.y);
  }

  /** The first point drawn by createAnimation, around which the first key frame is searched. */
  function StartPoint(cfg: Config, o: Oracle, p: nat): Point {
    Point(Rangernd(o, p, 0.0, cfg.orignalSize.width - cfg.zoomSizes.maxW),
          Rangernd(o, p + 1, 0.0, cfg.orignalSize.height - cfg.zoomSizes.maxH))
  }

  /**
   * The draws of createAnimation's searches follow one another: the first
   * search starts at draw p + 2, after the start point; each later search
   * starts one draw (its span) after the last draw of the search before.
   *
   * Here and in the other predicates over consecutive frames, the pair is
   * bound as i, j with j == i + 1 rather than as i and i + 1: the verifier
   * then triggers on frames[i] and frames[j] without instantiating the
   * quantifier along a chain i, i + 1, i + 2, ..., which keeps the proofs of
   * createAnimation small.
   */
  ghost predicate DrawChain(starts: seq<nat>, drawn: seq<nat>, p: nat) {
    |starts| == |drawn| >= 1 && starts[0] == p + 2 &&
    forall i, j :: 0 <= i < j < |starts| && j == i + 1 ==> starts[j] == starts[i] + 3 + 2 * drawn[i]
  }

  /**
   * Every search but the last one found a key frame: none of them stopped
   * at the 99th candidate (the first to fit), which is where a search throws.
   */
  ghost predicate Retried(drawn: seq<nat>) {
    forall i :: 0 <= i < |drawn| - 1 ==> drawn[i] != KeyFrameAttempts - 1
  }

  /** A search after searches that all found a key frame keeps Retried. */
  lemma RetriedExtends(drawn: seq<nat>, k: nat)
    requires Retried(drawn) && |drawn| >= 1 && drawn[|drawn| - 1] != KeyFrameAttempts - 1
    ensures Retried(drawn + [k])
  {
    var d := drawn + [k];
    assert forall i :: 0 <= i < |drawn| ==> d[i] == drawn[i];
  }

  /** A single search right after the start point starts the chain. */
  lemma DrawChainSingle(p: nat, k: nat)
    ensures DrawChain([p + 2], [k], p) && Retried([k])
  {
  }

  /** The first draw after the last search: where the next span is drawn. */
  function NextDraw(starts: seq<nat>, drawn: seq<nat>): nat
    requires |starts| == |drawn| >= 1
  {
    starts[|starts| - 1] + 2 + 2 * drawn[|drawn| - 1]
  }

  /** Another search right after the span draw keeps the chain. */
  lemma DrawChainExtends(starts: seq<nat>, drawn: seq<nat>, p: nat, k: nat)
    requires DrawChain(starts, drawn, p)
    ensures DrawChain(starts + [NextDraw(starts, drawn) + 1], drawn + [k], p)
  {
    var s, d := starts + [NextDraw(starts, drawn) + 1], drawn + [k];
    forall i, j | 0 <= i < j < |s| && j == i + 1 ensures s[j] == s[i] + 3 + 2 * d[i] {
      if j < |starts| {
        assert s[i] == starts[i] && s[j] == starts[j] && d[i] == drawn[i];
      }
    }
  }

  /** Each clock after the first is the previous one plus the span drawn right after the previous search. */
  ghost predicate SpanClocks(frames: seq<KeyFrame>, o: Oracle, starts: seq<nat>, drawn: seq<nat>) {
    |starts| == |frames| && |drawn| == |frames| &&
    forall i, j :: 0 <= i < j < |frames| && j == i + 1 ==>
      frames[j].clock == frames[i].clock + (SpanDuration + Splitrnd(o, starts[i] + 2 + 2 * drawn[i], SpanVariation))
  }

  /** A single frame has no spans to check. */
  lemma SpanClocksSingle(f: KeyFrame, o: Oracle, q: nat, k: nat)
    ensures SpanClocks([f], o, [q], [k])
  {
  }

  /** Appending a frame one drawn span after the last keeps SpanClocks. */
  lemma SpanClocksExtends(frames: seq<KeyFrame>, o: Oracle, starts: seq<nat>, drawn: seq<nat>, f: KeyFrame, q: nat, k: nat)
    requires SpanClocks(frames, o, starts, drawn) && |frames| >= 1
    requires f.clock == frames[|frames| - 1].clock + (SpanDuration + Splitrnd(o, NextDraw(starts, drawn), SpanVariation))
    ensures SpanClocks(frames + [f], o, starts + [q], drawn + [k])
  {
    var fs, s, d := frames + [f], starts + [q], drawn + [k];
    forall i, j | 0 <= i < j < |fs| && j == i + 1
      ensures fs[j].clock == fs[i].clock + (SpanDuration + Splitrnd(o, s[i] + 2 + 2 * d[i], SpanVariation))
    {
      assert fs[i] == frames[i] && s[i] == starts[i] && d[i] == drawn[i];
    }
  }

  /** Consecutive clocks are one span apart: SpanDuration plus a jitter in [-SpanVariation, SpanVariation]. */
  ghost predicate Spaced(frames: seq<KeyFrame>) {
    forall i, j :: 0 <= i < j < |frames| && j == i + 1 ==>
      frames[i].clock + (SpanDuration - SpanVariation) <= frames[j].clock <= frames[i].clock + (SpanDuration + SpanVariation)
  }

  /**
   * The clocks createAnimation's loop test has seen: the first is 0 and
   * every one but the last is before the duration.
   */
  ghost predicate LoopClocks(frames: seq<KeyFrame>, duration: real) {
    |frames| >= 1 && frames[0].clock == 0.0 &&
    forall i :: 0 <= i < |frames| - 1 ==> frames[i].clock < duration
  }

  /**
   * The timeline starts at clock 0, every clock but the last is before the
   * duration, the last is at or past it, and the clocks are spaced by spans.
   */
  ghost predicate Covers(frames: seq<KeyFrame>, duration: real) {
    LoopClocks(frames, duration) && frames[|frames| - 1].clock >= duration && Spaced(frames)
  }

  /**
   * createAnimation: a first frame at clock 0 around a random start
   * position, then one frame per span until the running clock reaches the
   * duration. Fails when a key frame search fails.
   */
  method CreateAnimation(duration: real, cfg: Config, o: Oracle, p: nat)
    returns (res: Result<Animation>, next: nat, ghost trail: seq<KeyFrame>, ghost starts: seq<nat>, ghost drawn: seq<nat>)
    requires InRange(o)
    ensures res.Success? ==> res.value.config == cfg && res.value.frames == trail && Covers(trail, duration)
    ensures res.Success? ==> Growing(trail, cfg, duration)
    ensures Searched(trail, cfg, o, StartPoint(cfg, o, p), starts, drawn)
    ensures SpanClocks(trail, o, starts, drawn) && LoopClocks(trail, duration)
    ensures |starts| == |drawn| >= 1 && DrawChain(starts, drawn, p) && next == NextDraw(starts, drawn)
    ensures res.Failure? <==> drawn[|drawn| - 1] == KeyFrameAttempts - 1
    ensures Retried(drawn)
    ensures res.Failure? ==> res.error == "Could not create key frame"
    ensures p < next
  {
    // The predicates stay folded here: the Trail lemmas unfold them one
    // step at a time, which keeps this method's proof small.
    hide FromSearch, StopsAt, DrawChain, SpanClocks, Retried, Growing, Covers, LoopClocks, Searched, Trail;
    var startFrame := StartPoint(cfg, o, p);
    var frame;
    ghost var k;
    frame, next, k := CalculateKeyFrame(0.0, startFrame, cfg, o, p + 2);
    starts, drawn := [p + 2], [k];
    if frame.Failure? {
      trail := [Candidate(0.0, cfg, o, p + 2, startFrame, k)];
      TrailStartFailed(cfg, o, p, k, next, duration);
      return Failure(frame.error), next, trail, starts, drawn;
    }
    TrailStart(frame.value, cfg, o, p, k, next, duration);
    var data := [frame.value];
    var oldFrame := frame.value;
    var t := 0.0;
    while t < duration
      invariant p < next
      invariant Trail(data, cfg, o, p, starts, drawn, next, duration)
      invariant |data| >= 1 && data[|data| - 1] == oldFrame && oldFrame.clock == t
      decreases duration - t
    {
      var span := SpanDuration + Splitrnd(o, next, SpanVariation);
      t := t + span;
      var q := next + 1;
      ghost var prev := next;
      frame, next, k := CalculateKeyFrame(t, Point(oldFrame.x, oldFrame.y), cfg, o, q);
      if frame.Failure? {
        trail := data + [Candidate(t, cfg, o, q, Point(oldFrame.x, oldFrame.y), k)];
        TrailFailure(data, cfg, o, p, starts, drawn, prev, duration, t, k, next);
        return Failure(frame.error), next, trail, starts + [q], drawn + [k];
      }
      TrailExtends(data, cfg, o, p, starts, drawn, prev, duration, frame.value, k, next);
      data := data + [frame.value];
      starts, drawn := starts + [q], drawn + [k];
      oldFrame := frame.value;
    }
    TrailDone(data, cfg, o, p, starts, drawn, next, duration);
    return Success(Animation(cfg, data)), next, data, starts, drawn;
  }

  /**
   * What holds after each key frame search of createAnimation that found a
   * frame: the searches' draws follow one another, none of them failed, the
   * clocks are one drawn span apart, the frames grow as Growing says, and
   * each frame is the one its search stopped at.
   */
  ghost predicate Trail(data: seq<KeyFrame>, cfg: Config, o: Oracle, p: nat, starts: seq<nat>, drawn: seq<nat>,
                        next: nat, duration: real) {
    |starts| == |drawn| == |data| >= 1 &&
    DrawChain(starts, drawn, p) && next == NextDraw(starts, drawn) &&
    Retried(drawn) && drawn[|drawn| - 1] != KeyFrameAttempts - 1 &&
    SpanClocks(data, o, starts, drawn) &&
    Growing(data, cfg, duration) &&
    Searched(data, cfg, o, StartPoint(cfg, o, p), starts, drawn)
  }

  /** The first key frame, found at clock 0 around the start point, starts a Trail. */
  lemma TrailStart(f: KeyFrame, cfg: Config, o: Oracle, p: nat, k: nat, next: nat, duration: real)
    requires FromSearch(f, cfg, o, p + 2, StartPoint(cfg, o, p), k) && k != KeyFrameAttempts - 1
    requires f.clock == 0.0 && Sized(f, cfg.zoomSizes) && next == p + 2 + 2 + 2 * k
    ensures Trail([f], cfg, o, p, [p + 2], [k], next, duration)
  {
    SearchedSingle(f, cfg, o, StartPoint(cfg, o, p), p + 2, k);
    DrawChainSingle(p, k);
    SpanClocksSingle(f, o, p + 2, k);
  }

  /** A first search that throws leaves its stopping candidate as the only searched frame. */
  lemma TrailStartFailed(cfg: Config, o: Oracle, p: nat, k: nat, next: nat, duration: real)
    requires StopsAt(0.0, cfg, o, p + 2, StartPoint(cfg, o, p), k) && next == p + 2 + 2 + 2 * k
    ensures var trail := [Candidate(0.0, cfg, o, p + 2, StartPoint(cfg, o, p), k)];
            Searched(trail, cfg, o, StartPoint(cfg, o, p), [p + 2], [k]) &&
            SpanClocks(trail, o, [p + 2], [k]) && LoopClocks(trail, duration)
    ensures DrawChain([p + 2], [k], p) && next == NextDraw([p + 2], [k]) && Retried([k]) && p < next
  {
    var f := Candidate(0.0, cfg, o, p + 2, StartPoint(cfg, o, p), k);
    SearchedSingle(f, cfg, o, StartPoint(cfg, o, p), p + 2, k);
    DrawChainSingle(p, k);
    SpanClocksSingle(f, o, p + 2, k);
  }

  /**
   * A key frame found one drawn span after the last one, by the search that
   * starts right after the span draw, extends the Trail.
   */
  lemma TrailExtends(data: seq<KeyFrame>, cfg: Config, o: Oracle, p: nat, starts: seq<nat>, drawn: seq<nat>,
                     next: nat, duration: real, f: KeyFrame, k: nat, after: nat)
    requires InRange(o) && Trail(data, cfg, o, p, starts, drawn, next, duration)
    requires data[|data| - 1].clock < duration
    requires f.clock == data[|data| - 1].clock + (SpanDuration + Splitrnd(o, next, SpanVariation))
    requires FromSearch(f, cfg, o, next + 1, Point(data[|data| - 1].x, data[|data| - 1].y), k)
    requires k != KeyFrameAttempts - 1 && after == next + 1 + 2 + 2 * k
    requires Sized(f, cfg.zoomSizes)
    requires 0.0 <= MoveRange(cfg) ==> Near(Point(data[|data| - 1].x, data[|data| - 1].y), f, MoveRange(cfg))
    ensures Trail(data + [f], cfg, o, p, starts + [next + 1], drawn + [k], after, duration)
  {
    // The extension lemmas below state each part; the predicates stay folded.
    hide FromSearch, StopsAt, DrawChain, SpanClocks, Retried, Growing, Searched;
    DrawChainExtends(starts, drawn, p, k);
    RetriedExtends(drawn, k);
    SpanClocksExtends(data, o, starts, drawn, f, next + 1, k);
    GrowingExtends(data, f, cfg, duration);
    SearchedExtends(data, cfg, o, StartPoint(cfg, o, p), starts, drawn, data[|data| - 1], f, next + 1, k);
  }

  /**
   * A search that throws right after the span draw continues the draw chain
   * as its last search, and its stopping candidate, one drawn span after
   * the last frame, ends the searched frames.
   */
  lemma TrailFailure(data: seq<KeyFrame>, cfg: Config, o: Oracle, p: nat, starts: seq<nat>, drawn: seq<nat>,
                     next: nat, duration: real, t: real, k: nat, after: nat)
    requires Trail(data, cfg, o, p, starts, drawn, next, duration) && p < next
    requires data[|data| - 1].clock < duration
    requires t == data[|data| - 1].clock + (SpanDuration + Splitrnd(o, next, SpanVariation))
    requires StopsAt(t, cfg, o, next + 1, Point(data[|data| - 1].x, data[|data| - 1].y), k)
    requires after == next + 1 + 2 + 2 * k
    ensures var trail := data + [Candidate(t, cfg, o, next + 1, Point(data[|data| - 1].x, data[|data| - 1].y), k)];
            Searched(trail, cfg, o, StartPoint(cfg, o, p), starts + [next + 1], drawn + [k]) &&
            SpanClocks(trail, o, starts + [next + 1], drawn + [k]) && LoopClocks(trail, duration)
    ensures |starts + [next + 1]| == |drawn + [k]| >= 1
    ensures DrawChain(starts + [next + 1], drawn + [k], p) && after == NextDraw(starts + [next + 1], drawn + [k])
    ensures Retried(drawn + [k]) && p < after
  {
    // The extension lemmas below state each part; the predicates stay folded.
    hide DrawChain, SpanClocks, Retried, Searched;
    var last := data[|data| - 1];
    var c := Candidate(t, cfg, o, next + 1, Point(last.x, last.y), k);
    DrawChainExtends(starts, drawn, p, k);
    RetriedExtends(drawn, k);
    SpanClocksExtends(data, o, starts, drawn, c, next + 1, k);
    SearchedExtends(data, cfg, o, StartPoint(cfg, o, p), starts, drawn, last, c, next + 1, k);
    var trail := data + [c];
    assert forall i :: 0 <= i < |data| ==> trail[i] == data[i];
  }

  /** Once the last clock reaches the duration, the Trail is a covering timeline. */
  lemma TrailDone(data: seq<KeyFrame>, cfg: Config, o: Oracle, p: nat, starts: seq<nat>, drawn: seq<nat>,
                  next: nat, duration: real)
    requires Trail(data, cfg, o, p, starts, drawn, next, duration)
    requires data[|data| - 1].clock >= duration
    ensures Covers(data, duration) && Growing(data, cfg, duration) && LoopClocks(data, duration)
    ensures Searched(data, cfg, o, StartPoint(cfg, o, p), starts, drawn) && SpanClocks(data, o, starts, drawn)
    ensures |starts| == |drawn| >= 1 && DrawChain(starts, drawn, p) && next == NextDraw(starts, drawn)
    ensures Retried(drawn) && drawn[|drawn| - 1] != KeyFrameAttempts - 1
  {
  }

  /** What holds of the frame list while createAnimation runs. */
  ghost predicate Growing(data: seq<KeyFrame>, cfg: Config, duration: real) {
    LoopClocks(data, duration) && Spaced(data) &&
    (forall i :: 0 <= i < |data| ==> Sized(data[i], cfg.zoomSizes)) &&
    (0.0 <= MoveRange(cfg) ==>
       forall i, j :: 0 <= i < j < |data| && j == i + 1 ==> Near(Point(data[i].x, data[i].y), data[j], MoveRange(cfg)))
  }

  /** Appending one span's frame while the clock is before the duration keeps Growing. */
  lemma GrowingExtends(data: seq<KeyFrame>, f: KeyFrame, cfg: Config, duration: real)
    requires Growing(data, cfg, duration)
    requires data[|data| - 1].clock < duration
    requires data[|data| - 1].clock + (SpanDuration - SpanVariation) <= f.clock <=
             data[|data| - 1].clock + (SpanDuration + SpanVariation)
    requires Sized(f, cfg.zoomSizes)
    requires 0.0 <= MoveRange(cfg) ==> Near(Point(data[|data| - 1].x, data[|data| - 1].y), f, MoveRange(cfg))
    ensures Growing(data + [f], cfg, duration)
  {
    LoopClocksExtends(data, f, duration);
    var d := data + [f];
    assert forall i :: 0 <= i < |data| ==> d[i] == data[i];
  }

  /** A frame appended while the last clock is before the duration keeps LoopClocks. */
  lemma LoopClocksExtends(data: seq<KeyFrame>, f: KeyFrame, duration: real)
    requires LoopClocks(data, duration) && data[|data| - 1].clock < duration
    ensures LoopClocks(data + [f], duration)
  {
    var d := data + [f];
    assert forall i :: 0 <= i < |data| ==> d[i] == data[i];
  }

  /** Spacing bounds the gap between any two frames by the number of spans between them. */
  lemma {:induction false} SpacedGap(frames: seq<KeyFrame>, i: nat, j: nat)
    requires Spaced(frames) && i <= j < |frames|
    ensures frames[i].clock + (SpanDuration - SpanVariation) * (j - i) as real <= frames[j].clock
    ensures frames[j].clock <= frames[i].clock + (SpanDuration + SpanVariation) * (j - i) as real
  {
    if i < j {
      SpacedGap(frames, i, j - 1);
    }
  }

  /** The frame clocks of a spaced timeline strictly increase. */
  lemma SpacedIncreasing(frames: seq<KeyFrame>)
    requires Spaced(frames)
    ensures forall i, j :: 0 <= i < j < |frames| ==> frames[i].clock < frames[j].clock
  {
    forall i, j | 0 <= i < j < |frames| ensures frames[i].clock < frames[j].clock {
      SpacedGap(frames, i, j);
    }
  }

  /**
   * A covering timeline has one frame exactly when the duration is not
   * positive, and otherwise between duration / 25 + 1 and duration / 5 + 2 frames.
   */
  lemma TimelineLength(frames: seq<KeyFrame>, duration: real)
    requires Covers(frames, duration)
    ensures |frames| == 1 <==> duration <= 0.0
    ensures |frames| >= 2 ==>
              (SpanDuration - SpanVariation) * (|frames| - 2) as real < duration <=
              (SpanDuration + SpanVariation) * (|frames| - 1) as real
  {
    var n := |frames|;
    if n >= 2 {
      SpacedGap(frames, 0, n - 2);
      SpacedGap(frames, 0, n - 1);
    }
  }

  /* ---------------- playback ---------------- */

  /** safetyStop: fails exactly when the viewport is larger than the background image. */
  function SafetyStop(width: real, height: real, cfg: Config): (r: Outcome)
    ensures r.Fail? <==> width > cfg.orignalSize.width || height > cfg.orignalSize.height
  {
    if width > cfg.orignalSize.width || height > cfg.orignalSize.height then
      Fail("Viewport is bigger than background image")
    else Pass
  }

  /** The safety stop passes exactly when a viewport of that size fits somewhere in the image. */
  lemma SafetyStopFits(width: real, height: real, cfg: Config)
    ensures SafetyStop(width, height, cfg).Pass? <==>
              exists x: real, y: real :: GoodXY(x, y, width, height, cfg.orignalSize)
  {
    if SafetyStop(width, height, cfg).Pass? {
      assert GoodXY(0.0, 0.0, width, height, cfg.orignalSize);
    }
  }

  /** The pair found for a clock: frames i - 1 and i around it, with the fraction of the way between them. */
  predicate Brackets(frames: seq<KeyFrame>, clock: real, pair: FramePair) {
    var i := pair.index;
    1 <= i < |frames| &&
    (forall j :: 0 <= j < i ==> frames[j].clock <= clock) &&
    pair.last == frames[i - 1] && pair.current == frames[i] &&
    pair.last.clock <= clock < pair.current.clock &&
    0.0 <= pair.delta < 1.0 &&
    pair.delta * (pair.current.clock - pair.last.clock) == clock - pair.last.clock
  }

  /**
   * getFramePair: the first frame whose clock is after the playback clock,
   * with its predecessor; None when no frame is after the clock. A clock
   * before the first frame makes the source read frames[-1], so it is
   * excluded.
   */
  method GetFramePair(clock: real, frames: seq<KeyFrame>) returns (pair: Option<FramePair>)
    requires |frames| == 0 || frames[0].clock <= clock
    ensures pair.None? <==> forall j :: 0 <= j < |frames| ==> frames[j].clock <= clock
    ensures pair.Some? ==> Brackets(frames, clock, pair.value)
  {
    for i := 0 to |frames|
      invariant forall j :: 0 <= j < i ==> frames[j].clock <= clock
    {
      if frames[i].clock > clock {
        var lastFrame := frames[i - 1];
        var currentFrame := frames[i];
        var delta := (clock - lastFrame.clock) / (currentFrame.clock - lastFrame.clock);
        FractionInUnit(clock - lastFrame.clock, currentFrame.clock - lastFrame.clock);
        return Some(FramePair(lastFrame, currentFrame, delta, i));
      }
    }
    return None;
  }

  lemma FractionInUnit(a: real, b: real)
    requires 0.0 <= a < b
    ensures 0.0 <= a / b < 1.0 && (a / b) * b == a
  {
  }

  /* ---------------- the render clamp ---------------- */

  predicate Inside(v: Viewport, image: Size) {
    0.0 <= v.x && 0.0 <= v.y && v.x + v.width <= image.width && v.y + v.height <= image.height
  }

  /**
   * The clamp of render, as written, applied to the eased viewport: the
   * height and width are cut to the image, the viewport is pushed up so its
   * bottom edge is on the image, and a viewport reaching the right edge gets
   * x := image.width - x.
   */
  method RenderClamp(v: Viewport, image: Size) returns (r: Viewport)
    ensures r.height <= image.height && (v.height < image.height ==> r.height == v.height)
    ensures v.height >= image.height ==> r.height == image.height
    ensures r.width <= image.width && (v.width < image.width ==> r.width == v.width)
    ensures v.width >= image.width ==> r.width == image.width
    ensures v.y + r.height >= image.height ==> r.y + r.height == image.height
    ensures v.y + r.height < image.height ==> r.y == v.y
    ensures v.x + r.width >= image.width ==> r.x == image.width - v.x
    ensures v.x + r.width < image.width ==> r.x == v.x
  {
    var x, y, w, h := v.x, v.y, v.width, v.height;
    if h >= image.height {
      h := image.height;
    }
    if y + h >= image.height {
      y := image.height - h;
    }
    if w >= image.width {
      w := image.width;
    }
    if x + w >= image.width {
      x := image.width - x;
    }
    return Viewport(x, y, w, h);
  }

  /**
   * A viewport inside a 100 x 100 image that touches its right edge is
   * moved out of the image by RenderClamp.
   */
  method RenderClampMovesOut() returns (before: Viewport, after: Viewport)
    ensures Inside(before, Size(100.0, 100.0)) && !Inside(after, Size(100.0, 100.0))
  {
    before := Viewport(10.0, 0.0, 90.0, 50.0);
    after := RenderClamp(before, Size(100.0, 100.0));
    assert after.x == 90.0 && after.width == 90.0;
  }

  /**
   * The clamp with the horizontal branch mirroring the vertical one
   * (x := image.width - w): the result lies inside the image whenever the
   * eased position is not negative, and a viewport already inside is kept.
   */
  method RenderClampIntended(v: Viewport, image: Size) returns (r: Viewport)
    ensures r.x + r.width <= image.width && r.y + r.height <= image.height
    ensures 0.0 <= v.x && 0.0 <= v.y ==> Inside(r, image)
    ensures Inside(v, image) ==> r == v
  {
    var x, y, w, h := v.x, v.y, v.width, v.height;
    if h >= image.height {
      h := image.height;
    }
    if y + h >= image.height {
      y := image.height - h;
    }
    if w >= image.width {
      w := image.width;
    }
    if x + w >= image.width {
      x := image.width - w;
    }
    return Viewport(x, y, w, h);
  }
}
