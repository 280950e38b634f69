/**
  The detection worker (workers/detectionWorker.js): block-matching
  tracking of a box between two frames (`trackObjectInFrames`), the frame
  preparation (`prepareFrameForDetection`) and the message dispatch.

  Numbers read from a typed array past its end are `undefined`, which turns
  every sum it enters into NaN; `Number` keeps that distinction. Frames are
  RGBA buffers of `Byte`s; boxes have integer coordinates.
*/
module DetectionWorker {

  import opened Pixels
  import opened Image

  // ---------------------------------------------------------------------
  // Numbers
  // ---------------------------------------------------------------------

  /** A number the worker computes: NaN or a finite value. */
  datatype Number = NaN | Real(v: real)

  /** `frame[i]`: the byte, or NaN once it enters arithmetic when `i` is outside the buffer. */
  function Read(frame: seq<Byte>, i: int): (r: Number)
    ensures r.Real? <==> 0 <= i < |frame|
    ensures r.Real? ==> r.v == frame[i] as real
  {
    if 0 <= i < |frame| then Real(frame[i] as real) else NaN
  }

  /** `a + b`. */
  function Add(a: Number, b: Number): Number {
    if a.Real? && b.Real? then Real(a.v + b.v) else NaN
  }

  /** `255 - Math.abs(a - b)`. */
  function Diff(a: Number, b: Number): Number {
    if a.Real? && b.Real? then Real(255.0 - (if a.v >= b.v then a.v - b.v else b.v - a.v)) else NaN
  }

  /** `a / n` for a count `n`; a zero count only ever divides a zero sum, and `0 / 0` is NaN. */
  function Div(a: Number, n: int): Number {
    if a.NaN? || n == 0 then NaN else Real(a.v / n as real)
  }

  /** NaN, or a value in `[0, hi]`. */
  predicate Within(a: Number, hi: real) {
    a.NaN? || 0.0 <= a.v <= hi
  }

  // ---------------------------------------------------------------------
  // trackObjectInFrames: the similarity of one candidate position
  // ---------------------------------------------------------------------

  /** A box `[x, y, width, height]`. */
  datatype Box = Box(x: int, y: int, w: int, h: int)

  /** The unchanging inputs of one tracking call. */
  datatype Probe = Probe(prev: seq<Byte>, cur: seq<Byte>, box: Box, width: int)

  /** Iterations of `for (s = 0; s < n; s += 2)`. */
  function Half(n: int): (k: nat)
    ensures forall i: nat :: i < k <==> 2 * i < n
  {
    if n <= 0 then 0 else (n + 1) / 2
  }

  /** `origIdx`: byte offset of sample (`sx`, `sy`) of the box in the previous frame. */
  function OrigIdx(p: Probe, sy: int, sx: int): int {
    ((p.box.y + sy) * p.width + (p.box.x + sx)) * 4
  }

  /** `checkIdx`: byte offset of the same sample of candidate (`tx`, `ty`) in the current frame. */
  function CheckIdx(p: Probe, tx: int, ty: int, sy: int, sx: int): int {
    ((ty + sy) * p.width + (tx + sx)) * 4
  }

  /** `acc` plus the first `k` channel terms of one sample. */
  function SampleAcc(p: Probe, origIdx: int, checkIdx: int, k: nat, acc: Number): Number
    requires k <= 3
  {
    if k == 0 then acc
    else Add(SampleAcc(p, origIdx, checkIdx, k - 1, acc), Diff(Read(p.prev, origIdx + k - 1), Read(p.cur, checkIdx + k - 1)))
  }

  /** `acc` plus the samples `sx = 0, 2, ..., 2(n - 1)` of sample row `sy`. */
  function RowAcc(p: Probe, tx: int, ty: int, sy: int, n: nat, acc: Number): Number {
    if n == 0 then acc
    else
      var sx := 2 * (n - 1);
      SampleAcc(p, OrigIdx(p, sy, sx), CheckIdx(p, tx, ty, sy, sx), 3, RowAcc(p, tx, ty, sy, n - 1, acc))
  }

  /** The similarity sum over the first `n` sample rows of candidate (`tx`, `ty`). */
  function GridSum(p: Probe, tx: int, ty: int, n: nat): Number {
    if n == 0 then Real(0.0)
    else RowAcc(p, tx, ty, 2 * (n - 1), Half(p.box.w), GridSum(p, tx, ty, n - 1))
  }

  /** `count`: three terms per sample. */
  function SampleCount(box: Box): nat {
    3 * (Half(box.h) * Half(box.w))
  }

  /** The average similarity of candidate (`tx`, `ty`). */
  function Score(p: Probe, tx: int, ty: int): Number {
    Div(GridSum(p, tx, ty, Half(p.box.h)), SampleCount(p.box))
  }

  lemma {:induction false} SampleAccBound(p: Probe, origIdx: int, checkIdx: int, k: nat, acc: Number, bound: real)
    requires k <= 3 && Within(acc, bound)
    ensures Within(SampleAcc(p, origIdx, checkIdx, k, acc), bound + 255.0 * k as real)
  {
    if k > 0 {
      SampleAccBound(p, origIdx, checkIdx, k - 1, acc, bound);
    }
  }

  lemma {:induction false} RowAccBound(p: Probe, tx: int, ty: int, sy: int, n: nat, acc: Number, bound: real)
    requires Within(acc, bound)
    ensures Within(RowAcc(p, tx, ty, sy, n, acc), bound + 765.0 * n as real)
  {
    if n > 0 {
      var sx := 2 * (n - 1);
      RowAccBound(p, tx, ty, sy, n - 1, acc, bound);
      SampleAccBound(p, OrigIdx(p, sy, sx), CheckIdx(p, tx, ty, sy, sx), 3, RowAcc(p, tx, ty, sy, n - 1, acc),
                     bound + 765.0 * (n - 1) as real);
    }
  }

  lemma {:induction false} GridSumBound(p: Probe, tx: int, ty: int, n: nat)
    ensures Within(GridSum(p, tx, ty, n), 765.0 * (n * Half(p.box.w)) as real)
  {
    if n > 0 {
      var nw := Half(p.box.w);
      GridSumBound(p, tx, ty, n - 1);
      RowAccBound(p, tx, ty, 2 * (n - 1), nw, GridSum(p, tx, ty, n - 1), 765.0 * ((n - 1) * nw) as real);
      assert (n - 1) * nw + nw == n * nw;
    }
  }

  /** Each term lies in [0, 255], so their average does too (or is NaN). */
  lemma {:induction false} ScoreBound(p: Probe, tx: int, ty: int)
    ensures Within(Score(p, tx, ty), 255.0)
  {
    var k := Half(p.box.h) * Half(p.box.w);
    GridSumBound(p, tx, ty, Half(p.box.h));
    var s := GridSum(p, tx, ty, Half(p.box.h));
    if s.Real? && k > 0 {
      AverageAtMost(s.v, (3 * k) as real);
    }
  }

  lemma {:induction false} AverageAtMost(v: real, count: real)
    requires count > 0.0 && 0.0 <= v <= 255.0 * count
    ensures 0.0 <= v / count <= 255.0
  {
    var q := v / count;
    assert q * count == v;
  }

  // ---------------------------------------------------------------------
  // trackObjectInFrames: the search
  // ---------------------------------------------------------------------

  /** The search window `(searchX, searchY, searchW, searchH)`. */
  datatype Window = Window(x: int, y: int, w: int, h: int)

  /** `Math.max(10, Math.floor(Math.max(w, h) * 0.2))`. */
  function Margin(w: int, h: int): int {
    var side := if w >= h then w else h;
    var f := (side as real * 0.2).Floor;
    if 10 >= f then 10 else f
  }

  function Max(a: int, b: int): int { if a >= b then a else b }

  function Min(a: int, b: int): int { if a <= b then a else b }

  /** The box grown by the margin on every side, clipped at 0 and at the frame's width and height. */
  function SearchWindow(box: Box, width: int, height: int): (win: Window)
    ensures win.x == Max(0, box.x - Margin(box.w, box.h)) && win.y == Max(0, box.y - Margin(box.w, box.h))
    ensures win.x + win.w <= width && win.y + win.h <= height
    ensures win.w <= box.w + 2 * Margin(box.w, box.h) && win.h <= box.h + 2 * Margin(box.w, box.h)
  {
    var margin := Margin(box.w, box.h);
    var searchX := Max(0, box.x - margin);
    var searchY := Max(0, box.y - margin);
    Window(searchX, searchY, Min(width - searchX, box.w + 2 * margin), Min(height - searchY, box.h + 2 * margin))
  }

  /** Candidate columns `tx = win.x .. win.x + win.w - w`. */
  function Cols(win: Window, box: Box): nat {
    if win.w - box.w + 1 > 0 then win.w - box.w + 1 else 0
  }

  /** Candidate rows `ty = win.y .. win.y + win.h - h`. */
  function Rows(win: Window, box: Box): nat {
    if win.h - box.h + 1 > 0 then win.h - box.h + 1 else 0
  }

  /** (`tx`, `ty`) is one of the positions the search visits. */
  predicate Candidate(win: Window, box: Box, tx: int, ty: int) {
    win.x <= tx < win.x + Cols(win, box) && win.y <= ty < win.y + Rows(win, box)
  }

  /** `bestMatch`. */
  datatype Match = Match(x: int, y: int, similarity: real)

  /** The comparison of one candidate: it replaces the best only on a strictly greater similarity (never on NaN). */
  function Step(m: Match, tx: int, ty: int, s: Number): Match {
    if s.Real? && s.v > m.similarity then Match(tx, ty, s.v) else m
  }

  /** `m` after the first `n` candidates of row `ty`. */
  function RowScan(p: Probe, win: Window, ty: int, n: nat, m: Match): Match {
    if n == 0 then m
    else
      var tx := win.x + n - 1;
      Step(RowScan(p, win, ty, n - 1, m), tx, ty, Score(p, tx, ty))
  }

  /** The best match after the first `n` rows of candidates, starting from the box itself with similarity 0. */
  function Scan(p: Probe, win: Window, n: nat): Match {
    if n == 0 then Match(p.box.x, p.box.y, 0.0)
    else RowScan(p, win, win.y + n - 1, Cols(win, p.box), Scan(p, win, n - 1))
  }

  datatype TrackResult = TrackResult(bbox: Box, confidence: real)

  /** The result of `trackObjectInFrames`. */
  function Track(prev: seq<Byte>, cur: seq<Byte>, box: Box, width: int, height: int): TrackResult {
    var win := SearchWindow(box, width, height);
    var best := Scan(Probe(prev, cur, box, width), win, Rows(win, box));
    TrackResult(Box(best.x, best.y, box.w, box.h), best.similarity / 255.0)
  }

  // ---------------------------------------------------------------------
  // The search finds the first maximum
  // ---------------------------------------------------------------------

  /** (`tx`, `ty`) comes before (`bestX`, `bestY`) in the search's row-major order. */
  predicate Before(tx: int, ty: int, bestX: int, bestY: int) {
    ty < bestY || (ty == bestY && tx < bestX)
  }

  /** The candidates of the first `r` rows and the first `c` of row `r`. */
  predicate Scanned(win: Window, box: Box, r: nat, c: nat, tx: int, ty: int) {
    && win.x <= tx < win.x + Cols(win, box) && win.y <= ty
    && (ty < win.y + r || (ty == win.y + r && tx < win.x + c))
  }

  predicate NotAbove(s: Number, b: real) { s.NaN? || s.v <= b }

  predicate Below(s: Number, b: real) { s.NaN? || s.v < b }

  /**
    What the best match is once the candidates `Scanned(r, c)` are done: a
    similarity in [0, 255]; either the box itself with 0, or a scanned
    candidate with a positive similarity equal to its score; no scanned
    candidate scores higher; every one before it scores lower.
  */
  ghost predicate Good(p: Probe, win: Window, m: Match, r: nat, c: nat) {
    && 0.0 <= m.similarity <= 255.0
    && ((m.x == p.box.x && m.y == p.box.y && m.similarity == 0.0)
        || (Scanned(win, p.box, r, c, m.x, m.y) && Score(p, m.x, m.y) == Real(m.similarity) && m.similarity > 0.0))
    && (forall tx, ty :: Scanned(win, p.box, r, c, tx, ty) ==> NotAbove(Score(p, tx, ty), m.similarity))
    && (m.similarity > 0.0 ==>
          forall tx, ty :: Scanned(win, p.box, r, c, tx, ty) && Before(tx, ty, m.x, m.y) ==> Below(Score(p, tx, ty), m.similarity))
  }

  lemma {:induction false} StepGood(p: Probe, win: Window, m: Match, r: nat, c: nat)
    requires Good(p, win, m, r, c) && c < Cols(win, p.box)
    ensures var tx, ty := win.x + c, win.y + r;
      Good(p, win, Step(m, tx, ty, Score(p, tx, ty)), r, c + 1)
  {
    var tx, ty := win.x + c, win.y + r;
    var s := Score(p, tx, ty);
    ScoreBound(p, tx, ty);
    var m' := Step(m, tx, ty, s);
    forall x, y | Scanned(win, p.box, r, c + 1, x, y)
      ensures NotAbove(Score(p, x, y), m'.similarity)
    {
      if !(x == tx && y == ty) {
        assert Scanned(win, p.box, r, c, x, y);
      }
    }
    if m'.similarity > 0.0 {
      forall x, y | Scanned(win, p.box, r, c + 1, x, y) && Before(x, y, m'.x, m'.y)
        ensures Below(Score(p, x, y), m'.similarity)
      {
        if !(x == tx && y == ty) {
          assert Scanned(win, p.box, r, c, x, y);
        }
      }
    }
  }

  lemma {:induction false} RowDone(p: Probe, win: Window, m: Match, r: nat)
    requires Good(p, win, m, r, Cols(win, p.box))
    ensures Good(p, win, m, r + 1, 0)
  {
    var cols := Cols(win, p.box);
    assert forall x, y :: Scanned(win, p.box, r + 1, 0, x, y) == Scanned(win, p.box, r, cols, x, y);
  }

  lemma {:induction false} RowScanStep(p: Probe, win: Window, ty: int, k: nat, m: Match)
    ensures RowScan(p, win, ty, k + 1, m) == Step(RowScan(p, win, ty, k, m), win.x + k, ty, Score(p, win.x + k, ty))
  {
  }

  lemma {:induction false} RowScanGood(p: Probe, win: Window, r: nat, n: nat, m: Match)
    requires Good(p, win, m, r, 0) && n <= Cols(win, p.box)
    ensures Good(p, win, RowScan(p, win, win.y + r, n, m), r, n)
  {
    if n > 0 {
      var k := n - 1;
      RowScanGood(p, win, r, k, m);
      StepGood(p, win, RowScan(p, win, win.y + r, k, m), r, k);
      RowScanStep(p, win, win.y + r, k, m);
    }
  }

  lemma {:induction false} ScanGood(p: Probe, win: Window, n: nat)
    ensures Good(p, win, Scan(p, win, n), n, 0)
  {
    if n > 0 {
      var cols := Cols(win, p.box);
      ScanGood(p, win, n - 1);
      RowScanGood(p, win, n - 1, cols, Scan(p, win, n - 1));
      RowDone(p, win, RowScan(p, win, win.y + n - 1, cols, Scan(p, win, n - 1)), n - 1);
    }
  }

  /**
    The tracked box keeps the input's width and height; its confidence is
    the best average similarity scaled into [0, 1]. The position is either
    the input's, with confidence 0, or a visited candidate whose score the
    confidence reflects. No candidate scores higher, every candidate
    visited earlier scores lower (ties keep the first), and when no
    candidate scores above 0 the box stays where it was.
  */
  lemma {:induction false} TrackSpec(prev: seq<Byte>, cur: seq<Byte>, box: Box, width: int, height: int)
    ensures var r := Track(prev, cur, box, width, height);
      var p, win := Probe(prev, cur, box, width), SearchWindow(box, width, height);
      && r.bbox.w == box.w && r.bbox.h == box.h
      && 0.0 <= r.confidence <= 1.0
      && ((r.bbox.x == box.x && r.bbox.y == box.y && r.confidence == 0.0)
          || (Candidate(win, box, r.bbox.x, r.bbox.y) && Score(p, r.bbox.x, r.bbox.y) == Real(255.0 * r.confidence)
              && r.confidence > 0.0))
      && (forall tx, ty :: Candidate(win, box, tx, ty) ==> NotAbove(Score(p, tx, ty), 255.0 * r.confidence))
      && (r.confidence > 0.0 ==>
            forall tx, ty :: Candidate(win, box, tx, ty) && Before(tx, ty, r.bbox.x, r.bbox.y) ==>
              Below(Score(p, tx, ty), 255.0 * r.confidence))
      && ((forall tx, ty :: Candidate(win, box, tx, ty) ==> NotAbove(Score(p, tx, ty), 0.0)) ==>
            r.bbox.x == box.x && r.bbox.y == box.y && r.confidence == 0.0)
  {
    var p, win := Probe(prev, cur, box, width), SearchWindow(box, width, height);
    var n := Rows(win, box);
    ScanGood(p, win, n);
    var best := Scan(p, win, n);
    assert forall tx, ty :: Candidate(win, box, tx, ty) == Scanned(win, box, n, 0, tx, ty);
    assert 255.0 * (best.similarity / 255.0) == best.similarity;
  }

  // ---------------------------------------------------------------------
  // Identical frames
  // ---------------------------------------------------------------------

  /** The box lies inside a `width` x `height` frame whose buffer has the matching length. */
  predicate BoxInFrame(frame: seq<Byte>, box: Box, width: int, height: int) {
    && width >= 0 && height >= 0 && Shaped(|frame|, width, height)
    && 0 <= box.x && box.x + box.w <= width && 0 <= box.y && box.y + box.h <= height
  }

  lemma {:induction false} SampleInside(p: Probe, height: int, sy: int, sx: int, c: nat)
    requires BoxInFrame(p.prev, p.box, p.width, height)
    requires 0 <= sy < p.box.h && 0 <= sx < p.box.w && c < 3
    ensures 0 <= OrigIdx(p, sy, sx) + c < |p.prev|
  {
    var row, col := p.box.y + sy, p.box.x + sx;
    PixelInside(p.width, height, row, col);
    assert OrigIdx(p, sy, sx) == 4 * (row * p.width + col);
  }

  lemma {:induction false} SelfRowAcc(p: Probe, height: int, sy: int, n: nat, a: real)
    requires p.prev == p.cur && BoxInFrame(p.prev, p.box, p.width, height)
    requires 0 <= sy < p.box.h && n <= Half(p.box.w)
    ensures RowAcc(p, p.box.x, p.box.y, sy, n, Real(a)) == Real(a + 765.0 * n as real)
  {
    if n > 0 {
      var sx := 2 * (n - 1);
      SelfRowAcc(p, height, sy, n - 1, a);
      SampleInside(p, height, sy, sx, 0);
      SampleInside(p, height, sy, sx, 2);
      assert CheckIdx(p, p.box.x, p.box.y, sy, sx) == OrigIdx(p, sy, sx);
      SelfSample(p, OrigIdx(p, sy, sx), a + 765.0 * (n - 1) as real);
    }
  }

  lemma {:induction false} SelfSample(p: Probe, idx: int, a: real)
    requires p.prev == p.cur && 0 <= idx && idx + 2 < |p.prev|
    ensures SampleAcc(p, idx, idx, 3, Real(a)) == Real(a + 765.0)
  {
    assert SampleAcc(p, idx, idx, 1, Real(a)) == Real(a + 255.0);
    assert SampleAcc(p, idx, idx, 2, Real(a)) == Real(a + 510.0);
  }

  lemma {:induction false} SelfGridSum(p: Probe, height: int, n: nat)
    requires p.prev == p.cur && BoxInFrame(p.prev, p.box, p.width, height) && n <= Half(p.box.h)
    ensures GridSum(p, p.box.x, p.box.y, n) == Real(765.0 * (n * Half(p.box.w)) as real)
  {
    if n > 0 {
      var nw := Half(p.box.w);
      var before := 765.0 * ((n - 1) * nw) as real;
      SelfGridSum(p, height, n - 1);
      SelfRowAcc(p, height, 2 * (n - 1), nw, before);
      GridStep(p, p.box.x, p.box.y, n, Real(before), Real(before + 765.0 * nw as real));
      assert (n - 1) * nw + nw == n * nw;
      assert before + 765.0 * nw as real == 765.0 * (n * nw) as real;
    }
  }

  lemma {:induction false} GridStep(p: Probe, tx: int, ty: int, n: nat, g: Number, r: Number)
    requires n > 0 && GridSum(p, tx, ty, n - 1) == g && RowAcc(p, tx, ty, 2 * (n - 1), Half(p.box.w), g) == r
    ensures GridSum(p, tx, ty, n) == r
  {
  }

  /** Against an identical frame, a non-empty box inside it matches itself perfectly. */
  lemma {:induction false} SelfScore(p: Probe, height: int)
    requires p.prev == p.cur && BoxInFrame(p.prev, p.box, p.width, height) && p.box.w > 0 && p.box.h > 0
    ensures Score(p, p.box.x, p.box.y) == Real(255.0)
  {
    var nh, nw := Half(p.box.h), Half(p.box.w);
    SelfGridSum(p, height, nh);
    MulLeft(1, nh, nw);
    PerfectAverage(nh * nw);
  }

  lemma {:induction false} PerfectAverage(k: nat)
    requires k > 0
    ensures Div(Real(765.0 * k as real), 3 * k) == Real(255.0)
  {
    var count := (3 * k) as real;
    calc {
      765.0 * k as real / count;
      (255.0 * count) / count;
      { CancelDiv(255.0, count); }
      255.0;
    }
  }

  lemma {:induction false} CancelDiv(a: real, c: real)
    requires c > 0.0
    ensures (a * c) / c == a
  {
  }

  /** A box inside the frame is one of its own candidates. */
  lemma {:induction false} BoxIsCandidate(box: Box, width: int, height: int)
    requires box.w >= 0 && box.h >= 0
    requires 0 <= box.x && box.x + box.w <= width && 0 <= box.y && box.y + box.h <= height
    ensures Candidate(SearchWindow(box, width, height), box, box.x, box.y)
  {
  }

  /** When the frame has not changed, a non-empty box inside it is tracked with confidence 1. */
  lemma {:induction false} IdenticalFramesFullConfidence(frame: seq<Byte>, box: Box, width: int, height: int)
    requires BoxInFrame(frame, box, width, height) && box.w > 0 && box.h > 0
    ensures Track(frame, frame, box, width, height).confidence == 1.0
  {
    var p, win := Probe(frame, frame, box, width), SearchWindow(box, width, height);
    SelfScore(p, height);
    BoxIsCandidate(box, width, height);
    TrackSpec(frame, frame, box, width, height);
  }

  // ---------------------------------------------------------------------
  // trackObjectInFrames: the loops
  // ---------------------------------------------------------------------

  /** The `c` loop: the three channel terms of one sample added to `acc0`. */
  method SampleSimilarity(ghost p: Probe, prevFrame: seq<Byte>, currentFrame: seq<Byte>, origIdx: int, checkIdx: int, acc0: Number)
    returns (acc: Number)
    requires prevFrame == p.prev && currentFrame == p.cur
    ensures acc == SampleAcc(p, origIdx, checkIdx, 3, acc0)
  {
    acc := acc0;
    for c := 0 to 3
      invariant acc == SampleAcc(p, origIdx, checkIdx, c, acc0)
    {
      var diff := Diff(Read(prevFrame, origIdx + c), Read(currentFrame, checkIdx + c));
      acc := Add(acc, diff);
    }
  }

  /** The `sx` loop of sample row `sy`: returns the sum so far and `count` so far. */
  method RowSimilarity(ghost p: Probe, prevFrame: seq<Byte>, currentFrame: seq<Byte>, bbox: Box, width: int,
                       tx: int, ty: int, sy: int, acc0: Number, count0: int)
    returns (acc: Number, count: int)
    requires prevFrame == p.prev && currentFrame == p.cur && bbox == p.box && width == p.width
    ensures acc == RowAcc(p, tx, ty, sy, Half(bbox.w), acc0)
    ensures count == count0 + 3 * Half(bbox.w)
  {
    acc, count := acc0, count0;
    var sx := 0;
    ghost var i: nat := 0;
    while sx < bbox.w
      invariant sx == 2 * i && i <= Half(bbox.w)
      invariant acc == RowAcc(p, tx, ty, sy, i, acc0)
      invariant count == count0 + 3 * i
      decreases bbox.w - sx
    {
      var origIdx := ((bbox.y + sy) * width + (bbox.x + sx)) * 4;
      var checkIdx := ((ty + sy) * width + (tx + sx)) * 4;
      assert origIdx == OrigIdx(p, sy, sx) && checkIdx == CheckIdx(p, tx, ty, sy, sx);
      acc := SampleSimilarity(p, prevFrame, currentFrame, origIdx, checkIdx, acc);
      count := count + 3;
      sx, i := sx + 2, i + 1;
    }
  }

  /** The `sy` loop and the division: the average similarity of candidate (`tx`, `ty`). */
  method CandidateSimilarity(prevFrame: seq<Byte>, currentFrame: seq<Byte>, bbox: Box, width: int, tx: int, ty: int)
    returns (similarity: Number)
    ensures similarity == Score(Probe(prevFrame, currentFrame, bbox, width), tx, ty)
  {
    ghost var p := Probe(prevFrame, currentFrame, bbox, width);
    similarity := Real(0.0);
    var count := 0;
    var sy := 0;
    ghost var j: nat := 0;
    while sy < bbox.h
      invariant sy == 2 * j && j <= Half(bbox.h)
      invariant similarity == GridSum(p, tx, ty, j)
      invariant count == 3 * (j * Half(bbox.w))
      decreases bbox.h - sy
    {
      similarity, count := RowSimilarity(p, prevFrame, currentFrame, bbox, width, tx, ty, sy, similarity, count);
      assert j * Half(bbox.w) + Half(bbox.w) == (j + 1) * Half(bbox.w);
      sy, j := sy + 2, j + 1;
    }
    similarity := Div(similarity, count);
  }

  /** The `tx` loop over row `ty` of the search window. */
  method ScanRow(ghost p: Probe, ghost win: Window, prevFrame: seq<Byte>, currentFrame: seq<Byte>, bbox: Box, width: int,
                 searchX: int, searchW: int, ty: int, best0: Match)
    returns (bestMatch: Match)
    requires p == Probe(prevFrame, currentFrame, bbox, width) && searchX == win.x && searchW == win.w
    ensures bestMatch == RowScan(p, win, ty, Cols(win, bbox), best0)
  {
    bestMatch := best0;
    var tx := searchX;
    while tx <= searchX + searchW - bbox.w
      invariant searchX <= tx <= searchX + Cols(win, bbox)
      invariant bestMatch == RowScan(p, win, ty, tx - searchX, best0)
      decreases searchX + searchW - bbox.w - tx
    {
      var similarity := CandidateSimilarity(prevFrame, currentFrame, bbox, width, tx, ty);
      if similarity.Real? && similarity.v > bestMatch.similarity {
        bestMatch := Match(tx, ty, similarity.v);
      }
      tx := tx + 1;
    }
  }

  /** `trackObjectInFrames`. */
  method TrackObjectInFrames(prevFrame: seq<Byte>, currentFrame: seq<Byte>, bbox: Box, width: int, height: int)
    returns (result: TrackResult)
    ensures result == Track(prevFrame, currentFrame, bbox, width, height)
  {
    var x, y, w, h := bbox.x, bbox.y, bbox.w, bbox.h;
    var searchMargin := Margin(w, h);
    var searchX := Max(0, x - searchMargin);
    var searchY := Max(0, y - searchMargin);
    var searchW := Min(width - searchX, w + 2 * searchMargin);
    var searchH := Min(height - searchY, h + 2 * searchMargin);
    ghost var p := Probe(prevFrame, currentFrame, bbox, width);
    ghost var win := SearchWindow(bbox, width, height);
    assert win == Window(searchX, searchY, searchW, searchH);
    var bestMatch := Match(x, y, 0.0);
    var ty := searchY;
    while ty <= searchY + searchH - h
      invariant searchY <= ty <= searchY + Rows(win, bbox)
      invariant bestMatch == Scan(p, win, ty - searchY)
      decreases searchY + searchH - h - ty
    {
      bestMatch := ScanRow(p, win, prevFrame, currentFrame, bbox, width, searchX, searchW, ty, bestMatch);
      ty := ty + 1;
    }
    var confidence := bestMatch.similarity / 255.0;
    result := TrackResult(Box(bestMatch.x, bestMatch.y, w, h), confidence);
  }

  // ---------------------------------------------------------------------
  // prepareFrameForDetection
  // ---------------------------------------------------------------------

  /** `a * b`. */
  function Mul(a: Number, b: Number): Number {
    if a.Real? && b.Real? then Real(a.v * b.v) else NaN
  }

  /** `result[i] = Math.max(0, Math.min(255, v))`: NaN is stored as 0. */
  function ClampToByte(v: Number): Byte {
    if v.NaN? then 0 else ClampStore(v.v)
  }

  /** `Σ (r + g + b) / 3` over the first `n` pixels. */
  function BrightnessSum(data: seq<Byte>, n: nat): real
    requires 4 * n <= |data|
  {
    if n == 0 then 0.0
    else BrightnessSum(data, n - 1) + (data[4 * (n - 1)] as int + data[4 * (n - 1) + 1] + data[4 * (n - 1) + 2]) as real / 3.0
  }

  /** `128 / Math.max(1, avgBrightness)`, the average being NaN for an empty buffer. */
  function BrightnessRatio(data: seq<Byte>): (ratio: Number)
    requires |data| % 4 == 0
    ensures ratio.NaN? <==> |data| == 0
    ensures ratio.Real? ==> 0.0 < ratio.v <= 128.0
  {
    var avg := Div(Real(BrightnessSum(data, |data| / 4)), |data| / 4);
    if avg.NaN? then NaN else Real(128.0 / (if avg.v >= 1.0 then avg.v else 1.0))
  }

  /** `neighbor` for the `k`-th offset of the 3 x 3 window, `dy` outer and `dx` inner. */
  function NeighbourIdx(width: int, x: int, y: int, c: int, k: int): int {
    ((y + k / 3 - 1) * width + (x + k % 3 - 1)) * 4 + c
  }

  /** `sum` after the first `k` window reads of colour byte `c` of pixel (`x`, `y`). */
  function WindowSum(data: seq<Byte>, width: int, x: int, y: int, c: int, k: nat): Number
    requires k <= 9
  {
    if k == 0 then Real(0.0) else Add(WindowSum(data, width, x, y, c, k - 1), Read(data, NeighbourIdx(width, x, y, c, k - 1)))
  }

  /** The value written for colour byte `c` of interior pixel (`x`, `y`): the window mean times the ratio, clamped. */
  function Smoothed(data: seq<Byte>, width: int, ratio: Number, x: int, y: int, c: int): Byte {
    ClampToByte(Mul(Div(WindowSum(data, width, x, y, c, 9), 9), ratio))
  }

  /** Column and row of the pixel holding byte `j`. */
  function PixelX(width: nat, j: int): int { if width > 0 then (j / 4) % width else 0 }

  function PixelY(width: nat, j: int): int { if width > 0 then (j / 4) / width else 0 }

  /** Pixel (`x`, `y`) is off the one-pixel border. */
  predicate InteriorAt(width: nat, height: nat, x: int, y: int) {
    1 <= x < width - 1 && 1 <= y < height - 1
  }

  /** Byte `j` of the result: alpha 255, a smoothed interior colour byte, or 0 on the border. */
  function PreparedByte(data: seq<Byte>, width: nat, height: nat, ratio: Number, j: int): Byte {
    if IsAlpha(j) then 255
    else if InteriorAt(width, height, PixelX(width, j), PixelY(width, j)) then Smoothed(data, width, ratio, PixelX(width, j), PixelY(width, j), j % 4)
    else 0
  }

  /** The buffer `prepareFrameForDetection` returns. */
  function Prepared(data: seq<Byte>, width: nat, height: nat): (r: seq<Byte>)
    requires Shaped(|data|, width, height)
  {
    var ratio := BrightnessRatio(data);
    seq(|data|, j requires 0 <= j < |data| => PreparedByte(data, width, height, ratio, j))
  }

  /** Byte `c` of pixel (`x`, `y`). */
  function ByteIndex(width: nat, height: nat, x: nat, y: nat, c: nat): (i: nat)
    requires x < width && y < height && c < 4
    ensures i < 4 * (width * height)
  {
    PixelInside(width, height, y, x);
    (y * width + x) * 4 + c
  }

  /** Byte `c` of pixel (`x`, `y`) lies in that pixel. */
  lemma {:induction false} Coords(width: nat, height: nat, x: nat, y: nat, c: nat)
    requires x < width && y < height && c < 4
    ensures var j := ByteIndex(width, height, x, y, c);
      PixelX(width, j) == x && PixelY(width, j) == y && j % 4 == c
  {
    var p := y * width + x;
    RowCol(width, y, x);
    assert (p * 4 + c) / 4 == p;
  }

  /** A byte is determined by its pixel and channel. */
  lemma {:induction false} SameCoords(width: nat, height: nat, j: nat, x: nat, y: nat, c: nat)
    requires j < 4 * (width * height)
    requires width > 0 && PixelX(width, j) == x && PixelY(width, j) == y && j % 4 == c
    ensures j == (y * width + x) * 4 + c
  {
    ByteOfPixel(width, height, j);
    PixelCoords(width, height, j / 4);
  }

  /**
    In the result every alpha byte is 255, every colour byte of a border
    pixel is 0, and colour byte `c` of an interior pixel is its window mean
    scaled by the brightness ratio, clamped into [0, 255]; the length is the
    input's.
  */
  lemma {:induction false} PreparedSpec(data: seq<Byte>, width: nat, height: nat)
    requires Shaped(|data|, width, height)
    ensures var r := Prepared(data, width, height);
      && |r| == |data|
      && (forall j :: 0 <= j < |r| && IsAlpha(j) ==> r[j] == 255)
      && (forall x, y, c :: 0 <= x < width && 0 <= y < height && 0 <= c < 3 ==>
            r[ByteIndex(width, height, x, y, c)] ==
              if InteriorAt(width, height, x, y) then Smoothed(data, width, BrightnessRatio(data), x, y, c) else 0)
  {
    forall x, y, c | 0 <= x < width && 0 <= y < height && 0 <= c < 3
      ensures Prepared(data, width, height)[ByteIndex(width, height, x, y, c)] ==
                if InteriorAt(width, height, x, y) then Smoothed(data, width, BrightnessRatio(data), x, y, c) else 0
    {
      PreparedAt(data, width, height, x, y, c);
    }
  }

  // The uniform-frame property: brightness is normalised to the target 128.

  /** All colour bytes equal `v`. */
  predicate Uniform(data: seq<Byte>, v: Byte) {
    forall j :: 0 <= j < |data| && !IsAlpha(j) ==> data[j] == v
  }

  lemma {:induction false} UniformBrightness(data: seq<Byte>, v: Byte, n: nat)
    requires 4 * n <= |data| && Uniform(data, v)
    ensures BrightnessSum(data, n) == n as real * v as real
  {
    if n > 0 {
      UniformBrightness(data, v, n - 1);
      assert !IsAlpha(4 * (n - 1)) && !IsAlpha(4 * (n - 1) + 1) && !IsAlpha(4 * (n - 1) + 2);
      assert (n - 1) as real * v as real + v as real == n as real * v as real;
    }
  }

  lemma {:induction false} UniformRatio(data: seq<Byte>, width: nat, height: nat, v: Byte)
    requires Shaped(|data|, width, height) && |data| > 0 && Uniform(data, v) && v >= 1
    ensures BrightnessRatio(data) == Real(128.0 / v as real)
  {
    var n := |data| / 4;
    UniformBrightness(data, v, n);
    CancelDiv(v as real, n as real);
    assert n as real * v as real == v as real * n as real;
  }

  /** On a uniform frame the window of an interior pixel sums to nine times the grey level. */
  lemma {:induction false} UniformWindow(data: seq<Byte>, width: nat, height: nat, v: Byte, x: nat, y: nat, c: nat)
    requires Shaped(|data|, width, height) && Uniform(data, v)
    requires InteriorAt(width, height, x, y) && c < 3
    ensures WindowSum(data, width, x, y, c, 9) == Real(9.0 * v as real)
  {
    forall d | 0 <= d < 9
      ensures Read(data, NeighbourIdx(width, x, y, c, d)) == Real(v as real)
    {
      UniformRead(data, width, height, v, x, y, c, d);
    }
    ConstantWindow(data, width, x, y, c, v as real, 9);
  }

  /** A window whose first `k` reads all give `v` sums to `k * v`. */
  lemma {:induction false} ConstantWindow(data: seq<Byte>, width: nat, x: nat, y: nat, c: nat, v: real, k: nat)
    requires k <= 9
    requires forall d :: 0 <= d < k ==> Read(data, NeighbourIdx(width, x, y, c, d)) == Real(v)
    ensures WindowSum(data, width, x, y, c, k) == Real(k as real * v)
  {
    if k > 0 {
      ConstantWindow(data, width, x, y, c, v, k - 1);
      WindowStep(data, width, x, y, c, k, Real((k - 1) as real * v), Real(v));
      AddMultiple(k, v);
    }
  }

  /** Every read of the window of an interior pixel of a uniform frame gives `v`. */
  lemma {:induction false} UniformRead(data: seq<Byte>, width: nat, height: nat, v: Byte, x: nat, y: nat, c: nat, d: nat)
    requires Shaped(|data|, width, height) && Uniform(data, v)
    requires InteriorAt(width, height, x, y) && c < 3 && d < 9
    ensures Read(data, NeighbourIdx(width, x, y, c, d)) == Real(v as real)
  {
    WindowOffset(d);
    var col, row := x + d % 3 - 1, y + d / 3 - 1;
    assert 0 <= col < width && 0 <= row < height;
    var i := ByteIndex(width, height, col, row, c);
    assert NeighbourIdx(width, x, y, c, d) == i;
    Coords(width, height, col, row, c);
  }

  lemma {:induction false} AddMultiple(k: nat, v: real)
    requires k > 0
    ensures Add(Real((k - 1) as real * v), Real(v)) == Real(k as real * v)
  {
    assert (k - 1) as real * v + v == k as real * v;
  }

  /** Read `d` of the window is offset by (`d % 3 - 1`, `d / 3 - 1`), each in [-1, 1]. */
  lemma {:induction false} WindowOffset(d: int)
    requires 0 <= d < 9
    ensures 0 <= d % 3 < 3 && 0 <= d / 3 < 3
  {
  }

  lemma {:induction false} WindowStep(data: seq<Byte>, width: int, x: int, y: int, c: int, k: nat, s: Number, b: Number)
    requires 0 < k <= 9 && WindowSum(data, width, x, y, c, k - 1) == s && Read(data, NeighbourIdx(width, x, y, c, k - 1)) == b
    ensures WindowSum(data, width, x, y, c, k) == Add(s, b)
  {
  }

  /** On a uniform frame of grey level `v >= 1`, every interior colour byte comes out as the target brightness 128. */
  lemma {:induction false} UniformFrameNormalised(data: seq<Byte>, width: nat, height: nat, v: Byte, x: nat, y: nat, c: nat)
    requires Shaped(|data|, width, height) && Uniform(data, v) && v >= 1
    requires InteriorAt(width, height, x, y) && c < 3
    ensures Prepared(data, width, height)[ByteIndex(width, height, x, y, c)] == 128
  {
    ShapedPixels(|data|, width, height);
    PixelInside(width, height, y, x);
    UniformRatio(data, width, height, v);
    UniformWindow(data, width, height, v, x, y, c);
    PreparedAt(data, width, height, x, y, c);
    SmoothedUniform(data, width, BrightnessRatio(data), x, y, c, v as real);
  }

  lemma {:induction false} SmoothedUniform(data: seq<Byte>, width: nat, ratio: Number, x: nat, y: nat, c: nat, v: real)
    requires v >= 1.0 && WindowSum(data, width, x, y, c, 9) == Real(9.0 * v) && ratio == Real(128.0 / v)
    ensures Smoothed(data, width, ratio, x, y, c) == 128
  {
    MeanTimesRatio(v);
    StoreByteOfByte(128);
  }

  lemma {:induction false} PreparedAt(data: seq<Byte>, width: nat, height: nat, x: nat, y: nat, c: nat)
    requires Shaped(|data|, width, height) && x < width && y < height && c < 3
    ensures Prepared(data, width, height)[ByteIndex(width, height, x, y, c)] ==
              if InteriorAt(width, height, x, y) then Smoothed(data, width, BrightnessRatio(data), x, y, c) else 0
  {
    Coords(width, height, x, y, c);
  }

  lemma {:induction false} MeanTimesRatio(v: real)
    requires v >= 1.0
    ensures Mul(Real(9.0 * v / 9.0), Real(128.0 / v)) == Real(128.0)
  {
    assert 9.0 * v / 9.0 == v;
    CancelDiv(128.0, v);
    assert (128.0 / v) * v == 128.0;
  }

  /**
    The result so far: alpha bytes and border bytes already hold their final
    values, and so do the interior colour bytes before channel `c` of pixel
    (`x`, `y`) in row-major order; the others are still 0.
  */
  ghost predicate Filled(r: seq<Byte>, spec: seq<Byte>, width: nat, height: nat, y: int, x: int, c: int) {
    |r| == |spec| &&
    forall j :: 0 <= j < |spec| ==>
      r[j] == if IsAlpha(j) || !InteriorAt(width, height, PixelX(width, j), PixelY(width, j)) || Earlier(width, j, y, x, c)
              then spec[j] else 0
  }

  /** Byte `j` comes before channel `c` of pixel (`x`, `y`). */
  predicate Earlier(width: nat, j: int, y: int, x: int, c: int) {
    PixelY(width, j) < y || (PixelY(width, j) == y && (PixelX(width, j) < x || (PixelX(width, j) == x && j % 4 < c)))
  }

  lemma {:induction false} ChannelStep(before: seq<Byte>, spec: seq<Byte>, width: nat, height: nat, x: nat, y: nat, c: nat)
    requires Shaped(|spec|, width, height) && x < width && y < height && c < 3
    requires Filled(before, spec, width, height, y, x, c)
    ensures var j0 := ByteIndex(width, height, x, y, c);
      Filled(before[j0 := spec[j0]], spec, width, height, y, x, c + 1)
  {
    var j0 := ByteIndex(width, height, x, y, c);
    Coords(width, height, x, y, c);
    forall j | 0 <= j < |spec| && j != j0
      ensures !(PixelX(width, j) == x && PixelY(width, j) == y && j % 4 == c)
    {
      if PixelX(width, j) == x && PixelY(width, j) == y && j % 4 == c {
        SameCoords(width, height, j, x, y, c);
      }
    }
  }

  lemma {:induction false} PixelAdvance(r: seq<Byte>, spec: seq<Byte>, width: nat, height: nat, x: int, y: int)
    requires Filled(r, spec, width, height, y, x, 3)
    ensures Filled(r, spec, width, height, y, x + 1, 0)
  {
  }

  lemma {:induction false} RowAdvance(r: seq<Byte>, spec: seq<Byte>, width: nat, height: nat, x: int, y: int)
    requires x >= 1 && x >= width - 1
    requires Filled(r, spec, width, height, y, x, 0)
    ensures Filled(r, spec, width, height, y + 1, 1, 0)
  {
  }

  /** The `c` loop of one interior pixel. */
  method FillPixel(result: array<Byte>, data: seq<Byte>, width: nat, height: nat, brightnessRatio: Number, x: nat, y: nat,
                   ghost spec: seq<Byte>)
    requires Shaped(|data|, width, height) && InteriorAt(width, height, x, y)
    requires spec == Prepared(data, width, height) && brightnessRatio == BrightnessRatio(data)
    requires Filled(result[..], spec, width, height, y, x, 0)
    modifies result
    ensures Filled(result[..], spec, width, height, y, x + 1, 0)
  {
    PixelInside(width, height, y, x);
    var idx := (y * width + x) * 4;
    for c := 0 to 3
      invariant Filled(result[..], spec, width, height, y, x, c)
    {
      var sum := NeighbourSum(data, width, x, y, c);
      var value := Mul(Div(sum, 9), brightnessRatio);
      ghost var before := result[..];
      Coords(width, height, x, y, c);
      assert idx + c == ByteIndex(width, height, x, y, c);
      result[idx + c] := ClampToByte(value);
      ChannelStep(before, spec, width, height, x, y, c);
      assert result[..] == before[idx + c := spec[idx + c]];
    }
    PixelAdvance(result[..], spec, width, height, x, y);
  }

  /** The `dy` / `dx` loops: the sum of the 3 x 3 window of colour byte `c`. */
  method NeighbourSum(data: seq<Byte>, width: nat, x: nat, y: nat, c: nat) returns (sum: Number)
    ensures sum == WindowSum(data, width, x, y, c, 9)
  {
    sum := Real(0.0);
    var dy := -1;
    while dy <= 1
      invariant -1 <= dy <= 2
      invariant sum == WindowSum(data, width, x, y, c, 3 * (dy + 1))
    {
      sum := NeighbourRow(data, width, x, y, c, dy, sum);
      dy := dy + 1;
    }
  }

  /** The `dx` loop of window row `dy`. */
  method NeighbourRow(data: seq<Byte>, width: nat, x: nat, y: nat, c: nat, dy: int, sum0: Number) returns (sum: Number)
    requires -1 <= dy <= 1 && sum0 == WindowSum(data, width, x, y, c, 3 * (dy + 1))
    ensures sum == WindowSum(data, width, x, y, c, 3 * (dy + 1) + 3)
  {
    sum := sum0;
    var dx := -1;
    while dx <= 1
      invariant -1 <= dx <= 2
      invariant sum == WindowSum(data, width, x, y, c, 3 * (dy + 1) + (dx + 1))
    {
      var neighbor := ((y + dy) * width + (x + dx)) * 4 + c;
      ghost var k := 3 * (dy + 1) + (dx + 1);
      NeighbourIdxAt(width, x, y, c, dy, dx);
      WindowStep(data, width, x, y, c, k + 1, sum, Read(data, neighbor));
      sum := Add(sum, Read(data, neighbor));
      dx := dx + 1;
    }
  }

  /** Window read `3 * (dy + 1) + (dx + 1)` is the byte at offset (dx, dy) from the pixel. */
  lemma {:induction false} NeighbourIdxAt(width: int, x: int, y: int, c: int, dy: int, dx: int)
    requires -1 <= dy <= 1 && -1 <= dx <= 1
    ensures NeighbourIdx(width, x, y, c, 3 * (dy + 1) + (dx + 1)) == ((y + dy) * width + (x + dx)) * 4 + c
  {
    var k := 3 * (dy + 1) + (dx + 1);
    assert k / 3 - 1 == dy && k % 3 - 1 == dx;
  }

  /** `prepareFrameForDetection` on an `ImageData` buffer of the given dimensions. */
  method PrepareFrameForDetection(imageData: seq<Byte>, width: nat, height: nat) returns (result: array<Byte>)
    requires Shaped(|imageData|, width, height)
    ensures fresh(result) && result[..] == Prepared(imageData, width, height)
  {
    ShapedPixels(|imageData|, width, height);
    var data := imageData;
    result := new Byte[|data|](_ => 0);
    SetAlpha(result);
    var avgBrightness := BrightnessLoop(data);
    var average := Div(Real(avgBrightness), |data| / 4);
    var brightnessRatio := if average.NaN? then NaN else Real(128.0 / (if average.v >= 1.0 then average.v else 1.0));
    SmoothInterior(result, data, width, height, brightnessRatio);
  }

  /** The first loop: every alpha byte of the zeroed result becomes 255. */
  method SetAlpha(result: array<Byte>)
    requires result.Length % 4 == 0
    requires forall j :: 0 <= j < result.Length ==> result[j] == 0
    modifies result
    ensures forall j :: 0 <= j < result.Length ==> result[j] == if IsAlpha(j) then 255 else 0
  {
    var i := 0;
    while i < result.Length
      invariant 0 <= i <= result.Length && i % 4 == 0
      invariant forall j :: 0 <= j < result.Length ==> result[j] == if IsAlpha(j) && j < i then 255 else 0
    {
      result[i + 3] := 255;
      i := i + 4;
    }
  }

  /** The second loop: the sum of the per-pixel mean brightness. */
  method BrightnessLoop(data: seq<Byte>) returns (avgBrightness: real)
    requires |data| % 4 == 0
    ensures avgBrightness == BrightnessSum(data, |data| / 4)
  {
    avgBrightness := 0.0;
    var i := 0;
    ghost var n := 0;
    while i < |data|
      invariant i == 4 * n && i <= |data|
      invariant avgBrightness == BrightnessSum(data, n)
    {
      avgBrightness := avgBrightness + (data[i] as int + data[i + 1] + data[i + 2]) as real / 3.0;
      i, n := i + 4, n + 1;
    }
  }

  /** The `y` / `x` loops over the interior pixels, once alpha is set. */
  method SmoothInterior(result: array<Byte>, data: seq<Byte>, width: nat, height: nat, brightnessRatio: Number)
    requires Shaped(|data|, width, height) && result.Length == |data|
    requires brightnessRatio == BrightnessRatio(data)
    requires forall j :: 0 <= j < result.Length ==> result[j] == if IsAlpha(j) then 255 else 0
    modifies result
    ensures result[..] == Prepared(data, width, height)
  {
    ghost var spec := Prepared(data, width, height);
    assert Filled(result[..], spec, width, height, 1, 1, 0);
    var y := 1;
    while y < height - 1
      invariant 1 <= y && (height >= 2 ==> y <= height - 1)
      invariant Filled(result[..], spec, width, height, y, 1, 0)
    {
      var x := 1;
      while x < width - 1
        invariant 1 <= x && (width >= 2 ==> x <= width - 1)
        invariant Filled(result[..], spec, width, height, y, x, 0)
      {
        FillPixel(result, data, width, height, brightnessRatio, x, y, spec);
        x := x + 1;
      }
      RowAdvance(result[..], spec, width, height, x, y);
      y := y + 1;
    }
    assert forall j :: 0 <= j < |data| ==> result[j] == spec[j];
  }

  // ---------------------------------------------------------------------
  // onmessage
  // ---------------------------------------------------------------------

  /** The `data` of a request; each action reads its own fields. */
  datatype Payload = Payload(imageData: seq<Byte>, prevFrame: seq<Byte>, currentFrame: seq<Byte>, bbox: Box, width: int, height: int)

  /** What the worker posts back. */
  datatype Reply =
    | FrameReply(processedFrame: seq<Byte>, width: int, height: int)
    | TrackReply(bbox: Box, confidence: real)
    | ErrorReply(error: string)

  /** The start of the message for an unknown action ("unknown action: "). */
  const UnknownAction: string := "פעולה לא מוכרת: "

  /**
    `onmessage`: `prepareFrame` replies with the prepared buffer and the
    dimensions, `trackObject` with the tracked box and confidence, and any
    other action with an error naming it and nothing else.
  */
  method OnMessage(action: string, data: Payload) returns (reply: Reply)
    requires action == "prepareFrame" ==> data.width >= 0 && data.height >= 0 && Shaped(|data.imageData|, data.width, data.height)
    ensures action == "prepareFrame" ==>
              reply == FrameReply(Prepared(data.imageData, data.width, data.height), data.width, data.height)
    ensures action == "trackObject" ==>
              var t := Track(data.prevFrame, data.currentFrame, data.bbox, data.width, data.height);
              reply == TrackReply(t.bbox, t.confidence)
    ensures action != "prepareFrame" && action != "trackObject" ==> reply == ErrorReply(UnknownAction + action)
  {
    if action == "prepareFrame" {
      var processedFrame := PrepareFrameForDetection(data.imageData, data.width, data.height);
      reply := FrameReply(processedFrame[..], data.width, data.height);
    } else if action == "trackObject" {
      var trackResult := TrackObjectInFrames(data.prevFrame, data.currentFrame, data.bbox, data.width, data.height);
      reply := TrackReply(trackResult.bbox, trackResult.confidence);
    } else {
      reply := ErrorReply(UnknownAction + action);
    }
  }
}
