/**
 The switch synchroniser of the AOA block, as values.

 One call of the block's `work` runs a loop; each iteration either looks for the
 end of the all-antennas-off gap (SEARCH_RFX) or copies part of a frame into the
 per-antenna bins (CAPTURE_FRAME). `Step` is one such iteration on the block's
 state and `Run` is the whole loop of one call. The imperative block in
 SwitchSyncBlock is proved to compute exactly `Run`.
 */
module SyncModel {
  import opened Wrappers

  /** A complex baseband sample, with exact real and imaginary parts. */
  datatype Complex = Complex(re: real, im: real)

  /** Instantaneous power |x|^2 of a sample. */
  function Power(x: Complex): real {
    x.re * x.re + x.im * x.im
  }

  datatype Phase = SearchRfx | CaptureFrame

  /**
   The block's parameters: the sync threshold on power, the number of antennas,
   the dwell length and settling length of one antenna slot in samples, the
   minimum gap length that counts as the all-off gap, and the direction estimate
   applied to a completed frame's bins.
   */
  datatype Config = Config(
    threshold: real,
    maxAntennas: nat,
    samplesPerAntenna: nat,
    settlingSamp: nat,
    rfxGapThreshold: nat,
    estimate: seq<seq<Complex>> -> Complex)

  /** The persistent state of the block between and during calls. */
  datatype BlockState = BlockState(
    phase: Phase,
    counter: nat,
    total: nat,
    bins: seq<seq<seq<Complex>>>,
    lastAOA: Complex)

  function Min(a: int, b: int): int { if a <= b then a else b }

  function Max(a: int, b: int): int { if a >= b then a else b }

  function FrameSize(c: Config): nat {
    c.samplesPerAntenna * c.maxAntennas
  }

  /** A sample ends the gap when its power reaches the threshold. */
  predicate High(c: Config, x: Complex) {
    Power(x) >= c.threshold
  }

  /** The offset of the first high sample of `view`, if there is one. */
  function FirstHigh(c: Config, view: seq<Complex>): (r: Option<nat>)
    ensures r.Some? ==> r.value < |view| && High(c, view[r.value])
    ensures r.Some? ==> forall k :: 0 <= k < r.value ==> !High(c, view[k])
    ensures r.None? <==> forall k :: 0 <= k < |view| ==> !High(c, view[k])
  {
    if view == [] then None
    else if High(c, view[0]) then Some(0)
    else match FirstHigh(c, view[1..])
      case None => None
      case Some(k) => Some(k + 1)
  }

  /** Concatenation of the chunks appended to one bin. */
  function Flatten(chunks: seq<seq<Complex>>): seq<Complex>
  {
    if chunks == [] then [] else Flatten(chunks[..|chunks| - 1]) + chunks[|chunks| - 1]
  }

  /** Every antenna's bin concatenated, in antenna order. */
  function Flats(bins: seq<seq<seq<Complex>>>): (r: seq<seq<Complex>>)
    ensures |r| == |bins|
    ensures forall i :: 0 <= i < |bins| ==> r[i] == Flatten(bins[i])
  {
    seq(|bins|, i requires 0 <= i < |bins| => Flatten(bins[i]))
  }

  /** `n` empty bins. */
  function EmptyBins(n: nat): (r: seq<seq<seq<Complex>>>)
    ensures |r| == n
    ensures forall i :: 0 <= i < n ==> r[i] == []
  {
    seq(n, _ => [])
  }

  /** First frame position kept for antenna `i`: its settling samples are skipped. */
  function WindowStart(c: Config, i: nat): nat {
    i * c.samplesPerAntenna + c.settlingSamp
  }

  /** One past the last frame position of antenna `i`'s slot. */
  function WindowEnd(c: Config, i: nat): nat {
    (i + 1) * c.samplesPerAntenna
  }

  /**
   Antenna `k`'s bin after copying `chunk`, which holds frame positions
   [start, start + |chunk|): when the antenna's window meets that range, the
   overlapping part is appended as one more chunk.
   */
  function AddPiece(c: Config, bin: seq<seq<Complex>>, k: nat, chunk: seq<Complex>, start: nat): seq<seq<Complex>> {
    AddOverlap(bin, chunk, start, WindowStart(c, k), WindowEnd(c, k))
  }

  /** `bin` with the part of `chunk` (positions from `start` on) inside [ws, we) appended, if any. */
  function AddOverlap(bin: seq<seq<Complex>>, chunk: seq<Complex>, start: nat, ws: nat, we: nat): seq<seq<Complex>> {
    var lo := Max(start, ws);
    var hi := Min(start + |chunk|, we);
    if lo < hi then bin + [chunk[lo - start..hi - start]] else bin
  }

  /** Every antenna's bin after copying `chunk` at frame position `start`. */
  function Appended(c: Config, bins: seq<seq<seq<Complex>>>, chunk: seq<Complex>, start: nat)
    : (r: seq<seq<seq<Complex>>>)
    ensures |r| == |bins|
    ensures forall k :: 0 <= k < |bins| ==> r[k] == AddPiece(c, bins[k], k, chunk, start)
  {
    seq(|bins|, k requires 0 <= k < |bins| => AddPiece(c, bins[k], k, chunk, start))
  }

  /** The direction held after a completed frame whose bins flatten to `raw`. */
  function NextAoa(c: Config, raw: seq<seq<Complex>>, prev: Complex): Complex {
    if exists k :: 0 <= k < |raw| && |raw[k]| == 0 then prev else c.estimate(raw)
  }

  /** Well-formed block state: one bin per antenna and a frame that never overflows. */
  predicate Inv(c: Config, s: BlockState) {
    && |s.bins| == c.maxAntennas
    && s.total <= FrameSize(c)
    && (s.phase == CaptureFrame ==> s.total < FrameSize(c))
  }

  function PhaseRank(p: Phase): nat {
    if p == SearchRfx then 1 else 0
  }

  /**
   One iteration of the loop of `work` at input position `idx`: the new state and
   the new position. The position never decreases; it stays put only when a
   valid sync has just switched the block to CAPTURE_FRAME, and a capture
   iteration always consumes at least one sample.
   */
  function Step(c: Config, s: BlockState, iq: seq<Complex>, idx: nat): (r: (BlockState, nat))
    requires FrameSize(c) >= 1 && Inv(c, s) && idx < |iq|
    ensures Inv(c, r.0)
    ensures idx <= r.1 <= |iq|
    ensures r.1 == idx ==> s.phase == SearchRfx && r.0.phase == CaptureFrame
  {
    match s.phase
    case SearchRfx =>
      (match FirstHigh(c, iq[idx..])
       case None => (s.(counter := s.counter + (|iq| - idx)), |iq|)
       case Some(firstHigh) =>
         if s.counter + firstHigh >= c.rfxGapThreshold then
           (BlockState(CaptureFrame, 0, 0, EmptyBins(c.maxAntennas), s.lastAOA), idx + firstHigh)
         else
           (s.(counter := 0), idx + firstHigh + 1))
    case CaptureFrame =>
      var n := Min(FrameSize(c) - s.total, |iq| - idx);
      var s1 := if n > 0 then s.(bins := Appended(c, s.bins, iq[idx..idx + n], s.total), total := s.total + n) else s;
      var idx1 := if n > 0 then idx + n else idx;
      if s1.total >= FrameSize(c) then
        (s1.(phase := SearchRfx, counter := 0, lastAOA := NextAoa(c, Flats(s1.bins), s1.lastAOA)), idx1)
      else
        (s1, idx1)
  }

  /** The state after the loop of `work` has consumed `iq[idx..]`. */
  function Run(c: Config, s: BlockState, iq: seq<Complex>, idx: nat): (r: BlockState)
    requires FrameSize(c) >= 1 && Inv(c, s) && idx <= |iq|
    ensures Inv(c, r)
    decreases |iq| - idx, PhaseRank(s.phase)
  {
    if idx == |iq| then s
    else
      var next := Step(c, s, iq, idx);
      Run(c, next.0, iq, next.1)
  }

  /**
   In SEARCH_RFX, when `j` is the first high sample at or after `idx`, the step
   syncs exactly when the gap seen so far (carried over plus the low samples
   before `j`) reaches the gap threshold. A sync starts an empty frame and leaves
   the high sample unconsumed, so it becomes frame sample 0; a short gap resets
   the count and skips just past the high sample.
   */
  lemma SearchStepRule(c: Config, s: BlockState, iq: seq<Complex>, idx: nat, j: nat)
    requires FrameSize(c) >= 1 && Inv(c, s) && s.phase == SearchRfx
    requires idx <= j < |iq| && High(c, iq[j])
    requires forall k :: idx <= k < j ==> !High(c, iq[k])
    ensures Step(c, s, iq, idx).0.phase == CaptureFrame <==> s.counter + (j - idx) >= c.rfxGapThreshold
    ensures s.counter + (j - idx) >= c.rfxGapThreshold ==>
      Step(c, s, iq, idx) == (BlockState(CaptureFrame, 0, 0, EmptyBins(c.maxAntennas), s.lastAOA), j)
    ensures s.counter + (j - idx) < c.rfxGapThreshold ==>
      Step(c, s, iq, idx) == (s.(counter := 0), j + 1)
  {
    var view := iq[idx..];
    assert High(c, view[j - idx]);
    assert forall k :: 0 <= k < j - idx ==> !High(c, view[k]) by {
      forall k | 0 <= k < j - idx ensures !High(c, view[k]) {
        assert view[k] == iq[idx + k];
      }
    }
    var f := FirstHigh(c, view);
    assert f.Some?;
    assert f.value == j - idx;
  }

  /**
   In CAPTURE_FRAME a step consumes min(remaining in frame, remaining in input)
   samples, at least one, and so never takes the frame past its size. Bins of
   antennas whose window misses those positions are untouched. The frame closes
   exactly when it is full: the block goes back to SEARCH_RFX with a zero gap
   count, and the held direction changes only if no bin is empty.
   */
  lemma CaptureStepRule(c: Config, s: BlockState, iq: seq<Complex>, idx: nat)
    requires FrameSize(c) >= 1 && Inv(c, s) && s.phase == CaptureFrame && idx < |iq|
    ensures var r := Step(c, s, iq, idx);
      var n := Min(FrameSize(c) - s.total, |iq| - idx);
      && n >= 1
      && r.1 == idx + n
      && r.0.total == s.total + n <= FrameSize(c)
      && r.0.bins == Appended(c, s.bins, iq[idx..idx + n], s.total)
      && (r.0.phase == SearchRfx <==> s.total + n == FrameSize(c))
      && (r.0.phase == SearchRfx ==> r.0.counter == 0)
      && (r.0.phase == CaptureFrame ==> r.0.counter == s.counter && r.0.lastAOA == s.lastAOA)
      && ((exists k :: 0 <= k < |r.0.bins| && |Flatten(r.0.bins[k])| == 0) ==> r.0.lastAOA == s.lastAOA)
  {
    var n := Min(FrameSize(c) - s.total, |iq| - idx);
    var s1 := s.(bins := Appended(c, s.bins, iq[idx..idx + n], s.total), total := s.total + n);
    if s1.total >= FrameSize(c) {
      var r := s1.(phase := SearchRfx, counter := 0, lastAOA := NextAoa(c, Flats(s1.bins), s1.lastAOA));
      assert Step(c, s, iq, idx) == (r, idx + n);
      if exists k :: 0 <= k < |r.bins| && |Flatten(r.bins[k])| == 0 {
        var k :| 0 <= k < |r.bins| && |Flatten(r.bins[k])| == 0;
        assert |Flats(r.bins)[k]| == 0;
      }
    } else {
      assert Step(c, s, iq, idx) == (s1, idx + n);
    }
  }

  /**
   A call whose samples are all below the threshold, made in SEARCH_RFX, only
   lengthens the gap count by the whole buffer, so the count carries over to the
   next call.
   */
  lemma QuietCall(c: Config, s: BlockState, iq: seq<Complex>)
    requires FrameSize(c) >= 1 && Inv(c, s) && s.phase == SearchRfx
    requires forall k :: 0 <= k < |iq| ==> !High(c, iq[k])
    ensures Run(c, s, iq, 0) == s.(counter := s.counter + |iq|)
  {
    if iq != [] {
      assert iq[0..] == iq;
      assert FirstHigh(c, iq[0..]) == None;
    }
  }
}
