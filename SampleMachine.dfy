/**
 A sample-at-a-time reference for the switch synchroniser, and the proof that the
 chunked loop of `work` agrees with it.

 The reference keeps the frame captured so far instead of the bins; a bin is
 then, by definition, the part of its antenna's window that has arrived. Because
 the reference consumes one sample at a time, how the input is split into calls
 cannot matter to it, and `RunRefines` carries that over to the block.
 */
module SampleMachine {
  import opened SyncModel

  /** The reference state: the phase, the gap count, the current frame and the held direction. */
  datatype SampleState = SampleState(phase: Phase, counter: nat, frame: seq<Complex>, lastAOA: Complex)

  /** Frame positions of antenna `i`'s window that `frame` already holds. */
  function Window(c: Config, frame: seq<Complex>, i: nat): seq<Complex> {
    Clip(frame, WindowStart(c, i), WindowEnd(c, i))
  }

  /** The positions of `frame` inside [ws, we). */
  function Clip(frame: seq<Complex>, ws: nat, we: nat): seq<Complex> {
    var lo := Min(|frame|, ws);
    var hi := Min(|frame|, we);
    if lo < hi then frame[lo..hi] else []
  }

  function Windows(c: Config, frame: seq<Complex>): (r: seq<seq<Complex>>)
    ensures |r| == c.maxAntennas
    ensures forall i :: 0 <= i < c.maxAntennas ==> r[i] == Window(c, frame, i)
  {
    seq(c.maxAntennas, i requires 0 <= i < c.maxAntennas => Window(c, frame, i))
  }

  /** Adds one sample to the frame; a frame that reaches its full size is evaluated and closed. */
  function Absorb(c: Config, t: SampleState, x: Complex): SampleState {
    var frame := t.frame + [x];
    if |frame| >= FrameSize(c) then
      SampleState(SearchRfx, 0, frame, NextAoa(c, Windows(c, frame), t.lastAOA))
    else
      t.(frame := frame)
  }

  /** The reference reaction to one input sample. */
  function Feed(c: Config, t: SampleState, x: Complex): SampleState {
    match t.phase
    case CaptureFrame => Absorb(c, t, x)
    case SearchRfx =>
      if !High(c, x) then t.(counter := t.counter + 1)
      else if t.counter >= c.rfxGapThreshold then Absorb(c, SampleState(CaptureFrame, 0, [], t.lastAOA), x)
      else t.(counter := 0)
  }

  function FeedAll(c: Config, t: SampleState, xs: seq<Complex>): SampleState
    decreases |xs|
  {
    if xs == [] then t else FeedAll(c, Feed(c, t, xs[0]), xs[1..])
  }

  /**
   The block state `s` stands for the reference state `t`: same phase, gap count,
   frame length and direction, and every antenna's bin concatenates to exactly
   the part of its window that `t`'s frame holds.
   */
  predicate Matches(c: Config, s: BlockState, t: SampleState) {
    && Inv(c, s)
    && s.phase == t.phase
    && s.counter == t.counter
    && s.total == |t.frame|
    && s.lastAOA == t.lastAOA
    && forall i :: 0 <= i < |s.bins| ==> Flatten(s.bins[i]) == Window(c, t.frame, i)
  }

  /** Two block states that agree on everything but how their bins are chunked. */
  predicate Agree(x: BlockState, y: BlockState) {
    && x.phase == y.phase
    && x.counter == y.counter
    && x.total == y.total
    && x.lastAOA == y.lastAOA
    && Flats(x.bins) == Flats(y.bins)
  }

  lemma FlattenSnoc(chunks: seq<seq<Complex>>, piece: seq<Complex>)
    ensures Flatten(chunks + [piece]) == Flatten(chunks) + piece
  {
    assert (chunks + [piece])[..|chunks|] == chunks;
  }

  /** Feeding a concatenation is feeding its halves one after the other. */
  lemma {:induction false} FeedAllConcat(c: Config, t: SampleState, a: seq<Complex>, b: seq<Complex>)
    ensures FeedAll(c, t, a + b) == FeedAll(c, FeedAll(c, t, a), b)
    decreases |a|
  {
    if a == [] {
      assert a + b == b;
    } else {
      assert (a + b)[0] == a[0];
      assert (a + b)[1..] == a[1..] + b;
      FeedAllConcat(c, Feed(c, t, a[0]), a[1..], b);
    }
  }

  /** Low samples in SEARCH_RFX only lengthen the gap count. */
  lemma {:induction false} FeedLowRun(c: Config, t: SampleState, iq: seq<Complex>, idx: nat, j: nat)
    requires t.phase == SearchRfx && idx <= j <= |iq|
    requires forall k :: idx <= k < j ==> !High(c, iq[k])
    ensures FeedAll(c, t, iq[idx..j]) == t.(counter := t.counter + (j - idx))
    decreases j - idx
  {
    if idx < j {
      assert iq[idx..j][0] == iq[idx];
      assert iq[idx..j][1..] == iq[idx + 1..j];
      FeedLowRun(c, t.(counter := t.counter + 1), iq, idx + 1, j);
    }
  }

  /** Samples that fit in the current frame are appended in order; the last one may close the frame. */
  lemma {:induction false} FeedCaptureChunk(c: Config, t: SampleState, chunk: seq<Complex>)
    requires t.phase == CaptureFrame && |t.frame| + |chunk| <= FrameSize(c)
    ensures var f := t.frame + chunk;
      FeedAll(c, t, chunk) ==
        if chunk != [] && |f| >= FrameSize(c) then SampleState(SearchRfx, 0, f, NextAoa(c, Windows(c, f), t.lastAOA))
        else t.(frame := f)
    decreases |chunk|
  {
    if chunk == [] {
      assert t.frame + chunk == t.frame;
    } else if |t.frame| + 1 >= FrameSize(c) {
      assert chunk == [chunk[0]];
    } else {
      var t1 := t.(frame := t.frame + [chunk[0]]);
      FeedCaptureChunk(c, t1, chunk[1..]);
      assert t1.frame + chunk[1..] == t.frame + chunk;
    }
  }

  /**
   Appending a chunk that holds frame positions [|frame|, |frame| + |chunk|)
   keeps every bin equal to its antenna's window: each piece is the overlap of
   the chunk with the window, and pieces arrive in position order.
   */
  lemma AppendedWindow(c: Config, bin: seq<seq<Complex>>, frame: seq<Complex>, chunk: seq<Complex>, k: nat)
    requires Flatten(bin) == Window(c, frame, k)
    ensures Flatten(AddPiece(c, bin, k, chunk, |frame|)) == Window(c, frame + chunk, k)
  {
    ClipOverlap(bin, frame, chunk, WindowStart(c, k), WindowEnd(c, k));
  }

  lemma SliceLeft(a: seq<Complex>, b: seq<Complex>, i: nat, j: nat)
    requires i <= j <= |a|
    ensures (a + b)[i..j] == a[i..j]
  {
  }

  lemma SliceRight(a: seq<Complex>, b: seq<Complex>, i: nat, j: nat)
    requires |a| <= i <= j <= |a| + |b|
    ensures (a + b)[i..j] == b[i - |a|..j - |a|]
  {
  }

  lemma SliceAcross(a: seq<Complex>, b: seq<Complex>, i: nat, j: nat)
    requires i <= |a| <= j <= |a| + |b|
    ensures (a + b)[i..j] == a[i..] + b[..j - |a|]
  {
  }

  /** The part of `chunk` (positions from `|frame|` on) inside [ws, we). */
  function OverlapOf(frame: seq<Complex>, chunk: seq<Complex>, ws: nat, we: nat): seq<Complex> {
    var lo := Max(|frame|, ws);
    var hi := Min(|frame| + |chunk|, we);
    if lo < hi then chunk[lo - |frame|..hi - |frame|] else []
  }

  /** Clipping a longer frame adds exactly the new samples' overlap with [ws, we). */
  lemma ClipExtend(frame: seq<Complex>, chunk: seq<Complex>, ws: nat, we: nat)
    ensures Clip(frame + chunk, ws, we) == Clip(frame, ws, we) + OverlapOf(frame, chunk, ws, we)
  {
    var f, n := |frame|, |chunk|;
    if Max(f, ws) < Min(f + n, we) {
      if f <= ws {
        ClipExtendInside(frame, chunk, ws, we);
      } else {
        ClipExtendAcross(frame, chunk, ws, we);
      }
    } else if n == 0 {
      assert frame + chunk == frame;
    } else if ws < we && we <= f {
      ClipExtendBefore(frame, chunk, ws, we);
    } else {
      assert Clip(frame, ws, we) == [];
      assert Clip(frame + chunk, ws, we) == [];
    }
  }

  lemma ClipExtendInside(frame: seq<Complex>, chunk: seq<Complex>, ws: nat, we: nat)
    requires |frame| <= ws && ws < Min(|frame| + |chunk|, we)
    ensures Clip(frame + chunk, ws, we) == Clip(frame, ws, we) + OverlapOf(frame, chunk, ws, we)
  {
    var hi := Min(|frame| + |chunk|, we);
    assert Clip(frame, ws, we) == [];
    assert Clip(frame + chunk, ws, we) == (frame + chunk)[ws..hi];
    SliceRight(frame, chunk, ws, hi);
  }

  lemma ClipExtendAcross(frame: seq<Complex>, chunk: seq<Complex>, ws: nat, we: nat)
    requires ws < |frame| < Min(|frame| + |chunk|, we)
    ensures Clip(frame + chunk, ws, we) == Clip(frame, ws, we) + OverlapOf(frame, chunk, ws, we)
  {
    var hi := Min(|frame| + |chunk|, we);
    assert Clip(frame, ws, we) == frame[ws..];
    assert Clip(frame + chunk, ws, we) == (frame + chunk)[ws..hi];
    SliceAcross(frame, chunk, ws, hi);
  }

  lemma ClipExtendBefore(frame: seq<Complex>, chunk: seq<Complex>, ws: nat, we: nat)
    requires ws < we <= |frame|
    ensures Clip(frame + chunk, ws, we) == Clip(frame, ws, we) + OverlapOf(frame, chunk, ws, we)
  {
    assert OverlapOf(frame, chunk, ws, we) == [];
    assert Clip(frame, ws, we) == frame[ws..we];
    assert Clip(frame + chunk, ws, we) == (frame + chunk)[ws..we];
    SliceLeft(frame, chunk, ws, we);
  }

  /** Appending the overlap of the next chunk with [ws, we) extends the clipped frame by that chunk. */
  lemma ClipOverlap(bin: seq<seq<Complex>>, frame: seq<Complex>, chunk: seq<Complex>, ws: nat, we: nat)
    requires Flatten(bin) == Clip(frame, ws, we)
    ensures Flatten(AddOverlap(bin, chunk, |frame|, ws, we)) == Clip(frame + chunk, ws, we)
  {
    ClipExtend(frame, chunk, ws, we);
    var piece := OverlapOf(frame, chunk, ws, we);
    if Max(|frame|, ws) < Min(|frame| + |chunk|, we) {
      FlattenSnoc(bin, piece);
    } else {
      assert piece == [];
      assert Clip(frame, ws, we) + piece == Clip(frame, ws, we);
    }
  }

  /** A capture iteration of the block follows the reference over the samples it consumes. */
  lemma CaptureStepRefines(c: Config, s: BlockState, t: SampleState, iq: seq<Complex>, idx: nat)
    requires FrameSize(c) >= 1 && Matches(c, s, t) && s.phase == CaptureFrame && idx < |iq|
    ensures Matches(c, Step(c, s, iq, idx).0, FeedAll(c, t, iq[idx..Step(c, s, iq, idx).1]))
  {
    var n := Min(FrameSize(c) - s.total, |iq| - idx);
    assert n > 0;
    var chunk := iq[idx..idx + n];
    var bins1 := Appended(c, s.bins, chunk, s.total);
    var f := t.frame + chunk;
    var s1 := s.(bins := bins1, total := s.total + n);
    FeedCaptureChunk(c, t, chunk);
    forall k | 0 <= k < |bins1| ensures Flatten(bins1[k]) == Window(c, f, k) {
      AppendedWindow(c, s.bins[k], t.frame, chunk, k);
    }
    if s1.total >= FrameSize(c) {
      assert Flats(bins1) == Windows(c, f);
      assert Step(c, s, iq, idx) == (s1.(phase := SearchRfx, counter := 0, lastAOA := NextAoa(c, Flats(bins1), s.lastAOA)), idx + n);
    } else {
      assert Step(c, s, iq, idx) == (s1, idx + n);
    }
  }

  /**
   A search iteration of the block follows the reference: after it, some
   reference state matches the block, and feeding it the rest of the input is
   the same as feeding the original reference state everything from `idx` on.
   A sync consumes nothing, so the reference state it stands for is the empty
   frame that the high sample is about to enter.
   */
  lemma SearchStepRefines(c: Config, s: BlockState, t: SampleState, iq: seq<Complex>, idx: nat)
    returns (t1: SampleState)
    requires FrameSize(c) >= 1 && Matches(c, s, t) && s.phase == SearchRfx && idx < |iq|
    ensures Matches(c, Step(c, s, iq, idx).0, t1)
    ensures FeedAll(c, t, iq[idx..]) == FeedAll(c, t1, iq[Step(c, s, iq, idx).1..])
  {
    match FirstHigh(c, iq[idx..])
    case None =>
      forall k | idx <= k < |iq| ensures !High(c, iq[k]) {
        assert iq[k] == iq[idx..][k - idx];
      }
      FeedLowRun(c, t, iq, idx, |iq|);
      assert iq[idx..|iq|] == iq[idx..];
      t1 := t.(counter := t.counter + (|iq| - idx));
      assert iq[|iq|..] == [];
    case Some(h) =>
      var j := idx + h;
      forall k | idx <= k < j ensures !High(c, iq[k]) {
        assert iq[k] == iq[idx..][k - idx];
      }
      assert High(c, iq[j]) by { assert iq[j] == iq[idx..][h]; }
      FeedLowRun(c, t, iq, idx, j);
      var tl := t.(counter := t.counter + h);
      FeedAllConcat(c, t, iq[idx..j], iq[j..]);
      assert iq[idx..j] + iq[j..] == iq[idx..];
      assert FeedAll(c, tl, iq[j..]) == FeedAll(c, Feed(c, tl, iq[j]), iq[j + 1..]) by {
        assert iq[j..][0] == iq[j] && iq[j..][1..] == iq[j + 1..];
      }
      if tl.counter >= c.rfxGapThreshold {
        t1 := SampleState(CaptureFrame, 0, [], t.lastAOA);
        assert FeedAll(c, t1, iq[j..]) == FeedAll(c, Feed(c, t1, iq[j]), iq[j + 1..]) by {
          assert iq[j..][0] == iq[j] && iq[j..][1..] == iq[j + 1..];
        }
        assert Step(c, s, iq, idx) == (BlockState(CaptureFrame, 0, 0, EmptyBins(c.maxAntennas), s.lastAOA), j);
      } else {
        t1 := tl.(counter := 0);
        assert Step(c, s, iq, idx) == (s.(counter := 0), j + 1);
      }
  }

  /**
   The loop of `work` refines the reference: from matching states, consuming
   `iq[idx..]` chunk by chunk ends in a state that matches feeding those samples
   one at a time.
   */
  lemma {:induction false} RunRefines(c: Config, s: BlockState, t: SampleState, iq: seq<Complex>, idx: nat)
    requires FrameSize(c) >= 1 && Matches(c, s, t) && idx <= |iq|
    ensures Matches(c, Run(c, s, iq, idx), FeedAll(c, t, iq[idx..]))
    decreases |iq| - idx, PhaseRank(s.phase)
  {
    if idx == |iq| {
      assert iq[idx..] == [];
    } else {
      var next := Step(c, s, iq, idx);
      var t1: SampleState;
      if s.phase == CaptureFrame {
        CaptureStepRefines(c, s, t, iq, idx);
        t1 := FeedAll(c, t, iq[idx..next.1]);
        FeedAllConcat(c, t, iq[idx..next.1], iq[next.1..]);
        assert iq[idx..next.1] + iq[next.1..] == iq[idx..];
      } else {
        t1 := SearchStepRefines(c, s, t, iq, idx);
      }
      RunRefines(c, next.0, t1, iq, next.1);
    }
  }

  /** Two block states standing for the same reference state agree up to chunking. */
  lemma MatchesAgree(c: Config, x: BlockState, y: BlockState, t: SampleState)
    requires Matches(c, x, t) && Matches(c, y, t)
    ensures Agree(x, y)
  {
    assert Flats(x.bins) == Windows(c, t.frame);
    assert Flats(y.bins) == Windows(c, t.frame);
  }

  /**
   Splitting the input between two calls changes nothing: the state after `a`
   then `b` agrees with the state after one call on `a + b` in phase, counters,
   held direction and every antenna's concatenated bin.
   */
  lemma SplitCallsAgree(c: Config, s: BlockState, t: SampleState, a: seq<Complex>, b: seq<Complex>)
    requires FrameSize(c) >= 1 && Matches(c, s, t)
    ensures Agree(Run(c, Run(c, s, a, 0), b, 0), Run(c, s, a + b, 0))
  {
    assert a[0..] == a && b[0..] == b && (a + b)[0..] == a + b;
    RunRefines(c, s, t, a, 0);
    RunRefines(c, Run(c, s, a, 0), FeedAll(c, t, a), b, 0);
    RunRefines(c, s, t, a + b, 0);
    FeedAllConcat(c, t, a, b);
    MatchesAgree(c, Run(c, Run(c, s, a, 0), b, 0), Run(c, s, a + b, 0), FeedAll(c, t, a + b));
  }

  lemma MulMono(a: nat, b: nat, m: nat)
    requires a <= b
    ensures a * m <= b * m
  {
  }

  /**
   In a completed frame antenna `i`'s window holds exactly the slot positions
   [i*spa + settle, (i+1)*spa), that is max(0, spa - settle) samples.
   */
  lemma CompleteWindow(c: Config, frame: seq<Complex>, i: nat)
    requires |frame| == FrameSize(c) && i < c.maxAntennas
    ensures |Window(c, frame, i)| == Max(0, c.samplesPerAntenna - c.settlingSamp)
    ensures c.settlingSamp < c.samplesPerAntenna ==>
      Window(c, frame, i) == frame[WindowStart(c, i)..WindowEnd(c, i)]
  {
    MulMono(i + 1, c.maxAntennas, c.samplesPerAntenna);
    assert WindowEnd(c, i) == WindowStart(c, i) - c.settlingSamp + c.samplesPerAntenna;
  }

  /**
   After a completed frame, each antenna's bin concatenates to its window, with
   max(0, spa - settle) samples, however the frame was split into chunks and calls.
   */
  lemma CompletedFrameBins(c: Config, s: BlockState, t: SampleState, i: nat)
    requires Matches(c, s, t) && s.total == FrameSize(c) && i < c.maxAntennas
    ensures |Flatten(s.bins[i])| == Max(0, c.samplesPerAntenna - c.settlingSamp)
    ensures c.settlingSamp < c.samplesPerAntenna ==>
      Flatten(s.bins[i]) == t.frame[WindowStart(c, i)..WindowEnd(c, i)]
  {
    CompleteWindow(c, t.frame, i);
  }

  /**
   Closing a frame updates the held direction exactly when the settling time is
   shorter than the dwell time; otherwise every bin is empty and the previous
   direction is kept.
   */
  lemma CompletedFrameAoa(c: Config, frame: seq<Complex>, prev: Complex)
    requires |frame| == FrameSize(c) && c.maxAntennas >= 1
    ensures c.settlingSamp < c.samplesPerAntenna ==>
      NextAoa(c, Windows(c, frame), prev) == c.estimate(Windows(c, frame))
    ensures c.samplesPerAntenna <= c.settlingSamp ==>
      NextAoa(c, Windows(c, frame), prev) == prev
  {
    var ws := Windows(c, frame);
    forall k | 0 <= k < c.maxAntennas ensures |ws[k]| == Max(0, c.samplesPerAntenna - c.settlingSamp) {
      CompleteWindow(c, frame, k);
    }
    if c.samplesPerAntenna <= c.settlingSamp {
      assert |ws[0]| == 0;
    }
  }
}
