/**
 The AOA switch-sync block as an object: the state machine's fields are updated
 in place by `Work`, one call per buffer handed over by the flow graph.
 */
module SwitchSyncBlock {
  import opened Wrappers
  import opened SyncModel
  import opened SampleMachine

  class SwitchSync {
    const threshold: real
    const maxAntennas: nat
    const samplesPerAntenna: nat
    const settlingSamp: nat
    const rfxGapThreshold: nat
    /** The direction estimate of a completed frame's bins (the vector sum over the antenna angles). */
    const estimate: seq<seq<Complex>> -> Complex

    var state: Phase
    var counter: nat
    var totalSampleCounter: nat
    var lastAOA: Complex
    var antennaData: seq<seq<seq<Complex>>>

    /** The per-sample reference state that the fields stand for. */
    ghost var model: SampleState

    function Params(): Config {
      Config(threshold, maxAntennas, samplesPerAntenna, settlingSamp, rfxGapThreshold, estimate)
    }

    function Snapshot(): BlockState
      reads this
    {
      BlockState(state, counter, totalSampleCounter, antennaData, lastAOA)
    }

    ghost predicate Valid()
      reads this
    {
      Matches(Params(), Snapshot(), model)
    }

    /**
     A block waiting for the gap, with empty bins and a zero direction. The gap
     threshold is three quarters of the dwell length, rounded down.
     */
    constructor (threshold: real, maxAntennas: nat, samplesPerAntenna: nat, settlingSamp: nat,
                 estimate: seq<seq<Complex>> -> Complex)
      ensures Valid()
      ensures this.threshold == threshold && this.maxAntennas == maxAntennas
      ensures this.samplesPerAntenna == samplesPerAntenna && this.settlingSamp == settlingSamp
      ensures this.estimate == estimate
      ensures rfxGapThreshold == (3 * samplesPerAntenna) / 4
      ensures state == SearchRfx && counter == 0 && totalSampleCounter == 0
      ensures lastAOA == Complex(0.0, 0.0)
      ensures antennaData == EmptyBins(maxAntennas)
      ensures model == SampleState(SearchRfx, 0, [], Complex(0.0, 0.0))
    {
      this.threshold := threshold;
      this.maxAntennas := maxAntennas;
      this.samplesPerAntenna := samplesPerAntenna;
      this.settlingSamp := settlingSamp;
      this.estimate := estimate;
      rfxGapThreshold := (3 * samplesPerAntenna) / 4;
      state := SearchRfx;
      counter := 0;
      totalSampleCounter := 0;
      lastAOA := Complex(0.0, 0.0);
      antennaData := [];
      model := SampleState(SearchRfx, 0, [], Complex(0.0, 0.0));
      new;
      ResetArrays();
    }

    /** One empty bin per antenna. */
    method ResetArrays()
      modifies this`antennaData
      ensures antennaData == EmptyBins(maxAntennas)
    {
      antennaData := EmptyBins(maxAntennas);
    }

    /**
     Copies `chunk`, frame positions [startFrameIdx, startFrameIdx + |chunk|),
     into the bins: each antenna gets the overlap of the chunk with its window.
     */
    method DistributeChunk(chunk: seq<Complex>, startFrameIdx: nat)
      requires |antennaData| == maxAntennas
      modifies this`antennaData
      ensures antennaData == Appended(Params(), old(antennaData), chunk, startFrameIdx)
    {
      ghost var bins0 := antennaData;
      for i := 0 to maxAntennas
        invariant |antennaData| == maxAntennas
        invariant forall k :: 0 <= k < i ==> antennaData[k] == AddPiece(Params(), bins0[k], k, chunk, startFrameIdx)
        invariant forall k :: i <= k < maxAntennas ==> antennaData[k] == bins0[k]
      {
        var wStart := i * samplesPerAntenna + settlingSamp;
        var wEnd := (i + 1) * samplesPerAntenna;
        var istart := Max(startFrameIdx, wStart);
        var iend := Min(startFrameIdx + |chunk|, wEnd);
        if istart < iend {
          var cStart := istart - startFrameIdx;
          var cEnd := iend - startFrameIdx;
          antennaData := antennaData[i := antennaData[i] + [chunk[cStart..cEnd]]];
        }
      }
    }

    /**
     Evaluates the completed frame: the bins are concatenated, and the direction
     is updated only when no antenna's bin is empty.
     */
    method CalculateAoa()
      modifies this`lastAOA
      ensures lastAOA == NextAoa(Params(), Flats(antennaData), old(lastAOA))
    {
      var rawArrays: seq<seq<Complex>> := [];
      for i := 0 to |antennaData|
        invariant |rawArrays| == i
        invariant forall k :: 0 <= k < i ==> rawArrays[k] == Flatten(antennaData[k])
      {
        var chunks := antennaData[i];
        if chunks != [] {
          rawArrays := rawArrays + [Flatten(chunks)];
        } else {
          rawArrays := rawArrays + [[]];
        }
      }
      assert rawArrays == Flats(antennaData);
      if exists k :: 0 <= k < |rawArrays| && |rawArrays[k]| == 0 {
        return;
      }
      lastAOA := estimate(rawArrays);
    }

    /** The SEARCH_RFX branch of one loop iteration of `Work`, at input position `idx`. */
    method SearchRfxIteration(iq: seq<Complex>, idx: nat) returns (next: nat)
      requires samplesPerAntenna >= 1 && maxAntennas >= 1
      requires Inv(Params(), Snapshot()) && state == SearchRfx && idx < |iq|
      modifies this`state, this`counter, this`totalSampleCounter, this`antennaData
      ensures (Snapshot(), next) == Step(Params(), old(Snapshot()), iq, idx)
    {
      next := idx;
      match FirstHigh(Params(), iq[idx..])
      case None =>
        counter := counter + (|iq| - idx);
        next := |iq|;
      case Some(firstHigh) =>
        counter := counter + firstHigh;
        if counter >= rfxGapThreshold {
          state := CaptureFrame;
          totalSampleCounter := 0;
          ResetArrays();
          next := next + firstHigh;
          counter := 0;
        } else {
          counter := 0;
          next := next + firstHigh + 1;
        }
    }

    /** The CAPTURE_FRAME branch of one loop iteration of `Work`, at input position `idx`. */
    method CaptureFrameIteration(iq: seq<Complex>, idx: nat) returns (next: nat)
      requires samplesPerAntenna >= 1 && maxAntennas >= 1
      requires Inv(Params(), Snapshot()) && state == CaptureFrame && idx < |iq|
      modifies this`state, this`counter, this`totalSampleCounter, this`antennaData, this`lastAOA
      ensures (Snapshot(), next) == Step(Params(), old(Snapshot()), iq, idx)
    {
      next := idx;
      var totalFrameSize := samplesPerAntenna * maxAntennas;
      var remainingInFrame := totalFrameSize - totalSampleCounter;
      var remainingInInput := |iq| - idx;
      var nProcess := Min(remainingInFrame, remainingInInput);
      if nProcess > 0 {
        var chunk := iq[idx..idx + nProcess];
        var startFrameIdx := totalSampleCounter;
        DistributeChunk(chunk, startFrameIdx);
        totalSampleCounter := totalSampleCounter + nProcess;
        next := next + nProcess;
      }
      if totalSampleCounter >= totalFrameSize {
        CalculateAoa();
        state := SearchRfx;
        counter := 0;
      }
    }

    /**
     Processes one buffer. Every output sample is the direction held on entry;
     the call consumes the whole buffer, leaves the fields as `Run` computes
     them, and advances the reference state by exactly the buffer's samples.
     */
    method Work(iq: seq<Complex>, out: array<Complex>) returns (produced: nat)
      requires Valid() && out.Length == |iq|
      requires samplesPerAntenna >= 1 && maxAntennas >= 1
      modifies this, out
      ensures Valid()
      ensures produced == out.Length
      ensures forall k :: 0 <= k < out.Length ==> out[k] == old(lastAOA)
      ensures Snapshot() == Run(Params(), old(Snapshot()), iq, 0)
      ensures model == FeedAll(Params(), old(model), iq)
    {
      ghost var c := Params();
      ghost var s0 := Snapshot();
      ghost var m0 := model;
      var nItems := |iq|;
      forall k | 0 <= k < out.Length {
        out[k] := lastAOA;
      }
      var idx := 0;
      while idx < nItems
        invariant 0 <= idx <= nItems
        invariant Inv(c, Snapshot())
        invariant Run(c, Snapshot(), iq, idx) == Run(c, s0, iq, 0)
        invariant model == m0
        modifies this
        decreases nItems - idx, PhaseRank(state)
      {
        if state == SearchRfx {
          idx := SearchRfxIteration(iq, idx);
        } else {
          idx := CaptureFrameIteration(iq, idx);
        }
      }
      model := FeedAll(c, m0, iq);
      assert iq[0..] == iq;
      RunRefines(c, s0, m0, iq, 0);
      produced := out.Length;
    }
  }
}
