# Switch synchroniser of the gr-aoa block, in Dafny

The `switch_sync` GNU Radio block estimates the angle of arrival of a signal.
An RF switch cycles one receiver through `max_antennas` antennas, dwells
`samples_per_antenna` samples on each, then turns every antenna off for a
while (the "RFX gap"). The block finds that gap in the power of the incoming
samples. Its first high-power sample marks the start of antenna 1. From there
it captures one frame of `samples_per_antenna * max_antennas` samples and sorts
it into one bin per antenna. The first `settling_samp` samples of every slot
are dropped while the switch settles. A completed frame is turned into a
direction estimate, and each output buffer repeats the last estimate.

This project models the block's state machine:

- `SyncModel` gives the state as a value (`BlockState`). `Step` is one
  iteration of the loop in `work`, whether SEARCH_RFX or CAPTURE_FRAME.
  `Run` is a whole call. The module also holds first-high-sample search,
  antenna windows, chunk distribution and the empty-bin guard of the
  direction update.
- `SampleMachine` is a reference machine that handles one sample at a time
  and keeps the captured frame itself instead of bins. `RunRefines` proves
  that the chunked loop refines it. Two consequences come from that proof.
  First, splitting the input between calls changes nothing
  (`SplitCallsAgree`). Second, after a completed frame every antenna's bin is
  exactly its time window of the frame (`CompletedFrameBins`).
- `SwitchSyncBlock` has the block as a class. Its fields `state`, `counter`,
  `totalSampleCounter`, `antennaData` and `lastAOA` are updated in place by
  `Work`, whose loop is proved to compute `Run`. A ghost field tracks the
  reference state.

Samples are complex numbers with exact real parts. A sample is high when
`re*re + im*im >= threshold`. The direction estimate of a completed frame is a
parameter of the block (`estimate`), applied to the concatenated bins.

## Model

| member | source | states |
|---|---|---|
| `SyncModel.FirstHigh` | gr-aoa/python/aoa/switch_sync.py:147-157 | The result is the offset of the first sample at or above the threshold in the remaining input, and nothing earlier is high. It is absent exactly when no sample of the view is high. |
| `SyncModel.Step` | gr-aoa/python/aoa/switch_sync.py:143-203 | One loop iteration keeps one bin per antenna and `total_sample_counter <= frame size`, and keeps it strictly below in CAPTURE_FRAME. `idx` never decreases and never passes `n_items`. It stays put only on a SEARCH_RFX step that has just synced, and the CAPTURE_FRAME step after it then moves forward. |
| `SyncModel.Run` | gr-aoa/python/aoa/switch_sync.py:142-205 | The loop of one call terminates, lexicographically on remaining input and then state, and ends in a well-formed state with no frame overflow. |
| `SyncModel.SearchStepRule` | gr-aoa/python/aoa/switch_sync.py:156-171 | Let `j` be the first high sample. Sync happens iff the carried gap count plus the low samples before `j` reaches `rfx_gap_threshold`. On sync the state is CAPTURE_FRAME, both counters are 0, every bin is empty and `idx` is `j`, so the high sample is not consumed. On a short gap the count resets to 0, the state stays SEARCH_RFX and `idx` is `j + 1`. |
| `SyncModel.QuietCall` | gr-aoa/python/aoa/switch_sync.py:151-154 | A SEARCH_RFX call whose samples are all low changes only the gap count, which grows by the buffer length and so carries into the next call. |
| `SyncModel.CaptureStepRule` | gr-aoa/python/aoa/switch_sync.py:174-203 | A capture step consumes `n = min(remaining_in_frame, remaining_in_input) >= 1` samples, and the frame counter grows by `n` without passing the frame size. The bins gain the chunk's window overlaps. The state returns to SEARCH_RFX, with the gap count at 0, exactly when the frame is full. Otherwise the count and direction are unchanged. If any bin concatenates to nothing, the direction is unchanged. |
| `SampleMachine.FeedAllConcat` | gr-aoa/python/aoa/switch_sync.py:132-205 | The per-sample reference gives the same result on `a + b` as on `a` followed by `b`. |
| `SampleMachine.AppendedWindow` | gr-aoa/python/aoa/switch_sync.py:185-195 | Take a chunk that holds frame positions `[|frame|, |frame| + |chunk|)`. Appending its overlap with window `[i*spa + settle, (i+1)*spa)` to a bin that concatenated to the window's part of `frame` gives a bin that concatenates to the window's part of `frame + chunk`. Pieces are therefore consecutive and in position order. |
| `SampleMachine.CaptureStepRefines` | gr-aoa/python/aoa/switch_sync.py:175-203 | A CAPTURE_FRAME iteration leaves the block matching the reference fed the samples it consumed. This covers bins, counters and, on a closed frame, the direction. |
| `SampleMachine.SearchStepRefines` | gr-aoa/python/aoa/switch_sync.py:146-171 | A SEARCH_RFX iteration leaves the block matching a reference state from which the rest of the input gives the same result as the whole input did before. On sync, that state is the empty frame the high sample is about to enter. |
| `SampleMachine.RunRefines` | gr-aoa/python/aoa/switch_sync.py:142-205 | From matching states, the chunk-by-chunk loop over the input ends matching the reference fed the same samples one at a time. |
| `SampleMachine.SplitCallsAgree` | gr-aoa/python/aoa/switch_sync.py:132-205 | Processing `a` and then `b` in two calls ends in the same state as processing `a + b` in one call. This covers state, gap count, frame counter, direction and every antenna's concatenated bin. |
| `SampleMachine.CompleteWindow` | gr-aoa/python/aoa/switch_sync.py:185-187 | In a full frame, antenna `i`'s window has `max(0, spa - settle)` samples. When `settle < spa` it is exactly frame positions `[i*spa + settle, (i+1)*spa)`. |
| `SampleMachine.CompletedFrameBins` | gr-aoa/python/aoa/switch_sync.py:185-197 | In any block state that matches the reference with a completed frame, each bin has `max(0, spa - settle)` samples. When `settle < spa` it equals exactly its window of the frame, however the frame was split. |
| `SampleMachine.CompletedFrameAoa` | gr-aoa/python/aoa/switch_sync.py:200-216 | Closing a full frame sets the direction to the estimate of the bins exactly when `settle < spa`. Otherwise some bin is empty and the previous direction is kept. |
| `SwitchSyncBlock.SwitchSync.constructor` | gr-aoa/python/aoa/switch_sync.py:95-99 | The initial state is SEARCH_RFX with both counters 0, direction `0+0j` and one empty bin per antenna. The gap threshold is `(3*spa)/4`, which equals `int(spa*0.75)`. |
| `SwitchSyncBlock.SwitchSync.ResetArrays` | gr-aoa/python/aoa/switch_sync.py:129-130 | Afterwards there is exactly one empty bin per antenna. |
| `SwitchSyncBlock.SwitchSync.DistributeChunk` | gr-aoa/python/aoa/switch_sync.py:184-195 | The antenna loop appends to each bin the chunk's overlap with that antenna's window, and leaves bins with no overlap unchanged. |
| `SwitchSyncBlock.SwitchSync.CalculateAoa` | gr-aoa/python/aoa/switch_sync.py:207-216 | Bins are concatenated per antenna. The direction changes to the estimate only when no concatenated bin is empty. |
| `SwitchSyncBlock.SwitchSync.SearchRfxIteration` | gr-aoa/python/aoa/switch_sync.py:146-171 | The SEARCH_RFX branch updates the fields and the position exactly as `Step`. |
| `SwitchSyncBlock.SwitchSync.CaptureFrameIteration` | gr-aoa/python/aoa/switch_sync.py:174-203 | The CAPTURE_FRAME branch updates the fields and the position exactly as `Step`. |
| `SwitchSyncBlock.SwitchSync.Work` | gr-aoa/python/aoa/switch_sync.py:132-205 | Every output sample equals the direction held on entry, so updates made during the call show up only in later calls. The call returns `len(out)` and consumes the whole buffer. The new fields are `Run` of the old ones, and the block still matches the reference, advanced by exactly the buffer. |

## Left out

- `ArduinoSwitcherDriver` (serial port, sleeps, ASCII handshakes, printing) is not modelled. It is hardware I/O.
- GNU Radio block registration, the `stop` hook and the hardware start-up in `__init__` are not modelled. They are framework and foreign calls.
- The antenna angles and the cos/sin/abs vector sum of `calculate_aoa` are not modelled; they are floating-point trigonometry. The block takes that computation as the function parameter `estimate`, applied to the concatenated bins. Only the empty-bin guard in front of it is modelled.
- Floating-point rounding is not modelled. Power is `re*re + im*im` over exact reals.
- `int(sample_rate*dwell_time)` and `int(sample_rate*settling_time)` are not modelled. The model takes `samplesPerAntenna` and `settlingSamp` as natural numbers, so negative durations are not covered.
- The internals of `numpy.flatnonzero` and `numpy.concatenate` are not modelled. They become a first-index search (`FirstHigh`) and sequence concatenation (`Flatten`).
- Work: requires `samplesPerAntenna >= 1` and `maxAntennas >= 1`, and the proof of termination depends on it. With a frame size of 0 the source can loop forever: for example, with `samples_per_antenna == 0` a high sample syncs without being consumed, and the empty frame then closes without consuming it either. Those configurations are not modelled.
- The model does not capture aliasing. The source appends numpy views of the input buffer to the bins, while the model copies chunks as values. If the framework reused that buffer memory after a call, the source's bins could change and the model's would not.
- The repository's pulse-extraction analysis (median filtering, pulse segmentation, guard-band amplitude) is not part of this model. It is not among the files modelled here.
