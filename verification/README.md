# Magic-wand gesture pipeline: a Dafny model

This project models the data path of a motion-gesture classifier.

**Firmware side.** A timer interrupt reads one accelerometer/gyroscope sample from the IMU and pushes it into a circular FIFO. Every 128 samples it signals the processing task. The task then:
- drains one window from the FIFO;
- casts it from `int16` to float;
- runs a third-order Butterworth low-pass filter over each of the six channels;
- min-max normalises the window into [-1, 1];
- for the BMI160 board, remaps the axes;
- either prints the window (data-collection mode) or quantises it into the model's fixed-point input format.

**Training side.** The Python scripts:
- read the printed CSV captures back, split them at the separator rows and cut them into overlapping 128-row windows;
- deal the windows into training, validation and test sets by per-class quotas;
- slice them into stride-one windows labelled with class ids.

Each source component has its own module:
- `Fifo` and `FifoLoops` — `fifo/cy_fifo.c`;
- `Iir` and `Processing` — `source/processing.c`;
- `NnUtils` — `nn/nn_utils.c`;
- `Acquisition` and `Pipeline` — `source/sensor.c`;
- `Gesture` — `source/gesture.c`;
- `DataPrepare`, `DataLoad` and `DataSplit` — the three training scripts.

`Layout` is the row-major indexing `buf[width * row + column]` that every buffer routine shares. `Results`, `Numeric` and `Seqs` are small helpers.

How the C is modelled:
- The FIFO is a value, and every cy_fifo operation is a pure function that returns the new FIFO with its status code.
- The C loops appear as methods proven equal to those functions.
- Floats are reals. Rounding casts are written out with an explicit truncation toward zero (`Numeric.Trunc`).

How the Python is modelled:
- Exceptions become `Failure` values.
- The shuffled example list in `split_data` is an input.

Behaviour of the code that the model keeps on purpose:
- **Filter state.** Both tasks call `iir_filter_init` before every channel of every window (source/sensor.c:248, source/gesture.c:168), so no filter state survives from one window to the next. `Pipeline.PreprocessIgnoresFilterState` proves that the output does not depend on it.
- **FIFO items per sample.** The interrupt handler writes two items per sample, the accelerometer triple and then the gyroscope triple (source/sensor.c:311-312). So a window is 256 items, and the pool holds two windows.
- **Failed sensor read.** The handler asserts on a failed read (source/sensor.c:305-308), which the model treats as a halt.
- **FIFO status codes.** `sensor_task` and the handler ignore the overflow and underflow status codes. The model lets a write that does not fit fail silently, as the code does.
- **Float to fixed-point conversion.** The converters in nn/nn_utils.c take the sign test from the wrong element (see Findings). The sensor task's feed is modelled as written (`Pipeline.FeedAsWritten`); `Pipeline.Feed` is the corrected feed and is related to it.
- **Training data preparation.** The splitter and the window cutter in train/data_prepare.py each have a defect (see Findings). `DataPrepare.PrepareFileAsWritten` models the script as written; `DataPrepare.PrepareFile` is the corrected preparation.

## Model

| member | source | states |
|---|---|---|
| Fifo.StatusCode | fifo/cy_fifo.h:38-42 | only `CY_RSLT_SUCCESS` is code 0; every error status has a non-zero code |
| Fifo.Init | fifo/cy_fifo.c:36-57 | initialisation succeeds exactly when the pool is present and both the item size and the slot count `pool_size / item_size` are non-zero; otherwise it reports BAD_ARG; on success the FIFO is empty, both offsets are 0 and its capacity is the slot count |
| Fifo.PutAll | fifo/cy_fifo.c:65-76 | copying items in at the write offset, wrapping at the capacity, appends exactly those items to the FIFO's logical contents and leaves the read offset alone |
| Fifo.WriteOffsetAdvances | fifo/cy_fifo.c:84-95 | after m items are added, the write offset has moved by m modulo the capacity |
| Fifo.Write | fifo/cy_fifo.c:60-82 | a write succeeds exactly when the free space is at least the item count; it then appends the items to the contents in order; an overflowing write changes nothing |
| Fifo.WriteUpdate | fifo/cy_fifo.c:84-95 | committing `count` items succeeds exactly when they fit; it then advances the write offset by `count` modulo the capacity and grows the count, without touching the pool; otherwise nothing changes |
| Fifo.FillThenWriteUpdateIsWrite | fifo/cy_fifo.c:60-95 | filling the pool and then calling write_update has the same effect as a single write |
| Fifo.TakeAll | fifo/cy_fifo.c:102-113 | taking `count` items returns the oldest `count` items of the contents and leaves the rest, with the write offset unchanged |
| Fifo.Read | fifo/cy_fifo.c:97-119 | a read succeeds exactly when at least `count` items are stored; it returns the oldest `count` items and removes them; an underflowing read returns nothing and changes nothing |
| Fifo.Peek | fifo/cy_fifo.c:121-143 | the k-th copied item is the pool slot k places past the given offset, wrapping at the capacity |
| Fifo.ReadSilent | fifo/cy_fifo.c:121-143 | a silent read succeeds exactly when at least `count` items are stored, and returns the oldest `count` of them |
| Fifo.ReadUpdate | fifo/cy_fifo.c:145-156 | discarding `count` items succeeds exactly when they are stored; it then drops the oldest `count`; otherwise nothing changes |
| Fifo.PeekThenCommitIsRead | fifo/cy_fifo.c:97-156 | read_silent followed by read_update yields the same items, status and FIFO as one read |
| Fifo.IsFull | fifo/cy_fifo.c:158-161 | full means the contents have as many items as the capacity |
| Fifo.IsEmpty | fifo/cy_fifo.c:163-166 | empty means the contents are the empty sequence |
| Fifo.FullIffOneItemOverflows | fifo/cy_fifo.c:60-82 | the FIFO is full exactly when writing one more item reports OVERFLOW |
| Fifo.EmptyIffOneItemUnderflows | fifo/cy_fifo.c:97-119 | the FIFO is empty exactly when reading one item reports UNDERFLOW |
| Fifo.GetCount | fifo/cy_fifo.c:175-178 | the count is the length of the logical contents |
| Fifo.Clear | fifo/cy_fifo.c:168-173 | clearing empties the contents and zeroes both offsets, keeping the pool and the capacity |
| Fifo.SlotIsMod | fifo/cy_fifo.c:88 | the single conditional wrap used by the model equals the source's `% fifo_size` |
| Fifo.WritesThatFitSucceed | fifo/cy_fifo.c:60-82 | a sequence of writes whose total fits in the free space all succeed, and the contents grow by their concatenation |
| Fifo.ReadsReturnBatchesInOrder | fifo/cy_fifo.c:97-119 | reading back batch sizes from a FIFO holding their concatenation returns each batch intact, in order, and empties the FIFO |
| Fifo.WriteThenReadRoundTrip | fifo/cy_fifo.c:60-119 | batches written into an empty FIFO, within capacity, are read back unchanged and in order |
| FifoLoops.CopyIn | fifo/cy_fifo.c:65-76 | the element-by-element copy loop of cy_fifo_write produces the FIFO described by `Fifo.PutAll` |
| FifoLoops.WriteCopy | fifo/cy_fifo.c:60-82 | the loop version of cy_fifo_write returns the same FIFO and status as `Fifo.Write` |
| FifoLoops.CopyOut | fifo/cy_fifo.c:102-113 | the copy-out loop of cy_fifo_read yields the FIFO and items of `Fifo.TakeAll` |
| FifoLoops.ReadCopy | fifo/cy_fifo.c:97-119 | the loop version of cy_fifo_read returns the same FIFO, items and status as `Fifo.Read` |
| FifoLoops.PeekCopy | fifo/cy_fifo.c:126-140 | the copy loop of cy_fifo_read_silent yields the items `Fifo.Peek` describes |
| FifoLoops.ReadSilentCopy | fifo/cy_fifo.c:121-143 | the loop version of cy_fifo_read_silent returns the same items and status as `Fifo.ReadSilent` |
| Iir.Init | source/processing.c:66-87 | an order of MAX_STATES (10) or more is rejected with -1, leaving the delay lines as they were; otherwise the delay lines are zeroed up to the order, entries above it are kept, and the code is 0 |
| Iir.InitLoop | source/processing.c:66-87 | the clearing loop of iir_filter_init computes `Iir.Init` |
| Iir.Step | source/processing.c:115-133 | one sample pushes the input onto the input delay line and the output onto the output delay line, shifting the older taps up by one and keeping the entries above the order; the coefficients and order do not change |
| Iir.StepLoop | source/processing.c:115-133 | the accumulate-and-shift loops for one sample compute `Iir.Step` |
| Iir.AccumulateLoop | source/processing.c:117-124 | the accumulation loop sums `b[0]` times the input plus, for every tap up to the order, `b[j]` times the input delayed by j minus `a[j]` times the output delayed by j |
| Iir.ShiftLoop | source/processing.c:127-132 | the shift loop moves every delay-line entry up to the order one place along |
| Iir.FilterSeqRemembers | source/processing.c:105-134 | after filtering from a cleared state, the delay lines hold exactly the most recent inputs and outputs, zero-padded before the start |
| Iir.DifferenceEquation | source/processing.c:105-134 | every output of a filter started from cleared state satisfies the direct-form difference equation `y[i] = b0 x[i] + sum over j of (b_j x[i-j] - a_j y[i-j])`, with samples before the start read as zero |
| Iir.OutputDependsOnlyOnHistory | source/processing.c:105-134 | two states with the same coefficients and the same delay-line taps up to the order produce the same outputs on every input |
| Iir.InitForgetsPriorState | source/processing.c:66-87 | after iir_filter_init, the outputs on any input no longer depend on what the state held before |
| Iir.ZeroInZeroOut | source/processing.c:105-134 | a cleared filter fed zeros outputs zeros and stays cleared |
| Iir.ButterworthTables | source/processing.h:67-68 | the Butterworth coefficient tables have order + 1 entries, `a0 = 1`, symmetric numerator taps, and equal numerator and denominator sums, so the DC gain is 1; initialising with them succeeds |
| Iir.ButterworthUnityDcGain | source/processing.h:67-68 | a Butterworth filter settled on a constant input outputs that constant and stays settled |
| Iir.ButterworthPassesConstant | source/processing.h:67-68 | a settled Butterworth filter passes a constant run of any length through unchanged |
| Iir.FilterColumnFrame | source/processing.c:105-134 | filtering one column writes only the entries of that column |
| Iir.FilterColumnOtherColumns | source/processing.c:105-134 | every other channel of the window is left untouched |
| Iir.FilterColumnIsFilterSeq | source/processing.c:105-134 | filtering a strided column in place gives the same state and the same outputs as filtering the column extracted as a sequence |
| Iir.FilterColumnLoop | source/processing.c:105-134 | the sample loop of iir_filter computes `Iir.FilterColumn` |
| Processing.Normalize | source/processing.c:166-180 | values above the sensor maximum clamp to 1; values below the sensor minimum clamp to -1 |
| Processing.NormalizeInRange | source/processing.c:151-186 | for a proper range, every normalised value lies in [-1, 1] |
| Processing.NormalizeLandmarks | source/processing.c:157-180 | the maximum maps to 1, the minimum to -1 and the midpoint to 0 |
| Processing.NormalizeMonotone | source/processing.c:151-186 | normalisation preserves order |
| Processing.NormalizeRoundTrip | source/processing.c:157-180 | the affine map inside the range is invertible: denormalising a normalised in-range value gives it back |
| Processing.SensorRangeIsDivision | source/sensor.c:92-93 | with the sensor range ±32768, normalisation is division by 32768 |
| Processing.NormalizeBuffer | source/processing.c:151-186 | every cell of the `length` × `dimension` window is normalised in place, and entries past the window are unchanged |
| Processing.NormalizeBufferInRange | source/processing.c:151-186 | after normalisation every entry of the window lies in [-1, 1] |
| Processing.NormalizeLoop | source/processing.c:151-186 | the nested row and column loops, with a counter as wide as the dimension, compute `Processing.NormalizeBuffer` |
| Processing.ColumnWalk8NeverExits | source/processing.c:154-184 | with the `uint8_t` column counter and a dimension of 256 or more, the inner loop never exits (finding below) |
| Processing.ColumnWalk8VisitsAll | source/processing.c:154-184 | for dimensions below 256, the `uint8_t` column counter visits every column exactly once in order, so the source is correct there |
| Processing.CastInt16ToFloat | source/processing.c:200-210 | the first `length` entries become the exact real value of each `int16`; the rest of the float buffer is unchanged |
| Processing.ColumnSwapMoves | source/processing.c:226-240 | in every row the two named columns exchange values, the other columns keep theirs, and entries past the window are unchanged |
| Processing.ColumnInverseNegates | source/processing.c:255-266 | in every row the named column is negated, the other columns keep their values, and entries past the window are unchanged |
| Processing.ColumnSwapInvolution | source/processing.c:226-240 | swapping the same two columns twice restores the buffer |
| Processing.ColumnInverseInvolution | source/processing.c:255-266 | negating the same column twice restores the buffer |
| NnUtils.FindMaxIndexFlt | nn/nn_utils.c:57-91 | the returned index holds the largest value, and no earlier index holds a value that large (the first maximum wins) |
| NnUtils.FindMaxIndexInt | nn/nn_utils.c:106-140 | the same first-maximum property for integer scores |
| NnUtils.FirstMaxIsUnique | nn/nn_utils.c:57-91 | the first-maximum index is unique, so the answer is determined by the scores |
| NnUtils.SingleElementAnswersZero | nn/nn_utils.c:57-91 | a single score gives index 0 |
| NnUtils.ConvertInt16ToFlt | nn/nn_utils.c:156-170 | each output times 2^q equals its input, so it is the Q-format value of that input |
| NnUtils.ConvertInt8ToFlt | nn/nn_utils.c:186-200 | the same for `int8` inputs |
| NnUtils.Quantize | nn/nn_utils.c:216-233 | the result is within one half of `v * scale`; it rounds half away from zero, up for non-negative values and down for negative ones |
| NnUtils.QuantizeIsOdd | nn/nn_utils.c:216-233 | rounding half away from zero is symmetric: negating the input negates the result |
| NnUtils.QuantizeInRange | source/sensor.c:95-102 | a value in [-1, 1] quantised at scale n lands in [-n, n], so the 32767 and 127 scales never leave `int16`/`int8` |
| NnUtils.ConvertFltToInt16 | nn/nn_utils.c:216-233 | corrected converter (sign test on the element itself): every output is the input scaled and rounded half away from zero, within one half of the exact product |
| NnUtils.ConvertFltToInt8 | nn/nn_utils.c:249-266 | corrected converter: the same for `int8` outputs |
| NnUtils.Int16RoundTrip | nn/nn_utils.c:156-233 | with the corrected converter, converting `int16` values to Q-format floats and back at scale 2^q returns them unchanged |
| NnUtils.Int8RoundTrip | nn/nn_utils.c:186-266 | with the corrected converter, the same round trip for `int8` values |
| NnUtils.UnitRangeFitsInt16 | source/sensor.c:257-261 | normalised data converted at scale 32767 stays within `int16` |
| NnUtils.UnitRangeFitsInt8 | source/sensor.c:262-266 | normalised data converted at scale 127 stays within `int8` |
| NnUtils.ConvertAsWritten | nn/nn_utils.c:216-233 | the loop as written rounds element k using the sign of element 2k (finding below) |
| NnUtils.AsWrittenInRange | nn/nn_utils.c:216-233 | on values in [-1, 1] at a whole scale n, the as-written results stay in [-n, n] and within 1.5 of the exact product, so the narrowing casts at 32767 and 127 never overflow |
| NnUtils.AsWrittenAgreesOnOneSign | nn/nn_utils.c:216-233 | when every value read, including those past the end, is non-negative, the as-written loop matches correct rounding |
| NnUtils.AsWrittenMisroundsMixedSigns | nn/nn_utils.c:216-233 | on `[0.3, -0.4, 0.2]` at scale 127 the as-written loop gives -50 for the second element where correct rounding gives -51 |
| Acquisition.Geometry | source/sensor.c:79-89 | a sample is 12 bytes, a FIFO item (one axis triple) 6 bytes; the pool holds 512 items, exactly two windows of 256; the timer period is 781 ticks |
| Acquisition.WindowRows | source/sensor.c:240-242 | read back as `int16` triples, the FIFO items of a batch form a row-major 128 × 6 window whose row i is accel x, y, z then gyro x, y, z of reading i |
| Acquisition.Start | source/sensor.c:170 | the sensor FIFO initialises successfully with room for two windows, empty, with the batch counter at 0 |
| Acquisition.Tick | source/sensor.c:296-324 | a failed read halts the handler; a successful one writes the accelerometer then the gyroscope triple, each write failing silently when full, and advances the batch counter, resetting it and setting the event at 128 |
| Acquisition.CounterStaysBelowBatch | source/sensor.c:315-323 | the batch counter stays below 128 over any run of ticks |
| Acquisition.TicksFill | source/sensor.c:296-324 | n successful ticks from a zero counter, with room for them, append exactly the 2n items of those readings in order; the event is pending afterwards exactly when it was before or n reaches 128 |
| Acquisition.OneFreeSlotSplitsReading | source/sensor.c:311-312 | with a single free slot, a reading's accelerometer triple is stored and its gyroscope triple is lost, leaving the FIFO full (a state only an interrupt inside the task's read loop reaches) |
| Acquisition.SecondBatchFits | source/sensor.c:85 | while at most one window waits, whether or not its event is still pending, a whole second batch of 128 readings still fits and leaves the event pending |
| Acquisition.TwoBatchesFromStart | source/sensor.c:84-85 | two batches from start-up with no drain between them fill the FIFO exactly, in order |
| Acquisition.Run | source/sensor.c:241-324 | a run of whole interrupts and whole window reads keeps the FIFO valid and its shape unchanged |
| Acquisition.RunKeepsEvenCount | source/sensor.c:241-312 | with an even capacity, whole interrupts (two items or none) and whole window reads (256 items or none) keep the item count even |
| Acquisition.RunNeverLeavesOneSlot | source/sensor.c:84-85 | from start-up, such a run never leaves exactly one free slot |
| Acquisition.Drain | source/sensor.c:241 | with at least a window's worth of items stored, the window read is exactly the oldest 256 items' samples and they are removed; otherwise the FIFO and the stale window are kept |
| Acquisition.BatchThenDrain | source/sensor.c:241-242 | 128 readings ticked in from start and then drained give back exactly those readings' rows and leave the FIFO empty |
| Pipeline.SmoothedFromAnyState | source/sensor.c:245-251 | a Butterworth filter re-initialised from any prior state produces the same smoothed channel |
| Pipeline.FilterChannelsSeparately | source/sensor.c:245-251 | after the channel loop, each channel already visited holds the Butterworth-smoothed version of that channel of the input, and later channels are unchanged |
| Pipeline.Preprocess | source/sensor.c:242-254 | the cast, filter and normalise steps keep the window size and leave every value in [-1, 1] |
| Pipeline.PreprocessPerChannel | source/sensor.c:242-254 | each entry of the preprocessed window is the normalised value of its smoothed channel at that row |
| Pipeline.PreprocessIgnoresFilterState | source/sensor.c:245-251 | the preprocessed window does not depend on the filter state left by earlier windows |
| Pipeline.Feed | source/sensor.c:257-277 | corrected feed: int16 builds feed Q15 values, each the normalised value rounded half away from zero at scale 32767; int8 builds feed Q7 values rounded at scale 127; float builds feed the normalised data itself |
| Pipeline.FeedAsWritten | source/sensor.c:257-277 | the feed as written: Q15 values at scale 32767 or Q7 at 127, value k rounded with the sign of element 2k of the memory from the buffer on, each within 1.5 of the exact product and in range; float builds feed the data itself |
| Pipeline.FeedAsWrittenAgreesOnOneSign | source/sensor.c:257-266 | when every value the converter reads has one sign, the as-written feed equals the corrected one |
| Pipeline.FeedAsWrittenMisrounds | source/sensor.c:262-266 | a mixed-sign window on the int8 build makes the two feeds differ (-50 against -51) |
| Pipeline.FullScaleReadsBackShort | source/sensor.c:95-97 | a full-scale 1.0 quantises to 32767, which Q15 reads back as 32767/32768 |
| Pipeline.TaskStep | source/sensor.c:213-281 | one task iteration removes exactly one window from the FIFO when a window is stored and feeds the model the preprocessed drained window, converted as written |
| Pipeline.BatchReachesModel | source/sensor.c:213-324 | the 128 readings of one batch are exactly what the model is fed after preprocessing and the as-written conversion, and the FIFO is left empty |
| Gesture.QFormat | source/gesture.c:65-70 | fixed-point builds set 15 fractional bits for 16-bit input and 7 for 8-bit; float builds set none |
| Gesture.QFormatAgreesWithFeed | source/gesture.c:109-112 | the Q format gesture.c declares is the one the sensor task's converter produces |
| Gesture.OrientedTwice | source/gesture.c:176-182 | the BMI160 axis remap of one row is an involution |
| Gesture.BmiRemapOrients | source/gesture.c:176-182 | the four column operations send each row through the orientation map: x and y swapped, z negated, and the same for the gyroscope; entries past the window are kept |
| Gesture.BmiRemapInvolution | source/gesture.c:176-182 | applying the remap twice restores the window |
| Gesture.BmiRemapInRange | source/gesture.c:176-182 | the remap keeps normalised data in [-1, 1] |
| Gesture.CollectionLines | source/gesture.c:184-196 | collection mode prints one separator row and then one six-value line per window row, holding that row's values |
| Gesture.CaptureIsFramed | source/gesture.c:184-196 | a capture of several windows is the separator-framed concatenation the training reader expects |
| Gesture.CaptureSplitsIntoWindows | train/data_prepare.py:104-117 | reading a device capture back splits it into exactly the windows the device printed |
| Gesture.PassOf | source/gesture.c:184-213 | collection mode prints, a float build feeds the data directly, and a fixed-point build quantises with the build's Q format |
| Gesture.PassOfInRange | source/gesture.c:184-213 | printed lines carry only values in [-1, 1], and the data passed on for quantising or feeding is the conditioned window itself |
| Gesture.GestureTask | source/gesture.c:133-217 | the task keeps the filter usable, prints exactly in collection mode, feeds floats exactly in float builds and otherwise quantises with the declared Q format |
| Gesture.GestureTaskInRange | source/gesture.c:162-196 | every value the task prints or hands on lies in [-1, 1] |
| Gesture.GestureTaskIgnoresFilterState | source/gesture.c:165-171 | the task's output does not depend on the filter state left by earlier windows |
| Gesture.GestureTaskMatchesSensorTask | source/gesture.c:159-213 | without the remap, the gesture task hands on the data the sensor task preprocesses and converts for the same window |
| Gesture.OrientedWindowRows | source/gesture.c:162-182 | each row of the conditioned window is the preprocessed row, passed through the orientation map when the BMI160 remap is on |
| DataPrepare.Floats | train/data_prepare.py:115 | a line converts exactly when all six cells are numbers, and yields their values in order; otherwise `float()` raises |
| DataPrepare.ReadRow | train/data_prepare.py:104-115 | lines that are not six cells wide are skipped; a separator closes a non-empty recording and is ignored otherwise; a value line is appended to the current recording |
| DataPrepare.ReadRowsAppends | train/data_prepare.py:114-115 | reading a block of value lines appends exactly those rows to the current recording |
| DataPrepare.ReadValueRow | train/data_prepare.py:114-115 | one value line appends its row |
| DataPrepare.ReadFramed | train/data_prepare.py:104-117 | reading separator-framed recordings closes every recording but the last, which stays open |
| DataPrepare.SplitRecordingsAsWritten | train/data_prepare.py:104-117 | the reader as written always appends the open recording at the end, giving one more recording than it closed |
| DataPrepare.SplitRecordings | train/data_prepare.py:104-117 | corrected splitter (empty final recording dropped): the recordings split from a file are never empty and all have six-value rows |
| DataPrepare.SplitFramedRoundTrip | train/data_prepare.py:104-117 | the corrected splitter returns exactly the recordings that were framed |
| DataPrepare.SplitAsWrittenFramedRoundTrip | train/data_prepare.py:104-117 | the splitter as written also returns exactly the framed recordings when the file does not end with a separator |
| DataPrepare.TrailingSeparatorLeavesEmptyRecording | train/data_prepare.py:117 | with a trailing separator, the code as written yields an extra empty recording and the corrected reader does not |
| DataPrepare.Stack | train/data_prepare.py:167-176 | stacking either gives the concatenation of the recordings' rows or fails with a shape mismatch |
| DataPrepare.StackSucceeds | train/data_prepare.py:167-178 | stacking succeeds exactly when no empty recording follows one that holds rows (`np.vstack` of an empty array onto a 6-column one raises) |
| DataPrepare.Stride | train/data_prepare.py:147 | the window stride is `int(window_size * overlap)`, the truncation of the product |
| DataPrepare.DefaultStride | train/data_prepare.py:306 | the default overlap 0.2 gives a stride of 25 rows |
| DataPrepare.RangeShape | train/data_prepare.py:147 | Python's `range(start, stop, step)` yields `start + k*step` for each k while below `stop`, and stops at the first value that reaches `stop` |
| DataPrepare.SegmentsAsWrittenShape | train/data_prepare.py:134-156 | the code as written cuts windows starting at every multiple of the stride strictly below `len - 128`, each a contiguous 128-row slice |
| DataPrepare.SegmentsShape | train/data_prepare.py:134-156 | the corrected segmenter cuts a window at every multiple of the stride up to and including `len - 128`, each a contiguous 128-row slice |
| DataPrepare.LastWindowDropped | train/data_prepare.py:147 | a recording of exactly 128 rows gives no window as written and one window corrected |
| DataPrepare.PrepareFileAsWritten | train/data_prepare.py:83-132 | the script as written: every example produced from a file carries that file's gesture and name and a 128-row window |
| DataPrepare.SegmentsAsWrittenWidth | train/data_prepare.py:146-150 | every window the as-written cutter produces has exactly the window size in rows |
| DataPrepare.PrepareFile | train/data_prepare.py:83-132 | corrected preparation: every example produced from a file carries that file's gesture and name and a 128-row window |
| DataPrepare.PrepareCapture | train/data_prepare.py:83-132 | with the corrections, a well-formed capture always prepares, and example k is window k of its stacked rows, labelled with the file's class and name |
| DataPrepare.PrepareCaptureAsWritten | train/data_prepare.py:83-150 | as written, a well-formed capture with no trailing separator prepares, example k is window k that the exclusive bound cuts from its stacked rows, labelled with the file's class and name, and a capture of at most 128 rows gives none |
| DataPrepare.ShortRowsHaveNoWindows | train/data_prepare.py:146-147 | as written, at most 128 rows give no window at all |
| DataPrepare.CollectedFileRaises | train/data_prepare.py:104-178 | a capture ending in a separator line, as the capture script writes it, fails with a shape mismatch as written and prepares with the corrections |
| DataPrepare.TrailingSeparatorRaises | train/data_prepare.py:117-178 | a trailing separator makes the code as written fail at stacking, while the corrected reader prepares the file |
| DataLoad.FirstNegative | train/data_load.py:120-124 | finds the first "negative" among the first four class names, or reports that there is none |
| DataLoad.ReorderShape | train/data_load.py:118-124 | the reorder moves the first "negative" within the first four names to the end, keeps the list otherwise, fails with IndexError when the list is shorter than four and has no early "negative", and is always a permutation |
| DataLoad.LabelIds | train/data_load.py:126 | the id map exists exactly when there are at least four class names; its keys are the first four names and its ids lie in 0..3 |
| DataLoad.IdsByPosition | train/data_load.py:126 | with distinct class names, the k-th name gets id k |
| DataLoad.TrainingIdsMoveNegativeLast | train/data_load.py:118-126 | in training, names before "negative" keep their position as id, those after it shift down by one, and "negative" gets id 3 exactly when there are four classes |
| DataLoad.NegativeId | train/data_load.py:118-126 | "negative" has id 3 with exactly four classes and no id with more |
| DataLoad.OrderedIds | train/data_load.py:118-126 | the training ids are the positional ids of the reordered list |
| DataLoad.IdsAgreeWhenReorderIsIdentity | train/data_load.py:126-165 | when "negative" is missing or already last, the training and visualisation id maps coincide |
| DataLoad.IdsDisagreeWhenNegativeEarly | train/data_load.py:126-165 | when "negative" comes before the last of the four classes, the class after it gets different ids in training and visualisation |
| DataLoad.IdsAgreeExactlyWhenReorderIsIdentity | train/data_load.py:120-165 | for distinct names, the training and visualisation id maps are equal exactly when "negative" is missing from the first four or already last |
| DataLoad.Width | train/data_load.py:132-137 | a record's feature width exists exactly when it is non-empty and rectangular; for an empty record, `shape[1]` raises |
| DataLoad.Windows | train/data_load.py:139-143 | a record of n rows gives `n - L + 1` windows of length L (none when it is shorter), window i being rows i to i + L |
| DataLoad.WindowsAreStrideOneSegments | train/data_load.py:139 | the loader's windows are the corrected segmenter's output at stride 1 |
| DataLoad.Slice | train/data_load.py:131-145 | a successful pass produces one example per window across all records, each of length L and labelled with an id from the map |
| DataLoad.SliceSucceeds | train/data_load.py:131-143 | the record loop completes exactly when every record is six columns wide and every record long enough for a window has a known class |
| DataLoad.StepSucceeds | train/data_load.py:131-143 | one record step succeeds exactly when the earlier ones did and this record is accepted |
| DataLoad.SliceOne | train/data_load.py:139-143 | one accepted record gives its windows in order, each labelled with its class id |
| DataLoad.SliceConcat | train/data_load.py:131-145 | slicing two record lists in turn is slicing their concatenation |
| DataLoad.Format | train/data_load.py:106-149 | a successful format returns the window count with as many examples, each with an id in 0..3; fewer than four classes always raise IndexError, whether or not "negative" was moved |
| DataLoad.FormatVis | train/data_load.py:151-185 | a successful visualisation format gives one example per window with ids in 0..3; fewer than four classes raise IndexError |
| DataLoad.FormatAgreesWithVis | train/data_load.py:106-185 | when the reorder is the identity, both formats succeed or fail together and label the same windows identically |
| DataSplit.Keys | train/data_split.py:93 | the class table exists exactly when there are at least four gestures, and holds exactly the first four |
| DataSplit.QuotaBounds | train/data_split.py:100-104 | a quota is the truncation of ratio × count: non-negative, at most the product and within 1 below it |
| DataSplit.Quotas | train/data_split.py:100-104 | every listed class gets the quota of its own count, and no other class gets one |
| DataSplit.SplitData | train/data_split.py:79-121 | the split succeeds exactly when at least four gestures are named |
| DataSplit.DestinationOf | train/data_split.py:107-117 | an example is dropped exactly when its gesture is not one of the four classes |
| DataSplit.CountersStep | train/data_split.py:110-117 | an example goes to training exactly while its class's training quota is left, then to validation while that quota is left, then to test; each choice uses up exactly the counter it consumed |
| DataSplit.DealAllByRank | train/data_split.py:107-117 | the deal loop's three lists are the order-preserving selections by each example's rank within its class |
| DataSplit.SelectCounts | train/data_split.py:107-117 | each set receives, for every class, the share its rank rule assigns |
| DataSplit.SelectPartitions | train/data_split.py:107-117 | the three sets together are a permutation of the examples of the listed classes |
| DataSplit.SelectKeepsOrder | train/data_split.py:107-117 | each set keeps the examples in the (shuffled) input order |
| DataSplit.SplitDataSelects | train/data_split.py:79-121 | the split's three lists are the three rank selections under the computed quotas |
| DataSplit.SplitDataPartitions | train/data_split.py:79-121 | training, validation and test are a partition of the listed-class examples, each a subsequence of the input |
| DataSplit.SplitDataCounts | train/data_split.py:79-121 | a class with n examples and quotas t and v puts `min(n, t)` in training, `min(n - t, v)` (floored at 0) in validation and the rest in test; unlisted classes appear nowhere |
| DataSplit.SelectShares | train/data_split.py:107-117 | per-class set sizes follow from the class count and its two quotas |
| DataSplit.DefaultRatios | train/data_split.py:100-104 | with ratios 0.6 and 0.2 the quotas never exceed the class count, so both are filled exactly and test gets the remainder |

## Left out

- Hardware and operating system: the IMU driver and its I2C/SPI transport, the timer, the RTOS event and task loop, and the LED/console control (`source/control.c`, `source/main.c`). The sensor reading arrives as a parameter (`Option<Reading>`), with `None` standing for a failed read.
- Pipeline.TaskStep: the wait on the RTOS event is not modelled. The step takes a window whenever one is stored, which is what the event promises under the counter discipline.
- Pipeline.Feed: uses the corrected converters, not the firmware's. The firmware's feed is `Pipeline.FeedAsWritten`, and `Pipeline.FeedAsWrittenAgreesOnOneSign` says when the two agree.
- NnUtils.ConvertFltToInt16: tests the sign of the element being converted, not that of element 2k as nn/nn_utils.c:223 does. The as-written loop is `NnUtils.ConvertAsWritten`.
- NnUtils.ConvertFltToInt8: the same correction as ConvertFltToInt16, for nn/nn_utils.c:256.
- NnUtils.Int16RoundTrip: holds for the corrected converter. As written, the round trip can fail on mixed-sign values (`NnUtils.AsWrittenMisroundsMixedSigns`).
- NnUtils.Int8RoundTrip: the same as Int16RoundTrip, for `int8` values.
- DataPrepare.SplitRecordings: drops an empty final recording, which train/data_prepare.py:117 keeps. The as-written splitter is `DataPrepare.SplitRecordingsAsWritten`.
- DataPrepare.PrepareFile: uses the corrected splitter and window bound. The script as written is `DataPrepare.PrepareFileAsWritten`, which raises on every file that ends with a separator line (`DataPrepare.CollectedFileRaises`).
- DataPrepare.PrepareCapture: gives the corrected windows. The as-written examples are in `DataPrepare.PrepareCaptureAsWritten`.
- Acquisition.OneFreeSlotSplitsReading: its state is reachable only when the interrupt preempts `cy_fifo_read` between items (fifo/cy_fifo.c:100-112). `Acquisition.Run` treats every interrupt and every read as atomic, and then the state never occurs (`Acquisition.RunNeverLeavesOneSlot`).
- `sensor_get_data` is not part of this model. `Gesture.GestureTask` takes the drained window as a parameter.
- The machine-learning library: `mtb_ml_utils_model_quantize`, `mtb_ml_model_run`, `nn_feed` and inference itself (source/gesture.c:199-213, source/sensor.c:269-277, `nn/nn.c`). The model stops at the data handed to them.
- Gesture.PassOf: does not model the library's quantiser, only the Q format it is given, because its code is not part of this model.
- Floating point is modelled with reals. Single-precision rounding in the filter, normalisation and conversions is not modelled, so the exact-equality results (unity DC gain, round trips) hold for the real-number semantics only.
- Processing.NormalizeLoop: models the evidently intended counter as wide as the dimension. The `uint8_t` behaviour is modelled separately by `Processing.ColumnWalk8`.
- Integer widths of the lengths and indices (`uint16_t` lengths, `uint32_t` FIFO counters) are unbounded. All sizes used by the firmware are far below those limits.
- Fifo.Init: on the capacity-zero path the source writes `fifo_size = 0` into the object before returning BAD_ARG. The model returns only the error, since the object is unusable either way.
- Iir.Init: does not model reading coefficient arrays shorter than the order, which is undefined behaviour in C. The coefficients are sequences, and `Steppable` requires them to be long enough.
- `printf` formatting (`%6f`) is abstracted. A printed value is read back as the same real, so six-decimal rounding is not modelled.
- CSV parsing, file listing (`os.listdir`, `get_files`) and JSON/TensorFlow dataset I/O are left out. Lines arrive as cells, class names arrive as a list in directory order, and datasets are lists of examples.
- `random.seed(30)` / `random.shuffle` in `split_data`: the shuffled list is an input, because the permutation is a library detail. The results are stated for any order.
- DataLoad.Format: models one call of `format_support_func`. `format` applies it to the three splits independently.
- The training loop, model definition, calibration and collection scripts are left out (`train/train.py`, `train/calibration.py`, `train/collect.py`). So is `nn/nn.c`.

## Findings

| source | as written | input that shows it | evidently intended | confidence | as-written member | corrected member |
|---|---|---|---|---|---|---|
| source/processing.c:154 | the column counter is `uint8_t` while the dimension is `uint16_t`, so `dimension > cur_col` stays true forever once the dimension is 256 or more | `normalization_min_max(buf, 1, 256, ...)` | a column counter as wide as the dimension | latent (the firmware uses dimension 6); not executed | Processing.ColumnWalk8NeverExits | Processing.NormalizeLoop |
| nn/nn_utils.c:223 | the sign test reads `in[blk_cnt]` after `in` has already advanced `blk_cnt` places, so element k is rounded using the sign of element 2k (past the end for k ≥ len/2) | `[0.3, -0.4, 0.2]` at scale 127 rounds the middle value to -50 instead of -51 | test the sign of the element being converted | high for mixed-sign windows such as the sensor task's; not executed | Pipeline.FeedAsWrittenMisrounds | NnUtils.Int16RoundTrip |
| train/data_prepare.py:147 | `range(0, len(signal) - window_size, step)` excludes the window that starts at `len - 128`, so a recording of exactly 128 rows yields no window | a 128-row capture | inclusive bound, as in the loader's `range(0, n - L + 1)` | medium; not executed | DataPrepare.LastWindowDropped | DataPrepare.SegmentsShape |
| train/data_prepare.py:117 | the open recording is appended even when it is empty, so a capture ending in a separator line gives an empty final recording and stacking fails | framed recordings followed by `-,-,-,-,-,-` | append only non-empty recordings | medium; not executed | DataPrepare.CollectedFileRaises | DataPrepare.PrepareFile |
