# Tarsos audio pipeline core, modelled in Dafny

Tarsos is a toolkit for analysing the pitch organisation of music. This
project models the core around its audio pipeline:

- **`RealTime`** (`realtime_audio_processor.dfy`): the real-time streaming loop.
  - It reads fixed-size byte chunks into a reused buffer.
  - For each chunk it writes the whole buffer to the output line, then hands the converted samples to every registered processor in registration order.
  - At end of stream it tells every processor that processing has finished, then closes the line.
  - Its effects are recorded as a trace of `Write`, `Process(i, …)`, `Finish(i)` and `Close` events.
- **`Playback`** (`blocking_audio_player.dfy`): the blocking audio player.
  - It turns window and overlap sizes in frames into byte offsets.
  - It plays the first window whole and only the new part of every later window.
  - The line is modelled as a log of the bytes it emitted, plus drained and closed flags.
- **`Power`** (`signal_power_extractor.dfy`): the signal power extractor.
  - It computes the energy (sum of squares) of every 0.1-second window, stores it by window index, and keeps a running minimum and maximum.
  - It extracts lazily, on the first read-out.
  - A read-out is either relative to the extremes or linear power.
- **`FileUtils`** (`file_utils.dfy`): the file-name and CSV string utilities.
  - Extension, base name and directory of a path, and sanitised file names.
  - Reading one column of CSV rows, and the row-length check of the CSV reader.
  - The tab-separated export format.
- **`AudioFiles`** (`audio_file.dfy`): audio files.
  - The name of the transcoded copy of a file.
  - The constructor's conditional request to transcode.
  - The listing of the audio files of several data sets.
- **`Ambitus`** (`ambitus_histogram.dfy`): the ambitus histogram.
  - One tone-scale histogram per octave; values are routed to their octave.
  - Octaves are ordered by the number of values they hold (a stable sort).
  - The richest octaves, or all of them, are merged into one tone-scale histogram.
- **`Midi`** (`transmitter_sink.dfy`): the MIDI transmitter sink, which fans closing and receiver connection out to a fixed list of transmitters.

`Outcomes` (Option and Result), `Streams` (the outcomes of successive reads
of an input stream into a reused buffer) and `Casts` (Java's `Math.ceil` and
`(int)` cast on reals) are shared helpers.

Reads from audio inputs, and the `readLine` calls of the CSV reader, are
given as a sequence of outcomes:
- a chunk of data, possibly shorter than the buffer (for the CSV reader, one line already split at the separator);
- the end of the stream;
- an `IOException`.

A short read refills only the front of the reused buffer and leaves the rest
stale. The sample conversion, the `combine` path join, the directory listing
(`glob`) and the transcoder's decision are functions passed in by the caller.
Configuration values are parameters.

Where the code's own documentation and the code disagree, the model follows
the code:
- **Relative read-out with equal extremes.** The javadoc of `powerAt` (SignalPowerExtractor.java:81) promises a relative power in [0.0; 1.0]. When the minimum and maximum power are equal, the code divides by zero. `Power.Divide` models the resulting NaN or infinity, and `Power.RelativeReadOutRange` shows that no finite value comes out.
- **Slots after the last window.** The power array has one slot more than there are whole windows, and `extractPower` leaves the slots no window reaches at 0. When every window had some energy, such a slot reads out below 0, against the same [0.0; 1.0] promise (`Power.UnfilledSlotReadsOutBelowZero`).
- **Values outside the ambitus.** The class comment of `AmbitusHistogram` (AmbitusHistogram.java:25) says that values outside the defined range are ignored. `add` routes a value to octave `(int)(value / 1200)`, whatever the configured start. It raises `IndexOutOfBounds` for a value at or above 1200 times the number of octaves, and for a value at or below -1200. A value strictly between -1200 and 0 goes into octave 0 (`Ambitus.OctaveIndex`, `Ambitus.AmbitusHistogram.Add`).

Other behaviour of the code that the model keeps:
- **Overlap is not validated.** The player's constructor accepts any overlap. An overlap outside `0..bufferSize` surfaces as the line's own write failure (`Playback.OverlappingWriteOnWindow`).
- **Short reads.** Every chunk read, short or not, writes and processes the whole buffer, with stale data after the bytes actually read. The same holds for the power windows.
- **`IOException` during streaming.** It ends the loop without finishing the processors or closing the line.
- **Too many power windows.** `extractPower` does not check that the windows fit the power array. A longer stream raises `ArrayIndexOutOfBounds` after the bounds have taken in the extra window.

## Model

| member | source | states |
|---|---|---|
| RealTime.ByteBufferHoldsWholeSamples | src/be/hogent/tarsos/util/RealTimeAudioProcessor.java:105 | the byte buffer is `floats * bits / 8` long, which is `floats` whole samples when the sample size is a whole number of bytes |
| RealTime.RealTimeAudioProcessor.constructor | src/be/hogent/tarsos/util/RealTimeAudioProcessor.java:75-87 | keeps the buffer size and sample size; no processors registered, nothing emitted |
| RealTime.RealTimeAudioProcessor.AddAudioProcessor | src/be/hogent/tarsos/util/RealTimeAudioProcessor.java:93-96 | appends the processor at the end, keeping earlier registrations and their order; emits nothing |
| RealTime.RealTimeAudioProcessor.Run | src/be/hogent/tarsos/util/RealTimeAudioProcessor.java:99-139 | the events of a run are exactly `RunFrom` on a zeroed byte buffer of `ByteBufferLength` bytes; processors unchanged |
| RealTime.RealTimeAudioProcessor.ProcessChunk | src/be/hogent/tarsos/util/RealTimeAudioProcessor.java:127-129 | one `Process(i, samples)` per processor, in registration order |
| RealTime.RealTimeAudioProcessor.FinishProcessing | src/be/hogent/tarsos/util/RealTimeAudioProcessor.java:132-134 | one `Finish(i)` per processor, in registration order |
| RealTime.ChunkCallsAt | src/be/hogent/tarsos/util/RealTimeAudioProcessor.java:107-131 | the c-th chunk occupies positions `c*(n+1)` to `c*(n+1)+n` of the trace: first the write of the whole buffer as refilled by that read, then `Process(0..n-1)` of its conversion, in order |
| RealTime.RunEnding | src/be/hogent/tarsos/util/RealTimeAudioProcessor.java:107-138 | only chunk events come before the first read that is not a chunk. After it there is nothing on an `IOException`; at end of stream there is `Finish(0..n-1)` and then one `Close`, and nothing else |
| RealTime.RunStep | src/be/hogent/tarsos/util/RealTimeAudioProcessor.java:107-130 | one loop iteration, meaning a read, a write and the processor calls, moves the run forward by one chunk with the refilled buffer |
| RealTime.FailedReadSkipsCleanup | src/be/hogent/tarsos/util/RealTimeAudioProcessor.java:136-138 | a run ended by an `IOException` holds no `Finish` and no `Close` event at all |
| RealTime.ShiftChunkCalls | src/be/hogent/tarsos/util/RealTimeAudioProcessor.java:107-131 | the chunk pattern survives events placed in front of it |
| RealTime.PrependChunk | src/be/hogent/tarsos/util/RealTimeAudioProcessor.java:107-131 | a chunk's write and process events in front of a chunk-only prefix extend that prefix and leave what follows it unchanged |
| RealTime.ChunkStartStep | src/be/hogent/tarsos/util/RealTimeAudioProcessor.java:107-131 | each chunk takes `n + 1` events |
| Streams.Refill | src/be/hogent/tarsos/util/RealTimeAudioProcessor.java:107 | a read of k bytes overwrites the first k bytes of the buffer and keeps the rest |
| Streams.ReadInto | src/be/hogent/tarsos/util/RealTimeAudioProcessor.java:107 | a read into the array yields the k-th outcome; the array is refilled on a chunk and untouched otherwise |
| Streams.BufferAfterHoldsChunk | src/be/hogent/tarsos/util/RealTimeAudioProcessor.java:107-130 | after the c-th chunk the reused buffer begins with that chunk's data and keeps its length |
| Playback.LineWrite | src/be/hogent/tarsos/sampled/BlockingAudioPlayer.java:66 | a write succeeds exactly for a non-negative, whole-frame length inside the array, and plays exactly those bytes |
| Playback.StepIsWholeFrames | src/be/hogent/tarsos/sampled/BlockingAudioPlayer.java:53-54 | the byte step is `(bufferSize - overlap) * frameSize`, a whole number of frames |
| Playback.BlockingAudioPlayer.constructor | src/be/hogent/tarsos/sampled/BlockingAudioPlayer.java:46-55 | `byteOverlap = overlap * frameSize` and `byteOverlap + byteStepSize = bufferSize * frameSize`, with no check on the overlap; nothing emitted, line open |
| Playback.BlockingAudioPlayer.ProcessFull | src/be/hogent/tarsos/sampled/BlockingAudioPlayer.java:64-67 | plays the whole byte buffer from offset 0 when it is whole frames, and nothing else; flags unchanged |
| Playback.BlockingAudioPlayer.ProcessOverlapping | src/be/hogent/tarsos/sampled/BlockingAudioPlayer.java:73-76 | plays exactly `byteStepSize` bytes from `byteOverlap`, or fails as the line's write does; flags unchanged |
| Playback.BlockingAudioPlayer.ProcessingFinished | src/be/hogent/tarsos/sampled/BlockingAudioPlayer.java:83-87 | drains and closes the line and plays nothing |
| Playback.OverlappingWriteOnWindow | src/be/hogent/tarsos/sampled/BlockingAudioPlayer.java:53-75 | on a window of `bufferSize` frames the overlapping write succeeds exactly when `0 <= overlap <= bufferSize`, and then plays the window from the overlap to its very end |
| Playback.ZeroOverlapPlaysWholeBuffer | src/be/hogent/tarsos/sampled/BlockingAudioPlayer.java:53-75 | with overlap 0 the overlapping write plays the whole window |
| Playback.SlidingWindowsPlayContiguously | src/be/hogent/tarsos/sampled/BlockingAudioPlayer.java:64-76 | for windows sliding over a stream by the step, the first played whole and the others from the overlap, the bytes played are exactly the stream's prefix up to the last window's end: in order, none twice, none skipped |
| Playback.PlayBuffers | src/be/hogent/tarsos/sampled/BlockingAudioPlayer.java:64-76 | `processFull` on the first buffer and `processOverlapping` on every later one, stopping at the first refused write: `writes` is the number of writes that succeeded, the next one (if any) was refused, and the line has played exactly the bytes of those writes; all succeed exactly when `WritesSucceed`, and then the line has played `Played` of the buffers; the drained and closed flags are unchanged |
| Playback.PlayedBeforeIsPlayed | src/be/hogent/tarsos/sampled/BlockingAudioPlayer.java:64-76 | when every write succeeds and the offsets are not negative, the bytes of the writes one by one are exactly `Played` of the buffers |
| Playback.WindowStartStep | src/be/hogent/tarsos/sampled/BlockingAudioPlayer.java:54 | consecutive windows start one byte step apart |
| Casts.Ceil | src/be/hogent/tarsos/util/SignalPowerExtractor.java:108 | the least integer not below the argument |
| Casts.Truncate | src/be/hogent/tarsos/util/SignalPowerExtractor.java:123 | rounding toward zero, as Java's `(int)` cast |
| Power.SecondsToIndex | src/be/hogent/tarsos/util/SignalPowerExtractor.java:107-109 | the least index whose window start (index / 10 s) is not before the time |
| Power.SecondsToIndexMonotonic | src/be/hogent/tarsos/util/SignalPowerExtractor.java:107-109 | a later time never gives a smaller index |
| Power.SecondsToIndexAtWindowStart | src/be/hogent/tarsos/util/SignalPowerExtractor.java:107-109 | 0 s gives index 0 and the start of window i gives index i |
| Power.Energy | src/be/hogent/tarsos/util/SignalPowerExtractor.java:239-245 | the energy is never negative |
| Power.EnergyZeroIffSilent | src/be/hogent/tarsos/util/SignalPowerExtractor.java:239-245 | the energy is zero exactly when every sample is zero, the empty buffer included |
| Power.LocalEnergy | src/be/hogent/tarsos/util/SignalPowerExtractor.java:239-245 | the loop computes `Energy` of the buffer |
| Power.Min | src/be/hogent/tarsos/util/SignalPowerExtractor.java:129 | one of the two arguments, and not above either |
| Power.Max | src/be/hogent/tarsos/util/SignalPowerExtractor.java:130 | one of the two arguments, and not below either |
| Power.RunningMin | src/be/hogent/tarsos/util/SignalPowerExtractor.java:129 | not above the seed or any energy taken in |
| Power.RunningMax | src/be/hogent/tarsos/util/SignalPowerExtractor.java:130 | not below the seed or any energy taken in |
| Power.RunningMinAttained | src/be/hogent/tarsos/util/SignalPowerExtractor.java:129 | the running minimum is the seed or one of the energies |
| Power.RunningMaxAttained | src/be/hogent/tarsos/util/SignalPowerExtractor.java:130 | the running maximum is the seed or one of the energies |
| Power.ChunkEnergiesAt | src/be/hogent/tarsos/util/SignalPowerExtractor.java:126-133 | one energy per chunk read before the stream ends or fails, the c-th being the energy of the reused buffer right after the c-th read |
| Power.ChunkEnergiesStep | src/be/hogent/tarsos/util/SignalPowerExtractor.java:127-128 | one read adds the energy of the refilled buffer in front of the energies of the rest |
| Power.ExtractKeepsBracket | src/be/hogent/tarsos/util/SignalPowerExtractor.java:126-133 | after an extraction every filled slot lies between the minimum and the maximum |
| Power.ExtractFillsInOrder | src/be/hogent/tarsos/util/SignalPowerExtractor.java:115-133 | a file that cannot be opened, or a negative array size, leaves the state as it was. Otherwise the array gets `secondsToIndex(length) + 1` slots, and the slots past the filled ones stay 0 |
| Power.ExtractStoresWindowEnergies | src/be/hogent/tarsos/util/SignalPowerExtractor.java:122-133 | slot i holds the energy of the i-th window; the filled count is the number of windows, capped by the array length; `ArrayIndexOutOfBounds` is raised exactly when the windows do not fit |
| Power.ExtractedBoundsAttained | src/be/hogent/tarsos/util/SignalPowerExtractor.java:126-133 | from the initial bounds, all filled slots lie between them. With no window read they stay `Double.MAX_VALUE` and -1. Otherwise both bounds are energies of filled slots |
| Power.SignalPowerExtractor.constructor | src/be/hogent/tarsos/util/SignalPowerExtractor.java:37-78 | no array yet, maximum -1, minimum `Double.MAX_VALUE` |
| Power.SignalPowerExtractor.ExtractPower | src/be/hogent/tarsos/util/SignalPowerExtractor.java:115-147 | the new array, bounds and filled count, and the exception raised, are exactly `Extract` of the old state |
| Power.SignalPowerExtractor.StoreWindow | src/be/hogent/tarsos/util/SignalPowerExtractor.java:128-132 | stores the buffer's energy at the index and folds it into both bounds |
| Power.SignalPowerExtractor.StoreWindowEnergies | src/be/hogent/tarsos/util/SignalPowerExtractor.java:126-133 | the array holds the window energies in order, then zeros. The bounds are the running extremes over the windows read. If the windows overflow the array, the array is full and the bounds also include the first window that did not fit |
| Power.SignalPowerExtractor.FillSlots | src/be/hogent/tarsos/util/SignalPowerExtractor.java:127-133 | the loop's state: windows seen so far are stored in order, zeros after them, and the bounds are their running extremes |
| Power.SignalPowerExtractor.PowerAt | src/be/hogent/tarsos/util/SignalPowerExtractor.java:90-102 | extracts only while the array is null, so a later call leaves the stored state as it was. It reads the slot at `secondsToIndex(seconds)` or raises that slot's exception. A relative read-out is `(p - min) / (max - min)` |
| Power.Divide | src/be/hogent/tarsos/util/SignalPowerExtractor.java:97 | a non-zero divisor gives the quotient; zero gives a non-finite value |
| Power.RelativeReadOutRange | src/be/hogent/tarsos/util/SignalPowerExtractor.java:95-97 | between distinct extremes the relative read-out lies in [0, 1], giving 0 at the minimum and 1 at the maximum; equal extremes give no finite value |
| Power.FilledSlotReadsOutInUnitInterval | src/be/hogent/tarsos/util/SignalPowerExtractor.java:94-97 | after an extraction with distinct extremes, any filled slot reads out in [0, 1] |
| Power.UnfilledSlotReadsOutBelowZero | src/be/hogent/tarsos/util/SignalPowerExtractor.java:80-102 | a slot no window reached holds 0 and, with a positive minimum below the maximum, reads out as a finite value below 0 |
| FileUtils.LastIndexOf | src/be/hogent/tarsos/util/FileUtils.java:289 | the last position of the character, or -1 when it does not occur |
| FileUtils.Extension | src/be/hogent/tarsos/util/FileUtils.java:288-291 | the text after the last '.', so it holds no '.'; the whole name when there is no '.' |
| FileUtils.Basename | src/be/hogent/tarsos/util/FileUtils.java:298-309 | the name itself without '.'. Otherwise it fails exactly when the last '.' comes before the last separator ('/', or the backslash when there is no '/'). On success it is exactly the text strictly between that separator and that '.'; it ends the name followed by '.' and the extension, and holds no '/' (nor a backslash when the name has no '/') |
| FileUtils.BasenameExtensionRoundTrip | src/be/hogent/tarsos/util/FileUtils.java:288-306 | for a name with a '.' and no separator, base name + '.' + extension gives the name back |
| FileUtils.Path | src/be/hogent/tarsos/util/FileUtils.java:311-314 | fails exactly without a '/'; otherwise the part before the last '/', which is followed by a '/'-free rest |
| FileUtils.FilterNonAscii | src/be/hogent/tarsos/util/FileUtils.java:352-372 | same length; each ASCII character is kept in place and each other character becomes '_'; so the result is ASCII, and an ASCII input is unchanged |
| FileUtils.FilterNonAsciiKeeps | src/be/hogent/tarsos/util/FileUtils.java:352-372 | every character of the result is from the input or '_' |
| FileUtils.ReplaceChar | src/be/hogent/tarsos/util/FileUtils.java:344-347 | the replaced character no longer occurs (unless the replacement holds it); an input without it is unchanged; no new characters besides the replacement's |
| FileUtils.ReplaceCharAppend | src/be/hogent/tarsos/util/FileUtils.java:344-347 | replacing in a concatenation is replacing in each part, so together with `ReplaceCharOfChar` the replacement is fixed character by character |
| FileUtils.ReplaceCharPointwise | src/be/hogent/tarsos/util/FileUtils.java:344-347 | with a one-character replacement the length is kept, every c becomes the replacement in place, and every other character stays where it was |
| FileUtils.ReplaceCharOfChar | src/be/hogent/tarsos/util/FileUtils.java:344-347 | a one-character text becomes the replacement when it is the replaced character, and stays as it is otherwise |
| FileUtils.SanitizedBaseName | src/be/hogent/tarsos/util/FileUtils.java:343-348 | the new base name is `SanitizedByChar` of the old one: ' ' becomes '_', '(' and ')' become '-', '&' becomes "and", other non-ASCII characters become '_', and everything else stays in order. So it is ASCII without ' ', '(', ')' and '&', and a clean base name is unchanged |
| FileUtils.StagesAreCharwise | src/be/hogent/tarsos/util/FileUtils.java:343-348 | the four replacements followed by the ASCII filter, applied in the code's order, equal the character-by-character reference `SanitizedByChar` |
| FileUtils.StagesAppend | src/be/hogent/tarsos/util/FileUtils.java:343-348 | each stage maps characters independently, so the stages split over a concatenation |
| FileUtils.StagesOfChar | src/be/hogent/tarsos/util/FileUtils.java:343-348 | on one character the stages give `SanitizedChar` of it |
| FileUtils.SanitizedKeepsSeparators | src/be/hogent/tarsos/util/FileUtils.java:343-348 | sanitising neither adds nor removes a '.', a '/' or a backslash |
| FileUtils.ReplaceWithItself | src/be/hogent/tarsos/util/FileUtils.java:349 | replacing a text by itself everywhere changes nothing |
| FileUtils.SanitizedFileName | src/be/hogent/tarsos/util/FileUtils.java:342-350 | fails exactly where `basename` fails, with its error. Otherwise it is the name with every occurrence of the base name replaced by the sanitised base name; a name whose base name is clean comes back unchanged |
| FileUtils.SanitizedFileNameKeepsBasename | src/be/hogent/tarsos/util/FileUtils.java:342-350 | whenever `basename` succeeds on a name, it succeeds on the sanitised name too |
| FileUtils.BasenameNeedsDotAfter | src/be/hogent/tarsos/util/FileUtils.java:298-309 | on a name with a '.', `basename` succeeds exactly when some '.' has no separator after it |
| FileUtils.ReplaceKeepsDotAfter | src/be/hogent/tarsos/util/FileUtils.java:349 | a '.' with no separator after it survives replacing every occurrence of a text, when the replacement brings no separator and keeps a '.' wherever the text had one |
| FileUtils.ReplaceKeepsAbsent | src/be/hogent/tarsos/util/FileUtils.java:349 | replacing adds no character that neither the name nor the replacement holds |
| FileUtils.ReplaceKeepsPresent | src/be/hogent/tarsos/util/FileUtils.java:349 | replacing keeps every character the replaced text does not hold |
| FileUtils.MissingFilterKeepsAllRows | src/be/hogent/tarsos/util/FileUtils.java:205-212 | a null filter accepts every row |
| FileUtils.ColumnOfAcceptedRows | src/be/hogent/tarsos/util/FileUtils.java:211-219 | the column read is `row[columnIndex]` of each accepted row, in row order; it fails exactly when some accepted row is too short |
| FileUtils.ColumnOfOneMoreRow | src/be/hogent/tarsos/util/FileUtils.java:214-216 | one more accepted row adds its cell in front, or fails on a short row |
| FileUtils.ReadColumnFromCsvData | src/be/hogent/tarsos/util/FileUtils.java:211-219 | the loop computes `ColumnOf` with the null filter replaced by the accept-all filter |
| FileUtils.CheckedRowsOutcome | src/be/hogent/tarsos/util/FileUtils.java:185-193 | expected -1, or every row of the expected length, keeps all rows. Otherwise the error names the 1-based line of the first row of another length, the expected length and that row's length |
| FileUtils.RowsRead | src/be/hogent/tarsos/util/FileUtils.java:186-197 | the lines read are exactly the leading lines of the reads, up to the first read that is not a line (end of file or an `IOException`) |
| FileUtils.ReadCsvFile | src/be/hogent/tarsos/util/FileUtils.java:174-199 | the loop returns `CheckedRows` of the lines read from line 0: every line up to the end of the file or to an `IOException`, or the row-length error |
| FileUtils.CellField | src/be/hogent/tarsos/util/FileUtils.java:241-257 | a cell's text with its tabs removed, the empty text for null |
| FileUtils.CellFields | src/be/hogent/tarsos/util/FileUtils.java:239-259 | one field per cell, in order |
| FileUtils.JoinedAppend | src/be/hogent/tarsos/util/FileUtils.java:243-258 | every field is followed by exactly one tab |
| FileUtils.SplitJoinedRoundTrip | src/be/hogent/tarsos/util/FileUtils.java:243-258 | splitting a line of tab-terminated fields that hold no tab gives the fields back |
| FileUtils.SplitFieldsRoundTrip | src/be/hogent/tarsos/util/FileUtils.java:239-260 | an exported line splits back into the cells' fields |
| FileUtils.Export | src/be/hogent/tarsos/util/FileUtils.java:222-267 | writes to `filename + ".csv"`: a header line only for a non-null header, then one line per data row |
| FileUtils.WriteRows | src/be/hogent/tarsos/util/FileUtils.java:249-261 | the loop writes `Body` of the rows |
| FileUtils.WriteLine | src/be/hogent/tarsos/util/FileUtils.java:250-260 | the loop writes the tab-terminated fields of the cells |
| AudioFiles.TranscodedFileName | src/be/hogent/tarsos/util/AudioFile.java:46 | ends in '.' and the format, which is its extension when the format has no '.' |
| AudioFiles.TranscodedFileNameRoundTrip | src/be/hogent/tarsos/util/AudioFile.java:46 | the base name and extension of the transcoded file name are the base name and format it was made of |
| AudioFiles.TranscodedPath | src/be/hogent/tarsos/util/AudioFile.java:44-48 | fails exactly where `basename` of the path fails; otherwise the transcoded directory joined with the base name of the sanitised path plus '.' and the format |
| AudioFiles.CleanPathKeepsBaseName | src/be/hogent/tarsos/util/AudioFile.java:44-48 | a path with a clean base name keeps that base name in its transcoded path |
| AudioFiles.ToString | src/be/hogent/tarsos/util/AudioFile.java:57-60 | the base name of the path: the path itself without '.'; otherwise it fails exactly when the last '.' comes before the last separator, and on success is the text strictly between them, a '/'-free text ending the path before its extension |
| AudioFiles.BaseName | src/be/hogent/tarsos/util/AudioFile.java:65-67 | the same text as `FileUtils.basename` of the path, like `toString` |
| AudioFiles.Create | src/be/hogent/tarsos/util/AudioFile.java:34-39 | the file keeps its path; a transcoding to the transcoded path is requested exactly when the transcoder says it is required; fails as `transcodedPath` does |
| AudioFiles.MatchesGroupByDataset | src/be/hogent/tarsos/util/AudioFile.java:77-86 | the matches of two data set lists are those of the first followed by those of the second |
| AudioFiles.CreateAllKeepsPaths | src/be/hogent/tarsos/util/AudioFile.java:77-86 | creating the files of all matches succeeds exactly when every match has a transcoded path, and then gives one file per match, with that path, in order |
| AudioFiles.CreateAllAppend | src/be/hogent/tarsos/util/AudioFile.java:80-83 | one more path adds its file and its request at the end, or fails with its error |
| AudioFiles.CreateAllFailureIsFinal | src/be/hogent/tarsos/util/AudioFile.java:80-83 | after a constructor fails, later paths are never looked at |
| AudioFiles.FilesInDatasets | src/be/hogent/tarsos/util/AudioFile.java:77-86 | the nested loops create the files, and request the transcodings, of the matches of every data set in argument order, stopping at the first failure |
| AudioFiles.CreateEach | src/be/hogent/tarsos/util/AudioFile.java:80-83 | the inner loop extends the creation by one data set's matches |
| Ambitus.OctaveCountCovers | src/be/hogent/tarsos/util/histogram/AmbitusHistogram.java:41-45 | there is one octave for each start, start+1200, … below the stop |
| Ambitus.OctaveIndex | src/be/hogent/tarsos/util/histogram/AmbitusHistogram.java:53 | `(int)(value / 1200)`: the octave the value lies in for non-negative values, 0 down to -1200 (exclusive), negative below |
| Ambitus.AmbitusHistogram.constructor | src/be/hogent/tarsos/util/histogram/AmbitusHistogram.java:31-47 | one empty tone-scale histogram per octave between start and stop |
| Ambitus.AmbitusHistogram.Add | src/be/hogent/tarsos/util/histogram/AmbitusHistogram.java:49-56 | adds the value to its octave only and returns the same histogram; an index outside the list fails and changes nothing |
| Ambitus.MergeAllAfterAdd | src/be/hogent/tarsos/util/histogram/AmbitusHistogram.java:49-103 | after an add, the merged histogram holds one more occurrence of the value |
| Ambitus.AmbitusHistogram.OctavesOrderedByEnergy | src/be/hogent/tarsos/util/histogram/AmbitusHistogram.java:78-92 | sorting the list 0..n-1 in place yields exactly `OrderByEnergy` of the octave indices |
| Ambitus.SortByEnergy | src/be/hogent/tarsos/util/histogram/AmbitusHistogram.java:84-91 | sorts the indices into energy order, as a permutation of 0..n-1 |
| Ambitus.InsertAt | src/be/hogent/tarsos/util/histogram/AmbitusHistogram.java:84-91 | one insertion step extends the sorted prefix, permutes the array and leaves the rest untouched |
| Ambitus.OrderByEnergy | src/be/hogent/tarsos/util/histogram/AmbitusHistogram.java:79-91 | a permutation of its input, by descending count with ties by ascending index |
| Ambitus.InsertByEnergyKeepsOrder | src/be/hogent/tarsos/util/histogram/AmbitusHistogram.java:84-91 | inserting into an ordered list keeps it ordered |
| Ambitus.OrderedPermutationsAgree | src/be/hogent/tarsos/util/histogram/AmbitusHistogram.java:84-91 | two ordered permutations of the same octaves are equal, so the stable order is unique |
| Ambitus.EnergyOrderIsStable | src/be/hogent/tarsos/util/histogram/AmbitusHistogram.java:79-91 | the order holds every octave 0..n-1 once, by non-increasing count, with equal counts in ascending index order |
| Ambitus.PermutationOfIndices | src/be/hogent/tarsos/util/histogram/AmbitusHistogram.java:79-82 | a permutation of 0..n-1 has n distinct entries below n and holds each of them |
| Ambitus.AmbitusHistogram.MostEnergyRichOctaves | src/be/hogent/tarsos/util/histogram/AmbitusHistogram.java:63-71 | merges the first k octaves of the energy order (none for negative k), and fails exactly for k > n |
| Ambitus.RichestOctavesChosen | src/be/hogent/tarsos/util/histogram/AmbitusHistogram.java:63-71 | every chosen octave holds at least as many values as every octave left out |
| Ambitus.AmbitusHistogram.ToneScaleHistogram | src/be/hogent/tarsos/util/histogram/AmbitusHistogram.java:97-103 | the merge of all per-octave histograms |
| Ambitus.AllOctavesMergeToToneScale | src/be/hogent/tarsos/util/histogram/AmbitusHistogram.java:63-103 | merging all octaves in energy order gives the tone-scale histogram |
| Ambitus.MergedOfPermutation | src/be/hogent/tarsos/util/histogram/AmbitusHistogram.java:66-69 | the merge does not depend on the order of the octaves merged |
| Ambitus.MergedAppend | src/be/hogent/tarsos/util/histogram/AmbitusHistogram.java:66-69 | merging two lists of octaves is the sum of their merges |
| Ambitus.MergedIndices | src/be/hogent/tarsos/util/histogram/AmbitusHistogram.java:97-103 | merging octaves 0..n-1 is the merge of the first n histograms |
| Midi.TransmitterSink.constructor | src/be/hogent/tarsos/midi/TransmitterSink.java:15-18 | the transmitter list is fixed at construction |
| Midi.TransmitterSink.Close | src/be/hogent/tarsos/midi/TransmitterSink.java:21-25 | every transmitter is closed and keeps its receiver |
| Midi.TransmitterSink.SetReceiver | src/be/hogent/tarsos/midi/TransmitterSink.java:42-46 | every transmitter gets the receiver and keeps its closed state; a non-empty sink then reports that receiver |
| Midi.TransmitterSink.GetReceiver | src/be/hogent/tarsos/midi/TransmitterSink.java:28-39 | the loop computes `AgreedReceiver` of the transmitters' receivers |
| Midi.AgreedReceiverMeaning | src/be/hogent/tarsos/midi/TransmitterSink.java:28-39 | null for no transmitters; otherwise succeeds exactly when every receiver is the first one's (by reference) and then gives it; the failure is the mismatch error |
| Midi.SameReceiverAgrees | src/be/hogent/tarsos/midi/TransmitterSink.java:42-46 | transmitters all connected to one receiver report it |
| Midi.TransmitterSink.Receivers | src/be/hogent/tarsos/midi/TransmitterSink.java:31-32 | one receiver per transmitter, in order |
| Midi.Transmitter.SetReceiver | src/be/hogent/tarsos/midi/TransmitterSink.java:44 | the transmitter now sends to the receiver; closed state unchanged |
| Midi.Transmitter.Close | src/be/hogent/tarsos/midi/TransmitterSink.java:23 | the transmitter is closed; receiver unchanged |

## Left out

- Audio I/O and devices: opening files and audio streams, the `SourceDataLine` (open, start, blocking, drain timing) and real-time pacing. The line is a log of the bytes written; reads are a given sequence of outcomes.
- The byte-to-float conversion (`AudioFloatConverter`, `AudioFloatInputStream`) is a foreign library. It is a function parameter of the streaming loop; the power extractor reads samples directly.
- Floating point: samples, energies and seconds are reals. IEEE rounding, overflow to infinity and the float-to-double widening in `localEnergy` are not modelled. `Double.MAX_VALUE` appears as its exact real value.
- The absolute read-out of `powerAt` goes through `linearToDecibel` (a logarithm). It is returned as the linear power, tagged as a decibel read-out. `soundPressureLevel`, `isSilence` and the plotting and saving methods are not modelled.
- The power extractor's constructor reads the sample rate and the file length from the audio file; they are parameters.
- `FileUtils` file operations (`readFile`, `writeFile`, `appendFile`, `readFileFromJar`, `cp`, `exists`, `mkdirs`, `getRuntimePath`) are not modelled. Neither are opening the CSV file, splitting its lines by a regular expression, or the `Error` raised for a missing file. The reads of the CSV reader are given as outcomes whose lines are already split; the log message written on an `IOException` is not modelled.
- `combine` and `glob` are functions passed in: they are path normalisation and directory listing.
- `Export` writes `Double` and `Date` cells through `DecimalFormat` and `SimpleDateFormat`. Cells are modelled as text or null, and the writer's I/O exception as nothing.
- The path separator is '/', as on a Unix host.
- `FileUtils.FilterNonAscii`: a Dafny `char` is a Unicode scalar value, so a supplementary character is one `char` and becomes one '_', as with Java's encoder. A lone surrogate cannot be represented. For it the encoder reports malformed input, and the `CharacterCodingException` caught at FileUtils.java:367 returns the base name unfiltered; that path is not modelled.
- `AudioFile.detectPitch` is not modelled: it depends on thread timing and external pitch detectors. Transcoding itself is not modelled either; only the request to transcode is.
- The inherited `Histogram` counts that `AmbitusHistogram.add` updates through `super.add` are not modelled, since `Histogram` is not part of this model. Each per-octave `ToneScaleHistogram` is a multiset of its values; its size is `sumFreq`, and adding histograms is a multiset sum.
- Plotting of the ambitus and tone-scale histograms is not modelled.
- `Collections.sort` is a stable merge sort; the model sorts with a stable insertion sort. Both give the same list, because a permutation that is ordered by descending count with ties by ascending index is unique (`Ambitus.OrderedPermutationsAgree`).
- `RealTimeAudioProcessor`'s processors are numbered handles. Their `proccess` and `processingFinished` calls are trace events, and what the processors themselves do is not modelled.
- Transmitter and receiver implementations are foreign. A transmitter is a receiver field and a closed flag. A sink listed among its own transmitters is not modelled.
- Configuration lookups are not modelled as globals. They are passed in: directories, the transcoded format, the ambitus start and stop, and the buffer sizes.
- Java `int` wrap-around in the size computations (`floats * bits / 8`, `overlap * frameSize`, the octave index) is not modelled; integers are unbounded. Neither is the saturation of Java's `(int)` cast of a `double` at `Integer.MIN_VALUE` and `Integer.MAX_VALUE` (and NaN cast to 0) in `secondsToIndex`, the read amount and the octave index: `Casts.Ceil` and `Casts.Truncate` give the exact integer.
- RealTime.RealTimeAudioProcessor.Run: every `line.write` of the whole byte buffer is taken to succeed. The `IllegalArgumentException` that `SourceDataLine.write` raises for a length that is not a whole number of frames is not modelled there; the buffer is `floats * bits / 8` bytes, which is whole frames for a mono format with whole-byte samples (`RealTime.ByteBufferHoldsWholeSamples`), and `Playback.LineWrite` models the refusal for the player.
