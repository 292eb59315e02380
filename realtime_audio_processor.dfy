/**
 * The streaming loop: read a chunk of bytes, convert it to samples, write the
 * whole byte buffer to the output line and hand the samples to every
 * registered processor in registration order; at the end of the stream tell
 * every processor that processing finished and close the line.
 *
 * The line and the processors are observed through the trace of calls the
 * loop makes on them.
 */
module RealTime {
  import opened Streams

  /** A registered processor; processors are told apart by their registration slot. */
  type ProcessorHandle = nat

  /** A call the loop makes on the output line or on a processor. */
  datatype Event =
    | Write(bytes: seq<byte>)                 // line.write(audioByteBuffer, 0, audioByteBuffer.length)
    | Process(slot: nat, samples: seq<real>)  // proccess(audioBuffer) on the slot-th processor
    | Finish(slot: nat)                       // processingFinished() on the slot-th processor
    | Close                                   // line.close()

  /** Length of the byte buffer that holds `floats` samples of `sampleSizeInBits` bits each. */
  function ByteBufferLength(floats: nat, sampleSizeInBits: nat): nat {
    floats * sampleSizeInBits / 8
  }

  /** For whole-byte sample sizes the byte buffer holds exactly the samples, no partial byte. */
  lemma ByteBufferHoldsWholeSamples(floats: nat, sampleSizeInBits: nat)
    requires sampleSizeInBits % 8 == 0
    ensures ByteBufferLength(floats, sampleSizeInBits) == floats * (sampleSizeInBits / 8)
  {
    var bytesPerSample := sampleSizeInBits / 8;
    assert sampleSizeInBits == 8 * bytesPerSample;
    assert floats * sampleSizeInBits == 8 * (floats * bytesPerSample);
  }

  /** One chunk handed to the n processors, in registration order. */
  function ProcessAll(n: nat, samples: seq<real>): seq<Event> {
    seq(n, i requires 0 <= i < n => Process(i, samples))
  }

  /** The n processors told that processing finished, in registration order. */
  function FinishAll(n: nat): seq<Event> {
    seq(n, i requires 0 <= i < n => Finish(i))
  }

  /**
   * The calls made by the loop from the k-th read on, with `buffer` holding
   * what earlier reads left in the reused byte buffer.
   */
  function RunFrom(n: nat, convert: seq<byte> -> seq<real>, buffer: seq<byte>,
                   stream: seq<ReadOutcome<byte>>, k: nat): seq<Event>
    requires ChunksFit(stream, |buffer|)
    decreases |stream| - k
  {
    match OutcomeAt(stream, k)
    case Chunk(data) =>
      var filled := Refill(buffer, data);
      [Write(filled)] + ProcessAll(n, convert(filled)) + RunFrom(n, convert, filled, stream, k + 1)
    case EndOfStream => FinishAll(n) + [Close]
    case ReadFailure => []
  }

  /** Position in the call trace where the calls for the c-th chunk begin, n processors registered. */
  function ChunkStart(c: nat, n: nat): nat {
    c * (n + 1)
  }

  /** Each chunk takes one write and n `proccess` calls. */
  lemma ChunkStartStep(c: nat, n: nat)
    requires c > 0
    ensures ChunkStart(c, n) == (n + 1) + ChunkStart(c - 1, n)
  {
    assert c * (n + 1) == (c - 1) * (n + 1) + (n + 1);
  }

  /**
   * At position `pos` of `t` stand the calls for one chunk whose byte buffer
   * was `b`: one write of the whole buffer, followed at once by one `proccess`
   * call per processor, in registration order, on the samples of that buffer.
   */
  predicate ChunkCallsAtPosition(t: seq<Event>, pos: nat, n: nat, convert: seq<byte> -> seq<real>, b: seq<byte>) {
    pos + n < |t|
    && t[pos] == Write(b)
    && forall i :: 0 <= i < n ==> t[pos + 1 + i] == Process(i, convert(b))
  }

  /** The calls of a chunk stay the same calls when more calls come before them. */
  lemma ShiftChunkCalls(block: seq<Event>, rest: seq<Event>, pos: nat, n: nat,
                        convert: seq<byte> -> seq<real>, b: seq<byte>)
    requires ChunkCallsAtPosition(rest, pos, n, convert, b)
    ensures ChunkCallsAtPosition(block + rest, |block| + pos, n, convert, b)
  {
    var t := block + rest;
    assert t[|block| + pos] == rest[pos];
    forall i | 0 <= i < n
      ensures t[|block| + pos + 1 + i] == Process(i, convert(b))
    {
      assert t[|block| + pos + 1 + i] == rest[pos + 1 + i];
    }
  }

  /** The c-th chunk read gets its write and its `proccess` calls at ChunkStart(c, n). */
  lemma {:induction false} ChunkCallsAt(n: nat, convert: seq<byte> -> seq<real>, buffer: seq<byte>,
                                        stream: seq<ReadOutcome<byte>>, k: nat, c: nat)
    requires ChunksFit(stream, |buffer|)
    requires c < LeadingChunks(stream, k)
    ensures ChunkCallsAtPosition(RunFrom(n, convert, buffer, stream, k), ChunkStart(c, n), n, convert,
                                 BufferAfter(buffer, stream, k, c))
    decreases c
  {
    var filled := Refill(buffer, OutcomeAt(stream, k).data);
    var block := [Write(filled)] + ProcessAll(n, convert(filled));
    var rest := RunFrom(n, convert, filled, stream, k + 1);
    var t := RunFrom(n, convert, buffer, stream, k);
    assert t == block + rest;
    assert |block| == n + 1;
    if c == 0 {
      assert BufferAfter(buffer, stream, k, c) == filled;
      forall i | 0 <= i < n
        ensures t[1 + i] == Process(i, convert(filled))
      {
        assert t[1 + i] == block[1 + i];
      }
    } else {
      assert BufferAfter(buffer, stream, k, c) == BufferAfter(filled, stream, k + 1, c - 1);
      ChunkCallsAt(n, convert, filled, stream, k + 1, c - 1);
      ChunkStartStep(c, n);
      ShiftChunkCalls(block, rest, ChunkStart(c - 1, n), n, convert, BufferAfter(filled, stream, k + 1, c - 1));
    }
  }

  /** The first m calls of `t` are writes and `proccess` calls only. */
  predicate ChunkCallsOnly(t: seq<Event>, m: nat) {
    m <= |t| && forall j :: 0 <= j < m ==> t[j].Write? || t[j].Process?
  }

  /** The calls of one more chunk put in front of a trace. */
  lemma PrependChunk(block: seq<Event>, rest: seq<Event>, m: nat)
    requires block != [] && block[0].Write?
    requires forall j :: 1 <= j < |block| ==> block[j].Process?
    requires ChunkCallsOnly(rest, m)
    ensures ChunkCallsOnly(block + rest, |block| + m)
    ensures (block + rest)[|block| + m..] == rest[m..]
  {
    var t := block + rest;
    forall j | 0 <= j < |block| + m
      ensures t[j].Write? || t[j].Process?
    {
      if j >= |block| {
        assert t[j] == rest[j - |block|];
      }
    }
  }

  /**
   * How the run ends: after the write/proccess calls of the chunks read
   * before the stop, a stream that ends normally gets one `processingFinished`
   * per processor in registration order and then one `close`; a failed read
   * gets no further call at all.
   */
  lemma {:induction false} RunEnding(n: nat, convert: seq<byte> -> seq<real>, buffer: seq<byte>,
                                     stream: seq<ReadOutcome<byte>>, k: nat)
    requires ChunksFit(stream, |buffer|)
    ensures var t := RunFrom(n, convert, buffer, stream, k);
            var m := ChunkStart(LeadingChunks(stream, k), n);
            && |t| == m + (if Stop(stream, k).EndOfStream? then n + 1 else 0)
            && ChunkCallsOnly(t, m)
            && t[m..] == (if Stop(stream, k).EndOfStream? then FinishAll(n) + [Close] else [])
    decreases |stream| - k
  {
    var t := RunFrom(n, convert, buffer, stream, k);
    match OutcomeAt(stream, k)
    case Chunk(data) =>
      var filled := Refill(buffer, data);
      var block := [Write(filled)] + ProcessAll(n, convert(filled));
      var rest := RunFrom(n, convert, filled, stream, k + 1);
      RunEnding(n, convert, filled, stream, k + 1);
      var m' := ChunkStart(LeadingChunks(stream, k + 1), n);
      assert t == block + rest;
      assert |block| == n + 1;
      assert LeadingChunks(stream, k) == 1 + LeadingChunks(stream, k + 1);
      assert Stop(stream, k) == Stop(stream, k + 1);
      ChunkStartStep(LeadingChunks(stream, k), n);
      PrependChunk(block, rest, m');
    case EndOfStream =>
    case ReadFailure =>
  }

  /** The calls of one chunk, moved from what is still to come to what was done. */
  lemma RunStep(done: seq<Event>, done': seq<Event>, n: nat, convert: seq<byte> -> seq<real>,
                buffer: seq<byte>, stream: seq<ReadOutcome<byte>>, k: nat)
    requires ChunksFit(stream, |buffer|)
    requires OutcomeAt(stream, k).Chunk?
    requires var filled := Refill(buffer, OutcomeAt(stream, k).data);
             done' == done + [Write(filled)] + ProcessAll(n, convert(filled))
    ensures var filled := Refill(buffer, OutcomeAt(stream, k).data);
            done' + RunFrom(n, convert, filled, stream, k + 1) == done + RunFrom(n, convert, buffer, stream, k)
  {
    var filled := Refill(buffer, OutcomeAt(stream, k).data);
    var block := [Write(filled)] + ProcessAll(n, convert(filled));
    assert RunFrom(n, convert, buffer, stream, k) == block + RunFrom(n, convert, filled, stream, k + 1);
    assert done' == done + block;
  }

  /** A failed read is never followed by `processingFinished` or `close`. */
  lemma FailedReadSkipsCleanup(n: nat, convert: seq<byte> -> seq<real>, buffer: seq<byte>,
                               stream: seq<ReadOutcome<byte>>, k: nat)
    requires ChunksFit(stream, |buffer|)
    requires Stop(stream, k).ReadFailure?
    ensures forall e :: e in RunFrom(n, convert, buffer, stream, k) ==> !e.Finish? && !e.Close?
  {
    RunEnding(n, convert, buffer, stream, k);
  }

  /**
   * The streaming loop of one audio stream. The output line and the
   * processors are observed through `trace`.
   */
  class RealTimeAudioProcessor {
    /** Number of floats in the reused sample buffer. */
    const audioBufferSize: nat
    /** Sample size of the stream's audio format. */
    const sampleSizeInBits: nat
    /** The registered processors, in registration order. */
    var processors: seq<ProcessorHandle>
    /** The calls made so far on the line and on the processors. */
    var trace: seq<Event>

    constructor (audioBufferSize: nat, sampleSizeInBits: nat)
      ensures this.audioBufferSize == audioBufferSize && this.sampleSizeInBits == sampleSizeInBits
      ensures processors == [] && trace == []
    {
      this.audioBufferSize := audioBufferSize;
      this.sampleSizeInBits := sampleSizeInBits;
      processors := [];
      trace := [];
    }

    /** Registers a processor after all earlier ones. */
    method AddAudioProcessor(processor: ProcessorHandle)
      modifies this
      ensures processors == old(processors) + [processor]
      ensures trace == old(trace)
    {
      processors := processors + [processor];
    }

    /**
     * Plays the stream and feeds it to the processors. The byte buffer starts
     * out as zeros and is reused by every read.
     */
    method Run(stream: seq<ReadOutcome<byte>>, convert: seq<byte> -> seq<real>)
      requires ChunksFit(stream, ByteBufferLength(audioBufferSize, sampleSizeInBits))
      modifies this
      ensures processors == old(processors)
      ensures trace == old(trace) + RunFrom(|processors|, convert,
                                            Zeros(ByteBufferLength(audioBufferSize, sampleSizeInBits), 0 as byte),
                                            stream, 0)
    {
      var n := |processors|;
      var length := ByteBufferLength(audioBufferSize, sampleSizeInBits);
      var audioByteBuffer := new byte[length](_ => 0 as byte);
      ghost var before := audioByteBuffer[..];
      assert before == Zeros(length, 0 as byte);
      var k := 0;
      var outcome := ReadInto(audioByteBuffer, stream, k);
      while outcome.Chunk?
        invariant k <= |stream|
        invariant processors == old(processors) && n == |processors|
        invariant audioByteBuffer.Length == length == |before|
        invariant outcome == OutcomeAt(stream, k)
        invariant outcome.Chunk? ==> audioByteBuffer[..] == Refill(before, outcome.data)
        invariant trace + RunFrom(n, convert, before, stream, k)
                  == old(trace) + RunFrom(n, convert, Zeros(length, 0 as byte), stream, 0)
        decreases |stream| - k
      {
        var filled := audioByteBuffer[..];
        var samples := convert(filled);
        ghost var start := trace;
        trace := trace + [Write(filled)];
        ProcessChunk(samples);
        RunStep(start, trace, n, convert, before, stream, k);
        before := filled;
        k := k + 1;
        outcome := ReadInto(audioByteBuffer, stream, k);
      }
      assert outcome.EndOfStream? ==> RunFrom(n, convert, before, stream, k) == FinishAll(n) + [Close];
      assert outcome.ReadFailure? ==> RunFrom(n, convert, before, stream, k) == [];
      if outcome.EndOfStream? {
        FinishProcessing();
        trace := trace + [Close];
      }
    }

    /** Hands one chunk of samples to every processor, in registration order. */
    method ProcessChunk(samples: seq<real>)
      modifies this
      ensures processors == old(processors)
      ensures trace == old(trace) + ProcessAll(|processors|, samples)
    {
      for i := 0 to |processors|
        invariant processors == old(processors)
        invariant trace == old(trace) + ProcessAll(i, samples)
      {
        trace := trace + [Process(i, samples)];
      }
    }

    /** Tells every processor, in registration order, that processing finished. */
    method FinishProcessing()
      modifies this
      ensures processors == old(processors)
      ensures trace == old(trace) + FinishAll(|processors|)
    {
      for i := 0 to |processors|
        invariant processors == old(processors)
        invariant trace == old(trace) + FinishAll(i)
      {
        trace := trace + [Finish(i)];
      }
    }
  }
}
