/**
 * The blocking player: a processor that plays audio buffers on an output
 * line. Buffer and overlap sizes are given in frames and turned into byte
 * offsets; the first buffer is played in full and every later one only from
 * the overlap on, so that audio already heard is not played again.
 *
 * The line is observed through the bytes it has been given to play and two
 * flags for `drain` and `close`.
 */
module Playback {
  import opened Outcomes
  import opened Streams

  /** Why `SourceDataLine.write(b, off, len)` refuses a request. */
  datatype WriteError =
    | IllegalArgument        // len is negative or not a whole number of frames
    | ArrayIndexOutOfBounds  // off is negative or off + len is past the end of b

  /** The bytes `line.write(b, off, len)` plays, or the exception it throws. */
  function LineWrite(b: seq<byte>, off: int, len: int, frameSize: nat): (r: Result<seq<byte>, WriteError>)
    requires frameSize > 0
    ensures r.Ok? <==> 0 <= len && len % frameSize == 0 && 0 <= off && off + len <= |b|
    ensures r.Ok? ==> |r.value| == len && forall i :: 0 <= i < len ==> r.value[i] == b[off + i]
  {
    if len < 0 || len % frameSize != 0 then Err(IllegalArgument)
    else if off < 0 || off + len > |b| then Err(ArrayIndexOutOfBounds)
    else Ok(b[off..off + len])
  }

  /** Overlap in bytes: frames of overlap times bytes per frame. */
  function ByteOverlap(overlap: int, frameSize: int): int {
    overlap * frameSize
  }

  /** Step in bytes: the buffer's bytes that follow the overlap. */
  function ByteStepSize(bufferSize: int, overlap: int, frameSize: int): int {
    bufferSize * frameSize - ByteOverlap(overlap, frameSize)
  }

  /** The step is a whole number of frames, namely bufferSize - overlap of them. */
  lemma StepIsWholeFrames(bufferSize: int, overlap: int, frameSize: nat)
    requires frameSize > 0
    ensures ByteStepSize(bufferSize, overlap, frameSize) == (bufferSize - overlap) * frameSize
    ensures ByteStepSize(bufferSize, overlap, frameSize) % frameSize == 0
  {
    var step := bufferSize - overlap;
    assert bufferSize * frameSize - overlap * frameSize == step * frameSize;
    MultipleIsWholeFrames(step, frameSize);
  }

  lemma MultipleIsWholeFrames(q: int, frameSize: nat)
    requires frameSize > 0
    ensures (q * frameSize) % frameSize == 0
  {
    var x := q * frameSize;
    var k := q - x / frameSize;
    assert x == frameSize * (x / frameSize) + x % frameSize;
    assert x % frameSize == frameSize * k;
  }

  /**
   * On a buffer of bufferSize frames, the write of `processOverlapping`
   * succeeds exactly when 0 <= overlap <= bufferSize, and then plays the
   * buffer from the overlap up to its very end.
   */
  lemma {:induction false} OverlappingWriteOnWindow(b: seq<byte>, bufferSize: int, overlap: int, frameSize: nat)
    requires frameSize > 0
    requires |b| == bufferSize * frameSize
    ensures var r := LineWrite(b, ByteOverlap(overlap, frameSize), ByteStepSize(bufferSize, overlap, frameSize), frameSize);
            && (r.Ok? <==> 0 <= overlap <= bufferSize)
            && (r.Ok? ==> r.value == b[ByteOverlap(overlap, frameSize)..])
  {
    StepIsWholeFrames(bufferSize, overlap, frameSize);
    var off := ByteOverlap(overlap, frameSize);
    var len := ByteStepSize(bufferSize, overlap, frameSize);
    assert off + len == |b|;
    if overlap < 0 {
      assert off < 0 by {
        assert -off == (-overlap) * frameSize;
      }
    } else if overlap > bufferSize {
      assert len < 0 by {
        assert -len == (overlap - bufferSize) * frameSize;
      }
    } else {
      assert 0 <= off by {
        assert off == overlap * frameSize;
      }
      assert 0 <= len by {
        assert len == (bufferSize - overlap) * frameSize;
      }
      var r := LineWrite(b, off, len, frameSize);
      assert r.value == b[off..];
    }
  }

  /** Without overlap every buffer of bufferSize frames is played whole. */
  lemma ZeroOverlapPlaysWholeBuffer(b: seq<byte>, bufferSize: int, frameSize: nat)
    requires frameSize > 0
    requires |b| == bufferSize * frameSize
    ensures LineWrite(b, ByteOverlap(0, frameSize), ByteStepSize(bufferSize, 0, frameSize), frameSize) == Ok(b)
  {
    OverlappingWriteOnWindow(b, bufferSize, 0, frameSize);
  }

  /**
   * What the line has played after a full write of the first buffer and an
   * overlapping write of each later one.
   */
  function Played(windows: seq<seq<byte>>, byteOverlap: nat, byteStep: nat): seq<byte>
    requires windows != []
    requires forall k :: 0 < k < |windows| ==> byteOverlap + byteStep <= |windows[k]|
  {
    if |windows| == 1 then windows[0]
    else
      var last := windows[|windows| - 1];
      Played(windows[..|windows| - 1], byteOverlap, byteStep) + last[byteOverlap..byteOverlap + byteStep]
  }

  /** Where in the stream the k-th window starts when windows slide by `byteStep`. */
  function WindowStart(k: nat, byteStep: nat): nat {
    k * byteStep
  }

  lemma WindowStartStep(k: nat, byteStep: nat)
    requires k > 0
    ensures WindowStart(k, byteStep) == WindowStart(k - 1, byteStep) + byteStep
  {
    assert k * byteStep == (k - 1) * byteStep + byteStep;
  }

  /** The k-th of `windows` is the stream's window of overlap + step bytes at WindowStart(k). */
  predicate SlidingOver(stream: seq<byte>, windows: seq<seq<byte>>, byteOverlap: nat, byteStep: nat) {
    forall k :: 0 <= k < |windows| ==>
      WindowStart(k, byteStep) + byteOverlap + byteStep <= |stream|
      && windows[k] == stream[WindowStart(k, byteStep)..WindowStart(k, byteStep) + byteOverlap + byteStep]
  }

  /**
   * Windows that slide over a stream by the step play the stream
   * contiguously from its start: no byte is skipped and none is played twice.
   */
  lemma {:induction false} SlidingWindowsPlayContiguously(stream: seq<byte>, windows: seq<seq<byte>>,
                                                          byteOverlap: nat, byteStep: nat)
    requires windows != []
    requires SlidingOver(stream, windows, byteOverlap, byteStep)
    ensures Played(windows, byteOverlap, byteStep)
            == stream[..WindowStart(|windows| - 1, byteStep) + byteOverlap + byteStep]
    decreases |windows|
  {
    var m := |windows|;
    if m > 1 {
      var front := windows[..m - 1];
      assert SlidingOver(stream, front, byteOverlap, byteStep) by {
        forall k | 0 <= k < |front|
          ensures front[k] == windows[k]
        {
        }
      }
      SlidingWindowsPlayContiguously(stream, front, byteOverlap, byteStep);
      var start := WindowStart(m - 1, byteStep);
      WindowStartStep(m - 1, byteStep);
      var last := windows[m - 1];
      assert last == stream[start..start + byteOverlap + byteStep];
      assert last[byteOverlap..byteOverlap + byteStep]
             == stream[start + byteOverlap..start + byteOverlap + byteStep];
      assert stream[..start + byteOverlap + byteStep]
             == stream[..start + byteOverlap] + stream[start + byteOverlap..start + byteOverlap + byteStep];
    }
  }

  /** A player on one output line. */
  class BlockingAudioPlayer {
    /** Bytes per frame of the audio format. */
    const frameSize: nat
    /** Overlap between consecutive buffers, in bytes. */
    const byteOverlap: int
    /** Bytes of each buffer that follow the overlap. */
    const byteStepSize: int
    /** The bytes the line has been given to play, in order. */
    var emitted: seq<byte>
    var drained: bool
    var closed: bool

    /** Opens the line. The overlap is not checked against the buffer size. */
    constructor (frameSize: nat, bufferSize: int, overlap: int)
      requires frameSize > 0
      ensures this.frameSize == frameSize
      ensures byteOverlap == overlap * frameSize
      ensures byteOverlap + byteStepSize == bufferSize * frameSize
      ensures emitted == [] && !drained && !closed
    {
      this.frameSize := frameSize;
      byteOverlap := ByteOverlap(overlap, frameSize);
      byteStepSize := ByteStepSize(bufferSize, overlap, frameSize);
      emitted := [];
      drained := false;
      closed := false;
    }

    /** Plays the first buffer in full. */
    method ProcessFull(audioFloatBuffer: seq<real>, audioByteBuffer: seq<byte>) returns (r: Result<seq<byte>, WriteError>)
      requires frameSize > 0
      modifies this
      ensures r == LineWrite(audioByteBuffer, 0, |audioByteBuffer|, frameSize)
      ensures r.Ok? ==> r.value == audioByteBuffer
      ensures emitted == old(emitted) + (if r.Ok? then r.value else [])
      ensures drained == old(drained) && closed == old(closed)
    {
      r := LineWrite(audioByteBuffer, 0, |audioByteBuffer|, frameSize);
      if r.Ok? {
        emitted := emitted + r.value;
      }
    }

    /** Plays only the audio of a later buffer that has not been played yet. */
    method ProcessOverlapping(audioFloatBuffer: seq<real>, audioByteBuffer: seq<byte>) returns (r: Result<seq<byte>, WriteError>)
      requires frameSize > 0
      modifies this
      ensures r == LineWrite(audioByteBuffer, byteOverlap, byteStepSize, frameSize)
      ensures r.Ok? ==> r.value == audioByteBuffer[byteOverlap..byteOverlap + byteStepSize]
      ensures emitted == old(emitted) + (if r.Ok? then r.value else [])
      ensures drained == old(drained) && closed == old(closed)
    {
      r := LineWrite(audioByteBuffer, byteOverlap, byteStepSize, frameSize);
      if r.Ok? {
        emitted := emitted + r.value;
      }
    }

    /** Drains and then closes the line; nothing more is played. */
    method ProcessingFinished()
      modifies this
      ensures drained && closed
      ensures emitted == old(emitted)
    {
      drained := true;
      closed := true;
    }
  }

  /**
   * The k-th write of a player driven over `windows`: the full write of the
   * first buffer, the overlapping write of each later one.
   */
  function WriteOf(windows: seq<seq<byte>>, k: nat, frameSize: nat, byteOverlap: int, byteStep: int): Result<seq<byte>, WriteError>
    requires frameSize > 0 && k < |windows|
  {
    if k == 0 then LineWrite(windows[0], 0, |windows[0]|, frameSize)
    else LineWrite(windows[k], byteOverlap, byteStep, frameSize)
  }

  /**
   * Every write of a player driven over `windows` succeeds: the full write
   * of the first and the overlapping write of each later one.
   */
  predicate WritesSucceed(windows: seq<seq<byte>>, frameSize: nat, byteOverlap: int, byteStep: int)
    requires frameSize > 0
  {
    windows != []
    && LineWrite(windows[0], 0, |windows[0]|, frameSize).Ok?
    && forall k :: 0 < k < |windows| ==> LineWrite(windows[k], byteOverlap, byteStep, frameSize).Ok?
  }

  /** The bytes the first k writes play, when all of them succeed. */
  function PlayedBefore(windows: seq<seq<byte>>, k: nat, frameSize: nat, byteOverlap: int, byteStep: int): seq<byte>
    requires frameSize > 0 && k <= |windows|
    requires forall j :: 0 <= j < k ==> WriteOf(windows, j, frameSize, byteOverlap, byteStep).Ok?
  {
    if k == 0 then []
    else PlayedBefore(windows, k - 1, frameSize, byteOverlap, byteStep)
         + WriteOf(windows, k - 1, frameSize, byteOverlap, byteStep).value
  }

  /** The first k writes over `windows` only look at its first k buffers. */
  lemma {:induction false} PlayedBeforePrefix(windows: seq<seq<byte>>, front: seq<seq<byte>>, k: nat,
                                              frameSize: nat, byteOverlap: int, byteStep: int)
    requires frameSize > 0 && k <= |front| <= |windows| && front == windows[..|front|]
    requires forall j :: 0 <= j < k ==> WriteOf(windows, j, frameSize, byteOverlap, byteStep).Ok?
    ensures forall j :: 0 <= j < k ==> WriteOf(front, j, frameSize, byteOverlap, byteStep).Ok?
    ensures PlayedBefore(front, k, frameSize, byteOverlap, byteStep) == PlayedBefore(windows, k, frameSize, byteOverlap, byteStep)
  {
    forall j | 0 <= j < k
      ensures WriteOf(front, j, frameSize, byteOverlap, byteStep) == WriteOf(windows, j, frameSize, byteOverlap, byteStep)
    {
      assert front[j] == windows[j];
    }
    if k > 0 {
      PlayedBeforePrefix(windows, front, k - 1, frameSize, byteOverlap, byteStep);
    }
  }

  /**
   * When every write succeeds and the offsets are not negative, the writes
   * play exactly `Played` of the buffers.
   */
  lemma {:induction false} PlayedBeforeIsPlayed(windows: seq<seq<byte>>, frameSize: nat, byteOverlap: int, byteStep: int)
    requires frameSize > 0 && byteOverlap >= 0 && byteStep >= 0
    requires WritesSucceed(windows, frameSize, byteOverlap, byteStep)
    ensures forall j :: 0 <= j < |windows| ==> WriteOf(windows, j, frameSize, byteOverlap, byteStep).Ok?
    ensures PlayedBefore(windows, |windows|, frameSize, byteOverlap, byteStep) == Played(windows, byteOverlap, byteStep)
    decreases |windows|
  {
    var m := |windows|;
    forall j | 0 <= j < m
      ensures WriteOf(windows, j, frameSize, byteOverlap, byteStep).Ok?
    {
    }
    if m > 1 {
      var front := windows[..m - 1];
      assert WritesSucceed(front, frameSize, byteOverlap, byteStep) by {
        forall j | 0 <= j < m - 1
          ensures front[j] == windows[j]
        {
        }
      }
      PlayedBeforeIsPlayed(front, frameSize, byteOverlap, byteStep);
      PlayedBeforePrefix(windows, front, m - 1, frameSize, byteOverlap, byteStep);
      var last := windows[m - 1];
      assert WriteOf(windows, m - 1, frameSize, byteOverlap, byteStep).value
             == last[byteOverlap..byteOverlap + byteStep];
    }
  }

  /**
   * A player driven as its methods are meant to be called: `processFull` on
   * the first buffer and `processOverlapping` on every later one, stopping
   * at the first write the line refuses. `writes` counts the writes that
   * succeeded; the line has played exactly their bytes, and when every
   * write succeeds that is `Played` of the buffers. Draining and closing
   * are left to `processingFinished`.
   */
  method PlayBuffers(player: BlockingAudioPlayer, windows: seq<seq<byte>>) returns (ok: bool, writes: nat)
    requires player.frameSize > 0
    requires windows != []
    modifies player
    ensures writes <= |windows| && (ok <==> writes == |windows|)
    ensures forall j :: 0 <= j < writes ==> WriteOf(windows, j, player.frameSize, player.byteOverlap, player.byteStepSize).Ok?
    ensures writes < |windows| ==> WriteOf(windows, writes, player.frameSize, player.byteOverlap, player.byteStepSize).Err?
    ensures player.emitted == old(player.emitted) + PlayedBefore(windows, writes, player.frameSize, player.byteOverlap, player.byteStepSize)
    ensures ok <==> WritesSucceed(windows, player.frameSize, player.byteOverlap, player.byteStepSize)
    ensures ok && player.byteOverlap >= 0 && player.byteStepSize >= 0 ==>
              player.emitted == old(player.emitted) + Played(windows, player.byteOverlap, player.byteStepSize)
    ensures player.drained == old(player.drained) && player.closed == old(player.closed)
  {
    var r := player.ProcessFull([], windows[0]);
    if r.Err? {
      return false, 0;
    }
    var k := 1;
    while k < |windows|
      invariant 1 <= k <= |windows|
      invariant forall j :: 0 < j < k ==> LineWrite(windows[j], player.byteOverlap, player.byteStepSize, player.frameSize).Ok?
      invariant forall j :: 0 <= j < k ==> WriteOf(windows, j, player.frameSize, player.byteOverlap, player.byteStepSize).Ok?
      invariant player.emitted == old(player.emitted) + PlayedBefore(windows, k, player.frameSize, player.byteOverlap, player.byteStepSize)
      invariant player.drained == old(player.drained) && player.closed == old(player.closed)
    {
      r := player.ProcessOverlapping([], windows[k]);
      if r.Err? {
        return false, k;
      }
      k := k + 1;
    }
    if player.byteOverlap >= 0 && player.byteStepSize >= 0 {
      PlayedBeforeIsPlayed(windows, player.frameSize, player.byteOverlap, player.byteStepSize);
    }
    return true, k;
  }
}
