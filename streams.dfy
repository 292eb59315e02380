/**
 * Blocking reads from an input stream into a buffer that the caller reuses.
 * A read either delivers up to a buffer's worth of elements, reports the end
 * of the stream (the -1 of `InputStream.read`) or throws an `IOException`.
 */
module Streams {

  /** The Java `byte`, as its unsigned bit pattern. */
  type byte = bv8

  /** What one call of `read(buffer)` did. */
  datatype ReadOutcome<T> = Chunk(data: seq<T>) | EndOfStream | ReadFailure

  /** The k-th read of a stream; a stream whose reads are all used up is at its end. */
  function OutcomeAt<T>(outcomes: seq<ReadOutcome<T>>, k: nat): (r: ReadOutcome<T>)
    ensures k >= |outcomes| ==> r == EndOfStream
    ensures r.Chunk? ==> k < |outcomes|
  {
    if k < |outcomes| then outcomes[k] else EndOfStream
  }

  /** The stream honours the `read` contract: no read delivers more than the buffer holds. */
  predicate ChunksFit<T>(outcomes: seq<ReadOutcome<T>>, capacity: nat) {
    forall k :: 0 <= k < |outcomes| && outcomes[k].Chunk? ==> |outcomes[k].data| <= capacity
  }

  /**
   * The reused buffer after a read that delivered `data`: the first |data|
   * elements are overwritten, the rest keep what an earlier read left there.
   */
  function Refill<T>(buffer: seq<T>, data: seq<T>): (r: seq<T>)
    requires |data| <= |buffer|
    ensures |r| == |buffer|
    ensures r[..|data|] == data
    ensures forall i :: |data| <= i < |buffer| ==> r[i] == buffer[i]
  {
    data + buffer[|data|..]
  }

  /** A freshly allocated Java array of `n` elements holds zeros. */
  function Zeros<T>(n: nat, zero: T): (r: seq<T>)
    ensures |r| == n
    ensures forall i :: 0 <= i < n ==> r[i] == zero
  {
    seq(n, _ => zero)
  }

  /** Number of outcomes, from the k-th on, that deliver data before the stream stops. */
  function LeadingChunks<T>(outcomes: seq<ReadOutcome<T>>, k: nat): nat
    decreases |outcomes| - k
  {
    if OutcomeAt(outcomes, k).Chunk? then 1 + LeadingChunks(outcomes, k + 1) else 0
  }

  /** The read that stops a loop started at the k-th read: the first one that is not a chunk. */
  function Stop<T>(outcomes: seq<ReadOutcome<T>>, k: nat): (r: ReadOutcome<T>)
    ensures !r.Chunk?
    decreases |outcomes| - k
  {
    if OutcomeAt(outcomes, k).Chunk? then Stop(outcomes, k + 1) else OutcomeAt(outcomes, k)
  }

  /** The reused buffer once the c-th chunk read from the k-th read on has been copied in. */
  function BufferAfter<T>(buffer: seq<T>, stream: seq<ReadOutcome<T>>, k: nat, c: nat): seq<T>
    requires ChunksFit(stream, |buffer|)
    requires c < LeadingChunks(stream, k)
    decreases c
  {
    var filled := Refill(buffer, OutcomeAt(stream, k).data);
    if c == 0 then filled else BufferAfter(filled, stream, k + 1, c - 1)
  }

  /**
   * The buffer keeps its length and the c-th chunk occupies its front, even
   * when the read was short and the rest of the buffer is stale.
   */
  lemma {:induction false} BufferAfterHoldsChunk<T>(buffer: seq<T>, stream: seq<ReadOutcome<T>>, k: nat, c: nat)
    requires ChunksFit(stream, |buffer|)
    requires c < LeadingChunks(stream, k)
    ensures OutcomeAt(stream, k + c).Chunk?
    ensures var data := OutcomeAt(stream, k + c).data;
            var b := BufferAfter(buffer, stream, k, c);
            |b| == |buffer| && |data| <= |b| && b[..|data|] == data
    decreases c
  {
    var filled := Refill(buffer, OutcomeAt(stream, k).data);
    if c > 0 {
      BufferAfterHoldsChunk(filled, stream, k + 1, c - 1);
    }
  }

  /**
   * One blocking `read(buffer)`: a chunk is copied into the front of the
   * reused buffer; the end of the stream and a failed read leave it as it was.
   */
  method ReadInto<T>(buffer: array<T>, outcomes: seq<ReadOutcome<T>>, k: nat) returns (outcome: ReadOutcome<T>)
    requires ChunksFit(outcomes, buffer.Length)
    modifies buffer
    ensures outcome == OutcomeAt(outcomes, k)
    ensures outcome.Chunk? ==> buffer[..] == Refill(old(buffer[..]), outcome.data)
    ensures !outcome.Chunk? ==> buffer[..] == old(buffer[..])
  {
    outcome := OutcomeAt(outcomes, k);
    if outcome.Chunk? {
      var data := outcome.data;
      for j := 0 to |data|
        invariant buffer[..j] == data[..j]
        invariant buffer[j..] == old(buffer[j..])
      {
        buffer[j] := data[j];
      }
    }
  }
}
