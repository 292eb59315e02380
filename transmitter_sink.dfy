/**
 * A MIDI transmitter that fans out to a fixed list of transmitters: closing
 * it or connecting it to a receiver is done on every transmitter, and asking
 * for its receiver checks that all transmitters are connected to the very
 * same receiver object.
 */
module Midi {
  import opened Outcomes

  /** A MIDI receiver; only its identity matters here. */
  class Receiver {
    constructor () {}
  }

  /** A MIDI transmitter, observed through the receiver it sends to and whether it was closed. */
  class Transmitter {
    var receiver: Receiver?
    var closed: bool

    constructor ()
      ensures receiver == null && !closed
    {
      receiver := null;
      closed := false;
    }

    method SetReceiver(r: Receiver?)
      modifies this
      ensures receiver == r && closed == old(closed)
    {
      receiver := r;
    }

    method Close()
      modifies this
      ensures closed && receiver == old(receiver)
    {
      closed := true;
    }
  }

  /** Raised when the transmitters of a sink are not all connected to the same receiver. */
  datatype SinkError = DifferentReceivers

  /**
   * The receiver a sink reports for the receivers `rs` of its transmitters,
   * checked one transmitter after the other: none for no transmitters, else
   * the first one's, unless a later one differs from it by reference.
   */
  function AgreedReceiver(rs: seq<Receiver?>): Result<Receiver?, SinkError> {
    if |rs| <= 1 then Ok(if rs == [] then null else rs[0])
    else match AgreedReceiver(rs[..|rs| - 1])
      case Err(e) => Err(e)
      case Ok(first) => if rs[|rs| - 1] == first then Ok(first) else Err(DifferentReceivers)
  }

  /**
   * What the receiver agreement means: no transmitters give no receiver;
   * otherwise it succeeds exactly when every transmitter has the first
   * one's receiver, and then reports that receiver.
   */
  lemma {:induction false} AgreedReceiverMeaning(rs: seq<Receiver?>)
    ensures rs == [] ==> AgreedReceiver(rs) == Ok(null)
    ensures rs != [] ==>
              (AgreedReceiver(rs).Ok? <==> forall i :: 0 <= i < |rs| ==> rs[i] == rs[0])
    ensures rs != [] && AgreedReceiver(rs).Ok? ==> AgreedReceiver(rs).value == rs[0]
    ensures AgreedReceiver(rs).Err? ==> AgreedReceiver(rs).error == DifferentReceivers
    decreases |rs|
  {
    if |rs| > 1 {
      var prefix := rs[..|rs| - 1];
      AgreedReceiverMeaning(prefix);
      assert prefix[0] == rs[0];
      if AgreedReceiver(prefix).Ok? && rs[|rs| - 1] == rs[0] {
        forall i | 0 <= i < |rs|
          ensures rs[i] == rs[0]
        {
          if i < |rs| - 1 {
            assert rs[i] == prefix[i];
          }
        }
      }
      if forall i :: 0 <= i < |rs| ==> rs[i] == rs[0] {
        forall i | 0 <= i < |prefix|
          ensures prefix[i] == prefix[0]
        {
          assert prefix[i] == rs[i];
        }
      }
    }
  }

  /** Transmitters all connected to one receiver agree on it. */
  lemma SameReceiverAgrees(rs: seq<Receiver?>, r: Receiver?)
    requires rs != []
    requires forall i :: 0 <= i < |rs| ==> rs[i] == r
    ensures AgreedReceiver(rs) == Ok(r)
  {
    AgreedReceiverMeaning(rs);
  }

  /** A transmitter that sends to a fixed list of transmitters. */
  class TransmitterSink {
    /** The transmitters, fixed at construction. */
    const transmitters: seq<Transmitter>

    constructor (transmitters: seq<Transmitter>)
      ensures this.transmitters == transmitters
    {
      this.transmitters := transmitters;
    }

    /** The receivers of the transmitters, in list order. */
    function Receivers(): (rs: seq<Receiver?>)
      reads transmitters
      ensures |rs| == |transmitters|
      ensures forall i :: 0 <= i < |rs| ==> rs[i] == transmitters[i].receiver
    {
      seq(|transmitters|, i reads transmitters requires 0 <= i < |transmitters| => transmitters[i].receiver)
    }

    /** Closes every transmitter and changes nothing else. */
    method Close()
      modifies transmitters
      ensures forall t :: t in transmitters ==> t.closed && t.receiver == old(t.receiver)
    {
      for i := 0 to |transmitters|
        invariant forall k :: 0 <= k < i ==> transmitters[k].closed
        invariant forall t :: t in transmitters ==> t.receiver == old(t.receiver)
      {
        transmitters[i].Close();
      }
    }

    /**
     * The receiver all transmitters send to: none when there are no
     * transmitters, the shared one when they all agree, an error otherwise.
     */
    method GetReceiver() returns (r: Result<Receiver?, SinkError>)
      ensures r == AgreedReceiver(Receivers())
    {
      ghost var rs := Receivers();
      AgreedReceiverMeaning(rs);
      var receiver: Receiver? := null;
      if |transmitters| != 0 {
        receiver := transmitters[0].receiver;
        for i := 1 to |transmitters|
          invariant forall k :: 0 <= k < i ==> rs[k] == receiver
        {
          if transmitters[i].receiver != receiver {
            return Err(DifferentReceivers);
          }
        }
      }
      r := Ok(receiver);
    }

    /** Connects every transmitter to `receiver` and changes nothing else. */
    method SetReceiver(receiver: Receiver?)
      modifies transmitters
      ensures forall t :: t in transmitters ==> t.receiver == receiver && t.closed == old(t.closed)
      ensures transmitters != [] ==> AgreedReceiver(Receivers()) == Ok(receiver)
    {
      for i := 0 to |transmitters|
        invariant forall k :: 0 <= k < i ==> transmitters[k].receiver == receiver
        invariant forall t :: t in transmitters ==> t.closed == old(t.closed)
      {
        transmitters[i].SetReceiver(receiver);
      }
      if transmitters != [] {
        SameReceiverAgrees(Receivers(), receiver);
      }
    }
  }
}
