/** From a device's settings packets through the frame stream to parsed values at the host. */
module Stack {
  import opened Bytes
  import opened Frames
  import opened Decoding
  import opened FrameConns
  import opened Codec
  import opened Settings
  import opened SettingsCode
  import Connect
  import Requests

  /** These frames carry these capabilities. */
  predicate Carry(frames: seq<Frame>, cs: seq<Capability>) {
    |frames| == |cs| && forall i :: 0 <= i < |cs| ==> CapabilityOk(cs[i]) && frames[i].payload == PrintCapability(cs[i])
  }

  lemma CarriedParses(frames: seq<Frame>, cs: seq<Capability>, i: nat)
    requires Carry(frames, cs) && i < |frames|
    ensures ParseCapability(frames[i].payload, 0) == Parsed(cs[i], |frames[i].payload|)
  {
    var p := frames[i].payload;
    assert p[0..0 + |p|] == p;
    CapabilityIsComplete(p, 0, cs[i]);
  }

  /**
   * Capabilities sent as frames, with junk between them, arrive as the same capabilities in
   * the same order, however the stream is split into reads; none is missing once it is drained.
   */
  method ReceiveCapabilities(conn: FrameConn, times: nat, ghost frames: seq<Frame>, ghost gaps: seq<seq<byte>>,
                             ghost cs: seq<Capability>)
    returns (got: seq<Parsed<Capability>>)
    requires conn.Valid() && conn.readBufLen == 0 && !conn.readStarted
    requires AllSendable(frames) && AreGaps(gaps, |frames|) && conn.sock.incoming == Stream(frames, gaps)
    requires Carry(frames, cs)
    modifies conn, conn.readBuf, conn.sock
    ensures conn.Valid() && |got| <= |cs|
    ensures forall i :: 0 <= i < |got| ==> got[i] == Parsed(cs[i], |PrintCapability(cs[i])|)
    ensures conn.sock.incoming == [] && Quiet(conn.readStarted, conn.Pending()) ==> |got| == |cs|
    ensures conn.sock.prompt && times >= |cs| ==> |got| == |cs|
  {
    var received := PollFrames(conn, times, frames, gaps);
    ghost var ahead := FramesOf(conn.Ahead().bodies);
    assert forall k :: 0 <= k < |received| ==> received[k] == (received + ahead)[k] == frames[k];
    got := ParseEach(received);
    forall i | 0 <= i < |got|
      ensures got[i] == Parsed(cs[i], |PrintCapability(cs[i])|)
    {
      CarriedParses(frames, cs, i);
    }
  }

  method ParseEach(frames: seq<Frame>) returns (got: seq<Parsed<Capability>>)
    ensures |got| == |frames|
    ensures forall i :: 0 <= i < |frames| ==> got[i] == ParseCapability(frames[i].payload, 0)
  {
    got := [];
    for k := 0 to |frames|
      invariant |got| == k && forall i :: 0 <= i < k ==> got[i] == ParseCapability(frames[i].payload, 0)
    {
      var parsed := CapabilityFromFrame(frames[k].payload);
      got := got + [parsed];
    }
  }

  /** The packet that a payload with a list of supported functions becomes. */
  function SupportPacket(payload: seq<byte>): Option<Requests.Packet> {
    match Connect.ParseInfo(payload, 0)
    case Parsed(SupportedFunctions(types), _) => Some(Requests.Packet(Connect.RET_SUPPORT_FUNCTION, 0, types))
    case _ => None
  }

  /** The list that the device encodes is the list that the second stage of init is given. */
  lemma SupportListArrives(types: seq<byte>)
    requires CountedOk(Connect.FunctionTypeOk, types)
    ensures SupportPacket([Connect.RET_SUPPORT_FUNCTION, 0] + PrintCounted(PrintByte, types)) ==
            Some(Requests.Packet(Connect.RET_SUPPORT_FUNCTION, 0, types))
  {
    Connect.EncoderRoundTrips(Connect.SupportedFunctions(types));
  }
}
