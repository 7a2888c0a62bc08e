/** End to end: messages encoded one after the other, cut anywhere by the transport, deframed by a
    reader and decoded by the dispatcher.
 */
module PacketStream {
  import opened IntegerCodec
  import opened PacketLayout
  import opened PacketSplit
  import opened Deframer
  import opened Dispatch

  /** A message of the declared layout number `kind`. */
  datatype Message = Message(kind: nat, values: seq<Value>)

  /** The message is of a layout whose decoder knows the payload length, has values of the declared
      types, and is not longer than the receiver accepts. */
  predicate Sendable(m: Message) {
    && m.kind < |PROTOCOL_MAP| && PROTOCOL_MAP[m.kind] != SMTS_FRAME_RES
    && WellFormed(PROTOCOL_MAP[m.kind])
    && ValuesFit(PROTOCOL_MAP[m.kind].fields, m.values)
    && Length(PROTOCOL_MAP[m.kind].fields, m.values) <= MAX_PACKET_LEN
  }

  predicate AllSendable(ms: seq<Message>) {
    forall i :: 0 <= i < |ms| ==> Sendable(ms[i])
  }

  function PacketOf(m: Message): seq<Byte>
    requires Sendable(m)
  {
    Packet(PROTOCOL_MAP[m.kind], m.values)
  }

  function Packets(ms: seq<Message>): (ps: seq<seq<Byte>>)
    requires AllSendable(ms)
    ensures |ps| == |ms|
    ensures forall i :: 0 <= i < |ms| ==> ps[i] == PacketOf(ms[i])
  {
    if ms == [] then [] else [PacketOf(ms[0])] + Packets(ms[1..])
  }

  /** What the receiver makes of a packet: its layout and its values. */
  function Received(packet: seq<Byte>): Option<(Layout, seq<Value>)> {
    if |packet| < 8 || LayoutOf(packet).None? then None
    else
      var values := Decode(LayoutOf(packet).value, packet);
      if values.None? then None else Some((LayoutOf(packet).value, values.value))
  }

  lemma OneMessage(m: Message)
    requires Sendable(m)
    ensures IsPacket(PacketOf(m))
    ensures Received(PacketOf(m)) == Some((PROTOCOL_MAP[m.kind], Normal(Stamp(PROTOCOL_MAP[m.kind], m.values))))
  {
    var l := PROTOCOL_MAP[m.kind];
    PacketIsStamped(l, m.values);
    RoundTrip(l, m.values);
    DeclaredAdjustments(m.kind);
    EncodedFindsItsLayout(m.kind, m.values);
  }

  /** Main result: the stream of any list of messages splits into their packets, and each packet is
      received as the message it came from, with its header stamped. */
  lemma EndToEnd(ms: seq<Message>)
    requires AllSendable(ms)
    ensures Split(Concat(Packets(ms))) == SplitResult(Packets(ms), [], false)
    ensures forall i :: 0 <= i < |ms| ==>
      Received(Packets(ms)[i]) == Some((PROTOCOL_MAP[ms[i].kind], Normal(Stamp(PROTOCOL_MAP[ms[i].kind], ms[i].values))))
  {
    forall i | 0 <= i < |ms|
      ensures IsPacket(Packets(ms)[i])
      ensures Received(Packets(ms)[i]) == Some((PROTOCOL_MAP[ms[i].kind], Normal(Stamp(PROTOCOL_MAP[ms[i].kind], ms[i].values))))
    {
      OneMessage(ms[i]);
    }
    SplitOfConcat(Packets(ms));
  }

  /** The same through the reader: whatever chunks the transport cuts the stream into, and however
      many bytes each read takes, the packets delivered are those sent, in order. */
  method Transfer(ghost ms: seq<Message>, chunks: seq<seq<Byte>>, littleEndian: bool) returns (reader: TcpReader)
    requires AllSendable(ms) && Concat(chunks) == Concat(Packets(ms))
    ensures reader.Valid() && reader.state == Reading
    ensures reader.delivered == Packets(ms)
    ensures reader.consumed == Concat(Packets(ms)) && reader.body == null
  {
    reader := new TcpReader(littleEndian, true);
    EndToEnd(ms);
    FeedAll(reader, chunks);
    hide *;
    reader.Unpack();
  }

  /** A stream without a bad length is read to its end. */
  method FeedAll(reader: TcpReader, chunks: seq<seq<Byte>>)
    requires reader.Valid() && reader.state == Reading && reader.hasCallback
    requires reader.consumed == [] && reader.body == null && !Split(Concat(chunks)).bad
    modifies reader
    ensures reader.Valid() && reader.state == Reading && reader.hasCallback
    ensures reader.consumed == Concat(chunks)
  {
    var i := 0;
    assert chunks[0..] == chunks && [] + Concat(chunks) == Concat(chunks);
    hide *;
    while i < |chunks|
      invariant 0 <= i <= |chunks| && reader.hasCallback && (reader.body == null || fresh(reader.body))
      invariant reader.Valid() && reader.state == Reading
      invariant reader.consumed + Concat(chunks[i..]) == Concat(chunks)
    {
      ConcatStep(reader.consumed, chunks, i);
      SplitExtend(reader.consumed + chunks[i], Concat(chunks[i + 1..]));
      reader.Feed(chunks[i]);
      i := i + 1;
    }
    ConcatEnd(reader.consumed, chunks);
  }

  lemma ConcatStep(before: seq<Byte>, chunks: seq<seq<Byte>>, i: nat)
    requires i < |chunks|
    ensures before + Concat(chunks[i..]) == (before + chunks[i]) + Concat(chunks[i + 1..])
  {
    assert chunks[i..][1..] == chunks[i + 1..];
    Associative(before, chunks[i], Concat(chunks[i + 1..]));
  }

  lemma ConcatEnd(before: seq<Byte>, chunks: seq<seq<Byte>>)
    ensures before + Concat(chunks[|chunks|..]) == before
  {
    assert before + [] == before;
  }
}
