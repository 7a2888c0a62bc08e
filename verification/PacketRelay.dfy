/** The way of one frame: a packet from the DVR is decoded in place, its payload is borrowed by the packet
    that all clients are sent, and both are released when the last client is done with it
    (`on_dvr_client_read_frame_cb`, `on_smts_dvr_client_recv_frame`, `on_smts_client_send_frame`).
 */
module PacketRelay {
  import opened IntegerCodec
  import opened PacketLayout
  import opened PacketReads
  import opened PacketFields
  import opened PacketCodec
  import opened Dispatch

  /** What a client does: the gather buffers are read for a write to it, or its use of the frame is
      over, because the write ended or failed or was never made. */
  datatype Use = Write | Over

  function Overs(script: seq<Use>): nat {
    if script == [] then 0 else Overs(script[..|script| - 1]) + if script[|script| - 1].Over? then 1 else 0
  }

  function Writes(script: seq<Use>): nat {
    if script == [] then 0 else Writes(script[..|script| - 1]) + if script[|script| - 1].Write? then 1 else 0
  }

  /** The message for the clients: number, type and payload of the DVR's. */
  function ForClients(m: seq<Value>): (r: seq<Value>)
    requires ValuesFit(MOCK_DVR_FRAME.fields, m)
    ensures ValuesFit(SMTS_FRAME_RES.fields, r)
  {
    Widths();
    [IntValue(0), IntValue(0), m[2], IntValue(0), IntValue(0), m[3], Payload(PayloadBytes(m[5]))]
  }

  lemma PayloadPlaces()
    ensures WellFormed(MOCK_DVR_FRAME) && WellFormed(SMTS_FRAME_RES)
    ensures PayloadIndex(MOCK_DVR_FRAME.fields) == 5 && PayloadIndex(SMTS_FRAME_RES.fields) == 6
    ensures FixedSize(MOCK_DVR_FRAME.fields) == 24
  {
    FixedSizes();
    assert MOCK_DVR_FRAME.fields[5] == BinaryBufRef(24);
    assert SMTS_FRAME_RES.fields[6] == BinaryBufRef(20);
  }

  // ----- Decoding what the DVR sends -----

  /** A delivered packet decodes as a frame exactly when it holds the fixed fields. */
  lemma DeliveredDecodes(packet: seq<Byte>)
    requires |packet| >= 4 && ClaimedLength(packet) == |packet|
    ensures Decode(MOCK_DVR_FRAME, packet).Some? <==> |packet| >= 24
    ensures Read(MOCK_DVR_FRAME, packet).Some? <==> |packet| >= 24
    ensures Decode(MOCK_DVR_FRAME, packet).Some? ==> ValuesFit(MOCK_DVR_FRAME.fields, Decode(MOCK_DVR_FRAME, packet).value)
  {
    PayloadPlaces();
    assert PROTOCOL_MAP[5] == MOCK_DVR_FRAME;
    DeclaredReads(5, packet);
    if |packet| >= 24 {
      WholePacketDecodes(MOCK_DVR_FRAME.fields, packet, 0, |packet|);
    }
    if Decode(MOCK_DVR_FRAME, packet).Some? {
      DecodedInsidePacket(MOCK_DVR_FRAME.fields, packet, 0, |packet|);
      DecodedFits(MOCK_DVR_FRAME.fields, packet, 0, |packet|);
      LengthAtLeastFixed(MOCK_DVR_FRAME.fields, Decode(MOCK_DVR_FRAME, packet).value);
    }
  }

  lemma FrameOffsets()
    ensures FixedSize(MOCK_DVR_FRAME.fields[..2]) == 8 && FixedSize(MOCK_DVR_FRAME.fields[..3]) == 12
    ensures FixedSize(MOCK_DVR_FRAME.fields[..5]) == 24
  {
    var int4 := IntField(4);
    FixedSizeOfInts(2);
    FixedSizeOfInts(3);
    FixedSizeOfInts(4);
    FixedSizeSnoc(seq(4, _ => int4), IntField(8));
    assert MOCK_DVR_FRAME.fields[..2] == seq(2, _ => int4) && MOCK_DVR_FRAME.fields[..3] == seq(3, _ => int4);
    assert MOCK_DVR_FRAME.fields[..5] == seq(4, _ => int4) + [IntField(8)];
  }

  /** What is decoded from a delivered packet, byte by byte. */
  lemma FrameOf(packet: seq<Byte>)
    requires |packet| >= 24 && ClaimedLength(packet) == |packet|
    ensures Decode(MOCK_DVR_FRAME, packet).Some?
    ensures var m := Decode(MOCK_DVR_FRAME, packet).value;
      && m[2] == IntValue(BytesInt(packet[8..12])) && m[3] == IntValue(BytesInt(packet[12..16]))
      && m[5] == Payload(packet[24..])
  {
    DeliveredDecodes(packet);
    FrameOffsets();
    var fs, n, m := MOCK_DVR_FRAME.fields, |packet|, Decode(MOCK_DVR_FRAME, packet).value;
    hide DecodeFrom, FixedSize;
    DecodedAt(fs, packet, 0, n, m, 2, 8);
    DecodedAt(fs, packet, 0, n, m, 3, 12);
    DecodedAt(fs, packet, 0, n, m, 5, 24);
    assert packet[24..24 + (n - 24)] == packet[24..];
  }

  // ----- Encoding what the clients are sent -----

  /** The packet for the clients in terms of the packet from the DVR: length, number, type and payload
      are the same bytes, the command is another, and the two addresses are zero. */
  ghost function Relayed(packet: seq<Byte>): seq<Byte>
    requires |packet| >= 24
  {
    packet[..4] + [128, 5, 1, 2] + packet[8..12] + [0, 0, 0, 0] + [0, 0, 0, 0]
    + packet[12..16] + packet[24..]
  }

  lemma BytesOfSeven(fields: seq<Field>, values: seq<Value>)
    requires |fields| == |values| == 7
    ensures Bytes(fields, values) ==
      FieldBytes(fields[0], values[0]) + FieldBytes(fields[1], values[1]) + FieldBytes(fields[2], values[2])
      + FieldBytes(fields[3], values[3]) + FieldBytes(fields[4], values[4]) + FieldBytes(fields[5], values[5])
      + FieldBytes(fields[6], values[6])
  {
    hide *;
    BytesOfFour(fields[..4], values[..4]);
    BytesOfThree(fields[4..], values[4..]);
    BytesConcat(fields[..4], values[..4], fields[4..], values[4..]);
    assert fields == fields[..4] + fields[4..] && values == values[..4] + values[4..];
  }

  lemma BytesOfFour(fields: seq<Field>, values: seq<Value>)
    requires |fields| == |values| == 4
    ensures Bytes(fields, values) ==
      FieldBytes(fields[0], values[0]) + FieldBytes(fields[1], values[1]) + FieldBytes(fields[2], values[2])
      + FieldBytes(fields[3], values[3])
  {
    hide FieldBytes;
    BytesOfThree(fields[1..], values[1..]);
  }

  lemma BytesOfThree(fields: seq<Field>, values: seq<Value>)
    requires |fields| == |values| == 3
    ensures Bytes(fields, values) ==
      FieldBytes(fields[0], values[0]) + FieldBytes(fields[1], values[1]) + FieldBytes(fields[2], values[2])
  {
    hide FieldBytes;
    assert Bytes(fields[1..][1..], values[1..][1..]) == FieldBytes(fields[2], values[2]) + [];
  }

  lemma LengthForClients(m: seq<Value>)
    requires ValuesFit(MOCK_DVR_FRAME.fields, m)
    ensures Length(SMTS_FRAME_RES.fields, ForClients(m)) == 24 + |PayloadBytes(m[5])|
  {
    FixedSizes();
    hide Length, FixedSize;
    LengthSplits(SMTS_FRAME_RES.fields, ForClients(m), 6);
  }

  lemma Pieces(packet: seq<Byte>)
    requires |packet| >= 24 && ClaimedLength(packet) == |packet|
    ensures IntBytes(4, |packet|) == packet[..4] && Truncate(4, |packet|) == |packet|
    ensures IntBytes(4, BytesInt(packet[8..12])) == packet[8..12] && IntBytes(4, BytesInt(packet[12..16])) == packet[12..16]
    ensures IntBytes(4, 0) == [0, 0, 0, 0] && IntBytes(4, Truncate(4, SMTS_FRAME_RES.cmd)) == [128, 5, 1, 2]
  {
    hide IntBytes, Truncate, Fits;
    OneCommand(128, 5, 1, 2);
    FourBytes(0, 0, 0, 0);
    ClaimsAreSmall(packet);
    Widths();
    TruncateOfFitting(4, |packet|);
    hide IntBytes, BytesInt, Truncate;
    EncodeOfDecode(packet[..4]);
    EncodeOfDecode(packet[8..12]);
    EncodeOfDecode(packet[12..16]);
  }

  lemma RelayedFrom(packet: seq<Byte>, v: seq<Value>, bytes: seq<Byte>)
    requires |packet| >= 24 && ClaimedLength(packet) == |packet|
    requires v == [IntValue(|packet|), IntValue(Truncate(4, SMTS_FRAME_RES.cmd)), IntValue(BytesInt(packet[8..12])),
                   IntValue(0), IntValue(0), IntValue(BytesInt(packet[12..16])), Payload(packet[24..])]
    requires bytes == Bytes(SMTS_FRAME_RES.fields, v)
    ensures bytes == Relayed(packet)
  {
    Pieces(packet);
    BytesOfSeven(SMTS_FRAME_RES.fields, v);
    hide IntBytes, BytesInt, Truncate, Bytes, ClaimedLength;
  }

  lemma StampedForClients(packet: seq<Byte>, m: seq<Value>)
    requires |packet| >= 24 && ClaimedLength(packet) == |packet| && ValuesFit(MOCK_DVR_FRAME.fields, m)
    requires m[2] == IntValue(BytesInt(packet[8..12])) && m[3] == IntValue(BytesInt(packet[12..16]))
    requires m[5] == Payload(packet[24..])
    ensures WellFormed(SMTS_FRAME_RES)
    ensures Stamp(SMTS_FRAME_RES, ForClients(m)) ==
      [IntValue(|packet|), IntValue(Truncate(4, SMTS_FRAME_RES.cmd)), m[2], IntValue(0), IntValue(0), m[3], m[5]]
  {
    hide IntBytes, BytesInt, Truncate, Length, ClaimedLength, Pow256;
    Pieces(packet);
    LengthForClients(m);
    var f := ForClients(m);
    assert f[0 := IntValue(|packet|)][1 := IntValue(Truncate(4, SMTS_FRAME_RES.cmd))] ==
      [IntValue(|packet|), IntValue(Truncate(4, SMTS_FRAME_RES.cmd)), m[2], IntValue(0), IntValue(0), m[3], m[5]];
  }

  /** Main result: the packet that clients are sent, for every packet the DVR can send. */
  lemma RelayedBytes(packet: seq<Byte>)
    requires |packet| >= 24 && ClaimedLength(packet) == |packet|
    ensures Decode(MOCK_DVR_FRAME, packet).Some?
    ensures var m := Decode(MOCK_DVR_FRAME, packet).value;
      && ValuesFit(MOCK_DVR_FRAME.fields, m)
      && Packet(SMTS_FRAME_RES, ForClients(m)) == Relayed(packet)
  {
    DeliveredDecodes(packet);
    FrameOf(packet);
    var m := Decode(MOCK_DVR_FRAME, packet).value;
    hide Decode, ClaimedLength, Relayed, BytesInt, Truncate, ValuesFit, Bytes, ForClients, Stamp;
    StampedForClients(packet, m);
    RelayedFrom(packet, Stamp(SMTS_FRAME_RES, ForClients(m)), Packet(SMTS_FRAME_RES, ForClients(m)));
  }

  // ----- The callbacks -----

  /** A frame from the DVR: the structure holds the packet as its only buffer, and its payload is a view
      of it. */
  ghost predicate HoldsFrame(frame: Command, packet: array<Byte>)
    reads frame, packet
  {
    && frame.Freeable() && frame.ref == 0 && frame.freed == []
    && OwnedBlocks(frame.slots, frame.refBits) == [packet]
    && frame.layout == MOCK_DVR_FRAME && frame.payload.Slice? && frame.payload.mem == packet && InBounds(frame.payload)
    && |packet[..]| >= 24 && Decode(MOCK_DVR_FRAME, packet[..]).Some?
    && var m := Decode(MOCK_DVR_FRAME, packet[..]).value;
       && |frame.values| == 6 && frame.values[2] == m[2] && frame.values[3] == m[3]
       && Payload(Content(frame.payload)) == m[5]
  }

  /** on_dvr_client_read_frame_cb: decoded, kept by one reference, and the read callback's own dropped. */
  method ReceiveFrame(packet: array<Byte>) returns (inside: bool, frame: Command)
    requires ClaimedLength(packet[..]) == packet.Length >= 4
    ensures inside <==> packet.Length >= 24
    ensures fresh(frame) && (inside ==> HoldsFrame(frame, packet))
  {
    DeliveredDecodes(packet[..]);
    PayloadPlaces();
    OwnsItsPacket(packet);
    frame := new Command(MOCK_DVR_FRAME, InitialValues(MOCK_DVR_FRAME.fields));
    inside := frame.Decode(packet);
    if inside {
      frame.IncreaseRef();
      frame.Destroy();
    }
  }

  /** The packet of the clients: a block of its own in front of the payload, which it borrows from the
      packet of the DVR, together `bytes`, with one reference for each use that is not over. */
  ghost predicate Shared(res: Command, uses: nat, header: array<Byte>, packet: array<Byte>, bytes: seq<Byte>)
    reads res, header, packet
  {
    && res.Freeable() && res.ref == uses && res.freed == [] && header != packet
    && OwnedBlocks(res.slots, res.refBits) == [header]
    && |res.slots| == 2 && res.slots[0] == Slice(header, 0, header.Length)
    && res.slots[1].Slice? && res.slots[1].mem == packet && InBounds(res.slots[1])
    && Content(res.slots[0]) + Content(res.slots[1]) == bytes
  }

  /** The structure for the clients before it is encoded to `bytes`. */
  ghost predicate Filled(res: Command, packet: array<Byte>, bytes: seq<Byte>)
    reads res, packet
  {
    && res.Valid() && res.freed == [] && res.payload.Slice? && res.payload.mem == packet
    && |res.layout.fields| == 7 && PayloadIndex(res.layout.fields) == 6
    && Packet(res.layout, res.Message()) == bytes
  }

  /** The structure for the clients, encoded, with a reference for each of them. */
  method ShareFrame(frame: Command, packet: array<Byte>, clientSize: nat) returns (res: Command, ghost header: array<Byte>)
    requires HoldsFrame(frame, packet) && ClaimedLength(packet[..]) == packet.Length
    ensures fresh(res) && fresh(header) && |packet[..]| >= 24
    ensures Shared(res, clientSize, header, packet, Relayed(packet[..]))
  {
    RelayedBytes(packet[..]);
    res := InitForClients(frame, packet);
    ghost var bytes := Relayed(packet[..]);
    hide *;
    header := EncodeForClients(res, packet, bytes, clientSize);
  }

  method InitForClients(frame: Command, packet: array<Byte>) returns (res: Command)
    requires HoldsFrame(frame, packet)
    requires ValuesFit(MOCK_DVR_FRAME.fields, Decode(MOCK_DVR_FRAME, packet[..]).value)
    ensures fresh(res)
    ensures Filled(res, packet, Packet(SMTS_FRAME_RES, ForClients(Decode(MOCK_DVR_FRAME, packet[..]).value)))
  {
    PayloadPlaces();
    ghost var m := Decode(MOCK_DVR_FRAME, packet[..]).value;
    res := new Command(SMTS_FRAME_RES, InitialValues(SMTS_FRAME_RES.fields));
    FilledIn(res.values, m);
    hide Decode;
    res.values := res.values[2 := frame.values[2]][5 := frame.values[3]];
    res.payload := frame.payload;
  }

  lemma FilledIn(values: seq<Value>, m: seq<Value>)
    requires ValuesFit(MOCK_DVR_FRAME.fields, m) && m[5].Payload?
    requires values == InitialValues(SMTS_FRAME_RES.fields)[1 := IntValue(Truncate(4, SMTS_FRAME_RES.cmd))]
    ensures ValuesFit(SMTS_FRAME_RES.fields, values[2 := m[2]][5 := m[3]]) && values[6] == NoPayload
    ensures Packet(SMTS_FRAME_RES, values[2 := m[2]][5 := m[3]][6 := m[5]]) == Packet(SMTS_FRAME_RES, ForClients(m))
  {
    var v := values[2 := m[2]][5 := m[3]][6 := m[5]];
    var k := TruncateShift(4, SMTS_FRAME_RES.cmd);
    assert v[1 := IntValue(0)] == ForClients(m);
    LengthIgnoresInts(SMTS_FRAME_RES.fields, v, ForClients(m));
    assert Stamp(SMTS_FRAME_RES, v) == Stamp(SMTS_FRAME_RES, ForClients(m));
    hide Bytes;
  }

  method EncodeForClients(res: Command, packet: array<Byte>, ghost bytes: seq<Byte>, clientSize: nat)
      returns (ghost header: array<Byte>)
    requires Filled(res, packet, bytes)
    modifies res
    ensures fresh(header) && Shared(res, clientSize, header, packet, bytes)
  {
    hide WellFormed, ValuesFit, Packet, Command.Message;
    res.Encode();
    header := res.slots[0].mem;
    EncodedParts(res);
    hide OwnedBlocks, Gather;
    res.ref := res.ref + clientSize;
  }

  /** What the clients' structure owns and borrows after it was encoded. */
  lemma EncodedParts(res: Command)
    requires WellFormed(res.layout) && res.SlotsFit() && res.Valid() && res.freed == [] && res.payload != Null
    requires |res.layout.fields| == 7 && PayloadIndex(res.layout.fields) == 6
    ensures res.Freeable() && |res.slots| == 2 && OwnedBlocks(res.slots, res.refBits) == [res.slots[0].mem]
    ensures InBounds(res.slots[0]) && InBounds(res.slots[1])
    ensures res.Gathered() == Content(res.slots[0]) + Content(res.slots[1])
  {
    res.OwnedAfterEncode();
    res.FreeableAfterEncode();
    GatherUpToThree(res.slots);
    hide WellFormed, ValuesFit, OwnedBlocks, Gather;
  }

  /** tcp_client_send_msg: what libuv reads are the gather buffers. */
  method WriteFrame(res: Command, ghost uses: nat, ghost header: array<Byte>, ghost packet: array<Byte>, ghost bytes: seq<Byte>)
      returns (ghost sent: seq<Byte>)
    requires Shared(res, uses, header, packet, bytes)
    ensures sent == bytes
  {
    GatherUpToThree(res.slots);
    sent := res.Gathered();
  }

  /** on_smts_client_send_frame: the last use releases the clients' packet and then the DVR's. */
  method UseOver(res: Command, frame: Command, ghost header: array<Byte>, ghost packet: array<Byte>, ghost bytes: seq<Byte>)
    requires res != frame && res.ref > 0 && Shared(res, res.ref, header, packet, bytes) && HoldsFrame(frame, packet)
    modifies res, frame
    ensures if old(res.ref) > 1 then Shared(res, old(res.ref) - 1, header, packet, bytes) && HoldsFrame(frame, packet)
            else !res.live && res.freed == [header] && !frame.live && frame.freed == [packet]
  {
    hide Decode, OwnedBlocks;
    res.ref := res.ref - 1;
    if res.ref == 0 {
      res.Destroy();
      frame.Destroy();
    }
  }

  /** Main result: whatever the order in which the clients write and finish, each of them is sent the
      frame that the DVR sent; the memory of both packets is held until the last use is over, and is
      then freed once. */
  method RelayFrame(packet: array<Byte>, clientSize: nat, script: seq<Use>)
      returns (inside: bool, ghost sent: seq<seq<Byte>>, ghost freed: seq<array<Byte>>)
    requires ClaimedLength(packet[..]) == packet.Length >= 4
    requires forall k :: 0 <= k < |script| ==> Overs(script[..k]) < clientSize
    ensures inside <==> packet.Length >= 24
    ensures inside ==> |sent| == Writes(script) && forall i :: 0 <= i < |sent| ==> sent[i] == Relayed(packet[..])
    ensures inside && Overs(script) < clientSize ==> freed == []
    ensures inside && Overs(script) >= clientSize ==>
      if clientSize == 0 then freed == [packet] else |freed| == 2 && freed[1] == packet && fresh(freed[0])
  {
    sent, freed := [], [];
    var frame: Command;
    inside, frame := ReceiveFrame(packet);
    hide *;
    if inside {
      AtLeast24(packet);
      sent, freed := SendFrame(frame, packet, clientSize, script, Relayed(packet[..]));
    }
  }

  lemma AtLeast24(packet: array<Byte>)
    ensures |packet[..]| == packet.Length
  {
  }

  /** on_smts_dvr_client_recv_frame and what follows it. */
  method SendFrame(frame: Command, packet: array<Byte>, clientSize: nat, script: seq<Use>, ghost bytes: seq<Byte>)
      returns (ghost sent: seq<seq<Byte>>, ghost freed: seq<array<Byte>>)
    requires HoldsFrame(frame, packet) && ClaimedLength(packet[..]) == packet.Length && bytes == Relayed(packet[..])
    requires forall k :: 0 <= k < |script| ==> Overs(script[..k]) < clientSize
    modifies frame
    ensures |sent| == Writes(script) && forall i :: 0 <= i < |sent| ==> sent[i] == bytes
    ensures Overs(script) < clientSize ==> freed == []
    ensures Overs(script) >= clientSize ==>
      if clientSize == 0 then freed == [packet] else |freed| == 2 && freed[1] == packet && fresh(freed[0])
  {
    sent := [];
    if clientSize == 0 {
      assert script == [] by {
        assert script != [] ==> Overs(script[..0]) < 0;
      }
      DestroyFrame(frame, packet);
      freed := frame.freed;
      return;
    }
    hide Relayed, HoldsFrame, Overs, Writes;
    ghost var header;
    var res: Command;
    res, header := ShareFrame(frame, packet, clientSize);
    HeldAtFirst(res, frame, clientSize, header, packet, bytes);
    hide *;
    sent := UseFrame(res, frame, script, clientSize, header, packet, bytes);
    freed := res.freed + frame.freed;
    HeldFreed(res, frame, clientSize - Overs(script), header, packet, bytes);
  }

  lemma HeldAtFirst(res: Command, frame: Command, uses: nat, header: array<Byte>, packet: array<Byte>, bytes: seq<Byte>)
    requires Shared(res, uses, header, packet, bytes) && HoldsFrame(frame, packet) && res != frame && uses > 0
    ensures Held(res, frame, uses, header, packet, bytes)
  {
    hide Shared, HoldsFrame;
  }

  lemma HeldFreed(res: Command, frame: Command, uses: nat, header: array<Byte>, packet: array<Byte>, bytes: seq<Byte>)
    requires Held(res, frame, uses, header, packet, bytes)
    ensures res.freed + frame.freed == if uses > 0 then [] else [header, packet]
  {
  }

  /** destroy_smts_frame */
  method DestroyFrame(frame: Command, ghost packet: array<Byte>)
    requires HoldsFrame(frame, packet)
    modifies frame
    ensures !frame.live && frame.freed == [packet]
  {
    hide Decode, OwnedBlocks;
    frame.Destroy();
  }

  method UseFrame(res: Command, frame: Command, script: seq<Use>, ghost n: nat, ghost header: array<Byte>,
                  ghost packet: array<Byte>, ghost bytes: seq<Byte>) returns (ghost sent: seq<seq<Byte>>)
    requires n > 0 && Held(res, frame, n, header, packet, bytes)
    requires forall k :: 0 <= k < |script| ==> Overs(script[..k]) < n
    modifies res, frame
    ensures |sent| == Writes(script) && forall i :: 0 <= i < |sent| ==> sent[i] == bytes
    ensures Overs(script) <= n && Held(res, frame, n - Overs(script), header, packet, bytes)
  {
    sent := [];
    UsesBegin(script, n);
    hide *;
    for i := 0 to |script|
      invariant Overs(script[..i]) <= n && |sent| == Writes(script[..i])
      invariant forall j :: 0 <= j < |sent| ==> sent[j] == bytes
      invariant Held(res, frame, n - Overs(script[..i]), header, packet, bytes)
    {
      UseStep(script, i);
      assert Overs(script[..i]) < n;
      sent := UseOnce(res, frame, script[i], sent, n - Overs(script[..i]), header, packet, bytes);
    }
    assert script[..|script|] == script;
  }

  method UseOnce(res: Command, frame: Command, use: Use, ghost before: seq<seq<Byte>>, ghost uses: nat, ghost header: array<Byte>,
                 ghost packet: array<Byte>, ghost bytes: seq<Byte>) returns (ghost sent: seq<seq<Byte>>)
    requires uses > 0 && Held(res, frame, uses, header, packet, bytes)
    modifies res, frame
    ensures sent == before + if use == Write then [bytes] else []
    ensures Held(res, frame, if use == Write then uses else uses - 1, header, packet, bytes)
  {
    sent := before;
    hide HoldsFrame, OwnedBlocks;
    if use == Write {
      var one := WriteFrame(res, uses, header, packet, bytes);
      sent := sent + [one];
    } else {
      UseOver(res, frame, header, packet, bytes);
    }
  }

  /** Both structures while `uses` are not over, and after the last one. */
  ghost predicate Held(res: Command, frame: Command, uses: nat, header: array<Byte>, packet: array<Byte>, bytes: seq<Byte>)
    reads res, frame, header, packet
  {
    && res != frame
    && if uses > 0 then Shared(res, uses, header, packet, bytes) && HoldsFrame(frame, packet)
       else !res.live && res.freed == [header] && !frame.live && frame.freed == [packet]
  }

  lemma UsesBegin(script: seq<Use>, n: nat)
    ensures Overs(script[..0]) == 0 == Writes(script[..0])
  {
  }

  lemma UseStep(script: seq<Use>, i: nat)
    requires i < |script|
    ensures Overs(script[..i + 1]) == Overs(script[..i]) + if script[i].Over? then 1 else 0
    ensures Writes(script[..i + 1]) == Writes(script[..i]) + if script[i].Write? then 1 else 0
  {
    assert script[..i + 1][..i] == script[..i];
  }
}
