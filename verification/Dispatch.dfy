/** The life of a received packet: `src/smts_dispatch.c`, the generated switch of
    `src/smts_dispatch.h`, and the transparent channel to the DVR
    (`src/smts_session.c`, `src/smts_client_impl.c`).
 */
module Dispatch {
  import opened IntegerCodec
  import opened PacketLayout
  import opened PacketCodec
  import opened PacketReads
  import opened PacketFields
  import SessionRegistry

  datatype Handler = NoImpl | StartPreview | MockDvrPreview | MsgChannel

  /** The handler column of the protocol map. */
  function HandlerOf(l: Layout): Handler {
    if l == PREVIEW_CMD then StartPreview
    else if l == MOCK_DVR_PREVIEW then MockDvrPreview
    else if l == TEST_PTZ_CMD then MsgChannel
    else NoImpl
  }

  /** The first layout with this command, as the switch finds it. */
  function FindIn(layouts: seq<Layout>, cmd: int): (r: Option<Layout>)
    ensures r.Some? ==> r.value in layouts && Truncate(4, r.value.cmd) == cmd
    ensures r.None? ==> forall l :: l in layouts ==> Truncate(4, l.cmd) != cmd
  {
    if layouts == [] then None
    else if Truncate(4, layouts[0].cmd) == cmd then Some(layouts[0])
    else FindIn(layouts[1..], cmd)
  }

  /** The layout a packet is decoded with. */
  function LayoutOf(packet: seq<Byte>): Option<Layout>
    requires |packet| >= 8
  {
    FindIn(PROTOCOL_MAP, BytesInt(packet[4..8]))
  }

  /** An encoded message of a declared layout is decoded with that layout. */
  lemma EncodedFindsItsLayout(i: nat, values: seq<Value>)
    requires i < |PROTOCOL_MAP| && ValuesFit(PROTOCOL_MAP[i].fields, values)
    requires Length(PROTOCOL_MAP[i].fields, values) < 0x8000_0000
    ensures |Packet(PROTOCOL_MAP[i], values)| >= 8
    ensures LayoutOf(Packet(PROTOCOL_MAP[i], values)) == Some(PROTOCOL_MAP[i])
  {
    DeclaredLayoutsAreWellFormed();
    PacketIsStamped(PROTOCOL_MAP[i], values);
    CommandsAreDistinct();
    hide Truncate, FindIn, WellFormed, ValuesFit, Packet, BytesInt;
    FindInDistinct(PROTOCOL_MAP, i);
  }

  lemma {:induction false} FindInDistinct(layouts: seq<Layout>, i: nat)
    requires i < |layouts|
    requires forall j, k :: 0 <= j < k < |layouts| ==> Truncate(4, layouts[j].cmd) != Truncate(4, layouts[k].cmd)
    ensures FindIn(layouts, Truncate(4, layouts[i].cmd)) == Some(layouts[i])
    decreases i
  {
    hide Truncate;
    if i > 0 {
      FindInDistinct(layouts[1..], i - 1);
    }
  }

  // ----- What the bytes of a packet say -----

  /** The layout that the four bytes of a command stand for. */
  ghost function LayoutBy(b: seq<Byte>): Option<Layout> {
    if b == [0, 0, 0, 0] then Some(ABSTRACT_CMD)
    else if b == [0, 5, 1, 4] then Some(PREVIEW_CMD)
    else if b == [128, 5, 1, 1] then Some(PREVIEW_CMD_RES)
    else if b == [128, 5, 1, 2] then Some(SMTS_FRAME_RES)
    else if b == [0, 1, 128, 1] then Some(MOCK_DVR_PREVIEW)
    else if b == [0, 1, 128, 2] then Some(MOCK_DVR_FRAME)
    else if b == [0, 1, 128, 16] then Some(TEST_PTZ_CMD)
    else if b == [128, 0, 0, 1] then Some(COMMON_RES)
    else None
  }

  lemma LayoutByBytes(b: seq<Byte>, found: Option<Layout>)
    requires |b| == 4 && found == FindIn(PROTOCOL_MAP, BytesInt(b))
    ensures found == LayoutBy(b)
  {
    if LayoutBy(b).Some? {
      FoundDeclared(b, found);
    } else if found.Some? {
      EncodeOfDecode(b);
      hide BytesInt, FindIn;
      DeclaredCommand(found.value);
    }
  }

  lemma FoundDeclared(b: seq<Byte>, found: Option<Layout>)
    requires |b| == 4 && found == FindIn(PROTOCOL_MAP, BytesInt(b)) && LayoutBy(b).Some?
    ensures found == LayoutBy(b)
  {
    CommandIsThese(b);
    ByIsDeclared(b);
    CommandsAreDistinct();
    hide *;
    var i: nat :| i < |PROTOCOL_MAP| && PROTOCOL_MAP[i] == LayoutBy(b).value;
    FindInDistinct(PROTOCOL_MAP, i);
  }

  lemma DeclaredCommand(l: Layout)
    requires l in PROTOCOL_MAP
    ensures LayoutBy(IntBytes(4, Truncate(4, l.cmd))) == Some(l)
  {
    CommandBytes();
    ResponseBytes();
    hide IntBytes, Truncate;
  }

  lemma CommandIsThese(b: seq<Byte>)
    requires LayoutBy(b).Some?
    ensures BytesInt(b) == Truncate(4, LayoutBy(b).value.cmd)
  {
    CommandBytes();
    ResponseBytes();
    var l := LayoutBy(b).value;
    hide BytesInt, IntBytes, Truncate, Pow256, Fits;
    var k := TruncateShift(4, l.cmd);
    DecodeOfEncode(4, Truncate(4, l.cmd));
    assert IntBytes(4, Truncate(4, l.cmd)) == b;
  }

  lemma ByIsDeclared(b: seq<Byte>)
    ensures LayoutBy(b).Some? ==> LayoutBy(b).value in PROTOCOL_MAP
  {
  }

  /** What a packet with its fixed fields leads to. */
  datatype Reaction = NotImplemented | Requested(key: SessionRegistry.SessionKey) | MockPreview | Channel(sent: bool)

  const SESSION_TYPE_SMTS := 0

  /** A preview command asks for the session of a DVR, a channel and a frame mode; a PTZ command goes to the
      DVR of the session; no other command of the protocol is acted on by the server. */
  ghost function ReactionTo(packet: seq<Byte>, hasSession: bool, sendOk: bool): Reaction
    requires |packet| >= 8
  {
    if packet[4..8] == [0, 5, 1, 4] && |packet| >= 162 then
      Requested(SessionRegistry.SessionKey(
        BytesInt(packet[148..156]), BytesInt(packet[156..158]), BytesInt(packet[158..162]), SESSION_TYPE_SMTS))
    else if packet[4..8] == [0, 1, 128, 16] then Channel(hasSession && sendOk)
    else if packet[4..8] == [0, 1, 128, 1] then MockPreview
    else NotImplemented
  }

  /** The size of the fixed fields by the bytes of the command. */
  ghost function FixedLength(b: seq<Byte>): nat {
    if b == [0, 0, 0, 0] then 8
    else if b == [0, 5, 1, 4] then 162
    else if b == [128, 5, 1, 1] then 40
    else if b == [0, 1, 128, 1] then 16
    else 24
  }

  /** What became of a packet.  OutOfBounds stands for the reads past the end of a packet that is
      shorter than the fixed fields of its layout, which the code does not check for. */
  datatype Outcome = OutOfBounds | Ignored | Handled(cmd: Command, reaction: Reaction)

  /** media_client_send_cmd: without a session nothing is sent; otherwise the command gets one more
      reference, which a failed write drops again and a write callback drops later. */
  method SendCmd(cmd: Command, hasSession: bool, sendOk: bool) returns (sent: bool)
    requires cmd.Freeable()
    modifies cmd
    ensures sent <==> hasSession && sendOk
    ensures cmd.Freeable() && cmd.ref == old(cmd.ref) + if sent then 1 else 0
    ensures cmd.slots == old(cmd.slots) && cmd.refBits == old(cmd.refBits) && cmd.freed == old(cmd.freed)
  {
    if !hasSession {
      return false;
    }
    cmd.IncreaseRef();
    if !sendOk {
      cmd.Destroy();
      return false;
    }
    return true;
  }

  /** dispatch_packet on a delivered packet.  The packet buffer passes to the command, which frees
      it with itself at the end, unless a forwarding write still holds a reference. */
  method DispatchPacket(packet: array<Byte>, hasSession: bool, sendOk: bool) returns (r: Outcome, ghost freed: seq<array<Byte>>)
    ensures r == OutOfBounds <==>
      packet.Length < 8 || (LayoutOf(packet[..]).Some? && packet.Length < FixedSize(LayoutOf(packet[..]).value.fields))
    ensures r == Ignored ==> LayoutOf(packet[..]).None? && freed == [packet]
    ensures r.Handled? ==> fresh(r.cmd) && LayoutOf(packet[..]) == Some(r.cmd.layout) && Finished(r, packet, freed)
    ensures r == OutOfBounds <==>
      packet.Length < 8 || (LayoutBy(packet[4..8]).Some? && packet.Length < FixedLength(packet[4..8]))
    ensures r == Ignored <==> packet.Length >= 8 && LayoutBy(packet[4..8]).None?
    ensures r.Handled? ==> r.reaction == ReactionTo(packet[..], hasSession, sendOk)
  {
    freed := [];
    if packet.Length < 8 {
      return OutOfBounds, freed;
    }
    var number := DecodeInt(packet, 4, 4);
    assert packet[..][4..8] == packet[4..8];
    var layout := FindIn(PROTOCOL_MAP, number);
    if layout.None? {
      LayoutByBytes(packet[4..8], layout);
      freed := [packet];
      return Ignored, freed;
    }
    LayoutByBytes(packet[4..8], layout);
    hide *;
    SizeByBytes(packet[4..8]);
    if Read(layout.value, packet[..]).Some? {
      ReactionByBytes(packet[..], layout.value, hasSession, sendOk);
    }
    r, freed := DispatchCase(layout.value, packet, hasSession, sendOk, ReactionTo(packet[..], hasSession, sendOk));
  }

  /** One case of the generated switch: allocate, initialise, decode, handle, destroy. */
  method DispatchCase(layout: Layout, packet: array<Byte>, hasSession: bool, sendOk: bool, ghost expected: Reaction)
      returns (r: Outcome, ghost freed: seq<array<Byte>>)
    requires layout in PROTOCOL_MAP
    requires Read(layout, packet[..]).Some? ==>
      HasRequest(layout, Read(layout, packet[..]).value)
      && expected == HandlerReaction(layout, Read(layout, packet[..]).value, hasSession, sendOk)
    ensures r != Ignored && (r == OutOfBounds <==> packet.Length < FixedSize(layout.fields))
    ensures r.Handled? ==> fresh(r.cmd) && r.cmd.layout == layout && Finished(r, packet, freed)
    ensures r.Handled? ==> r.reaction == expected
  {
    freed := [];
    CaseReads(layout, packet[..]);
    hide ValuesFit, PacketLayout.Decode, Command.Message, Read, FixedSize, HandlerOf, InitialValues, HandlerReaction, HasRequest;
    var cmd := new Command(layout, InitialValues(layout.fields));
    var inside := cmd.Decode(packet);
    if !inside {
      return OutOfBounds, freed;
    }
    var reaction := HandleAndDestroy(cmd, packet, hasSession, sendOk);
    freed := cmd.freed;
    return Handled(cmd, reaction), freed;
  }

  /** The values of a preview command that its handler looks at. */
  predicate HasRequest(layout: Layout, values: seq<Value>) {
    layout == PREVIEW_CMD ==>
      |values| == 9 && values[6].IntValue? && values[7].IntValue? && values[8].IntValue?
  }

  /** What follows a decode. */
  method HandleAndDestroy(cmd: Command, packet: array<Byte>, hasSession: bool, sendOk: bool) returns (reaction: Reaction)
    requires cmd.Freeable() && cmd.ref == 0 && cmd.freed == [] && cmd.refBits == {}
    requires cmd.slots == [Slice(packet, 0, packet.Length)]
    requires HasRequest(cmd.layout, cmd.values)
    modifies cmd
    ensures Finished(Handled(cmd, reaction), packet, cmd.freed)
    ensures reaction == HandlerReaction(cmd.layout, old(cmd.values), hasSession, sendOk)
  {
    OwnsItsPacket(packet);
    match HandlerOf(cmd.layout) {
      case NoImpl => reaction := NotImplemented;
      case StartPreview =>
        var key := SmtsStartPreview(cmd);
        reaction := Requested(key);
      case MockDvrPreview => reaction := MockPreview;
      case MsgChannel =>
        var sent := SendCmd(cmd, hasSession, sendOk);
        reaction := Channel(sent);
    }
    cmd.Destroy();
  }

  /** The key of the session that a preview command asks for. */
  function KeyOf(values: seq<Value>): SessionRegistry.SessionKey
    requires HasRequest(PREVIEW_CMD, values)
  {
    SessionRegistry.SessionKey(values[6].v, values[7].v, values[8].v, SESSION_TYPE_SMTS)
  }

  /** The part of smts_start_preview and media_client_start_preview that reads the command. */
  method SmtsStartPreview(cmd: Command) returns (key: SessionRegistry.SessionKey)
    requires HasRequest(PREVIEW_CMD, cmd.values)
    ensures key == KeyOf(cmd.values)
  {
    var dvrId, channelNo, frameMode := cmd.values[6].v, cmd.values[7].v, cmd.values[8].v;
    key := SessionRegistry.SessionKey(dvrId, channelNo, frameMode, SESSION_TYPE_SMTS);
  }

  /** What the handler of a layout makes of the values read from a packet. */
  ghost function HandlerReaction(layout: Layout, values: seq<Value>, hasSession: bool, sendOk: bool): Reaction
    requires HasRequest(layout, values)
  {
    match HandlerOf(layout)
    case NoImpl => NotImplemented
    case StartPreview => Requested(KeyOf(values))
    case MockDvrPreview => MockPreview
    case MsgChannel => Channel(hasSession && sendOk)
  }

  /** A preview command is read as it is decoded. */
  lemma PreviewReads(packet: seq<Byte>)
    ensures |packet| >= 162 ==> Read(PREVIEW_CMD, packet).Some?
    ensures Read(PREVIEW_CMD, packet).Some? ==> |packet| >= 162 && HasRequest(PREVIEW_CMD, Read(PREVIEW_CMD, packet).value)
    ensures Read(PREVIEW_CMD, packet).Some? ==>
      KeyOf(Read(PREVIEW_CMD, packet).value) == SessionRegistry.SessionKey(
        BytesInt(packet[148..156]), BytesInt(packet[156..158]), BytesInt(packet[158..162]), SESSION_TYPE_SMTS)
  {
    assert PROTOCOL_MAP[1] == PREVIEW_CMD;
    DeclaredReads(1, packet);
    DeclaredFixedSizes();
    if |packet| >= 162 {
      PreviewCmdDecoded(packet);
      DecodeIsRead(PREVIEW_CMD.fields, packet, 0, ClaimedLength(packet));
      var m := Decode(PREVIEW_CMD, packet).value;
      StrippedAt(m, 6);
      StrippedAt(m, 7);
      StrippedAt(m, 8);
    }
  }

  /** The tables of handlers and sizes, by the bytes of the command. */
  lemma SizeByBytes(b: seq<Byte>)
    requires LayoutBy(b).Some?
    ensures FixedSize(LayoutBy(b).value.fields) == FixedLength(b)
  {
    DeclaredFixedSizes();
    hide FixedSize;
  }

  lemma ReactionByBytes(packet: seq<Byte>, layout: Layout, hasSession: bool, sendOk: bool)
    requires |packet| >= 8 && LayoutBy(packet[4..8]) == Some(layout) && Read(layout, packet).Some?
    ensures HasRequest(layout, Read(layout, packet).value)
    ensures HandlerReaction(layout, Read(layout, packet).value, hasSession, sendOk) == ReactionTo(packet, hasSession, sendOk)
  {
    PreviewReads(packet);
    Handlers();
    hide BytesInt, HandlerOf, Read, KeyOf;
  }

  lemma Handlers()
    ensures HandlerOf(PREVIEW_CMD) == StartPreview && HandlerOf(TEST_PTZ_CMD) == MsgChannel
    ensures HandlerOf(MOCK_DVR_PREVIEW) == MockDvrPreview
    ensures HandlerOf(ABSTRACT_CMD) == NoImpl && HandlerOf(PREVIEW_CMD_RES) == NoImpl && HandlerOf(SMTS_FRAME_RES) == NoImpl
    ensures HandlerOf(MOCK_DVR_FRAME) == NoImpl && HandlerOf(COMMON_RES) == NoImpl
  {
    assert ABSTRACT_CMD.cmd == 0 && PREVIEW_CMD.cmd == 0x00050104 && PREVIEW_CMD_RES.cmd == 0x80050101;
    assert SMTS_FRAME_RES.cmd == 0x80050102 && MOCK_DVR_PREVIEW.cmd == 0x00018001 && MOCK_DVR_FRAME.cmd == 0x00018002;
    assert TEST_PTZ_CMD.cmd == 0x00018010 && COMMON_RES.cmd == 0x80000001;
  }

  lemma CaseReads(layout: Layout, packet: seq<Byte>)
    requires layout in PROTOCOL_MAP
    ensures WellFormed(layout)
    ensures Read(layout, packet).Some? <==> FixedSize(layout.fields) <= |packet|
  {
    DeclaredLayoutsAreWellFormed();
    var i: nat :| i < |PROTOCOL_MAP| && PROTOCOL_MAP[i] == layout;
    DeclaredReads(i, packet);
  }

  predicate Forwarded(r: Outcome) {
    r.Handled? && r.reaction == Channel(true)
  }

  /** A handled packet is freed with its command, or still held by the write that forwards it. */
  ghost predicate Finished(r: Outcome, packet: array<Byte>, freed: seq<array<Byte>>)
    requires r.Handled?
    reads r.cmd
  {
    && freed == r.cmd.freed
    && (!Forwarded(r) ==> !r.cmd.live && freed == [packet])
    && (Forwarded(r) ==> r.cmd.Freeable() && r.cmd.ref == 0 && freed == [])
    && (Forwarded(r) ==> OwnedBlocks(r.cmd.slots, r.cmd.refBits) == [packet])
    && (Forwarded(r) ==> r.cmd.slots == [Slice(packet, 0, packet.Length)])
  }

  /** The initialised fields of a fresh structure. */
  function InitialValues(fields: seq<Field>): (values: seq<Value>)
    requires forall i :: 0 <= i < |fields| && fields[i].IntField? ==> fields[i].width > 0
    ensures ValuesFit(fields, values)
    ensures forall i :: 0 <= i < |values| ==> !values[i].Payload?
  {
    seq(|fields|, i requires 0 <= i < |fields| => InitialValue(fields[i]))
  }

  function InitialValue(f: Field): (v: Value)
    requires f.IntField? ==> f.width > 0
    ensures ValueFits(f, v) && !v.Payload?
  {
    match f
    case IntField(w) => IntValue(0)
    case FixedString(n) => Text(seq(n, _ => 0))
    case BinaryBufRef(_) => NoPayload
  }

  lemma OwnsItsPacket(packet: array<Byte>)
    ensures OwnedBlocks([Slice(packet, 0, packet.Length)], {}) == [packet]
  {
    var slots := [Slice(packet, 0, packet.Length)];
    assert slots[..0] == [];
    assert OwnedBlocks(slots[..0], {}) == [];
  }

  /** on_send_cmd_to_dvr_cb: the write callback drops the last reference, which frees the command
      and, with it, the packet. */
  method OnSendCmdToDvr(cmd: Command)
    requires cmd.Freeable() && cmd.ref == 0
    modifies cmd
    ensures !cmd.live && cmd.freed == old(cmd.freed) + OwnedBlocks(old(cmd.slots), old(cmd.refBits))
  {
    cmd.Destroy();
  }

  /** Main result: a forwarded command sends the received bytes, prefix included, and the packet is
      freed exactly once, by the write callback. */
  method ForwardAndComplete(packet: array<Byte>) returns (cmd: Command, ghost sent: seq<Byte>)
    requires packet.Length >= 24 && packet[4..8] == [0, 1, 128, 16]
    ensures sent == packet[..]
    ensures !cmd.live && cmd.freed == [packet]
  {
    ghost var freed;
    var r;
    r, freed := DispatchPacket(packet, true, true);
    cmd := r.cmd;
    GatherOne(cmd.slots, packet);
    sent := Gather(cmd.slots);
    OnSendCmdToDvr(cmd);
  }

  lemma GatherOne(slots: seq<Buf>, packet: array<Byte>)
    requires slots == [Slice(packet, 0, packet.Length)]
    ensures Gather(slots) == packet[..]
  {
    assert slots[..0] == [];
    assert packet[0..0 + packet.Length] == packet[..];
  }

  /** Main result: an encoded frame response of any payload, whose own decoder points past its end,
      is dispatched, handled by nobody and freed once all the same. */
  method DispatchFrameResponse(packet: array<Byte>, values: seq<Value>) returns (r: Outcome, ghost freed: seq<array<Byte>>)
    requires ValuesFit(SMTS_FRAME_RES.fields, values) && Length(SMTS_FRAME_RES.fields, values) < 0x8000_0000
    requires WellFormed(SMTS_FRAME_RES) && packet[..] == Packet(SMTS_FRAME_RES, values)
    ensures Decode(SMTS_FRAME_RES, packet[..]).None?
    ensures r.Handled? && r.reaction == NotImplemented && freed == [packet]
  {
    FrameResponseNeverDecodes(values);
    FrameCommand(packet[..], values);
    assert packet[4..8] == packet[..][4..8];
    hide Packet, Decode, LayoutOf, FixedSize, BytesInt, WellFormed, ValuesFit, Length;
    r, freed := DispatchPacket(packet, false, false);
  }

  lemma FrameCommand(packet: seq<Byte>, values: seq<Value>)
    requires ValuesFit(SMTS_FRAME_RES.fields, values) && Length(SMTS_FRAME_RES.fields, values) < 0x8000_0000
    requires WellFormed(SMTS_FRAME_RES) && packet == Packet(SMTS_FRAME_RES, values)
    ensures |packet| >= 24 && packet[4..8] == [128, 5, 1, 2]
  {
    PacketIsStamped(SMTS_FRAME_RES, values);
    LengthAtLeastFixed(SMTS_FRAME_RES.fields, values);
    FixedSizes();
    CommandBytes();
    ResponseBytes();
    EncodeOfDecode(packet[4..8]);
    hide Packet, FixedSize, BytesInt, IntBytes, Truncate, Length;
  }
}
