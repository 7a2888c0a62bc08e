/** Where the declared messages have their fields: what each of them is, byte by byte, in both directions. */
module PacketFields {
  import opened IntegerCodec
  import opened PacketLayout
  import opened PacketReads

  // ----- Any layout -----

  /** A layout whose payload comes last and takes what the fixed fields leave decodes from every packet
      that holds the fixed fields. */
  lemma {:induction false} WholePacketDecodes(fields: seq<Field>, packet: seq<Byte>, at: nat, packetLen: int)
    requires forall i :: 0 <= i < |fields| && fields[i].BinaryBufRef? ==>
      i == |fields| - 1 && packetLen - fields[i].adjust == |packet| - at - FixedSize(fields)
    requires forall i :: 0 <= i < |fields| && fields[i].IntField? ==> fields[i].width > 0
    requires at + FixedSize(fields) <= |packet|
    ensures DecodeFrom(fields, packet, at, packetLen).Some?
    decreases |fields|
  {
    if fields != [] {
      FixedSizeCons(fields);
      if !fields[0].BinaryBufRef? {
        WholePacketDecodes(fields[1..], packet, at + FieldSize(fields[0]), packetLen);
      } else {
        assert fields[1..] == [];
      }
    }
  }

  /** The i-th field of a decoded packet comes from where the fields before it end. */
  lemma {:induction false} DecodedAt(fields: seq<Field>, packet: seq<Byte>, at: nat, packetLen: int, m: seq<Value>, i: nat, off: nat)
    requires DecodeFrom(fields, packet, at, packetLen) == Some(m) && i < |fields|
    requires forall k :: 0 <= k < i ==> !fields[k].BinaryBufRef?
    requires off == at + FixedSize(fields[..i])
    ensures |m| == |fields| && DecodeField(fields[i], packet, off, packetLen) == Some(m[i])
    decreases i
  {
    DecodeTail(fields, packet, at, packetLen);
    if i == 0 {
      assert FixedSize(fields[..0]) == 0;
    } else {
      FixedSizeCons(fields[..i]);
      assert fields[..i][1..] == fields[1..][..i - 1];
      NoPayloadSize(fields[0], packet, at, packetLen);
      hide DecodeFrom, DecodeField, FixedSize, ValueSize;
      DecodedAt(fields[1..], packet, at + FieldSize(fields[0]), packetLen, m[1..], i - 1, off);
    }
  }

  lemma NoPayloadSize(f: Field, packet: seq<Byte>, at: nat, packetLen: int)
    requires !f.BinaryBufRef? && DecodeField(f, packet, at, packetLen).Some?
    ensures ValueSize(DecodeField(f, packet, at, packetLen).value, f) == FieldSize(f)
  {
  }

  /** `places` are the offsets of the fields, and of the end. */
  predicate Places(fields: seq<Field>, places: seq<nat>) {
    && |places| == |fields| + 1 && places[0] == 0
    && forall i :: 0 <= i < |fields| ==> places[i + 1] == places[i] + FieldSize(fields[i])
  }

  lemma {:induction false} PlaceOf(fields: seq<Field>, places: seq<nat>, i: nat)
    requires Places(fields, places) && i <= |fields|
    ensures FixedSize(fields[..i]) == places[i]
    decreases i
  {
    if i > 0 {
      PlaceOf(fields, places, i - 1);
      assert fields[..i][..i - 1] == fields[..i - 1];
    }
  }

  predicate NoPayloads(fields: seq<Field>) {
    forall i :: 0 <= i < |fields| ==> !fields[i].BinaryBufRef?
  }

  function Part(packet: seq<Byte>, a: nat, b: nat): seq<Byte> {
    if a <= b <= |packet| then packet[a..b] else []
  }

  /** An integer or a string, read from a part of a packet. */
  function ValueAt(f: Field, part: seq<Byte>): Value {
    if f.IntField? then IntValue(BytesInt(part)) else Text(part)
  }

  /** A packet decodes exactly when it reaches to the end of the fields, and then field by field from
      their offsets. */
  lemma FieldsDecode(l: Layout, places: seq<nat>, packet: seq<Byte>)
    requires WellFormed(l) && NoPayloads(l.fields) && Places(l.fields, places)
    ensures Decode(l, packet).Some? <==> |packet| >= places[|l.fields|]
    ensures Decode(l, packet).Some? ==> forall i :: 0 <= i < |l.fields| ==>
      Decode(l, packet).value[i] == ValueAt(l.fields[i], Part(packet, places[i], places[i + 1]))
  {
    var fs, n := l.fields, ClaimedLength(packet);
    PlaceOf(fs, places, |fs|);
    assert fs[..|fs|] == fs;
    AtLeastHead(fs, places);
    hide DecodeFrom, FixedSize, DecodeField;
    if |packet| >= places[|fs|] {
      WholePacketDecodes(fs, packet, 0, n);
    } else if Decode(l, packet).Some? {
      DecodedInsidePacket(fs, packet, 0, n);
      LengthAtLeastFixed(fs, Decode(l, packet).value);
    }
    if Decode(l, packet).Some? {
      forall i | 0 <= i < |fs|
        ensures Decode(l, packet).value[i] == ValueAt(fs[i], Part(packet, places[i], places[i + 1]))
      {
        PlaceOf(fs, places, i);
        PlaceOf(fs, places, i + 1);
        assert fs[0..i + 1] == fs[..i + 1];
        FixedSizeOfPrefix(fs, 0, i + 1, |fs|);
        DecodedAt(fs, packet, 0, n, Decode(l, packet).value, i, places[i]);
        FieldValue(fs[i], packet, places[i], n);
      }
    }
  }

  lemma FieldValue(f: Field, packet: seq<Byte>, at: nat, packetLen: int)
    requires !f.BinaryBufRef? && DecodeField(f, packet, at, packetLen).Some?
    ensures at + FieldSize(f) <= |packet|
    ensures DecodeField(f, packet, at, packetLen).value == ValueAt(f, packet[at..at + FieldSize(f)])
  {
  }

  lemma FieldDecoded(l: Layout, places: seq<nat>, packet: seq<Byte>, i: nat)
    requires WellFormed(l) && NoPayloads(l.fields) && Places(l.fields, places)
    requires i < |l.fields| && |packet| >= places[|l.fields|]
    ensures Decode(l, packet).Some?
    ensures Decode(l, packet).value[i] == ValueAt(l.fields[i], Part(packet, places[i], places[i + 1]))
  {
    FieldsDecode(l, places, packet);
    hide Decode, ValueAt, Part;
  }

  lemma {:induction false} AtLeastHead(fields: seq<Field>, places: seq<nat>)
    requires Places(fields, places) && |fields| >= 2 && fields[0] == IntField(4)
    ensures places[|fields|] >= 4
  {
    var n := |fields|;
    assert places[n] == places[n - 1] + FieldSize(fields[n - 1]);
    if n == 2 {
      assert places[1] == places[0] + FieldSize(fields[0]);
    } else {
      AtLeastHead(fields[..n - 1], places[..n]);
    }
  }

  /** An encoded message has the bytes of each field at those offsets. */
  lemma FieldEncoded(l: Layout, places: seq<nat>, values: seq<Value>, i: nat)
    requires WellFormed(l) && NoPayloads(l.fields) && Places(l.fields, places)
    requires ValuesFit(l.fields, values) && i < |l.fields|
    ensures |Packet(l, values)| == places[|l.fields|]
    ensures Part(Packet(l, values), places[i], places[i + 1]) == FieldBytes(l.fields[i], Stamp(l, values)[i])
  {
    var v := Stamp(l, values);
    StampFits(l, values);
    hide Bytes, FixedSize, FieldBytes, Stamp, WellFormed;
    RunAt(l.fields, places, v, i);
  }

  lemma RunAt(fields: seq<Field>, places: seq<nat>, v: seq<Value>, i: nat)
    requires NoPayloads(fields) && Places(fields, places) && ValuesFit(fields, v) && i < |fields|
    ensures |Bytes(fields, v)| == places[|fields|] && places[i] <= places[i + 1] <= places[|fields|]
    ensures Bytes(fields, v)[places[i]..places[i + 1]] == FieldBytes(fields[i], v[i])
  {
    var n := |fields|;
    BytesAround(fields, v, i);
    RunLength(fields, v, 0, i);
    RunLength(fields, v, 0, n);
    FixedSizeOfPrefix(fields, 0, i + 1, n);
    PlaceOf(fields, places, i);
    PlaceOf(fields, places, i + 1);
    PlaceOf(fields, places, n);
    assert fields[0..i] == fields[..i] && fields[0..i + 1] == fields[..i + 1] && fields[0..n] == fields[..n] == fields && v[0..n] == v;
    FieldLength(fields[i], v[i]);
    hide Bytes, FixedSize, FieldBytes, ValuesFit;
    SliceOf(Bytes(fields[0..i], v[0..i]), FieldBytes(fields[i], v[i]), Bytes(fields[i + 1..n], v[i + 1..n]));
  }

  lemma FieldLength(f: Field, v: Value)
    requires ValueFits(f, v) && !f.BinaryBufRef?
    ensures |FieldBytes(f, v)| == FieldSize(f)
  {
  }

  lemma SliceOf<T>(a: seq<T>, b: seq<T>, c: seq<T>)
    ensures (a + b + c)[|a|..|a| + |b|] == b
  {
  }

  lemma RunLength(fields: seq<Field>, values: seq<Value>, i: nat, j: nat)
    requires ValuesFit(fields, values) && NoPayloads(fields) && i <= j <= |fields|
    ensures |Bytes(fields[i..j], values[i..j])| == FixedSize(fields[i..j])
  {
    var fs, v := fields[i..j], values[i..j];
    assert ValuesFit(fs, v) by {
      forall k | 0 <= k < |fs|
        ensures ValueFits(fs[k], v[k])
      {
        assert ValueFits(fields[i + k], values[i + k]);
      }
    }
    LengthOfBytes(fs, v);
    forall k | 0 <= k < |fs|
      ensures PayloadBytes(v[k]) == []
    {
      assert ValueFits(fs[k], v[k]);
    }
    LengthSplits(fs, v, |fs|);
  }

  /** The first two fields of an encoded message. */
  lemma HeadEncoded(l: Layout, places: seq<nat>, values: seq<Value>, n: Byte)
    requires WellFormed(l) && NoPayloads(l.fields) && Places(l.fields, places)
    requires ValuesFit(l.fields, values) && places[|l.fields|] == n
    ensures Part(Packet(l, values), 0, 4) == [0, 0, 0, n]
    ensures Part(Packet(l, values), 4, 8) == IntBytes(4, l.cmd)
  {
    FieldEncoded(l, places, values, 0);
    FieldEncoded(l, places, values, 1);
    assert places[1] == places[0] + FieldSize(l.fields[0]) && places[2] == places[1] + FieldSize(l.fields[1]);
    StampFits(l, values);
    LengthOfBytes(l.fields, Stamp(l, values));
    assert Length(l.fields, values) == n;
    Widths();
    TruncateOfFitting(4, n);
    FourBytes(0, 0, 0, n);
    var k := TruncateShift(4, l.cmd);
    IntBytesPeriodic(4, l.cmd, k);
    hide Packet, Places, WellFormed, NoPayloads, ValuesFit, Pow256, Truncate, IntBytes;
  }

  lemma FourBytes(a: Byte, b: Byte, c: Byte, d: Byte)
    ensures IntBytes(4, ((a * 256 + b) * 256 + c) * 256 + d) == [a, b, c, d]
  {
    var bs := [a, b, c, d];
    assert bs[..3][..2][..1][..0] == [];
    assert Unsigned(bs[..3][..2][..1]) == a;
    assert Unsigned(bs[..3][..2]) == a * 256 + b;
    assert Unsigned(bs[..3]) == (a * 256 + b) * 256 + c;
    assert Unsigned(bs) == ((a * 256 + b) * 256 + c) * 256 + d;
    hide Unsigned, IntBytes;
    IntBytesOfUnsigned(bs);
  }

  // ----- preview_cmd -----

  const PREVIEW_PLACES: seq<nat> := [0, 4, 8, 12, 16, 20, 148, 156, 158, 162]

  lemma PreviewCmdPlaces()
    ensures WellFormed(PREVIEW_CMD) && NoPayloads(PREVIEW_CMD.fields) && Places(PREVIEW_CMD.fields, PREVIEW_PLACES)
    ensures forall i :: 0 <= i < 9 ==> (PREVIEW_CMD.fields[i].IntField? <==> i != 5)
  {
  }

  /** preview_cmd: the header, the token, the number of the DVR, the channel and the frame mode. */
  lemma PreviewCmdDecoded(packet: seq<Byte>)
    ensures Decode(PREVIEW_CMD, packet).Some? <==> |packet| >= 162
    ensures |packet| >= 162 ==> Decode(PREVIEW_CMD, packet) == Some([
      IntValue(BytesInt(packet[0..4])), IntValue(BytesInt(packet[4..8])), IntValue(BytesInt(packet[8..12])),
      IntValue(BytesInt(packet[12..16])), IntValue(BytesInt(packet[16..20])), Text(packet[20..148]),
      IntValue(BytesInt(packet[148..156])), IntValue(BytesInt(packet[156..158])),
      IntValue(BytesInt(packet[158..162]))])
  {
    PreviewCmdPlaces();
    hide Decode, BytesInt, WellFormed, Places, NoPayloads;
    FieldsDecode(PREVIEW_CMD, PREVIEW_PLACES, packet);
    if |packet| >= 162 {
      var m := Decode(PREVIEW_CMD, packet).value;
      FieldDecoded(PREVIEW_CMD, PREVIEW_PLACES, packet, 0);
      FieldDecoded(PREVIEW_CMD, PREVIEW_PLACES, packet, 1);
      FieldDecoded(PREVIEW_CMD, PREVIEW_PLACES, packet, 2);
      FieldDecoded(PREVIEW_CMD, PREVIEW_PLACES, packet, 3);
      FieldDecoded(PREVIEW_CMD, PREVIEW_PLACES, packet, 4);
      FieldDecoded(PREVIEW_CMD, PREVIEW_PLACES, packet, 5);
      FieldDecoded(PREVIEW_CMD, PREVIEW_PLACES, packet, 6);
      FieldDecoded(PREVIEW_CMD, PREVIEW_PLACES, packet, 7);
      FieldDecoded(PREVIEW_CMD, PREVIEW_PLACES, packet, 8);
      assert m == [m[0], m[1], m[2], m[3], m[4], m[5], m[6], m[7], m[8]];
    }
  }

  lemma PreviewCmdEncoded(v: seq<Value>)
    requires ValuesFit(PREVIEW_CMD.fields, v)
    ensures WellFormed(PREVIEW_CMD) && |Packet(PREVIEW_CMD, v)| == 162
    ensures var p := Packet(PREVIEW_CMD, v);
      && p[0..4] == [0, 0, 0, 162] && p[4..8] == [0, 5, 1, 4]
      && p[8..12] == IntBytes(4, v[2].v) && p[12..16] == IntBytes(4, v[3].v) && p[16..20] == IntBytes(4, v[4].v)
      && p[20..148] == v[5].bytes && p[148..156] == IntBytes(8, v[6].v) && p[156..158] == IntBytes(2, v[7].v)
      && p[158..162] == IntBytes(4, v[8].v)
  {
    PreviewCmdPlaces();
    HeadEncoded(PREVIEW_CMD, PREVIEW_PLACES, v, 162);
    FourBytes(0, 5, 1, 4);
    FieldEncoded(PREVIEW_CMD, PREVIEW_PLACES, v, 2);
    FieldEncoded(PREVIEW_CMD, PREVIEW_PLACES, v, 3);
    FieldEncoded(PREVIEW_CMD, PREVIEW_PLACES, v, 4);
    FieldEncoded(PREVIEW_CMD, PREVIEW_PLACES, v, 5);
    FieldEncoded(PREVIEW_CMD, PREVIEW_PLACES, v, 6);
    FieldEncoded(PREVIEW_CMD, PREVIEW_PLACES, v, 7);
    FieldEncoded(PREVIEW_CMD, PREVIEW_PLACES, v, 8);
    KindsFit(PREVIEW_CMD, v);
    hide Packet, WellFormed, ValuesFit, Places, NoPayloads, IntBytes;
  }

  // ----- preview_cmd_res -----

  const PREVIEW_RES_PLACES: seq<nat> := [0, 4, 8, 12, 16, 20, 24, 28, 32, 36, 40]

  lemma PreviewCmdResPlaces()
    ensures WellFormed(PREVIEW_CMD_RES) && NoPayloads(PREVIEW_CMD_RES.fields) && Places(PREVIEW_CMD_RES.fields, PREVIEW_RES_PLACES)
    ensures forall i :: 0 <= i < 10 ==> PREVIEW_CMD_RES.fields[i].IntField?
  {
  }

  /** preview_cmd_res: the header, the status and the four picture settings. */
  lemma PreviewCmdResDecoded(packet: seq<Byte>)
    ensures Decode(PREVIEW_CMD_RES, packet).Some? <==> |packet| >= 40
    ensures |packet| >= 40 ==> Decode(PREVIEW_CMD_RES, packet) == Some([
      IntValue(BytesInt(packet[0..4])), IntValue(BytesInt(packet[4..8])), IntValue(BytesInt(packet[8..12])),
      IntValue(BytesInt(packet[12..16])), IntValue(BytesInt(packet[16..20])), IntValue(BytesInt(packet[20..24])),
      IntValue(BytesInt(packet[24..28])), IntValue(BytesInt(packet[28..32])), IntValue(BytesInt(packet[32..36])),
      IntValue(BytesInt(packet[36..40]))])
  {
    PreviewCmdResPlaces();
    hide Decode, BytesInt, WellFormed, Places, NoPayloads;
    FieldsDecode(PREVIEW_CMD_RES, PREVIEW_RES_PLACES, packet);
    if |packet| >= 40 {
      var m := Decode(PREVIEW_CMD_RES, packet).value;
      FieldDecoded(PREVIEW_CMD_RES, PREVIEW_RES_PLACES, packet, 0);
      FieldDecoded(PREVIEW_CMD_RES, PREVIEW_RES_PLACES, packet, 1);
      FieldDecoded(PREVIEW_CMD_RES, PREVIEW_RES_PLACES, packet, 2);
      FieldDecoded(PREVIEW_CMD_RES, PREVIEW_RES_PLACES, packet, 3);
      FieldDecoded(PREVIEW_CMD_RES, PREVIEW_RES_PLACES, packet, 4);
      FieldDecoded(PREVIEW_CMD_RES, PREVIEW_RES_PLACES, packet, 5);
      FieldDecoded(PREVIEW_CMD_RES, PREVIEW_RES_PLACES, packet, 6);
      FieldDecoded(PREVIEW_CMD_RES, PREVIEW_RES_PLACES, packet, 7);
      FieldDecoded(PREVIEW_CMD_RES, PREVIEW_RES_PLACES, packet, 8);
      FieldDecoded(PREVIEW_CMD_RES, PREVIEW_RES_PLACES, packet, 9);
      assert m == [m[0], m[1], m[2], m[3], m[4], m[5], m[6], m[7], m[8], m[9]];
    }
  }

  lemma PreviewCmdResEncoded(v: seq<Value>)
    requires ValuesFit(PREVIEW_CMD_RES.fields, v)
    ensures WellFormed(PREVIEW_CMD_RES) && |Packet(PREVIEW_CMD_RES, v)| == 40
    ensures var p := Packet(PREVIEW_CMD_RES, v);
      && p[0..4] == [0, 0, 0, 40] && p[4..8] == [128, 5, 1, 1]
      && p[8..12] == IntBytes(4, v[2].v) && p[12..16] == IntBytes(4, v[3].v) && p[16..20] == IntBytes(4, v[4].v)
      && p[20..24] == IntBytes(4, v[5].v) && p[24..28] == IntBytes(4, v[6].v) && p[28..32] == IntBytes(4, v[7].v)
      && p[32..36] == IntBytes(4, v[8].v) && p[36..40] == IntBytes(4, v[9].v)
  {
    PreviewCmdResPlaces();
    HeadEncoded(PREVIEW_CMD_RES, PREVIEW_RES_PLACES, v, 40);
    FourBytes(128, 5, 1, 1);
    FieldEncoded(PREVIEW_CMD_RES, PREVIEW_RES_PLACES, v, 2);
    FieldEncoded(PREVIEW_CMD_RES, PREVIEW_RES_PLACES, v, 3);
    FieldEncoded(PREVIEW_CMD_RES, PREVIEW_RES_PLACES, v, 4);
    FieldEncoded(PREVIEW_CMD_RES, PREVIEW_RES_PLACES, v, 5);
    FieldEncoded(PREVIEW_CMD_RES, PREVIEW_RES_PLACES, v, 6);
    FieldEncoded(PREVIEW_CMD_RES, PREVIEW_RES_PLACES, v, 7);
    FieldEncoded(PREVIEW_CMD_RES, PREVIEW_RES_PLACES, v, 8);
    FieldEncoded(PREVIEW_CMD_RES, PREVIEW_RES_PLACES, v, 9);
    KindsFit(PREVIEW_CMD_RES, v);
    hide Packet, WellFormed, ValuesFit, Places, NoPayloads, IntBytes;
  }

  // ----- mock_dvr_preview -----

  const MOCK_PREVIEW_PLACES: seq<nat> := [0, 4, 8, 12, 16]

  lemma MockDvrPreviewPlaces()
    ensures WellFormed(MOCK_DVR_PREVIEW) && NoPayloads(MOCK_DVR_PREVIEW.fields) && Places(MOCK_DVR_PREVIEW.fields, MOCK_PREVIEW_PLACES)
    ensures forall i :: 0 <= i < 4 ==> MOCK_DVR_PREVIEW.fields[i].IntField?
  {
  }

  /** mock_dvr_preview: length and command, the bitrate and the frame rate. */
  lemma MockDvrPreviewDecoded(packet: seq<Byte>)
    ensures Decode(MOCK_DVR_PREVIEW, packet).Some? <==> |packet| >= 16
    ensures |packet| >= 16 ==> Decode(MOCK_DVR_PREVIEW, packet) == Some([
      IntValue(BytesInt(packet[0..4])), IntValue(BytesInt(packet[4..8])), IntValue(BytesInt(packet[8..12])),
      IntValue(BytesInt(packet[12..16]))])
  {
    MockDvrPreviewPlaces();
    hide Decode, BytesInt, WellFormed, Places, NoPayloads;
    FieldsDecode(MOCK_DVR_PREVIEW, MOCK_PREVIEW_PLACES, packet);
    if |packet| >= 16 {
      var m := Decode(MOCK_DVR_PREVIEW, packet).value;
      FieldDecoded(MOCK_DVR_PREVIEW, MOCK_PREVIEW_PLACES, packet, 0);
      FieldDecoded(MOCK_DVR_PREVIEW, MOCK_PREVIEW_PLACES, packet, 1);
      FieldDecoded(MOCK_DVR_PREVIEW, MOCK_PREVIEW_PLACES, packet, 2);
      FieldDecoded(MOCK_DVR_PREVIEW, MOCK_PREVIEW_PLACES, packet, 3);
      assert m == [m[0], m[1], m[2], m[3]];
    }
  }

  lemma MockDvrPreviewEncoded(v: seq<Value>)
    requires ValuesFit(MOCK_DVR_PREVIEW.fields, v)
    ensures WellFormed(MOCK_DVR_PREVIEW) && |Packet(MOCK_DVR_PREVIEW, v)| == 16
    ensures var p := Packet(MOCK_DVR_PREVIEW, v);
      && p[0..4] == [0, 0, 0, 16] && p[4..8] == [0, 1, 128, 1]
      && p[8..12] == IntBytes(4, v[2].v) && p[12..16] == IntBytes(4, v[3].v)
  {
    MockDvrPreviewPlaces();
    HeadEncoded(MOCK_DVR_PREVIEW, MOCK_PREVIEW_PLACES, v, 16);
    FourBytes(0, 1, 128, 1);
    FieldEncoded(MOCK_DVR_PREVIEW, MOCK_PREVIEW_PLACES, v, 2);
    FieldEncoded(MOCK_DVR_PREVIEW, MOCK_PREVIEW_PLACES, v, 3);
    KindsFit(MOCK_DVR_PREVIEW, v);
    hide Packet, WellFormed, ValuesFit, Places, NoPayloads, IntBytes;
  }

  // ----- test_PTZ_cmd -----

  const PTZ_PLACES: seq<nat> := [0, 4, 8, 12, 16, 20, 24]

  lemma TestPtzCmdPlaces()
    ensures WellFormed(TEST_PTZ_CMD) && NoPayloads(TEST_PTZ_CMD.fields) && Places(TEST_PTZ_CMD.fields, PTZ_PLACES)
    ensures forall i :: 0 <= i < 6 ==> TEST_PTZ_CMD.fields[i].IntField?
  {
  }

  /** test_PTZ_cmd: the header and the movement. */
  lemma TestPtzCmdDecoded(packet: seq<Byte>)
    ensures Decode(TEST_PTZ_CMD, packet).Some? <==> |packet| >= 24
    ensures |packet| >= 24 ==> Decode(TEST_PTZ_CMD, packet) == Some([
      IntValue(BytesInt(packet[0..4])), IntValue(BytesInt(packet[4..8])), IntValue(BytesInt(packet[8..12])),
      IntValue(BytesInt(packet[12..16])), IntValue(BytesInt(packet[16..20])), IntValue(BytesInt(packet[20..24]))])
  {
    TestPtzCmdPlaces();
    hide Decode, BytesInt, WellFormed, Places, NoPayloads;
    FieldsDecode(TEST_PTZ_CMD, PTZ_PLACES, packet);
    if |packet| >= 24 {
      var m := Decode(TEST_PTZ_CMD, packet).value;
      FieldDecoded(TEST_PTZ_CMD, PTZ_PLACES, packet, 0);
      FieldDecoded(TEST_PTZ_CMD, PTZ_PLACES, packet, 1);
      FieldDecoded(TEST_PTZ_CMD, PTZ_PLACES, packet, 2);
      FieldDecoded(TEST_PTZ_CMD, PTZ_PLACES, packet, 3);
      FieldDecoded(TEST_PTZ_CMD, PTZ_PLACES, packet, 4);
      FieldDecoded(TEST_PTZ_CMD, PTZ_PLACES, packet, 5);
      assert m == [m[0], m[1], m[2], m[3], m[4], m[5]];
    }
  }

  lemma TestPtzCmdEncoded(v: seq<Value>)
    requires ValuesFit(TEST_PTZ_CMD.fields, v)
    ensures WellFormed(TEST_PTZ_CMD) && |Packet(TEST_PTZ_CMD, v)| == 24
    ensures var p := Packet(TEST_PTZ_CMD, v);
      && p[0..4] == [0, 0, 0, 24] && p[4..8] == [0, 1, 128, 16]
      && p[8..12] == IntBytes(4, v[2].v) && p[12..16] == IntBytes(4, v[3].v) && p[16..20] == IntBytes(4, v[4].v)
      && p[20..24] == IntBytes(4, v[5].v)
  {
    TestPtzCmdPlaces();
    HeadEncoded(TEST_PTZ_CMD, PTZ_PLACES, v, 24);
    FourBytes(0, 1, 128, 16);
    FieldEncoded(TEST_PTZ_CMD, PTZ_PLACES, v, 2);
    FieldEncoded(TEST_PTZ_CMD, PTZ_PLACES, v, 3);
    FieldEncoded(TEST_PTZ_CMD, PTZ_PLACES, v, 4);
    FieldEncoded(TEST_PTZ_CMD, PTZ_PLACES, v, 5);
    KindsFit(TEST_PTZ_CMD, v);
    hide Packet, WellFormed, ValuesFit, Places, NoPayloads, IntBytes;
  }

  // ----- common_res -----

  const COMMON_RES_PLACES: seq<nat> := [0, 4, 8, 12, 16, 20, 24]

  lemma CommonResPlaces()
    ensures WellFormed(COMMON_RES) && NoPayloads(COMMON_RES.fields) && Places(COMMON_RES.fields, COMMON_RES_PLACES)
    ensures forall i :: 0 <= i < 6 ==> COMMON_RES.fields[i].IntField?
  {
  }

  /** common_res: the header and the status. */
  lemma CommonResDecoded(packet: seq<Byte>)
    ensures Decode(COMMON_RES, packet).Some? <==> |packet| >= 24
    ensures |packet| >= 24 ==> Decode(COMMON_RES, packet) == Some([
      IntValue(BytesInt(packet[0..4])), IntValue(BytesInt(packet[4..8])), IntValue(BytesInt(packet[8..12])),
      IntValue(BytesInt(packet[12..16])), IntValue(BytesInt(packet[16..20])), IntValue(BytesInt(packet[20..24]))])
  {
    CommonResPlaces();
    hide Decode, BytesInt, WellFormed, Places, NoPayloads;
    FieldsDecode(COMMON_RES, COMMON_RES_PLACES, packet);
    if |packet| >= 24 {
      var m := Decode(COMMON_RES, packet).value;
      FieldDecoded(COMMON_RES, COMMON_RES_PLACES, packet, 0);
      FieldDecoded(COMMON_RES, COMMON_RES_PLACES, packet, 1);
      FieldDecoded(COMMON_RES, COMMON_RES_PLACES, packet, 2);
      FieldDecoded(COMMON_RES, COMMON_RES_PLACES, packet, 3);
      FieldDecoded(COMMON_RES, COMMON_RES_PLACES, packet, 4);
      FieldDecoded(COMMON_RES, COMMON_RES_PLACES, packet, 5);
      assert m == [m[0], m[1], m[2], m[3], m[4], m[5]];
    }
  }

  lemma CommonResEncoded(v: seq<Value>)
    requires ValuesFit(COMMON_RES.fields, v)
    ensures WellFormed(COMMON_RES) && |Packet(COMMON_RES, v)| == 24
    ensures var p := Packet(COMMON_RES, v);
      && p[0..4] == [0, 0, 0, 24] && p[4..8] == [128, 0, 0, 1]
      && p[8..12] == IntBytes(4, v[2].v) && p[12..16] == IntBytes(4, v[3].v) && p[16..20] == IntBytes(4, v[4].v)
      && p[20..24] == IntBytes(4, v[5].v)
  {
    CommonResPlaces();
    HeadEncoded(COMMON_RES, COMMON_RES_PLACES, v, 24);
    FourBytes(128, 0, 0, 1);
    FieldEncoded(COMMON_RES, COMMON_RES_PLACES, v, 2);
    FieldEncoded(COMMON_RES, COMMON_RES_PLACES, v, 3);
    FieldEncoded(COMMON_RES, COMMON_RES_PLACES, v, 4);
    FieldEncoded(COMMON_RES, COMMON_RES_PLACES, v, 5);
    KindsFit(COMMON_RES, v);
    hide Packet, WellFormed, ValuesFit, Places, NoPayloads, IntBytes;
  }

  /** What kind of value each field has. */
  lemma KindsFit(l: Layout, v: seq<Value>)
    requires ValuesFit(l.fields, v)
    ensures forall i :: 0 <= i < |v| ==> ValueFits(l.fields[i], v[i])
  {
  }

  // ----- Commands -----

  /** The four bytes of each declared command. */
  lemma CommandBytes()
    ensures IntBytes(4, Truncate(4, ABSTRACT_CMD.cmd)) == [0, 0, 0, 0]
    ensures IntBytes(4, Truncate(4, PREVIEW_CMD.cmd)) == [0, 5, 1, 4]
    ensures IntBytes(4, Truncate(4, MOCK_DVR_PREVIEW.cmd)) == [0, 1, 128, 1]
    ensures IntBytes(4, Truncate(4, MOCK_DVR_FRAME.cmd)) == [0, 1, 128, 2]
    ensures IntBytes(4, Truncate(4, TEST_PTZ_CMD.cmd)) == [0, 1, 128, 16]
  {
    hide IntBytes, Truncate;
    OneCommand(0, 0, 0, 0);
    OneCommand(0, 5, 1, 4);
    OneCommand(0, 1, 128, 1);
    OneCommand(0, 1, 128, 2);
    OneCommand(0, 1, 128, 16);
  }

  lemma ResponseBytes()
    ensures IntBytes(4, Truncate(4, PREVIEW_CMD_RES.cmd)) == [128, 5, 1, 1]
    ensures IntBytes(4, Truncate(4, SMTS_FRAME_RES.cmd)) == [128, 5, 1, 2]
    ensures IntBytes(4, Truncate(4, COMMON_RES.cmd)) == [128, 0, 0, 1]
  {
    hide IntBytes, Truncate;
    OneCommand(128, 5, 1, 1);
    OneCommand(128, 5, 1, 2);
    OneCommand(128, 0, 0, 1);
  }

  lemma OneCommand(a: Byte, b: Byte, c: Byte, d: Byte)
    ensures IntBytes(4, Truncate(4, ((a * 256 + b) * 256 + c) * 256 + d)) == [a, b, c, d]
  {
    var v := ((a * 256 + b) * 256 + c) * 256 + d;
    FourBytes(a, b, c, d);
    var k := TruncateShift(4, v);
    IntBytesPeriodic(4, v, k);
    hide IntBytes, Truncate, Pow256;
  }

  lemma DeclaredFixedSizes()
    ensures FixedSize(ABSTRACT_CMD.fields) == 8 && FixedSize(PREVIEW_CMD.fields) == 162
    ensures FixedSize(PREVIEW_CMD_RES.fields) == 40 && FixedSize(SMTS_FRAME_RES.fields) == 24
    ensures FixedSize(MOCK_DVR_PREVIEW.fields) == 16 && FixedSize(MOCK_DVR_FRAME.fields) == 24
    ensures FixedSize(TEST_PTZ_CMD.fields) == 24 && FixedSize(COMMON_RES.fields) == 24
  {
    FixedSizes();
    FixedSizeOfInts(2);
    assert ABSTRACT_CMD.fields == seq(2, _ => IntField(4));
    PreviewCmdPlaces();
    SizeBy(PREVIEW_CMD.fields, PREVIEW_PLACES);
    PreviewCmdResPlaces();
    SizeBy(PREVIEW_CMD_RES.fields, PREVIEW_RES_PLACES);
    MockDvrPreviewPlaces();
    SizeBy(MOCK_DVR_PREVIEW.fields, MOCK_PREVIEW_PLACES);
    TestPtzCmdPlaces();
    SizeBy(TEST_PTZ_CMD.fields, PTZ_PLACES);
    CommonResPlaces();
    SizeBy(COMMON_RES.fields, COMMON_RES_PLACES);
  }

  lemma SizeBy(fields: seq<Field>, places: seq<nat>)
    requires Places(fields, places)
    ensures FixedSize(fields) == places[|fields|]
  {
    PlaceOf(fields, places, |fields|);
    assert fields[..|fields|] == fields;
  }
}
