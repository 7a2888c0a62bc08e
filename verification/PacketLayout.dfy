/** The packet layouts of `src/protocol/nvmp_protocol_def.h` and what the generated codec of
    `src/protocol/smts_proto.c` means on byte strings.
 */
module PacketLayout {
  import opened IntegerCodec

  /** A field of a layout.  The length of a borrowed payload is not transmitted: the receiver
      takes the packet length minus the constant `adjust` of the declaration. */
  datatype Field = IntField(width: nat) | FixedString(size: nat) | BinaryBufRef(adjust: nat)

  datatype Layout = Layout(cmd: int, fields: seq<Field>)

  /** The value of a field; a payload may have no buffer at all. */
  datatype Value = IntValue(v: int) | Text(bytes: seq<Byte>) | NoPayload | Payload(bytes: seq<Byte>)

  datatype Option<+T> = None | Some(value: T)

  predicate ValueFits(f: Field, v: Value) {
    match f
    case IntField(w) => v.IntValue? && Fits(w, v.v)
    case FixedString(n) => v.Text? && |v.bytes| == n
    case BinaryBufRef(_) => v.NoPayload? || v.Payload?
  }

  predicate ValuesFit(fields: seq<Field>, values: seq<Value>) {
    |values| == |fields| && forall i :: 0 <= i < |fields| ==> ValueFits(fields[i], values[i])
  }

  /** The bytes of a field that do not depend on its value. */
  function FieldSize(f: Field): nat {
    match f
    case IntField(w) => w
    case FixedString(n) => n
    case BinaryBufRef(_) => 0
  }

  function FixedSize(fields: seq<Field>): nat {
    if fields == [] then 0 else FixedSize(fields[..|fields| - 1]) + FieldSize(fields[|fields| - 1])
  }

  function PayloadBytes(v: Value): seq<Byte> {
    if v.Payload? then v.bytes else []
  }

  function FieldBytes(f: Field, v: Value): seq<Byte> {
    match v
    case IntValue(i) => IntBytes(FieldSize(f), i)
    case Text(bs) => bs
    case Payload(bs) => bs
    case NoPayload => []
  }

  /** The fields one after the other: what the wire carries. */
  function Bytes(fields: seq<Field>, values: seq<Value>): seq<Byte>
    requires |values| == |fields|
  {
    if fields == [] then [] else FieldBytes(fields[0], values[0]) + Bytes(fields[1..], values[1..])
  }

  /** The generated length function: the payload counts when there is one. */
  function Length(fields: seq<Field>, values: seq<Value>): nat
    requires |values| == |fields|
  {
    if fields == [] then 0
    else
      var n := |fields| - 1;
      Length(fields[..n], values[..n]) + FieldSize(fields[n]) + |PayloadBytes(values[n])|
  }

  /** The bytes of two field lists, one after the other. */
  lemma {:induction false} BytesConcat(a: seq<Field>, va: seq<Value>, b: seq<Field>, vb: seq<Value>)
    requires |a| == |va| && |b| == |vb|
    ensures Bytes(a + b, va + vb) == Bytes(a, va) + Bytes(b, vb)
    decreases |a|
  {
    if a == [] {
      assert a + b == b && va + vb == vb;
    } else {
      BytesConcat(a[1..], va[1..], b, vb);
      ConcatTail(a, b);
      ConcatTail(va, vb);
      ConcatAssociates(FieldBytes(a[0], va[0]), Bytes(a[1..], va[1..]), Bytes(b, vb));
    }
  }

  lemma ConcatTail<T>(a: seq<T>, b: seq<T>)
    requires a != []
    ensures (a + b)[1..] == a[1..] + b && (a + b)[0] == a[0]
  {
  }

  lemma ConcatAssociates<T>(a: seq<T>, b: seq<T>, c: seq<T>)
    ensures (a + b) + c == a + (b + c)
  {
  }

  lemma BytesOfOne(f: Field, v: Value)
    ensures Bytes([f], [v]) == FieldBytes(f, v)
  {
    assert [f][1..] == [] && [v][1..] == [];
  }

  /** One more field of a run of fields. */
  lemma RunStep(fields: seq<Field>, values: seq<Value>, start: nat, i: nat)
    requires |values| == |fields| && start <= i < |fields|
    ensures Length(fields[start..i + 1], values[start..i + 1])
         == Length(fields[start..i], values[start..i]) + FieldSize(fields[i]) + |PayloadBytes(values[i])|
    ensures Bytes(fields[start..i + 1], values[start..i + 1])
         == Bytes(fields[start..i], values[start..i]) + FieldBytes(fields[i], values[i])
  {
    var fs, vs := fields[start..i + 1], values[start..i + 1];
    assert fs[..i - start] == fields[start..i] && vs[..i - start] == values[start..i];
    BytesConcat(fields[start..i], values[start..i], [fields[i]], [values[i]]);
    BytesOfOne(fields[i], values[i]);
    assert fs == fields[start..i] + [fields[i]] && vs == values[start..i] + [values[i]];
  }

  lemma RunOfNone(fields: seq<Field>, values: seq<Value>, i: nat)
    requires |values| == |fields| && i <= |fields|
    ensures FixedSize(fields[i..i]) == 0
    ensures Length(fields[i..i], values[i..i]) == 0
    ensures Bytes(fields[i..i], values[i..i]) == []
  {
  }

  lemma FixedSizeStep(fields: seq<Field>, start: nat, i: nat)
    requires start <= i < |fields|
    ensures FixedSize(fields[start..i + 1]) == FixedSize(fields[start..i]) + FieldSize(fields[i])
  {
    assert fields[start..i + 1][..i - start] == fields[start..i];
  }

  lemma {:induction false} FixedSizeOfPrefix(fields: seq<Field>, start: nat, i: nat, end: nat)
    requires start <= i <= end <= |fields|
    ensures FixedSize(fields[start..i]) <= FixedSize(fields[start..end])
    decreases end - i
  {
    if i < end {
      var fs := fields[start..i + 1];
      assert fs[..i - start] == fields[start..i];
      FixedSizeOfPrefix(fields, start, i + 1, end);
    }
  }

  lemma {:induction false} LengthOfBytes(fields: seq<Field>, values: seq<Value>)
    requires ValuesFit(fields, values)
    ensures |Bytes(fields, values)| == Length(fields, values)
  {
    if fields != [] {
      var n := |fields| - 1;
      LengthOfBytes(fields[..n], values[..n]);
      RunStep(fields, values, 0, n);
      assert fields[0..n] == fields[..n] && values[0..n] == values[..n];
      assert fields[0..n + 1] == fields && values[0..n + 1] == values;
      assert ValueFits(fields[n], values[n]);
    }
  }

  /** What the code generator assumes of a declaration: the packet length and the command come
      first, and there is at most one borrowed payload. */
  predicate WellFormed(l: Layout) {
    && |l.fields| >= 2 && l.fields[0] == IntField(4) && l.fields[1] == IntField(4)
    && (forall i :: 0 <= i < |l.fields| && l.fields[i].IntField? ==> l.fields[i].width in {2, 4, 8})
    && (forall i, j :: 0 <= i < j < |l.fields| ==> !(l.fields[i].BinaryBufRef? && l.fields[j].BinaryBufRef?))
  }

  /** Encoding overwrites the packet length and the command. */
  function Stamp(l: Layout, values: seq<Value>): seq<Value>
    requires WellFormed(l) && |values| == |l.fields|
  {
    values[0 := IntValue(Truncate(4, Length(l.fields, values)))][1 := IntValue(Truncate(4, l.cmd))]
  }

  lemma StampFits(l: Layout, values: seq<Value>)
    requires WellFormed(l) && ValuesFit(l.fields, values)
    ensures ValuesFit(l.fields, Stamp(l, values))
    ensures Length(l.fields, Stamp(l, values)) == Length(l.fields, values)
  {
    var k := TruncateShift(4, Length(l.fields, values));
    k := TruncateShift(4, l.cmd);
    LengthIgnoresInts(l.fields, values, Stamp(l, values));
  }

  lemma {:induction false} LengthIgnoresInts(fields: seq<Field>, a: seq<Value>, b: seq<Value>)
    requires |a| == |b| == |fields|
    requires forall i :: 0 <= i < |fields| ==> PayloadBytes(a[i]) == PayloadBytes(b[i])
    ensures Length(fields, a) == Length(fields, b)
  {
    if fields != [] {
      LengthIgnoresInts(fields[..|fields| - 1], a[..|fields| - 1], b[..|fields| - 1]);
    }
  }

  /** The packet an encoded message becomes. */
  function Packet(l: Layout, values: seq<Value>): seq<Byte>
    requires WellFormed(l) && |values| == |l.fields|
  {
    Bytes(l.fields, Stamp(l, values))
  }

  // ----- Decoding -----

  /** Decodes one field at `at`; None when the field, or the payload view, leaves the packet. */
  function DecodeField(f: Field, packet: seq<Byte>, at: nat, packetLen: int): Option<Value> {
    var n := if f.BinaryBufRef? then packetLen - f.adjust else FieldSize(f);
    if n < 0 || at + n > |packet| then None
    else
      match f
      case IntField(w) => if w == 0 then None else Some(IntValue(BytesInt(packet[at..at + w])))
      case FixedString(_) => Some(Text(packet[at..at + n]))
      case BinaryBufRef(_) => Some(Payload(packet[at..at + n]))
  }

  function ValueSize(v: Value, f: Field): nat {
    FieldSize(f) + |PayloadBytes(v)|
  }

  /** Decodes `fields` from `at` on; None as soon as a field does not lie inside the packet. */
  function DecodeFrom(fields: seq<Field>, packet: seq<Byte>, at: nat, packetLen: int): (r: Option<seq<Value>>)
    ensures r.Some? ==> |r.value| == |fields|
  {
    if fields == [] then Some([])
    else
      var v := DecodeField(fields[0], packet, at, packetLen);
      if v.None? then None
      else
        var rest := DecodeFrom(fields[1..], packet, at + ValueSize(v.value, fields[0]), packetLen);
        if rest.None? then None else Some([v.value] + rest.value)
  }

  function Decode(l: Layout, packet: seq<Byte>): (r: Option<seq<Value>>)
    ensures r.Some? ==> |r.value| == |l.fields|
  {
    if |packet| < 4 then None else DecodeFrom(l.fields, packet, 0, BytesInt(packet[..4]))
  }

  /** A decoded payload always has a buffer. */
  function NormalValue(v: Value): Value {
    if v.NoPayload? then Payload([]) else v
  }

  function Normal(values: seq<Value>): (r: seq<Value>)
    ensures |r| == |values|
  {
    if values == [] then [] else [NormalValue(values[0])] + Normal(values[1..])
  }

  /** Every payload has the length that the receiver will compute. */
  predicate LengthsAgree(fields: seq<Field>, values: seq<Value>, packetLen: int)
    requires |values| == |fields|
  {
    forall i :: 0 <= i < |fields| && fields[i].BinaryBufRef? ==>
      |PayloadBytes(values[i])| == packetLen - fields[i].adjust
  }

  /** A message around one of its fields. */
  lemma BytesAround(fields: seq<Field>, values: seq<Value>, r: nat)
    requires |fields| == |values| && r < |fields|
    ensures Bytes(fields, values) == Bytes(fields[0..r], values[0..r]) + FieldBytes(fields[r], values[r])
                                     + Bytes(fields[r + 1..|fields|], values[r + 1..|fields|])
  {
    var a, x, b := fields[0..r], [fields[r]], fields[r + 1..|fields|];
    var va, vx, vb := values[0..r], [values[r]], values[r + 1..|fields|];
    SplitAround(fields, r);
    SplitAround(values, r);
    BytesConcat(a, va, x, vx);
    BytesOfOne(fields[r], values[r]);
    BytesConcat(a + x, va + vx, b, vb);
  }

  lemma SplitAround<T>(s: seq<T>, r: nat)
    requires r < |s|
    ensures s[0..r] + [s[r]] + s[r + 1..|s|] == s
  {
  }

  lemma DecodeOneField(f: Field, v: Value, pre: seq<Byte>, post: seq<Byte>, packetLen: int)
    requires ValueFits(f, v)
    requires f.BinaryBufRef? ==> |PayloadBytes(v)| == packetLen - f.adjust
    ensures |FieldBytes(f, v)| == ValueSize(NormalValue(v), f)
    ensures DecodeField(f, pre + FieldBytes(f, v) + post, |pre|, packetLen) == Some(NormalValue(v))
  {
    var bytes := FieldBytes(f, v);
    assert (pre + bytes + post)[|pre|..|pre| + |bytes|] == bytes;
    if f.IntField? {
      DecodeOfEncode(f.width, v.v);
    }
  }

  /** Decoding the bytes of the fields, wherever they stand in a packet, gives the values. */
  lemma {:induction false} DecodeOfBytes(fields: seq<Field>, values: seq<Value>, pre: seq<Byte>, post: seq<Byte>, packetLen: int)
    requires ValuesFit(fields, values) && LengthsAgree(fields, values, packetLen)
    ensures DecodeFrom(fields, pre + Bytes(fields, values) + post, |pre|, packetLen) == Some(Normal(values))
    decreases |fields|
  {
    hide DecodeField, FieldBytes;
    if fields != [] {
      var bytes, rest := FieldBytes(fields[0], values[0]), Bytes(fields[1..], values[1..]);
      TailFits(fields, values, packetLen);
      Regroup(pre, bytes, rest, post);
      DecodeOneField(fields[0], values[0], pre, rest + post, packetLen);
      DecodeOfBytes(fields[1..], values[1..], pre + bytes, post, packetLen);
      DecodeCons(fields, pre + Bytes(fields, values) + post, |pre|, packetLen, NormalValue(values[0]), Normal(values[1..]));
    }
  }

  lemma Regroup<T>(pre: seq<T>, a: seq<T>, b: seq<T>, post: seq<T>)
    ensures pre + (a + b) + post == pre + a + (b + post)
    ensures pre + (a + b) + post == (pre + a) + b + post
  {
  }

  lemma DecodeCons(fields: seq<Field>, packet: seq<Byte>, at: nat, packetLen: int, v: Value, vs: seq<Value>)
    requires fields != [] && DecodeField(fields[0], packet, at, packetLen) == Some(v)
    requires DecodeFrom(fields[1..], packet, at + ValueSize(v, fields[0]), packetLen) == Some(vs)
    ensures DecodeFrom(fields, packet, at, packetLen) == Some([v] + vs)
  {
  }

  lemma TailFits(fields: seq<Field>, values: seq<Value>, packetLen: int)
    requires ValuesFit(fields, values) && LengthsAgree(fields, values, packetLen) && fields != []
    ensures ValuesFit(fields[1..], values[1..]) && LengthsAgree(fields[1..], values[1..], packetLen)
    ensures ValueFits(fields[0], values[0])
    ensures fields[0].BinaryBufRef? ==> |PayloadBytes(values[0])| == packetLen - fields[0].adjust
  {
  }

  /** A successful decode produced payloads of the computed length. */
  lemma {:induction false} DecodedLengthsAgree(fields: seq<Field>, packet: seq<Byte>, at: nat, packetLen: int)
    requires DecodeFrom(fields, packet, at, packetLen).Some?
    ensures LengthsAgree(fields, DecodeFrom(fields, packet, at, packetLen).value, packetLen)
    decreases |fields|
  {
    if fields != [] {
      var v := DecodeField(fields[0], packet, at, packetLen).value;
      DecodedLengthsAgree(fields[1..], packet, at + ValueSize(v, fields[0]), packetLen);
    }
  }

  lemma {:induction false} LengthSplits(fields: seq<Field>, values: seq<Value>, r: nat)
    requires |values| == |fields|
    requires forall i :: 0 <= i < |fields| && i != r ==> PayloadBytes(values[i]) == []
    ensures Length(fields, values) == FixedSize(fields) + if r < |fields| then |PayloadBytes(values[r])| else 0
  {
    if fields != [] {
      LengthSplits(fields[..|fields| - 1], values[..|fields| - 1], r);
    }
  }

  /** The declared adjustment of every payload is the size of all the other fields. */
  predicate AdjustIsFixedSize(l: Layout) {
    forall i :: 0 <= i < |l.fields| && l.fields[i].BinaryBufRef? ==> l.fields[i].adjust == FixedSize(l.fields)
  }

  lemma PacketIsStamped(l: Layout, values: seq<Value>)
    requires WellFormed(l) && ValuesFit(l.fields, values)
    requires Length(l.fields, values) < 0x8000_0000
    ensures |Packet(l, values)| == Length(l.fields, values) >= 8
    ensures Packet(l, values)[..4] == IntBytes(4, Length(l.fields, values))
    ensures Packet(l, values)[4..8] == IntBytes(4, Truncate(4, l.cmd))
    ensures BytesInt(Packet(l, values)[..4]) == |Packet(l, values)|
    ensures BytesInt(Packet(l, values)[4..8]) == Truncate(4, l.cmd)
  {
    var stamped, n := Stamp(l, values), Length(l.fields, values);
    StampFits(l, values);
    Widths();
    TruncateOfFitting(4, n);
    LengthOfBytes(l.fields, stamped);
    var packet := Packet(l, values);
    assert packet == IntBytes(4, n) + (IntBytes(4, Truncate(4, l.cmd)) + Bytes(l.fields[1..][1..], stamped[1..][1..]));
    DecodeOfEncode(4, n);
    DecodeOfEncode(4, Truncate(4, l.cmd));
  }

  lemma {:induction false} NormalAt(values: seq<Value>, i: nat)
    requires i < |values|
    ensures Normal(values)[i] == NormalValue(values[i])
  {
    if i > 0 {
      NormalAt(values[1..], i - 1);
    }
  }

  /** The index of the payload, or the number of fields when there is none. */
  function PayloadIndex(fields: seq<Field>): (r: nat)
    ensures r <= |fields|
    ensures r < |fields| ==> fields[r].BinaryBufRef?
    ensures forall i :: 0 <= i < r ==> !fields[i].BinaryBufRef?
  {
    if fields == [] || fields[0].BinaryBufRef? then 0 else 1 + PayloadIndex(fields[1..])
  }

  /** The receiver computes the right payload length exactly when the declaration is right. */
  lemma LengthsAgreeIff(l: Layout, values: seq<Value>)
    requires WellFormed(l) && ValuesFit(l.fields, values)
    ensures AdjustIsFixedSize(l) <==> LengthsAgree(l.fields, values, Length(l.fields, values))
  {
    var r := PayloadIndex(l.fields);
    forall i | 0 <= i < |l.fields| && i != r
      ensures PayloadBytes(values[i]) == [] && !l.fields[i].BinaryBufRef?
    {
      assert ValueFits(l.fields[i], values[i]);
    }
    LengthSplits(l.fields, values, r);
  }

  lemma DecodedIsNormalOnlyIfLengthsAgree(l: Layout, values: seq<Value>, packet: seq<Byte>, n: int)
    requires |values| == |l.fields|
    requires DecodeFrom(l.fields, packet, 0, n) == Some(Normal(values))
    ensures LengthsAgree(l.fields, values, n)
  {
    DecodedLengthsAgree(l.fields, packet, 0, n);
    forall i | 0 <= i < |l.fields| && l.fields[i].BinaryBufRef?
      ensures |PayloadBytes(values[i])| == n - l.fields[i].adjust
    {
      NormalAt(values, i);
    }
  }

  /** Main result: decoding undoes encoding on every message of a layout exactly when the declared
      adjustment of its payload is the size of the other fields. */
  lemma {:induction false} RoundTrip(l: Layout, values: seq<Value>)
    requires WellFormed(l) && ValuesFit(l.fields, values)
    requires Length(l.fields, values) < 0x8000_0000
    ensures Decode(l, Packet(l, values)) == Some(Normal(Stamp(l, values))) <==> AdjustIsFixedSize(l)
  {
    var stamped, packet, n := Stamp(l, values), Packet(l, values), Length(l.fields, values);
    StampFits(l, values);
    PacketIsStamped(l, values);
    LengthsAgreeIff(l, stamped);
    if LengthsAgree(l.fields, stamped, n) {
      assert [] + packet + [] == packet;
      DecodeOfBytes(l.fields, stamped, [], [], n);
    } else if Decode(l, packet) == Some(Normal(stamped)) {
      DecodedIsNormalOnlyIfLengthsAgree(l, stamped, packet, n);
    }
  }

  // ----- The declared layouts -----

  const TOP: seq<Field> := [IntField(4), IntField(4)]
  const HEAD: seq<Field> := TOP + [IntField(4), IntField(4), IntField(4)]

  const ABSTRACT_CMD := Layout(0x0, TOP)
  const PREVIEW_CMD := Layout(0x00050104, HEAD + [FixedString(128), IntField(8), IntField(2), IntField(4)])
  const PREVIEW_CMD_RES :=
    Layout(0x80050101, HEAD + [IntField(4), IntField(4), IntField(4), IntField(4), IntField(4)])
  const SMTS_FRAME_RES := Layout(0x80050102, HEAD + [IntField(4), BinaryBufRef(20)])
  const MOCK_DVR_PREVIEW := Layout(0x00018001, TOP + [IntField(4), IntField(4)])
  const MOCK_DVR_FRAME := Layout(0x00018002, TOP + [IntField(4), IntField(4), IntField(8), BinaryBufRef(24)])
  const TEST_PTZ_CMD := Layout(0x00018010, HEAD + [IntField(4)])
  const COMMON_RES := Layout(0x80000001, HEAD + [IntField(4)])

  const PROTOCOL_MAP: seq<Layout> :=
    [ABSTRACT_CMD, PREVIEW_CMD, PREVIEW_CMD_RES, SMTS_FRAME_RES,
     MOCK_DVR_PREVIEW, MOCK_DVR_FRAME, TEST_PTZ_CMD, COMMON_RES]

  lemma DeclaredLayoutsAreWellFormed()
    ensures forall i :: 0 <= i < |PROTOCOL_MAP| ==> WellFormed(PROTOCOL_MAP[i])
  {
  }

  /** The commands tell the declared layouts apart, also after conversion to 32 bits. */
  lemma CommandsAreDistinct()
    ensures forall i, j :: 0 <= i < j < |PROTOCOL_MAP| ==>
      Truncate(4, PROTOCOL_MAP[i].cmd) != Truncate(4, PROTOCOL_MAP[j].cmd)
  {
    Widths();
  }

  lemma {:induction false} FixedSizeSnoc(fields: seq<Field>, f: Field)
    ensures FixedSize(fields + [f]) == FixedSize(fields) + FieldSize(f)
  {
    assert (fields + [f])[..|fields|] == fields;
  }

  lemma FixedSizes()
    ensures FixedSize(MOCK_DVR_FRAME.fields) == 24
    ensures FixedSize(SMTS_FRAME_RES.fields) == 24
  {
    var int4 := IntField(4);
    FixedSizeOfInts(4);
    FixedSizeOfInts(6);
    FixedSizeSnoc(seq(6, _ => int4), BinaryBufRef(20));
    FixedSizeSnoc(seq(4, _ => int4), IntField(8));
    FixedSizeSnoc(seq(4, _ => int4) + [IntField(8)], BinaryBufRef(24));
    assert SMTS_FRAME_RES.fields == seq(6, _ => int4) + [BinaryBufRef(20)];
    assert MOCK_DVR_FRAME.fields == seq(4, _ => int4) + [IntField(8)] + [BinaryBufRef(24)];
  }

  lemma {:induction false} FixedSizeOfInts(n: nat)
    ensures FixedSize(seq(n, _ => IntField(4))) == 4 * n
  {
    if n > 0 {
      FixedSizeOfInts(n - 1);
      FixedSizeSnoc(seq(n - 1, _ => IntField(4)), IntField(4));
      assert seq(n, _ => IntField(4)) == seq(n - 1, _ => IntField(4)) + [IntField(4)];
    }
  }

  /** Among the declared layouts only the frame response has the wrong adjustment. */
  lemma DeclaredAdjustments(i: nat)
    requires i < |PROTOCOL_MAP|
    ensures AdjustIsFixedSize(PROTOCOL_MAP[i]) <==> PROTOCOL_MAP[i] != SMTS_FRAME_RES
  {
    FixedSizes();
    if PROTOCOL_MAP[i] == SMTS_FRAME_RES {
      assert SMTS_FRAME_RES.fields[6] == BinaryBufRef(20);
    }
  }

  /** What a successful decode produced lies inside the packet. */
  lemma {:induction false} DecodedInsidePacket(fields: seq<Field>, packet: seq<Byte>, at: nat, packetLen: int)
    requires DecodeFrom(fields, packet, at, packetLen).Some? && at <= |packet|
    ensures at + Length(fields, DecodeFrom(fields, packet, at, packetLen).value) <= |packet|
    decreases |fields|
  {
    if fields != [] {
      var v := DecodeField(fields[0], packet, at, packetLen).value;
      var next := at + ValueSize(v, fields[0]);
      DecodedInsidePacket(fields[1..], packet, next, packetLen);
      LengthCons(fields, DecodeFrom(fields, packet, at, packetLen).value);
    }
  }

  lemma {:induction false} LengthCons(fields: seq<Field>, values: seq<Value>)
    requires |fields| == |values| && fields != []
    ensures Length(fields, values) == ValueSize(values[0], fields[0]) + Length(fields[1..], values[1..])
    decreases |fields|
  {
    var n := |fields| - 1;
    if n > 0 {
      LengthCons(fields[..n], values[..n]);
      assert fields[..n][1..] == fields[1..][..n - 1] && values[..n][1..] == values[1..][..n - 1];
    } else {
      assert Length(fields[..0], values[..0]) == 0;
    }
  }

  /** A frame response never decodes: whatever its payload, the view runs past its packet. */
  lemma FrameResponseNeverDecodes(values: seq<Value>)
    requires ValuesFit(SMTS_FRAME_RES.fields, values)
    requires Length(SMTS_FRAME_RES.fields, values) < 0x8000_0000
    ensures Decode(SMTS_FRAME_RES, Packet(SMTS_FRAME_RES, values)) == None
  {
    var l, packet := SMTS_FRAME_RES, Packet(SMTS_FRAME_RES, values);
    assert WellFormed(l);
    PacketIsStamped(l, values);
    if Decode(l, packet).Some? {
      var decoded := Decode(l, packet).value;
      DecodedInsidePacket(l.fields, packet, 0, |packet|);
      DecodedLengthsAgree(l.fields, packet, 0, |packet|);
      FixedSizes();
      assert l.fields[6] == BinaryBufRef(20);
      LengthAtLeast(l.fields, decoded, 6);
    }
  }

  lemma {:induction false} LengthAtLeast(fields: seq<Field>, values: seq<Value>, i: nat)
    requires |fields| == |values| && i < |fields|
    ensures Length(fields, values) >= FixedSize(fields) + |PayloadBytes(values[i])|
    decreases |fields|
  {
    var n := |fields| - 1;
    if i < n {
      LengthAtLeast(fields[..n], values[..n], i);
    } else {
      LengthAtLeastFixed(fields[..n], values[..n]);
    }
  }

  lemma {:induction false} LengthAtLeastFixed(fields: seq<Field>, values: seq<Value>)
    requires |fields| == |values|
    ensures Length(fields, values) >= FixedSize(fields)
  {
    if fields != [] {
      LengthAtLeastFixed(fields[..|fields| - 1], values[..|fields| - 1]);
    }
  }
}
