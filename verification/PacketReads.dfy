/** What the generated decoders read: integers and strings inside the packet, and for a payload only
    a view, a pointer and a length that nothing compares with the packet. */
module PacketReads {
  import opened IntegerCodec
  import opened PacketLayout

  /** An int that becomes a size_t. */
  function ViewLength(n: int): nat {
    n % 0x1_0000_0000_0000_0000
  }

  /** How far a field moves the cursor. */
  function ReadSize(f: Field, packetLen: int): int {
    if f.BinaryBufRef? then packetLen - f.adjust else FieldSize(f)
  }

  /** Reads one field at `at`; None when an integer or a string is not inside the packet. */
  function ReadField(f: Field, packet: seq<Byte>, at: int): Option<Value> {
    if f.BinaryBufRef? then Some(NoPayload)
    else if at < 0 || at + FieldSize(f) > |packet| then None
    else if f.FixedString? then Some(Text(packet[at..at + f.size]))
    else if f.width == 0 then None
    else Some(IntValue(BytesInt(packet[at..at + f.width])))
  }

  function ReadFrom(fields: seq<Field>, packet: seq<Byte>, at: int, packetLen: int): (r: Option<seq<Value>>)
    ensures r.Some? ==> |r.value| == |fields|
  {
    if fields == [] then Some([])
    else
      var v := ReadField(fields[0], packet, at);
      var rest := ReadFrom(fields[1..], packet, at + ReadSize(fields[0], packetLen), packetLen);
      if v.None? || rest.None? then None else Some([v.value] + rest.value)
  }

  /** The length that the packet claims for itself. */
  function ClaimedLength(packet: seq<Byte>): int {
    if |packet| < 4 then 0 else BytesInt(packet[..4])
  }

  lemma ClaimsAreSmall(packet: seq<Byte>)
    ensures ClaimedLength(packet) < 0x8000_0000
  {
    if |packet| >= 4 {
      EncodeOfDecode(packet[..4]);
      Widths();
    }
  }

  /** The scalars and strings of a packet; None when one of them is outside it. */
  function Read(l: Layout, packet: seq<Byte>): Option<seq<Value>> {
    ReadFrom(l.fields, packet, 0, ClaimedLength(packet))
  }

  /** Where the payload view begins. */
  function PayloadStart(fields: seq<Field>): nat {
    FixedSize(fields[..PayloadIndex(fields)])
  }

  lemma {:induction false} FixedSizeCons(fields: seq<Field>)
    requires fields != []
    ensures FixedSize(fields) == FieldSize(fields[0]) + FixedSize(fields[1..])
    decreases |fields|
  {
    var n := |fields| - 1;
    if n > 0 {
      FixedSizeCons(fields[..n]);
      assert fields[..n][1..] == fields[1..][..n - 1];
    } else {
      assert FixedSize(fields[..0]) == 0;
    }
  }

  /** Main result: a layout whose payload comes last is read inside the packet exactly when the
      packet is as long as its fixed fields, whatever length it claims. */
  lemma {:induction false} ReadsFixedFields(fields: seq<Field>, packet: seq<Byte>, at: nat, packetLen: int)
    requires forall i :: 0 <= i < |fields| && fields[i].BinaryBufRef? ==> i == |fields| - 1
    requires forall i :: 0 <= i < |fields| && fields[i].IntField? ==> fields[i].width > 0
    ensures at <= |packet| ==> (ReadFrom(fields, packet, at, packetLen).Some? <==> at + FixedSize(fields) <= |packet|)
    decreases |fields|
  {
    if fields != [] {
      FixedSizeCons(fields);
      if !fields[0].BinaryBufRef? && at + FieldSize(fields[0]) <= |packet| {
        ReadsFixedFields(fields[1..], packet, at + FieldSize(fields[0]), packetLen);
      }
      if fields[0].BinaryBufRef? {
        assert fields[1..] == [];
      }
    }
  }

  lemma DeclaredReads(i: nat, packet: seq<Byte>)
    requires i < |PROTOCOL_MAP|
    ensures Read(PROTOCOL_MAP[i], packet).Some? <==> FixedSize(PROTOCOL_MAP[i].fields) <= |packet|
  {
    DeclaredLayoutsAreWellFormed();
    ReadsFixedFields(PROTOCOL_MAP[i].fields, packet, 0, ClaimedLength(packet));
  }

  lemma PayloadStartCons(fields: seq<Field>)
    ensures fields != [] && PayloadIndex(fields) == 0 ==> PayloadStart(fields) == 0
    ensures PayloadIndex(fields) > 0 ==> PayloadStart(fields) == FieldSize(fields[0]) + PayloadStart(fields[1..])
  {
    var r := PayloadIndex(fields);
    if r > 0 {
      FixedSizeCons(fields[..r]);
      assert fields[..r][1..] == fields[1..][..r - 1];
    }
  }

  function Stripped(values: seq<Value>): (r: seq<Value>)
    ensures |r| == |values|
  {
    if values == [] then [] else [if values[0].Payload? then NoPayload else values[0]] + Stripped(values[1..])
  }

  /** Main result: where the specified decode exists, the reads are its scalars and strings... */
  lemma {:induction false} DecodeIsRead(fields: seq<Field>, packet: seq<Byte>, at: nat, packetLen: int)
    requires DecodeFrom(fields, packet, at, packetLen).Some?
    ensures ReadFrom(fields, packet, at, packetLen) == Some(Stripped(DecodeFrom(fields, packet, at, packetLen).value))
    decreases |fields|
  {
    hide BytesInt;
    if fields != [] {
      var v := DecodeField(fields[0], packet, at, packetLen).value;
      DecodeIsRead(fields[1..], packet, at + ValueSize(v, fields[0]), packetLen);
    }
  }

  /** ...and the view is its payload, inside the packet. */
  lemma {:induction false} PayloadIsView(fields: seq<Field>, packet: seq<Byte>, at: nat, packetLen: int)
    requires DecodeFrom(fields, packet, at, packetLen).Some? && PayloadIndex(fields) < |fields|
    ensures var m, r := DecodeFrom(fields, packet, at, packetLen).value, PayloadIndex(fields);
      var start, n := at + PayloadStart(fields), packetLen - fields[r].adjust;
      0 <= n && start + n <= |packet| && m[r] == Payload(packet[start..start + n])
    decreases |fields|
  {
    PayloadStartCons(fields);
    DecodeTail(fields, packet, at, packetLen);
    hide BytesInt, FixedSize, PayloadStart, DecodeFrom;
    if !fields[0].BinaryBufRef? {
      var v := DecodeField(fields[0], packet, at, packetLen).value;
      PayloadIsView(fields[1..], packet, at + ValueSize(v, fields[0]), packetLen);
    }
  }

  lemma DecodeTail(fields: seq<Field>, packet: seq<Byte>, at: nat, packetLen: int)
    requires DecodeFrom(fields, packet, at, packetLen).Some? && fields != []
    ensures var v := DecodeField(fields[0], packet, at, packetLen);
      && v.Some?
      && var rest := DecodeFrom(fields[1..], packet, at + ValueSize(v.value, fields[0]), packetLen);
         rest.Some? && DecodeFrom(fields, packet, at, packetLen).value == [v.value] + rest.value
  {
  }

  lemma {:induction false} StrippedAt(values: seq<Value>, i: nat)
    requires i < |values|
    ensures Stripped(values)[i] == if values[i].Payload? then NoPayload else values[i]
  {
    if i > 0 {
      StrippedAt(values[1..], i - 1);
    }
  }

  /** What the specified decode gives fits the fields. */
  lemma {:induction false} DecodedFitsAt(fields: seq<Field>, packet: seq<Byte>, at: nat, packetLen: int, i: nat)
    requires DecodeFrom(fields, packet, at, packetLen).Some? && i < |fields|
    ensures ValueFits(fields[i], DecodeFrom(fields, packet, at, packetLen).value[i])
    ensures fields[i].BinaryBufRef? <==> DecodeFrom(fields, packet, at, packetLen).value[i].Payload?
    decreases |fields|
  {
    DecodeTail(fields, packet, at, packetLen);
    hide DecodeFrom, DecodeField, ValueFits;
    var v := DecodeField(fields[0], packet, at, packetLen).value;
    if i == 0 {
      DecodedFieldFits(fields[0], packet, at, packetLen);
    } else {
      DecodedFitsAt(fields[1..], packet, at + ValueSize(v, fields[0]), packetLen, i - 1);
    }
  }

  lemma DecodedFits(fields: seq<Field>, packet: seq<Byte>, at: nat, packetLen: int)
    requires DecodeFrom(fields, packet, at, packetLen).Some?
    ensures ValuesFit(fields, DecodeFrom(fields, packet, at, packetLen).value)
    ensures forall i :: 0 <= i < |fields| ==>
      (fields[i].BinaryBufRef? <==> DecodeFrom(fields, packet, at, packetLen).value[i].Payload?)
  {
    var m := DecodeFrom(fields, packet, at, packetLen).value;
    hide DecodeFrom, ValueFits;
    forall i | 0 <= i < |fields|
      ensures ValueFits(fields[i], m[i]) && (fields[i].BinaryBufRef? <==> m[i].Payload?)
    {
      DecodedFitsAt(fields, packet, at, packetLen, i);
    }
  }

  lemma DecodedFieldFits(f: Field, packet: seq<Byte>, at: nat, packetLen: int)
    requires DecodeField(f, packet, at, packetLen).Some?
    ensures ValueFits(f, DecodeField(f, packet, at, packetLen).value)
    ensures f.BinaryBufRef? <==> DecodeField(f, packet, at, packetLen).value.Payload?
  {
    if f.IntField? {
      EncodeOfDecode(packet[at..at + f.width]);
    }
  }

  // ----- The decoding pass -----

  /** The pass has read `front` and stands at `at`. */
  ghost predicate Cursor(fields: seq<Field>, packet: seq<Byte>, packetLen: int, front: seq<Value>, at: int) {
    && |front| <= |fields|
    && (|front| <= PayloadIndex(fields) ==> at == FixedSize(fields[..|front|]))
    && var rest := ReadFrom(fields[|front|..], packet, at, packetLen);
       ReadFrom(fields, packet, 0, packetLen) == if rest.None? then None else Some(front + rest.value)
  }

  lemma CursorStarts(fields: seq<Field>, packet: seq<Byte>, packetLen: int)
    ensures Cursor(fields, packet, packetLen, [], 0)
  {
    assert fields[0..] == fields;
    var rest := ReadFrom(fields, packet, 0, packetLen);
    assert rest.Some? ==> [] + rest.value == rest.value;
  }

  lemma CursorEnds(fields: seq<Field>, packet: seq<Byte>, packetLen: int, front: seq<Value>, at: int)
    requires |front| == |fields| && Cursor(fields, packet, packetLen, front, at)
    ensures ReadFrom(fields, packet, 0, packetLen) == Some(front)
  {
    assert fields[|front|..] == [] && front + [] == front;
  }

  lemma ReadStep(fields: seq<Field>, front: seq<Value>, packet: seq<Byte>, at: int, packetLen: int)
    requires |front| < |fields|
    ensures var k := |front|;
      var v, here := ReadField(fields[k], packet, at), ReadFrom(fields[k..], packet, at, packetLen);
      var rest := ReadFrom(fields[k + 1..], packet, at + ReadSize(fields[k], packetLen), packetLen);
      && (v.None? || rest.None? ==> here.None?)
      && (v.Some? && rest.Some? ==> here.Some? && front + here.value == front + [v.value] + rest.value)
  {
    hide ReadField, ReadSize;
    var k := |front|;
    var v := ReadField(fields[k], packet, at);
    var rest := ReadFrom(fields[k + 1..], packet, at + ReadSize(fields[k], packetLen), packetLen);
    assert fields[k..][0] == fields[k] && fields[k..][1..] == fields[k + 1..];
    if v.Some? && rest.Some? {
      assert front + ([v.value] + rest.value) == front + [v.value] + rest.value;
    }
  }

  lemma CursorAt(fields: seq<Field>, front: seq<Value>, at: int, packetLen: int)
    requires |front| < |fields| && (|front| <= PayloadIndex(fields) ==> at == FixedSize(fields[..|front|]))
    requires fields[|front|].BinaryBufRef? <==> |front| == PayloadIndex(fields)
    ensures fields[|front|].BinaryBufRef? ==> at == PayloadStart(fields)
    ensures |front| < PayloadIndex(fields) ==>
      at + ReadSize(fields[|front|], packetLen) == FixedSize(fields[..|front| + 1])
  {
    hide PayloadIndex;
    assert fields[..|front| + 1][..|front|] == fields[..|front|];
  }

  lemma CursorStep(fields: seq<Field>, packet: seq<Byte>, packetLen: int, front: seq<Value>, at: int)
    requires |front| < |fields| && Cursor(fields, packet, packetLen, front, at)
    requires fields[|front|].BinaryBufRef? <==> |front| == PayloadIndex(fields)
    ensures fields[|front|].BinaryBufRef? ==> at == PayloadStart(fields)
    ensures var v := ReadField(fields[|front|], packet, at);
      if v.None? then ReadFrom(fields, packet, 0, packetLen).None?
      else Cursor(fields, packet, packetLen, front + [v.value], at + ReadSize(fields[|front|], packetLen))
  {
    ReadStep(fields, front, packet, at, packetLen);
    CursorAt(fields, front, at, packetLen);
    hide PayloadIndex, ReadField, ReadFrom, FixedSize, ReadSize, PayloadStart;
  }
}
