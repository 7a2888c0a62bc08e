/** The generated packet structures of `src/protocol/smts_proto.c`: the gather buffers an encoded
    packet is sent from, decoding in place, and reference-counted destruction.
 */
module PacketCodec {
  import opened IntegerCodec
  import opened PacketLayout
  import opened PacketReads

  /** A base pointer into a block of memory and a length. */
  datatype Buf = Null | Slice(mem: array<Byte>, start: nat, len: nat)

  predicate InBounds(b: Buf) {
    b.Slice? ==> b.start + b.len <= b.mem.Length
  }

  function Content(b: Buf): seq<Byte>
    requires InBounds(b)
    reads if b.Slice? then {b.mem} else {}
  {
    if b.Slice? then b.mem[b.start..b.start + b.len] else []
  }

  /** A buffer that is a whole block, as malloc returned it. */
  predicate IsBlock(b: Buf) {
    b.Slice? && b.start == 0 && b.len == b.mem.Length
  }

  /** The blocks of the slots that are not marked as borrowed. */
  function OwnedBlocks(slots: seq<Buf>, refBits: set<nat>): seq<array<Byte>> {
    if slots == [] then []
    else
      var i := |slots| - 1;
      OwnedBlocks(slots[..i], refBits) +
      if slots[i].Slice? && i !in refBits then [slots[i].mem] else []
  }

  class Command {
    const layout: Layout
    /** The fields of the structure; the payload field has its own pointer. */
    var values: seq<Value>
    var payload: Buf
    /** The gather buffers, and the bitmap of the borrowed ones. */
    var hasSlots: bool
    var slots: seq<Buf>
    var refBits: set<nat>
    var ref: nat
    /** The structure itself is allocated; the blocks it has freed, in order. */
    ghost var live: bool
    ghost var freed: seq<array<Byte>>

    ghost predicate Valid()
      reads `live, `values, `payload
    {
      && live && WellFormed(layout) && ValuesFit(layout.fields, values)
      && InBounds(payload)
      && var r := PayloadIndex(layout.fields);
         if r < |layout.fields| then values[r] == NoPayload else payload == Null
    }

    /** The message the structure holds. */
    ghost function Message(): (m: seq<Value>)
      requires Valid()
      reads `live, `values, `payload, if payload.Slice? then {payload.mem} else {}
      ensures |m| == |layout.fields| && ValuesFit(layout.fields, m)
    {
      if payload == Null then values else values[PayloadIndex(layout.fields) := Payload(Content(payload))]
    }

    constructor (layout: Layout, values: seq<Value>)
      requires WellFormed(layout) && ValuesFit(layout.fields, values)
      requires forall i :: 0 <= i < |values| ==> !values[i].Payload?
      ensures Valid() && this.layout == layout
      ensures this.values == values[1 := IntValue(Truncate(4, layout.cmd))]
      ensures payload == Null && !hasSlots && slots == [] && refBits == {} && ref == 0 && freed == []
    {
      this.layout := layout;
      this.values := values[1 := IntValue(Truncate(4, layout.cmd))];
      payload := Null;
      hasSlots, slots, refBits := false, [], {};
      ref := 0;
      live, freed := true, [];
      new;
      var k := TruncateShift(4, layout.cmd);
    }

    /** The number of gather buffers: the fields before the payload, the payload, those after. */
    ghost function SlotCount(): nat
      reads `payload
    {
      if payload == Null then 1 else if PayloadIndex(layout.fields) + 1 < |layout.fields| then 3 else 2
    }

    /** Owned buffers are whole blocks of the size of their fields, the payload is borrowed, and the
        bitmap marks exactly the borrowed buffer. */
    ghost predicate SlotsFit()
      reads `hasSlots, `slots, `refBits, `payload
      requires WellFormed(layout)
    {
      var fs, r := layout.fields, PayloadIndex(layout.fields);
      && hasSlots && |slots| == SlotCount()
      && IsBlock(slots[0])
      && (payload == Null ==> refBits == {} && slots[0].len == FixedSize(fs))
      && (payload != Null ==> r < |fs| && refBits == {1} && slots[1] == payload)
      && (payload != Null ==> slots[0].len == FixedSize(fs[0..r]) && slots[0].mem != payload.mem)
      && (|slots| == 3 ==> IsBlock(slots[2]) && slots[2].len == FixedSize(fs[r + 1..]))
      && (|slots| == 3 ==> slots[2].mem != payload.mem && slots[2].mem != slots[0].mem)
    }

    /** The first pass counts the buffers. */
    method BufsAlloc()
      requires Valid()
      modifies this`hasSlots, this`slots, this`refBits
      ensures SlotsFit()
      ensures fresh(OwnBlocks())
    {
      var bufLen, isNew, i := 0, true, 0;
      while i < |layout.fields|
        invariant 0 <= i <= |layout.fields|
        invariant payload == Null || i <= PayloadIndex(layout.fields) ==>
                    (isNew <==> i == 0) && bufLen == if i == 0 then 0 else 1
        invariant payload != Null && i > PayloadIndex(layout.fields) ==>
                    (isNew <==> i == PayloadIndex(layout.fields) + 1) && bufLen == if isNew then 2 else 3
      {
        if layout.fields[i].BinaryBufRef? {
          if payload != Null {
            bufLen, isNew := bufLen + 1, true;
          }
        } else if isNew {
          bufLen, isNew := bufLen + 1, false;
        }
        i := i + 1;
      }
      slots := seq(bufLen, _ => Null);
      hasSlots := true;
      BufsInnerAlloc();
    }

    /** The second pass stands before field `i`, with `bufSize` bytes counted for slot `b`. */
    ghost predicate Filling(i: nat, isNew: bool, bufSize: nat, index: nat, b: nat)
      reads `slots, `refBits, `payload
      requires i <= |layout.fields|
    {
      var fs, r := layout.fields, PayloadIndex(layout.fields);
      && |slots| == SlotCount()
      && (payload == Null || i <= r ==>
            (isNew <==> i == 0) && b == index == 0 && refBits == {} && bufSize == FixedSize(fs[0..i]))
      && (payload != Null && i > r ==>
            (isNew <==> i == r + 1) && b == 2 && index == 1 && refBits == {1} && bufSize == FixedSize(fs[r + 1..i]))
      && (payload != Null && i > r ==>
            IsBlock(slots[0]) && slots[0].len == FixedSize(fs[0..r]) && slots[0].mem != payload.mem && slots[1] == payload)
    }

    /** At the payload the index is found, and it is not the first field. */
    lemma AtPayload(i: nat)
      requires Valid() && i < |layout.fields| && layout.fields[i].BinaryBufRef?
      ensures i == PayloadIndex(layout.fields) >= 2
    {
    }

    /** The step of the second pass at any other field. */
    lemma FillingStep(i: nat, isNew: bool, bufSize: nat, index: nat, b: nat)
      requires Valid() && i < |layout.fields| && Filling(i, isNew, bufSize, index, b)
      requires layout.fields[i].BinaryBufRef? ==> payload == Null
      ensures layout.fields[i].BinaryBufRef? ==> !isNew
      ensures Filling(i + 1, false, bufSize + FieldSize(layout.fields[i]), index, b)
    {
      if layout.fields[i].BinaryBufRef? {
        AtPayload(i);
      }
      hide ValuesFit;
      FixedSizeStep(layout.fields, if payload == Null || i < PayloadIndex(layout.fields) then 0 else PayloadIndex(layout.fields) + 1, i);
    }

    /** The step of the second pass at a payload that has a buffer. */
    method BorrowPayload(ghost i: nat, bufSize0: nat, index0: nat, b0: nat)
        returns (bufSize: nat, isNew: bool, index: nat, b: nat)
      requires Valid() && payload != Null && i == PayloadIndex(layout.fields) < |layout.fields|
      requires Filling(i, false, bufSize0, index0, b0)
      modifies this`slots, this`refBits
      ensures Filling(i + 1, isNew, bufSize, index, b) && b == 2
      ensures slots[0].Slice? && fresh(slots[0].mem)
    {
      var block := new Byte[bufSize0];
      slots := slots[b0 := Slice(block, 0, bufSize0)];
      bufSize, isNew := 0, true;
      b, index := b0 + 1, index0 + 1;
      slots := slots[b := payload];
      refBits := refBits + {index};
      b := b + 1;
      assert layout.fields[i + 1..i + 1] == [];
    }

    /** The second pass allocates the owned buffers and borrows the payload. */
    method BufsInnerAlloc()
      requires Valid() && hasSlots && |slots| == SlotCount()
      modifies this`slots, this`refBits
      ensures SlotsFit()
      ensures fresh(OwnBlocks())
    {
      hide ValuesFit, SlotsFit, WellFormed, FixedSize, Message;
      var isNew, bufSize: nat, index: nat, b: nat, i := true, 0, 0, 0, 0;
      RunOfNone(layout.fields, Message(), 0);
      refBits := {};
      while i < |layout.fields|
        invariant 0 <= i <= |layout.fields|
        invariant Filling(i, isNew, bufSize, index, b)
        invariant b == 2 ==> slots[0].Slice? && fresh(slots[0].mem)
      {
        if !layout.fields[i].BinaryBufRef? {
          FillingStep(i, isNew, bufSize, index, b);
          isNew := false;
          bufSize := bufSize + FieldSize(layout.fields[i]);
        } else if payload != Null {
          AtPayload(i);
          bufSize, isNew, index, b := BorrowPayload(i, bufSize, index, b);
        } else {
          FillingStep(i, isNew, bufSize, index, b);
        }
        i := i + 1;
      }
      AllocLast(isNew, bufSize, index, b);
    }

    /** The end of the second pass: the buffer of the fields after the last borrowed one. */
    method AllocLast(isNew: bool, bufSize: nat, ghost index: nat, b: nat)
      requires Valid() && hasSlots && Filling(|layout.fields|, isNew, bufSize, index, b)
      modifies this`slots
      ensures SlotsFit()
      ensures fresh(OwnBlocks() - if b == 2 then old(Blocks(slots[..1])) else {})
    {
      assert layout.fields[0..|layout.fields|] == layout.fields;
      if !isNew {
        var block := new Byte[bufSize];
        slots := slots[b := Slice(block, 0, bufSize)];
      }
    }

    /** Only the payload field has a variable part. */
    lemma LengthStep(i: nat)
      requires Valid() && i < |layout.fields|
      ensures Length(layout.fields[0..i + 1], Message()[0..i + 1])
           == Length(layout.fields[0..i], Message()[0..i]) +
              if !layout.fields[i].BinaryBufRef? then FieldSize(layout.fields[i])
              else if payload.Slice? then payload.len else 0
    {
      RunStep(layout.fields, Message(), 0, i);
      assert ValueFits(layout.fields[i], Message()[i]);
      if layout.fields[i].BinaryBufRef? {
        AtPayload(i);
      }
    }

    /** The generated length function. */
    method PacketLength() returns (len: nat)
      requires Valid()
      ensures len == Length(layout.fields, Message())
    {
      hide ValuesFit, WellFormed, Length, Message, FieldSize;
      len := 0;
      var i := 0;
      RunOfNone(layout.fields, Message(), 0);
      while i < |layout.fields|
        invariant 0 <= i <= |layout.fields|
        invariant len == Length(layout.fields[0..i], Message()[0..i])
      {
        LengthStep(i);
        if layout.fields[i].BinaryBufRef? {
          if payload != Null {
            len := len + payload.len;
          }
        } else {
          len := len + FieldSize(layout.fields[i]);
        }
        i := i + 1;
      }
      assert layout.fields[0..i] == layout.fields && Message()[0..i] == Message();
    }

    /** The slot that field `i` goes to, and the run of fields that share it. */
    ghost function SlotOf(i: nat): nat
      reads `payload
    {
      if payload == Null || i <= PayloadIndex(layout.fields) then 0 else 2
    }

    ghost function RunStart(i: nat): nat
      reads `payload
    {
      if SlotOf(i) == 0 then 0 else PayloadIndex(layout.fields) + 1
    }

    ghost function RunEnd(i: nat): nat
      reads `payload
    {
      if payload != Null && SlotOf(i) == 0 then PayloadIndex(layout.fields) else |layout.fields|
    }

    /** The bytes of the message `m` in front of field `i` that belong to its slot. */
    ghost function RunBytes(m: seq<Value>, i: nat): seq<Byte>
      reads `payload
      requires RunStart(i) <= i <= |layout.fields| == |m|
    {
      Bytes(layout.fields[RunStart(i)..i], m[RunStart(i)..i])
    }

    /** The encoding pass stands before field `i`, at `pos` in slot `packet`; what it has written
        of the message `m` fills the buffers before that point. */
    ghost predicate Written(m: seq<Value>, i: nat, isNew: bool, packet: nat, pos: nat)
      reads `hasSlots, `slots, `refBits, `payload, Blocks(slots)
      requires i <= |layout.fields| == |m| && WellFormed(layout)
    {
      var fs, r := layout.fields, PayloadIndex(layout.fields);
      && SlotsFit() && packet == SlotOf(i) && RunStart(i) <= i
      && (isNew <==> i == RunStart(i))
      && pos == FixedSize(fs[RunStart(i)..i])
      && (i > RunStart(i) ==> packet < |slots| && pos <= slots[packet].len && slots[packet].mem[..pos] == RunBytes(m, i))
      && (packet == 2 ==> slots[0].mem[..] == Bytes(fs[0..r], m[0..r]))
    }

    /** The slot of a scalar or string exists and has room for it. */
    lemma RoomInSlot(i: nat)
      requires Valid() && SlotsFit() && i < |layout.fields| && !layout.fields[i].BinaryBufRef?
      ensures RunStart(i) <= i && SlotOf(i + 1) == SlotOf(i) < |slots| && IsBlock(slots[SlotOf(i)])
      ensures FixedSize(layout.fields[RunStart(i)..i]) + FieldSize(layout.fields[i]) <= slots[SlotOf(i)].len
      ensures slots[SlotOf(i)].mem != slots[0].mem || SlotOf(i) == 0
      ensures payload != Null ==> slots[SlotOf(i)].mem != payload.mem
    {
      hide ValuesFit, WellFormed;
      FixedSizeStep(layout.fields, RunStart(i), i);
      FixedSizeOfPrefix(layout.fields, RunStart(i), i + 1, RunEnd(i));
      assert layout.fields[0..|layout.fields|] == layout.fields;
    }

    lemma ScalarOfMessage(i: nat)
      requires Valid() && i < |layout.fields| && !layout.fields[i].BinaryBufRef?
      ensures i < |values| && Message()[i] == values[i] && ValueFits(layout.fields[i], values[i])
    {
    }

    /** The step of the encoding pass at a scalar or string. */
    method EncodeStep(ghost m: seq<Value>, i: nat, isNew: bool, packet: nat, pos0: nat) returns (pos: nat)
      requires Valid() && m == Message() && i < |layout.fields| && !layout.fields[i].BinaryBufRef?
      requires Written(m, i, isNew, packet, pos0)
      modifies if packet < |slots| && slots[packet].Slice? then {slots[packet].mem} else {}
      ensures Valid() && m == Message()
      ensures Written(m, i + 1, false, packet, pos)
    {
      hide ValuesFit, WellFormed, ValueFits, FieldBytes, FixedSize, Bytes, PayloadIndex;
      RoomInSlot(i);
      RunOfNone(layout.fields, m, RunStart(i));
      ScalarOfMessage(i);
      RunStep(layout.fields, m, RunStart(i), i);
      FixedSizeStep(layout.fields, RunStart(i), i);
      pos := if isNew then 0 else pos0;
      EncodeField(layout.fields[i], values[i], slots[packet].mem, pos);
      pos := pos + FieldSize(layout.fields[i]);
      assert slots[packet].mem[..pos] == RunBytes(m, i + 1);
    }

    /** Writes one scalar or string at the cursor. */
    method EncodeField(f: Field, v: Value, mem: array<Byte>, pos: nat)
      requires ValueFits(f, v) && !f.BinaryBufRef?
      requires pos + FieldSize(f) <= mem.Length
      modifies mem
      ensures |FieldBytes(f, v)| == FieldSize(f)
      ensures mem[..pos + FieldSize(f)] == old(mem[..pos]) + FieldBytes(f, v)
    {
      match f {
        case IntField(w) =>
          EncodeInt(mem, pos, v.v, w);
        case FixedString(n) =>
          for k := 0 to n
            invariant mem[..pos + k] == old(mem[..pos]) + v.bytes[..k]
          {
            mem[pos + k] := v.bytes[k];
          }
      }
    }

    method StampMessage(len: nat)
      requires Valid() && len == Length(layout.fields, Message())
      modifies this`values
      ensures Valid() && Message() == Stamp(layout, old(Message()))
    {
      StampFits(layout, values);
      StampFits(layout, Message());
      values := values[0 := IntValue(Truncate(4, len))][1 := IntValue(Truncate(4, layout.cmd))];
    }

    /** At a payload without a buffer nothing is written. */
    lemma SkipPayload(m: seq<Value>, i: nat, packet: nat, pos: nat)
      requires Valid() && m == Message() && payload == Null
      requires i < |layout.fields| && layout.fields[i].BinaryBufRef?
      requires Written(m, i, false, packet, pos)
      ensures Written(m, i + 1, false, packet, pos)
    {
      AtPayload(i);
      RunStep(layout.fields, m, 0, i);
      FixedSizeStep(layout.fields, 0, i);
    }

    /** At a payload with a buffer the next slot is set to it, and the slot after that comes next. */
    method EncodePayload(ghost m: seq<Value>, i: nat, packet0: nat, pos0: nat) returns (isNew: bool, packet: nat, pos: nat)
      requires Valid() && m == Message() && payload != Null
      requires i == PayloadIndex(layout.fields) < |layout.fields|
      requires Written(m, i, false, packet0, pos0)
      modifies this`slots
      ensures slots == old(slots)
      ensures Written(m, i + 1, isNew, packet, pos)
    {
      packet := packet0 + 1;
      slots := slots[packet := payload];
      packet := packet + 1;
      isNew, pos := true, 0;
    }

    /** A finished slot holds the bytes of its run. */
    lemma SingleSlot(m: seq<Value>, isNew: bool, packet: nat, pos: nat)
      requires Valid() && m == Message() && Written(m, |layout.fields|, isNew, packet, pos) && payload == Null
      ensures |slots| == 1 && Content(slots[0]) == Bytes(layout.fields, m)
    {
      var n := |layout.fields|;
      assert layout.fields[0..n] == layout.fields && m[0..n] == m;
      assert slots[0].mem[..pos] == slots[0].mem[0..0 + pos];
    }

    lemma SlotsAroundPayload(m: seq<Value>, isNew: bool, packet: nat, pos: nat)
      requires Valid() && m == Message() && Written(m, |layout.fields|, isNew, packet, pos) && payload != Null
      ensures var fs, r, n := layout.fields, PayloadIndex(layout.fields), |layout.fields|;
        && 2 <= |slots| <= 3 && r < n && Content(slots[0]) == Bytes(fs[0..r], m[0..r])
        && Content(slots[1]) == FieldBytes(fs[r], m[r])
        && (if |slots| == 3 then Content(slots[2]) else []) == Bytes(fs[r + 1..n], m[r + 1..n])
    {
      var n, r := |layout.fields|, PayloadIndex(layout.fields);
      assert slots[0].mem[..] == slots[0].mem[0..0 + slots[0].len];
      if |slots| == 3 {
        assert layout.fields[r + 1..] == layout.fields[r + 1..n];
        assert slots[2].mem[..pos] == slots[2].mem[0..0 + slots[2].len];
      }
    }

    /** At the end of the pass the buffers together hold the whole message. */
    lemma WrittenIsPacket(m: seq<Value>, isNew: bool, packet: nat, pos: nat)
      requires Valid() && m == Message() && Written(m, |layout.fields|, isNew, packet, pos)
      requires forall i :: 0 <= i < |slots| ==> InBounds(slots[i])
      ensures Gather(slots) == Bytes(layout.fields, m)
    {
      hide *;
      if payload == Null {
        SingleSlot(m, isNew, packet, pos);
        GatherUpToThree(slots);
      } else {
        SlotsAroundPayload(m, isNew, packet, pos);
        var fs, r, n := layout.fields, PayloadIndex(layout.fields), |layout.fields|;
        BytesAround(fs, m, r);
        GatherParts(slots, Bytes(fs[0..r], m[0..r]), FieldBytes(fs[r], m[r]), Bytes(fs[r + 1..n], m[r + 1..n]));
      }
    }

    /** What is sent: the buffers one after the other. */
    ghost function Gathered(): seq<Byte>
      reads `slots, Blocks(slots)
      requires forall i :: 0 <= i < |slots| ==> InBounds(slots[i])
    {
      Gather(slots)
    }

    /** Encoding: allocates the gather buffers, stamps the header, and fills the owned buffers.
        What is then sent is the packet of the message. */
    method Encode()
      requires Valid()
      modifies this`values, this`hasSlots, this`slots, this`refBits, this`ref
      ensures Valid() && SlotsFit() && ref == 0
      ensures fresh(OwnBlocks())
      ensures Message() == Stamp(layout, old(Message()))
      ensures Gathered() == Packet(layout, old(Message()))
    {
      hide *;
      BufsAlloc();
      ghost var m := Message();
      var len := PacketLength();
      StampMessage(len);
      ref := 0;
      FillBuffers();
      PacketOfStamped(m);
    }

    lemma PacketOfStamped(m: seq<Value>)
      requires Valid() && SlotsFit() && |m| == |layout.fields|
      ensures forall i :: 0 <= i < |slots| ==> InBounds(slots[i])
      ensures Message() == Stamp(layout, m) && Gathered() == Bytes(layout.fields, Message())
          ==> Gathered() == Packet(layout, m)
    {
    }

    /** The blocks that belong to the packet. */
    ghost function OwnBlocks(): set<array<Byte>>
      reads `slots
    {
      (if |slots| > 0 && slots[0].Slice? then {slots[0].mem} else {}) +
      (if |slots| > 2 && slots[2].Slice? then {slots[2].mem} else {})
    }

    /** One field of the encoding pass. */
    method FillOne(ghost m: seq<Value>, i: nat, isNew0: bool, packet0: nat, pos0: nat)
        returns (isNew: bool, packet: nat, pos: nat)
      requires Valid() && m == Message() && i < |layout.fields|
      requires Written(m, i, isNew0, packet0, pos0)
      modifies this`slots, OwnBlocks()
      ensures Valid() && m == Message() && slots == old(slots)
      ensures Written(m, i + 1, isNew, packet, pos)
    {
      hide ValuesFit, WellFormed, Bytes, FixedSize, Message;
      isNew, packet, pos := isNew0, packet0, pos0;
      if !layout.fields[i].BinaryBufRef? {
        RoomInSlot(i);
        pos := EncodeStep(m, i, isNew, packet, pos);
        isNew := false;
      } else {
        AtPayload(i);
        if payload == Null {
          SkipPayload(m, i, packet, pos);
        } else {
          isNew, packet, pos := EncodePayload(m, i, packet, pos);
        }
      }
    }

    /** The encoding pass over the fields. */
    method FillBuffers()
      requires Valid() && SlotsFit()
      modifies this`slots, OwnBlocks()
      ensures Valid() && SlotsFit() && slots == old(slots)
      ensures Message() == old(Message())
      ensures Gathered() == Bytes(layout.fields, Message())
    {
      hide ValuesFit, WellFormed, Bytes, FixedSize, Message;
      RunOfNone(layout.fields, Message(), 0);
      ghost var m := Message();
      var isNew, packet, pos: nat, i := true, 0, 0, 0;
      while i < |layout.fields|
        invariant 0 <= i <= |layout.fields|
        invariant Valid() && m == Message()
        invariant Written(m, i, isNew, packet, pos)
        invariant slots == old(slots)
      {
        isNew, packet, pos := FillOne(m, i, isNew, packet, pos);
        i := i + 1;
      }
      WrittenIsPacket(m, isNew, packet, pos);
    }

    /** The payload pointer and length after the first `i` fields were decoded. */
    function ViewAfter(i: nat, packet: array<Byte>, packetLen: int): Buf {
      var r := PayloadIndex(layout.fields);
      if r < i && r < |layout.fields| then
        Slice(packet, PayloadStart(layout.fields), ViewLength(packetLen - layout.fields[r].adjust))
      else Null
    }

    /** Decodes one integer at the cursor. */
    method ReadInt(packet: array<Byte>, at: int, width: nat) returns (inside: bool, value: Value)
      requires width > 0
      ensures var v := ReadField(IntField(width), packet[..], at);
        inside == v.Some? && (inside ==> value == v.value)
    {
      inside, value := 0 <= at && at + width <= packet.Length, NoPayload;
      if inside {
        var number := DecodeInt(packet, at, width);
        assert packet[at..at + width] == packet[..][at..at + width];
        value := IntValue(number);
      }
    }

    method ReadString(packet: array<Byte>, at: int, size: nat) returns (inside: bool, value: Value)
      ensures var v := ReadField(FixedString(size), packet[..], at);
        inside == v.Some? && (inside ==> value == v.value)
    {
      inside, value := 0 <= at && at + size <= packet.Length, NoPayload;
      if inside {
        assert packet[at..at + size] == packet[..][at..at + size];
        value := Text(packet[at..at + size]);
      }
    }

    /** Decodes one field at the cursor; a payload is only pointed to. */
    method ReadOne(f: Field, packet: array<Byte>, at: int, packetLen: int) returns (inside: bool)
      requires f.IntField? ==> f.width > 0
      requires f.BinaryBufRef? ==> at >= 0
      modifies this`values, this`payload
      ensures inside <==> ReadField(f, packet[..], at).Some?
      ensures inside ==> values == old(values) + [ReadField(f, packet[..], at).value]
      ensures payload == if f.BinaryBufRef? then Slice(packet, at, ViewLength(packetLen - f.adjust)) else old(payload)
    {
      var value := NoPayload;
      match f {
        case IntField(w) => inside, value := ReadInt(packet, at, w);
        case FixedString(n) => inside, value := ReadString(packet, at, n);
        case BinaryBufRef(adjust) =>
          inside := true;
          payload := Slice(packet, at, ViewLength(packetLen - adjust));
      }
      if inside {
        values := values + [value];
      }
    }

    /** Decoding field by field; the payload becomes a view that begins in the packet and is not
        compared with it, and the packet becomes the structure's only buffer.  A false result stands
        for reads outside the packet, which the code does not check for either. */
    method Decode(packet: array<Byte>) returns (inside: bool)
      requires live && WellFormed(layout) && refBits == {}
      modifies this`values, this`payload, this`hasSlots, this`slots
      ensures inside <==> Read(layout, packet[..]).Some?
      ensures inside ==> values == Read(layout, packet[..]).value
      ensures inside ==> payload == ViewAfter(|layout.fields|, packet, ClaimedLength(packet[..]))
      ensures inside ==> hasSlots && slots == [Slice(packet, 0, packet.Length)]
      ensures PacketLayout.Decode(layout, packet[..]).Some? ==>
        inside && Valid() && Message() == PacketLayout.Decode(layout, packet[..]).value
    {
      TooShort(packet[..]);
      if packet.Length < 4 {
        return false;
      }
      var packetLen := DecodeInt(packet, 0, 4);
      assert packet[0..4] == packet[..][..4];
      hide *;
      inside := DecodeFields(packet, packetLen);
      if inside {
        hasSlots, slots := true, [Slice(packet, 0, packet.Length)];
      }
      ReadIsMessage(packet);
    }

    lemma TooShort(packet: seq<Byte>)
      requires WellFormed(layout)
      ensures |packet| < 4 ==> Read(layout, packet).None? && PacketLayout.Decode(layout, packet).None?
      ensures |packet| >= 4 ==> ClaimedLength(packet) == BytesInt(packet[..4])
      ensures Read(layout, packet) == ReadFrom(layout.fields, packet, 0, ClaimedLength(packet))
    {
    }

    /** Where the specified decode exists the structure holds its message. */
    lemma ReadIsMessage(packet: array<Byte>)
      requires live && WellFormed(layout)
      requires Read(layout, packet[..]).Some? ==> values == Read(layout, packet[..]).value
      requires Read(layout, packet[..]).Some? ==> payload == ViewAfter(|layout.fields|, packet, ClaimedLength(packet[..]))
      ensures PacketLayout.Decode(layout, packet[..]).Some? ==>
        Read(layout, packet[..]).Some? && Valid() && Message() == PacketLayout.Decode(layout, packet[..]).value
    {
      hide DecodeFrom, ReadFrom, PayloadIndex, Stripped, Fits, BytesInt, PayloadStart, WellFormed;
      if PacketLayout.Decode(layout, packet[..]).Some? {
        var fs, n, r := layout.fields, ClaimedLength(packet[..]), PayloadIndex(layout.fields);
        var m := DecodeFrom(fs, packet[..], 0, n).value;
        DecodeIsRead(fs, packet[..], 0, n);
        DecodedFits(fs, packet[..], 0, n);
        StrippedIs(m);
        if r < |fs| {
          AtField(r);
          PayloadIsView(fs, packet[..], 0, n);
          ClaimsAreSmall(packet[..]);
          SmallView(n - fs[r].adjust);
          ViewIsMessage(packet, m);
        } else {
          NoViewIsMessage(m);
        }
      }
    }

    lemma SmallView(n: int)
      requires 0 <= n < 0x8000_0000
      ensures ViewLength(n) == n
    {
    }

    lemma NoViewIsMessage(m: seq<Value>)
      requires live && WellFormed(layout) && PayloadIndex(layout.fields) == |layout.fields| && payload == Null
      requires ValuesFit(layout.fields, m) && |values| == |m|
      requires forall i :: 0 <= i < |m| ==> (layout.fields[i].BinaryBufRef? <==> m[i].Payload?)
      requires forall i :: 0 <= i < |m| ==> values[i] == if m[i].Payload? then NoPayload else m[i]
      ensures Valid() && Message() == m
    {
      hide WellFormed, Fits, PayloadIndex;
    }

    lemma ViewIsMessage(packet: array<Byte>, m: seq<Value>)
      requires live && WellFormed(layout) && PayloadIndex(layout.fields) < |layout.fields|
      requires payload.Slice? && payload.mem == packet && InBounds(payload)
      requires ValuesFit(layout.fields, m) && |values| == |m|
      requires forall i :: 0 <= i < |m| ==> (layout.fields[i].BinaryBufRef? <==> m[i].Payload?)
      requires forall i :: 0 <= i < |m| ==> values[i] == if m[i].Payload? then NoPayload else m[i]
      requires m[PayloadIndex(layout.fields)] == Payload(packet[..][payload.start..payload.start + payload.len])
      ensures Valid() && Message() == m
    {
      var r := PayloadIndex(layout.fields);
      forall i | 0 <= i < |m| && i != r
        ensures !m[i].Payload?
      {
        AtField(i);
      }
      hide WellFormed, Fits, PayloadIndex;
      assert packet[payload.start..payload.start + payload.len] == packet[..][payload.start..payload.start + payload.len];
    }

    /** The decoding pass over the fields. */
    method DecodeFields(packet: array<Byte>, packetLen: int) returns (inside: bool)
      requires live && WellFormed(layout)
      modifies this`values, this`payload
      ensures inside <==> ReadFrom(layout.fields, packet[..], 0, packetLen).Some?
      ensures inside ==> values == ReadFrom(layout.fields, packet[..], 0, packetLen).value
      ensures inside ==> payload == ViewAfter(|layout.fields|, packet, packetLen)
    {
      values, payload := [], Null;
      var at, i := 0, 0;
      ghost var bytes := packet[..];
      CursorStarts(layout.fields, bytes, packetLen);
      assert payload == ViewAfter(0, packet, packetLen);
      hide *;
      while i < |layout.fields|
        invariant 0 <= i == |values| <= |layout.fields| && packet[..] == bytes
        invariant Cursor(layout.fields, bytes, packetLen, values, at)
        invariant payload == ViewAfter(i, packet, packetLen)
      {
        AtField(i);
        CursorStep(layout.fields, bytes, packetLen, values, at);
        ViewStep(i, packet, packetLen);
        inside := ReadOne(layout.fields[i], packet, at, packetLen);
        if !inside {
          return;
        }
        at := at + ReadSize(layout.fields[i], packetLen);
        i := i + 1;
      }
      CursorEnds(layout.fields, bytes, packetLen, values, at);
      inside := true;
    }

    lemma ViewStep(i: nat, packet: array<Byte>, packetLen: int)
      requires i < |layout.fields| && WellFormed(layout)
      ensures ViewAfter(i + 1, packet, packetLen) ==
        if layout.fields[i].BinaryBufRef?
        then Slice(packet, PayloadStart(layout.fields), ViewLength(packetLen - layout.fields[i].adjust))
        else ViewAfter(i, packet, packetLen)
    {
      AtField(i);
      hide WellFormed, PayloadIndex, PayloadStart;
    }

    lemma AtField(i: nat)
      requires WellFormed(layout) && i < |layout.fields|
      ensures layout.fields[i].BinaryBufRef? <==> i == PayloadIndex(layout.fields)
      ensures layout.fields[i].IntField? ==> layout.fields[i].width > 0
    {
    }

    // ----- Reference counting and destruction -----

    /** Every owned buffer can be freed: it is a block of its own that has not been freed yet. */
    ghost predicate Freeable()
      reads this
    {
      && live && (!hasSlots ==> slots == [])
      && (forall i :: 0 <= i < |slots| && slots[i].Slice? && i !in refBits ==> slots[i].start == 0)
      && NoRepeats(freed + OwnedBlocks(slots, refBits))
    }

    method IncreaseRef()
      requires live
      modifies this`ref
      ensures ref == old(ref) + 1
    {
      ref := ref + 1;
    }

    /** A destroy while references remain only drops one; the last one frees every owned buffer
        once, no borrowed one, and the structure. */
    method Destroy()
      requires Freeable()
      modifies this
      ensures old(ref) > 0 ==> ref == old(ref) - 1 && Freeable() && freed == old(freed)
      ensures old(ref) > 0 ==> slots == old(slots) && refBits == old(refBits)
      ensures old(ref) > 0 ==> values == old(values) && payload == old(payload)
      ensures old(ref) == 0 ==> !live && freed == old(freed) + OwnedBlocks(old(slots), old(refBits))
      ensures NoRepeats(freed)
    {
      if ref > 0 {
        ref := ref - 1;
        PrefixHasNoRepeats(freed, OwnedBlocks(slots, refBits));
        return;
      }
      if hasSlots {
        var i := 0;
        ghost var before, was := freed, slots;
        assert freed == before + OwnedBlocks(was[..0], refBits);
        hide OwnedBlocks;
        while i < |slots|
          invariant 0 <= i <= |slots| == |was| && refBits == old(refBits)
          invariant forall j :: i <= j < |slots| ==> slots[j] == was[j]
          invariant freed == before + OwnedBlocks(was[..i], refBits)
        {
          OwnedStep(was, refBits, i, before);
          if slots[i] != Null {
            if i !in refBits {
              freed := freed + [slots[i].mem];
            }
            slots := slots[i := Null];
          }
          i := i + 1;
        }
        assert was[..i] == was;
        hasSlots := false;
      }
      live := false;
    }

    /** Any script of references taken (true) and dropped (false) that never touches the structure
        after its release: the structure is released by the drop that exceeds the references taken,
        and by no other, and its buffers are freed then. */
    method UseAndDestroy(script: seq<bool>)
      requires Freeable()
      requires forall k :: 0 <= k < |script| ==> ref + Balance(script[..k]) >= 0
      modifies this
      ensures live <==> old(ref) + Balance(script) >= 0
      ensures live ==> ref == old(ref) + Balance(script) && freed == old(freed)
      ensures !live ==> freed == old(freed) + OwnedBlocks(old(slots), old(refBits))
      ensures NoRepeats(freed)
    {
      ghost var n := ref;
      PrefixHasNoRepeats(freed, OwnedBlocks(slots, refBits));
      var k := 0;
      while k < |script|
        invariant 0 <= k <= |script|
        invariant live <==> n + Balance(script[..k]) >= 0
        invariant live ==> ref == n + Balance(script[..k]) && Freeable() && freed == old(freed)
        invariant live ==> slots == old(slots) && refBits == old(refBits)
        invariant !live ==> freed == old(freed) + OwnedBlocks(old(slots), old(refBits))
        invariant NoRepeats(freed)
      {
        assert n + Balance(script[..k]) >= 0;
        assert script[..k + 1][..k] == script[..k];
        if script[k] {
          IncreaseRef();
        } else {
          Destroy();
        }
        k := k + 1;
      }
      assert script[..k] == script;
    }

    /** After an encode the owned buffers are the header and trailer blocks, never the payload's. */
    lemma OwnedAfterEncode()
      requires WellFormed(layout) && SlotsFit()
      ensures payload == Null ==> OwnedBlocks(slots, refBits) == [slots[0].mem]
      ensures payload != Null && |slots| == 2 ==> OwnedBlocks(slots, refBits) == [slots[0].mem]
      ensures |slots| == 3 ==> OwnedBlocks(slots, refBits) == [slots[0].mem, slots[2].mem]
      ensures payload != Null ==> payload.mem !in OwnedBlocks(slots, refBits)
    {
      assert OwnedBlocks([], refBits) == [];
      assert slots[..1] == [slots[0]];
      assert OwnedBlocks(slots[..1], refBits) == [slots[0].mem];
      if |slots| >= 2 {
        assert slots[..2][..1] == slots[..1];
        assert OwnedBlocks(slots[..2], refBits) == [slots[0].mem];
        if |slots| == 3 {
          assert slots[..2] == slots[..|slots| - 1];
        } else {
          assert slots[..2] == slots;
        }
      } else {
        assert slots[..1] == slots;
      }
    }

    lemma FreeableAfterEncode()
      requires Valid() && SlotsFit() && freed == []
      ensures Freeable()
    {
      OwnedAfterEncode();
      hide OwnedBlocks;
    }

    /** Main result: a message that was encoded and sent is given back by its last destroy: the header
        and trailer blocks are freed once, the payload it borrowed is not. */
    method EncodeAndDestroy() returns (ghost sent: seq<Byte>, ghost blocks: seq<Buf>)
      requires Valid() && freed == []
      modifies this
      ensures sent == Packet(layout, old(Message())) && !live && NoRepeats(freed)
      ensures 1 <= |blocks| <= 3 && IsBlock(blocks[0]) && (|blocks| == 3 ==> IsBlock(blocks[2]))
      ensures freed == [blocks[0].mem] + if |blocks| == 3 then [blocks[2].mem] else []
      ensures old(payload) == Null <==> |blocks| == 1
      ensures old(payload) != Null ==> blocks[1] == old(payload) && old(payload).mem !in freed
    {
      hide WellFormed, ValuesFit, FixedSize, Packet, Message;
      Encode();
      sent, blocks := Gathered(), slots;
      OwnedAfterEncode();
      FreeableAfterEncode();
      hide OwnedBlocks;
      Destroy();
    }
  }

  lemma OwnedStep(slots: seq<Buf>, refBits: set<nat>, i: nat, before: seq<array<Byte>>)
    requires i < |slots|
    ensures before + OwnedBlocks(slots[..i + 1], refBits)
         == before + OwnedBlocks(slots[..i], refBits) + if slots[i].Slice? && i !in refBits then [slots[i].mem] else []
  {
    assert slots[..i + 1][..i] == slots[..i];
  }

  ghost predicate NoRepeats<T>(s: seq<T>) {
    forall i, j :: 0 <= i < j < |s| ==> s[i] != s[j]
  }

  lemma PrefixHasNoRepeats<T>(s: seq<T>, t: seq<T>)
    requires NoRepeats(s + t)
    ensures NoRepeats(s)
  {
    assert forall i :: 0 <= i < |s| ==> s[i] == (s + t)[i];
  }

  /** References taken minus references dropped. */
  function Balance(script: seq<bool>): int {
    if script == [] then 0 else Balance(script[..|script| - 1]) + if script[|script| - 1] then 1 else -1
  }

  /** A message without its payload. */
  lemma StrippedIs(m: seq<Value>)
    ensures forall i :: 0 <= i < |m| ==> Stripped(m)[i] == if m[i].Payload? then NoPayload else m[i]
  {
    forall i | 0 <= i < |m|
      ensures Stripped(m)[i] == if m[i].Payload? then NoPayload else m[i]
    {
      StrippedAt(m, i);
    }
  }

  ghost function Gather(slots: seq<Buf>): seq<Byte>
    reads Blocks(slots)
    requires forall i :: 0 <= i < |slots| ==> InBounds(slots[i])
  {
    if slots == [] then [] else Gather(slots[..|slots| - 1]) + Content(slots[|slots| - 1])
  }

  ghost function Blocks(slots: seq<Buf>): set<array<Byte>> {
    set b | b in slots && b.Slice? :: b.mem
  }

  lemma GatherUpToThree(slots: seq<Buf>)
    requires 1 <= |slots| <= 3
    requires forall i :: 0 <= i < |slots| ==> InBounds(slots[i])
    ensures |slots| == 1 ==> Gather(slots) == Content(slots[0])
    ensures |slots| == 2 ==> Gather(slots) == Content(slots[0]) + Content(slots[1])
    ensures |slots| == 3 ==> Gather(slots) == Content(slots[0]) + Content(slots[1]) + Content(slots[2])
  {
    hide Content;
    assert slots[..|slots| - 1][..|slots[..|slots| - 1]|] == slots[..|slots| - 1];
    if |slots| == 1 {
      assert Gather(slots[..0]) == [];
    } else {
      assert slots[..1][..0] == [];
      assert Gather(slots[..1]) == Content(slots[0]);
      if |slots| == 3 {
        assert slots[..2][..1] == slots[..1];
        assert Gather(slots[..2]) == Content(slots[0]) + Content(slots[1]);
      }
    }
  }

  lemma GatherParts(slots: seq<Buf>, a: seq<Byte>, b: seq<Byte>, c: seq<Byte>)
    requires 2 <= |slots| <= 3 && forall i :: 0 <= i < |slots| ==> InBounds(slots[i])
    requires Content(slots[0]) == a && Content(slots[1]) == b
    requires c == if |slots| == 3 then Content(slots[2]) else []
    ensures Gather(slots) == a + b + c
  {
    hide Content, Gather;
    GatherUpToThree(slots);
    assert a + b + [] == a + b;
  }
}
