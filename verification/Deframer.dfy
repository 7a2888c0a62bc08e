/** The stream deframer of `src/smts_abstract_tcp_client.c`: the two libuv read callbacks, the
    temporary packet they fill, and the ownership of the packet bodies they allocate.
 */
module Deframer {
  import opened IntegerCodec
  import opened PacketSplit

  const PACKET_INVALID := -1
  const UV_ENOBUFS := -105

  function Reverse4(m: seq<Byte>): (r: seq<Byte>)
    requires |m| == 4
    ensures |r| == 4
  {
    [m[3], m[2], m[1], m[0]]
  }

  /** The value of the C variable whose four bytes are `m`. */
  function HostInt(littleEndian: bool, m: seq<Byte>): int
    requires |m| == 4
  {
    BytesInt(if littleEndian then Reverse4(m) else m)
  }

  function HostBytes(littleEndian: bool, v: int): (m: seq<Byte>)
    ensures |m| == 4
  {
    if littleEndian then Reverse4(IntBytes(4, v)) else IntBytes(4, v)
  }

  lemma HostIntOfHostBytes(littleEndian: bool, v: int)
    requires Fits(4, v)
    ensures HostInt(littleEndian, HostBytes(littleEndian, v)) == v
  {
    DecodeOfEncode(4, v);
    assert Reverse4(Reverse4(IntBytes(4, v))) == IntBytes(4, v);
  }

  lemma ValidLengthFits(n: int)
    requires ValidLength(n)
    ensures Fits(4, n)
  {
    Widths();
  }

  /** The length variable reads as invalid exactly when all its bytes are set, on either host. */
  lemma InvalidMemory(littleEndian: bool, m: seq<Byte>)
    requires |m| == 4
    ensures HostInt(littleEndian, m) == PACKET_INVALID <==> m == [255, 255, 255, 255]
  {
    var n := if littleEndian then Reverse4(m) else m;
    EncodeOfDecode(n);
    AllOnes();
    if HostInt(littleEndian, m) == PACKET_INVALID {
      assert n == [255, 255, 255, 255];
    }
  }

  lemma AllOnes()
    ensures IntBytes(4, -1) == [255, 255, 255, 255]
    ensures BytesInt([255, 255, 255, 255]) == -1
    ensures forall s: seq<Byte> :: s == [255, 255, 255, 255] ==> !ValidLength(Announced(s))
  {
    assert IntBytes(1, -1) == [255];
    assert IntBytes(2, -1) == [255, 255];
    assert IntBytes(3, -1) == [255, 255, 255];
    Widths();
    DecodeOfEncode(4, -1);
    assert forall s: seq<Byte> :: s == [255, 255, 255, 255] ==> s[..4] == s;
  }

  const ZERO_LENGTH: seq<Byte> := [0, 0, 0, 0]

  /** How many bytes the next read may deliver, given what is left of the stream so far. */
  function Capacity(rest: seq<Byte>): int {
    if |rest| < 4 then 4 - |rest| else if ValidLength(Announced(rest)) then Announced(rest) - |rest| else 0
  }

  function Min(a: nat, b: nat): nat {
    if a < b then a else b
  }

  /** A read delivers what the transport likes, but no more than there is and than there is room for. */
  function Taken(rest: seq<Byte>, available: seq<Byte>, want: nat): (n: nat)
    ensures n <= |available|
  {
    if Capacity(rest) < 0 then 0 else Min(Min(want, Capacity(rest)), |available|)
  }

  /** Some read of a schedule finds nothing right after a length prefix, and another one follows. */
  predicate Breaks(s: seq<Byte>, data: seq<Byte>, sizes: seq<nat>)
    decreases |sizes|
  {
    var r := Split(s);
    && sizes != [] && !r.bad
    && var n := Taken(r.rest, data, sizes[0]);
       if n == 0 && |r.rest| == 4 then |sizes| > 1 else Breaks(s + data[..n], data[n..], sizes[1..])
  }

  /** How many bytes a schedule reads, up to such a read or to a bad length. */
  function Total(s: seq<Byte>, data: seq<Byte>, sizes: seq<nat>): (t: nat)
    ensures t <= |data|
    decreases |sizes|
  {
    var r := Split(s);
    if sizes == [] || r.bad then 0
    else
      var n := Taken(r.rest, data, sizes[0]);
      if n == 0 && |r.rest| == 4 then 0 else n + Total(s + data[..n], data[n..], sizes[1..])
  }

  /** A schedule of reads that find something, long enough, reads everything that is good. */
  lemma {:induction false} EverythingIsRead(s: seq<Byte>, data: seq<Byte>, sizes: seq<nat>)
    requires !Split(s + data).bad && |sizes| >= |data|
    requires forall i :: 0 <= i < |data| ==> sizes[i] > 0
    ensures Total(s, data, sizes) == |data|
    decreases |data|
  {
    if data != [] {
      SplitExtend(s, data);
      RoomUnlessBad(s);
      var n := Taken(Split(s).rest, data, sizes[0]);
      assert s + data == (s + data[..n]) + data[n..];
      hide Split, Capacity;
      EverythingIsRead(s + data[..n], data[n..], sizes[1..]);
    }
  }

  /** A schedule of reads of `data` has come to its i-th read: `s` has been read, `rest` not. */
  ghost predicate Along(s0: seq<Byte>, data: seq<Byte>, sizes: seq<nat>,
                        i: nat, s: seq<Byte>, rest: seq<Byte>, pending: bool, reading: bool) {
    && i <= |sizes| && |rest| <= |data| && s0 + data == s + rest
    && (Breaks(s0, data, sizes) <==> if pending then i < |sizes| else reading && Breaks(s, rest, sizes[i..]))
    && Total(s0, data, sizes) == |data| - |rest| + (if pending then 0 else Total(s, rest, sizes[i..]))
    && (!pending && !reading ==> Split(s).bad)
  }

  lemma AlongStarts(s: seq<Byte>, data: seq<Byte>, sizes: seq<nat>)
    ensures Along(s, data, sizes, 0, s, data, false, true)
  {
    assert sizes[0..] == sizes;
  }

  lemma AlongNext(s0: seq<Byte>, data: seq<Byte>, sizes: seq<nat>, i: nat, s: seq<Byte>, rest: seq<Byte>, pending: bool, reading: bool)
    requires Along(s0, data, sizes, i, s, rest, false, true) && i < |sizes|
    requires var n := Taken(Split(s).rest, rest, sizes[i]);
      && (pending <==> !Split(s).bad && n == 0 && |Split(s).rest| == 4)
      && (Split(s).bad ==> !reading) && (!reading ==> !pending && Split(s + rest[..n]).bad)
    ensures var n := Taken(Split(s).rest, rest, sizes[i]);
      Along(s0, data, sizes, i + 1, s + rest[..n], rest[n..], pending, reading)
  {
    var n := Taken(Split(s).rest, rest, sizes[i]);
    assert sizes[i..][1..] == sizes[i + 1..];
    assert s + rest == (s + rest[..n]) + rest[n..];
    hide Split, Capacity;
    if Split(s).bad {
      BadTakesNothing(s);
      assert s + rest[..n] == s && rest[n..] == rest;
      assert Total(s, rest, sizes[i..]) == 0 == Total(s, rest, sizes[i + 1..]);
    } else if !reading {
      assert !Breaks(s + rest[..n], rest[n..], sizes[i + 1..]);
    }
  }

  lemma AlongEnds(s0: seq<Byte>, data: seq<Byte>, sizes: seq<nat>, i: nat, s: seq<Byte>, rest: seq<Byte>, pending: bool, reading: bool)
    requires Along(s0, data, sizes, i, s, rest, pending, reading) && (i == |sizes| || !reading || pending)
    ensures Breaks(s0, data, sizes) <==> pending && i < |sizes|
    ensures s == s0 + data[..Total(s0, data, sizes)]
  {
    hide Split;
    BytesRead(s0, data, s, rest);
  }

  lemma BytesRead(s: seq<Byte>, data: seq<Byte>, got: seq<Byte>, rest: seq<Byte>)
    requires s + data == got + rest && |rest| <= |data|
    ensures got == s + data[..|data| - |rest|]
  {
    assert (s + data)[..|got|] == got;
  }

  lemma BadTakesNothing(s: seq<Byte>)
    requires Split(s).bad
    ensures Capacity(Split(s).rest) == 0
  {
    RoomUnlessBad(s);
  }

  ghost predicate NoRepeats<T>(s: seq<T>) {
    forall i, j :: 0 <= i < j < |s| ==> s[i] != s[j]
  }

  /** Every body is handed over once, or freed once, or the current one. */
  ghost predicate Accounted(bodies: seq<array<Byte>>, handed: seq<array<Byte>>, freed: seq<array<Byte>>, body: array?<Byte>) {
    && NoRepeats(bodies)
    && multiset(bodies) == multiset(handed) + multiset(freed) + if body == null then multiset{} else multiset{body}
  }

  /** A new body that takes the place of another one leaves that one unaccounted for. */
  lemma AllocAccount(bodies: seq<array<Byte>>, handed: seq<array<Byte>>, freed: seq<array<Byte>>,
                     was: array?<Byte>, mem: array<Byte>)
    requires Accounted(bodies, handed, freed, was) && mem !in bodies
    ensures Accounted(bodies + [mem], handed, freed, mem) <==> was == null
  {
    if was != null {
      assert multiset(bodies + [mem])[was] == multiset(bodies)[was] == (multiset(handed) + multiset(freed))[was] + 1;
      assert was in multiset(bodies);
    }
  }

  /** The bytes gathered in a body are a whole packet. */
  predicate Complete(inBody: bool, got: seq<Byte>) {
    inBody && |got| >= 4 && |got| == Announced(got)
  }

  /** NullCall: an invalid length is reported without a test that there is a callback. */
  datatype ReadState = Reading | InvalidReported | NullCall | ErrorReported | Closed

  /** Where libuv is told to write. */
  datatype Target = ToLength(at: nat) | ToBody(mem: array<Byte>, at: nat) | Nowhere

  class TcpReader {
    const littleEndian: bool
    /** read_packet_cb is set */
    const hasCallback: bool
    /** recv_tmp_buf: the bytes of packet_len, the offset and the body buffer */
    var packetLen: seq<Byte>
    var offset: nat
    var body: array?<Byte>
    /** Whether reads go on: the callback stops them when an error is reported. */
    var state: ReadState
    /** What the environment has seen: bytes read, packets delivered, and the fate of every body. */
    ghost var consumed: seq<Byte>
    var delivered: seq<seq<Byte>>
    ghost var bodies: seq<array<Byte>>
    ghost var handed: seq<array<Byte>>
    ghost var freed: seq<array<Byte>>

    /** What becomes of the reader when the length is invalid. */
    function Refused(): ReadState {
      if hasCallback then InvalidReported else NullCall
    }

    /** Every body allocated so far was handed over once, or freed once, or is the current one. */
    ghost predicate BodiesAccounted()
      reads `bodies, `handed, `freed, `body
    {
      Accounted(bodies, handed, freed, body)
    }

    /** The body is allocated and no byte behind the length prefix was read. */
    ghost predicate Allocated(rest: seq<Byte>)
      reads `packetLen, `offset, `body, body
    {
      |rest| == 4 && offset == 4 && InBody(rest)
    }

    /** Between two reads, also when the last one delivered nothing. */
    ghost predicate HoldsStill(rest: seq<Byte>)
      reads `packetLen, `offset, `body, body
    {
      if |rest| == 4 && body != null then Allocated(rest) else Holds(rest)
    }

    /** Between two reads: the temporary packet is what is left of the stream, byte for byte. */
    ghost predicate Holds(rest: seq<Byte>)
      reads `packetLen, `offset, `body, body
    {
      && |packetLen| == 4 && offset == |rest|
      && (|rest| <= 4 ==> body == null)
      && (|rest| < 4 ==> packetLen == rest + ZERO_LENGTH[|rest|..])
      && (|rest| == 4 ==> packetLen == rest && rest != [255, 255, 255, 255])
      && (|rest| > 4 ==> InBody(rest))
    }

    /** In the middle of a packet: the body has the announced length and starts with `got`. */
    ghost predicate InBody(got: seq<Byte>)
      reads `packetLen, `body, body
    {
      && |packetLen| == 4 && |got| >= 4 && ValidLength(Announced(got))
      && packetLen == HostBytes(littleEndian, Announced(got)) && HostInt(littleEndian, packetLen) == Announced(got)
      && body != null && body.Length == Announced(got)
      && |got| <= body.Length && body[..|got|] == got
    }

    ghost predicate Valid()
      reads this, body
    {
      ValidFor(consumed)
    }

    /** The reader is where the stream `s` leads it: it has delivered exactly the packets of the
        split of `s`, and holds what is left. */
    ghost predicate ValidFor(s: seq<Byte>)
      reads `state, `delivered, `bodies, `handed, `freed, `packetLen, `offset, `body, body
    {
      var r := Split(s);
      && BodiesAccounted()
      && delivered == (if hasCallback then r.packets else [])
      && (state == Reading ==> Holds(r.rest))
      && (state == Reading && r.bad ==> |r.rest| == 4)
      && (state == InvalidReported || state == NullCall ==> state == Refused() && r.bad && body == null)
      && (state == ErrorReported || state == Closed ==> body == null)
    }

    /** init_client_read_tmp_buf */
    method InitTmpBuf()
      modifies `packetLen, `offset, `body
      ensures packetLen == ZERO_LENGTH && offset == 0 && body == null
    {
      body := null;
      packetLen := ZERO_LENGTH;
      offset := 0;
    }

    constructor (littleEndian: bool, hasCallback: bool)
      ensures Valid() && state == Reading && consumed == [] && delivered == [] && body == null
      ensures this.littleEndian == littleEndian && this.hasCallback == hasCallback
    {
      this.littleEndian, this.hasCallback := littleEndian, hasCallback;
      body, packetLen, offset := null, ZERO_LENGTH, 0;
      state, consumed, delivered := Reading, [], [];
      bodies, handed, freed := [], [], [];
    }

    /** The allocation callback has offered `target` for the bytes after `rest`. */
    ghost predicate Offered(rest: seq<Byte>, target: Target)
      reads `packetLen, `offset, `body, body
    {
      && |packetLen| == 4 && offset == |rest|
      && (|rest| < 4 ==>
            target == ToLength(|rest|) && packetLen == rest + ZERO_LENGTH[|rest|..] && body == null)
      && (|rest| >= 4 && ValidLength(Announced(rest)) ==> InBody(rest) && target == ToBody(body, |rest|))
      && (|rest| == 4 && !ValidLength(Announced(rest)) ==>
            target == Nowhere && HostInt(littleEndian, packetLen) == PACKET_INVALID && body == null)
    }

    /** tcp_client_alloc_cb: where the next bytes go.  At the end of the length prefix it decodes
        the length and allocates the body, or marks the packet invalid and offers no room. */
    method AllocCb(ghost rest: seq<Byte>) returns (target: Target, len: nat)
      requires HoldsStill(rest) && BodiesAccounted()
      modifies this`packetLen, this`body, this`bodies
      ensures old(Holds(rest)) ==> BodiesAccounted() && Offered(rest, target) && len == Capacity(rest)
      ensures old(Allocated(rest)) ==> Again(old(packetLen), target, len)
      ensures body == old(body) || fresh(body)
      ensures |rest| > 4 ==> body == old(body)
      ensures old(Allocated(rest)) && !ValidLength(BytesInt(old(packetLen))) ==> body == old(body)
    {
      if offset < PACKET_LEN_FIELD_SIZE {
        target, len := ToLength(offset), PACKET_LEN_FIELD_SIZE - offset;
      } else if offset == PACKET_LEN_FIELD_SIZE {
        target, len := AllocAtPrefix(rest);
      } else {
        target, len := ToBody(body, offset), HostInt(littleEndian, packetLen) - offset;
      }
    }

    /** What an allocation makes of a length variable that reads `m`, when there is a body already:
        a second body, or an invalid packet that keeps the first one. */
    ghost predicate Again(m: seq<Byte>, target: Target, len: nat)
      requires |m| == 4
      reads `packetLen, `body, `bodies, `handed, `freed
    {
      var n := BytesInt(m);
      && |packetLen| == 4
      && if ValidLength(n) then
           !BodiesAccounted() && body != null && body.Length == n && target == ToBody(body, 4) && len == n - 4
         else
           BodiesAccounted() && target == Nowhere && len == 0 && HostInt(littleEndian, packetLen) == PACKET_INVALID
    }

    /** The allocation at the end of the length prefix. */
    method AllocAtPrefix(ghost rest: seq<Byte>) returns (target: Target, len: nat)
      requires HoldsStill(rest) && BodiesAccounted() && offset == 4 == |rest|
      modifies this`packetLen, this`body, this`bodies
      ensures old(Holds(rest)) ==> BodiesAccounted() && Offered(rest, target) && len == Capacity(rest)
      ensures old(Allocated(rest)) ==> Again(old(packetLen), target, len)
      ensures body == old(body) || fresh(body)
      ensures old(Allocated(rest)) && !ValidLength(BytesInt(old(packetLen))) ==> body == old(body)
    {
      var packet_len := BytesInt(packetLen);
      assert rest[..4] == rest;
      if packet_len <= PACKET_LEN_FIELD_SIZE || packet_len > MAX_PACKET_LEN {
        packetLen := HostBytes(littleEndian, PACKET_INVALID);
        AllOnes();
        InvalidMemory(littleEndian, packetLen);
        target, len := Nowhere, 0;
      } else {
        ghost var was, all := body, bodies;
        PrefixOfLength(packetLen);
        hide InBody, HostInt, HostBytes, BytesInt, IntBytes, Accounted;
        AllocBody(packet_len);
        AllocAccount(all, handed, freed, was, body);
        BodyStarts(packet_len);
        target, len := ToBody(body, PACKET_LEN_FIELD_SIZE), packet_len - PACKET_LEN_FIELD_SIZE;
      }
    }

    lemma BodyStarts(n: nat)
      requires ValidLength(n) && packetLen == HostBytes(littleEndian, n) && body != null && body.Length == n
      requires body[..4] == IntBytes(4, n) && BytesInt(IntBytes(4, n)) == n
      ensures InBody(IntBytes(4, n))
    {
      ValidLengthFits(n);
      HostIntOfHostBytes(littleEndian, n);
      assert IntBytes(4, n)[..4] == IntBytes(4, n);
    }

    lemma PrefixOfLength(m: seq<Byte>)
      requires |m| == 4
      ensures IntBytes(4, BytesInt(m)) == m
      ensures ValidLength(BytesInt(m)) ==>
        HostInt(littleEndian, HostBytes(littleEndian, BytesInt(m))) == BytesInt(m)
    {
      EncodeOfDecode(m);
      HostIntOfHostBytes(littleEndian, BytesInt(m));
    }

    /** Allocates a body and puts the length prefix in front of it. */
    method AllocBody(packet_len: nat)
      requires ValidLength(packet_len)
      modifies this`packetLen, this`body, this`bodies
      ensures body != null && fresh(body) && body !in old(bodies) && bodies == old(bodies) + [body]
      ensures body.Length == packet_len && body[..4] == IntBytes(4, packet_len)
      ensures packetLen == HostBytes(littleEndian, packet_len)
    {
      ValidLengthFits(packet_len);
      packetLen := HostBytes(littleEndian, packet_len);
      hide HostInt, HostBytes, BytesInt;
      var mem := new Byte[packet_len];
      bodies := bodies + [mem];
      body := mem;
      EncodeInt(mem, 0, packet_len, 4);
      assert mem[..4] == IntBytes(4, packet_len);
    }

    /** What libuv leaves behind: `chunk` is written where the allocation said. */
    method Receive(target: Target, chunk: seq<Byte>, ghost rest: seq<Byte>)
      requires |chunk| <= Capacity(rest) && |packetLen| == 4
      requires |rest| < 4 ==> target == ToLength(|rest|) && packetLen == rest + ZERO_LENGTH[|rest|..]
      requires |rest| >= 4 ==> InBody(rest) && target == ToBody(body, |rest|)
      modifies this`packetLen, if target.ToBody? then {target.mem} else {}
      ensures |rest| < 4 ==> packetLen == rest + chunk + ZERO_LENGTH[|rest + chunk|..]
      ensures |rest| >= 4 ==> InBody(rest + chunk)
    {
      match target {
        case ToLength(at) =>
          packetLen := packetLen[..at] + chunk + packetLen[at + |chunk|..];
        case ToBody(mem, at) =>
          for k := 0 to |chunk|
            invariant packetLen == old(packetLen) && mem[..at] == rest
            invariant mem[at..at + k] == chunk[..k]
          {
            mem[at + k] := chunk[k];
          }
          assert mem[..at + |chunk|] == mem[..at] + mem[at..at + |chunk|];
          TakeOfPrefix(rest, chunk, 4);
          AnnouncedPrefix(rest + chunk, rest);
        case Nowhere =>
      }
    }

    /** tcp_client_read_cb: reports an invalid packet; on a read error frees the body and reports;
        otherwise completes the packet, or goes on.  The temporary packet holds `got`. */
    method ReadCb(nread: int, ghost got: seq<Byte>)
      requires BodiesAccounted() && state == Reading && |packetLen| == 4
      requires nread >= 0 ==> offset + nread == |got|
      requires nread >= 0 && body == null ==> |got| <= 4 && packetLen == got + ZERO_LENGTH[|got|..]
      requires nread >= 0 && body != null ==> InBody(got) && (nread == 0 ==> |got| < Announced(got))
      modifies this
      ensures BodiesAccounted() && consumed == old(consumed)
      ensures old(HostInt(littleEndian, packetLen)) == PACKET_INVALID ==>
        state == Refused() && body == old(body) && delivered == old(delivered)
      ensures old(HostInt(littleEndian, packetLen)) != PACKET_INVALID && nread < 0 ==>
        state == ErrorReported && body == null && delivered == old(delivered)
      ensures old(HostInt(littleEndian, packetLen)) != PACKET_INVALID && nread >= 0 ==> state == Reading
      ensures state == Reading && !Complete(old(body) != null, got) ==>
        HoldsStill(got) && delivered == old(delivered) && body == old(body)
      ensures state == Reading && Complete(old(body) != null, got) ==>
        Holds([]) && delivered == old(delivered) + if hasCallback then [got] else []
    {
      assert Refused() != Reading && Refused() != ErrorReported;
      hide *;
      if HostInt(littleEndian, packetLen) == PACKET_INVALID {
        state := Refused();
        return;
      }
      if nread < 0 {
        FreeBody();
        InitTmpBuf();
        state := ErrorReported;
        return;
      }
      TakeData(nread, got);
    }

    /** The bytes of a successful read complete the packet, or extend it. */
    method TakeData(nread: nat, ghost got: seq<Byte>)
      requires BodiesAccounted() && state == Reading && |packetLen| == 4
      requires offset + nread == |got| && HostInt(littleEndian, packetLen) != PACKET_INVALID
      requires body == null ==> |got| <= 4 && packetLen == got + ZERO_LENGTH[|got|..]
      requires body != null ==> InBody(got) && (nread == 0 ==> |got| < Announced(got))
      modifies this`offset, this`packetLen, this`body, this`delivered, this`handed, this`freed
      ensures BodiesAccounted()
      ensures !Complete(old(body) != null, got) ==>
        HoldsStill(got) && delivered == old(delivered) && body == old(body)
      ensures Complete(old(body) != null, got) ==>
        Holds([]) && delivered == old(delivered) + if hasCallback then [got] else []
    {
      InvalidMemory(littleEndian, packetLen);
      hide HostInt, Announced, BytesInt, InBody, BodiesAccounted, ValidLength;
      if nread > 0 {
        if body == null {
          PrefixNotComplete(nread, got);
        } else {
          BodyLength(got);
        }
        if nread + offset == HostInt(littleEndian, packetLen) && HostInt(littleEndian, packetLen) > PACKET_LEN_FIELD_SIZE {
          CompletePacket(nread, got);
        } else {
          offset := offset + nread;
        }
      }
    }

    lemma BodyLength(got: seq<Byte>)
      requires InBody(got)
      ensures HostInt(littleEndian, packetLen) == Announced(got) > PACKET_LEN_FIELD_SIZE
    {
    }

    /** The completion test cannot succeed while the length prefix is being read. */
    lemma PrefixNotComplete(nread: nat, got: seq<Byte>)
      requires |packetLen| == 4 && offset + nread == |got| <= 4
      ensures !(nread + offset == HostInt(littleEndian, packetLen) && HostInt(littleEndian, packetLen) > PACKET_LEN_FIELD_SIZE)
    {
    }

    /** The body is complete: it leaves through the callback, and a new packet starts. */
    method CompletePacket(nread: nat, ghost got: seq<Byte>)
      requires BodiesAccounted() && InBody(got) && offset + nread == |got| == Announced(got)
      modifies this`offset, this`packetLen, this`body, this`delivered, this`handed, this`freed
      ensures BodiesAccounted() && Holds([])
      ensures delivered == old(delivered) + if hasCallback then [got] else []
    {
      offset := offset + nread;
      assert body[..] == got;
      Deliver();
      InitTmpBuf();
    }

    /** FREE of the body buffer, which also forgets it. */
    method FreeBody()
      requires BodiesAccounted()
      modifies this`body, this`freed
      ensures BodiesAccounted() && body == null
    {
      if body != null {
        freed := freed + [body];
        body := null;
      }
    }

    /** The completed body goes to the callback, or is freed when there is none. */
    method Deliver()
      requires BodiesAccounted() && body != null
      modifies this`delivered, this`handed, this`freed
      ensures NoRepeats(bodies) && multiset(bodies) == multiset(handed) + multiset(freed)
      ensures delivered == old(delivered) + if hasCallback then [body[..]] else []
    {
      if hasCallback {
        delivered := delivered + [body[..]];
        handed := handed + [body];
      } else {
        freed := freed + [body];
      }
    }

    /** One read: allocation callback, then as many bytes as the transport likes but no more than
        there is room for, perhaps none, then read callback.  An empty room is reported as an error
        instead.  `pending` tells that the turn has only allocated a body. */
    method ReadTurn(available: seq<Byte>, want: nat) returns (n: nat, pending: bool)
      requires Valid() && state == Reading
      modifies this, body
      ensures n == Taken(old(Split(consumed)).rest, available, want) && consumed == old(consumed) + available[..n]
      ensures pending <==> !old(Split(consumed)).bad && n == 0 && |old(Split(consumed)).rest| == 4
      ensures (old(Split(consumed)).bad ==> state != Reading) && (state == Reading || state == Refused())
      ensures pending ==> state == Reading
      ensures if pending then AtPrefix() else Valid()
      ensures body == old(body) || body == null || fresh(body)
    {
      ghost var s, rest := consumed, Split(consumed).rest;
      RoomUnlessBad(s);
      Unpack();
      TakenIsNone(rest, available, want);
      hide *;
      var target, len := AllocCb(rest);
      n, pending := 0, false;
      if len == 0 {
        ReportInvalid(target, s);
        NoneTaken(s, available);
      } else if want == 0 || available == [] {
        pending := OfferedAtPrefix(rest, target);
        ReadNoData(target, s);
        NoneTaken(s, available);
      } else {
        n := ReadSome(target, len, available, want, s);
      }
    }

    method ReadSome(target: Target, len: nat, available: seq<Byte>, want: nat, ghost s: seq<Byte>) returns (n: nat)
      requires state == Reading && BodiesAccounted() && Offered(Split(s).rest, target) && consumed == s
      requires delivered == (if hasCallback then Split(s).packets else [])
      requires 0 < len == Capacity(Split(s).rest) && !Split(s).bad && available != [] && want > 0
      modifies this, body
      ensures 0 < n == Taken(Split(s).rest, available, want) && consumed == s + available[..n]
      ensures Valid() && (state == Reading || state == Refused())
      ensures body == old(body) || body == null
    {
      n := Min(Min(want, len), |available|);
      hide *;
      ReadData(target, available[..n], s);
      consumed := s + available[..n];
      Pack();
    }

    /** A read that finds nothing leaves everything as it was, but for the body that the allocation
        callback allocates at the end of a length prefix. */
    method ReadNothing()
      requires Valid() && state == Reading && !Split(consumed).bad
      modifies this, body
      ensures state == Reading && consumed == old(consumed) && delivered == old(delivered) && BodiesAccounted()
      ensures |Split(consumed).rest| != 4 ==> Valid() && body == old(body)
      ensures |Split(consumed).rest| == 4 ==> Allocated(Split(consumed).rest) && fresh(body)
    {
      ghost var s, rest := consumed, Split(consumed).rest;
      RoomUnlessBad(s);
      Unpack();
      assert s + [] == s;
      hide *;
      var target, len := AllocCb(rest);
      ReadNoData(target, s);
    }

    method ReadNoData(target: Target, ghost s: seq<Byte>)
      requires state == Reading && BodiesAccounted() && Offered(Split(s).rest, target)
      requires delivered == (if hasCallback then Split(s).packets else [])
      requires !Split(s).bad
      modifies this
      ensures state == Reading && consumed == old(consumed) && delivered == old(delivered) && BodiesAccounted()
      ensures |Split(s).rest| != 4 ==> ValidFor(s) && body == old(body)
      ensures |Split(s).rest| == 4 ==> Allocated(Split(s).rest) && body == old(body)
    {
      TurnSplit(s, []);
      assert Split(s).rest + [] == Split(s).rest && s + [] == s;
      InvalidMemory(littleEndian, packetLen);
      ReadCb(0, Split(s).rest);
    }

    /** Main result: a read that finds nothing right after a length prefix, followed by another read,
        is harmless on no host.  The length is decoded from its host form: where that is a valid
        length a second body takes the place of the first, which is then never handed over nor
        freed; where it is not, a good packet is refused.  The length itself survives exactly on a
        big-endian host or when it reads the same backwards. */
    method EmptyReadThenAnother()
      requires Valid() && state == Reading && !Split(consumed).bad && |Split(consumed).rest| == 4
      modifies this, body
      ensures !Sound() && consumed == old(consumed) && delivered == old(delivered)
      ensures var n := Announced(Split(consumed).rest);
        var m := BytesInt(HostBytes(littleEndian, n));
        && (m == n <==> !littleEndian || Reverse4(IntBytes(4, n)) == IntBytes(4, n))
        && (if ValidLength(m) then !BodiesAccounted() && body != null && body.Length == m else state == Refused())
    {
      ReadNothing();
      ReadAgain();
    }

    /** The reader is where its stream leads it, or has only allocated the body of the next packet. */
    ghost predicate Sound()
      reads this, body
    {
      Valid() || AtPrefix()
    }

    ghost predicate AtPrefix()
      reads this, body
    {
      && state == Reading && BodiesAccounted() && !Split(consumed).bad && Allocated(Split(consumed).rest)
      && delivered == if hasCallback then Split(consumed).packets else []
    }

    method ReadAgain()
      requires AtPrefix()
      modifies this, body
      ensures !Sound() && consumed == old(consumed) && delivered == old(delivered)
      ensures var n := Announced(Split(consumed).rest);
        var m := BytesInt(HostBytes(littleEndian, n));
        && (m == n <==> !littleEndian || Reverse4(IntBytes(4, n)) == IntBytes(4, n))
        && (if ValidLength(m) then !BodiesAccounted() && body != null && body.Length == m else state == Refused())
    {
      ghost var rest := Split(consumed).rest;
      TurnSplit(consumed, []);
      assert rest + [] == rest;
      SecondDecode(littleEndian, Announced(rest));
      var target, len := AllocCb(rest);
      if len == 0 {
        ReadCb(UV_ENOBUFS, rest);
      }
    }

    /** Main result: however the stream is cut, the packets delivered are those of the split of all
        the bytes that arrived; a bad length is reported, and nothing after it is delivered. */
    method Feed(data: seq<Byte>)
      requires Valid() && state == Reading
      modifies this, body
      ensures Valid() && (state == Reading || state == Refused())
      ensures delivered == if hasCallback then Split(old(consumed) + data).packets else []
      ensures !Split(old(consumed) + data).bad ==> state == Reading
      ensures state == Reading ==> consumed == old(consumed) + data
      ensures body == old(body) || body == null || fresh(body)
    {
      var left := data;
      ghost var all := consumed + data;
      while left != [] && state == Reading
        invariant Valid() && (state == Reading || state == Refused())
        invariant consumed + left == all
        invariant body == old(body) || body == null || fresh(body)
        decreases |left|, state == Reading
      {
        var want: nat :| want > 0;
        ghost var was := consumed;
        RoomUnlessBad(consumed);
        TakenIsNone(Split(consumed).rest, left, want);
        var n, pending := ReadTurn(left, want);
        TakeOff(was, left, n);
        left := left[n..];
      }
      SplitExtend(consumed, left);
      if left == [] {
        assert consumed + left == consumed;
      }
    }

    lemma TakeOff(s: seq<Byte>, left: seq<Byte>, n: nat)
      requires n <= |left|
      ensures s + left == (s + left[..n]) + left[n..]
    {
    }

    lemma RefusedIsBad()
      requires Valid() && state == Refused()
      ensures Split(consumed).bad
    {
    }

    lemma TakenIsNone(rest: seq<Byte>, available: seq<Byte>, want: nat)
      ensures Taken(rest, available, want) == 0 <==> Capacity(rest) <= 0 || want == 0 || available == []
    {
    }

    lemma NoneTaken(s: seq<Byte>, available: seq<Byte>)
      ensures s + available[..0] == s
    {
    }

    method OfferedAtPrefix(ghost rest: seq<Byte>, ghost target: Target) returns (at: bool)
      requires Offered(rest, target)
      ensures at <==> |rest| == 4
    {
      at := offset == PACKET_LEN_FIELD_SIZE;
    }

    /** Main result: under any schedule of reads, those that find nothing included, the reader stays
        where the stream leads it if and only if no read that finds nothing comes right after a
        length prefix and before another read.  The schedule is followed up to such a read. */
    method Schedule(data: seq<Byte>, sizes: seq<nat>)
      requires Valid() && state == Reading
      modifies this, body
      ensures Sound() <==> !Breaks(old(consumed), data, sizes)
      ensures consumed == old(consumed) + data[..Total(old(consumed), data, sizes)]
    {
      hide Breaks, Valid, AtPrefix, Total;
      var left, pending := ReadUpTo(data, sizes);
      if pending && left > 0 {
        hide Sound;
        ReadAgain();
      }
    }

    /** Follows the schedule while reading goes on; `left` reads are not made. */
    method ReadUpTo(data: seq<Byte>, sizes: seq<nat>) returns (left: nat, pending: bool)
      requires Valid() && state == Reading
      modifies this, body
      ensures if pending then AtPrefix() else Valid()
      ensures Breaks(old(consumed), data, sizes) <==> pending && left > 0
      ensures consumed == old(consumed) + data[..Total(old(consumed), data, sizes)]
      ensures body == old(body) || body == null || fresh(body)
    {
      var rest, i := data, 0;
      pending := false;
      ghost var was := consumed;
      hide *;
      AlongStarts(consumed, data, sizes);
      while i < |sizes| && state == Reading && !pending
        invariant 0 <= i <= |sizes| && (body == old(body) || body == null || fresh(body))
        invariant if pending then AtPrefix() else Valid()
        invariant Along(was, data, sizes, i, consumed, rest, pending, state == Reading)
      {
        rest, pending := NextRead(rest, sizes, i, was, data);
        i := i + 1;
      }
      AlongEnds(was, data, sizes, i, consumed, rest, pending, state == Reading);
      left := |sizes| - i;
    }

    /** One read of a schedule. */
    method NextRead(left: seq<Byte>, sizes: seq<nat>, i: nat, ghost was: seq<Byte>, ghost data: seq<Byte>)
        returns (rest: seq<Byte>, pending: bool)
      requires Valid() && state == Reading && i < |sizes|
      requires Along(was, data, sizes, i, consumed, left, false, true)
      modifies this, body
      ensures if pending then AtPrefix() else Valid()
      ensures Along(was, data, sizes, i + 1, consumed, rest, pending, state == Reading)
      ensures body == old(body) || body == null || fresh(body)
    {
      RefusedStops();
      hide *;
      ghost var s := consumed;
      var n: nat;
      n, pending := ReadTurn(left, sizes[i]);
      rest := left[n..];
      if state != Reading {
        RefusedIsBad();
      }
      AlongNext(was, data, sizes, i, s, left, pending, state == Reading);
    }

    lemma RefusedStops()
      ensures Refused() != Reading
    {
    }

    /** The part of a read turn after an allocation that offered no room: libuv reports it. */
    method ReportInvalid(target: Target, ghost s: seq<Byte>)
      requires state == Reading && BodiesAccounted() && Offered(Split(s).rest, target)
      requires delivered == (if hasCallback then Split(s).packets else [])
      requires Split(s).bad && |Split(s).rest| == 4 && consumed == s
      modifies this
      ensures Valid() && state == Refused() && body == null && consumed == s
    {
      TurnSplit(s, []);
      ReadCb(UV_ENOBUFS, Split(s).rest);
    }

    lemma Pack()
      requires ValidFor(consumed)
      ensures Valid()
    {
    }

    lemma Unpack()
      requires Valid() && state == Reading
      ensures var r := Split(consumed);
        && BodiesAccounted() && Holds(r.rest) && |packetLen| == 4 && (r.bad ==> |r.rest| == 4)
        && delivered == (if hasCallback then r.packets else [])
        && (r.rest == [] ==> body == null)
    {
    }

    /** The part of a read turn after an allocation that offered some room. */
    method ReadData(target: Target, chunk: seq<Byte>, ghost s: seq<Byte>)
      requires state == Reading && BodiesAccounted() && Offered(Split(s).rest, target)
      requires delivered == (if hasCallback then Split(s).packets else [])
      requires 0 < Capacity(Split(s).rest) && |chunk| <= Capacity(Split(s).rest) && !Split(s).bad
      requires |Split(s).rest| == 4 ==> chunk != []
      modifies this, body
      ensures ValidFor(s + chunk) && (state == Reading || state == Refused())
      ensures consumed == old(consumed) && (body == old(body) || body == null)
    {
      TurnSplit(s, chunk);
      hide *;
      TakeChunk(target, chunk, Split(s).rest);
      StillValid(s, chunk);
    }

    /** The chunk is received and the read callback runs. */
    method TakeChunk(target: Target, chunk: seq<Byte>, ghost rest: seq<Byte>)
      requires state == Reading && BodiesAccounted() && Offered(rest, target)
      requires 0 < Capacity(rest) && |chunk| <= Capacity(rest) && (|rest| == 4 ==> chunk != [])
      requires |rest| < 4 ==> |rest + chunk| <= 4
      requires |rest| >= 4 ==> ValidLength(Announced(rest)) && Announced(rest + chunk) == Announced(rest)
      modifies this, body
      ensures BodiesAccounted() && consumed == old(consumed) && (body == old(body) || body == null)
      ensures AfterChunk(rest, chunk, old(delivered))
    {
      Receive(target, chunk, rest);
      InvalidMemory(littleEndian, packetLen);
      hide Announced, BytesInt, HostInt, BodiesAccounted, ValidLength, InBody, Holds;
      ReadCb(|chunk|, rest + chunk);
    }

    /** What a chunk leads to: an invalid length, a delivered packet, or a longer rest. */
    ghost predicate AfterChunk(rest: seq<Byte>, chunk: seq<Byte>, before: seq<seq<Byte>>)
      reads `state, `delivered, `packetLen, `offset, `body, body
    {
      var got := rest + chunk;
      && (state == Reading || (state == Refused() && got == [255, 255, 255, 255] && |rest| < 4 && body == null))
      && (state == Reading ==> if Complete(|rest| >= 4, got) then Holds([]) else Holds(got))
      && delivered == if hasCallback && Complete(|rest| >= 4, got) then before + [got] else before
    }

    lemma StillValid(s: seq<Byte>, chunk: seq<Byte>)
      requires |chunk| <= Capacity(Split(s).rest) && !Split(s).bad && BodiesAccounted()
      requires |Split(s).rest| == 4 ==> chunk != []
      requires AfterChunk(Split(s).rest, chunk, if hasCallback then Split(s).packets else [])
      ensures ValidFor(s + chunk)
    {
      TurnSplit(s, chunk);
      AllOnes();
      hide Split, Announced, BytesInt, HostInt, BodiesAccounted, Capacity, ValidLength, InBody, Holds;
    }

    /** A read that fails, at any point of the stream. */
    method ReadFails(nread: int)
      requires Valid() && state == Reading && nread < 0
      modifies this
      ensures Valid() && consumed == old(consumed) && delivered == old(delivered)
      ensures state == if old(Split(consumed)).bad then Refused() else ErrorReported
      ensures body == null
    {
      ghost var s, rest := consumed, Split(consumed).rest;
      TurnSplit(s, []);
      assert s + [] == s && rest + [] == rest;
      Unpack();
      hide *;
      var target, len := AllocCb(rest);
      OfferedInvalid(rest, target);
      ReadCb(nread, rest);
      PackFailed(s);
    }

    lemma OfferedInvalid(rest: seq<Byte>, target: Target)
      requires Offered(rest, target) && (|rest| > 4 ==> ValidLength(Announced(rest)))
      ensures |packetLen| == 4
      ensures HostInt(littleEndian, packetLen) == PACKET_INVALID <==> |rest| == 4 && !ValidLength(Announced(rest))
      ensures |rest| == 4 && !ValidLength(Announced(rest)) ==> body == null
    {
      InvalidMemory(littleEndian, packetLen);
      hide HostInt;
    }

    lemma PackFailed(s: seq<Byte>)
      requires s == consumed && BodiesAccounted() && body == null
      requires delivered == (if hasCallback then Split(s).packets else [])
      requires state == ErrorReported || (state == Refused() && Split(s).bad)
      ensures Valid()
    {
    }

    /** The close callback frees whatever body is left: afterwards every body allocated was either
        handed over once or freed once. */
    method SocketCloseCb()
      requires Valid()
      modifies this
      ensures Valid() && state == Closed && delivered == old(delivered) && consumed == old(consumed)
      ensures NoRepeats(bodies) && multiset(bodies) == multiset(handed) + multiset(freed)
    {
      hide Split, HostInt, InBody;
      FreeBody();
      state := Closed;
    }
  }

  /** What a second decode of the length would see: the variable already holds the host's form of
      the length, so it is the length again exactly on a big-endian host or for a palindrome. */
  lemma SecondDecode(littleEndian: bool, n: int)
    requires ValidLength(n)
    ensures BytesInt(HostBytes(littleEndian, n)) == n
       <==> !littleEndian || Reverse4(IntBytes(4, n)) == IntBytes(4, n)
  {
    ValidLengthFits(n);
    DecodeOfEncode(4, n);
    if littleEndian && BytesInt(HostBytes(littleEndian, n)) == n {
      EncodeOfDecode(HostBytes(littleEndian, n));
    }
  }

  lemma SplitOfPrefix(s: seq<Byte>)
    requires |s| == 4 && ValidLength(Announced(s))
    ensures Split(s) == SplitResult([], s, false)
  {
  }

  /** The bytes of a length that reads the same backwards. */
  lemma Palindrome()
    ensures Announced([0, 1, 1, 0]) == 0x10100 && IntBytes(4, 0x10100) == [0, 1, 1, 0]
    ensures Split([0, 1, 1, 0]) == SplitResult([], [0, 1, 1, 0], false)
  {
    var bs: seq<Byte> := [0, 1, 1, 0];
    assert Unsigned(bs) == 0x10100 by {
      assert Unsigned(bs[..1]) == 0 by { assert bs[..1][..0] == []; }
      assert Unsigned(bs[..2]) == 1 by { assert bs[..2][..1] == bs[..1]; }
      assert Unsigned(bs[..3]) == 0x101 by { assert bs[..3][..2] == bs[..2]; }
    }
    hide Unsigned, IntBytes, Split;
    Widths();
    BytesIntIsTruncated(bs);
    EncodeOfDecode(bs);
    assert bs[..4] == bs;
    SplitOfPrefix(bs);
  }

  lemma Five()
    ensures Announced([0, 0, 0, 5]) == 5 && IntBytes(4, 5) == [0, 0, 0, 5]
    ensures Split([0, 0, 0, 5]) == SplitResult([], [0, 0, 0, 5], false)
  {
    assert IntBytes(4, 5) == [0, 0, 0, 5] by {
      assert IntBytes(1, 0) == [0];
      assert IntBytes(2, 0) == [0, 0];
      assert IntBytes(3, 0) == [0, 0, 0];
    }
    hide IntBytes, BytesInt, Split;
    Widths();
    DecodeOfEncode(4, 5);
    var bs: seq<Byte> := [0, 0, 0, 5];
    assert bs[..4] == bs;
    SplitOfPrefix(bs);
  }

  /** On a little-endian host a packet of five bytes is then refused as too long. */
  lemma SecondDecodeRefusesFive()
    ensures !ValidLength(BytesInt(HostBytes(true, 5)))
  {
    Five();
    var bs: seq<Byte> := [5, 0, 0, 0];
    assert Unsigned(bs[..1]) == 5 by { assert bs[..1][..0] == []; }
    assert Unsigned(bs[..2]) == 5 * 256 by { assert bs[..2][..1] == bs[..1]; }
    assert Unsigned(bs[..3]) == 5 * 65536 by { assert bs[..3][..2] == bs[..2]; }
    assert bs == HostBytes(true, 5);
    Widths();
  }

  /** On every host a packet whose length reads the same backwards loses a body to a read that finds
      nothing after the prefix: its length survives, the first body is never released. */
  method EveryHostLosesABody(littleEndian: bool) returns (reader: TcpReader)
    ensures !reader.BodiesAccounted() && !reader.Sound() && reader.consumed == [0, 1, 1, 0]
    ensures reader.body != null && reader.body.Length == Announced([0, 1, 1, 0])
  {
    Palindrome();
    assert Reverse4([0, 1, 1, 0]) == [0, 1, 1, 0];
    reader := new TcpReader(littleEndian, true);
    assert [] + [0, 1, 1, 0] == [0, 1, 1, 0];
    reader.Feed([0, 1, 1, 0]);
    hide Split, Announced, HostBytes;
    reader.EmptyReadThenAnother();
  }

  /** And on a little-endian host the five-byte packet is refused although its length is good. */
  method LittleEndianRefusesFive() returns (reader: TcpReader)
    ensures reader.state == InvalidReported && !reader.Sound() && reader.consumed == [0, 0, 0, 5]
    ensures !Split(reader.consumed).bad
  {
    Five();
    SecondDecodeRefusesFive();
    reader := new TcpReader(true, true);
    assert [] + [0, 0, 0, 5] == [0, 0, 0, 5];
    reader.Feed([0, 0, 0, 5]);
    hide Split, Announced, HostBytes;
    reader.EmptyReadThenAnother();
  }

  /** There is room for the next read unless the stream has run into a bad length. */
  lemma RoomUnlessBad(s: seq<Byte>)
    ensures if Split(s).bad then Capacity(Split(s).rest) == 0 else Capacity(Split(s).rest) > 0
  {
    SplitDeliversPackets(s);
  }

  /** The split after one more chunk, in terms of what was left before it. */
  lemma TurnSplit(consumed: seq<Byte>, chunk: seq<Byte>)
    requires |chunk| <= Capacity(Split(consumed).rest) || chunk == []
    ensures var r, t := Split(consumed), Split(consumed + chunk);
      var got := r.rest + chunk;
      && (|r.rest| < 4 ==> Capacity(r.rest) > 0 && |got| <= 4)
      && (|r.rest| == 4 ==> (!ValidLength(Announced(r.rest)) <==> r.bad))
      && (r.bad ==> |r.rest| >= 4 && Capacity(r.rest) == 0 && t == SplitResult(r.packets, got, true))
      && (!r.bad && |r.rest| >= 4 ==> ValidLength(Announced(r.rest)) && Capacity(r.rest) > 0)
      && (!r.bad && |r.rest| >= 4 ==> Announced(got) == Announced(r.rest))
      && (!r.bad && |got| < 4 ==> t == SplitResult(r.packets, got, false))
      && (!r.bad && |got| == 4 ==> t == SplitResult(r.packets, got, !ValidLength(Announced(got))))
      && (!r.bad && |got| > 4 ==> ValidLength(Announced(got)) && |got| <= Announced(got))
      && (!r.bad && |got| > 4 && |got| == Announced(got) ==> t == SplitResult(r.packets + [got], [], false))
      && (!r.bad && |got| > 4 && |got| < Announced(got) ==> t == SplitResult(r.packets, got, false))
  {
    SplitDeliversPackets(consumed);
    SplitExtend(consumed, chunk);
    if !Split(consumed).bad {
      SplitChunk(Split(consumed).rest, chunk);
    }
  }

  /** What a chunk that fits the room adds to the split. */
  lemma SplitChunk(rest: seq<Byte>, chunk: seq<Byte>)
    requires |rest| < 4 || (ValidLength(Announced(rest)) && |rest| < Announced(rest))
    requires |chunk| <= Capacity(rest) || chunk == []
    ensures var got, t := rest + chunk, Split(rest + chunk);
      && (|got| < 4 ==> t == SplitResult([], got, false))
      && (|got| == 4 ==> t == SplitResult([], got, !ValidLength(Announced(got))))
      && (|rest| >= 4 && Capacity(rest) > 0 ==> Announced(got) == Announced(rest) && ValidLength(Announced(got)))
      && (|got| > 4 ==> ValidLength(Announced(got)) && t == if |got| == Announced(got) then SplitResult([got], [], false) else SplitResult([], got, false))
  {
    var got := rest + chunk;
    if |rest| >= 4 {
      AnnouncedPrefix(got, rest);
    }
    if |got| > 4 && |got| == Announced(got) {
      assert got[..|got|] == got && got[|got|..] == [];
    }
  }
}
