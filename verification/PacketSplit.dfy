/** What the stream deframer of `src/smts_abstract_tcp_client.c` computes: the recursive split of a
    byte stream into packets that carry their own length, prefix included, in their first bytes.
 */
module PacketSplit {
  import opened IntegerCodec

  const PACKET_LEN_FIELD_SIZE: nat := 4
  const MAX_PACKET_LEN: nat := 64 * 1024 * 1024

  datatype SplitResult = SplitResult(packets: seq<seq<Byte>>, rest: seq<Byte>, bad: bool)

  /** The length announced at the head of a stream. */
  function Announced(s: seq<Byte>): int
    requires |s| >= 4
  {
    BytesInt(s[..4])
  }

  predicate ValidLength(n: int) {
    PACKET_LEN_FIELD_SIZE < n <= MAX_PACKET_LEN
  }

  /** The complete packets, what is left of the stream, and whether it starts with a bad length. */
  function Split(s: seq<Byte>): (r: SplitResult)
    decreases |s|
  {
    if |s| < 4 then SplitResult([], s, false)
    else
      var n := Announced(s);
      if !ValidLength(n) then SplitResult([], s, true)
      else if |s| < n then SplitResult([], s, false)
      else
        var r := Split(s[n..]);
        SplitResult([s[..n]] + r.packets, r.rest, r.bad)
  }

  function Concat(packets: seq<seq<Byte>>): seq<Byte> {
    if packets == [] then [] else packets[0] + Concat(packets[1..])
  }

  /** A byte string that is one packet. */
  predicate IsPacket(p: seq<Byte>) {
    |p| >= 4 && Announced(p) == |p| && ValidLength(|p|)
  }

  lemma AnnouncedPrefix(s: seq<Byte>, t: seq<Byte>)
    requires |s| >= 4 && |t| >= 4 && s[..4] == t[..4]
    ensures Announced(s) == Announced(t)
  {
  }

  lemma TakeOfPrefix(s: seq<Byte>, t: seq<Byte>, n: nat)
    requires n <= |s|
    ensures (s + t)[..n] == s[..n] && (s + t)[n..] == s[n..] + t
  {
  }

  /** The split loses no byte. */
  lemma {:induction false} SplitLosesNothing(s: seq<Byte>)
    ensures Concat(Split(s).packets) + Split(s).rest == s
    decreases |s|
  {
    hide Announced;
    if |s| >= 4 && ValidLength(Announced(s)) && Announced(s) <= |s| {
      var p, tail := s[..Announced(s)], s[Announced(s)..];
      var r := Split(tail);
      SplitLosesNothing(tail);
      ConcatCons(p, r.packets);
      Associative(p, Concat(r.packets), r.rest);
      TakeAndDrop(s, Announced(s));
    }
  }

  lemma Associative<T>(a: seq<T>, b: seq<T>, c: seq<T>)
    ensures (a + b) + c == a + (b + c)
  {
  }

  lemma TakeAndDrop<T>(s: seq<T>, n: nat)
    requires n <= |s|
    ensures s[..n] + s[n..] == s
  {
  }

  lemma ConcatCons(p: seq<Byte>, packets: seq<seq<Byte>>)
    ensures Concat([p] + packets) == p + Concat(packets)
  {
    assert ([p] + packets)[1..] == packets;
  }

  /** Only packets are delivered, and what is left holds no complete packet. */
  lemma {:induction false} SplitDeliversPackets(s: seq<Byte>)
    ensures forall i :: 0 <= i < |Split(s).packets| ==> IsPacket(Split(s).packets[i])
    ensures Split(s).bad ==> |Split(s).rest| >= 4 && !(4 < Announced(Split(s).rest) <= 0x400_0000)
    ensures !Split(s).bad && |Split(s).rest| >= 4 ==>
      4 < Announced(Split(s).rest) <= 0x400_0000 && |Split(s).rest| < Announced(Split(s).rest)
    decreases |s|
  {
    hide Announced;
    if |s| >= 4 && ValidLength(Announced(s)) && Announced(s) <= |s| {
      var p, tail := s[..Announced(s)], s[Announced(s)..];
      assert p[..4] == s[..4];
      AnnouncedPrefix(p, s);
      SplitDeliversPackets(tail);
    }
  }

  /** Later bytes only extend the split: they complete what was left, or follow a bad length. */
  lemma {:induction false} SplitExtend(a: seq<Byte>, b: seq<Byte>)
    ensures Split(a).bad ==> Split(a + b) == SplitResult(Split(a).packets, Split(a).rest + b, true)
    ensures !Split(a).bad ==>
      var t := Split(Split(a).rest + b);
      Split(a + b) == SplitResult(Split(a).packets + t.packets, t.rest, t.bad)
    decreases |a|
  {
    hide Announced;
    if |a| >= 4 {
      TakeOfPrefix(a, b, 4);
      AnnouncedPrefix(a + b, a);
      var n := Announced(a);
      if ValidLength(n) && n <= |a| {
        TakeOfPrefix(a, b, n);
        SplitExtend(a[n..], b);
        var p, r := a[..n], Split(a[n..]);
        if !r.bad {
          Associative([p], r.packets, Split(r.rest + b).packets);
        }
      } else if !ValidLength(n) {
        assert Split(a + b).packets == [];
      }
    }
  }

  /** Main result: splitting the concatenation of packets gives the packets back. */
  lemma {:induction false} SplitOfConcat(packets: seq<seq<Byte>>)
    requires forall i :: 0 <= i < |packets| ==> IsPacket(packets[i])
    ensures Split(Concat(packets)) == SplitResult(packets, [], false)
  {
    if packets != [] {
      var p, rest := packets[0], Concat(packets[1..]);
      SplitOfConcat(packets[1..]);
      TakeOfPrefix(p, rest, 4);
      AnnouncedPrefix(p + rest, p);
      assert (p + rest)[..|p|] == p && (p + rest)[|p|..] == rest;
      assert [p] + packets[1..] == packets;
    }
  }
}
