/**
 The gate between the video encoder and the RTSP socket: what is written for which packets.
 */
module Rtsp {
  import opened Prelude

  /** An encoded packet: one buffer, and a second one if the encoder's ring wrapped. */
  datatype Packet = Packet(data0: seq<byte>, data1: Option<seq<byte>>)

  /** One callback: the packet, and the connection status as sampled first and second. */
  datatype Call = Call(packet: Packet, first: int, second: int)

  datatype List<T> = Nil | Cons(head: T, tail: List<T>)

  datatype State = State(hasHead: bool, head: seq<byte>, index: nat, start: bool, firstFlag: bool, log: seq<seq<byte>>)

  /** A NAL unit of type 5, an IDR picture, behind a four-byte start code. */
  predicate IsIdr(p: Packet) {
    |p.data0| > 4 && p.data0[4] % 32 == 5
  }

  /** The writes for one packet. */
  function Writes(p: Packet): seq<seq<byte>> {
    if p.data1.Some? && |p.data1.value| > 0 then [p.data0, p.data1.value] else [p.data0]
  }

  /** The header buffer after `data` has been copied to its beginning. */
  function Overlay(head: seq<byte>, data: seq<byte>): seq<byte> {
    if |data| <= |head| then data + head[|data|..] else head
  }

  /** All bytes of a log, one write after the other. */
  function Bytes(log: seq<seq<byte>>): seq<byte> {
    if log == [] then [] else log[0] + Bytes(log[1..])
  }

  /** A packet is written whole, its second buffer behind its first, and nothing empty is written for a missing one. */
  lemma WrittenWhole(p: Packet)
    ensures Bytes(Writes(p)) == p.data0 + match p.data1 case None => [] case Some(more) => more
    ensures Writes(p)[0] == p.data0
    ensures |Writes(p)| == 2 <==> p.data1.Some? && p.data1.value != []
    ensures |Writes(p)| <= 2
  {
    assert Bytes([]) == [];
    assert Bytes([p.data0]) == p.data0;
    if p.data1.Some? && p.data1.value != [] {
      assert [p.data0, p.data1.value][1..] == [p.data1.value];
      assert Bytes([p.data1.value]) == p.data1.value;
    } else if p.data1.Some? {
      assert p.data0 + p.data1.value == p.data0;
    }
  }

  /** The IDR pictures are told by the fifth byte, whatever its upper three bits. */
  lemma IdrBytes(p: Packet)
    ensures IsIdr(p) <==> |p.data0| >= 5 && p.data0[4] in [0x05, 0x25, 0x45, 0x65, 0x85, 0xA5, 0xC5, 0xE5]
  {
  }

  /** The header begins with the first packet; behind a short one the buffer is as it was. */
  lemma HeaderBytes(head: seq<byte>, data: seq<byte>, i: nat)
    requires |data| <= |head| && i < |head|
    ensures |Overlay(head, data)| == |head| && Overlay(head, data)[i] == if i < |data| then data[i] else head[i]
  {
  }

  function Headed(s: State, p: Packet): State {
    if s.hasHead then s else s.(hasHead := true, head := Overlay(s.head, p.data0))
  }

  function Sampled(s: State, c: Call): State {
    if s.index == 0 && c.first > 0 then s.(start := true, index := 1)
    else if c.second == 0 then s.(start := false, index := 0)
    else s
  }

  function Written(s: State, p: Packet): State {
    if !s.start then s
    else if s.index == 1 then
      var flag := s.firstFlag || IsIdr(p);
      if flag then s.(index := 2, firstFlag := false, log := s.log + [s.head] + Writes(p)) else s
    else s.(log := s.log + Writes(p))
  }

  function Step(s: State, c: Call): State {
    Written(Sampled(Headed(s, c.packet), c), c.packet)
  }

  function Run(s: State, cs: List<Call>): State
    decreases cs
  {
    if cs.Nil? then s else Run(Step(s, cs.head), cs.tail)
  }

  /** The flag is set exactly while the index is at least 1, and no IDR packet is left over from an earlier call. */
  predicate Inv(s: State) {
    (s.start <==> s.index >= 1) && s.index <= 2 && !s.firstFlag
  }

  lemma {:induction false} RunKeepsInv(s: State, cs: List<Call>)
    requires Inv(s)
    ensures Inv(Run(s, cs))
    decreases cs
  {
    if cs.Cons? {
      RunKeepsInv(Step(s, cs.head), cs.tail);
    }
  }

  // What a run writes.

  /** Packets marked with whether the gate was connected when they came. */
  datatype Mark = Mark(packet: Packet, connected: bool)

  /** A disconnected gate goes by the first sample, a connected one by the second. */
  predicate Connected(before: bool, c: Call) {
    if before then c.second != 0 else c.first > 0
  }

  function Marks(before: bool, cs: List<Call>): List<Mark>
    decreases cs
  {
    if cs.Nil? then Nil
    else
      var now := Connected(before, cs.head);
      Cons(Mark(cs.head.packet, now), Marks(now, cs.tail))
  }

  lemma StepConnects(s: State, c: Call)
    requires Inv(s)
    ensures Inv(Step(s, c)) && Step(s, c).start == Connected(s.start, c)
  {
  }

  /** The packets up to the first disconnection. */
  function Period(ms: List<Mark>): List<Packet> {
    if ms.Nil? || !ms.head.connected then Nil else Cons(ms.head.packet, Period(ms.tail))
  }

  function Rest(ms: List<Mark>): (r: List<Mark>)
    ensures r == ms || r < ms
  {
    if ms.Nil? || !ms.head.connected then ms else Rest(ms.tail)
  }

  function AllOf(ps: List<Packet>): seq<seq<byte>> {
    if ps.Nil? then [] else Writes(ps.head) + AllOf(ps.tail)
  }

  /** A connected period shows nothing before its first IDR packet; from there, the header and then every packet. */
  function Shown(head: seq<byte>, ps: List<Packet>): seq<seq<byte>> {
    if ps.Nil? then []
    else if IsIdr(ps.head) then [head] + AllOf(ps)
    else Shown(head, ps.tail)
  }

  /** What a marked run shows: its connected periods, one after the other. */
  function Output(head: seq<byte>, ms: List<Mark>): seq<seq<byte>>
    decreases ms, 1
  {
    if ms.Nil? then []
    else if !ms.head.connected then Output(head, ms.tail)
    else Shown(head, Period(ms)) + Output(head, Rest(ms.tail))
  }

  /** What is still to come from a gate in the middle of a period. */
  function Remaining(s: State, ms: List<Mark>): seq<seq<byte>> {
    (if s.index == 2 then AllOf(Period(ms)) else Shown(s.head, Period(ms))) + Output(s.head, Rest(ms))
  }

  lemma OutputOfPeriods(head: seq<byte>, ms: List<Mark>)
    ensures Output(head, ms) == Shown(head, Period(ms)) + Output(head, Rest(ms))
  {
    if ms.Nil? || !ms.head.connected {
      assert Shown(head, Period(ms)) == [];
    }
  }

  /** One callback on a closed gate, or one that closes it. */
  lemma ClosedStep(s: State, t: State, m: Mark, rest: List<Mark>)
    requires !m.connected && t.index == 0 && t.head == s.head
    ensures Remaining(s, Cons(m, rest)) == Remaining(t, rest)
  {
    OutputOfPeriods(s.head, rest);
    assert Period(Cons(m, rest)) == Nil && Rest(Cons(m, rest)) == Cons(m, rest);
  }

  /** One callback on an open gate that still waits for an IDR packet. */
  lemma WaitingStep(s: State, t: State, m: Mark, rest: List<Mark>)
    requires m.connected && s.index < 2 && t.index == 1 && t.head == s.head && !IsIdr(m.packet)
    ensures Remaining(s, Cons(m, rest)) == Remaining(t, rest)
  {
    assert Period(Cons(m, rest)) == Cons(m.packet, Period(rest)) && Rest(Cons(m, rest)) == Rest(rest);
  }

  lemma OpeningStep(s: State, t: State, m: Mark, rest: List<Mark>)
    requires m.connected && s.index < 2 && t.index == 2 && t.head == s.head && IsIdr(m.packet)
    ensures Remaining(s, Cons(m, rest)) == [s.head] + Writes(m.packet) + Remaining(t, rest)
  {
    var ps := Period(rest);
    assert Period(Cons(m, rest)) == Cons(m.packet, ps) && Rest(Cons(m, rest)) == Rest(rest);
    assert Shown(s.head, Cons(m.packet, ps)) == [s.head] + (Writes(m.packet) + AllOf(ps));
  }

  lemma StreamingStep(s: State, t: State, m: Mark, rest: List<Mark>)
    requires m.connected && s.index == 2 && t.index == 2 && t.head == s.head
    ensures Remaining(s, Cons(m, rest)) == Writes(m.packet) + Remaining(t, rest)
  {
    var ps := Period(rest);
    assert Period(Cons(m, rest)) == Cons(m.packet, ps) && Rest(Cons(m, rest)) == Rest(rest);
    assert AllOf(Cons(m.packet, ps)) == Writes(m.packet) + AllOf(ps);
  }

  /** What one callback writes. */
  function Adds(s: State, t: State, p: Packet): seq<seq<byte>> {
    if t.index < 2 then [] else if s.index == 2 then Writes(p) else [s.head] + Writes(p)
  }

  lemma StepAdds(s: State, c: Call)
    requires Inv(s) && s.hasHead
    ensures var t := Step(s, c);
      && t.log == s.log + Adds(s, t, c.packet) && t.head == s.head
      && (t.start <==> t.index >= 1) && t.index <= 2
      && (t.index == 1 ==> s.index < 2 && !IsIdr(c.packet)) && (t.index == 2 ==> s.index == 2 || IsIdr(c.packet))
  {
  }

  lemma StepRemains(s: State, t: State, m: Mark, rest: List<Mark>)
    requires s.index <= 2 && t.index <= 2 && t.head == s.head && m.connected == (t.index >= 1)
    requires t.index == 1 ==> s.index < 2 && !IsIdr(m.packet)
    requires t.index == 2 ==> s.index == 2 || IsIdr(m.packet)
    ensures Remaining(s, Cons(m, rest)) == Adds(s, t, m.packet) + Remaining(t, rest)
  {
    if t.index == 0 {
      ClosedStep(s, t, m, rest);
    } else if t.index == 1 {
      WaitingStep(s, t, m, rest);
    } else if s.index == 2 {
      StreamingStep(s, t, m, rest);
    } else {
      OpeningStep(s, t, m, rest);
    }
  }

  lemma StepWrites(s: State, c: Call, rest: List<Mark>)
    requires Inv(s) && s.hasHead
    ensures var t := Step(s, c); s.log + Remaining(s, Cons(Mark(c.packet, t.start), rest)) == t.log + Remaining(t, rest)
  {
    var t := Step(s, c);
    StepAdds(s, c);
    StepRemains(s, t, Mark(c.packet, t.start), rest);
    assert s.log + (Adds(s, t, c.packet) + Remaining(t, rest)) == s.log + Adds(s, t, c.packet) + Remaining(t, rest);
  }

  lemma {:induction false} RunWrites(s: State, cs: List<Call>)
    requires Inv(s) && s.hasHead
    ensures Run(s, cs).log == s.log + Remaining(s, Marks(s.start, cs))
    decreases cs
  {
    if cs.Nil? {
      assert Remaining(s, Nil) == [];
    } else {
      var t := Step(s, cs.head);
      StepConnects(s, cs.head);
      RunWrites(t, cs.tail);
      StepWrites(s, cs.head, Marks(t.start, cs.tail));
    }
  }

  function Begin(head: seq<byte>): State {
    State(false, head, 0, false, false, [])
  }

  /**
   From the beginning, and whatever the connection does, a run writes exactly its connected periods: for each,
   nothing, or the header, an IDR packet, and every later packet of the period. The header is the first packet of all.
   */
  lemma GateWrites(head: seq<byte>, cs: List<Call>)
    requires cs.Cons?
    ensures Run(Begin(head), cs).log == Output(Overlay(head, cs.head.packet.data0), Marks(false, cs))
  {
    var s := Headed(Begin(head), cs.head.packet);
    assert Step(Begin(head), cs.head) == Step(s, cs.head);
    assert Run(Begin(head), cs) == Run(s, cs);
    RunWrites(s, cs);
    OutputOfPeriods(s.head, Marks(false, cs));
  }

  class MyEncoderCallback {
    const jpegOnce: bool
    var hasHead: bool
    var head: array<byte>
    var index: nat
    var start: bool
    var firstFlag: bool
    var log: seq<seq<byte>>

    constructor (jpegOnce: bool)
      ensures fresh(head) && head.Length == 32 && Abs() == Begin(head[..])
    {
      this.jpegOnce := jpegOnce;
      hasHead, index, start, firstFlag, log := false, 0, false, false, [];
      head := new byte[32];
    }

    ghost function Abs(): State
      reads this, head
    {
      State(hasHead, head[..], index, start, firstFlag, log)
    }

    /** The first packet of all becomes the header. */
    method CopyHead(packet: Packet)
      requires !hasHead ==> |packet.data0| <= head.Length
      modifies this`hasHead, head
      ensures Abs() == Headed(old(Abs()), packet)
    {
      if !hasHead {
        ghost var before := head[..];
        for i := 0 to |packet.data0|
          invariant forall k :: 0 <= k < i ==> head[k] == packet.data0[k]
          invariant forall k :: i <= k < head.Length ==> head[k] == before[k]
        {
          head[i] := packet.data0[i];
        }
        hasHead := true;
        assert head[..] == Overlay(before, packet.data0);
      }
    }

    method WritePacket(packet: Packet)
      modifies this`log
      ensures log == old(log) + Writes(packet)
    {
      log := log + [packet.data0];
      if packet.data1.Some? && |packet.data1.value| > 0 {
        log := log + [packet.data1.value];
      }
    }

    method EncoderDataReady(packet: Packet, first: int, second: int)
      requires !hasHead ==> |packet.data0| <= head.Length
      requires |packet.data0| > 4
      modifies this, head
      ensures head == old(head)
      ensures jpegOnce ==> Abs() == old(Abs())
      ensures !jpegOnce ==> Abs() == Step(old(Abs()), Call(packet, first, second))
    {
      if jpegOnce {
        return;
      }
      CopyHead(packet);
      if index == 0 && first > 0 {
        start := true;
        index := index + 1;
      } else if second == 0 {
        start := false;
        index := 0;
      }
      if start {
        if index == 1 {
          if packet.data0[4] % 32 == 5 {
            firstFlag := true;
          }
          if firstFlag {
            index := 2;
            firstFlag := false;
            log := log + [head[..]];
            WritePacket(packet);
          }
        } else {
          WritePacket(packet);
        }
      }
    }
  }
}
