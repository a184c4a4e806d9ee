/**
 Type-length-value lists, the body of every QMI message: their bytes, and the two walks over them.
 */
module Tlv {
  import opened Prelude

  datatype Tlv = Tlv(ty: byte, value: seq<byte>)
  datatype Tlvs = Nil | Cons(head: Tlv, tail: Tlvs)

  const HDR := 3

  function Lo(n: nat): byte {
    n % 0x100
  }

  function Hi(n: nat): byte {
    n / 0x100 % 0x100
  }

  function Word(lo: byte, hi: byte): nat {
    lo + 0x100 * hi
  }

  /** Two bytes make up a number, the low one first. */
  predicate LowFirst(low: int, high: int, n: int) {
    low + 0x100 * high == n
  }

  lemma WordLoHi(n: nat)
    requires n < 0x10000
    ensures Word(Lo(n), Hi(n)) == n
  {
  }

  lemma LoHiWord(lo: byte, hi: byte)
    ensures Lo(Word(lo, hi)) == lo && Hi(Word(lo, hi)) == hi && Word(lo, hi) < 0x10000
  {
  }

  /** Subtraction on `USHORT`. */
  function Sub16(a: nat, b: nat): (r: nat)
    ensures b <= a < 0x10000 ==> r == a - b
  {
    (a - b) % 0x10000
  }

  function Length(ts: Tlvs): nat {
    if ts.Nil? then 0 else 1 + Length(ts.tail)
  }

  /** Every value's length fits its 16-bit field. */
  predicate Sized(ts: Tlvs) {
    ts.Nil? || (|ts.head.value| < 0x10000 && Sized(ts.tail))
  }

  function EncodeOne(t: Tlv): seq<byte> {
    [t.ty, Lo(|t.value|), Hi(|t.value|)] + t.value
  }

  function Encode(ts: Tlvs): seq<byte> {
    if ts.Nil? then [] else EncodeOne(ts.head) + Encode(ts.tail)
  }

  /** The list a body holds from `at` on, if it is cut into elements exactly. */
  function ParseFrom(body: seq<byte>, at: nat): Option<Tlvs>
    requires at <= |body|
    decreases |body| - at
  {
    if at == |body| then Some(Nil)
    else if |body| - at < HDR then None
    else
      var next := at + HDR + Word(body[at + 1], body[at + 2]);
      if next > |body| then None
      else
        match ParseFrom(body, next)
        case None => None
        case Some(rest) => Some(Cons(Tlv(body[at], body[at + HDR..next]), rest))
  }

  function Parse(body: seq<byte>): Option<Tlvs> {
    ParseFrom(body, 0)
  }

  /** The body of a message whose length field is right and whose elements fill it. */
  predicate WellFormed(body: seq<byte>) {
    |body| < 0x10000 && Parse(body).Some?
  }

  lemma {:induction false} ParseEncodeFrom(pre: seq<byte>, ts: Tlvs)
    requires Sized(ts)
    ensures ParseFrom(pre + Encode(ts), |pre|) == Some(ts)
    decreases ts
  {
    if ts.Cons? {
      var body, at, n := pre + Encode(ts), |pre|, |ts.head.value|;
      var next := pre + EncodeOne(ts.head);
      WordLoHi(n);
      assert body == next + Encode(ts.tail);
      assert next[at] == ts.head.ty && next[at + 1] == Lo(n) && next[at + 2] == Hi(n);
      assert next[at + HDR..] == ts.head.value;
      ParseEncodeFrom(next, ts.tail);
    }
  }

  /** An encoded element: its type, its length with the low byte first, its value, and then the others. */
  lemma ElementBytes(t: Tlv, rest: Tlvs)
    requires |t.value| < 0x10000
    ensures var b := Encode(Cons(t, rest));
      && |b| == 3 + |t.value| + |Encode(rest)|
      && b[0] == t.ty && LowFirst(b[1], b[2], |t.value|) && b[3..3 + |t.value|] == t.value
      && b[3 + |t.value|..] == Encode(rest)
  {
    WordLoHi(|t.value|);
  }

  /** Reading back what was encoded gives the list, and nothing else encodes to the same bytes. */
  lemma ParseEncode(ts: Tlvs)
    requires Sized(ts)
    ensures Parse(Encode(ts)) == Some(ts)
  {
    ParseEncodeFrom([], ts);
    assert [] + Encode(ts) == Encode(ts);
  }

  lemma {:induction false} EncodeParseFrom(body: seq<byte>, at: nat)
    requires at <= |body| && ParseFrom(body, at).Some?
    ensures Encode(ParseFrom(body, at).value) == body[at..]
    ensures Sized(ParseFrom(body, at).value)
    decreases |body| - at
  {
    if at < |body| {
      var next := at + HDR + Word(body[at + 1], body[at + 2]);
      EncodeParseFrom(body, next);
      LoHiWord(body[at + 1], body[at + 2]);
    }
  }

  lemma EncodeParse(body: seq<byte>)
    requires Parse(body).Some?
    ensures Encode(Parse(body).value) == body && Sized(Parse(body).value)
  {
    EncodeParseFrom(body, 0);
  }

  /**
   What a walk that looks for `tlvType` reports: the position of the n-th element for 0x1000 + n,
   else of the first element of that type, else -1 for NULL.
   */
  function Position(ts: Tlvs, tlvType: int): int {
    if ts.Nil? then -1
    else if (if tlvType > 0x1000 then tlvType == 0x1001 else ts.head.ty == tlvType) then 0
    else Shift(HDR + |ts.head.value|, Position(ts.tail, if tlvType > 0x1000 then tlvType - 1 else tlvType))
  }

  /** The same position, counted from further back. */
  function Shift(at: nat, position: int): int {
    if position < 0 then -1 else at + position
  }

  /** What a walk reads at `at` when `rest` is what the body holds from there on. */
  lemma Peel(body: seq<byte>, at: nat, rest: Tlvs)
    requires at <= |body| && ParseFrom(body, at) == Some(rest)
    ensures rest.Nil? <==> at == |body|
    ensures rest.Nil? <==> |body| - at < HDR
    ensures rest.Cons? ==> var n := HDR + Word(body[at + 1], body[at + 2]);
      && at + n <= |body|
      && rest.head == Tlv(body[at], body[at + HDR..at + n])
      && |rest.head.value| == n - HDR
      && ParseFrom(body, at + n) == Some(rest.tail)
  {
  }

  /** What is looked for behind an element that is not it. */
  function Onwards(wanted: int): int {
    if wanted > 0x1000 then wanted - 1 else wanted
  }

  lemma PositionPasses(at: nat, rest: Tlvs, wanted: int)
    requires rest.Cons? && (if wanted > 0x1000 then wanted != 0x1001 else rest.head.ty != wanted)
    ensures Shift(at, Position(rest, wanted)) == Shift(at + HDR + |rest.head.value|, Position(rest.tail, Onwards(wanted)))
  {
  }

  /** The walk that counts down what is left, in a 16-bit variable. */
  method GetTLV(body: seq<byte>, tlvType: int) returns (at: int)
    requires WellFormed(body)
    ensures at == Position(Parse(body).value, tlvType)
  {
    ghost var rest := Parse(body).value;
    ghost var wanted := tlvType;
    var found := 0;
    var length := |body|;
    at := 0;
    Peel(body, 0, rest);
    while length >= HDR
      invariant 0 <= at <= |body| && length == |body| - at
      invariant ParseFrom(body, at) == Some(rest) && (rest.Nil? <==> length < HDR)
      invariant wanted == if tlvType > 0x1000 then tlvType - found else tlvType
      invariant tlvType > 0x1000 ==> wanted > 0x1000
      invariant Shift(at, Position(rest, wanted)) == Position(Parse(body).value, tlvType)
      decreases length
    {
      Peel(body, at, rest);
      found := found + 1;
      if tlvType > 0x1000 {
        if found + 0x1000 == tlvType {
          return;
        }
      } else if body[at] == tlvType {
        return;
      }
      var n := Word(body[at + 1], body[at + 2]) + HDR;
      length := Sub16(length, n);
      at := at + n;
      PositionPasses(at - n, rest, wanted);
      wanted := Onwards(wanted);
      rest := rest.tail;
      Peel(body, at, rest);
    }
    at := -1;
  }

  /** The proxy's walk, which counts up what has been passed. */
  method QmiFindTlv(body: seq<byte>, ty: byte) returns (at: int)
    requires WellFormed(body)
    ensures at == Position(Parse(body).value, ty)
  {
    ghost var rest := Parse(body).value;
    at := 0;
    Peel(body, 0, rest);
    while at < |body|
      invariant 0 <= at <= |body|
      invariant ParseFrom(body, at) == Some(rest) && (rest.Nil? <==> at == |body|)
      invariant Shift(at, Position(rest, ty)) == Position(Parse(body).value, ty)
      decreases |body| - at
    {
      Peel(body, at, rest);
      if body[at] == ty {
        return;
      }
      at := at + Word(body[at + 1], body[at + 2]) + HDR;
      rest := rest.tail;
      Peel(body, at, rest);
    }
    at := -1;
  }

  /** The element at a reported position. */
  function ReadAt(body: seq<byte>, at: nat): Tlv
    requires at + HDR <= |body| && at + HDR + Word(body[at + 1], body[at + 2]) <= |body|
  {
    Tlv(body[at], body[at + HDR..at + HDR + Word(body[at + 1], body[at + 2])])
  }

  function Nth(ts: Tlvs, k: nat): Tlv
    requires k < Length(ts)
  {
    if k == 0 then ts.head else Nth(ts.tail, k - 1)
  }

  /** GetTLV(0x1000 + n) finds the n-th element, and nothing past the last. */
  lemma {:induction false} NthElement(body: seq<byte>, from: nat, ts: Tlvs, k: nat)
    requires from <= |body| && ParseFrom(body, from) == Some(ts)
    ensures var p := Position(ts, 0x1001 + k);
      if k >= Length(ts) then p == -1
      else
        && p >= 0 && from + p + HDR <= |body|
        && from + p + HDR + Word(body[from + p + 1], body[from + p + 2]) <= |body|
        && ReadAt(body, from + p) == Nth(ts, k)
    decreases ts
  {
    Peel(body, from, ts);
    if ts.Cons? && k > 0 {
      NthElement(body, from + HDR + |ts.head.value|, ts.tail, k - 1);
    }
  }

  /** The indexed dump visits every element once, in order, and stops. */
  method DumpTlv(body: seq<byte>) returns (visited: seq<Tlv>)
    requires WellFormed(body)
    ensures |visited| == Length(Parse(body).value)
    ensures forall k :: 0 <= k < |visited| ==> visited[k] == Nth(Parse(body).value, k)
  {
    ghost var ts := Parse(body).value;
    visited := [];
    while true
      invariant |visited| <= Length(ts)
      invariant forall k :: 0 <= k < |visited| ==> visited[k] == Nth(ts, k)
      decreases Length(ts) - |visited|
    {
      var at := GetTLV(body, 0x1000 + |visited| + 1);
      NthElement(body, 0, ts, |visited|);
      if at == -1 {
        return;
      }
      visited := visited + [ReadAt(body, at)];
    }
  }

  /** Where a walk stands, and what its 16-bit countdown says is left. */
  datatype Walk = Walk(at: nat, left: nat)

  predicate GoesOn(w: Walk) {
    w.left >= HDR
  }

  function Passed(body: seq<byte>, w: Walk): Walk
    requires w.at + HDR <= |body|
  {
    var n := Word(body[w.at + 1], body[w.at + 2]) + HDR;
    Walk(w.at + n, Sub16(w.left, n))
  }

  /** The walk after it has passed `k` elements, as long as it reads inside the body. */
  function Walked(body: seq<byte>, w: Walk, k: nat): Walk
    decreases k
  {
    if k == 0 || !GoesOn(w) || w.at + HDR > |body| then w else Walked(body, Passed(body, w), k - 1)
  }

  /** The elements `ts` lie in the body from `at` to `end`. */
  predicate LaidOut(body: seq<byte>, at: nat, ts: Tlvs, end: nat)
    decreases ts
  {
    if ts.Nil? then at == end
    else
      && at + HDR <= end <= |body|
      && ts.head.ty == body[at] && |ts.head.value| == Word(body[at + 1], body[at + 2])
      && at + HDR + |ts.head.value| <= end && ts.head.value == body[at + HDR..at + HDR + |ts.head.value|]
      && LaidOut(body, at + HDR + |ts.head.value|, ts.tail, end)
  }

  lemma {:induction false} WalkPasses(body: seq<byte>, at: nat, ts: Tlvs, end: nat, k: nat)
    requires LaidOut(body, at, ts, end) && at <= end <= |body| < 0x10000
    ensures Walked(body, Walk(at, |body| - at), Length(ts) + k) == Walked(body, Walk(end, |body| - end), k)
    decreases ts
  {
    if ts.Cons? {
      WalkPasses(body, at + HDR + |ts.head.value|, ts.tail, end, k);
    }
  }

  /**
   A body in which an element, behind any others, claims more than is left: the walk passes it to a place
   behind the body, and then goes on there exactly if that is by no more than 65533 bytes.
   */
  lemma TruncatedElementWraps(body: seq<byte>, ts: Tlvs, end: nat)
    requires LaidOut(body, 0, ts, end) && end + HDR <= |body| < 0x10000
    requires end + HDR + Word(body[end + 1], body[end + 2]) > |body|
    ensures var w := Walked(body, Walk(0, |body|), Length(ts) + 1);
      && w.at == end + HDR + Word(body[end + 1], body[end + 2])
      && (GoesOn(w) <==> w.at - |body| <= 0x10000 - HDR)
  {
    WalkPasses(body, 0, ts, end, 1);
    var w := Walk(end, |body| - end);
    assert Walked(body, w, 1) == Passed(body, w);
  }
}
