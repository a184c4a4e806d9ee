/**
 The data of an MBIM connect command (section 10.5.12 of MBIM 1.0): three strings, each of two bytes a
 character, behind a fixed part that points at them.
 */
module Mbim {
  import opened Prelude

  /** The size of the fixed part: eleven 32-bit words and a UUID. */
  const HEADER := 60

  /** Rounded up to a multiple of four, as the source's macro does it. */
  function Align(n: nat): nat {
    n + if n % 4 != 0 then 4 - n % 4 else 0
  }

  /** A string that is missing is treated like an empty one. */
  function Text(s: Option<seq<byte>>): seq<byte> {
    match s
    case None => []
    case Some(t) => t
  }

  /** Two bytes a character. */
  function Wide(s: seq<byte>): seq<byte> {
    seq(2 * |s|, k requires 0 <= k < 2 * |s| => if k % 2 == 0 then s[k / 2] else 0)
  }

  function Zeros(n: nat): seq<byte> {
    seq(n, k => 0)
  }

  /** What a string takes of the data: its characters, and zeros up to a multiple of four bytes. */
  function Slot(s: seq<byte>): seq<byte> {
    Wide(s) + Zeros(Align(2 * |s|) - 2 * |s|)
  }

  lemma SlotSize(s: seq<byte>)
    ensures |Slot(s)| == Align(2 * |s|) && |Slot(s)| % 4 == 0
  {
  }

  function Layout(apn: seq<byte>, user: seq<byte>, password: seq<byte>): seq<byte> {
    Slot(apn) + Slot(user) + Slot(password)
  }

  /** Where a string starts, counted from the beginning of the fixed part, and how many bytes it has. */
  datatype Extent = Extent(offset: nat, size: nat)

  function ExtentAt(at: nat, s: seq<byte>): Extent {
    if s == [] then Extent(0, 0) else Extent(HEADER + at, 2 * |s|)
  }

  class ConnectRequest {
    var access: Extent
    var user: Extent
    var password: Extent
    var data: array<byte>

    constructor (buflen: nat)
      ensures fresh(data) && data[..] == Zeros(buflen)
      ensures access == user == password == Extent(0, 0)
    {
      access, user, password := Extent(0, 0), Extent(0, 0), Extent(0, 0);
      var zeros := new byte[buflen](_ => 0);
      data := zeros;
    }

    ghost predicate Holds(apn: seq<byte>, name: seq<byte>, secret: seq<byte>)
      reads this, data
    {
      && data[..] == Layout(apn, name, secret)
      && access == ExtentAt(0, apn)
      && user == ExtentAt(|Slot(apn)|, name)
      && password == ExtentAt(|Slot(apn)| + |Slot(name)|, secret)
    }
  }

  lemma AlignAfter(x: nat, y: nat)
    requires x % 4 == 0
    ensures Align(x + y) == x + Align(y) && Align(x + y) % 4 == 0
  {
    assert (x + y) % 4 == y % 4;
  }

  /** Rounding up after a string has been added to an aligned size adds what the string takes. */
  lemma AlignSlot(x: nat, s: seq<byte>)
    requires x % 4 == 0
    ensures Align(x + 2 * |s|) == x + |Slot(s)| && (x + |Slot(s)|) % 4 == 0
  {
    AlignAfter(x, 2 * |s|);
    SlotSize(s);
  }

  /** The allocation: every string rounded up in turn. */
  method BufferLength(apn: seq<byte>, user: seq<byte>, password: seq<byte>) returns (buflen: nat)
    ensures buflen == |Layout(apn, user, password)|
  {
    buflen := 0;
    if |apn| > 0 { buflen := buflen + 2 * |apn|; }
    AlignSlot(0, apn);
    buflen := Align(buflen);
    AlignSlot(buflen, user);
    if |user| > 0 { buflen := buflen + 2 * |user|; }
    buflen := Align(buflen);
    AlignSlot(buflen, password);
    if |password| > 0 { buflen := buflen + 2 * |password|; }
    buflen := Align(buflen);
  }

  /** One string copied to the zeros at `offset`. */
  method PutString(data: array<byte>, offset: nat, s: seq<byte>) returns (next: nat)
    requires offset % 4 == 0 && offset + |Slot(s)| <= data.Length
    requires forall k :: offset <= k < data.Length ==> data[k] == 0
    modifies data
    ensures next == offset + |Slot(s)| && data[..next] == old(data[..offset]) + Slot(s)
    ensures next % 4 == 0 && forall k :: next <= k < data.Length ==> data[k] == 0
  {
    ghost var before, slot := data[..offset], Slot(s);
    SlotSize(s);
    var i := 0;
    while i < |s|
      invariant i <= |s| && data[..offset] == before
      invariant forall k :: offset <= k < offset + 2 * i ==> data[k] == slot[k - offset]
      invariant forall k :: offset + 2 * i <= k < data.Length ==> data[k] == 0
    {
      WideAt(s, i);
      data[offset + i * 2] := s[i];
      data[offset + i * 2 + 1] := 0;
      i := i + 1;
    }
    AlignSlot(offset, s);
    next := Align(offset + 2 * |s|);
    assert data[..next] == before + slot;
  }

  lemma WideAt(s: seq<byte>, i: nat)
    requires i < |s|
    ensures Slot(s)[2 * i] == s[i] && Slot(s)[2 * i + 1] == 0
  {
  }

  /** What a string takes: every character followed by a zero, and then zeros up to the next multiple of four bytes, no further. */
  lemma SlotBytes(s: seq<byte>, k: nat)
    requires k < |Slot(s)|
    ensures |Slot(s)| % 4 == 0 && 2 * |s| <= |Slot(s)| < 2 * |s| + 4
    ensures Slot(s)[k] == if k % 2 == 0 && k < 2 * |s| then s[k / 2] else 0
  {
    SlotSize(s);
  }

  /** A part of the request is laid out and pointed at only when its string has characters. */
  method PutField(data: array<byte>, offset: nat, s: seq<byte>) returns (next: nat, field: Extent)
    requires offset % 4 == 0 && offset + |Slot(s)| <= data.Length
    requires forall k :: offset <= k < data.Length ==> data[k] == 0
    modifies data
    ensures next == offset + |Slot(s)| && data[..next] == old(data[..offset]) + Slot(s)
    ensures next % 4 == 0 && forall k :: next <= k < data.Length ==> data[k] == 0
    ensures field == ExtentAt(offset, s)
  {
    next, field := offset, Extent(0, 0);
    if |s| > 0 {
      field := Extent(offset + HEADER, 2 * |s|);
      next := PutString(data, offset, s);
    } else {
      assert Slot(s) == [];
      assert data[..offset] + [] == data[..offset];
    }
  }

  /** The three strings, one after the other. */
  method FillData(data: array<byte>, apn: seq<byte>, user: seq<byte>, password: seq<byte>)
    returns (access: Extent, name: Extent, secret: Extent)
    requires data[..] == Zeros(|Layout(apn, user, password)|)
    modifies data
    ensures data[..] == Layout(apn, user, password)
    ensures access == ExtentAt(0, apn)
    ensures name == ExtentAt(|Slot(apn)|, user)
    ensures secret == ExtentAt(|Slot(apn)| + |Slot(user)|, password)
  {
    assert forall k :: 0 <= k < data.Length ==> data[..][k] == 0;
    ghost var a, u, p := Slot(apn), Slot(user), Slot(password);
    var offset := 0;
    offset, access := PutField(data, offset, apn);
    assert data[..offset] == a;
    offset, name := PutField(data, offset, user);
    assert data[..offset] == a + u;
    offset, secret := PutField(data, offset, password);
    assert data[..] == data[..offset];
  }

  method PopulateConnectData(apn: Option<seq<byte>>, user: Option<seq<byte>>, password: Option<seq<byte>>)
    returns (req: ConnectRequest, buflen: nat)
    ensures fresh(req) && fresh(req.data) && buflen == req.data.Length
    ensures req.Holds(Text(apn), Text(user), Text(password))
  {
    buflen := BufferLength(Text(apn), Text(user), Text(password));
    req := new ConnectRequest(buflen);
    var access, name, secret := FillData(req.data, Text(apn), Text(user), Text(password));
    req.access, req.user, req.password := access, name, secret;
  }

  /** The characters at an extent of a message: every other byte. */
  function Segment(msg: seq<byte>, e: Extent): seq<byte>
    requires e.offset + e.size <= |msg|
  {
    seq(e.size / 2, k requires 0 <= k < e.size / 2 => msg[e.offset + 2 * k])
  }

  /** The reader's one buffer; the string it returns ends at the zero it writes. */
  method GetSegment(buff: array<byte>, msg: seq<byte>, offset: nat, len: nat) returns (end: nat)
    requires buff.Length == 256 && len / 2 < 256 && offset + len <= |msg|
    modifies buff
    ensures end == len / 2 && buff[..end] == Segment(msg, Extent(offset, len)) && buff[end] == 0
  {
    var idx := 0;
    while idx < len / 2
      invariant idx <= len / 2
      invariant forall k :: 0 <= k < idx ==> buff[k] == msg[offset + 2 * k]
    {
      buff[idx] := msg[offset + idx * 2];
      idx := idx + 1;
    }
    buff[idx] := 0;
    end := idx;
  }

  /** Two extents that both point at something have no byte in common. */
  ghost predicate Apart(d: Extent, e: Extent) {
    d.size > 0 && e.size > 0 ==> d.offset + d.size <= e.offset || e.offset + e.size <= d.offset
  }

  /** An extent is aligned, behind the fixed part, and inside a message of `n` bytes; or it is absent. */
  ghost predicate Placed(e: Extent, s: seq<byte>, n: nat) {
    if s == [] then e == Extent(0, 0)
    else e.offset % 4 == 0 && e.size == 2 * |s| && HEADER <= e.offset && e.offset + e.size <= n
  }

  lemma ExtentIsPlaced(at: nat, s: seq<byte>, n: nat)
    requires at % 4 == 0 && at + |Slot(s)| <= n
    ensures Placed(ExtentAt(at, s), s, HEADER + n)
    ensures s != [] ==> HEADER + at == ExtentAt(at, s).offset && ExtentAt(at, s).offset + ExtentAt(at, s).size <= HEADER + at + |Slot(s)|
  {
    SlotSize(s);
  }

  lemma Multiple(x: nat, y: nat)
    requires x % 4 == 0 && y % 4 == 0
    ensures (x + y) % 4 == 0
  {
  }

  /** The three extents of a request, whatever the strings. */
  lemma RequestIsPlaced(apn: seq<byte>, user: seq<byte>, password: seq<byte>)
    ensures var n, a, u := HEADER + |Layout(apn, user, password)|, |Slot(apn)|, |Slot(apn)| + |Slot(user)|;
      && Placed(ExtentAt(0, apn), apn, n) && Placed(ExtentAt(a, user), user, n) && Placed(ExtentAt(u, password), password, n)
      && Apart(ExtentAt(0, apn), ExtentAt(a, user)) && Apart(ExtentAt(0, apn), ExtentAt(u, password))
      && Apart(ExtentAt(a, user), ExtentAt(u, password))
  {
    var n, a, u := |Layout(apn, user, password)|, |Slot(apn)|, |Slot(apn)| + |Slot(user)|;
    SlotSize(apn);
    SlotSize(user);
    Multiple(|Slot(apn)|, |Slot(user)|);
    ExtentIsPlaced(0, apn, n);
    ExtentIsPlaced(a, user, n);
    ExtentIsPlaced(u, password, n);
  }

  lemma SegmentOfSlot(msg: seq<byte>, before: seq<byte>, s: seq<byte>, after: seq<byte>)
    requires |msg| == HEADER + |before| + |Slot(s)| + |after| && msg[HEADER..] == before + Slot(s) + after
    ensures var e := ExtentAt(|before|, s); e.offset + e.size <= |msg| && Segment(msg, e) == s
  {
    forall k | 0 <= k < |s| ensures msg[HEADER + |before| + 2 * k] == s[k] {
      WideAt(s, k);
      assert msg[HEADER..][|before| + 2 * k] == Slot(s)[2 * k];
    }
  }

  /** Whatever the fixed part holds, reading each extent of the request gives its string back. */
  lemma SegmentsRoundTrip(msg: seq<byte>, apn: seq<byte>, user: seq<byte>, password: seq<byte>)
    requires |msg| == HEADER + |Layout(apn, user, password)| && msg[HEADER..] == Layout(apn, user, password)
    ensures var a, u, p := ExtentAt(0, apn), ExtentAt(|Slot(apn)|, user), ExtentAt(|Slot(apn)| + |Slot(user)|, password);
      && a.offset + a.size <= |msg| && u.offset + u.size <= |msg| && p.offset + p.size <= |msg|
      && Segment(msg, a) == apn && Segment(msg, u) == user && Segment(msg, p) == password
  {
    var x, y, z := Slot(apn), Slot(user), Slot(password);
    assert x + y + z == [] + x + (y + z);
    SegmentOfSlot(msg, [], apn, y + z);
    assert x + y + z == x + y + z;
    SegmentOfSlot(msg, x, user, z);
    assert x + y + z == (x + y) + z + [];
    SegmentOfSlot(msg, x + y, password, []);
  }
}
