/**
 Building QMI requests in a fixed buffer: strings are copied with their terminator, which the next
 element overwrites. What leaves the buffer is exactly the intended list of elements, and reading a
 profile back recovers it.
 */
module Profile {
  import opened Prelude
  import opened Tlv
  import Slot

  const BUFSIZE := 256
  /** Where the elements start: behind the QMI, QMUX and message headers. */
  const BODY := 13

  /** A C string without its terminator. */
  type CString = s: seq<byte> | 0 !in s

  datatype Profile = Profile(
    apn: Option<CString>,
    user: Option<CString>,
    password: Option<CString>,
    auth: int,
    pdp: int,
    curIpFamily: int,
    enableIpv4: bool,
    enableIpv6: bool)

  function Ascii(s: string): (b: CString)
    requires forall i :: 0 <= i < |s| ==> 0 < s[i] as int < 0x80
  {
    seq(|s|, i requires 0 <= i < |s| => s[i] as int)
  }

  predicate Blank(s: Option<CString>) {
    s.None? || s.value == []
  }

  datatype Login = Login(user: Option<CString>, password: Option<CString>, auth: int)

  /** A CDMA network gets a default login when the profile has none. */
  function LoginOf(p: Profile, cdma: bool): Login {
    if cdma && Blank(p.user) && Blank(p.password)
    then Login(Some(Ascii("ctnet@mycdma.cn")), Some(Ascii("vnet.mobi")), 2)
    else Login(p.user, p.password, p.auth)
  }

  /** An optional element in front of a list. */
  function Opt(present: bool, t: Tlv, rest: Tlvs): Tlvs {
    if present then Cons(t, rest) else rest
  }

  function OptString(ty: byte, s: Option<CString>, rest: Tlvs): Tlvs {
    if s.Some? then Cons(Tlv(ty, s.value), rest) else rest
  }

  /** User name and password, each if there is one, and the authentication type if there are both. */
  function LoginTlvs(l: Login, userTy: byte, passwordTy: byte, authTy: byte, rest: Tlvs): Tlvs {
    OptString(userTy, l.user,
    OptString(passwordTy, l.password,
    Opt(l.user.Some? && l.password.Some?, Tlv(authTy, [ToByte(l.auth)]), rest)))
  }

  /** The elements of a request to start the data call. */
  function StartTlvs(p: Profile, cdma: bool): Tlvs {
    Cons(Tlv(0x30, [if cdma then 2 else 1]),
    OptString(0x14, if cdma then None else p.apn,
    LoginTlvs(LoginOf(p, cdma), 0x17, 0x18, 0x16,
    Cons(Tlv(0x19, [ToByte(p.curIpFamily)]),
    Opt(p.pdp != 0 && !cdma, Tlv(0x31, [ToByte(p.pdp)]), Nil)))))
  }

  function PdpType(p: Profile): byte {
    if p.enableIpv4 && p.enableIpv6 then 3 else if p.enableIpv6 then 2 else 0
  }

  /** The elements of a request to store the profile in the modem. */
  function ModifyTlvs(p: Profile): Tlvs {
    Cons(Tlv(0x01, [0, ToByte(p.pdp)]),
    Cons(Tlv(0x11, [PdpType(p)]),
    OptString(0x14, p.apn,
    LoginTlvs(Login(p.user, p.password, p.auth), 0x1B, 0x1C, 0x1D, Nil))))
  }

  /** `qstrcpy`: the characters and the terminator behind them. */
  method QStrCpy(buf: array<byte>, at: nat, s: CString)
    requires at + |s| < buf.Length
    modifies buf
    ensures buf[..at + |s|] == old(buf[..at]) + s
    ensures buf[at + |s|] == 0
  {
    var i := 0;
    while i < |s|
      invariant i <= |s|
      invariant buf[..at + i] == old(buf[..at]) + s[..i]
    {
      buf[at + i] := s[i];
      i := i + 1;
    }
    buf[at + i] := 0;
    assert s[..|s|] == s;
  }

  method PutHeader(buf: array<byte>, at: nat, ty: byte, n: nat)
    requires at + HDR <= buf.Length
    modifies buf
    ensures buf[..at + HDR] == old(buf[..at]) + [ty, Lo(n), Hi(n)]
  {
    buf[at] := ty;
    buf[at + 1] := Lo(n);
    buf[at + 2] := Hi(n);
  }

  /** A one-byte element if it is called for, followed by `rest` once that is written. */
  method PutByte(buf: array<byte>, at: nat, present: bool, ty: byte, v: byte, ghost rest: Tlvs) returns (next: nat)
    requires at + |Encode(Opt(present, Tlv(ty, [v]), rest))| <= buf.Length
    modifies buf
    ensures at <= next && next + |Encode(rest)| == at + |Encode(Opt(present, Tlv(ty, [v]), rest))|
    ensures buf[..next] + Encode(rest) == old(buf[..at]) + Encode(Opt(present, Tlv(ty, [v]), rest))
  {
    next := at;
    if present {
      PutHeader(buf, at, ty, 1);
      buf[at + HDR] := v;
      next := at + HDR + 1;
      assert buf[..next] == buf[..at + HDR] + [v];
      assert buf[..next] == old(buf[..at]) + EncodeOne(Tlv(ty, [v]));
    }
  }

  /**
   A string element if the string is there, followed by `rest` once that is written. The terminator
   lands on the byte behind the string, which must still be in the buffer even when the string comes last.
   */
  method PutString(buf: array<byte>, at: nat, ty: byte, s: Option<CString>, ghost rest: Tlvs) returns (next: nat)
    requires at + |Encode(OptString(ty, s, rest))| <= buf.Length
    requires s.Some? && rest.Nil? ==> at + |Encode(OptString(ty, s, rest))| < buf.Length
    modifies buf
    ensures at <= next && next + |Encode(rest)| == at + |Encode(OptString(ty, s, rest))|
    ensures buf[..next] + Encode(rest) == old(buf[..at]) + Encode(OptString(ty, s, rest))
  {
    next := at;
    if s.Some? {
      PutHeader(buf, at, ty, |s.value|);
      QStrCpy(buf, at + HDR, s.value);
      next := at + HDR + |s.value|;
      assert buf[..next] == old(buf[..at]) + EncodeOne(Tlv(ty, s.value));
    }
  }

  /** A user name or a password, but not both: no authentication type follows. */
  predicate OneName(l: Login) {
    l.user.Some? != l.password.Some?
  }

  method PutLogin(buf: array<byte>, at: nat, l: Login, userTy: byte, passwordTy: byte, authTy: byte, ghost rest: Tlvs)
    returns (next: nat)
    requires at + |Encode(LoginTlvs(l, userTy, passwordTy, authTy, rest))| <= buf.Length
    requires rest.Nil? && OneName(l) ==> at + |Encode(LoginTlvs(l, userTy, passwordTy, authTy, rest))| < buf.Length
    modifies buf
    ensures at <= next && next + |Encode(rest)| == at + |Encode(LoginTlvs(l, userTy, passwordTy, authTy, rest))|
    ensures buf[..next] + Encode(rest)
         == old(buf[..at]) + Encode(LoginTlvs(l, userTy, passwordTy, authTy, rest))
  {
    var hasAuth := l.user.Some? && l.password.Some?;
    ghost var auth := Opt(hasAuth, Tlv(authTy, [ToByte(l.auth)]), rest);
    ghost var password := OptString(passwordTy, l.password, auth);
    next := PutString(buf, at, userTy, l.user, password);
    next := PutString(buf, next, passwordTy, l.password, auth);
    next := PutByte(buf, next, hasAuth, authTy, ToByte(l.auth), rest);
  }

  method WdsStartNwInterfaceReq(buf: array<byte>, p: Profile, cdma: bool) returns (len: nat)
    requires buf.Length == BUFSIZE && BODY + |Encode(StartTlvs(p, cdma))| <= BUFSIZE
    modifies buf
    ensures len == 4 + |Encode(StartTlvs(p, cdma))|
    ensures buf[..BODY - 4 + len] == old(buf[..BODY]) + Encode(StartTlvs(p, cdma))
  {
    var l, hasIndex := LoginOf(p, cdma), p.pdp != 0 && !cdma;
    ghost var index := Opt(hasIndex, Tlv(0x31, [ToByte(p.pdp)]), Nil);
    ghost var family := Opt(true, Tlv(0x19, [ToByte(p.curIpFamily)]), index);
    ghost var login := LoginTlvs(l, 0x17, 0x18, 0x16, family);
    ghost var apn := OptString(0x14, if cdma then None else p.apn, login);
    var at := PutByte(buf, BODY, true, 0x30, if cdma then 2 else 1, apn);
    at := PutString(buf, at, 0x14, if cdma then None else p.apn, login);
    at := PutLogin(buf, at, l, 0x17, 0x18, 0x16, family);
    at := PutByte(buf, at, true, 0x19, ToByte(p.curIpFamily), index);
    at := PutByte(buf, at, hasIndex, 0x31, ToByte(p.pdp), Nil);
    assert buf[..at] + Encode(Nil) == buf[..at];
    len := 4 + at - BODY;
  }

  method PutProfileId(buf: array<byte>, index: byte)
    requires buf.Length == BUFSIZE
    modifies buf
    ensures buf[..BODY + 5] == old(buf[..BODY]) + EncodeOne(Tlv(0x01, [0, index]))
  {
    PutHeader(buf, BODY, 0x01, 2);
    buf[BODY + 3] := 0;
    buf[BODY + 4] := index;
    assert buf[..BODY + 5] == buf[..BODY + 3] + [0, index];
  }

  /** The last element of a stored profile is a string, whose terminator lands behind the message. */
  predicate EndsInString(p: Profile) {
    (p.apn.Some? || p.user.Some? || p.password.Some?) && !(p.user.Some? && p.password.Some?)
  }

  method WdsModifyProfileSettingsReq(buf: array<byte>, p: Profile) returns (len: nat)
    requires buf.Length == BUFSIZE && BODY + |Encode(ModifyTlvs(p))| <= BUFSIZE
    requires EndsInString(p) ==> BODY + |Encode(ModifyTlvs(p))| < BUFSIZE
    modifies buf
    ensures len == 4 + |Encode(ModifyTlvs(p))|
    ensures buf[..BODY - 4 + len] == old(buf[..BODY]) + Encode(ModifyTlvs(p))
  {
    var l := Login(p.user, p.password, p.auth);
    ghost var login := LoginTlvs(l, 0x1B, 0x1C, 0x1D, Nil);
    ghost var apn := OptString(0x14, p.apn, login);
    PutProfileId(buf, ToByte(p.pdp));
    var at := PutByte(buf, BODY + 5, true, 0x11, PdpType(p), apn);
    at := PutString(buf, at, 0x14, p.apn, login);
    at := PutLogin(buf, at, l, 0x1B, 0x1C, 0x1D, Nil);
    assert buf[..at] + Encode(Nil) == buf[..at];
    len := 4 + at - BODY;
  }

  // ---------- whole messages ----------

  datatype Request = Plain | StartNetwork(start: Profile, cdma: bool) | ModifyProfile(stored: Profile)

  function BodyOf(r: Request): Tlvs {
    match r
    case Plain => Nil
    case StartNetwork(p, cdma) => StartTlvs(p, cdma)
    case ModifyProfile(p) => ModifyTlvs(p)
  }

  /** The message fits the buffer, with the terminator of a string that comes last. */
  predicate Fits(r: Request) {
    BODY + |Encode(BodyOf(r))| + (if r.ModifyProfile? && EndsInString(r.stored) then 1 else 0) <= BUFSIZE
  }

  /** Interface type, lengths, service, client id, transaction id and message type of a message. */
  function Header(service: byte, clientId: byte, tid: nat, msgType: nat, n: nat): (h: seq<byte>)
    ensures |h| == BODY
  {
    [1, Lo(n + 12), Hi(n + 12), 0, service, clientId, 0, Lo(tid), Hi(tid), Lo(msgType), Hi(msgType), Lo(n), Hi(n)]
  }

  function MessageBytes(service: byte, clientId: byte, tid: nat, msgType: nat, body: seq<byte>): seq<byte> {
    Header(service, clientId, tid, msgType, |body|) + body
  }

  /** The fields of a message by which its answer is matched. */
  function FrameOf(msg: seq<byte>): Slot.Frame
    requires |msg| >= BODY
  {
    Slot.Frame(msg[4], msg[5], Word(msg[7], msg[8]))
  }

  /** The header without its lengths. */
  predicate Prefix(h: seq<byte>, service: byte, clientId: byte, tid: nat, msgType: nat)
    requires |h| == BODY
  {
    && h[0] == 1 && h[3] == 0 && h[4] == service && h[5] == clientId && h[6] == 0
    && h[7] == Lo(tid) && h[8] == Hi(tid) && h[9] == Lo(msgType) && h[10] == Hi(msgType)
  }

  lemma HeaderIs(h: seq<byte>, service: byte, clientId: byte, tid: nat, msgType: nat, n: nat)
    requires |h| == BODY && Prefix(h, service, clientId, tid, msgType)
    requires h[1] == Lo(n + 12) && h[2] == Hi(n + 12) && h[11] == Lo(n) && h[12] == Hi(n)
    ensures h == Header(service, clientId, tid, msgType, n)
  {
  }

  method PutPrefix(buf: array<byte>, service: byte, clientId: byte, tid: nat, msgType: nat)
    requires buf.Length == BUFSIZE
    modifies buf
    ensures Prefix(buf[..BODY], service, clientId, tid, msgType)
  {
    buf[0], buf[3], buf[4], buf[5], buf[6] := 1, 0, service, clientId, 0;
    buf[7], buf[8] := Lo(tid), Hi(tid);
    buf[9], buf[10] := Lo(msgType), Hi(msgType);
  }

  method PutLengths(buf: array<byte>, n: nat)
    requires buf.Length == BUFSIZE && BODY + n <= BUFSIZE
    modifies buf
    ensures forall i :: 0 <= i < BODY + n && i !in {1, 2, 11, 12} ==> buf[i] == old(buf[i])
    ensures buf[1] == Lo(n + 12) && buf[2] == Hi(n + 12) && buf[11] == Lo(n) && buf[12] == Hi(n)
  {
    buf[11], buf[12] := Lo(n), Hi(n);
    buf[1], buf[2] := Lo(n + 12), Hi(n + 12);
  }

  class Composer {
    /** The last transaction id handed out. */
    var transactionId: nat
    /** The client id held for each service type, 0 for none. */
    var clientIds: map<byte, int>

    constructor (clientIds: map<byte, int>)
      ensures transactionId == 0 && this.clientIds == clientIds
    {
      transactionId := 0;
      this.clientIds := clientIds;
    }

    method GetQMUXTransactionId() returns (tid: nat)
      modifies this`transactionId
      ensures tid == transactionId == Slot.NextId(old(transactionId), false)
    {
      transactionId := Slot.Advance(transactionId, 0xFFFF);
      tid := transactionId;
    }

    method FillBody(buf: array<byte>, r: Request) returns (len: nat)
      requires buf.Length == BUFSIZE && Fits(r)
      modifies buf
      ensures len == |Encode(BodyOf(r))|
      ensures buf[..BODY + len] == old(buf[..BODY]) + Encode(BodyOf(r))
    {
      match r
      case Plain =>
        len := 0;
      case StartNetwork(p, cdma) =>
        len := WdsStartNwInterfaceReq(buf, p, cdma);
        len := len - 4;
      case ModifyProfile(p) =>
        len := WdsModifyProfileSettingsReq(buf, p);
        len := len - 4;
    }

    /** Composes a request for a service that a client id is held for. */
    method ComposeQMUXMsg(service: byte, msgType: nat, r: Request) returns (msg: Option<seq<byte>>)
      requires service in clientIds && Fits(r) && msgType < 0x10000
      modifies this`transactionId
      ensures clientIds[service] == 0 ==> msg == None && transactionId == old(transactionId)
      ensures clientIds[service] != 0 ==>
        && transactionId == Slot.NextId(old(transactionId), false)
        && msg == Some(MessageBytes(service, ToByte(clientIds[service]), transactionId, msgType, Encode(BodyOf(r))))
        && FrameOf(msg.value) == Slot.Frame(service, ToByte(clientIds[service]), transactionId)
    {
      var buf := new byte[BUFSIZE](i => 0);
      if clientIds[service] == 0 {
        return None;
      }
      var tid := GetQMUXTransactionId();
      var clientId := ToByte(clientIds[service]);
      PutPrefix(buf, service, clientId, tid, msgType);
      ghost var prefix := buf[..BODY];
      var len := FillBody(buf, r);
      ghost var filled := buf[..BODY + len];
      assert filled[..BODY] == prefix && filled[BODY..] == Encode(BodyOf(r));
      PutLengths(buf, len);
      HeaderIs(buf[..BODY], service, clientId, tid, msgType, len);
      assert buf[BODY..BODY + len] == filled[BODY..];
      assert buf[..BODY + len] == buf[..BODY] + buf[BODY..BODY + len];
      msg := Some(buf[..BODY + len]);
      HeaderFields(service, clientId, tid, msgType, Encode(BodyOf(r)));
    }
  }

  function QmiLength(msg: seq<byte>): nat
    requires |msg| >= BODY
  {
    Word(msg[1], msg[2])
  }

  function BodyLength(msg: seq<byte>): nat
    requires |msg| >= BODY
  {
    Word(msg[11], msg[12])
  }

  lemma {:induction false} EncodeShort(ts: Tlvs)
    requires |Encode(ts)| < 0x10000
    ensures Sized(ts)
  {
    if ts.Cons? {
      EncodeShort(ts.tail);
    }
  }

  lemma HeaderFields(service: byte, clientId: byte, tid: nat, msgType: nat, body: seq<byte>)
    requires |body| + 12 < 0x10000 && tid < 0x10000
    ensures var msg := MessageBytes(service, clientId, tid, msgType, body);
      && QmiLength(msg) + 1 == |msg|
      && BodyLength(msg) == |msg| - BODY
      && msg[BODY..] == body
      && FrameOf(msg) == Slot.Frame(service, clientId, tid)
  {
    WordLoHi(|body|);
    WordLoHi(|body| + 12);
    WordLoHi(tid);
  }

  /**
   Byte by byte: interface 1; the outer length, which counts every byte but the first; no flags; service and
   client id; a request; the transaction id; the type of the message; the inner length, which counts the body.
   All numbers come with the low byte first.
   */
  lemma HeaderBytes(service: byte, clientId: byte, tid: nat, msgType: nat, body: seq<byte>)
    requires |body| + 12 < 0x10000 && tid < 0x10000 && msgType < 0x10000
    ensures var msg := MessageBytes(service, clientId, tid, msgType, body);
      && msg[0] == 1 && LowFirst(msg[1], msg[2], |msg| - 1) && msg[3] == 0
      && msg[4] == service && msg[5] == clientId && msg[6] == 0
      && LowFirst(msg[7], msg[8], tid) && LowFirst(msg[9], msg[10], msgType)
      && LowFirst(msg[11], msg[12], |msg| - 13) && msg[13..] == body
  {
    WordLoHi(|body|);
    WordLoHi(|body| + 12);
    WordLoHi(tid);
    WordLoHi(msgType);
  }

  /**
   The outer length counts every byte but the first, the inner one the body, and the body is exactly
   the list of elements that was to be sent.
   */
  lemma MessageIsNested(service: byte, clientId: byte, tid: nat, msgType: nat, ts: Tlvs)
    requires |Encode(ts)| <= BUFSIZE && tid < 0x10000
    ensures var msg := MessageBytes(service, clientId, tid, msgType, Encode(ts));
      && QmiLength(msg) + 1 == |msg|
      && BodyLength(msg) == |msg| - BODY
      && WellFormed(msg[BODY..]) && Parse(msg[BODY..]) == Some(ts)
      && FrameOf(msg) == Slot.Frame(service, clientId, tid)
  {
    HeaderFields(service, clientId, tid, msgType, Encode(ts));
    EncodeShort(ts);
    ParseEncode(ts);
  }

  // ---------- reading a profile back ----------

  /** `strndup`: what comes before the first NUL, if there is one. */
  function StrNDup(s: seq<byte>): (r: CString) {
    if s == [] || s[0] == 0 then [] else [s[0]] + StrNDup(s[1..])
  }

  lemma {:induction false} StrNDupWhole(s: CString)
    ensures StrNDup(s) == s
  {
    if s != [] {
      assert forall x :: x in s[1..] ==> x in s;
      StrNDupWhole(s[1..]);
    }
  }

  function Lookup(ts: Tlvs, ty: byte): Option<seq<byte>> {
    if ts.Nil? then None else if ts.head.ty == ty then Some(ts.head.value) else Lookup(ts.tail, ty)
  }

  lemma {:induction false} LookupAt(body: seq<byte>, from: nat, ts: Tlvs, ty: byte)
    requires from <= |body| && ParseFrom(body, from) == Some(ts)
    ensures var p := Position(ts, ty);
      if Lookup(ts, ty).None? then p == -1
      else
        && p >= 0 && from + p + HDR <= |body|
        && from + p + HDR + Word(body[from + p + 1], body[from + p + 2]) <= |body|
        && ReadAt(body, from + p).value == Lookup(ts, ty).value
    decreases ts
  {
    Peel(body, from, ts);
    if ts.Cons? && ts.head.ty != ty {
      LookupAt(body, from + HDR + |ts.head.value|, ts.tail, ty);
    }
  }

  function AsString(v: Option<seq<byte>>): Option<CString> {
    if v.None? then None else Some(StrNDup(v.value))
  }

  method GetString(body: seq<byte>, ty: byte) returns (s: Option<CString>)
    requires WellFormed(body)
    ensures s == AsString(Lookup(Parse(body).value, ty))
  {
    var at := GetTLV(body, ty);
    LookupAt(body, 0, Parse(body).value, ty);
    s := if at == -1 then None else Some(StrNDup(ReadAt(body, at).value));
  }

  datatype Settings = Settings(apn: Option<CString>, user: Option<CString>, password: Option<CString>, auth: byte)

  /** What a profile response says, given its elements. */
  function SettingsOf(ts: Tlvs): Settings {
    var auth := Lookup(ts, 0x1D);
    Settings(AsString(Lookup(ts, 0x14)), AsString(Lookup(ts, 0x1B)), AsString(Lookup(ts, 0x1C)),
             if auth.Some? && auth.value != [] then auth.value[0] else 0)
  }

  /** An authentication element, when there is one, holds a value. */
  predicate AuthSized(ts: Tlvs) {
    Lookup(ts, 0x1D) != Some([])
  }

  method RequestGetProfile(body: seq<byte>) returns (r: Settings)
    requires WellFormed(body) && AuthSized(Parse(body).value)
    ensures r == SettingsOf(Parse(body).value)
  {
    var apn := GetString(body, 0x14);
    var user := GetString(body, 0x1B);
    var password := GetString(body, 0x1C);
    var at := GetTLV(body, 0x1D);
    LookupAt(body, 0, Parse(body).value, 0x1D);
    r := Settings(apn, user, password, if at == -1 then 0 else ReadAt(body, at).value[0]);
  }

  lemma LookupLogin(l: Login, userTy: byte, passwordTy: byte, authTy: byte, rest: Tlvs, ty: byte)
    requires userTy != passwordTy && userTy != authTy && passwordTy != authTy
    ensures var ts := LoginTlvs(l, userTy, passwordTy, authTy, rest);
      Lookup(ts, ty)
      == if ty == userTy && l.user.Some? then Some(l.user.value)
         else if ty == passwordTy && l.password.Some? then Some(l.password.value)
         else if ty == authTy && l.user.Some? && l.password.Some? then Some([ToByte(l.auth)])
         else Lookup(rest, ty)
  {
    var auth := Opt(l.user.Some? && l.password.Some?, Tlv(authTy, [ToByte(l.auth)]), rest);
    var password := OptString(passwordTy, l.password, auth);
    assert Lookup(password, ty) == if ty == passwordTy && l.password.Some? then Some(l.password.value) else Lookup(auth, ty);
  }

  lemma LookupModify(p: Profile, ty: byte)
    requires ty != 0x01 && ty != 0x11
    ensures Lookup(ModifyTlvs(p), ty)
         == if ty == 0x14 && p.apn.Some? then Some(p.apn.value)
            else Lookup(LoginTlvs(Login(p.user, p.password, p.auth), 0x1B, 0x1C, 0x1D, Nil), ty)
  {
    var login := LoginTlvs(Login(p.user, p.password, p.auth), 0x1B, 0x1C, 0x1D, Nil);
    var apn := OptString(0x14, p.apn, login);
    assert Lookup(apn, ty) == if ty == 0x14 && p.apn.Some? then Some(p.apn.value) else Lookup(login, ty);
  }

  /** A stored profile reads back as it was: its strings, and its authentication type if it has both names. */
  lemma ProfileRoundTrip(p: Profile)
    ensures AuthSized(ModifyTlvs(p))
    ensures SettingsOf(ModifyTlvs(p))
         == Settings(p.apn, p.user, p.password, if p.user.Some? && p.password.Some? then ToByte(p.auth) else 0)
  {
    var l := Login(p.user, p.password, p.auth);
    forall ty | ty == 0x14 || ty == 0x1B || ty == 0x1C || ty == 0x1D
      ensures Lookup(ModifyTlvs(p), ty)
           == if ty == 0x14 && p.apn.Some? then Some(p.apn.value)
              else if ty == 0x1B && p.user.Some? then Some(p.user.value)
              else if ty == 0x1C && p.password.Some? then Some(p.password.value)
              else if ty == 0x1D && p.user.Some? && p.password.Some? then Some([ToByte(p.auth)])
              else None
    {
      LookupModify(p, ty);
      LookupLogin(l, 0x1B, 0x1C, 0x1D, Nil, ty);
    }
    if p.apn.Some? { StrNDupWhole(p.apn.value); }
    if p.user.Some? { StrNDupWhole(p.user.value); }
    if p.password.Some? { StrNDupWhole(p.password.value); }
  }
}
