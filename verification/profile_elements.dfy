/**
 What the elements of the two requests hold, type by type.
 */
module ProfileElements {
  import opened Prelude
  import opened Tlv
  import opened Profile

  /** The bytes are the characters of the string. */
  predicate Spells(v: seq<byte>, s: string) {
    |v| == |s| && forall i :: 0 <= i < |s| ==> v[i] == s[i] as int
  }

  /** The profile has neither a user name nor a password. */
  predicate NoLogin(p: Profile) {
    (p.user.None? || |p.user.value| == 0) && (p.password.None? || |p.password.value| == 0)
  }

  /** The types of a list, in order. */
  function Types(ts: Tlvs): seq<byte> {
    if ts.Nil? then [] else [ts.head.ty] + Types(ts.tail)
  }

  /** The type, if the list has an element of it. */
  function Has(ts: Tlvs, ty: byte): seq<byte> {
    if Lookup(ts, ty).Some? then [ty] else []
  }

  lemma LookupOpt(present: bool, t: Tlv, rest: Tlvs, ty: byte)
    ensures Lookup(Opt(present, t, rest), ty) == if present && t.ty == ty then Some(t.value) else Lookup(rest, ty)
    ensures Types(Opt(present, t, rest)) == (if present then [t.ty] else []) + Types(rest)
  {
  }

  lemma LookupOptString(at: byte, s: Option<CString>, rest: Tlvs, ty: byte)
    ensures Lookup(OptString(at, s, rest), ty) == if s.Some? && at == ty then Some(s.value) else Lookup(rest, ty)
    ensures Types(OptString(at, s, rest)) == (if s.Some? then [at] else []) + Types(rest)
  {
  }

  lemma LoginTypes(l: Login, userTy: byte, passwordTy: byte, authTy: byte, rest: Tlvs)
    ensures Types(LoginTlvs(l, userTy, passwordTy, authTy, rest))
         == (if l.user.Some? then [userTy] else []) + (if l.password.Some? then [passwordTy] else [])
            + (if l.user.Some? && l.password.Some? then [authTy] else []) + Types(rest)
  {
    var auth := Opt(l.user.Some? && l.password.Some?, Tlv(authTy, [ToByte(l.auth)]), rest);
    LookupOpt(l.user.Some? && l.password.Some?, Tlv(authTy, [ToByte(l.auth)]), rest, 0);
    LookupOptString(passwordTy, l.password, auth, 0);
    LookupOptString(userTy, l.user, OptString(passwordTy, l.password, auth), 0);
  }

  /** The elements behind the login of a request to start a call. */
  function Behind(p: Profile, cdma: bool): Tlvs {
    Cons(Tlv(0x19, [ToByte(p.curIpFamily)]), Opt(p.pdp != 0 && !cdma, Tlv(0x31, [ToByte(p.pdp)]), Nil))
  }

  lemma LookupBehind(p: Profile, cdma: bool, ty: byte)
    ensures Lookup(Behind(p, cdma), ty)
         == if ty == 0x19 then Some([ToByte(p.curIpFamily)])
            else if ty == 0x31 && p.pdp != 0 && !cdma then Some([ToByte(p.pdp)]) else None
    ensures Types(Behind(p, cdma)) == [0x19] + if p.pdp != 0 && !cdma then [0x31] else []
  {
    LookupOpt(p.pdp != 0 && !cdma, Tlv(0x31, [ToByte(p.pdp)]), Nil, ty);
  }

  lemma LookupStart(p: Profile, cdma: bool, ty: byte)
    ensures var l := LoginOf(p, cdma);
      Lookup(StartTlvs(p, cdma), ty)
      == if ty == 0x30 then Some([if cdma then 2 else 1])
         else if ty == 0x14 && !cdma && p.apn.Some? then Some(p.apn.value)
         else if ty == 0x17 && l.user.Some? then Some(l.user.value)
         else if ty == 0x18 && l.password.Some? then Some(l.password.value)
         else if ty == 0x16 && l.user.Some? && l.password.Some? then Some([ToByte(l.auth)])
         else Lookup(Behind(p, cdma), ty)
    ensures Types(StartTlvs(p, cdma))
         == [0x30] + (if !cdma && p.apn.Some? then [0x14] else [])
            + Types(LoginTlvs(LoginOf(p, cdma), 0x17, 0x18, 0x16, Behind(p, cdma)))
  {
    var login := LoginTlvs(LoginOf(p, cdma), 0x17, 0x18, 0x16, Behind(p, cdma));
    LookupLogin(LoginOf(p, cdma), 0x17, 0x18, 0x16, Behind(p, cdma), ty);
    LookupOptString(0x14, if cdma then None else p.apn, login, ty);
  }

  /**
   A request to start a call holds the technology, the name of the access point, the family and the index of
   the profile; with CDMA there is no access point and no index. Besides these only the login is there.
   */
  lemma StartElements(p: Profile, cdma: bool)
    ensures var ts := StartTlvs(p, cdma);
      && Lookup(ts, 0x30) == Some([if cdma then 2 else 1])
      && Lookup(ts, 0x14) == (if cdma then None else p.apn)
      && Lookup(ts, 0x19) == Some([p.curIpFamily % 0x100])
      && Lookup(ts, 0x31) == (if p.pdp == 0 || cdma then None else Some([p.pdp % 0x100]))
      && forall ty: byte :: ty !in {0x30, 0x14, 0x17, 0x18, 0x16, 0x19, 0x31} ==> Lookup(ts, ty) == None
  {
    forall ty: byte | ty !in {0x30, 0x14, 0x17, 0x18, 0x16, 0x19, 0x31} ensures Lookup(StartTlvs(p, cdma), ty) == None {
      LookupStart(p, cdma, ty);
      LookupBehind(p, cdma, ty);
    }
    LookupStart(p, cdma, 0x30);
    LookupStart(p, cdma, 0x14);
    LookupBehind(p, cdma, 0x14);
    LookupStart(p, cdma, 0x19);
    LookupBehind(p, cdma, 0x19);
    LookupStart(p, cdma, 0x31);
    LookupBehind(p, cdma, 0x31);
  }

  lemma LoginIs(p: Profile, cdma: bool)
    ensures var l := LoginOf(p, cdma);
      if cdma && NoLogin(p) then
        && l.user.Some? && Spells(l.user.value, "ctnet@mycdma.cn") && l.password.Some? && Spells(l.password.value, "vnet.mobi")
        && l.auth == 2
      else l == Login(p.user, p.password, p.auth)
  {
  }

  /**
   It holds the user name under 0x17, the password under 0x18 and, if there are both, the kind of
   authentication under 0x16: those of the profile, or with CDMA and none in the profile the supplied ones.
   */
  lemma StartLogin(p: Profile, cdma: bool)
    ensures var ts := StartTlvs(p, cdma);
      if cdma && NoLogin(p) then
        && Lookup(ts, 0x17).Some? && Spells(Lookup(ts, 0x17).value, "ctnet@mycdma.cn")
        && Lookup(ts, 0x18).Some? && Spells(Lookup(ts, 0x18).value, "vnet.mobi")
        && Lookup(ts, 0x16) == Some([2])
      else
        && Lookup(ts, 0x17) == p.user && Lookup(ts, 0x18) == p.password
        && Lookup(ts, 0x16) == if p.user.Some? && p.password.Some? then Some([p.auth % 0x100]) else None
  {
    LoginIs(p, cdma);
    LookupStart(p, cdma, 0x16);
    LookupBehind(p, cdma, 0x16);
    LookupStart(p, cdma, 0x17);
    LookupBehind(p, cdma, 0x17);
    LookupStart(p, cdma, 0x18);
    LookupBehind(p, cdma, 0x18);
  }

  /** It holds each of these at most once, in this order. */
  lemma StartOrder(p: Profile, cdma: bool)
    ensures var ts := StartTlvs(p, cdma);
      Types(ts) == Has(ts, 0x30) + Has(ts, 0x14) + Has(ts, 0x17) + Has(ts, 0x18) + Has(ts, 0x16) + Has(ts, 0x19) + Has(ts, 0x31)
  {
    var ts := StartTlvs(p, cdma);
    StartNames(p, cdma);
    StartOthers(p, cdma);
    LoginTypes(LoginOf(p, cdma), 0x17, 0x18, 0x16, Behind(p, cdma));
    LookupStart(p, cdma, 0);
    LookupBehind(p, cdma, 0);
    Regrouped(Has(ts, 0x30), Has(ts, 0x14), Has(ts, 0x17), Has(ts, 0x18), Has(ts, 0x16), Has(ts, 0x19), Has(ts, 0x31));
  }

  lemma Regrouped(a: seq<byte>, b: seq<byte>, c: seq<byte>, d: seq<byte>, e: seq<byte>, f: seq<byte>, g: seq<byte>)
    ensures a + b + (c + d + e + (f + g)) == a + b + c + d + e + f + g
  {
  }

  lemma StartOthers(p: Profile, cdma: bool)
    ensures var ts := StartTlvs(p, cdma);
      && Has(ts, 0x30) == [0x30] && Has(ts, 0x14) == (if !cdma && p.apn.Some? then [0x14] else [])
      && Has(ts, 0x19) == [0x19] && Has(ts, 0x31) == if p.pdp != 0 && !cdma then [0x31] else []
  {
    StartElements(p, cdma);
  }

  lemma StartNames(p: Profile, cdma: bool)
    ensures var ts, l := StartTlvs(p, cdma), LoginOf(p, cdma);
      && Has(ts, 0x17) == (if l.user.Some? then [0x17] else []) && Has(ts, 0x18) == (if l.password.Some? then [0x18] else [])
      && Has(ts, 0x16) == if l.user.Some? && l.password.Some? then [0x16] else []
  {
    LookupStart(p, cdma, 0x16);
    LookupBehind(p, cdma, 0x16);
    LookupStart(p, cdma, 0x17);
    LookupBehind(p, cdma, 0x17);
    LookupStart(p, cdma, 0x18);
    LookupBehind(p, cdma, 0x18);
  }

  lemma LookupModified(p: Profile, ty: byte)
    ensures Lookup(ModifyTlvs(p), ty)
         == if ty == 0x01 then Some([0, ToByte(p.pdp)]) else if ty == 0x11 then Some([PdpType(p)])
            else if ty == 0x14 && p.apn.Some? then Some(p.apn.value)
            else if ty == 0x1B && p.user.Some? then Some(p.user.value)
            else if ty == 0x1C && p.password.Some? then Some(p.password.value)
            else if ty == 0x1D && p.user.Some? && p.password.Some? then Some([ToByte(p.auth)])
            else None
  {
    if ty != 0x01 && ty != 0x11 {
      LookupModify(p, ty);
      LookupLogin(Login(p.user, p.password, p.auth), 0x1B, 0x1C, 0x1D, Nil, ty);
    }
  }

  lemma ModifiedTypes(p: Profile)
    ensures Types(ModifyTlvs(p)) == [0x01, 0x11] + (if p.apn.Some? then [0x14] else [])
      + Types(LoginTlvs(Login(p.user, p.password, p.auth), 0x1B, 0x1C, 0x1D, Nil))
  {
    var login := LoginTlvs(Login(p.user, p.password, p.auth), 0x1B, 0x1C, 0x1D, Nil);
    var rest := OptString(0x14, p.apn, login);
    LookupOptString(0x14, p.apn, login, 0);
    assert Types(Cons(Tlv(0x11, [PdpType(p)]), rest)) == [0x11] + Types(rest);
  }

  /**
   A request to store a profile holds its index behind the kind of profile, 0; the kind of address, 3 for both
   families, 2 for IPv6 and 0 for IPv4 alone; the name of the access point, the user name, the password, and
   the kind of authentication if there are both.
   */
  lemma ModifyElements(p: Profile)
    ensures var ts := ModifyTlvs(p);
      && Lookup(ts, 0x01) == Some([0, p.pdp % 0x100])
      && Lookup(ts, 0x11) == Some([if !p.enableIpv6 then 0 else if p.enableIpv4 then 3 else 2])
      && Lookup(ts, 0x14) == p.apn && Lookup(ts, 0x1B) == p.user && Lookup(ts, 0x1C) == p.password
      && Lookup(ts, 0x1D) == (if p.user.Some? && p.password.Some? then Some([p.auth % 0x100]) else None)
      && forall ty: byte :: ty !in {0x01, 0x11, 0x14, 0x1B, 0x1C, 0x1D} ==> Lookup(ts, ty) == None
  {
    forall ty: byte | ty !in {0x01, 0x11, 0x14, 0x1B, 0x1C, 0x1D} ensures Lookup(ModifyTlvs(p), ty) == None {
      LookupModified(p, ty);
    }
    LookupModified(p, 0x01);
    LookupModified(p, 0x11);
    LookupModified(p, 0x14);
    LookupModified(p, 0x1B);
    LookupModified(p, 0x1C);
    LookupModified(p, 0x1D);
  }

  /** It holds each of these at most once, in this order. */
  lemma ModifyOrder(p: Profile)
    ensures var ts := ModifyTlvs(p);
      Types(ts) == Has(ts, 0x01) + Has(ts, 0x11) + Has(ts, 0x14) + Has(ts, 0x1B) + Has(ts, 0x1C) + Has(ts, 0x1D)
  {
    ModifyElements(p);
    ModifiedTypes(p);
    LoginTypes(Login(p.user, p.password, p.auth), 0x1B, 0x1C, 0x1D, Nil);
  }
}
