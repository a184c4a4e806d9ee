/**
 The fold that turns the elements of a system-information response into the registration state.
 */
module Registration {
  import opened Prelude
  import opened Tlv

  /** `personality` is 2 for eHRPD, else 0. */
  datatype Reg = Reg(attached: bool, isLte: bool, isCdma: bool, personality: nat)

  const START := Reg(false, false, false, 0)

  predicate IsStatus(ty: byte) {
    ty == 0x10 || ty == 0x11 || ty == 0x14 || ty == 0x4A
  }

  predicate IsDomain(ty: byte) {
    ty == 0x15 || ty == 0x16 || ty == 0x17 || ty == 0x18 || ty == 0x19 || ty == 0x25 || ty == 0x4B
  }

  /** The fields the fold looks at lie inside the value. */
  predicate Readable(t: Tlv) {
    && (IsStatus(t.ty) ==> |t.value| >= 1)
    && (IsDomain(t.ty) ==> |t.value| >= 2)
    && (t.ty == 0x16 ==> |t.value| >= 12)
  }

  predicate AllReadable(ts: Tlvs) {
    ts.Nil? || (Readable(ts.head) && AllReadable(ts.tail))
  }

  predicate InService(t: Tlv)
    requires IsStatus(t.ty) && Readable(t)
  {
    t.value[0] == 2
  }

  /** The packet-switched domain is served: the valid flag is 1 and bit 1 of the domain is set. */
  predicate PacketDomain(t: Tlv)
    requires IsDomain(t.ty) && Readable(t)
  {
    t.value[0] == 1 && t.value[1] / 2 % 2 == 1
  }

  /** The first byte says that the second is valid, and bit 1 of the second that packets are served. */
  predicate ServesPackets(v: seq<byte>) {
    |v| >= 2 && v[0] == 1 && v[1] % 4 >= 2
  }

  predicate Serves(v: seq<byte>) {
    |v| >= 1 && v[0] == 2
  }

  predicate Attaches(t: Tlv) {
    Readable(t) && (0x15 <= t.ty <= 0x19 || t.ty == 0x25 || t.ty == 0x4B) && ServesPackets(t.value)
  }

  predicate SpeaksForCdma(t: Tlv) {
    Readable(t) && (((t.ty == 0x10 || t.ty == 0x11) && Serves(t.value)) || ((t.ty == 0x15 || t.ty == 0x16) && ServesPackets(t.value)))
  }

  predicate SpeaksForLte(t: Tlv) {
    Readable(t) && (((t.ty == 0x14 || t.ty == 0x4A) && Serves(t.value)) || (t.ty == 0x19 && ServesPackets(t.value)))
  }

  predicate IsEhrpd(t: Tlv) {
    Readable(t) && t.ty == 0x16 && t.value[10] == 1 && t.value[11] == 3
  }

  /** One element, as the switch handles it. */
  function Step(r: Reg, t: Tlv): Reg
    requires Readable(t)
  {
    match t.ty
    case 0x10 | 0x11 => if InService(t) then r.(isCdma := !r.isLte) else r
    case 0x14 | 0x4A => if InService(t) then r.(isLte := true, isCdma := false) else r
    case 0x15 => if PacketDomain(t) then r.(attached := true, isCdma := !r.isLte) else r
    case 0x16 =>
      var s := if PacketDomain(t) then r.(attached := true, isCdma := !r.isLte) else r;
      if s.attached && t.value[10] == 1 && t.value[11] == 3 then s.(personality := 2) else s
    case 0x19 => if PacketDomain(t) then r.(attached := true, isLte := true, isCdma := false) else r
    case 0x17 | 0x18 | 0x25 | 0x4B => if PacketDomain(t) then r.(attached := true) else r
    case _ => r
  }

  function Fold(r: Reg, ts: Tlvs): Reg
    requires AllReadable(ts)
    decreases ts
  {
    if ts.Nil? then r else Fold(Step(r, ts.head), ts.tail)
  }

  /** The walk over the body; it ends on every well-formed body. */
  method RequestRegistrationState(body: seq<byte>) returns (r: Reg)
    requires WellFormed(body) && AllReadable(Parse(body).value)
    ensures r == Fold(START, Parse(body).value)
  {
    ghost var rest := Parse(body).value;
    var remainingLen, at := |body|, 0;
    r := START;
    Peel(body, 0, rest);
    while remainingLen > 0
      invariant 0 <= at <= |body| && remainingLen == |body| - at
      invariant ParseFrom(body, at) == Some(rest) && AllReadable(rest) && (rest.Nil? <==> remainingLen == 0)
      invariant Fold(r, rest) == Fold(START, Parse(body).value)
      decreases remainingLen
    {
      Peel(body, at, rest);
      var n := Word(body[at + 1], body[at + 2]);
      r := Step(r, Tlv(body[at], body[at + HDR..at + HDR + n]));
      remainingLen := remainingLen - (n + HDR);
      at := at + n + HDR;
      rest := rest.tail;
      Peel(body, at, rest);
    }
  }

  predicate Any(ts: Tlvs, p: Tlv -> bool) {
    ts.Cons? && (p(ts.head) || Any(ts.tail, p))
  }

  /** What the fold leaves, said without order. */
  lemma {:induction false} FoldIs(r: Reg, ts: Tlvs)
    requires AllReadable(ts)
    ensures var f := Fold(r, ts);
      && (f.attached <==> r.attached || Any(ts, Attaches))
      && (f.isLte <==> r.isLte || Any(ts, SpeaksForLte))
      && (f.isCdma <==> !Any(ts, SpeaksForLte) && if Any(ts, SpeaksForCdma) then !r.isLte else r.isCdma)
    decreases ts
  {
    if ts.Cons? {
      FoldIs(Step(r, ts.head), ts.tail);
    }
  }

  /** Attached is the OR over the elements; CDMA is reported when some element speaks for it and none for LTE or NR5G. */
  lemma RegistrationIs(ts: Tlvs)
    requires AllReadable(ts)
    ensures Fold(START, ts).attached <==> Any(ts, Attaches)
    ensures Fold(START, ts).isCdma <==> Any(ts, SpeaksForCdma) && !Any(ts, SpeaksForLte)
  {
    FoldIs(START, ts);
  }

  function Elements(ts: Tlvs): multiset<Tlv> {
    if ts.Nil? then multiset{} else multiset{ts.head} + Elements(ts.tail)
  }

  lemma {:induction false} AnyIsMember(ts: Tlvs, p: Tlv -> bool)
    ensures Any(ts, p) <==> exists t :: t in Elements(ts) && p(t)
    decreases ts
  {
    if ts.Cons? {
      AnyIsMember(ts.tail, p);
      assert ts.head in Elements(ts);
      assert forall t :: t in Elements(ts.tail) ==> t in Elements(ts);
    }
  }

  /** Neither depends on the order of the elements. */
  lemma OrderDoesNotMatter(ts: Tlvs, us: Tlvs)
    requires AllReadable(ts) && AllReadable(us) && Elements(ts) == Elements(us)
    ensures Fold(START, ts).attached == Fold(START, us).attached
    ensures Fold(START, ts).isCdma == Fold(START, us).isCdma
  {
    RegistrationIs(ts);
    RegistrationIs(us);
    AnyIsMember(ts, Attaches);
    AnyIsMember(us, Attaches);
    AnyIsMember(ts, SpeaksForCdma);
    AnyIsMember(us, SpeaksForCdma);
    AnyIsMember(ts, SpeaksForLte);
    AnyIsMember(us, SpeaksForLte);
  }

  /** An element that names eHRPD at or after one that attaches. */
  predicate EhrpdCounts(ts: Tlvs, attached: bool) {
    ts.Cons?
    && var now := attached || Attaches(ts.head);
      (now && IsEhrpd(ts.head)) || EhrpdCounts(ts.tail, now)
  }

  lemma {:induction false} PersonalityIs(r: Reg, ts: Tlvs)
    requires AllReadable(ts)
    ensures Fold(r, ts).personality == if EhrpdCounts(ts, r.attached) then 2 else r.personality
    decreases ts
  {
    if ts.Cons? {
      PersonalityIs(Step(r, ts.head), ts.tail);
    }
  }

  function Append(ts: Tlvs, us: Tlvs): Tlvs {
    if ts.Nil? then us else Cons(ts.head, Append(ts.tail, us))
  }

  /** The elements that satisfy `p`, in order. */
  function Those(ts: Tlvs, p: Tlv -> bool): Tlvs {
    if ts.Nil? then Nil else if p(ts.head) then Cons(ts.head, Those(ts.tail, p)) else Those(ts.tail, p)
  }

  function Others(ts: Tlvs, p: Tlv -> bool): Tlvs {
    if ts.Nil? then Nil else if p(ts.head) then Others(ts.tail, p) else Cons(ts.head, Others(ts.tail, p))
  }

  /** Those that satisfy `p` moved to the front. */
  function Sorted(ts: Tlvs, p: Tlv -> bool): Tlvs {
    Append(Those(ts, p), Others(ts, p))
  }

  lemma {:induction false} AppendElements(ts: Tlvs, us: Tlvs)
    ensures Elements(Append(ts, us)) == Elements(ts) + Elements(us)
    ensures AllReadable(ts) && AllReadable(us) ==> AllReadable(Append(ts, us))
    decreases ts
  {
    if ts.Cons? {
      AppendElements(ts.tail, us);
    }
  }

  lemma {:induction false} ThoseElements(ts: Tlvs, p: Tlv -> bool)
    ensures Elements(Those(ts, p)) + Elements(Others(ts, p)) == Elements(ts)
    ensures AllReadable(ts) ==> AllReadable(Those(ts, p)) && AllReadable(Others(ts, p))
    decreases ts
  {
    if ts.Cons? {
      ThoseElements(ts.tail, p);
    }
  }

  lemma SortedElements(ts: Tlvs, p: Tlv -> bool)
    ensures Elements(Sorted(ts, p)) == Elements(ts)
    ensures AllReadable(ts) ==> AllReadable(Sorted(ts, p))
  {
    ThoseElements(ts, p);
    AppendElements(Those(ts, p), Others(ts, p));
  }

  predicate AttachesItself(t: Tlv) {
    IsEhrpd(t) && Attaches(t)
  }

  /** Elements that name eHRPD and do not attach count for nothing while they come first. */
  lemma {:induction false} EhrpdFirst(ts: Tlvs, us: Tlvs)
    requires !Any(ts, AttachesItself) && !Any(us, IsEhrpd)
    ensures !EhrpdCounts(Append(Those(ts, IsEhrpd), us), false)
    decreases ts
  {
    if ts.Cons? {
      EhrpdFirst(ts.tail, us);
    } else {
      NoEhrpd(us, false);
    }
  }

  lemma {:induction false} NoEhrpd(ts: Tlvs, attached: bool)
    requires !Any(ts, IsEhrpd)
    ensures !EhrpdCounts(ts, attached)
    decreases ts
  {
    if ts.Cons? {
      NoEhrpd(ts.tail, attached || Attaches(ts.head));
    }
  }

  lemma {:induction false} WithoutThose(ts: Tlvs, p: Tlv -> bool)
    ensures !Any(Others(ts, p), p)
    decreases ts
  {
    if ts.Cons? {
      WithoutThose(ts.tail, p);
    }
  }

  lemma {:induction false} EhrpdCountsWhenAttached(ts: Tlvs)
    requires Any(ts, IsEhrpd)
    ensures EhrpdCounts(ts, true)
    decreases ts
  {
    if !IsEhrpd(ts.head) {
      EhrpdCountsWhenAttached(ts.tail);
    }
  }

  lemma {:induction false} SelfAttachingCounts(ts: Tlvs, attached: bool)
    requires Any(ts, AttachesItself)
    ensures EhrpdCounts(ts, attached)
    decreases ts
  {
    if !AttachesItself(ts.head) {
      SelfAttachingCounts(ts.tail, attached || Attaches(ts.head));
    }
  }

  lemma {:induction false} NothingAttaches(ts: Tlvs)
    requires !Any(ts, Attaches)
    ensures !EhrpdCounts(ts, false)
    decreases ts
  {
    if ts.Cons? {
      NothingAttaches(ts.tail);
    }
  }

  lemma {:induction false} AnyAppended(ts: Tlvs, us: Tlvs, p: Tlv -> bool)
    requires Any(us, p)
    ensures Any(Append(ts, us), p)
    decreases ts
  {
    if ts.Cons? {
      AnyAppended(ts.tail, us, p);
    }
  }

  lemma {:induction false} ThoseStart(ts: Tlvs, p: Tlv -> bool)
    requires Any(ts, p)
    ensures Those(ts, p).Cons? && p(Those(ts, p).head)
    decreases ts
  {
    if !p(ts.head) {
      ThoseStart(ts.tail, p);
    }
  }

  lemma {:induction false} OthersKept(ts: Tlvs)
    requires Any(ts, IsEhrpd) && !Any(ts, AttachesItself)
    ensures Any(Others(ts, Attaches), IsEhrpd)
    decreases ts
  {
    if !IsEhrpd(ts.head) {
      OthersKept(ts.tail);
    }
  }

  /** With the attaching elements first, an element that names eHRPD counts. */
  lemma AttachFirst(ts: Tlvs)
    requires Any(ts, IsEhrpd) && Any(ts, Attaches) && !Any(ts, AttachesItself)
    ensures EhrpdCounts(Sorted(ts, Attaches), false)
  {
    ThoseStart(ts, Attaches);
    OthersKept(ts);
    AnyAppended(Those(ts, Attaches).tail, Others(ts, Attaches), IsEhrpd);
    EhrpdCountsWhenAttached(Sorted(ts, Attaches).tail);
  }

  /** The eHRPD flag of a response is the same in every order of its elements. */
  ghost predicate PersonalityIsStable(ts: Tlvs)
    requires AllReadable(ts)
  {
    forall us: Tlvs :: AllReadable(us) && Elements(us) == Elements(ts) ==> Fold(START, us).personality == Fold(START, ts).personality
  }

  lemma StableWhen(ts: Tlvs, us: Tlvs)
    requires AllReadable(ts) && AllReadable(us) && Elements(us) == Elements(ts)
    requires !Any(ts, IsEhrpd) || !Any(ts, Attaches) || Any(ts, AttachesItself)
    ensures Fold(START, us).personality == Fold(START, ts).personality
  {
    PersonalityIs(START, ts);
    PersonalityIs(START, us);
    AnyIsMember(ts, IsEhrpd);
    AnyIsMember(us, IsEhrpd);
    AnyIsMember(ts, Attaches);
    AnyIsMember(us, Attaches);
    AnyIsMember(ts, AttachesItself);
    AnyIsMember(us, AttachesItself);
    if !Any(ts, IsEhrpd) {
      NoEhrpd(ts, false);
      NoEhrpd(us, false);
    } else if !Any(ts, Attaches) {
      NothingAttaches(ts);
      NothingAttaches(us);
    } else {
      SelfAttachingCounts(ts, false);
      SelfAttachingCounts(us, false);
    }
  }

  lemma UnstableWhen(ts: Tlvs)
    requires AllReadable(ts)
    requires Any(ts, IsEhrpd) && Any(ts, Attaches) && !Any(ts, AttachesItself)
    ensures !PersonalityIsStable(ts)
  {
    var first, last := Sorted(ts, Attaches), Sorted(ts, IsEhrpd);
    SortedElements(ts, Attaches);
    SortedElements(ts, IsEhrpd);
    AttachFirst(ts);
    WithoutThose(ts, IsEhrpd);
    EhrpdFirst(ts, Others(ts, IsEhrpd));
    PersonalityIs(START, first);
    PersonalityIs(START, last);
    assert Elements(first) == Elements(ts) && Elements(last) == Elements(ts);
  }

  /** The eHRPD flag can depend on the order: exactly when some element names it, some attaches, and none does both. */
  lemma PersonalityOrder(ts: Tlvs)
    requires AllReadable(ts)
    ensures PersonalityIsStable(ts) <==> !Any(ts, IsEhrpd) || !Any(ts, Attaches) || Any(ts, AttachesItself)
  {
    if !Any(ts, IsEhrpd) || !Any(ts, Attaches) || Any(ts, AttachesItself) {
      forall us: Tlvs | AllReadable(us) && Elements(us) == Elements(ts)
        ensures Fold(START, us).personality == Fold(START, ts).personality
      {
        StableWhen(ts, us);
      }
    } else {
      UnstableWhen(ts);
    }
  }
}
