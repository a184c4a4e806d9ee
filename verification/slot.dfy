/**
 The request/response slot that a sender and the reader thread share under a mutex. Every critical
 section is one step, so a run is any interleaving of them. A frame handed back to the sender answers
 that very request, never another one composed fewer than 65535 (or 255) requests away, and no block
 is freed twice.
 */
module Slot {
  import opened Prelude

  const CTL: byte := 0x00
  const WDS: byte := 0x01
  const WDS_IPV6: byte := 0x11

  /** The fields of a QMI frame by which an answer is matched to its request. */
  datatype Frame = Frame(service: byte, clientId: byte, tid: nat)

  /** A heap block holding a frame. */
  datatype Block = Block(id: nat, frame: Frame)

  /** A request as it went out, and its number among the requests composed with the same counter. */
  datatype Call = Call(frame: Frame, serial: nat)

  datatype Return = Return(call: int, frame: Frame)

  /**
   What `qmidev_send` reported: no device, a failure, or success. It also reports success when the device
   did not become writable in time and nothing was written.
   */
  datatype Outcome = NoDevice | Failed | Sent

  datatype State = State(
    request: Option<Block>,
    response: Option<Block>,
    waiting: bool,
    wanted: bool,
    muxCount: nat,
    ctlCount: nat,
    calls: seq<Call>,
    returned: seq<Return>,
    nextBlock: nat,
    freed: seq<nat>)

  const Init := State(None, None, false, false, 0, 0, [], [], 0, [])

  datatype Event =
    | Send(service: byte, clientId: int, outcome: Outcome, wants: bool)
    | Receive(frame: Frame, gotBlock: bool)
    | ReaderQuits
    | Wake(signalled: bool)

  function IsResponse(request: Frame, response: Frame): bool {
    request.service == response.service && request.clientId == response.clientId && request.tid == response.tid
  }

  // ---------- transaction ids ----------

  /** The control counter runs from 1 to 255, the other from 1 to 65535. */
  function NextId(tid: nat, ctl: bool): nat {
    if tid + 1 > (if ctl then 0xFF else 0xFFFF) then 1 else tid + 1
  }

  /** A counter that starts again at 1. */
  method Advance(last: nat, limit: nat) returns (tid: nat)
    ensures limit == 0xFF ==> tid == NextId(last, true)
    ensures limit == 0xFFFF ==> tid == NextId(last, false)
    ensures last <= limit && limit > 0 ==> 1 <= tid <= limit
  {
    tid := last + 1;
    if tid > limit {
      tid := 1;
    }
  }

  /** The id of the n-th request composed. */
  function NthId(n: nat, ctl: bool): nat {
    if n == 0 then 0 else NextId(NthId(n - 1, ctl), ctl)
  }

  lemma NextOf255(m: nat)
    ensures (m + 1) % 0xFF == if m % 0xFF == 0xFE then 0 else m % 0xFF + 1
  {
  }

  lemma NextOf65535(m: nat)
    ensures (m + 1) % 0xFFFF == if m % 0xFFFF == 0xFFFE then 0 else m % 0xFFFF + 1
  {
  }

  lemma {:induction false} NthIdIs(n: nat, ctl: bool)
    requires n > 0
    ensures NthId(n, ctl) == 1 + if ctl then (n - 1) % 0xFF else (n - 1) % 0xFFFF
  {
    if n > 1 {
      NthIdIs(n - 1, ctl);
      if ctl { NextOf255(n - 2); } else { NextOf65535(n - 2); }
    }
  }

  /** A whole number of counter periods. */
  predicate Periods(d: int, ctl: bool) {
    if ctl then d % 0xFF == 0 else d % 0xFFFF == 0
  }

  /** Two requests get the same id exactly when a whole number of periods lies between them. */
  lemma SameIdIff(i: nat, j: nat, ctl: bool)
    requires i > 0 && j > 0
    ensures NthId(i, ctl) == NthId(j, ctl) <==> Periods(j - i, ctl)
  {
    NthIdIs(i, ctl);
    NthIdIs(j, ctl);
    if ctl { Same255(i - 1, j - 1); } else { Same65535(i - 1, j - 1); }
  }

  lemma Same255(a: nat, b: nat)
    ensures a % 0xFF == b % 0xFF <==> (b - a) % 0xFF == 0
  {
  }

  lemma Same65535(a: nat, b: nat)
    ensures a % 0xFFFF == b % 0xFFFF <==> (b - a) % 0xFFFF == 0
  {
  }

  lemma PeriodsFar(d: int, ctl: bool)
    requires Periods(d, ctl) && d != 0
    ensures if ctl then d >= 0xFF || d <= -0xFF else d >= 0xFFFF || d <= -0xFFFF
  {
  }

  // ---------- steps ----------

  /** The driver sends IPv6 data calls on the WDS service, rewriting the request in place. */
  function OnWire(service: byte, outcome: Outcome): byte {
    if service == WDS_IPV6 && outcome != NoDevice then WDS else service
  }

  /** Composes a request, posts it in the slot and sends it; waits if it went out. */
  function SendStep(s: State, service: byte, clientId: int, outcome: Outcome, wants: bool): State {
    if s.waiting || (service != CTL && clientId == 0) then s
    else
      var serial := if service == CTL then s.ctlCount + 1 else s.muxCount + 1;
      var frame := Frame(OnWire(service, outcome), if service == CTL then 0 else ToByte(clientId),
                         NthId(serial, service == CTL));
      s.(request := Some(Block(s.nextBlock, frame)),
         response := None,
         waiting := outcome == Sent,
         wanted := wants,
         muxCount := if service == CTL then s.muxCount else serial,
         ctlCount := if service == CTL then serial else s.ctlCount,
         calls := s.calls + [Call(frame, serial)],
         nextBlock := s.nextBlock + 1)
  }

  function ReceiveStep(s: State, frame: Frame, gotBlock: bool): State {
    if s.request.Some? && IsResponse(s.request.value.frame, frame) then
      s.(request := None,
         freed := s.freed + [s.request.value.id],
         response := if gotBlock then Some(Block(s.nextBlock, frame)) else None,
         nextBlock := if gotBlock then s.nextBlock + 1 else s.nextBlock)
    else s
  }

  function QuitStep(s: State): State {
    if s.request.Some? then
      s.(request := None, response := None, freed := s.freed + [s.request.value.id])
    else s
  }

  /**
   The wait ends, on a signal or by running out. A block handed to the caller is the caller's to free,
   and counts as freed from then on; the slot keeps the stale pointer.
   */
  function WakeStep(s: State, signalled: bool): State {
    if !s.waiting then s
    else if !signalled || s.response.None? then s.(waiting := false)
    else if s.wanted then
      s.(waiting := false,
         returned := s.returned + [Return(|s.calls| - 1, s.response.value.frame)],
         freed := s.freed + [s.response.value.id])
      else s.(waiting := false, response := None, freed := s.freed + [s.response.value.id])
  }

  function Step(s: State, e: Event): State {
    match e
    case Send(service, clientId, outcome, wants) => SendStep(s, service, clientId, outcome, wants)
    case Receive(frame, gotBlock) => ReceiveStep(s, frame, gotBlock)
    case ReaderQuits => QuitStep(s)
    case Wake(signalled) => WakeStep(s, signalled)
  }

  function Run(es: seq<Event>): State {
    if es == [] then Init else Step(Run(es[..|es|-1]), es[|es|-1])
  }

  // ---------- invariant ----------

  predicate Live(s: State, b: Block) {
    b.id < s.nextBlock && b.id !in s.freed
  }

  ghost predicate SlotOk(s: State) {
    && (s.waiting ==> s.calls != [])
    && (s.request.Some? ==>
          s.response.None? && s.calls != [] && s.request.value.frame == s.calls[|s.calls|-1].frame
          && Live(s, s.request.value))
    && (s.waiting && s.response.Some? ==>
          IsResponse(s.calls[|s.calls|-1].frame, s.response.value.frame) && Live(s, s.response.value))
  }

  ghost predicate FreedOnce(s: State) {
    && (forall i :: 0 <= i < |s.freed| ==> s.freed[i] < s.nextBlock)
    && (forall i, j :: 0 <= i < j < |s.freed| ==> s.freed[i] != s.freed[j])
  }

  predicate IsCtl(c: Call) {
    c.frame.service == CTL
  }

  /** Every request carries the id of its serial number, and serial numbers grow. */
  ghost predicate CallsOk(s: State) {
    && (forall k :: 0 <= k < |s.calls| ==>
          var c := s.calls[k];
          && 0 < c.serial <= (if IsCtl(c) then s.ctlCount else s.muxCount)
          && c.frame.tid == NthId(c.serial, IsCtl(c)))
    && (forall i, k :: 0 <= i < k < |s.calls| && IsCtl(s.calls[i]) == IsCtl(s.calls[k]) ==>
          s.calls[i].serial < s.calls[k].serial)
  }

  ghost predicate Paired(s: State) {
    forall n :: 0 <= n < |s.returned| ==>
      0 <= s.returned[n].call < |s.calls| && IsResponse(s.calls[s.returned[n].call].frame, s.returned[n].frame)
  }

  ghost predicate Inv(s: State) {
    SlotOk(s) && FreedOnce(s) && CallsOk(s) && Paired(s)
  }

  lemma SendKeeps(s: State, service: byte, clientId: int, outcome: Outcome, wants: bool)
    requires Inv(s)
    ensures Inv(SendStep(s, service, clientId, outcome, wants))
  {
  }

  lemma ReceiveKeeps(s: State, frame: Frame, gotBlock: bool)
    requires Inv(s)
    ensures Inv(ReceiveStep(s, frame, gotBlock))
  {
  }

  lemma QuitKeeps(s: State)
    requires Inv(s)
    ensures Inv(QuitStep(s))
  {
  }

  lemma WakeKeeps(s: State, signalled: bool)
    requires Inv(s)
    ensures Inv(WakeStep(s, signalled))
  {
  }

  lemma StepKeeps(s: State, e: Event)
    requires Inv(s)
    ensures Inv(Step(s, e))
  {
    match e
    case Send(service, clientId, outcome, wants) => SendKeeps(s, service, clientId, outcome, wants);
    case Receive(frame, gotBlock) => ReceiveKeeps(s, frame, gotBlock);
    case ReaderQuits => QuitKeeps(s);
    case Wake(signalled) => WakeKeeps(s, signalled);
  }

  lemma {:induction false} RunKeeps(es: seq<Event>)
    ensures Inv(Run(es))
  {
    if es != [] {
      RunKeeps(es[..|es|-1]);
      StepKeeps(Run(es[..|es|-1]), es[|es|-1]);
    }
  }

  /** In every interleaving, what a call returns answers that call, and no block is freed twice. */
  lemma AnswersAreOwn(es: seq<Event>, n: nat)
    requires n < |Run(es).returned|
    ensures var s, r := Run(es), Run(es).returned[n];
      0 <= r.call < |s.calls| && IsResponse(s.calls[r.call].frame, r.frame)
  {
    RunKeeps(es);
  }

  lemma NoDoubleFree(es: seq<Event>)
    ensures FreedOnce(Run(es))
  {
    RunKeeps(es);
  }

  /**
   What a call returns also answers another call exactly when the two went to the same client of the
   same service and a whole number of counter periods lies between them.
   */
  lemma LateAnswerIff(es: seq<Event>, n: nat, i: nat)
    requires n < |Run(es).returned| && i < |Run(es).calls|
    ensures var s, r := Run(es), Run(es).returned[n];
      && 0 <= r.call < |s.calls|
      && var a, b := s.calls[i], s.calls[r.call];
      IsResponse(a.frame, r.frame) <==>
        && a.frame.service == b.frame.service && a.frame.clientId == b.frame.clientId
        && Periods(b.serial - a.serial, IsCtl(a))
  {
    RunKeeps(es);
    var s, r := Run(es), Run(es).returned[n];
    var a, b := s.calls[i], s.calls[r.call];
    SameIdIff(a.serial, b.serial, IsCtl(a));
  }

  /** Within a counter period a late answer is never taken for the answer to another request. */
  lemma LateAnswerNeverReturned(es: seq<Event>, n: nat, i: nat)
    requires n < |Run(es).returned| && i < |Run(es).calls| && i != Run(es).returned[n].call
    ensures var s, r := Run(es), Run(es).returned[n];
      && 0 <= r.call < |s.calls|
      && var d := s.calls[r.call].serial - s.calls[i].serial;
      IsResponse(s.calls[i].frame, r.frame) ==>
        if r.frame.service == CTL then d >= 0xFF || d <= -0xFF else d >= 0xFFFF || d <= -0xFFFF
  {
    RunKeeps(es);
    LateAnswerIff(es, n, i);
    var s, r := Run(es), Run(es).returned[n];
    if IsResponse(s.calls[i].frame, r.frame) {
      PeriodsFar(s.calls[r.call].serial - s.calls[i].serial, IsCtl(s.calls[i]));
    }
  }

  // ---------- a late answer taken for another ----------

  function Period(ctl: bool): nat {
    if ctl then 0xFF else 0xFFFF
  }

  /** Requests of one service that are sent and time out, one after the other. */
  function Unanswered(ctl: bool, rounds: nat): seq<Event>
    decreases rounds
  {
    if rounds == 0 then []
    else Unanswered(ctl, rounds - 1) + [Send(if ctl then CTL else WDS, 1, Sent, true), Wake(false)]
  }

  function FirstFrame(ctl: bool): Frame {
    if ctl then Frame(CTL, 0, 1) else Frame(WDS, 1, 1)
  }

  /** `rounds` requests composed, none answered, no call waiting. */
  predicate Idle(s: State, ctl: bool, rounds: nat) {
    && !s.waiting && s.returned == [] && |s.calls| == rounds
    && (if ctl then s.ctlCount else s.muxCount) == rounds
    && (rounds > 0 ==> s.calls[0].frame == FirstFrame(ctl))
  }

  lemma RunSnoc(es: seq<Event>, e: Event)
    ensures Run(es + [e]) == Step(Run(es), e)
  {
    assert (es + [e])[..|es|] == es;
  }

  lemma {:induction false} UnansweredRun(ctl: bool, rounds: nat)
    ensures Idle(Run(Unanswered(ctl, rounds)), ctl, rounds)
    decreases rounds
  {
    if rounds > 0 {
      var before := Unanswered(ctl, rounds - 1);
      var send := Send(if ctl then CTL else WDS, 1, Sent, true);
      UnansweredRun(ctl, rounds - 1);
      RunSnoc(before, send);
      RunSnoc(before + [send], Wake(false));
      assert before + [send] + [Wake(false)] == Unanswered(ctl, rounds);
      IdleRound(Run(before), ctl, rounds - 1);
    }
  }

  lemma IdleRound(s: State, ctl: bool, rounds: nat)
    requires Idle(s, ctl, rounds)
    ensures Idle(WakeStep(SendStep(s, if ctl then CTL else WDS, 1, Sent, true), false), ctl, rounds + 1)
  {
    if rounds == 0 {
      assert NthId(0, ctl) == 0 && NthId(1, ctl) == 1;
    }
  }

  /**
   A run in which it happens, for either counter: a whole period of requests goes unanswered, and the
   answer to the first of them, arriving late, is returned for the one after the last.
   */
  lemma LateAnswerHappens(ctl: bool)
    ensures var n := Period(ctl);
      var s := Run(Unanswered(ctl, n) + [Send(if ctl then CTL else WDS, 1, Sent, true), Receive(FirstFrame(ctl), true), Wake(true)]);
      && s.returned == [Return(n, FirstFrame(ctl))] && |s.calls| == n + 1
      && IsResponse(s.calls[0].frame, FirstFrame(ctl))
  {
    UnansweredRun(ctl, Period(ctl));
    LateAnswerAfter(Unanswered(ctl, Period(ctl)), ctl, Period(ctl));
  }

  lemma LateAnswerAfter(es: seq<Event>, ctl: bool, n: nat)
    requires n == Period(ctl) && Idle(Run(es), ctl, n)
    ensures var s := Run(es + [Send(if ctl then CTL else WDS, 1, Sent, true), Receive(FirstFrame(ctl), true), Wake(true)]);
      && s.returned == [Return(n, FirstFrame(ctl))] && |s.calls| == n + 1
      && IsResponse(s.calls[0].frame, FirstFrame(ctl))
  {
    var send, receive := Send(if ctl then CTL else WDS, 1, Sent, true), Receive(FirstFrame(ctl), true);
    var sent := es + [send];
    var received := sent + [receive];
    RunSnoc(es, send);
    RunSnoc(sent, receive);
    RunSnoc(received, Wake(true));
    assert received + [Wake(true)] == es + [send, receive, Wake(true)];
    PostStep(Run(es), ctl, n);
    AnswerStep(Run(sent), ctl, n);
    ReturnStep(Run(received), ctl, n);
  }

  /** The request after the period is posted, under the id of the first. */
  predicate Posted(s: State, ctl: bool, n: nat) {
    && s.waiting && s.wanted && s.returned == [] && |s.calls| == n + 1 && s.calls[0].frame == FirstFrame(ctl)
    && s.request.Some? && s.request.value.frame == FirstFrame(ctl)
  }

  /** The slot holds the answer to the first. */
  predicate Answered(s: State, ctl: bool, n: nat) {
    && s.waiting && s.wanted && s.returned == [] && |s.calls| == n + 1 && s.calls[0].frame == FirstFrame(ctl)
    && s.response.Some? && s.response.value.frame == FirstFrame(ctl)
  }

  lemma PostStep(s: State, ctl: bool, n: nat)
    requires n == Period(ctl) && Idle(s, ctl, n)
    ensures Posted(SendStep(s, if ctl then CTL else WDS, 1, Sent, true), ctl, n)
  {
    NthIdIs(n + 1, ctl);
  }

  lemma AnswerStep(s: State, ctl: bool, n: nat)
    requires Posted(s, ctl, n)
    ensures Answered(ReceiveStep(s, FirstFrame(ctl), true), ctl, n)
  {
  }

  lemma ReturnStep(s: State, ctl: bool, n: nat)
    requires Answered(s, ctl, n)
    ensures var t := WakeStep(s, true);
      t.returned == [Return(n, FirstFrame(ctl))] && |t.calls| == n + 1 && t.calls[0].frame == FirstFrame(ctl)
  {
    assert s.returned + [Return(n, FirstFrame(ctl))] == [Return(n, FirstFrame(ctl))];
  }

  // ---------- the shared variables ----------

  /** The variables behind the mutex; each method is one critical section. */
  class QmiSlot {
    var request: Option<Block>
    var response: Option<Block>
    /** The sender is between the two halves of a call, and what it asked for. */
    var waiting: bool
    var wanted: bool
    /** The last transaction ids handed out. */
    var muxId: nat
    var ctlId: nat
    /** The history of the run. */
    ghost var muxCount: nat
    ghost var ctlCount: nat
    ghost var calls: seq<Call>
    ghost var returned: seq<Return>
    ghost var freed: seq<nat>
    var nextBlock: nat

    ghost function Abs(): State
      reads this
    {
      State(request, response, waiting, wanted, muxCount, ctlCount, calls, returned, nextBlock, freed)
    }

    ghost predicate Valid()
      reads this
    {
      CountersOk() && Inv(Abs())
    }

    constructor ()
      ensures Valid() && Abs() == Init
    {
      request, response, waiting, wanted := None, None, false, false;
      muxId, ctlId, muxCount, ctlCount := 0, 0, 0, 0;
      calls, returned, freed, nextBlock := [], [], [], 0;
    }

    method Malloc(frame: Frame) returns (b: Block)
      modifies this`nextBlock
      ensures b == Block(old(nextBlock), frame) && nextBlock == old(nextBlock) + 1
    {
      b := Block(nextBlock, frame);
      nextBlock := nextBlock + 1;
    }

    /** Gives a block back: it must not have been given back before. */
    ghost method Free(b: Block)
      requires Live(Abs(), b)
      modifies this`freed
      ensures freed == old(freed) + [b.id]
    {
      freed := freed + [b.id];
    }

    method NextTransactionId(ctl: bool) returns (tid: nat)
      modifies this`muxId, this`ctlId
      ensures tid == (if ctl then ctlId else muxId) == NextId(if ctl then old(ctlId) else old(muxId), ctl)
      ensures if ctl then muxId == old(muxId) else ctlId == old(ctlId)
    {
      if ctl {
        ctlId := Advance(ctlId, 0xFF);
        tid := ctlId;
      } else {
        muxId := Advance(muxId, 0xFFFF);
        tid := muxId;
      }
    }

    /** `ComposeQMUXMsg` and `ComposeQCTLMsg`: a new block with the next id of its counter. */
    method Compose(service: byte, clientId: int) returns (b: Block)
      requires CountersOk()
      modifies this`nextBlock, this`muxId, this`ctlId, this`muxCount, this`ctlCount
      ensures CountersOk()
      ensures muxCount == old(muxCount) + (if service == CTL then 0 else 1)
      ensures ctlCount == old(ctlCount) + (if service == CTL then 1 else 0)
      ensures nextBlock == old(nextBlock) + 1
      ensures b == Block(old(nextBlock), Frame(service, if service == CTL then 0 else ToByte(clientId),
        if service == CTL then ctlId else muxId))
    {
      var tid := NextTransactionId(service == CTL);
      if service == CTL {
        ctlCount := ctlCount + 1;
      } else {
        muxCount := muxCount + 1;
      }
      b := Malloc(Frame(service, if service == CTL then 0 else ToByte(clientId), tid));
    }

    /** `qmidev_send` on a WWAN device: an IPv6 request is rewritten in place. */
    method DeviceSend(outcome: Outcome) returns (ret: int)
      requires request.Some?
      modifies this`request
      ensures var b := old(request).value;
        request == Some(b.(frame := b.frame.(service := OnWire(b.frame.service, outcome))))
      ensures request.value.frame.service ==
        if old(request).value.frame.service == 0x11 && outcome != NoDevice then 0x01 else old(request).value.frame.service
      ensures ret == 0 <==> outcome == Sent
    {
      if outcome == NoDevice {
        return -19;
      }
      var b := request.value;
      if b.frame.service == WDS_IPV6 {
        request := Some(b.(frame := b.frame.(service := WDS)));
      }
      ret := if outcome == Sent then 0 else -1;
    }

    /** The id counters stand where the number of requests composed puts them. */
    ghost predicate CountersOk()
      reads this
    {
      muxId == NthId(muxCount, false) && ctlId == NthId(ctlCount, true)
    }

    method ComposeAndSend(service: byte, clientId: int, outcome: Outcome, wants: bool) returns (ret: int)
      requires CountersOk() && !waiting
      modifies this
      ensures CountersOk() && Abs() == SendStep(old(Abs()), service, clientId, outcome, wants)
      ensures ret == 0 <==> waiting
    {
      if service != CTL && clientId == 0 {
        return -22;
      }
      var b := Compose(service, clientId);
      request, response, wanted := Some(b), None, wants;
      ret := DeviceSend(outcome);
      waiting := ret == 0;
      calls := calls + [Call(request.value.frame, if service == CTL then ctlCount else muxCount)];
    }

    /** The first half of a call: compose, post, send. The result is 0 when the sender goes on to wait. */
    method Send(service: byte, clientId: int, outcome: Outcome, wants: bool) returns (ret: int)
      requires Valid() && !waiting
      modifies this
      ensures Valid() && Abs() == SendStep(old(Abs()), service, clientId, outcome, wants)
      ensures ret == 0 <==> waiting
    {
      SendKeeps(Abs(), service, clientId, outcome, wants);
      ret := ComposeAndSend(service, clientId, outcome, wants);
    }

    /** A frame arrives at the reader thread; `gotBlock` tells whether there is memory to copy it. */
    method Receive(frame: Frame, gotBlock: bool)
      requires Valid()
      modifies this
      ensures Valid() && Abs() == ReceiveStep(old(Abs()), frame, gotBlock)
    {
      ghost var s := Abs();
      if request.Some? && IsResponse(request.value.frame, frame) {
        Free(request.value);
        request := None;
        response := None;
        if gotBlock {
          var b := Malloc(frame);
          response := Some(b);
        }
      }
      ReceiveKeeps(s, frame, gotBlock);
    }

    /** The reader thread ends, or gives up on a request. */
    method ReaderQuits()
      requires Valid()
      modifies this
      ensures Valid() && Abs() == QuitStep(old(Abs()))
    {
      ghost var s := Abs();
      if request.Some? {
        Free(request.value);
        request := None;
        response := None;
      }
      QuitKeeps(s);
    }

    /** The second half of a call, when the wait has ended. */
    method Wake(signalled: bool) returns (out: Option<Frame>)
      requires Valid() && waiting
      modifies this
      ensures Valid() && Abs() == WakeStep(old(Abs()), signalled)
      ensures out.Some? ==> IsResponse(calls[|calls|-1].frame, out.value)
      ensures out.Some? <==> signalled && old(response).Some? && wanted
    {
      ghost var s := Abs();
      out := None;
      waiting := false;
      if signalled && response.Some? {
        Free(response.value);
        if wanted {
          out := Some(response.value.frame);
          returned := returned + [Return(|calls| - 1, response.value.frame)];
        } else {
          response := None;
        }
      }
      WakeKeeps(s, signalled);
    }
  }
}
