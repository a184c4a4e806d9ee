/**
 What goes out for each request, and what comes back to its caller, told from the events of a run alone.
 */
module SlotCalls {
  import opened Prelude
  import opened Slot

  // ---------- what goes out ----------

  /** The requests a run composes: those made while no other waits, with a client id where one is needed. */
  function Composed(es: seq<Event>): (sends: seq<Event>)
    ensures forall k :: 0 <= k < |sends| ==> sends[k].Send?
  {
    if es == [] then []
    else Composed(es[..|es|-1]) + if Composes(Run(es[..|es|-1]), es[|es|-1]) then [es[|es|-1]] else []
  }

  predicate Composes(s: State, e: Event) {
    e.Send? && !s.waiting && (e.service == 0 || e.clientId != 0)
  }

  /** The requests with the same counter. */
  function Number(sends: seq<Event>, ctl: bool): nat
    requires forall k :: 0 <= k < |sends| ==> sends[k].Send?
  {
    if sends == [] then 0
    else Number(sends[..|sends|-1], ctl) + if (sends[|sends|-1].service == 0) == ctl then 1 else 0
  }

  /**
   The frame of a request composed after `n` others with its counter: the IPv6 service, 0x11, goes out as
   0x01 when there is a device; control requests have client id 0.
   */
  predicate GoesOutAs(e: Event, n: nat, f: Frame)
    requires e.Send?
  {
    && f.service == (if e.service == 0x11 && e.outcome != NoDevice then 0x01 else e.service)
    && f.clientId == (if e.service == 0 then 0 else e.clientId % 0x100)
    && f.tid == 1 + (if e.service == 0 then n % 0xFF else n % 0xFFFF)
  }

  ghost predicate CallsAre(s: State, sends: seq<Event>)
    requires forall k :: 0 <= k < |sends| ==> sends[k].Send?
  {
    && |s.calls| == |sends|
    && s.ctlCount == Number(sends, true) && s.muxCount == Number(sends, false)
    && forall k {:trigger s.calls[k]} :: 0 <= k < |sends| ==> GoesOutAs(sends[k], Number(sends[..k], sends[k].service == 0), s.calls[k].frame)
  }

  lemma ComposeStep(s: State, sends: seq<Event>, e: Event)
    requires (forall k :: 0 <= k < |sends| ==> sends[k].Send?) && CallsAre(s, sends) && Composes(s, e)
    ensures CallsAre(Step(s, e), sends + [e])
  {
    var t, more := Step(s, e), sends + [e];
    var n := Number(sends, e.service == 0);
    assert more[..|sends|] == sends;
    NthIdIs(n + 1, e.service == 0);
    assert GoesOutAs(e, n, t.calls[|sends|].frame);
    forall k {:trigger t.calls[k]} | 0 <= k < |sends| ensures GoesOutAs(more[k], Number(more[..k], more[k].service == 0), t.calls[k].frame) {
      assert more[..k] == sends[..k] && t.calls[k] == s.calls[k];
    }
  }

  lemma OtherStep(s: State, e: Event)
    requires !Composes(s, e)
    ensures var t := Step(s, e); t.calls == s.calls && t.ctlCount == s.ctlCount && t.muxCount == s.muxCount
  {
  }

  /** In every run the calls are the requests composed, in order, each as it goes out. */
  lemma {:induction false} CallsRun(es: seq<Event>)
    ensures CallsAre(Run(es), Composed(es))
  {
    if es != [] {
      var s, e := Run(es[..|es|-1]), es[|es|-1];
      CallsRun(es[..|es|-1]);
      if Composes(s, e) {
        ComposeStep(s, Composed(es[..|es|-1]), e);
      } else {
        OtherStep(s, e);
        assert Composed(es[..|es|-1]) + [] == Composed(es[..|es|-1]);
      }
    }
  }

  // ---------- what comes back ----------

  /** The state after some more events, taken one by one from the front. */
  function Steps(s: State, es: seq<Event>): State
    decreases |es|
  {
    if es == [] then s else Steps(Step(s, es[0]), es[1..])
  }

  lemma {:induction false} RunSteps(before: seq<Event>, es: seq<Event>)
    ensures Run(before + es) == Steps(Run(before), es)
    decreases |es|
  {
    if es == [] {
      assert before + [] == before;
    } else {
      RunSnoc(before, es[0]);
      assert before + es == (before + [es[0]]) + es[1..];
      RunSteps(before + [es[0]], es[1..]);
    }
  }

  /** Events between the two halves of a call. */
  predicate Between(es: seq<Event>) {
    forall k :: 0 <= k < |es| ==> !es[k].Wake?
  }

  /** The answer that comes first to a request with this frame, unless the reader quits before or has no memory for it. */
  function FirstAnswer(es: seq<Event>, want: Frame): Option<Frame>
    decreases |es|
  {
    if es == [] || es[0].ReaderQuits? then None
    else if es[0].Receive? && es[0].frame == want then (if es[0].gotBlock then Some(want) else None)
    else FirstAnswer(es[1..], want)
  }

  function FrameIn(b: Option<Block>): Option<Frame> {
    if b.None? then None else Some(b.value.frame)
  }

  /** A call has been answered, or will not be. */
  lemma {:induction false} Settled(s: State, es: seq<Event>)
    requires s.waiting && s.request.None? && Between(es)
    ensures var t := Steps(s, es); t == s
    decreases |es|
  {
    if es != [] {
      assert !es[0].Wake?;
      assert Step(s, es[0]) == s;
      Settled(s, es[1..]);
    }
  }

  /** A call waits, its request posted. */
  lemma {:induction false} Waiting(s: State, es: seq<Event>)
    requires s.waiting && s.request.Some? && s.response.None? && Between(es)
    ensures var t := Steps(s, es);
      && t.waiting && t.wanted == s.wanted && t.returned == s.returned && t.calls == s.calls
      && FrameIn(t.response) == FirstAnswer(es, s.request.value.frame)
    decreases |es|
  {
    if es != [] {
      var t := Step(s, es[0]);
      assert !es[0].Wake?;
      if t.request.Some? {
        assert t == s;
        Waiting(s, es[1..]);
      } else {
        Settled(t, es[1..]);
      }
    }
  }

  /**
   A call that goes out returns the first answer to come with its service, client id and transaction id, to a
   caller who wants it and whose wait a signal has ended; otherwise it returns nothing. A call that fails does
   not wait.
   */
  lemma CallReturns(before: seq<Event>, send: Event, between: seq<Event>, signalled: bool, want: Frame)
    requires Composes(Run(before), send) && Between(between)
    requires GoesOutAs(send, Number(Composed(before), send.service == 0), want)
    ensures send.outcome != Sent ==> Step(Run(before), send).returned == Run(before).returned && !Step(Run(before), send).waiting
    ensures send.outcome == Sent ==>
      var answer := FirstAnswer(between, want);
      Run(before + ([send] + between + [Wake(signalled)])).returned
      == Run(before).returned + if signalled && send.wants && answer.Some? then [Return(|Composed(before)|, want)] else []
  {
    var s := Run(before);
    var t := Step(s, send);
    CallsRun(before);
    ComposeStep(s, Composed(before), send);
    NthIdIs(Number(Composed(before), send.service == 0) + 1, send.service == 0);
    assert t.calls[|s.calls|].frame == want;
    if send.outcome == Sent {
      Waiting(t, between);
      FirstAnswerIs(between, want);
      RunSteps(before, [send] + between + [Wake(signalled)]);
      StepsEnd(s, send, between, Wake(signalled));
    }
  }

  /** So the answer to an IPv6 request, which comes on service 0x01, is returned. */
  lemma Ipv6CallReturns(before: seq<Event>, clientId: int)
    requires !Run(before).waiting && clientId != 0
    ensures var want := Frame(0x01, clientId % 0x100, 1 + Number(Composed(before), false) % 0xFFFF);
      Run(before + ([Send(0x11, clientId, Sent, true)] + [Receive(want, true)] + [Wake(true)])).returned
      == Run(before).returned + [Return(|Composed(before)|, want)]
  {
    var want := Frame(0x01, clientId % 0x100, 1 + Number(Composed(before), false) % 0xFFFF);
    CallReturns(before, Send(0x11, clientId, Sent, true), [Receive(want, true)], true, want);
  }

  lemma {:induction false} FirstAnswerIs(es: seq<Event>, want: Frame)
    ensures FirstAnswer(es, want).Some? ==> FirstAnswer(es, want).value == want
    decreases |es|
  {
    if es != [] {
      FirstAnswerIs(es[1..], want);
    }
  }

  lemma StepsEnd(s: State, first: Event, es: seq<Event>, last: Event)
    ensures Steps(s, [first] + es + [last]) == Step(Steps(Step(s, first), es), last)
  {
    assert ([first] + es + [last])[1..] == es + [last];
    StepsSnoc(Step(s, first), es, last);
  }

  lemma {:induction false} StepsSnoc(s: State, es: seq<Event>, last: Event)
    ensures Steps(s, es + [last]) == Step(Steps(s, es), last)
    decreases |es|
  {
    if es == [] {
      assert [] + [last] == [last] && [last][1..] == [];
      assert Steps(s, [last]) == Step(s, last);
    } else {
      assert (es + [last])[1..] == es[1..] + [last];
      StepsSnoc(Step(s, es[0]), es[1..], last);
    }
  }

  // ---------- what is given back ----------

  function One(b: bool): nat {
    if b then 1 else 0
  }

  /** The blocks in the slot that have not been given back. */
  function Held(s: State): nat {
    One(s.request.Some?) + One(s.response.Some? && s.response.value.id !in s.freed)
  }

  /** A request composed while blocks are held in the slot, of a call whose wait ran out or that failed, loses them. */
  function LostBy(s: State, e: Event): nat {
    if Composes(s, e) then Held(s) else 0
  }

  function LostIn(es: seq<Event>): nat {
    if es == [] then 0 else LostIn(es[..|es|-1]) + LostBy(Run(es[..|es|-1]), es[|es|-1])
  }

  lemma AccountStep(s: State, e: Event)
    requires Inv(s)
    ensures Step(s, e).nextBlock - |Step(s, e).freed| - Held(Step(s, e)) == s.nextBlock - |s.freed| - Held(s) + LostBy(s, e)
  {
  }

  /** In every run each block allocated has been given back, is held in the slot, or is one of those lost. */
  lemma {:induction false} Account(es: seq<Event>)
    ensures Run(es).nextBlock == |Run(es).freed| + Held(Run(es)) + LostIn(es)
  {
    if es != [] {
      Account(es[..|es|-1]);
      RunKeeps(es[..|es|-1]);
      AccountStep(Run(es[..|es|-1]), es[|es|-1]);
    }
  }
}
