/**
 Runs of the proxy: what its state is after a sequence of events.
 */
module ProxyRuns {
  import opened Prelude
  import opened ProxySpec

  function Run(es: seq<Event>): State {
    if es == [] then Init else Step(Run(es[..|es|-1]), es[|es|-1])
  }

  /** The modem revokes no client id in the first `n` events. */
  predicate Running(es: seq<Event>, n: nat)
    requires n <= |es|
  {
    n == 0 || (Running(es, n - 1) && !Run(es[..n - 1]).reset)
  }

  predicate Connected(cons: seq<Con>, fd: int) {
    FindCon(cons, fd) < |cons|
  }

  ghost predicate DistinctFds(cons: seq<Con>) {
    forall i, j :: 0 <= i < j < |cons| ==> cons[i].fd != cons[j].fd
  }

  /** A control response, flag 1, comes while a request waits. */
  predicate Answering(s: State, e: Event) {
    e.Modem? && e.m.Ctl? && e.m.flags == 1 && s.queue != []
  }

  lemma {:induction false} RouteIsService(cons: seq<Con>, m: Qmi)
    requires m.Service?
    ensures forall d :: d in Route(cons, m) ==> d.qmi == m
  {
    if cons != [] {
      RouteOneIsService(cons[0].fd, cons[0].clients, m);
      RouteIsService(cons[1..], m);
    }
  }

  lemma {:induction false} RouteOneIsService(fd: byte, clients: seq<Key>, m: Qmi)
    requires m.Service?
    ensures forall d :: d in RouteOne(fd, clients, m) ==> d == Delivery(fd, m)
  {
    if clients != [] {
      RouteOneIsService(fd, clients[1..], m);
    }
  }

  lemma SameFds(s: State, e: Event)
    requires e.Modem? || e.Client?
    ensures |Step(s, e).cons| == |s.cons|
    ensures forall i :: 0 <= i < |s.cons| ==> Step(s, e).cons[i].fd == s.cons[i].fd
  {
  }

  // ---------- runs event by event ----------

  lemma RunSnoc(es: seq<Event>, e: Event)
    ensures Run(es + [e]) == Step(Run(es), e)
  {
    assert (es + [e])[..|es|] == es;
  }

  /** The state after some more events, taken one by one from the front. */
  function RunFrom(s: State, es: seq<Event>): State
    decreases |es|
  {
    if es == [] then s else RunFrom(Step(s, es[0]), es[1..])
  }

  lemma {:induction false} RunFromIs(before: seq<Event>, es: seq<Event>)
    ensures Run(before + es) == RunFrom(Run(before), es)
    decreases |es|
  {
    if es == [] {
      assert before + [] == before;
    } else {
      RunSnoc(before, es[0]);
      assert before + es == (before + [es[0]]) + es[1..];
      RunFromIs(before + [es[0]], es[1..]);
    }
  }

  predicate IsRequest(m: Qmi) {
    m.Ctl? && m.flags != FLAG_RSP
  }

  predicate IsAnswer(m: Qmi) {
    m.Ctl? && m.flags == FLAG_RSP
  }

  lemma Unrolled2(s: State, es: seq<Event>)
    requires |es| == 2
    ensures RunFrom(s, es) == Step(Step(s, es[0]), es[1])
  {
    assert es[1..] == [es[1]];
    assert RunFrom(Step(s, es[0]), [es[1]]) == Step(Step(s, es[0]), es[1]);
  }

  lemma Unrolled3(s: State, es: seq<Event>)
    requires |es| == 3
    ensures RunFrom(s, es) == Step(Step(Step(s, es[0]), es[1]), es[2])
  {
    var t := Step(s, es[0]);
    assert es[1..][1..] == [es[2]];
    assert RunFrom(Step(t, es[1]), [es[2]]) == Step(Step(t, es[1]), es[2]);
  }

  lemma {:induction false} RunFromSplit(s: State, a: seq<Event>, b: seq<Event>)
    ensures RunFrom(s, a + b) == RunFrom(RunFrom(s, a), b)
    decreases |a|
  {
    if a == [] {
      assert a + b == b;
    } else {
      assert (a + b)[1..] == a[1..] + b;
      RunFromSplit(Step(s, a[0]), a[1..], b);
    }
  }

  lemma Unrolled5(s: State, es: seq<Event>)
    requires |es| == 5
    ensures RunFrom(s, es) == Step(Step(Step(Step(Step(s, es[0]), es[1]), es[2]), es[3]), es[4])
  {
    Unrolled3(s, es[..3]);
    Unrolled2(RunFrom(s, es[..3]), es[3..]);
    RunFromSplit(s, es[..3], es[3..]);
    assert es[..3] + es[3..] == es;
  }

  lemma Unrolled6(s: State, es: seq<Event>)
    requires |es| == 6
    ensures RunFrom(s, es) == Step(Step(Step(Step(Step(Step(s, es[0]), es[1]), es[2]), es[3]), es[4]), es[5])
  {
    Unrolled3(s, es[..3]);
    Unrolled3(RunFrom(s, es[..3]), es[3..]);
    RunFromSplit(s, es[..3], es[3..]);
    assert es[..3] + es[3..] == es;
  }
}
