/**
 First in, first out: control requests are served in order with one in flight, exactly as long as no
 event does harm; and what goes wrong when one does.
 */
module ProxyFifo {
  import opened Prelude
  import opened ProxySpec
  import opened ProxyRuns

  // ---------- sequences ----------

  function Filter<T>(s: seq<T>, keep: T -> bool): seq<T> {
    if s == [] then [] else Filter(s[..|s|-1], keep) + if keep(s[|s|-1]) then [s[|s|-1]] else []
  }

  lemma {:induction false} FilterAppend<T>(a: seq<T>, b: seq<T>, keep: T -> bool)
    ensures Filter(a + b, keep) == Filter(a, keep) + Filter(b, keep)
  {
    if b == [] {
      assert a + b == a;
    } else {
      var b' := b[..|b|-1];
      assert (a + b)[..|a + b|-1] == a + b';
      FilterAppend(a, b', keep);
    }
  }

  lemma {:induction false} FilterNone<T>(s: seq<T>, keep: T -> bool)
    requires forall x :: x in s ==> !keep(x)
    ensures Filter(s, keep) == []
  {
    if s != [] {
      FilterNone(s[..|s|-1], keep);
    }
  }

  // ---------- first in, first out ----------

  /** The control requests that reached the proxy, with their senders, in order. */
  function Arrivals(es: seq<Event>): seq<Pending> {
    if es == [] then [] else Arrivals(es[..|es|-1]) + ArrivalOf(es[|es|-1])
  }

  function ArrivalOf(e: Event): seq<Pending> {
    if e.Client? && e.m.Ctl? then [Pending(e.fd, e.m)] else []
  }

  /** The control responses that found a request waiting, in order. */
  function Answers(es: seq<Event>): seq<Qmi> {
    if es == [] then [] else Answers(es[..|es|-1]) + AnswerOf(Run(es[..|es|-1]), es[|es|-1])
  }

  function AnswerOf(s: State, e: Event): seq<Qmi> {
    if Answering(s, e) then [e.m] else []
  }

  function CtlWrites(s: State): seq<Qmi> {
    Filter(s.toModem, (m: Qmi) => m.Ctl?)
  }

  function CtlDeliveries(s: State): seq<Delivery> {
    Filter(s.toClients, (d: Delivery) => d.qmi.Ctl?)
  }

  function Requests(ps: seq<Pending>): seq<Qmi> {
    seq(|ps|, i requires 0 <= i < |ps| => ps[i].qmi)
  }

  function Paired(arrivals: seq<Pending>, answers: seq<Qmi>): seq<Delivery>
    requires |answers| <= |arrivals|
  {
    seq(|answers|, k requires 0 <= k < |answers| => Delivery(arrivals[k].fd, answers[k]))
  }

  function Min(a: int, b: int): int {
    if a < b then a else b
  }

  /**
   After `answers` have been consumed out of `arrivals`: the rest is queued in order, all but the
   requests behind the head have been written to the modem exactly once and in order, and the k-th
   answer went to the sender of the k-th request.
   */
  ghost predicate Fifo(s: State, arrivals: seq<Pending>, answers: seq<Qmi>) {
    && |answers| <= |arrivals|
    && s.queue == arrivals[|answers|..]
    && CtlWrites(s) == Written(arrivals, |answers|)
    && CtlDeliveries(s) == Paired(arrivals, answers)
  }

  /** No two connections share a descriptor, and every waiting sender is connected. */
  ghost predicate Served(s: State) {
    DistinctFds(s.cons) && forall p :: p in s.queue ==> Connected(s.cons, p.fd)
  }

  ghost predicate InStep(s: State, arrivals: seq<Pending>, answers: seq<Qmi>) {
    Fifo(s, arrivals, answers) && Served(s)
  }

  /**
   What the proxy's surroundings see to: a new connection's descriptor is, in the eight bits kept of it,
   none of an open one (a failed accept is kept as 255), and requests come from connected clients.
   */
  predicate Orderly(s: State, e: Event) {
    match e
    case Connect(clientFd) => !Connected(s.cons, ToByte(clientFd))
    case Client(fd, m) => m.Ctl? ==> Connected(s.cons, fd)
    case _ => true
  }

  /** A client does not leave with a request queued, and the modem sends nothing but responses while requests wait. */
  ghost predicate Harmless(s: State, e: Event) {
    match e
    case Hangup(fd) => Connected(s.cons, fd) ==> forall p :: p in s.queue ==> p.fd != fd
    case Modem(m) => m.Ctl? ==> m.flags == FLAG_RSP || s.queue == []
    case _ => true
  }

  lemma {:induction false} PerConAbsent<T>(cons: seq<Con>, fd: byte, x: T)
    requires !Connected(cons, fd)
    ensures PerCon(cons, fd, x) == []
  {
    if cons != [] {
      PerConAbsent(cons[1..], fd, x);
    }
  }

  lemma {:induction false} PerConOnce<T>(cons: seq<Con>, fd: byte, x: T)
    requires DistinctFds(cons) && Connected(cons, fd)
    ensures PerCon(cons, fd, x) == [x]
  {
    if cons[0].fd == fd {
      forall i | 0 <= i < |cons[1..]| ensures cons[1..][i].fd != fd {
        assert cons[1..][i] == cons[i + 1];
      }
      PerConAbsent(cons[1..], fd, x);
    } else {
      PerConOnce(cons[1..], fd, x);
    }
  }

  lemma {:induction false} SnoopKeepsFds(cons: seq<Con>, fd: byte, m: Qmi)
    requires m.Ctl? && DistinctFds(cons)
    ensures DistinctFds(SnoopAll(cons, fd, m))
    ensures forall f :: Connected(cons, f) <==> Connected(SnoopAll(cons, fd, m), f)
  {
    var r := SnoopAll(cons, fd, m);
    forall i | 0 <= i < |cons| ensures r[i].fd == cons[i].fd {}
    forall f ensures Connected(cons, f) <==> Connected(r, f) {
      var a, b := FindCon(cons, f), FindCon(r, f);
      if a < |cons| { assert r[a].fd == f; }
      if b < |r| { assert cons[b].fd == f; }
    }
  }

  lemma AppendOne<T>(s: seq<T>, x: T, keep: T -> bool)
    ensures Filter(s + [x], keep) == Filter(s, keep) + if keep(x) then [x] else []
  {
    assert (s + [x])[..|s|] == s;
  }

  lemma DropConFacts(cons: seq<Con>, k: nat)
    requires k < |cons| && DistinctFds(cons)
    ensures DistinctFds(DropAt(cons, k))
    ensures forall f :: f != cons[k].fd && Connected(cons, f) ==> Connected(DropAt(cons, k), f)
  {
    var r := DropAt(cons, k);
    forall f | f != cons[k].fd && Connected(cons, f) ensures Connected(r, f) {
      var i := FindCon(cons, f);
      assert r[if i < k then i else i - 1].fd == f;
    }
  }

  lemma AcceptFacts(cons: seq<Con>, c: Con)
    requires DistinctFds(cons)
    ensures !Connected(cons, c.fd) ==> DistinctFds(cons + [c])
    ensures forall f :: Connected(cons, f) ==> Connected(cons + [c], f)
  {
    var r := cons + [c];
    forall f | Connected(cons, f) ensures Connected(r, f) {
      assert r[FindCon(cons, f)].fd == f;
    }
  }

  lemma StepConnect(s: State, arrivals: seq<Pending>, answers: seq<Qmi>, clientFd: int)
    requires InStep(s, arrivals, answers)
    requires !Connected(s.cons, ToByte(clientFd))
    ensures InStep(Accept(s, clientFd), arrivals, answers)
  {
    AcceptFacts(s.cons, Con(ToByte(clientFd), []));
  }

  lemma StepHangup(s: State, arrivals: seq<Pending>, answers: seq<Qmi>, fd: int)
    requires InStep(s, arrivals, answers)
    ensures Harmless(s, Hangup(fd)) ==> InStep(Cleanup(s, fd), arrivals, answers)
    ensures !Harmless(s, Hangup(fd)) ==> !Fifo(Cleanup(s, fd), arrivals, answers)
  {
    var k := FindCon(s.cons, fd);
    if k < |s.cons| {
      DropConFacts(s.cons, k);
      var q := FindPending(s.queue, fd);
      if q < |s.queue| {
        assert s.queue[q] in s.queue;
        assert |Cleanup(s, fd).queue| < |s.queue|;
      } else {
        assert Cleanup(s, fd).queue == s.queue;
      }
    }
  }

  lemma StepService(s: State, arrivals: seq<Pending>, answers: seq<Qmi>, m: Qmi)
    requires InStep(s, arrivals, answers) && m.Service?
    ensures InStep(FromModem(s, m), arrivals, answers)
    ensures forall fd: byte :: InStep(FromClient(s, fd, m), arrivals, answers)
  {
    var keep := (d: Delivery) => d.qmi.Ctl?;
    RouteIsService(s.cons, m);
    FilterNone(Route(s.cons, m), keep);
    FilterAppend(s.toClients, Route(s.cons, m), keep);
    AppendOne(s.toModem, m, (x: Qmi) => x.Ctl?);
  }

  lemma RequestsPush(ps: seq<Pending>, p: Pending)
    ensures Requests(ps + [p]) == Requests(ps) + [p.qmi]
  {
  }

  /** The requests written to the modem once `r` answers have been consumed. */
  function Written(arrivals: seq<Pending>, r: nat): seq<Qmi> {
    Requests(arrivals[..Min(r + 1, |arrivals|)])
  }

  lemma WrittenPush(arrivals: seq<Pending>, r: nat, p: Pending)
    requires r <= |arrivals|
    ensures Written(arrivals + [p], r) == Written(arrivals, r) + if r == |arrivals| then [p.qmi] else []
  {
    if r == |arrivals| {
      assert arrivals[..r] == arrivals && (arrivals + [p])[..r + 1] == arrivals + [p];
      RequestsPush(arrivals, p);
    } else {
      assert (arrivals + [p])[..r + 1] == arrivals[..r + 1];
    }
  }

  lemma WrittenNext(arrivals: seq<Pending>, r: nat)
    requires r < |arrivals|
    ensures Written(arrivals, r + 1) == Written(arrivals, r) + if r + 1 < |arrivals| then [arrivals[r + 1].qmi] else []
  {
    if r + 1 < |arrivals| {
      assert arrivals[..r + 2] == arrivals[..r + 1] + [arrivals[r + 1]];
      RequestsPush(arrivals[..r + 1], arrivals[r + 1]);
    }
  }

  lemma StepRequest(s: State, arrivals: seq<Pending>, answers: seq<Qmi>, fd: byte, m: Qmi)
    requires InStep(s, arrivals, answers) && m.Ctl?
    requires Connected(s.cons, fd)
    ensures InStep(FromClient(s, fd, m), arrivals + [Pending(fd, m)], answers)
  {
    var s', arrivals' := FromClient(s, fd, m), arrivals + [Pending(fd, m)];
    AppendOne(s.toModem, m, (x: Qmi) => x.Ctl?);
    WrittenPush(arrivals, |answers|, Pending(fd, m));
    assert s'.queue == arrivals'[|answers|..];
    assert s'.queue[|s.queue|] == Pending(fd, m);
    assert Paired(arrivals', answers) == Paired(arrivals, answers);
  }

  /** A write of the queue head that is already in flight puts the modem's log out of step. */
  lemma StepNonResponse(s: State, arrivals: seq<Pending>, answers: seq<Qmi>, m: Qmi)
    requires InStep(s, arrivals, answers) && m.Ctl? && m.flags != FLAG_RSP
    ensures if s.queue == [] then InStep(FromModem(s, m), arrivals, answers) else !Fifo(FromModem(s, m), arrivals, answers)
  {
    if s.queue != [] {
      var p := s.queue[0];
      assert p in s.queue;
      PerConOnce(s.cons, p.fd, p.qmi);
      AppendOne(s.toModem, p.qmi, (x: Qmi) => x.Ctl?);
      if p.qmi.Service? {
        assert arrivals[..Min(|answers| + 1, |arrivals|)][|answers|] == p;
        RequestsAreCtl(s, arrivals[..Min(|answers| + 1, |arrivals|)], |answers|);
      }
    }
  }

  lemma {:induction false} FilterKeeps<T>(s: seq<T>, keep: T -> bool)
    ensures forall x :: x in Filter(s, keep) ==> keep(x)
  {
    if s != [] {
      FilterKeeps(s[..|s|-1], keep);
    }
  }

  lemma RequestsAreCtl(s: State, ps: seq<Pending>, i: nat)
    requires CtlWrites(s) == Requests(ps) && i < |ps|
    ensures ps[i].qmi.Ctl?
  {
    FilterKeeps(s.toModem, (x: Qmi) => x.Ctl?);
    assert Requests(ps)[i] in CtlWrites(s);
  }

  lemma StepKick(s: State)
    requires DistinctFds(s.cons) && s.queue != [] && Connected(s.cons, s.queue[0].fd) && s.queue[0].qmi.Ctl?
    ensures CtlWrites(Kick(s)) == CtlWrites(s) + [s.queue[0].qmi]
  {
    var p := s.queue[0];
    PerConOnce(s.cons, p.fd, p.qmi);
    AppendOne(s.toModem, p.qmi, (x: Qmi) => x.Ctl?);
  }

  lemma StepRespond(s: State, arrivals: seq<Pending>, answers: seq<Qmi>, m: Qmi)
    requires InStep(s, arrivals, answers) && m.Ctl? && s.queue != []
    ensures var s' := Respond(s, m);
      && s'.queue == arrivals[|answers| + 1..]
      && CtlDeliveries(s') == Paired(arrivals, answers + [m])
      && DistinctFds(s'.cons)
      && (forall p :: p in s'.queue ==> Connected(s'.cons, p.fd))
  {
    var p := s.queue[0];
    assert p in s.queue;
    PerConOnce(s.cons, p.fd, Delivery(p.fd, m));
    AppendOne(s.toClients, Delivery(p.fd, m), (d: Delivery) => d.qmi.Ctl?);
    SnoopKeepsFds(s.cons, p.fd, m);
    assert Paired(arrivals, answers + [m]) == Paired(arrivals, answers) + [Delivery(p.fd, m)];
  }

  lemma StepResponse(s: State, arrivals: seq<Pending>, answers: seq<Qmi>, m: Qmi)
    requires InStep(s, arrivals, answers) && m.Ctl? && m.flags == FLAG_RSP && s.queue != []
    requires forall p :: p in arrivals ==> p.qmi.Ctl?
    ensures InStep(FromModem(s, m), arrivals, answers + [m])
  {
    var s', r := Respond(s, m), |answers|;
    StepRespond(s, arrivals, answers, m);
    WrittenNext(arrivals, r);
    if s'.queue != [] {
      var p := arrivals[r + 1];
      assert s'.queue[0] == p && p in arrivals && p in s'.queue;
      StepKick(s');
    }
  }

  /** In orderly surroundings, one event keeps first in, first out if and only if it is harmless. */
  lemma FifoStep(s: State, arrivals: seq<Pending>, answers: seq<Qmi>, e: Event)
    requires InStep(s, arrivals, answers) && Orderly(s, e)
    requires forall p :: p in arrivals ==> p.qmi.Ctl?
    ensures Fifo(Step(s, e), arrivals + ArrivalOf(e), answers + AnswerOf(s, e)) <==> Harmless(s, e)
    ensures Harmless(s, e) ==> Served(Step(s, e))
  {
    assert arrivals + [] == arrivals && answers + [] == answers;
    match e
    case Connect(clientFd) => StepConnect(s, arrivals, answers, clientFd);
    case Hangup(fd) => StepHangup(s, arrivals, answers, fd);
    case Modem(m) =>
      if m.Service? { StepService(s, arrivals, answers, m); }
      else if m.flags == FLAG_RSP {
        if s.queue != [] { StepResponse(s, arrivals, answers, m); }
      } else { StepNonResponse(s, arrivals, answers, m); }
    case Client(fd, m) =>
      if m.Service? { StepService(s, arrivals, answers, m); }
      else { StepRequest(s, arrivals, answers, fd, m); }
  }

  ghost predicate OrderlyRun(es: seq<Event>) {
    es == [] || (OrderlyRun(es[..|es|-1]) && Orderly(Run(es[..|es|-1]), es[|es|-1]))
  }

  ghost predicate HarmlessRun(es: seq<Event>) {
    es == [] || (HarmlessRun(es[..|es|-1]) && Harmless(Run(es[..|es|-1]), es[|es|-1]))
  }

  /** First in, first out after the run and after every beginning of it. */
  ghost predicate FifoThroughout(es: seq<Event>) {
    Fifo(Run(es), Arrivals(es), Answers(es)) && (es == [] || FifoThroughout(es[..|es|-1]))
  }

  lemma {:induction false} ArrivalsAreCtl(es: seq<Event>)
    ensures forall p :: p in Arrivals(es) ==> p.qmi.Ctl?
  {
    if es != [] {
      ArrivalsAreCtl(es[..|es|-1]);
    }
  }

  /** Every harmless run is first in, first out with one request in flight. */
  lemma {:induction false} FifoRun(es: seq<Event>)
    requires OrderlyRun(es) && HarmlessRun(es)
    ensures InStep(Run(es), Arrivals(es), Answers(es))
  {
    if es != [] {
      var es' := es[..|es|-1];
      FifoRun(es');
      ArrivalsAreCtl(es');
      FifoStep(Run(es'), Arrivals(es'), Answers(es'), es[|es|-1]);
    }
  }

  /** In orderly surroundings, a run is first in, first out throughout if and only if it is harmless. */
  lemma {:induction false} FifoExactly(es: seq<Event>)
    requires OrderlyRun(es)
    ensures FifoThroughout(es) <==> HarmlessRun(es)
  {
    if es != [] {
      var es' := es[..|es|-1];
      FifoExactly(es');
      if HarmlessRun(es') {
        FifoRun(es');
        ArrivalsAreCtl(es');
        FifoStep(Run(es'), Arrivals(es'), Answers(es'), es[|es|-1]);
      }
    }
  }

  // ---------- what a disconnect breaks ----------

  function QueuedBy(queue: seq<Pending>, fd: int): nat {
    if queue == [] then 0 else (if queue[0].fd == fd then 1 else 0) + QueuedBy(queue[1..], fd)
  }

  lemma {:induction false} QueuedByNone(queue: seq<Pending>, fd: int)
    ensures QueuedBy(queue, fd) == 0 <==> forall p :: p in queue ==> p.fd != fd
  {
    if queue != [] {
      QueuedByNone(queue[1..], fd);
      assert forall p :: p in queue <==> p == queue[0] || p in queue[1..];
    }
  }

  lemma {:induction false} QueuedByAppend(a: seq<Pending>, b: seq<Pending>, fd: int)
    ensures QueuedBy(a + b, fd) == QueuedBy(a, fd) + QueuedBy(b, fd)
  {
    if a == [] {
      assert a + b == b;
    } else {
      assert (a + b)[1..] == a[1..] + b;
      QueuedByAppend(a[1..], b, fd);
    }
  }

  lemma QueuedByDrop(queue: seq<Pending>, fd: int)
    ensures var n := QueuedBy(queue, fd);
      QueuedBy(DropAt(queue, FindPending(queue, fd)), fd) == if n == 0 then 0 else n - 1
  {
    var k := FindPending(queue, fd);
    QueuedByNone(queue, fd);
    if k < |queue| {
      assert queue[k] in queue;
      assert queue == queue[..k] + ([queue[k]] + queue[k+1..]);
      QueuedByAppend(queue[..k], [queue[k]] + queue[k+1..], fd);
      QueuedByAppend(queue[..k], queue[k+1..], fd);
    }
  }

  /** Cleaning up a connection empties the queue of its requests just when it had at most one. */
  lemma HangupForgetsRequests(s: State, fd: int)
    requires Connected(s.cons, fd)
    ensures (forall p :: p in Cleanup(s, fd).queue ==> p.fd != fd) <==> QueuedBy(s.queue, fd) <= 1
  {
    QueuedByDrop(s.queue, fd);
    QueuedByNone(Cleanup(s, fd).queue, fd);
  }

  /**
   When the sender of the request in flight disconnects, the next request becomes the head although
   only the requests before it have been written to the modem; the answer to the departed request is
   delivered to its sender, and it leaves the queue without ever having been written.
   */
  lemma LateAnswerIsMisrouted(s: State, arrivals: seq<Pending>, answers: seq<Qmi>, m: Qmi)
    requires InStep(s, arrivals, answers) && m.Ctl? && m.flags == FLAG_RSP
    requires |s.queue| > 1 && s.queue[0].fd != s.queue[1].fd
    ensures var s' := Cleanup(s, s.queue[0].fd);
      && s'.queue[0] == s.queue[1]
      && s'.toModem == s.toModem
      && s'.queue[0] == arrivals[|answers| + 1]
      && CtlWrites(s') == Requests(arrivals[..|answers| + 1])
      && FromModem(s', m).toClients == s.toClients + [Delivery(s.queue[1].fd, m)]
      && FromModem(s', m).queue == s.queue[2..]
  {
    var fd, next := s.queue[0].fd, s.queue[1].fd;
    HeadLeaves(s, arrivals, answers);
    var s' := Cleanup(s, fd);
    PerConOnce(s'.cons, next, Delivery(next, m));
    assert Respond(s', m).queue == s.queue[2..];
  }

  /** The sender of the request in flight disconnects. */
  lemma HeadLeaves(s: State, arrivals: seq<Pending>, answers: seq<Qmi>)
    requires InStep(s, arrivals, answers) && |s.queue| > 1 && s.queue[0].fd != s.queue[1].fd
    ensures var s' := Cleanup(s, s.queue[0].fd);
      && s'.queue == s.queue[1..] && s.queue[1] == arrivals[|answers| + 1]
      && s'.toModem == s.toModem && s'.toClients == s.toClients
      && CtlWrites(s') == Requests(arrivals[..|answers| + 1])
      && DistinctFds(s'.cons) && Connected(s'.cons, s.queue[1].fd)
  {
    assert s.queue[0] in s.queue && s.queue[1] in s.queue;
    DropConFacts(s.cons, FindCon(s.cons, s.queue[0].fd));
    assert FindPending(s.queue, s.queue[0].fd) == 0;
  }

  // ---------- runs that go wrong ----------

  /** Two clients ask, the first hangs up: its answer goes to the second, whose own request is never written. */
  lemma MisroutedRun(a: byte, b: byte, p: Qmi, q: Qmi, m: Qmi)
    requires a != b && IsRequest(p) && IsRequest(q) && IsAnswer(m)
    ensures var s := Run([Connect(a), Connect(b), Client(a, p), Client(b, q), Hangup(a), Modem(m)]);
      s.toClients == [Delivery(b, m)] && s.toModem == [p] && s.queue == []
  {
    var es := [Connect(a), Connect(b), Client(a, p), Client(b, q), Hangup(a), Modem(m)];
    TwoClientsAsk(a, b, p, q);
    FirstHangsUp(a, b, p, q, m);
    RunFromIs([], es);
    assert [] + es == es;
    Unrolled6(Init, es);
  }

  function TwoAsking(a: byte, b: byte, p: Qmi, q: Qmi): State {
    State([Con(a, []), Con(b, [])], [Pending(a, p), Pending(b, q)], [p], [], [], false)
  }

  lemma TwoClientsAsk(a: byte, b: byte, p: Qmi, q: Qmi)
    requires IsRequest(p) && IsRequest(q)
    ensures Step(Step(Step(Step(Init, Connect(a)), Connect(b)), Client(a, p)), Client(b, q)) == TwoAsking(a, b, p, q)
  {
    var s2 := Init.(cons := [Con(a, []), Con(b, [])]);
    assert Accept(Accept(Init, a), b) == s2;
    assert FromClient(FromClient(s2, a, p), b, q) == TwoAsking(a, b, p, q);
  }

  lemma FirstHangsUp(a: byte, b: byte, p: Qmi, q: Qmi, m: Qmi)
    requires a != b && IsAnswer(m)
    ensures var s := Step(Step(TwoAsking(a, b, p, q), Hangup(a)), Modem(m));
      s.toClients == [Delivery(b, m)] && s.toModem == [p] && s.queue == []
  {
    var s4 := TwoAsking(a, b, p, q);
    assert FindCon(s4.cons, a) == 0 && FindPending(s4.queue, a) == 0;
    assert Cleanup(s4, a) == State([Con(b, [])], [Pending(b, q)], [p], [], [a], false);
    assert PerCon([Con(b, [])], b, Delivery(b, m)) == [Delivery(b, m)];
  }

  /** A client with two requests queued hangs up, and one of them stays. */
  lemma TwoQueuedRun(a: byte, p: Qmi, q: Qmi)
    requires IsRequest(p) && IsRequest(q)
    ensures var s := Run([Connect(a), Client(a, p), Client(a, q), Hangup(a)]);
      s.cons == [] && s.queue == [Pending(a, q)] && s.closed == [a]
  {
    var es := [Connect(a), Client(a, p), Client(a, q), Hangup(a)];
    var s3 := Init.(cons := [Con(a, [])], queue := [Pending(a, p), Pending(a, q)], toModem := [p]);
    assert FromClient(FromClient(Accept(Init, a), a, p), a, q) == s3;
    assert FindCon(s3.cons, a) == 0 && FindPending(s3.queue, a) == 0;
    RunFromIs([], es);
    assert [] + es == es;
    Unrolled3(Init, es[..3]);
    RunFromSplit(Init, es[..3], es[3..]);
    assert es[..3] + es[3..] == es;
    assert RunFrom(s3, es[3..]) == Step(s3, es[3]);
  }

  /** A control message that is no response while a request waits: the request is written twice. */
  lemma RewrittenRun(a: byte, p: Qmi, m: Qmi)
    requires IsRequest(p) && IsRequest(m)
    ensures Run([Connect(a), Client(a, p), Modem(m)]).toModem == [p, p]
  {
    var es := [Connect(a), Client(a, p), Modem(m)];
    var s2 := Init.(cons := [Con(a, [])], queue := [Pending(a, p)], toModem := [p]);
    assert FromClient(Accept(Init, a), a, p) == s2;
    assert PerCon(s2.cons, a, p) == [p];
    RunFromIs([], es);
    assert [] + es == es;
    Unrolled3(Init, es);
  }
}
