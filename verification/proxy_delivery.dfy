/**
 What passes through the proxy in any run whatever: service messages in both directions, answers to control
 requests, and what ends the loop.
 */
module ProxyDelivery {
  import opened Prelude
  import opened ProxySpec
  import opened ProxyRuns
  import Fifo = ProxyFifo
  import Registry = ProxyRegistry

  // ---------- from the clients to the modem ----------

  predicate IsService(m: Qmi) {
    m.Service?
  }

  /** The service messages clients sent, in order. */
  function Sent(es: seq<Event>): seq<Qmi> {
    if es == [] then []
    else Sent(es[..|es|-1]) + if es[|es|-1].Client? && es[|es|-1].m.Service? then [es[|es|-1].m] else []
  }

  function ServiceOf(ms: seq<Qmi>): seq<Qmi> {
    Fifo.Filter(ms, IsService)
  }

  predicate QueueIsCtl(s: State) {
    forall p :: p in s.queue ==> p.qmi.Ctl?
  }

  lemma {:induction false} PerConAll<T>(cons: seq<Con>, fd: byte, x: T)
    ensures forall y :: y in PerCon(cons, fd, x) ==> y == x
  {
    if cons != [] {
      PerConAll(cons[1..], fd, x);
    }
  }

  lemma KickWritesNoService(s: State)
    requires QueueIsCtl(s)
    ensures ServiceOf(Kick(s).toModem) == ServiceOf(s.toModem)
  {
    if s.queue != [] {
      var p := s.queue[0];
      var more := PerCon(s.cons, p.fd, p.qmi);
      assert p in s.queue;
      PerConAll(s.cons, p.fd, p.qmi);
      Fifo.FilterAppend(s.toModem, more, IsService);
      Fifo.FilterNone(more, IsService);
    }
  }

  lemma ServiceStep(s: State, e: Event)
    requires QueueIsCtl(s)
    ensures QueueIsCtl(Step(s, e))
    ensures ServiceOf(Step(s, e).toModem) == ServiceOf(s.toModem) + if e.Client? && e.m.Service? then [e.m] else []
  {
    match e
    case Connect(_) =>
    case Hangup(_) =>
    case Client(_, m) => Fifo.AppendOne(s.toModem, m, IsService);
    case Modem(m) =>
      if m.Ctl? {
        KickWritesNoService(if m.flags == FLAG_RSP then Respond(s, m) else s);
      }
  }

  /** In every run the service messages written to the modem are exactly those of the clients, in order, each once. */
  lemma {:induction false} ServicePasses(es: seq<Event>)
    ensures ServiceOf(Run(es).toModem) == Sent(es)
    ensures QueueIsCtl(Run(es))
  {
    if es != [] {
      ServicePasses(es[..|es|-1]);
      ServiceStep(Run(es[..|es|-1]), es[|es|-1]);
    }
  }

  // ---------- from the modem to the clients ----------

  /** How many registrations there are for a service type. */
  function OfType(clients: seq<Key>, ty: byte): nat {
    if clients == [] then 0 else OfType(clients[1..], ty) + if clients[0].qmiType == ty then 1 else 0
  }

  /** How many copies of a service message a connection is due: client id 0 addresses every registration of the type. */
  function Due(c: Con, m: Qmi): nat
    requires m.Service?
  {
    if m.key.clientId == 0 then OfType(c.clients, m.key.qmiType) else multiset(c.clients)[m.key]
  }

  function Copies<T>(n: nat, x: T): seq<T> {
    seq(n, _ => x)
  }

  /** The copies all connections are due, in list order. */
  function DueTo(cons: seq<Con>, m: Qmi): seq<Delivery>
    requires m.Service?
  {
    if cons == [] then [] else Copies(Due(cons[0], m), Delivery(cons[0].fd, m)) + DueTo(cons[1..], m)
  }

  lemma {:induction false} RouteOneIs(fd: byte, clients: seq<Key>, m: Qmi)
    requires m.Service?
    ensures RouteOne(fd, clients, m) == Copies(Due(Con(fd, clients), m), Delivery(fd, m))
  {
    if clients != [] {
      RouteOneIs(fd, clients[1..], m);
      assert clients == [clients[0]] + clients[1..];
    }
  }

  /** A service message is written once for every registration it addresses, connection by connection. */
  lemma {:induction false} RouteIs(cons: seq<Con>, m: Qmi)
    requires m.Service?
    ensures Route(cons, m) == DueTo(cons, m)
  {
    if cons != [] {
      RouteOneIs(cons[0].fd, cons[0].clients, m);
      RouteIs(cons[1..], m);
    }
  }

  /** A control message goes once to each connection on a descriptor. */
  lemma {:induction false} PerConIs<T>(cons: seq<Con>, fd: byte, x: T)
    ensures PerCon(cons, fd, x) == Copies(Registry.Sharing(cons, fd), x)
  {
    if cons != [] {
      PerConIs(cons[1..], fd, x);
    }
  }

  /** All that an event has written to clients. */
  function DeliveredBy(s: State, e: Event): seq<Delivery> {
    if e.Modem? && e.m.Service? then DueTo(s.cons, e.m)
    else if Answering(s, e) then Copies(Registry.Sharing(s.cons, s.queue[0].fd), Delivery(s.queue[0].fd, e.m))
    else []
  }

  function Delivered(es: seq<Event>): seq<Delivery> {
    if es == [] then [] else Delivered(es[..|es|-1]) + DeliveredBy(Run(es[..|es|-1]), es[|es|-1])
  }

  lemma DeliveredStep(s: State, e: Event)
    ensures Step(s, e).toClients == s.toClients + DeliveredBy(s, e)
  {
    match e
    case Connect(_) =>
    case Hangup(_) =>
    case Client(_, _) =>
    case Modem(m) =>
      if m.Service? {
        RouteIs(s.cons, m);
      } else if s.queue != [] {
        PerConIs(s.cons, s.queue[0].fd, Delivery(s.queue[0].fd, m));
      }
  }

  /**
   In every run the clients get the modem's service messages, each as often as a connection has registrations
   it addresses, and its control responses, once for each connection on the descriptor of the request at the
   head of the queue; all in the order of the events, and nothing else.
   */
  lemma {:induction false} DeliveredRun(es: seq<Event>)
    ensures Run(es).toClients == Delivered(es)
  {
    if es != [] {
      DeliveredRun(es[..|es|-1]);
      DeliveredStep(Run(es[..|es|-1]), es[|es|-1]);
    }
  }

  // ---------- all that the modem gets ----------

  /**
   All that an event has written to the modem: a service message at once, a request that finds the queue empty,
   and after any control message the head of the queue, once for each connection on its descriptor.
   */
  function WrittenBy(s: State, e: Event): seq<Qmi> {
    if e.Client? then (if e.m.Service? || s.queue == [] then [e.m] else [])
    else if e.Modem? && e.m.Ctl? then
      var left := if e.m.flags == 1 && s.queue != [] then s.queue[1..] else s.queue;
      if left == [] then [] else Copies(Registry.Sharing(s.cons, left[0].fd), left[0].qmi)
    else []
  }

  lemma {:induction false} SharingKept(cons: seq<Con>, other: seq<Con>, fd: byte)
    requires |cons| == |other| && forall i :: 0 <= i < |cons| ==> cons[i].fd == other[i].fd
    ensures Registry.Sharing(cons, fd) == Registry.Sharing(other, fd)
  {
    if cons != [] {
      assert cons[0].fd == other[0].fd;
      forall i | 0 <= i < |cons[1..]| ensures cons[1..][i].fd == other[1..][i].fd {
        assert cons[i + 1].fd == other[i + 1].fd;
      }
      SharingKept(cons[1..], other[1..], fd);
    }
  }

  function Written(es: seq<Event>): seq<Qmi> {
    if es == [] then [] else Written(es[..|es|-1]) + WrittenBy(Run(es[..|es|-1]), es[|es|-1])
  }

  lemma WrittenStep(s: State, e: Event)
    ensures Step(s, e).toModem == s.toModem + WrittenBy(s, e)
  {
    if e.Modem? && e.m.Ctl? {
      var t := if e.m.flags == FLAG_RSP then Respond(s, e.m) else s;
      if t.queue != [] {
        SameFds(s, e);
        SharingKept(s.cons, t.cons, t.queue[0].fd);
        PerConIs(t.cons, t.queue[0].fd, t.queue[0].qmi);
      }
    }
  }

  /** In every run, with or without shared descriptors, the modem gets just that. */
  lemma {:induction false} WrittenRun(es: seq<Event>)
    ensures Run(es).toModem == Written(es)
  {
    if es != [] {
      WrittenRun(es[..|es|-1]);
      WrittenStep(Run(es[..|es|-1]), es[|es|-1]);
    }
  }

  // ---------- the end of the loop ----------

  /** A response of type 0x24 has been forwarded to a connection. */
  predicate Revoked(es: seq<Event>) {
    es != []
    && var before, e := Run(es[..|es|-1]), es[|es|-1];
      Revoked(es[..|es|-1]) || (Answering(before, e) && e.m.ctlType == 0x24 && Connected(before.cons, before.queue[0].fd))
  }

  /** The loop is told to end if and only if a revocation has reached a connected client. */
  lemma {:induction false} ResetExactly(es: seq<Event>)
    ensures Run(es).reset <==> Revoked(es)
  {
    if es != [] {
      ResetExactly(es[..|es|-1]);
    }
  }
}
