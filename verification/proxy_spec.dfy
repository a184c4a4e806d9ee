/**
 The QMI proxy as a state machine over values: what each event does to the connection list,
 the queue of control requests and the two streams of writes. The class in `Proxy` is proved
 to perform exactly these steps on its linked lists.
 */
module ProxySpec {
  import opened Prelude

  const FLAG_RSP := 1
  const GET_CLIENT_ID := 0x22
  const RELEASE_CLIENT_ID := 0x23
  const REVOKE_CLIENT_ID := 0x24

  /** A service type and the client id the modem granted for it. */
  datatype Key = Key(qmiType: byte, clientId: byte)

  /** A QMI message: the fields the proxy reads, and the rest of its bytes. */
  datatype Qmi =
    | Ctl(flags: byte, ctlType: nat, result: nat, error: nat, key: Key, rest: seq<byte>)
    | Service(key: Key, rest: seq<byte>)

  /** A queued control request and the descriptor it came from. */
  datatype Pending = Pending(fd: byte, qmi: Qmi)

  /** A write to a client socket. */
  datatype Delivery = Delivery(fd: byte, qmi: Qmi)

  /** A connection and the client ids registered for it. */
  datatype Con = Con(fd: byte, clients: seq<Key>)

  datatype State = State(
    cons: seq<Con>,
    queue: seq<Pending>,
    toModem: seq<Qmi>,
    toClients: seq<Delivery>,
    closed: seq<byte>,
    reset: bool)

  const Init := State([], [], [], [], [], false)

  // ---------- connections ----------

  function Accept(s: State, clientFd: int): State {
    s.(cons := s.cons + [Con(ToByte(clientFd), [])])
  }

  /** Position of the first connection on `fd`, or |cons|. */
  function FindCon(cons: seq<Con>, fd: int): (k: nat)
    ensures k <= |cons|
    ensures k < |cons| ==> cons[k].fd == fd
    ensures forall i :: 0 <= i < k ==> cons[i].fd != fd
  {
    if cons == [] || cons[0].fd == fd then 0 else 1 + FindCon(cons[1..], fd)
  }

  /** Position of the first request queued by `fd`, or |queue|. */
  function FindPending(queue: seq<Pending>, fd: int): (k: nat)
    ensures k <= |queue|
    ensures k < |queue| ==> queue[k].fd == fd
    ensures forall i :: 0 <= i < k ==> queue[i].fd != fd
  {
    if queue == [] || queue[0].fd == fd then 0 else 1 + FindPending(queue[1..], fd)
  }

  /** Position of the first registration of `key`, or |clients|. */
  function FindKey(clients: seq<Key>, key: Key): (k: nat)
    ensures k <= |clients|
    ensures k < |clients| ==> clients[k] == key
    ensures forall i :: 0 <= i < k ==> clients[i] != key
  {
    if clients == [] || clients[0] == key then 0 else 1 + FindKey(clients[1..], key)
  }

  function DropAt<T>(s: seq<T>, k: nat): seq<T> {
    if k < |s| then s[..k] + s[k+1..] else s
  }

  function Cleanup(s: State, fd: int): State {
    var k := FindCon(s.cons, fd);
    if k == |s.cons| then s
    else s.(cons := DropAt(s.cons, k),
            queue := DropAt(s.queue, FindPending(s.queue, fd)),
            closed := s.closed + [s.cons[k].fd])
  }

  /** The drain loop at thread exit: clean up the first connection until none is left. */
  function Drain(s: State): State
    decreases |s.cons|
  {
    if s.cons == [] then s else Drain(Cleanup(s, s.cons[0].fd))
  }

  // ---------- messages ----------

  predicate Succeeded(m: Qmi)
    requires m.Ctl?
  {
    m.result == 0 && m.error == 0
  }

  function Granted(clients: seq<Key>, m: Qmi): seq<Key>
    requires m.Ctl?
  {
    if Succeeded(m) then clients + [m.key] else clients
  }

  function Released(clients: seq<Key>, m: Qmi): seq<Key>
    requires m.Ctl?
  {
    if Succeeded(m) then DropAt(clients, FindKey(clients, m.key)) else clients
  }

  predicate IsRelease(m: Qmi)
    requires m.Ctl?
  {
    m.ctlType == RELEASE_CLIENT_ID || m.ctlType == REVOKE_CLIENT_ID
  }

  /** What the proxy learns from a control response it forwards. */
  function Snoop(clients: seq<Key>, m: Qmi): seq<Key>
    requires m.Ctl?
  {
    if m.ctlType == GET_CLIENT_ID then Granted(clients, m)
    else if IsRelease(m) then Released(clients, m)
    else clients
  }

  function SnoopAll(cons: seq<Con>, fd: byte, m: Qmi): (r: seq<Con>)
    requires m.Ctl?
    ensures |r| == |cons|
    ensures forall i :: 0 <= i < |cons| ==>
      r[i] == if cons[i].fd == fd then Con(fd, Snoop(cons[i].clients, m)) else cons[i]
  {
    if cons == [] then []
    else [if cons[0].fd == fd then Con(fd, Snoop(cons[0].clients, m)) else cons[0]] + SnoopAll(cons[1..], fd, m)
  }

  /** One copy of `x` for each connection on `fd`. */
  function PerCon<T>(cons: seq<Con>, fd: byte, x: T): seq<T> {
    if cons == [] then [] else (if cons[0].fd == fd then [x] else []) + PerCon(cons[1..], fd, x)
  }

  /** A response is handed to the sender of the request at the head of the queue. */
  function Respond(s: State, m: Qmi): State
    requires m.Ctl?
  {
    if s.queue == [] then s
    else
      var fd := s.queue[0].fd;
      s.(cons := SnoopAll(s.cons, fd, m),
         queue := s.queue[1..],
         toClients := s.toClients + PerCon(s.cons, fd, Delivery(fd, m)),
         reset := s.reset || (m.ctlType == REVOKE_CLIENT_ID && FindCon(s.cons, fd) < |s.cons|))
  }

  /** The part of `Respond` that concerns the connection at `i`. */
  function ForwardOne(s: State, i: nat, fd: byte, m: Qmi): State
    requires m.Ctl? && i < |s.cons|
  {
    if s.cons[i].fd != fd then s
    else s.(cons := s.cons[i := Con(fd, Snoop(s.cons[i].clients, m))],
            toClients := s.toClients + [Delivery(fd, m)],
            reset := s.reset || m.ctlType == REVOKE_CLIENT_ID)
  }

  function ForwardFrom(s: State, i: nat, fd: byte, m: Qmi): State
    requires m.Ctl? && i <= |s.cons|
    decreases |s.cons| - i
  {
    if i == |s.cons| then s else ForwardFrom(ForwardOne(s, i, fd, m), i + 1, fd, m)
  }

  lemma {:induction false} ForwardFromCons(s: State, i: nat, fd: byte, m: Qmi)
    requires m.Ctl? && i <= |s.cons|
    ensures var r := ForwardFrom(s, i, fd, m);
      && r == s.(cons := r.cons, toClients := r.toClients, reset := r.reset)
      && |r.cons| == |s.cons|
      && (forall j :: 0 <= j < |s.cons| ==>
            r.cons[j] == if i <= j && s.cons[j].fd == fd then Con(fd, Snoop(s.cons[j].clients, m)) else s.cons[j])
    decreases |s.cons| - i
  {
    if i < |s.cons| {
      ForwardFromCons(ForwardOne(s, i, fd, m), i + 1, fd, m);
    }
  }

  lemma {:induction false} ForwardFromSends(s: State, i: nat, fd: byte, m: Qmi)
    requires m.Ctl? && i <= |s.cons|
    ensures ForwardFrom(s, i, fd, m).toClients == s.toClients + PerCon(s.cons[i..], fd, Delivery(fd, m))
    ensures ForwardFrom(s, i, fd, m).reset
        == (s.reset || (m.ctlType == REVOKE_CLIENT_ID && PerCon(s.cons[i..], fd, Delivery(fd, m)) != []))
    decreases |s.cons| - i
  {
    if i < |s.cons| {
      var s' := ForwardOne(s, i, fd, m);
      assert s.cons[i..][1..] == s.cons[i + 1..] == s'.cons[i + 1..];
      ForwardFromSends(s', i + 1, fd, m);
    }
  }

  lemma {:induction false} PerConEmpty<T>(cons: seq<Con>, fd: byte, x: T)
    ensures PerCon(cons, fd, x) == [] <==> FindCon(cons, fd) == |cons|
  {
    if cons != [] {
      PerConEmpty(cons[1..], fd, x);
    }
  }

  /** Forwarding connection by connection is forwarding to all of them. */
  lemma ForwardFromAll(s: State, fd: byte, m: Qmi)
    requires m.Ctl?
    ensures ForwardFrom(s, 0, fd, m)
         == s.(cons := SnoopAll(s.cons, fd, m),
               toClients := s.toClients + PerCon(s.cons, fd, Delivery(fd, m)),
               reset := s.reset || (m.ctlType == REVOKE_CLIENT_ID && FindCon(s.cons, fd) < |s.cons|))
  {
    ForwardFromCons(s, 0, fd, m);
    ForwardFromSends(s, 0, fd, m);
    PerConEmpty(s.cons, fd, Delivery(fd, m));
    assert s.cons[0..] == s.cons;
  }

  /** Appending a service message's deliveries connection by connection, or client by client. */
  function RouteFrom(out: seq<Delivery>, cons: seq<Con>, i: nat, m: Qmi): seq<Delivery>
    requires m.Service? && i <= |cons|
    decreases |cons| - i
  {
    if i == |cons| then out else RouteFrom(out + RouteOne(cons[i].fd, cons[i].clients, m), cons, i + 1, m)
  }

  function RouteOneFrom(out: seq<Delivery>, fd: byte, clients: seq<Key>, k: nat, m: Qmi): seq<Delivery>
    requires m.Service? && k <= |clients|
    decreases |clients| - k
  {
    if k == |clients| then out
    else RouteOneFrom(if Matches(clients[k], m) then out + [Delivery(fd, m)] else out, fd, clients, k + 1, m)
  }

  function PerConFrom<T>(out: seq<T>, cons: seq<Con>, i: nat, fd: byte, x: T): seq<T>
    requires i <= |cons|
    decreases |cons| - i
  {
    if i == |cons| then out else PerConFrom(if cons[i].fd == fd then out + [x] else out, cons, i + 1, fd, x)
  }

  lemma {:induction false} RouteFromAll(out: seq<Delivery>, cons: seq<Con>, i: nat, m: Qmi)
    requires m.Service? && i <= |cons|
    ensures RouteFrom(out, cons, i, m) == out + Route(cons[i..], m)
    decreases |cons| - i
  {
    if i < |cons| {
      assert cons[i..][1..] == cons[i + 1..];
      RouteFromAll(out + RouteOne(cons[i].fd, cons[i].clients, m), cons, i + 1, m);
    }
  }

  lemma {:induction false} RouteOneFromAll(out: seq<Delivery>, fd: byte, clients: seq<Key>, k: nat, m: Qmi)
    requires m.Service? && k <= |clients|
    ensures RouteOneFrom(out, fd, clients, k, m) == out + RouteOne(fd, clients[k..], m)
    decreases |clients| - k
  {
    if k < |clients| {
      assert clients[k..][1..] == clients[k + 1..];
      RouteOneFromAll(if Matches(clients[k], m) then out + [Delivery(fd, m)] else out, fd, clients, k + 1, m);
    }
  }

  lemma {:induction false} PerConFromAll<T>(out: seq<T>, cons: seq<Con>, i: nat, fd: byte, x: T)
    requires i <= |cons|
    ensures PerConFrom(out, cons, i, fd, x) == out + PerCon(cons[i..], fd, x)
    decreases |cons| - i
  {
    if i < |cons| {
      assert cons[i..][1..] == cons[i + 1..];
      PerConFromAll(if cons[i].fd == fd then out + [x] else out, cons, i + 1, fd, x);
    }
  }

  /** The head of the queue is written to the modem, if its sender is still connected. */
  function Kick(s: State): State {
    if s.queue == [] then s
    else s.(toModem := s.toModem + PerCon(s.cons, s.queue[0].fd, s.queue[0].qmi))
  }

  /** The registrations of one connection that a service message goes to. */
  predicate Matches(key: Key, m: Qmi)
    requires m.Service?
  {
    m.key.qmiType == key.qmiType && (m.key.clientId == 0 || m.key.clientId == key.clientId)
  }

  function RouteOne(fd: byte, clients: seq<Key>, m: Qmi): seq<Delivery>
    requires m.Service?
  {
    if clients == [] then []
    else (if Matches(clients[0], m) then [Delivery(fd, m)] else []) + RouteOne(fd, clients[1..], m)
  }

  function Route(cons: seq<Con>, m: Qmi): seq<Delivery>
    requires m.Service?
  {
    if cons == [] then [] else RouteOne(cons[0].fd, cons[0].clients, m) + Route(cons[1..], m)
  }

  function FromModem(s: State, m: Qmi): State {
    if m.Ctl? then Kick(if m.flags == FLAG_RSP then Respond(s, m) else s)
    else s.(toClients := s.toClients + Route(s.cons, m))
  }

  function FromClient(s: State, fd: byte, m: Qmi): State {
    if m.Ctl? then
      s.(toModem := if s.queue == [] then s.toModem + [m] else s.toModem,
         queue := s.queue + [Pending(fd, m)])
    else s.(toModem := s.toModem + [m])
  }

  // ---------- runs ----------

  datatype Event =
    | Connect(clientFd: int)
    | Hangup(conFd: int)
    | Modem(m: Qmi)
    | Client(fd: byte, m: Qmi)

  function Step(s: State, e: Event): State {
    match e
    case Connect(fd) => Accept(s, fd)
    case Hangup(fd) => Cleanup(s, fd)
    case Modem(m) => FromModem(s, m)
    case Client(fd, m) => FromClient(s, fd, m)
  }
}
