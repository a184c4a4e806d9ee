/**
 The QMI proxy on its linked lists. Every handler is proved to perform the step of the same name in
 `ProxySpec`, to keep the lists well formed and apart, and never to reach or free freed memory.
 */
module Proxy {
  import opened Prelude
  import opened QList
  import opened Connections
  import Spec = ProxySpec
  import Runs = ProxyRuns
  import End = ProxyExit
  import Delivery = ProxyDelivery

  class Proxy {
    const registry: Registry
    const ctlMsgs: List<Spec.Pending>
    /** Frames written to the modem, frames written to clients, and descriptors closed, in order. */
    var toModem: seq<Spec.Qmi>
    var toClients: seq<Spec.Delivery>
    var closed: seq<byte>
    var modemReset: bool
    /** Live memory, and request nodes given back to the allocator. */
    ghost var Repr: set<object>
    ghost var freed: set<object>

    ghost predicate Valid()
      reads this, Repr
    {
      && this in Repr
      && registry in Repr && registry.Repr <= Repr && this !in registry.Repr && registry.Valid()
      && ctlMsgs in Repr && ctlMsgs.Repr <= Repr && this !in ctlMsgs.Repr && ctlMsgs.Valid()
      && registry.Repr !! ctlMsgs.Repr
      && Repr !! freed && Repr !! registry.freed
    }

    ghost function Abs(): Spec.State
      requires Valid()
      reads this, Repr
    {
      Spec.State(registry.cons, ctlMsgs.Items(), toModem, toClients, closed, modemReset)
    }

    constructor ()
      ensures Valid() && fresh(Repr)
      ensures Abs() == Spec.Init
    {
      registry := new Registry();
      ctlMsgs := new List<Spec.Pending>();
      toModem, toClients, closed, modemReset := [], [], [], false;
      freed := {};
      new;
      Repr := {this} + registry.Repr + ctlMsgs.Repr;
    }

    method Accept(clientFd: int)
      requires Valid()
      modifies Repr
      ensures Valid() && fresh(Repr - old(Repr))
      ensures Abs() == Spec.Accept(old(Abs()), clientFd)
    {
      registry.Accept(clientFd);
      Repr := {this} + registry.Repr + ctlMsgs.Repr;
    }

    /** Takes the request at `k` off the queue and frees it. */
    method DropRequest(node: QNode<Spec.Pending>, ghost k: nat)
      requires Valid() && k < |ctlMsgs.nodes| && ctlMsgs.nodes[k] == node
      modifies this`Repr, this`freed, ctlMsgs.Repr
      ensures Valid() && Repr == old(Repr) - {node} && freed == old(freed) + {node}
      ensures Abs() == old(Abs()).(queue := Spec.DropAt(old(Abs()).queue, k))
    {
      ctlMsgs.Remove(node, k);
      Repr := Repr - {node};
      freed := freed + {node};
    }

    method SendToClient(m: Spec.Qmi, fd: byte)
      modifies this`toClients
      ensures toClients == old(toClients) + [Spec.Delivery(fd, m)]
    {
      toClients := toClients + [Spec.Delivery(fd, m)];
    }

    method SendToModem(m: Spec.Qmi)
      modifies this`toModem
      ensures toModem == old(toModem) + [m]
    {
      toModem := toModem + [m];
    }

    /** Drops the first request queued by `fd`, if there is one. */
    method DropFirstRequest(fd: int)
      requires Valid()
      modifies this`Repr, this`freed, ctlMsgs.Repr
      ensures Valid() && Repr <= old(Repr) && unchanged(registry.connections)
      ensures Abs() == old(Abs()).(queue := Spec.DropAt(old(Abs()).queue, Spec.FindPending(old(Abs()).queue, fd)))
    {
      ghost var queue := ctlMsgs.Items();
      ghost var k := 0;
      assert ctlMsgs.LinkedAt(0);
      var node := ctlMsgs.head.next;
      while node != ctlMsgs.head
        invariant 0 <= k <= |ctlMsgs.nodes| && node == ctlMsgs.At(k) && node in Repr
        invariant forall j :: 0 <= j < k ==> queue[j].fd != fd
        decreases |ctlMsgs.nodes| - k
      {
        var msg := node.item.value;
        assert queue[k] == msg;
        if msg.fd == fd {
          assert Spec.FindPending(queue, fd) == k;
          DropRequest(node, k);
          return;
        }
        assert ctlMsgs.LinkedAt(k + 1);
        node := node.next;
        k := k + 1;
      }
      assert Spec.FindPending(queue, fd) == |queue|;
    }

    method ReleaseAll(con: Connection, ghost k: nat)
      requires Valid() && k < |registry.cons| && registry.connections.nodes[k].item == Some(con)
      modifies this`Repr, registry.Repr
      ensures Valid() && fresh(Repr - old(Repr))
      ensures Abs() == old(Abs()).(cons := old(registry.cons)[k := Spec.Con(con.fd, [])])
      ensures registry.connections.nodes == old(registry.connections.nodes)
    {
      registry.ReleaseAll(con, k);
      Repr := {this} + registry.Repr + ctlMsgs.Repr;
    }

    method RemoveConnection(node: QNode<Connection>, ghost k: nat)
      requires Valid() && k < |registry.cons| && registry.connections.nodes[k] == node
      requires registry.cons[k].clients == []
      modifies this`Repr, registry.Repr
      ensures Valid() && fresh(Repr - old(Repr))
      ensures Abs() == old(Abs()).(cons := Spec.DropAt(old(registry.cons), k))
    {
      registry.RemoveConnection(node, k);
      Repr := {this} + registry.Repr + ctlMsgs.Repr;
    }

    /** Frees the clients, one queued request and the connection at `k`, and closes its descriptor. */
    method CloseConnection(node: QNode<Connection>, con: Connection, ghost k: nat)
      requires Valid() && k < |registry.cons| && registry.connections.nodes[k] == node && node.item == Some(con)
      modifies Repr
      ensures Valid() && fresh(Repr - old(Repr))
      ensures var s := old(Abs());
        Abs() == s.(cons := Spec.DropAt(s.cons, k),
                    queue := Spec.DropAt(s.queue, Spec.FindPending(s.queue, con.fd)),
                    closed := s.closed + [con.fd])
    {
      ReleaseAll(con, k);
      DropFirstRequest(con.fd);
      closed := closed + [con.fd];
      RemoveConnection(node, k);
    }

    method CleanupConnection(fd: int)
      requires Valid()
      modifies Repr
      ensures Valid() && fresh(Repr - old(Repr))
      ensures Abs() == Spec.Cleanup(old(Abs()), fd)
    {
      ghost var cons := registry.cons;
      ghost var k := 0;
      assert registry.connections.LinkedAt(0);
      var node := registry.connections.head.next;
      while node != registry.connections.head
        invariant 0 <= k <= |cons| && node == registry.connections.At(k) && node in Repr
        invariant forall j :: 0 <= j < k ==> cons[j].fd != fd
        decreases |cons| - k
      {
        assert registry.ConOk(node, cons[k]);
        var con := node.item.value;
        if con.fd == fd {
          assert Spec.FindCon(cons, fd) == k;
          CloseConnection(node, con, k);
          return;
        }
        assert registry.connections.LinkedAt(k + 1);
        node := node.next;
        k := k + 1;
      }
      assert Spec.FindCon(cons, fd) == |cons|;
    }

    /** Learns from a response forwarded to the connection at `i` what client id it grants or ends. */
    method Snoop(con: Connection, m: Spec.Qmi, ghost i: nat)
      requires Valid() && m.Ctl? && i < |registry.cons| && registry.connections.nodes[i].item == Some(con)
      modifies this`Repr, this`modemReset, registry.Repr
      ensures Valid() && fresh(Repr - old(Repr)) && fresh(registry.Repr - old(registry.Repr))
      ensures Abs() == old(Abs()).(
        cons := old(registry.cons)[i := Spec.Con(con.fd, Spec.Snoop(old(registry.cons)[i].clients, m))],
        reset := old(modemReset) || m.ctlType == Spec.REVOKE_CLIENT_ID)
      ensures registry.connections.nodes == old(registry.connections.nodes)
    {
      assert registry.ConOk(registry.connections.nodes[i], registry.cons[i]);
      if m.ctlType == Spec.GET_CLIENT_ID {
        registry.GetClientId(con, m, i);
      } else if m.ctlType == Spec.RELEASE_CLIENT_ID || m.ctlType == Spec.REVOKE_CLIENT_ID {
        registry.ReleaseClientId(con, m, i);
        if m.ctlType == Spec.REVOKE_CLIENT_ID {
          modemReset := true;
        }
      }
      Repr := {this} + registry.Repr + ctlMsgs.Repr;
    }

    /** Forwards a control response to the connection at `i` if the request came from it. */
    method Forward(con: Connection, fd: byte, m: Spec.Qmi, ghost i: nat)
      requires Valid() && m.Ctl? && i < |registry.cons| && registry.connections.nodes[i].item == Some(con)
      modifies this`Repr, this`modemReset, this`toClients, registry.Repr
      ensures Valid() && fresh(Repr - old(Repr)) && fresh(registry.Repr - old(registry.Repr))
      ensures Abs() == Spec.ForwardOne(old(Abs()), i, fd, m)
      ensures registry.connections.nodes == old(registry.connections.nodes)
    {
      assert registry.ConOk(registry.connections.nodes[i], registry.cons[i]);
      if con.fd == fd {
        SendToClient(m, fd);
        Snoop(con, m, i);
      }
    }

    /** Hands a control response to every connection on `fd`. */
    method ForwardAll(fd: byte, m: Spec.Qmi)
      requires Valid() && m.Ctl?
      modifies this`Repr, this`modemReset, this`toClients, registry.Repr
      ensures Valid() && fresh(Repr - old(Repr)) && fresh(registry.Repr - old(registry.Repr))
      ensures Abs() == Spec.ForwardFrom(old(Abs()), 0, fd, m)
    {
      assert registry.connections.LinkedAt(0);
      var node := registry.connections.head.next;
      ghost var i := 0;
      while node != registry.connections.head
        invariant Valid() && fresh(Repr - old(Repr)) && fresh(registry.Repr - old(registry.Repr))
        invariant 0 <= i <= |registry.cons| && node == registry.connections.At(i) && node in Repr
        invariant Spec.ForwardFrom(Abs(), i, fd, m) == Spec.ForwardFrom(old(Abs()), 0, fd, m)
        decreases |registry.cons| - i
      {
        registry.Cursor(i);
        Forward(node.item.value, fd, m, i);
        registry.Cursor(i);
        node := node.next;
        i := i + 1;
      }
    }

    /** Hands a control response to the sender of the request at the head of the queue. */
    method Respond(m: Spec.Qmi)
      requires Valid() && m.Ctl?
      modifies Repr
      ensures Valid() && fresh(Repr - old(Repr))
      ensures Abs() == Spec.Respond(old(Abs()), m)
    {
      assert ctlMsgs.LinkedAt(0);
      if ctlMsgs.head.next == ctlMsgs.head {
        assert ctlMsgs.Items() == [];
        return;
      }
      ghost var s := Abs();
      var node := ctlMsgs.head.next;
      var msg := node.item.value;
      assert s.queue[0] == msg;
      ForwardAll(msg.fd, m);
      Spec.ForwardFromAll(s, msg.fd, m);
      DropRequest(node, 0);
    }

    /** Writes the request at the head of the queue to the modem, if its sender is connected. */
    method Kick()
      requires Valid()
      modifies this`toModem
      ensures Valid() && Repr == old(Repr)
      ensures Abs() == Spec.Kick(old(Abs()))
    {
      assert ctlMsgs.LinkedAt(0) && registry.connections.LinkedAt(0);
      if ctlMsgs.head.next == ctlMsgs.head {
        assert ctlMsgs.Items() == [];
        return;
      }
      var msg := ctlMsgs.head.next.item.value;
      assert ctlMsgs.Items()[0] == msg;
      ghost var cons := registry.cons;
      Spec.PerConFromAll(toModem, cons, 0, msg.fd, msg.qmi);
      assert cons[0..] == cons;
      var node := registry.connections.head.next;
      ghost var i := 0;
      while node != registry.connections.head
        invariant 0 <= i <= |cons| && node == registry.connections.At(i) && node in Repr
        invariant Spec.PerConFrom(toModem, cons, i, msg.fd, msg.qmi) == Spec.PerConFrom(old(toModem), cons, 0, msg.fd, msg.qmi)
        decreases |cons| - i
      {
        assert old(registry.ConOk(registry.connections.nodes[i], registry.cons[i]));
        var con := node.item.value;
        if con.fd == msg.fd {
          SendToModem(msg.qmi);
        }
        assert old(registry.connections.LinkedAt(i + 1));
        node := node.next;
        i := i + 1;
      }
    }

    /** Writes a service message once for each matching client of the connection at `i`. */
    method RouteOne(con: Connection, m: Spec.Qmi, ghost i: nat)
      requires Valid() && m.Service? && i < |registry.cons| && registry.connections.nodes[i].item == Some(con)
      modifies this`toClients
      ensures Valid() && Repr == old(Repr)
      ensures Abs() == old(Abs()).(toClients := old(toClients) + Spec.RouteOne(con.fd, registry.cons[i].clients, m))
    {
      assert registry.ConOk(registry.connections.nodes[i], registry.cons[i]);
      ghost var clients := registry.cons[i].clients;
      Spec.RouteOneFromAll(toClients, con.fd, clients, 0, m);
      assert clients[0..] == clients;
      assert con.clients.LinkedAt(0);
      var node := con.clients.head.next;
      ghost var k := 0;
      while node != con.clients.head
        invariant 0 <= k <= |clients| && node == con.clients.At(k) && node in Repr
        invariant Spec.RouteOneFrom(toClients, con.fd, clients, k, m) == Spec.RouteOneFrom(old(toClients), con.fd, clients, 0, m)
        decreases |clients| - k
      {
        var client := node.item.value;
        assert clients[k] == client;
        if m.key.qmiType == client.qmiType {
          if m.key.clientId == 0 || m.key.clientId == client.clientId {
            SendToClient(m, con.fd);
          }
        }
        assert old(con.clients.LinkedAt(k + 1));
        node := node.next;
        k := k + 1;
      }
    }

    /** Writes a service message once for each matching client of each connection. */
    method Route(m: Spec.Qmi)
      requires Valid() && m.Service?
      modifies this`toClients
      ensures Valid() && Repr == old(Repr)
      ensures Abs() == old(Abs()).(toClients := old(toClients) + Spec.Route(old(registry.cons), m))
    {
      ghost var cons := registry.cons;
      Spec.RouteFromAll(toClients, cons, 0, m);
      assert cons[0..] == cons;
      assert registry.connections.LinkedAt(0);
      var node := registry.connections.head.next;
      ghost var i := 0;
      while node != registry.connections.head
        invariant Valid() && Repr == old(Repr) && registry.cons == cons
        invariant 0 <= i <= |cons| && node == registry.connections.At(i) && node in Repr
        invariant Spec.RouteFrom(toClients, cons, i, m) == Spec.RouteFrom(old(toClients), cons, 0, m)
        decreases |cons| - i
      {
        assert old(registry.ConOk(registry.connections.nodes[i], registry.cons[i]));
        RouteOne(node.item.value, m, i);
        assert old(registry.connections.LinkedAt(i + 1));
        node := node.next;
        i := i + 1;
      }
    }

    /** A message read from the modem. */
    method RecvQmi(m: Spec.Qmi)
      requires Valid()
      modifies Repr
      ensures Valid() && fresh(Repr - old(Repr))
      ensures Abs() == Spec.FromModem(old(Abs()), m)
    {
      if m.Ctl? {
        if m.flags == Spec.FLAG_RSP {
          Respond(m);
        }
        Kick();
      } else {
        Route(m);
      }
    }

    /** A message read from the client on `fd`. */
    method SendQmi(m: Spec.Qmi, fd: byte)
      requires Valid()
      modifies Repr
      ensures Valid() && fresh(Repr - old(Repr))
      ensures Abs() == Spec.FromClient(old(Abs()), fd, m)
      ensures m.Service? ==> toModem == old(toModem) + [m]
    {
      if m.Ctl? {
        assert ctlMsgs.LinkedAt(0);
        if ctlMsgs.head.next == ctlMsgs.head {
          assert ctlMsgs.Items() == [];
          SendToModem(m);
        }
        var node := new QNode<Spec.Pending>(Some(Spec.Pending(fd, m)));
        ctlMsgs.AddTail(node);
        Repr := Repr + {node};
      } else {
        SendToModem(m);
      }
    }

    /** At thread exit, cleans up the first connection until none is left. */
    method Exit()
      requires Valid()
      modifies Repr
      ensures Valid() && fresh(Repr - old(Repr))
      ensures Abs() == Spec.Drain(old(Abs()))
    {
      ghost var s := Abs();
      assert registry.connections.LinkedAt(0);
      while registry.connections.head.next != registry.connections.head
        invariant Valid() && fresh(Repr - old(Repr))
        invariant Spec.Drain(Abs()) == Spec.Drain(s) && registry.connections.LinkedAt(0)
        decreases |registry.cons|
      {
        assert registry.ConOk(registry.connections.nodes[0], registry.cons[0]);
        var con := registry.connections.head.next.item.value;
        CleanupConnection(con.fd);
      }
      assert registry.connections.nodes == [];
    }

    method Handle(e: Spec.Event)
      requires Valid()
      modifies Repr
      ensures Valid() && fresh(Repr - old(Repr))
      ensures Abs() == Spec.Step(old(Abs()), e)
    {
      match e
      case Connect(fd) => Accept(fd);
      case Hangup(fd) => CleanupConnection(fd);
      case Modem(m) => RecvQmi(m);
      case Client(fd, m) => SendQmi(m, fd);
    }

    /** Events are served until the modem revokes a client id. */
    method Loop(es: seq<Spec.Event>) returns (n: nat)
      requires Valid() && Abs() == Spec.Init
      modifies Repr
      ensures Valid() && fresh(Repr - old(Repr))
      ensures n <= |es| && Abs() == Runs.Run(es[..n]) && Runs.Running(es, n)
      ensures n < |es| ==> modemReset
    {
      n := 0;
      while n < |es| && !modemReset
        invariant Valid() && fresh(Repr - old(Repr))
        invariant n <= |es| && Abs() == Runs.Run(es[..n])
        invariant Runs.Running(es, n)
      {
        Runs.RunSnoc(es[..n], es[n]);
        assert es[..n + 1] == es[..n] + [es[n]];
        Handle(es[n]);
        n := n + 1;
      }
    }

    /** The proxy thread: events are served until the modem revokes a client id, then all is drained. */
    method Serve(es: seq<Spec.Event>) returns (n: nat)
      requires Valid() && Abs() == Spec.Init
      modifies Repr
      ensures Valid()
      ensures n <= |es| && Abs() == Spec.Drain(Runs.Run(es[..n]))
      ensures n < |es| ==> Delivery.Revoked(es[..n])
      ensures toModem == Delivery.Written(es[..n]) && toClients == Delivery.Delivered(es[..n])
      ensures Delivery.ServiceOf(toModem) == Delivery.Sent(es[..n])
      ensures Runs.Running(es, n)
      ensures multiset(closed) == End.Accepted(es[..n])
      ensures End.Closes(closed, es[..n]) <==> End.FitsByte(es[..n])
    {
      n := Loop(es);
      Delivery.ResetExactly(es[..n]);
      Delivery.ServicePasses(es[..n]);
      Delivery.WrittenRun(es[..n]);
      Delivery.DeliveredRun(es[..n]);
      End.DrainClosesAll(Runs.Run(es[..n]));
      End.EveryAcceptedIsClosed(es[..n]);
      End.ClosedExactly(es[..n]);
      Exit();
    }
  }
}
