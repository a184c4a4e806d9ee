/**
 The proxy's connections on their linked lists: a list of connections, each with a list of the client
 ids granted to it. Every operation keeps the lists well formed and apart, and no list reaches memory
 that has been freed.
 */
module Connections {
  import opened Prelude
  import opened QList
  import Spec = ProxySpec

  class Connection {
    const fd: byte
    const clients: List<Spec.Key>

    constructor (clientFd: int)
      ensures fd == ToByte(clientFd)
      ensures clients.Valid() && clients.nodes == [] && fresh(clients.Repr) && this !in clients.Repr
    {
      fd := ToByte(clientFd);
      clients := new List<Spec.Key>();
    }

    /** The memory of a connection: itself and its client list. */
    ghost function Foot(): set<object>
      reads clients
    {
      {this} + clients.Repr
    }
  }

  class Registry {
    const connections: List<Connection>
    /** What the lists read. */
    ghost var cons: seq<Spec.Con>
    /** Live memory, and memory given back to the allocator. */
    ghost var Repr: set<object>
    ghost var freed: set<object>

    /**
     The node carries a connection in live memory whose client list reads `con`, in memory of its own
     away from the connection list.
     */
    ghost predicate ConOk(node: QNode<Connection>, con: Spec.Con)
      requires connections in Repr
      reads this, Repr
    {
      && node.item.Some?
      && var c := node.item.value;
      && c in Repr && c.clients in Repr && c.clients.Repr <= Repr && c.clients.Valid()
      && this !in c.clients.Repr && c !in c.clients.Repr && c.Foot() !! connections.Repr
      && con == Spec.Con(c.fd, c.clients.Items())
    }

    /** Two connections share no memory. */
    ghost predicate Apart(a: QNode<Connection>, b: QNode<Connection>)
      reads this, Repr
    {
      && a.item.Some? && a.item.value.clients in Repr
      && b.item.Some? && b.item.value.clients in Repr
      && a.item.value.Foot() !! b.item.value.Foot()
    }

    /** The lists are well formed, read `cons`, and share no memory with each other. */
    ghost predicate Valid()
      reads this, Repr
    {
      && this in Repr && Repr !! freed
      && connections in Repr && connections.Repr <= Repr && this !in connections.Repr
      && connections.Valid()
      && |cons| == |connections.nodes|
      && (forall i {:trigger ConOk(connections.nodes[i], cons[i])} :: 0 <= i < |cons| ==>
            ConOk(connections.nodes[i], cons[i]))
      && (forall i, j {:trigger Apart(connections.nodes[i], connections.nodes[j])} :: 0 <= i < j < |cons| ==>
            Apart(connections.nodes[i], connections.nodes[j]))
    }

    /** Standing at connection `i`: its descriptor, and where its links lead. */
    lemma Cursor(i: nat)
      requires Valid() && i < |cons|
      ensures var node := connections.nodes[i];
        && node.item.Some? && node.item.value.fd == cons[i].fd
        && node.next == connections.At(i + 1) && connections.At(i + 1) in Repr
    {
      assert ConOk(connections.nodes[i], cons[i]);
      assert connections.LinkedAt(i + 1);
    }

    constructor ()
      ensures Valid() && fresh(Repr)
      ensures cons == []
    {
      connections := new List<Connection>();
      cons := [];
      freed := {};
      new;
      Repr := {this} + connections.Repr;
    }

    ghost predicate Misses(node: QNode<Connection>, x: set<object>)
      reads this, Repr
    {
      node.item.Some? && node.item.value.clients in Repr && node.item.value.Foot() !! x
    }

    /** No list reaches an object of `x`. */
    ghost predicate Unreachable(x: set<object>)
      requires connections in Repr
      reads this, Repr
    {
      && this !in x && x !! connections.Repr
      && forall i {:trigger Misses(connections.nodes[i], x)} :: 0 <= i < |connections.nodes| ==>
           Misses(connections.nodes[i], x)
    }

    /** Gives `x` back to the allocator: it must be live and out of reach. */
    ghost method Free(x: set<object>)
      requires Valid() && x <= Repr && x !! freed && Unreachable(x)
      modifies this`Repr, this`freed
      ensures Valid() && Repr == old(Repr) - x && freed == old(freed) + x
    {
      Repr := Repr - x;
      freed := freed + x;
      forall i | 0 <= i < |cons| ensures ConOk(connections.nodes[i], cons[i]) {
        assert old(ConOk(connections.nodes[i], cons[i]));
        assert old(Misses(connections.nodes[i], x));
      }
      forall i, j | 0 <= i < j < |cons| ensures Apart(connections.nodes[i], connections.nodes[j]) {
        assert ConOk(connections.nodes[i], cons[i]) && ConOk(connections.nodes[j], cons[j]);
        assert old(Apart(connections.nodes[i], connections.nodes[j]));
      }
    }

    method Accept(clientFd: int)
      requires Valid()
      modifies Repr
      ensures Valid() && fresh(Repr - old(Repr)) && old(freed) <= freed <= old(freed) + old(Repr)
      ensures cons == old(cons) + [Spec.Con(ToByte(clientFd), [])]
    {
      var con := new Connection(clientFd);
      var node := new QNode<Connection>(Some(con));
      Append(con, node);
    }

    method Append(con: Connection, node: QNode<Connection>)
      requires Valid() && node.item == Some(con)
      requires con.clients in con.clients.Repr && con.clients.Valid() && con.clients.nodes == []
      requires con !in Repr && node !in Repr && con.clients.Repr !! Repr
      requires node !in con.Foot() && con !in con.clients.Repr && con !in freed && node !in freed && con.clients.Repr !! freed
      modifies Repr, node
      ensures Valid() && Repr == old(Repr) + {node, con} + con.clients.Repr && freed == old(freed)
      ensures cons == old(cons) + [Spec.Con(con.fd, [])]
    {
      ghost var n := |cons|;
      connections.AddTail(node);
      cons := cons + [Spec.Con(con.fd, [])];
      Repr := Repr + {node, con} + con.clients.Repr;
      forall i | 0 <= i < n ensures ConOk(connections.nodes[i], cons[i]) {
        assert old(ConOk(connections.nodes[i], cons[i]));
      }
      forall i, j | 0 <= i < j < |cons| ensures Apart(connections.nodes[i], connections.nodes[j]) {
        assert old(ConOk(connections.nodes[i], cons[i]));
        assert j < n ==> old(ConOk(connections.nodes[j], cons[j]) && Apart(connections.nodes[i], connections.nodes[j]));
      }
    }

    /** Registers the client id in a successful response for the connection at `i`. */
    method GetClientId(con: Connection, m: Spec.Qmi, ghost i: nat)
      requires Valid() && m.Ctl? && i < |cons| && connections.nodes[i].item == Some(con)
      modifies Repr
      ensures Valid() && fresh(Repr - old(Repr)) && old(freed) <= freed <= old(freed) + old(Repr)
      ensures cons == old(cons)[i := Spec.Con(con.fd, Spec.Granted(old(cons)[i].clients, m))]
      ensures connections.nodes == old(connections.nodes)
    {
      assert ConOk(connections.nodes[i], cons[i]);
      if m.result == 0 && m.error == 0 {
        var node := new QNode<Spec.Key>(Some(m.key));
        AddClient(con, node, i);
      }
    }

    method AddClient(con: Connection, node: QNode<Spec.Key>, ghost i: nat)
      requires Valid() && i < |cons| && connections.nodes[i].item == Some(con)
      requires node !in Repr && node !in freed && node.item.Some?
      modifies Repr, node
      ensures Valid() && Repr == old(Repr) + {node} && freed == old(freed)
      ensures cons == old(cons)[i := Spec.Con(con.fd, old(cons)[i].clients + [node.item.value])]
      ensures connections.nodes == old(connections.nodes)
    {
      assert ConOk(connections.nodes[i], cons[i]);
      con.clients.AddTail(node);
      Repr := Repr + {node};
      cons := cons[i := Spec.Con(con.fd, con.clients.Items())];
      forall j | 0 <= j < |cons| && j != i
        ensures ConOk(connections.nodes[j], cons[j])
        ensures connections.nodes[j].item.value.Foot() == old(connections.nodes[j].item.value.Foot())
      {
        assert old(ConOk(connections.nodes[j], cons[j]));
        assert old(if i < j then Apart(connections.nodes[i], connections.nodes[j]) else Apart(connections.nodes[j], connections.nodes[i]));
      }
      assert ConOk(connections.nodes[i], cons[i]);
      forall j, l | 0 <= j < l < |cons| ensures Apart(connections.nodes[j], connections.nodes[l]) {
        assert old(Apart(connections.nodes[j], connections.nodes[l]));
        assert old(ConOk(connections.nodes[j], cons[j]) && ConOk(connections.nodes[l], cons[l]));
      }
    }

    /** Takes the client at `k` off the list of the connection at `i` and frees it. */
    method DropClient(con: Connection, node: QNode<Spec.Key>, ghost i: nat, ghost k: nat)
      requires Valid() && i < |cons| && connections.nodes[i].item == Some(con)
      requires k < |con.clients.nodes| && con.clients.nodes[k] == node
      modifies Repr
      ensures Valid() && Repr == old(Repr) - {node} && freed == old(freed) + {node}
      ensures cons == old(cons)[i := Spec.Con(con.fd, Spec.DropAt(old(cons)[i].clients, k))]
      ensures connections.nodes == old(connections.nodes)
      ensures |con.clients.nodes| == old(|con.clients.nodes|) - 1
    {
      UnlinkClient(con, node, i, k);
      Free({node});
    }

    method UnlinkClient(con: Connection, node: QNode<Spec.Key>, ghost i: nat, ghost k: nat)
      requires Valid() && i < |cons| && connections.nodes[i].item == Some(con)
      requires k < |con.clients.nodes| && con.clients.nodes[k] == node
      modifies Repr
      ensures Valid() && Repr == old(Repr) && freed == old(freed) && node in Repr && Unreachable({node})
      ensures cons == old(cons)[i := Spec.Con(con.fd, Spec.DropAt(old(cons)[i].clients, k))]
      ensures connections.nodes == old(connections.nodes)
      ensures |con.clients.nodes| == old(|con.clients.nodes|) - 1
    {
      assert ConOk(connections.nodes[i], cons[i]);
      con.clients.Remove(node, k);
      cons := cons[i := Spec.Con(con.fd, con.clients.Items())];
      forall j | 0 <= j < |cons| && j != i
        ensures ConOk(connections.nodes[j], cons[j]) && Misses(connections.nodes[j], {node})
        ensures connections.nodes[j].item.value.Foot() == old(connections.nodes[j].item.value.Foot())
      {
        assert old(ConOk(connections.nodes[j], cons[j]));
        assert old(if i < j then Apart(connections.nodes[i], connections.nodes[j]) else Apart(connections.nodes[j], connections.nodes[i]));
      }
      assert ConOk(connections.nodes[i], cons[i]) && Misses(connections.nodes[i], {node});
      forall j, l | 0 <= j < l < |cons| ensures Apart(connections.nodes[j], connections.nodes[l]) {
        assert old(Apart(connections.nodes[j], connections.nodes[l]));
        assert old(ConOk(connections.nodes[j], cons[j]) && ConOk(connections.nodes[l], cons[l]));
      }
    }

    /** Forgets the client id in a successful release or revocation for the connection at `i`. */
    method ReleaseClientId(con: Connection, m: Spec.Qmi, ghost i: nat)
      requires Valid() && m.Ctl? && i < |cons| && connections.nodes[i].item == Some(con)
      modifies Repr
      ensures Valid() && fresh(Repr - old(Repr)) && old(freed) <= freed <= old(freed) + old(Repr)
      ensures cons == old(cons)[i := Spec.Con(con.fd, Spec.Released(old(cons)[i].clients, m))]
      ensures connections.nodes == old(connections.nodes)
    {
      assert ConOk(connections.nodes[i], cons[i]);
      if m.result == 0 && m.error == 0 {
        ghost var k := 0;
        var node := con.clients.head.next;
        assert con.clients.LinkedAt(0);
        while node != con.clients.head
          invariant 0 <= k <= |con.clients.nodes| && node == con.clients.At(k) && node in Repr
          invariant forall j :: 0 <= j < k ==> cons[i].clients[j] != m.key
          decreases |con.clients.nodes| - k
        {
          var client := node.item.value;
          if m.key.qmiType == client.qmiType && m.key.clientId == client.clientId {
            assert cons[i].clients[k] == client;
            assert Spec.FindKey(cons[i].clients, m.key) == k;
            DropClient(con, node, i, k);
            return;
          }
          assert con.clients.LinkedAt(k + 1);
          node := node.next;
          k := k + 1;
        }
        assert Spec.FindKey(cons[i].clients, m.key) == |cons[i].clients|;
      }
    }

    /** Frees every client of the connection at `i`, head first. */
    method ReleaseAll(con: Connection, ghost i: nat)
      requires Valid() && i < |cons| && connections.nodes[i].item == Some(con)
      modifies Repr
      ensures Valid() && fresh(Repr - old(Repr)) && old(freed) <= freed <= old(freed) + old(Repr)
      ensures cons == old(cons)[i := Spec.Con(con.fd, [])]
      ensures connections.nodes == old(connections.nodes)
    {
      assert ConOk(connections.nodes[i], cons[i]);
      assert con.clients.LinkedAt(0);
      while con.clients.head.next != con.clients.head
        invariant Valid() && Repr <= old(Repr) && old(freed) <= freed <= old(freed) + old(Repr)
        invariant connections.nodes == old(connections.nodes)
        invariant ConOk(connections.nodes[i], cons[i]) && con.clients.LinkedAt(0)
        invariant |cons| == |old(cons)| && cons == old(cons)[i := cons[i]]
        decreases |con.clients.nodes|
      {
        DropClient(con, con.clients.head.next, i, 0);
        assert ConOk(connections.nodes[i], cons[i]);
      }
      assert con.clients.Items() == [];
    }

    /** Unlinks and frees the connection at `i`, whose client list is empty. */
    method RemoveConnection(node: QNode<Connection>, ghost i: nat)
      requires Valid() && i < |cons| && connections.nodes[i] == node && cons[i].clients == []
      modifies Repr
      ensures Valid() && fresh(Repr - old(Repr)) && old(freed) <= freed <= old(freed) + old(Repr)
      ensures cons == Spec.DropAt(old(cons), i)
    {
      assert ConOk(node, cons[i]);
      var con := node.item.value;
      ghost var x := {node} + con.Foot();
      UnlinkConnection(node, i);
      Free(x);
    }

    method UnlinkConnection(node: QNode<Connection>, ghost i: nat)
      requires Valid() && i < |cons| && connections.nodes[i] == node && node.item.Some?
      modifies Repr
      ensures Valid() && Repr == old(Repr) && freed == old(freed)
      ensures cons == Spec.DropAt(old(cons), i)
      ensures node.item.value.Foot() == old(node.item.value.Foot())
      ensures node in Repr && node.item.value.Foot() <= Repr && Unreachable({node} + node.item.value.Foot())
      ensures node.item.value.clients.Valid()
    {
      assert ConOk(node, cons[i]);
      var con := node.item.value;
      ghost var x := {node} + con.Foot();
      connections.Remove(node, i);
      cons := Spec.DropAt(cons, i);
      forall j | 0 <= j < |cons| ensures ConOk(connections.nodes[j], cons[j]) && Misses(connections.nodes[j], x) {
        var j' := if j < i then j else j + 1;
        assert old(ConOk(connections.nodes[j'], cons[j']));
        assert old(if i < j' then Apart(connections.nodes[i], connections.nodes[j']) else Apart(connections.nodes[j'], connections.nodes[i]));
      }
      forall j, l | 0 <= j < l < |cons| ensures Apart(connections.nodes[j], connections.nodes[l]) {
        var j', l' := if j < i then j else j + 1, if l < i then l else l + 1;
        assert old(Apart(connections.nodes[j'], connections.nodes[l']));
        assert old(ConOk(connections.nodes[j'], cons[j']) && ConOk(connections.nodes[l'], cons[l']));
      }
    }
  }
}
