/**
 The end of the proxy: every connection is closed.
 */
module ProxyExit {
  import opened Prelude
  import opened ProxySpec
  import opened ProxyRuns

  function Fds(cons: seq<Con>): seq<byte> {
    if cons == [] then [] else [cons[0].fd] + Fds(cons[1..])
  }

  /** The drain at exit leaves no connection, and closes each open descriptor once, in list order. */
  lemma {:induction false} DrainClosesAll(s: State)
    ensures Drain(s).cons == []
    ensures Drain(s).closed == s.closed + Fds(s.cons)
    ensures Drain(s).toModem == s.toModem && Drain(s).toClients == s.toClients
    decreases |s.cons|
  {
    if s.cons != [] {
      var s' := Cleanup(s, s.cons[0].fd);
      assert s'.cons == s.cons[1..];
      DrainClosesAll(s');
    }
  }

  /** The descriptors accepted in a run, in the eight bits kept of them. */
  function Accepted(es: seq<Event>): multiset<byte> {
    if es == [] then multiset{}
    else Accepted(es[..|es|-1]) + if es[|es|-1].Connect? then multiset{ToByte(es[|es|-1].clientFd)} else multiset{}
  }

  lemma {:induction false} FdsOf(cons: seq<Con>)
    ensures |Fds(cons)| == |cons| && forall i :: 0 <= i < |cons| ==> Fds(cons)[i] == cons[i].fd
  {
    if cons != [] {
      FdsOf(cons[1..]);
    }
  }

  lemma {:induction false} FdsConcat(a: seq<Con>, b: seq<Con>)
    ensures Fds(a + b) == Fds(a) + Fds(b)
  {
    if a == [] {
      assert a + b == b;
    } else {
      assert (a + b)[1..] == a[1..] + b;
      FdsConcat(a[1..], b);
    }
  }

  lemma FdsDrop(cons: seq<Con>, k: nat)
    requires k < |cons|
    ensures multiset(Fds(cons)) == multiset(Fds(DropAt(cons, k))) + multiset{cons[k].fd}
  {
    var a, x, b := cons[..k], [cons[k]], cons[k+1..];
    assert cons == a + (x + b) && Fds(x) == [cons[k].fd];
    FdsConcat(a, x + b);
    FdsConcat(x, b);
    FdsConcat(a, b);
    MiddleOne(Fds(a), cons[k].fd, Fds(b));
  }

  lemma MiddleOne(a: seq<byte>, x: byte, b: seq<byte>)
    ensures multiset(a + ([x] + b)) == multiset(a + b) + multiset{x}
  {
  }

  lemma FdsSame(a: seq<Con>, b: seq<Con>)
    requires |a| == |b| && forall i :: 0 <= i < |a| ==> a[i].fd == b[i].fd
    ensures Fds(a) == Fds(b)
  {
    FdsOf(a);
    FdsOf(b);
  }

  function Descriptors(s: State): multiset<byte> {
    multiset(s.closed) + multiset(Fds(s.cons))
  }

  lemma CleanupKeeps(s: State, fd: int)
    ensures Descriptors(Cleanup(s, fd)) == Descriptors(s)
  {
    var k := FindCon(s.cons, fd);
    if k < |s.cons| {
      FdsDrop(s.cons, k);
    }
  }

  lemma MessagesCloseNothing(s: State, e: Event)
    requires e.Modem? || e.Client?
    ensures Step(s, e).closed == s.closed
  {
  }

  lemma ClosedStep(s: State, e: Event)
    requires !e.Connect?
    ensures Descriptors(Step(s, e)) == Descriptors(s)
  {
    if e.Hangup? {
      CleanupKeeps(s, e.conFd);
    } else {
      SameFds(s, e);
      FdsSame(s.cons, Step(s, e).cons);
      MessagesCloseNothing(s, e);
    }
  }

  /** Over every run, what has been closed and what is open are together what has been accepted. */
  lemma {:induction false} ClosedAndOpen(es: seq<Event>)
    ensures Descriptors(Run(es)) == Accepted(es)
  {
    if es != [] {
      var before, e := es[..|es|-1], es[|es|-1];
      ClosedAndOpen(before);
      if e.Connect? {
        FdsConcat(Run(before).cons, [Con(ToByte(e.clientFd), [])]);
      } else {
        ClosedStep(Run(before), e);
      }
    }
  }

  /** At the end of a run every descriptor ever accepted has been closed, once for each time it was accepted. */
  lemma EveryAcceptedIsClosed(es: seq<Event>)
    ensures multiset(Drain(Run(es)).closed) == Accepted(es)
  {
    ClosedAndOpen(es);
    DrainClosesAll(Run(es));
  }

  /** The descriptors accepted in a run, as `accept` returned them. */
  function AcceptedFds(es: seq<Event>): multiset<int> {
    if es == [] then multiset{}
    else AcceptedFds(es[..|es|-1]) + if es[|es|-1].Connect? then multiset{es[|es|-1].clientFd} else multiset{}
  }

  /** Every accepted descriptor is one that eight bits hold. */
  predicate FitsByte(es: seq<Event>) {
    es == [] || (FitsByte(es[..|es|-1]) && (es[|es|-1].Connect? ==> 0 <= es[|es|-1].clientFd < 0x100))
  }

  /** What was closed is what was accepted. */
  predicate Closes(closed: seq<int>, es: seq<Event>) {
    multiset(closed) == AcceptedFds(es)
  }

  lemma {:induction false} FitsExactly(es: seq<Event>)
    ensures FitsByte(es) <==> forall fd :: fd in AcceptedFds(es) ==> 0 <= fd < 0x100
  {
    if es != [] {
      var before, e := es[..|es|-1], es[|es|-1];
      FitsExactly(before);
      assert forall fd :: fd in AcceptedFds(before) ==> fd in AcceptedFds(es);
      if e.Connect? {
        assert AcceptedFds(es) == AcceptedFds(before) + multiset{e.clientFd};
        assert e.clientFd in AcceptedFds(es);
        forall fd | fd in AcceptedFds(es) ensures fd in AcceptedFds(before) || fd == e.clientFd {}
      } else {
        assert AcceptedFds(es) == AcceptedFds(before);
      }
    }
  }

  lemma {:induction false} KeptWhole(es: seq<Event>, fd: byte)
    requires FitsByte(es)
    ensures Accepted(es)[fd] == AcceptedFds(es)[fd]
  {
    if es != [] {
      KeptWhole(es[..|es|-1], fd);
    }
  }

  /** The multiplicity of a byte is the same among the bytes and among the integers. */
  lemma {:induction false} SameCount(bytes: seq<byte>, ints: seq<int>, fd: byte)
    requires |bytes| == |ints| && forall i :: 0 <= i < |bytes| ==> bytes[i] == ints[i]
    ensures multiset(bytes)[fd] == multiset(ints)[fd]
  {
    if bytes != [] {
      SameCount(bytes[1..], ints[1..], fd);
      assert bytes == [bytes[0]] + bytes[1..] && ints == [ints[0]] + ints[1..];
    }
  }

  /** The descriptors closed are the very ones accepted if and only if eight bits hold them all. */
  lemma ClosedExactly(es: seq<Event>)
    ensures Closes(Drain(Run(es)).closed, es) <==> FitsByte(es)
  {
    var closed := Drain(Run(es)).closed;
    var ints: seq<int> := closed;
    FitsExactly(es);
    EveryAcceptedIsClosed(es);
    if FitsByte(es) {
      forall fd: int ensures multiset(ints)[fd] == AcceptedFds(es)[fd] {
        if 0 <= fd < 0x100 {
          KeptWhole(es, fd);
          SameCount(closed, ints, fd);
        } else {
          assert fd !in ints && fd !in AcceptedFds(es);
        }
      }
    } else {
      var fd :| fd in AcceptedFds(es) && !(0 <= fd < 0x100);
      assert fd !in ints;
    }
  }
}
