/**
 Each connection knows exactly the client ids granted to it, and a service message addressed to one client
 reaches that client only.
 */
module ProxyRegistry {
  import opened Prelude
  import opened ProxySpec
  import opened ProxyRuns

  // ---------- registered client ids ----------

  /** The event is a response to a request that `fd` sent. */
  predicate Hears(s: State, e: Event, fd: byte) {
    Answering(s, e) && s.queue[0].fd == fd
  }

  /** The event by which each connection came to be, in list order. */
  function Births(es: seq<Event>): (births: seq<nat>)
    ensures |births| == |Run(es).cons|
    ensures forall i :: 0 <= i < |births| ==> BornOf(es, births[i], Run(es).cons[i].fd)
  {
    if es == [] then []
    else
      var before, e := es[..|es|-1], es[|es|-1];
      if e.Connect? then Births(before) + [|before|]
      else if e.Hangup? then DropAt(Births(before), FindCon(Run(before).cons, e.conFd))
      else
        SameFds(Run(before), e);
        Births(before)
  }

  /** Event `n` is the connection of `fd`. */
  predicate BornOf(es: seq<Event>, n: nat, fd: byte) {
    n < |es| && es[n].Connect? && ToByte(es[n].clientFd) == fd
  }

  /** The control responses forwarded to `fd` from event `from` on. */
  function Learned(es: seq<Event>, fd: byte, from: nat): (ms: seq<Qmi>)
    ensures forall m :: m in ms ==> m.Ctl?
  {
    if |es| <= from then []
    else
      var before, e := es[..|es|-1], es[|es|-1];
      Learned(before, fd, from) + if Hears(Run(before), e, fd) then [e.m] else []
  }

  function Replay(ms: seq<Qmi>): seq<Key>
    requires forall m :: m in ms ==> m.Ctl?
  {
    if ms == [] then [] else Snoop(Replay(ms[..|ms|-1]), ms[|ms|-1])
  }

  /** The connection's client list replays the responses forwarded to it since it came to be. */
  ghost predicate RegistryMatches(es: seq<Event>, c: Con, from: nat) {
    c.clients == Replay(Learned(es, c.fd, from))
  }

  lemma ReplayPush(ms: seq<Qmi>, m: Qmi)
    requires m.Ctl? && forall x :: x in ms ==> x.Ctl?
    ensures Replay(ms + [m]) == Snoop(Replay(ms), m)
  {
    assert (ms + [m])[..|ms|] == ms;
  }

  /** One event leaves the clients of a connection that was there before as they were, or lets them hear a response. */
  lemma HearStep(s: State, e: Event, i: nat)
    requires i < |Step(s, e).cons| && !(e.Connect? && i == |s.cons|)
    ensures var j := Origin(s, e, i);
      j < |s.cons| && Step(s, e).cons[i] == Con(s.cons[j].fd, if Hears(s, e, s.cons[j].fd) then Snoop(s.cons[j].clients, e.m) else s.cons[j].clients)
  {
    match e
    case Connect(fd) =>
    case Client(fd, m) => SameCons(s, e);
    case Hangup(fd) => DropAtIndex(s.cons, FindCon(s.cons, fd), i);
    case Modem(m) =>
      if Answering(s, e) {
        assert Step(s, e).cons == SnoopAll(s.cons, s.queue[0].fd, m);
      } else {
        SameCons(s, e);
      }
  }

  lemma SameCons(s: State, e: Event)
    requires e.Client? || (e.Modem? && !Answering(s, e))
    ensures Step(s, e).cons == s.cons
  {
  }

  lemma DropAtIndex<T>(s: seq<T>, k: nat, i: nat)
    requires i < |DropAt(s, k)|
    ensures var j := if k <= i then i + 1 else i; k < |s| ==> j < |s| && DropAt(s, k)[i] == s[j]
    ensures k >= |s| ==> DropAt(s, k) == s
  {
  }

  lemma RegistryStep(before: seq<Event>, e: Event, c: Con, c0: Con, from: nat)
    requires from < |before| && c.fd == c0.fd && RegistryMatches(before, c0, from)
    requires c.clients == if Hears(Run(before), e, c.fd) then Snoop(c0.clients, e.m) else c0.clients
    ensures RegistryMatches(before + [e], c, from)
  {
    assert (before + [e])[..|before|] == before;
    if Hears(Run(before), e, c.fd) {
      ReplayPush(Learned(before, c.fd, from), e.m);
    } else {
      assert Learned(before, c.fd, from) + [] == Learned(before, c.fd, from);
    }
  }

  lemma BirthsSnoc(before: seq<Event>, e: Event)
    ensures Run(before + [e]) == Step(Run(before), e)
    ensures Births(before + [e]) ==
      if e.Connect? then Births(before) + [|before|]
      else if e.Hangup? then DropAt(Births(before), FindCon(Run(before).cons, e.conFd))
      else Births(before)
  {
    assert (before + [e])[..|before|] == before;
  }

  /** Where a connection stood before the event. */
  function Origin(s: State, e: Event, i: nat): nat {
    if e.Hangup? && FindCon(s.cons, e.conFd) <= i then i + 1 else i
  }

  lemma BirthAt(before: seq<Event>, e: Event, i: nat)
    requires i < |Run(before + [e]).cons| && !(e.Connect? && i == |Run(before).cons|)
    ensures var j := Origin(Run(before), e, i);
      j < |Births(before)| && Births(before + [e])[i] == Births(before)[j]
  {
    BirthsSnoc(before, e);
    BirthIndex(Births(before), Run(before), e, i);
  }

  lemma BirthIndex(births: seq<nat>, s: State, e: Event, i: nat)
    requires |births| == |s.cons| && i < |Step(s, e).cons| && !(e.Connect? && i == |s.cons|)
    ensures var j := Origin(s, e, i);
      && j < |births|
      && (e.Hangup? ==> i < |DropAt(births, FindCon(s.cons, e.conFd))| && DropAt(births, FindCon(s.cons, e.conFd))[i] == births[j])
      && (!e.Hangup? ==> i == j)
  {
    if e.Hangup? {
      DropAtIndex(s.cons, FindCon(s.cons, e.conFd), i);
      DropAtIndex(births, FindCon(s.cons, e.conFd), i);
    } else {
      HearStep(s, e, i);
    }
  }

  lemma RegistryAt(before: seq<Event>, e: Event, i: nat)
    requires i < |Run(before + [e]).cons|
    requires forall j :: 0 <= j < |Run(before).cons| ==> RegistryMatches(before, Run(before).cons[j], Births(before)[j])
    ensures RegistryMatches(before + [e], Run(before + [e]).cons[i], Births(before + [e])[i])
  {
    BirthsSnoc(before, e);
    if e.Connect? && i == |Run(before).cons| {
      NothingLearned(before, e, ToByte(e.clientFd));
    } else {
      var j := Origin(Run(before), e, i);
      HearStep(Run(before), e, i);
      BirthAt(before, e, i);
      RegistryStep(before, e, Step(Run(before), e).cons[i], Run(before).cons[j], Births(before)[j]);
    }
  }

  lemma NothingLearned(before: seq<Event>, e: Event, fd: byte)
    requires e.Connect?
    ensures Learned(before + [e], fd, |before|) == []
  {
    assert (before + [e])[..|before|] == before;
  }

  /** In every run each connection's client list replays exactly the responses forwarded to it since it came to be. */
  lemma {:induction false} RegistryRun(es: seq<Event>)
    ensures forall i :: 0 <= i < |Run(es).cons| ==> RegistryMatches(es, Run(es).cons[i], Births(es)[i])
  {
    if es != [] {
      var before, e := es[..|es|-1], es[|es|-1];
      RegistryRun(before);
      assert es == before + [e];
      forall i | 0 <= i < |Run(es).cons| ensures RegistryMatches(es, Run(es).cons[i], Births(es)[i]) {
        RegistryAt(before, e, i);
      }
    }
  }

  function Grants(ms: seq<Qmi>, key: Key): nat
    requires forall m :: m in ms ==> m.Ctl?
  {
    if ms == [] then 0
    else Grants(ms[..|ms|-1], key) + GrantOf(ms[|ms|-1], key)
  }

  /** A successful answer to a request for a client id, message type 0x22. */
  function GrantOf(m: Qmi, key: Key): nat
    requires m.Ctl?
  {
    if m.ctlType == 0x22 && m.result == 0 && m.error == 0 && m.key == key then 1 else 0
  }

  function Releases(ms: seq<Qmi>, key: Key): nat
    requires forall m :: m in ms ==> m.Ctl?
  {
    if ms == [] then 0
    else Releases(ms[..|ms|-1], key) + ReleaseOf(ms[|ms|-1], key)
  }

  /** A successful release, 0x23, or revocation, 0x24. */
  function ReleaseOf(m: Qmi, key: Key): nat
    requires m.Ctl?
  {
    if (m.ctlType == 0x23 || m.ctlType == 0x24) && m.result == 0 && m.error == 0 && m.key == key then 1 else 0
  }

  function Count(clients: seq<Key>, key: Key): nat {
    multiset(clients)[key]
  }

  lemma CountDropAt(clients: seq<Key>, k: nat, key: Key)
    requires k < |clients|
    ensures Count(DropAt(clients, k), key) == Count(clients, key) - if clients[k] == key then 1 else 0
  {
    assert clients == clients[..k] + ([clients[k]] + clients[k+1..]);
  }

  lemma CountDrop(clients: seq<Key>, dropped: Key, key: Key)
    ensures Count(DropAt(clients, FindKey(clients, dropped)), key)
         == Count(clients, key) - if dropped == key && key in clients then 1 else 0
  {
    var k := FindKey(clients, dropped);
    if k < |clients| {
      CountDropAt(clients, k, key);
    }
  }

  lemma SnoopCount(clients: seq<Key>, m: Qmi, key: Key)
    requires m.Ctl?
    ensures var d := Count(clients, key) + GrantOf(m, key) - ReleaseOf(m, key);
      Count(Snoop(clients, m), key) == if d < 0 then 0 else d
  {
    if IsRelease(m) && Succeeded(m) {
      CountDrop(clients, m.key, key);
    }
  }

  /** No prefix of the responses releases `key` more often than it grants it. */
  ghost predicate Balanced(ms: seq<Qmi>, key: Key)
    requires forall m :: m in ms ==> m.Ctl?
  {
    forall n :: 0 <= n <= |ms| ==> Releases(ms[..n], key) <= Grants(ms[..n], key)
  }

  lemma BalancedStep(ms: seq<Qmi>, key: Key)
    requires ms != [] && forall m :: m in ms ==> m.Ctl?
    ensures Balanced(ms, key) <==> Balanced(ms[..|ms|-1], key) && Releases(ms, key) <= Grants(ms, key)
  {
    var before := ms[..|ms|-1];
    assert ms[..|ms|] == ms;
    forall n | 0 <= n <= |before| ensures before[..n] == ms[..n] {}
    if Balanced(ms, key) {
      forall n | 0 <= n <= |before| ensures Releases(before[..n], key) <= Grants(before[..n], key) {
        assert Releases(ms[..n], key) <= Grants(ms[..n], key);
      }
      assert Releases(ms[..|ms|], key) <= Grants(ms[..|ms|], key);
    } else {
      var n :| 0 <= n <= |ms| && Releases(ms[..n], key) > Grants(ms[..n], key);
      if n <= |before| {
        assert Releases(before[..n], key) > Grants(before[..n], key);
      }
    }
  }

  /** Registrations are grants minus releases exactly when no release comes before its grant. */
  lemma {:induction false} ReplayConserves(ms: seq<Qmi>, key: Key)
    requires forall m :: m in ms ==> m.Ctl?
    ensures Count(Replay(ms), key) >= Grants(ms, key) - Releases(ms, key)
    ensures Count(Replay(ms), key) == Grants(ms, key) - Releases(ms, key) <==> Balanced(ms, key)
  {
    if ms == [] {
      assert forall n :: 0 <= n <= |ms| ==> ms[..n] == [];
    } else {
      var before := ms[..|ms|-1];
      ReplayConserves(before, key);
      SnoopCount(Replay(before), ms[|ms|-1], key);
      BalancedStep(ms, key);
    }
  }

  /** A release that comes before its grant does nothing, and the grant stays: one grant, one release, one registration. */
  lemma ReleaseFirstRun(a: byte, p: Qmi, release: Qmi, grant: Qmi)
    requires IsRequest(p) && IsAnswer(release) && IsAnswer(grant) && Succeeded(release) && Succeeded(grant)
    requires release.ctlType == RELEASE_CLIENT_ID && grant.ctlType == GET_CLIENT_ID && release.key == grant.key
    ensures var s, heard := Run([Connect(a), Client(a, p), Modem(release), Client(a, p), Modem(grant)]), [release, grant];
      s.cons == [Con(a, [grant.key])] && Replay(heard) == [grant.key]
      && Grants(heard, grant.key) == 1 && Releases(heard, grant.key) == 1
  {
    var es := [Connect(a), Client(a, p), Modem(release), Client(a, p), Modem(grant)];
    RunFromIs([], es);
    assert [] + es == es;
    Unrolled5(Init, es);
    var s1 := Accept(Init, a);
    assert s1.cons == [Con(a, [])] && s1.queue == [];
    AskedAndAnswered(s1, a, [], p, release);
    var s3 := Step(Step(s1, Client(a, p)), Modem(release));
    AskedAndAnswered(s3, a, [], p, grant);
    ReplayOfTwo(release, grant);
  }

  /** With one connection and nothing queued, a request is answered at once and the answer heard. */
  lemma AskedAndAnswered(s: State, a: byte, clients: seq<Key>, p: Qmi, m: Qmi)
    requires s.cons == [Con(a, clients)] && s.queue == [] && IsRequest(p) && IsAnswer(m)
    ensures var t := Step(Step(s, Client(a, p)), Modem(m)); t.cons == [Con(a, Snoop(clients, m))] && t.queue == []
  {
    var t := Step(s, Client(a, p));
    assert t.queue == [Pending(a, p)] && t.cons == s.cons;
    SnoopOne(a, clients, m);
    assert Respond(t, m).queue == [];
  }

  lemma SnoopOne(fd: byte, clients: seq<Key>, m: Qmi)
    requires m.Ctl?
    ensures SnoopAll([Con(fd, clients)], fd, m) == [Con(fd, Snoop(clients, m))]
  {
  }

  lemma ReplayOfTwo(release: Qmi, grant: Qmi)
    requires release.Ctl? && grant.Ctl? && Succeeded(release) && Succeeded(grant)
    requires release.ctlType == RELEASE_CLIENT_ID && grant.ctlType == GET_CLIENT_ID && release.key == grant.key
    ensures Replay([release, grant]) == [grant.key]
    ensures Grants([release, grant], grant.key) == 1 && Releases([release, grant], grant.key) == 1
  {
    var none: seq<Qmi> := [];
    assert [release, grant][..1] == [release] && [release][..0] == none;
    assert Grants(none, grant.key) == 0 && Releases(none, grant.key) == 0;
    assert Replay(none) == [] && Replay([release]) == Snoop([], release) == [];
    assert Grants([release], grant.key) == 0;
    assert Releases([release], grant.key) == ReleaseOf(release, grant.key) == 1;
    assert Replay([release, grant]) == Snoop([], grant) == [grant.key];
  }

  // ---------- routing ----------

  /** How many registrations of `key` there are over all connections. */
  function Holders(cons: seq<Con>, key: Key): nat {
    if cons == [] then 0 else Count(cons[0].clients, key) + Holders(cons[1..], key)
  }

  ghost predicate UniqueKeys(cons: seq<Con>) {
    forall key :: Holders(cons, key) <= 1
  }

  lemma {:induction false} HoldersAppend(a: seq<Con>, b: seq<Con>, key: Key)
    ensures Holders(a + b, key) == Holders(a, key) + Holders(b, key)
  {
    if a == [] {
      assert a + b == b;
    } else {
      assert (a + b)[1..] == a[1..] + b;
      HoldersAppend(a[1..], b, key);
    }
  }

  lemma HoldersUpdate(cons: seq<Con>, k: nat, c: Con, key: Key)
    requires k < |cons|
    ensures Holders(cons[k := c], key) == Holders(cons, key) - Count(cons[k].clients, key) + Count(c.clients, key)
    ensures Holders(DropAt(cons, k), key) == Holders(cons, key) - Count(cons[k].clients, key)
  {
    assert cons == cons[..k] + ([cons[k]] + cons[k+1..]);
    assert cons[k := c] == cons[..k] + ([c] + cons[k+1..]);
    HoldersAppend(cons[..k], [cons[k]] + cons[k+1..], key);
    HoldersAppend(cons[..k], [c] + cons[k+1..], key);
    HoldersAppend(cons[..k], cons[k+1..], key);
  }

  /** How many connections there are on a descriptor. */
  function Sharing(cons: seq<Con>, fd: byte): nat {
    if cons == [] then 0 else (if cons[0].fd == fd then 1 else 0) + Sharing(cons[1..], fd)
  }

  /** How many registrations of `key` a response adds over all connections. */
  function GrantsTo(cons: seq<Con>, fd: byte, m: Qmi, key: Key): nat
    requires m.Ctl?
  {
    if GrantOf(m, key) == 1 then Sharing(cons, fd) else 0
  }

  /** A grant registers its pair once more for every connection on the descriptor; anything else registers nothing. */
  lemma {:induction false} HoldersSnoop(cons: seq<Con>, fd: byte, m: Qmi, key: Key)
    requires m.Ctl?
    ensures Holders(SnoopAll(cons, fd, m), key) <= Holders(cons, key) + GrantsTo(cons, fd, m, key)
    ensures m.ctlType == GET_CLIENT_ID ==>
      Holders(SnoopAll(cons, fd, m), key) == Holders(cons, key) + GrantsTo(cons, fd, m, key)
  {
    if cons != [] {
      HoldersSnoop(cons[1..], fd, m, key);
      SnoopCount(cons[0].clients, m, key);
      SnoopAllFirst(cons, fd, m, key);
    }
  }

  lemma SnoopAllFirst(cons: seq<Con>, fd: byte, m: Qmi, key: Key)
    requires m.Ctl? && cons != []
    ensures Holders(SnoopAll(cons, fd, m), key)
         == Count(if cons[0].fd == fd then Snoop(cons[0].clients, m) else cons[0].clients, key) + Holders(SnoopAll(cons[1..], fd, m), key)
  {
    assert SnoopAll(cons, fd, m)[1..] == SnoopAll(cons[1..], fd, m);
  }

  /** The modem grants a client id that then is registered more than once for that service type. */
  predicate Overgrants(s: State, e: Event) {
    && Answering(s, e)
    && e.m.ctlType == GET_CLIENT_ID
    && Succeeded(e.m)
    && Sharing(s.cons, s.queue[0].fd) > 0
    && Sharing(s.cons, s.queue[0].fd) + Holders(s.cons, e.m.key) > 1
  }

  /** Registrations stay unique if and only if the event is no such grant. */
  lemma UniqueStep(s: State, e: Event)
    requires UniqueKeys(s.cons)
    ensures UniqueKeys(Step(s, e).cons) <==> !Overgrants(s, e)
  {
    var s' := Step(s, e);
    match e
    case Connect(fd) =>
      forall key ensures Holders(s'.cons, key) <= 1 {
        HoldersAppend(s.cons, [Con(ToByte(fd), [])], key);
        assert Holders(s.cons, key) <= 1;
      }
    case Hangup(fd) =>
      forall key ensures Holders(s'.cons, key) <= 1 {
        assert Holders(s.cons, key) <= 1;
        var k := FindCon(s.cons, fd);
        if k < |s.cons| { HoldersUpdate(s.cons, k, s.cons[k], key); }
      }
    case Client(fd, m) =>
    case Modem(m) =>
      if Answering(s, e) {
        UniqueSnoop(s.cons, s.queue[0].fd, m);
      }
  }

  lemma UniqueSnoop(cons: seq<Con>, fd: byte, m: Qmi)
    requires m.Ctl? && UniqueKeys(cons)
    ensures UniqueKeys(SnoopAll(cons, fd, m))
       <==> !(m.ctlType == GET_CLIENT_ID && Succeeded(m) && Sharing(cons, fd) > 0 && Sharing(cons, fd) + Holders(cons, m.key) > 1)
  {
    var r := SnoopAll(cons, fd, m);
    forall key ensures key != m.key || GrantOf(m, key) == 0 ==> Holders(r, key) <= 1 {
      assert Holders(cons, key) <= 1;
      HoldersSnoop(cons, fd, m, key);
    }
    HoldersSnoop(cons, fd, m, m.key);
    if UniqueKeys(r) {
      assert Holders(r, m.key) <= 1;
    }
    assert Holders(cons, m.key) <= 1;
  }

  lemma {:induction false} RouteOneCount(fd: byte, clients: seq<Key>, m: Qmi)
    requires m.Service? && m.key.clientId != 0
    ensures |RouteOne(fd, clients, m)| == Count(clients, m.key)
  {
    if clients != [] {
      RouteOneCount(fd, clients[1..], m);
      assert clients == [clients[0]] + clients[1..];
    }
  }

  /** A message for one client id is written exactly once per registration of its (type, id). */
  lemma {:induction false} RouteCount(cons: seq<Con>, m: Qmi)
    requires m.Service? && m.key.clientId != 0
    ensures |Route(cons, m)| == Holders(cons, m.key)
  {
    if cons != [] {
      RouteOneCount(cons[0].fd, cons[0].clients, m);
      RouteCount(cons[1..], m);
    }
  }

  lemma {:induction false} RouteToHolders(cons: seq<Con>, m: Qmi)
    requires m.Service? && m.key.clientId != 0
    ensures forall d :: d in Route(cons, m) ==>
      exists c :: c in cons && c.fd == d.fd && m.key in c.clients
  {
    if cons != [] {
      RouteToHolders(cons[1..], m);
      RouteOneIsService(cons[0].fd, cons[0].clients, m);
      RouteOneCount(cons[0].fd, cons[0].clients, m);
      forall d | d in Route(cons, m) ensures exists c :: c in cons && c.fd == d.fd && m.key in c.clients {
        assert Route(cons, m) == RouteOne(cons[0].fd, cons[0].clients, m) + Route(cons[1..], m);
        if d in RouteOne(cons[0].fd, cons[0].clients, m) {
          assert cons[0] in cons && m.key in cons[0].clients;
        } else {
          var c :| c in cons[1..] && c.fd == d.fd && m.key in c.clients;
          assert c in cons;
        }
      }
    }
  }

  predicate NeverOvergrants(es: seq<Event>) {
    es == [] || (NeverOvergrants(es[..|es|-1]) && !Overgrants(Run(es[..|es|-1]), es[|es|-1]))
  }

  /** Every pair is registered at most once after the run and after each of its beginnings. */
  ghost predicate UniqueThroughout(es: seq<Event>) {
    UniqueKeys(Run(es).cons) && (es == [] || UniqueThroughout(es[..|es|-1]))
  }

  /** Registrations are unique throughout a run if and only if the modem never grants one so. */
  lemma {:induction false} UniqueRun(es: seq<Event>)
    ensures UniqueThroughout(es) <==> NeverOvergrants(es)
  {
    if es != [] {
      UniqueRun(es[..|es|-1]);
      if NeverOvergrants(es[..|es|-1]) {
        UniqueStep(Run(es[..|es|-1]), es[|es|-1]);
      }
    }
  }

  /**
   If the modem grants no pair so that it is registered twice, a message addressed to one client id is written
   to the one connection that holds it, once, and to nobody if none does.
   */
  lemma UnicastRun(es: seq<Event>, m: Qmi)
    requires NeverOvergrants(es)
    requires m.Service? && m.key.clientId != 0
    ensures var out := Route(Run(es).cons, m);
      && |out| <= 1
      && (out == [] <==> Holders(Run(es).cons, m.key) == 0)
      && (out != [] ==> out[0].qmi == m)
      && (out != [] ==> exists c :: c in Run(es).cons && c.fd == out[0].fd && m.key in c.clients)
  {
    var cons := Run(es).cons;
    UniqueRun(es);
    assert Holders(cons, m.key) <= 1;
    RouteCount(cons, m);
    RouteIsService(cons, m);
    RouteToHolders(cons, m);
    if Route(cons, m) != [] { assert Route(cons, m)[0] in Route(cons, m); }
  }
}
