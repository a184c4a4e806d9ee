/**
 When the dialling loop starts and stops the network interface's address client, over whole runs.
 */
module DialLink {
  import opened Prelude
  import opened Dial

  ghost predicate Alternates(actions: seq<bool>) {
    forall k :: 0 < k < |actions| ==> actions[k] != actions[k - 1]
  }

  predicate ClientRuns(c: Client) {
    c.actions != [] && c.actions[|c.actions| - 1]
  }

  /** The link says what the address client was last told. */
  predicate LinkMatches(c: Client) {
    -1 <= c.link <= 1 && if c.actions == [] then c.link != 1 else c.link == if ClientRuns(c) then 1 else 0
  }

  ghost predicate LinkInv(c: Client) {
    LinkMatches(c) && Alternates(c.actions)
  }

  /** A reset has forgotten that the client runs. */
  predicate Stale(c: Client) {
    c.link == 0 && ClientRuns(c)
  }

  predicate ResetWhileUp(s: State, e: Event) {
    s.running && e.ModemReset? && s.client.link == 1
  }

  /** A check that finds a family up. */
  predicate ShowsUp(s: State, e: Event) {
    s.running && e.Signalled? && s.signals != [] && s.signals[0] == Check && Up(Checked(s.call, e.env))
  }

  predicate LaterUp(s: State, es: Events)
    decreases es
  {
    es.Cons? && (ShowsUp(s, es.head) || LaterUp(Step(s, es.head), es.tail))
  }

  /** Some reset comes while the link is up and is followed by a check that finds a family up. */
  predicate Restarts(s: State, es: Events)
    decreases es
  {
    es.Cons? && ((ResetWhileUp(s, es.head) && LaterUp(Step(s, es.head), es.tail)) || Restarts(Step(s, es.head), es.tail))
  }

  /** Some reset comes while the link is up and no later check finds a family up. */
  predicate LeftRunning(s: State, es: Events)
    decreases es
  {
    es.Cons? && ((ResetWhileUp(s, es.head) && !LaterUp(Step(s, es.head), es.tail)) || LeftRunning(Step(s, es.head), es.tail))
  }

  /** What one event tells the address client: nothing, or to follow the link up or down. */
  lemma LinkCases(s: State, e: Event)
    ensures s.running && e.ModemReset? ==> Step(s, e).client == s.client.(link := 0)
    ensures ShowsUp(s, e) ==> Step(s, e).client == LinkChange(s.client, 1) && Step(s, e).running
    ensures !(s.running && e.ModemReset?) && !ShowsUp(s, e) ==>
      (Step(s, e).client == s.client && Step(s, e).running == s.running) || Step(s, e).client == LinkChange(s.client, 0)
  {
  }

  lemma AppendAlternates(actions: seq<bool>, x: bool)
    ensures Alternates(actions + [x]) <==> Alternates(actions) && (actions == [] || actions[|actions| - 1] != x)
  {
    var more := actions + [x];
    assert forall k :: 0 <= k < |actions| ==> more[k] == actions[k];
    if Alternates(more) {
      forall k | 0 < k < |actions| ensures actions[k] != actions[k - 1] {
        assert more[k] != more[k - 1];
      }
      assert actions != [] ==> more[|actions|] != more[|actions| - 1];
    }
  }

  lemma LinkStep(s: State, e: Event)
    requires LinkMatches(s.client)
    ensures ResetWhileUp(s, e) ==> Stale(Step(s, e).client) && Step(s, e).client.actions == s.client.actions
    ensures !ResetWhileUp(s, e) ==> LinkMatches(Step(s, e).client)
    ensures !ResetWhileUp(s, e) && Alternates(s.client.actions) ==> Alternates(Step(s, e).client.actions)
  {
    LinkCases(s, e);
    AppendAlternates(s.client.actions, true);
    AppendAlternates(s.client.actions, false);
  }

  lemma StaleStep(s: State, e: Event)
    requires Stale(s.client)
    ensures ShowsUp(s, e) ==> Step(s, e).running && LinkMatches(Step(s, e).client) && !Alternates(Step(s, e).client.actions)
    ensures !ShowsUp(s, e) ==> Step(s, e).client == s.client
  {
    LinkCases(s, e);
    AppendAlternates(s.client.actions, true);
  }

  /** What has been done out of turn stays in the record. */
  lemma {:induction false} OutOfTurnStays(s: State, es: Events)
    requires !Alternates(s.client.actions)
    ensures !Alternates(Run(s, es).client.actions)
    decreases es
  {
    if es.Cons? {
      LinkCases(s, es.head);
      AppendAlternates(s.client.actions, true);
      AppendAlternates(s.client.actions, false);
      OutOfTurnStays(Step(s, es.head), es.tail);
    }
  }

  lemma {:induction false} StaleRun(s: State, es: Events)
    requires Stale(s.client) && Alternates(s.client.actions)
    ensures Alternates(Run(s, es).client.actions) <==> !LaterUp(s, es)
    decreases es
  {
    if es.Cons? {
      StaleStep(s, es.head);
      if ShowsUp(s, es.head) {
        OutOfTurnStays(Step(s, es.head), es.tail);
      } else {
        StaleRun(Step(s, es.head), es.tail);
      }
    }
  }

  lemma {:induction false} StaleStays(s: State, es: Events)
    requires Stale(s.client) && !LaterUp(s, es)
    ensures !Restarts(s, es) && !LeftRunning(s, es) && Run(s, es).client == s.client
    decreases es
  {
    if es.Cons? {
      StaleStep(s, es.head);
      StaleStays(Step(s, es.head), es.tail);
    }
  }

  /**
   Over a whole run the address client is started and stopped in turn if and only if no modem reset comes
   while the link is up and is followed, however much later, by a check that finds a family up.
   */
  lemma {:induction false} LinkRun(s: State, es: Events)
    requires LinkInv(s.client)
    ensures Alternates(Run(s, es).client.actions) <==> !Restarts(s, es)
    decreases es
  {
    if es.Cons? {
      var t := Step(s, es.head);
      LinkStep(s, es.head);
      if ResetWhileUp(s, es.head) {
        StaleRun(t, es.tail);
        if !LaterUp(t, es.tail) {
          StaleStays(t, es.tail);
        }
      } else {
        LinkRun(t, es.tail);
      }
    }
  }

  /** Leaving the loop takes the link down. */
  lemma StopLeavesLinkDown(s: State, e: Event)
    requires s.running && !Step(s, e).running
    ensures Step(s, e).client.link == 0
  {
  }

  lemma {:induction false} StaleExit(s: State, es: Events)
    requires Stale(s.client) && !Run(s, es).running
    ensures ClientRuns(Run(s, es).client) <==> !LaterUp(s, es) || LeftRunning(s, es)
    decreases es
  {
    if !LaterUp(s, es) {
      StaleStays(s, es);
    } else {
      StaleStep(s, es.head);
      if ShowsUp(s, es.head) {
        LinkExit(Step(s, es.head), es.tail);
      } else {
        StaleExit(Step(s, es.head), es.tail);
      }
    }
  }

  /**
   When the loop has been left, the address client still runs if and only if some reset came while the
   link was up and no later check found a family up.
   */
  lemma {:induction false} LinkExit(s: State, es: Events)
    requires LinkMatches(s.client) && (s.running || s.client.link == 0) && !Run(s, es).running
    ensures ClientRuns(Run(s, es).client) <==> LeftRunning(s, es)
    decreases es
  {
    if es.Cons? {
      var t := Step(s, es.head);
      LinkStep(s, es.head);
      if ResetWhileUp(s, es.head) {
        StaleExit(t, es.tail);
        if !LaterUp(t, es.tail) {
          StaleStays(t, es.tail);
        }
      } else {
        if s.running && !t.running {
          StopLeavesLinkDown(s, es.head);
        }
        LinkExit(t, es.tail);
      }
    }
  }

  /** What the checks of the two runs below find. */
  function Finding(status: byte): Env {
    Env(0, 0, Answers(-1, 0, 0), Answers(-1, 0, 0), 0, 0, Some(status), true, None)
  }

  function Entered(): State {
    Begin(true, false, false, 0, 1, false, 0)
  }

  const SUSPENDED: byte := 3

  /**
   Up; a reset; a check that finds the call suspended; another reset; up again. The second reset comes while
   the link is down, and the client is started twice all the same.
   */
  lemma TwoResetsRestart()
    ensures var up, idle, reset := Signalled(Finding(CONNECTED)), Signalled(Finding(SUSPENDED)), ModemReset(1, false, false);
      && Run(Entered(), Cons(up, Cons(reset, Cons(idle, Nil)))).client.link == 0
      && Run(Entered(), Cons(up, Cons(reset, Cons(idle, Cons(reset, Cons(up, Nil)))))).client.actions == [true, true]
  {
    var up, idle, reset := Signalled(Finding(CONNECTED)), Signalled(Finding(SUSPENDED)), ModemReset(1, false, false);
    var s1 := Step(Entered(), up);
    assert s1.client == Client(1, [true]);
    var s2 := Step(s1, reset);
    assert s2.client == Client(0, [true]) && s2.signals == [Check];
    var s3 := Step(s2, idle);
    assert s3.client == s2.client && s3.signals == [];
    var s4 := Step(s3, reset);
    assert s4.client == s2.client && s4.signals == [Check];
    var s5 := Step(s4, up);
    assert s5.client.actions == [true, true];
    assert Run(s4, Cons(up, Nil)) == s5;
    assert Run(s3, Cons(reset, Cons(up, Nil))) == s5;
    assert Run(s2, Cons(idle, Cons(reset, Cons(up, Nil)))) == s5;
    assert Run(s2, Cons(idle, Nil)) == s3;
  }

  /** Up, a reset, a check that finds the call suspended, and an interrupt: the loop is left and the client never stopped. */
  lemma ResetLeavesClientRunning()
    ensures var up, idle, reset := Signalled(Finding(CONNECTED)), Signalled(Finding(SUSPENDED)), ModemReset(1, false, false);
      var s := Run(Entered(), Cons(up, Cons(reset, Cons(idle, Cons(Interrupt, Cons(idle, Nil))))));
      !s.running && s.client.actions == [true]
  {
    var up, idle, reset := Signalled(Finding(CONNECTED)), Signalled(Finding(SUSPENDED)), ModemReset(1, false, false);
    var s1 := Step(Entered(), up);
    assert s1.client == Client(1, [true]);
    var s2 := Step(s1, reset);
    assert s2.client == Client(0, [true]) && s2.signals == [Check];
    var s3 := Step(s2, idle);
    assert s3.client == s2.client && s3.signals == [];
    var s4 := Step(s3, Interrupt);
    assert s4.signals == [Stop];
    var s5 := Step(s4, idle);
    assert s5.client == s2.client && !s5.running;
    assert Run(s4, Cons(idle, Nil)) == s5;
    assert Run(s3, Cons(Interrupt, Cons(idle, Nil))) == s5;
    assert Run(s2, Cons(idle, Cons(Interrupt, Cons(idle, Nil)))) == s5;
  }
}
