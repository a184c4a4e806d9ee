/**
 Whether the address client runs, told from the last event that decided it.
 */
module DialClient {
  import opened Prelude
  import opened Dial
  import Link = DialLink

  /** A check is read and acted on. */
  predicate IsCheck(s: State, e: Event) {
    s.running && e.Signalled? && s.signals != [] && s.signals[0] == Check
  }

  /** The new status of a family: disconnected when it is not enabled, else what the modem says, or what was known if it says nothing. */
  function Learned(enabled: bool, query: Option<byte>, known: byte): byte {
    if !enabled then 1 else match query case None => known case Some(v) => v
  }

  /**
   A check learns the status of each family; IPv4 counts as disconnected when its address is not the modem's.
   Nothing else about the calls changes but that the alarm is off, and a call is asked for if an enabled
   family is down.
   */
  lemma CheckLearns(s: State, e: Event)
    requires IsCheck(s, e)
    ensures var c := Step(s, e).call;
      && c.status6 == Learned(s.call.enable6, e.env.query6, s.call.status6)
      && (var learned := Learned(s.call.enable4, e.env.query4, s.call.status4);
          c.status4 == if learned == 2 && !e.env.sameAddress then 1 else learned)
      && c == s.call.(alarm := None, status4 := c.status4, status6 := c.status6)
      && Step(s, e).signals == s.signals[1..] + if (c.enable4 && c.status4 == 1) || (c.enable6 && c.status6 == 1) then [Start] else []
  {
  }

  /** What an event decides about the address client: to run if a check finds a family up, not to if it finds both down or the connection ends. */
  function Decision(s: State, e: Event): Option<bool> {
    if !s.running then None
    else if IsCheck(s, e) then
      var c := Step(s, e).call;
      if c.status4 == 2 || c.status6 == 2 then Some(true)
      else if c.status4 == 1 && c.status6 == 1 then Some(false)
      else None
    else if e.PollFails? || e.Disconnected? || (e.Signalled? && s.signals != [] && s.signals[0] == Stop) then Some(false)
    else None
  }

  /** Whether the client runs, and whether a reset has made the loop forget that it does. */
  datatype View = View(runs: bool, forgotten: bool)

  /** While it is forgotten that the client runs, only a decision that it should run counts. */
  function Seen(v: View, s: State, e: Event): View {
    if s.running && e.ModemReset? then View(v.runs, v.runs)
    else match Decision(s, e)
      case None => v
      case Some(true) => View(true, false)
      case Some(false) => if v.forgotten then v else View(false, false)
  }

  function SeenAll(v: View, s: State, es: Events): View
    decreases es
  {
    if es.Nil? then v else SeenAll(Seen(v, s, es.head), Step(s, es.head), es.tail)
  }

  /** The view fits the loop's record. */
  predicate Fits(v: View, c: Client) {
    && v.runs == Link.ClientRuns(c)
    && (v.forgotten ==> v.runs && c.link == 0)
    && -1 <= c.link <= 1
    && (c.link == 1 <==> v.runs && !v.forgotten)
  }

  /** What an event tells the address client: its decision, if it comes to one. */
  lemma DecisionFollowed(s: State, e: Event)
    requires !(s.running && e.ModemReset?)
    ensures Step(s, e).client
         == match Decision(s, e) case None => s.client case Some(up) => LinkChange(s.client, if up then 1 else 0)
  {
  }

  lemma ChangeFits(v: View, c: Client, up: bool)
    requires Fits(v, c)
    ensures Fits(if up then View(true, false) else if v.forgotten then v else View(false, false), LinkChange(c, if up then 1 else 0))
  {
    assert forall x :: (c.actions + [x])[|c.actions|] == x;
  }

  lemma SeenStep(v: View, s: State, e: Event)
    requires Fits(v, s.client)
    ensures Fits(Seen(v, s, e), Step(s, e).client)
  {
    if !(s.running && e.ModemReset?) {
      DecisionFollowed(s, e);
      if Decision(s, e).Some? {
        ChangeFits(v, s.client, Decision(s, e).value);
      }
    }
  }

  /** In every run the address client runs exactly if the events say so. */
  lemma {:induction false} ClientRun(v: View, s: State, es: Events)
    requires Fits(v, s.client)
    ensures Fits(SeenAll(v, s, es), Run(s, es).client)
    decreases es
  {
    if es.Cons? {
      SeenStep(v, s, es.head);
      ClientRun(Seen(v, s, es.head), Step(s, es.head), es.tail);
    }
  }

  /** No reset comes while the client runs. */
  predicate NeverForgotten(s: State, es: Events)
    decreases es
  {
    es.Cons? ==> !(s.running && es.head.ModemReset? && s.client.link == 1) && NeverForgotten(Step(s, es.head), es.tail)
  }

  /** The last decision of a run, or what was before it. */
  function LastDecision(before: bool, s: State, es: Events): bool
    decreases es
  {
    if es.Nil? then before
    else
      var d := Decision(s, es.head);
      LastDecision(if d.Some? then d.value else before, Step(s, es.head), es.tail)
  }

  /** Unless a reset comes while it runs, the client runs if and only if the last decision was that it should. */
  lemma {:induction false} LastDecisionRuns(s: State, es: Events)
    requires Link.LinkMatches(s.client) && NeverForgotten(s, es)
    ensures Link.LinkMatches(Run(s, es).client)
    ensures Link.ClientRuns(Run(s, es).client) <==> LastDecision(Link.ClientRuns(s.client), s, es)
    decreases es
  {
    if es.Cons? {
      SeenStep(View(Link.ClientRuns(s.client), false), s, es.head);
      Link.LinkStep(s, es.head);
      LastDecisionRuns(Step(s, es.head), es.tail);
    }
  }

  /** A check that finds both families down stops the client, one that finds a family up has it run, and any other leaves it. */
  lemma CheckDecides(s: State, e: Event)
    requires IsCheck(s, e) && Link.LinkMatches(s.client)
    ensures var c, client := Step(s, e).call, Step(s, e).client;
      if c.status4 == 2 || c.status6 == 2 then client.link == 1 && Link.ClientRuns(client)
      else if c.status4 == 1 && c.status6 == 1 then client.link == 0 && !Link.ClientRuns(client)
      else client == s.client
  {
  }

  /** Up, nothing for a while, down: the client is started and stopped. */
  lemma UpThenDown()
    ensures var up, down := Signalled(Link.Finding(2)), Signalled(Link.Finding(1));
      Run(Link.Entered(), Cons(up, Cons(PollTimesOut, Cons(down, Nil)))).client == Client(0, [true, false])
  {
    var up, down := Signalled(Link.Finding(2)), Signalled(Link.Finding(1));
    var s1 := Step(Link.Entered(), up);
    assert s1.client == Client(1, [true]) && s1.signals == [];
    var s2 := Step(s1, PollTimesOut);
    assert s2.client == s1.client && s2.signals == [Check];
    var s3 := Step(s2, down);
    assert s3.client == Client(0, [true, false]);
    assert Run(s2, Cons(down, Nil)) == s3;
    assert Run(s1, Cons(PollTimesOut, Cons(down, Nil))) == s3;
  }
}
