/**
 What a round of calls does, in which order the loop reads its signals, what it knows of the network, and when it ends.
 */
module DialSignals {
  import opened Prelude
  import opened Dial
  import Runs = DialRuns

  // ---------- rounds ----------

  /**
   A round connects IPv4 when its setup succeeds, at once or, after a refusal and with credentials, with the other
   kind of authentication, and the address can be had; IPv6 when its one setup does; and touches no other status.
   The other kind of authentication is kept only if it succeeded. When some family is then up and no enabled one
   down, the next round may start at once.
   */
  lemma RoundConnects(s: State, e: Event)
    requires Runs.IsRound(s, e)
    ensures var c, d, x := s.call, Step(s, e).call, e.env;
      && d.status4 == (if c.enable4 && x.v4.address == 0
                          && (x.v4.first == 0 || (x.v4.first > 0 && c.credentials && x.v4.second == 0))
                       then 2 else c.status4)
      && d.status6 == (if c.enable6 && x.v6.first == 0 && x.v6.address == 0 then 2 else c.status6)
      && d.auth == (if c.enable4 && c.status4 != 2 && x.v4.first > 0 && c.credentials && x.v4.second == 0
                    then (if c.auth == 1 then 2 else 1) else c.auth)
      && (Runs.OutcomeOf(d) == Runs.Connected ==> d.allow == x.done && d.fails == 0 && d.alarm == None)
      && (Runs.OutcomeOf(d) == Runs.Undecided ==> d.allow == c.allow && d.fails == c.fails && d.alarm == None)
  {
    RoundParts(s.call.(alarm := None), e.env);
  }

  lemma RoundParts(c: Call, x: Env)
    ensures var d := Try6(Try4(c, x.v4), x.v6);
      Dialled(c, x) == Settle(d, x.armed, x.done) && Settle(d, x.armed, x.done).auth == d.auth
      && Settle(d, x.armed, x.done).status4 == d.status4 && Settle(d, x.armed, x.done).status6 == d.status6
  {
  }

  /** No other event changes the kind of authentication, and none but a check the status of a family. */
  lemma OnlyRoundsDial(s: State, e: Event)
    requires !Runs.IsRound(s, e)
    ensures Step(s, e).call.auth == s.call.auth
    ensures !(s.running && e.Signalled? && s.signals != [] && s.signals[0] == Check) ==>
      Step(s, e).call.status4 == s.call.status4 && Step(s, e).call.status6 == s.call.status6
  {
  }

  // ---------- signals ----------

  /** A signal is read. */
  predicate Reads(s: State, e: Event) {
    s.running && e.Signalled? && s.signals != []
  }

  /** The signals an event has the loop send to itself. */
  function SentBy(s: State, e: Event): seq<Signal> {
    if !s.running then []
    else match e
      case Signalled(_) =>
        var c := Step(s, e).call;
        if s.signals != [] && s.signals[0] == Check && ((c.enable4 && c.status4 == 1) || (c.enable6 && c.status6 == 1)) then [Start] else []
      case AlarmGoesOff(now) => if s.call.alarm.Some? && s.call.alarm.value.due <= now then [Start] else []
      case PollTimesOut => if s.signals == [] then [Check] else []
      case Interrupt => [Stop]
      case Registration(attached, _) =>
        if attached == 1 && ((s.call.enable4 && s.call.status4 == 1) || (s.call.enable6 && s.call.status6 == 1)) then [Start] else []
      case CallListChanged(_) => [Check]
      case Loopback(state) => if state != 0 then [Start] else []
      case _ => []
  }

  /** The loop starts over, with new pipes. */
  predicate StartsOver(s: State, e: Event) {
    s.running && ((e.ModemReset? && !e.gone) || (e.Disconnected? && s.mainLoop))
  }

  /** The signals sent since the loop last started, and how many of them have been read. */
  datatype Pipe = Pipe(sent: seq<Signal>, read: nat)

  function Through(p: Pipe, s: State, e: Event): Pipe {
    if StartsOver(s, e) then Pipe([Check], 0)
    else Pipe(p.sent + SentBy(s, e), p.read + if Reads(s, e) then 1 else 0)
  }

  function ThroughAll(p: Pipe, s: State, es: Events): Pipe
    decreases es
  {
    if es.Nil? then p else ThroughAll(Through(p, s, es.head), Step(s, es.head), es.tail)
  }

  predicate Waiting(p: Pipe, signals: seq<Signal>) {
    p.read <= |p.sent| && signals == p.sent[p.read..]
  }

  lemma SignalsStep(s: State, e: Event)
    ensures Step(s, e).signals
         == if StartsOver(s, e) then [Check] else (if Reads(s, e) then s.signals[1..] else s.signals) + SentBy(s, e)
  {
  }

  /** Until the loop starts over, every signal is read once and in the order in which they were sent. */
  lemma {:induction false} SignalsRun(p: Pipe, s: State, es: Events)
    requires Waiting(p, s.signals)
    ensures Waiting(ThroughAll(p, s, es), Run(s, es).signals)
    decreases es
  {
    if es.Cons? {
      SignalsStep(s, es.head);
      SignalsRun(Through(p, s, es.head), Step(s, es.head), es.tail);
    }
  }

  /** Only a signal to try a call sets an alarm. It goes off once, every other signal that is read cancels it, and a restart may miss it. */
  lemma AlarmLasts(s: State, e: Event)
    requires s.running && !(Reads(s, e) && s.signals[0] == Start)
    ensures Step(s, e).call.alarm ==
      if Reads(s, e) || (e.AlarmGoesOff? && s.call.alarm.Some? && s.call.alarm.value.due <= e.now)
         || (StartsOver(s, e) && e.missed)
      then None else s.call.alarm
  {
  }

  // ---------- what is known of the network ----------

  datatype Known = Known(attached: byte, loopback: nat)

  /** The registration and loopback last reported; the loop starts over with a new registration and no loopback. */
  function Told(k: Known, s: State, e: Event): Known {
    if StartsOver(s, e) then Known(e.attached, 0)
    else if s.running && e.Registration? then k.(attached := e.attached)
    else if s.running && e.Loopback? then k.(loopback := e.loopback)
    else k
  }

  function ToldAll(k: Known, s: State, es: Events): Known
    decreases es
  {
    if es.Nil? then k else ToldAll(Told(k, s, es.head), Step(s, es.head), es.tail)
  }

  lemma DialledKeeps(c: Call, x: Env)
    ensures Dialled(c, x).attached == c.attached && Dialled(c, x).loopback == c.loopback
  {
  }

  lemma HandledKeeps(s: State, x: Env)
    requires s.signals != []
    ensures Handled(s, x).call.attached == s.call.attached && Handled(s, x).call.loopback == s.call.loopback
  {
    DialledKeeps(s.call.(alarm := None), x);
  }

  lemma ToldStep(s: State, e: Event)
    ensures var c := Step(s, e).call; Known(c.attached, c.loopback) == Told(Known(s.call.attached, s.call.loopback), s, e)
  {
    if e.Signalled? && s.signals != [] {
      HandledKeeps(s, e.env);
    }
  }

  /** In every run the loop goes by the registration and loopback last reported. */
  lemma {:induction false} KnownRun(s: State, es: Events)
    ensures var c := Run(s, es).call; Known(c.attached, c.loopback) == ToldAll(Known(s.call.attached, s.call.loopback), s, es)
    decreases es
  {
    if es.Cons? {
      ToldStep(s, es.head);
      KnownRun(Step(s, es.head), es.tail);
    }
  }

  // ---------- the end ----------

  /** The loop is left: by a signal to stop, when poll fails, when the device is gone after a reset, or lost without the option to survive that. */
  predicate Leaves(s: State, e: Event) {
    || (e.Signalled? && s.signals != [] && s.signals[0] == Stop)
    || e.PollFails?
    || (e.ModemReset? && e.gone)
    || (e.Disconnected? && !s.mainLoop)
  }

  predicate SomeLeaves(s: State, es: Events)
    decreases es
  {
    es.Cons? && (Leaves(s, es.head) || SomeLeaves(Step(s, es.head), es.tail))
  }

  predicate SomeInterrupt(es: Events)
  {
    es.Cons? && (es.head.Interrupt? || SomeInterrupt(es.tail))
  }

  lemma LeavesStep(s: State, e: Event)
    requires s.running
    ensures Step(s, e).running <==> !Leaves(s, e)
    ensures Step(s, e).mainLoop == (s.mainLoop && !e.Interrupt?)
  {
  }

  /** The loop goes on if and only if no event leaves it; while it does, the option holds until an interrupt. */
  lemma {:induction false} LeavesRun(s: State, es: Events)
    requires s.running
    ensures Run(s, es).running <==> !SomeLeaves(s, es)
    ensures Run(s, es).running ==> Run(s, es).mainLoop == (s.mainLoop && !SomeInterrupt(es))
    decreases es
  {
    if es.Cons? {
      LeavesStep(s, es.head);
      if Leaves(s, es.head) {
        StoppedRun(Step(s, es.head), es.tail);
      } else {
        LeavesRun(Step(s, es.head), es.tail);
      }
    }
  }
}
