/**
 The dialling loop on its variables. What the modem answers and the clock shows are parameters; the calls
 it dials are reported. The loop is proved to perform the runs of `Dial`, so what holds of them holds of it.
 */
module Dialer {
  import opened Prelude
  import D = Dial
  import Runs = DialRuns
  import Link = DialLink
  import Client = DialClient

  class Dialer {
    const enable4: bool
    const enable6: bool
    const credentials: bool
    var auth: int
    var status4: byte
    var status6: byte
    var attached: byte
    var loopback: nat
    var fails: nat
    var allow: nat
    var alarm: Option<D.Alarm>
    var link: int
    var actions: seq<bool>
    var signals: seq<D.Signal>
    var mainLoop: bool
    var running: bool

    constructor (enable4: bool, enable6: bool, credentials: bool, auth: int, attached: byte, mainLoop: bool, now: nat)
      ensures Abs() == D.Begin(enable4, enable6, credentials, auth, attached, mainLoop, now)
    {
      this.enable4, this.enable6, this.credentials := enable4, enable6, credentials;
      this.auth, this.attached, this.mainLoop := auth, attached, mainLoop;
      status4, status6 := D.UNKNOWN, D.UNKNOWN;
      loopback, fails, allow, alarm := 0, 0, now, None;
      link, actions, signals, running := -1, [], [D.Check], true;
    }

    ghost function CallOf(): D.Call
      reads this
    {
      D.Call(enable4, enable6, credentials, auth, status4, status6, attached, loopback, fails, allow, alarm)
    }

    ghost function ClientOf(): D.Client
      reads this
    {
      D.Client(link, actions)
    }

    ghost function Abs(): D.State
      reads this
    {
      D.State(CallOf(), ClientOf(), signals, mainLoop, running)
    }

    /** A failed setup is tried once more with the other kind of authentication, which is kept if it works. */
    method SetupIPv4(v4: D.Answers)
      modifies this`auth, this`status4
      ensures CallOf() == D.Try4(old(CallOf()), v4)
    {
      if enable4 && status4 != D.CONNECTED {
        var err := v4.first;
        if err > 0 && credentials {
          var oldAuth := auth;
          auth := if auth == 1 then 2 else 1;
          err := v4.second;
          if err != 0 {
            auth := oldAuth;
          }
        }
        if err == 0 {
          err := v4.address;
          if err == 0 {
            status4 := D.CONNECTED;
          }
        }
      }
    }

    method SetupIPv6(v6: D.Answers)
      modifies this`status6
      ensures CallOf() == D.Try6(old(CallOf()), v6)
    {
      if enable6 && status6 != D.CONNECTED {
        var err := v6.first;
        if err == 0 {
          err := v6.address;
          if err == 0 {
            status6 := D.CONNECTED;
          }
        }
      }
    }

    /** Sets the alarm; no seconds cancel it. */
    method SetAlarm(at: nat, seconds: nat, overflowed: bool)
      modifies this`alarm
      ensures alarm == D.AlarmAfter(at, seconds, overflowed)
    {
      alarm := if seconds == 0 then None else Some(D.Alarm(at + 1000 * seconds, overflowed));
    }

    /** The wait before the next round. */
    method Settle(armed: nat, done: nat)
      modifies this`fails, this`allow, this`alarm
      ensures CallOf() == D.Settle(old(CallOf()), armed, done)
    {
      if (enable4 && status4 == D.DISCONNECTED) || (enable6 && status6 == D.DISCONNECTED) {
        var allowTime := [5, 10, 20, 40, 60];
        allow := if fails < |allowTime| then allowTime[fails] else 60;
        fails := fails + 1;
        SetAlarm(armed, allow, false);
        allow := allow * 1000 + done;
      } else if status4 == D.CONNECTED || status6 == D.CONNECTED {
        fails := 0;
        allow := done;
      }
    }

    /**
     A signal to try a call. A round that fails is followed by a wait of the length due and an alarm of that
     length; for a call that is still too early the alarm is set for within a second after it may be made,
     unless the wait has ended by then, and in that second no alarm is set.
     */
    method Start(x: D.Env) returns (dialled: bool)
      requires alarm.None?
      modifies this`auth, this`status4, this`status6, this`fails, this`allow, this`alarm
      ensures CallOf() == D.Tried(old(CallOf()), x)
      ensures dialled == D.Admits(old(CallOf()), x.now)
      ensures dialled && D.Down(CallOf()) ==>
        && allow == x.done + 1000 * D.Delay(old(fails)) && fails == old(fails) + 1
        && alarm == Some(D.Alarm(x.armed + 1000 * D.Delay(old(fails)), false))
      ensures !dialled && D.Registered(CallOf()) && x.later < allow ==>
        alarm.Some? && allow <= alarm.value.due < allow + 1000
      ensures !dialled && D.Registered(CallOf()) && allow <= x.later <= allow + 999 ==> alarm.None?
      ensures !dialled ==> allow == old(allow) && fails == old(fails)
    {
      dialled := false;
      if attached != 1 && loopback == 0 {
        return;
      }
      if allow > x.now {
        Runs.AlarmIsOnTime(allow, x.later);
        SetAlarm(x.later, D.AlarmSeconds(allow, x.later), D.Overflows(allow, x.later));
        return;
      }
      dialled := true;
      SetupIPv4(x.v4);
      SetupIPv6(x.v6);
      Settle(x.armed, x.done);
    }

    /** The address client is told only of a change, so it never gets the same order twice in a row. */
    method UsbnetLinkChange(up: bool)
      modifies this`link, this`actions
      ensures ClientOf() == D.LinkChange(old(ClientOf()), if up then 1 else 0)
      ensures old(Link.LinkInv(ClientOf())) ==> Link.LinkInv(ClientOf())
      ensures old(Link.LinkMatches(ClientOf())) ==> (Link.ClientRuns(ClientOf()) <==> up)
    {
      Link.AppendAlternates(actions, up);
      var l := if up then 1 else 0;
      if link == l {
        return;
      }
      link := l;
      actions := actions + [up];
    }

    method QueryDataCalls(x: D.Env)
      modifies this`status4, this`status6
      ensures CallOf() == D.Checked(old(CallOf()), x)
    {
      if enable4 {
        if x.query4.Some? {
          status4 := x.query4.value;
        }
        if status4 == D.CONNECTED && !x.sameAddress {
          status4 := D.DISCONNECTED;
        }
      } else {
        status4 := D.DISCONNECTED;
      }
      if enable6 {
        if x.query6.Some? {
          status6 := x.query6.value;
        }
      } else {
        status6 := D.DISCONNECTED;
      }
    }

    method Relink()
      modifies this`link, this`actions
      ensures ClientOf() == D.Relinked(old(ClientOf()), CallOf())
    {
      if status4 == D.DISCONNECTED && status6 == D.DISCONNECTED {
        UsbnetLinkChange(false);
      } else if status4 == D.CONNECTED || status6 == D.CONNECTED {
        UsbnetLinkChange(true);
      }
    }

    method SendSigno(signo: D.Signal)
      modifies this`signals
      ensures signals == D.Post(old(signals), signo, true)
    {
      signals := signals + [signo];
    }

    /** Sends a signal to try a call if an enabled family is known to be down. */
    method StartIfDown()
      modifies this`signals
      ensures signals == D.Post(old(signals), D.Start, D.Down(CallOf()))
    {
      if (enable4 && status4 == D.DISCONNECTED) || (enable6 && status6 == D.DISCONNECTED) {
        SendSigno(D.Start);
      }
    }

    /** The modem is asked about the calls; the address client follows, and a call is asked for if one is down. */
    method CheckCall(x: D.Env)
      modifies this`status4, this`status6, this`link, this`actions, this`signals
      ensures CallOf() == D.Checked(old(CallOf()), x) && ClientOf() == D.Relinked(old(ClientOf()), CallOf())
      ensures signals == D.Post(old(signals), D.Start, D.Down(CallOf()))
      ensures old(Link.LinkMatches(ClientOf())) ==>
        if status4 == 2 || status6 == 2 then link == 1 && Link.ClientRuns(ClientOf())
        else if status4 == 1 && status6 == 1 then link == 0 && !Link.ClientRuns(ClientOf())
        else ClientOf() == old(ClientOf())
    {
      QueryDataCalls(x);
      Relink();
      StartIfDown();
    }

    /** One signal is read, which cancels the alarm, and acted on. */
    method HandleSignal(x: D.Env) returns (dialled: bool)
      requires running && signals != []
      modifies this
      ensures Abs() == D.Handled(old(Abs()), x)
      ensures dialled == Runs.IsRound(old(Abs()), D.Signalled(x))
      ensures old(signals)[0] == D.Check && old(Link.LinkMatches(ClientOf())) ==>
        && (status4 == 2 || status6 == 2 ==> link == 1 && Link.ClientRuns(ClientOf()))
        && (status4 == 1 && status6 == 1 ==> link == 0 && !Link.ClientRuns(ClientOf()))
    {
      dialled := false;
      var signo := signals[0];
      signals := signals[1..];
      alarm := None;
      match signo
      case Start =>
        dialled := Start(x);
      case Check =>
        CheckCall(x);
      case Stop =>
        UsbnetLinkChange(false);
        running := false;
    }

    method NetworkStateChanged(state: byte, now: nat)
      requires running
      modifies this`attached, this`allow, this`signals
      ensures Abs() == D.Step(old(Abs()), D.Registration(state, now))
    {
      attached := state;
      if attached == 1 {
        StartIfDown();
      } else {
        allow := now;
      }
    }

    method DataCallListChanged(now: nat)
      requires running
      modifies this`allow, this`signals
      ensures Abs() == D.Step(old(Abs()), D.CallListChanged(now))
    {
      if status4 == D.CONNECTED || status6 == D.CONNECTED {
        allow := now + 1000;
      }
      SendSigno(D.Check);
    }

    method LoopbackChanged(state: nat)
      requires running
      modifies this`loopback, this`signals
      ensures Abs() == D.Step(old(Abs()), D.Loopback(state))
    {
      loopback := state;
      if loopback != 0 {
        SendSigno(D.Start);
      }
    }

    /** From the top of the loop: new pipes, the registration read, and a check asked for. */
    method Restart(state: byte, missed: bool)
      modifies this`attached, this`loopback, this`alarm, this`signals
      ensures Abs() == D.Restarted(old(Abs()), state, missed)
    {
      signals := [];
      if missed {
        alarm := None;
      }
      loopback := 0;
      attached := state;
      SendSigno(D.Check);
      assert signals == [D.Check];
    }

    method ModemReset(state: byte, missed: bool, gone: bool)
      requires running
      modifies this
      ensures Abs() == D.Step(old(Abs()), D.ModemReset(state, missed, gone))
    {
      link := 0;
      if gone {
        running := false;
      } else {
        Restart(state, missed);
      }
    }

    method DeviceDisconnected(state: byte, missed: bool)
      requires running
      modifies this
      ensures Abs() == D.Step(old(Abs()), D.Disconnected(state, missed))
    {
      UsbnetLinkChange(false);
      if mainLoop {
        Restart(state, missed);
      } else {
        running := false;
      }
    }

    method Handle(e: D.Event) returns (dialled: bool)
      requires running
      modifies this
      ensures Abs() == D.Step(old(Abs()), e)
      ensures dialled == Runs.IsRound(old(Abs()), e)
    {
      dialled := false;
      match e
      case Signalled(x) =>
        if signals != [] {
          dialled := HandleSignal(x);
        }
      case AlarmGoesOff(now) =>
        if alarm.Some? && alarm.value.due <= now {
          alarm := None;
          SendSigno(D.Start);
        }
      case PollFails =>
        UsbnetLinkChange(false);
        running := false;
      case PollTimesOut =>
        if signals == [] {
          SendSigno(D.Check);
        }
      case Interrupt =>
        mainLoop := false;
        SendSigno(D.Stop);
      case Registration(state, now) => NetworkStateChanged(state, now);
      case CallListChanged(now) => DataCallListChanged(now);
      case Loopback(state) => LoopbackChanged(state);
      case ModemReset(state, missed, gone) => ModemReset(state, missed, gone);
      case Disconnected(state, missed) => DeviceDisconnected(state, missed);
    }

    /** How the round that has just been dialled ended. */
    method Outcome() returns (o: Runs.Outcome)
      ensures o == Runs.OutcomeOf(CallOf())
    {
      if (enable4 && status4 == D.DISCONNECTED) || (enable6 && status6 == D.DISCONNECTED) {
        o := Runs.Failed;
      } else if status4 == D.CONNECTED || status6 == D.CONNECTED {
        o := Runs.Connected;
      } else {
        o := Runs.Undecided;
      }
    }

    /** One event, and the round it dialled, if it did. */
    method Report(e: D.Event, rounds: seq<Runs.Round>) returns (r: seq<Runs.Round>)
      requires running
      modifies this
      ensures Abs() == D.Step(old(Abs()), e)
      ensures r == rounds + Runs.RoundOf(old(Abs()), e)
    {
      var dialled := Handle(e);
      r := rounds;
      if dialled {
        var outcome := Outcome();
        r := rounds + [Runs.Round(e.env.now, e.env.done, outcome)];
      }
    }

    /**
     The loop: events are handled until it is left. It dials the rounds of the run, each no sooner
     after a failed one than the back-off allows; it forgets no retry if none is lost between two readings of the clock; and it starts
     and stops the address client in turn, and leaves it stopped, exactly under the conditions proved of runs.
     */
    method Serve(es: D.Events) returns (rounds: seq<Runs.Round>)
      requires running
      modifies this
      ensures Abs() == D.Run(old(Abs()), es) && rounds == Runs.RoundsOf(old(Abs()), es)
      ensures forall k {:trigger Runs.UncutAfter(old(Abs()), es, k)} ::
        0 <= k < |rounds| - 1 && rounds[k].outcome == Runs.Failed && Runs.UncutAfter(old(Abs()), es, k)
        ==> Runs.Spaced(rounds, k, Runs.FailsBefore(rounds, k, old(fails)))
      ensures old(Runs.Retrying(Abs())) && !Runs.SomeLost(old(Abs()), es) ==> Runs.Retrying(Abs())
      ensures auth == Runs.AuthAfter(old(auth), Runs.SwapsOf(old(Abs()), es))
      ensures old(Link.LinkInv(ClientOf())) ==> (Link.Alternates(actions) <==> !Link.Restarts(old(Abs()), es))
      ensures old(Link.LinkMatches(ClientOf())) ==>
        Client.Fits(Client.SeenAll(Client.View(old(Link.ClientRuns(ClientOf())), false), old(Abs()), es), ClientOf())
      ensures old(Link.LinkMatches(ClientOf())) && !running ==> (Link.ClientRuns(ClientOf()) <==> Link.LeftRunning(old(Abs()), es))
    {
      rounds := Loop(es);
      ghost var s := old(Abs());
      if Runs.Retrying(s) {
        Runs.RetryingRun(s, es);
      }
      Runs.AuthRun(s, es);
      if Link.LinkMatches(s.client) {
        Client.ClientRun(Client.View(Link.ClientRuns(s.client), false), s, es);
      }
      if Link.LinkInv(s.client) {
        Link.LinkRun(s, es);
      }
      if Link.LinkMatches(s.client) && !running {
        Link.LinkExit(s, es);
      }
      forall k {:trigger Runs.UncutAfter(s, es, k)} |
        0 <= k < |rounds| - 1 && rounds[k].outcome == Runs.Failed && Runs.UncutAfter(s, es, k)
        ensures Runs.Spaced(rounds, k, Runs.FailsBefore(rounds, k, s.call.fails))
      {
        Runs.Backoff(s, es, k);
      }
    }

    method Loop(es: D.Events) returns (rounds: seq<Runs.Round>)
      requires running
      modifies this
      ensures Abs() == D.Run(old(Abs()), es) && rounds == Runs.RoundsOf(old(Abs()), es)
    {
      rounds := [];
      var rest := es;
      while rest.Cons? && running
        invariant D.Run(Abs(), rest) == D.Run(old(Abs()), es)
        invariant rounds + Runs.RoundsOf(Abs(), rest) == Runs.RoundsOf(old(Abs()), es)
        decreases rest
      {
        Runs.OneMore(Abs(), rest.head, rest.tail, rounds);
        rounds := Report(rest.head, rounds);
        rest := rest.tail;
      }
      if !running {
        D.StoppedRun(Abs(), rest);
        Runs.NoRounds(Abs(), rest);
      }
      assert rounds + [] == rounds;
    }
  }
}
