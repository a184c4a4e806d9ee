/**
 What the dialling loop guarantees over whole runs: the back-off after failed rounds, that a retry is
 never forgotten, and what becomes of the kind of authentication.
 */
module DialRuns {
  import opened Prelude
  import opened Dial

  // ---------- back-off ----------

  lemma DelaysGrow(j: nat, k: nat)
    requires j <= k
    ensures 5 <= Delay(j) <= Delay(k) <= 60
    ensures Delay(0) == 5 && Delay(1) == 10 && Delay(2) == 20 && Delay(3) == 40
    ensures k >= 4 <==> Delay(k) == 60
  {
  }

  /** How a round ends: some enabled family is known to be down, or else some family is up, or neither. */
  datatype Outcome = Failed | Connected | Undecided

  /** A round of calls: when it starts and ends, and how. */
  datatype Round = Round(now: nat, done: nat, outcome: Outcome)

  /** A signal to try a call is read while registered, or in loopback, and not too early. */
  predicate IsRound(s: State, e: Event) {
    s.running && e.Signalled? && s.signals != [] && s.signals[0] == Start
    && (s.call.attached == 1 || s.call.loopback != 0) && s.call.allow <= e.env.now
  }

  function OutcomeOf(c: Call): Outcome {
    if (c.enable4 && c.status4 == 1) || (c.enable6 && c.status6 == 1) then Failed
    else if c.status4 == 2 || c.status6 == 2 then Connected
    else Undecided
  }

  function RoundOf(s: State, e: Event): seq<Round> {
    if IsRound(s, e) then [Round(e.env.now, e.env.done, OutcomeOf(Step(s, e).call))] else []
  }

  /** The rounds a run dials, in order. */
  function RoundsOf(s: State, es: Events): seq<Round>
    decreases es
  {
    if es.Nil? then [] else RoundOf(s, es.head) + RoundsOf(Step(s, es.head), es.tail)
  }

  /** The first event of a run, and its round, put behind the rounds so far. */
  lemma OneMore(s: State, e: Event, es: Events, before: seq<Round>)
    ensures Run(s, Cons(e, es)) == Run(Step(s, e), es)
    ensures before + RoundsOf(s, Cons(e, es)) == (before + RoundOf(s, e)) + RoundsOf(Step(s, e), es)
  {
  }

  lemma {:induction false} NoRounds(s: State, es: Events)
    requires !s.running
    ensures RoundsOf(s, es) == []
    decreases es
  {
    if es.Cons? {
      NoRounds(s, es.tail);
    }
  }

  /** The wait for the next call is shortened: by losing the registration, or by a change of the list of calls while connected. */
  predicate CutsShort(s: State, e: Event) {
    s.running
    && ((e.Registration? && e.attached != 1 && e.now < s.call.allow)
        || (e.CallListChanged? && (s.call.status4 == 2 || s.call.status6 == 2) && e.now + 1000 < s.call.allow))
  }

  /** No event cuts the wait short before the next round. */
  predicate Uncut(s: State, es: Events)
    decreases es
  {
    es.Nil? || IsRound(s, es.head) || (!CutsShort(s, es.head) && Uncut(Step(s, es.head), es.tail))
  }

  /** No event cuts the wait short between round `k` and the next. */
  predicate UncutAfter(s: State, es: Events, k: nat)
    decreases es
  {
    es.Cons? ==>
      var t := Step(s, es.head);
      if !IsRound(s, es.head) then UncutAfter(t, es.tail, k)
      else if k == 0 then Uncut(t, es.tail)
      else UncutAfter(t, es.tail, k - 1)
  }

  /** The number of failures counted after a round. */
  function FailsAfter(o: Outcome, fails: nat): nat {
    match o
    case Failed => fails + 1
    case Connected => 0
    case Undecided => fails
  }

  /** The number of failures counted before round `k`: of the rounds that failed since the last that connected. */
  function FailsBefore(rs: seq<Round>, k: nat, fails: nat): nat
    requires k <= |rs|
  {
    if k == 0 then fails else FailsBefore(rs[1..], k - 1, FailsAfter(rs[0].outcome, fails))
  }

  lemma RoundStep(s: State, e: Event)
    requires IsRound(s, e)
    ensures Step(s, e).call == Dialled(s.call.(alarm := None), e.env)
    ensures Step(s, e).call.fails == FailsAfter(OutcomeOf(Step(s, e).call), s.call.fails)
  {
  }

  lemma FailedRound(s: State, e: Event)
    requires IsRound(s, e) && Down(Step(s, e).call)
    ensures var c := Step(s, e).call;
      && c.fails == s.call.fails + 1
      && c.allow == e.env.done + 1000 * Delay(s.call.fails)
      && c.alarm == Some(Alarm(e.env.armed + 1000 * Delay(s.call.fails), false))
  {
    RoundStep(s, e);
  }

  /** Between rounds no failure is counted or forgotten, and a wait that is not cut short lasts at least as long. */
  lemma BetweenRounds(s: State, e: Event)
    requires !IsRound(s, e)
    ensures Step(s, e).call.fails == s.call.fails
    ensures Step(s, e).call.allow < s.call.allow <==> CutsShort(s, e)
  {
  }

  lemma {:induction false} FirstRoundWaits(s: State, es: Events)
    requires Uncut(s, es) && RoundsOf(s, es) != []
    ensures RoundsOf(s, es)[0].now >= s.call.allow
    decreases es
  {
    if !IsRound(s, es.head) {
      BetweenRounds(s, es.head);
      FirstRoundWaits(Step(s, es.head), es.tail);
    }
  }

  /** The gap the back-off demands between round `k` and the next, with so many failures before it. */
  predicate Spaced(rs: seq<Round>, k: nat, fails: nat)
    requires k + 1 < |rs|
  {
    rs[k + 1].now >= rs[k].done + 1000 * Delay(fails)
  }

  /**
   Back-off: after a round that failed, the next one starts no sooner than the delay due after its end, unless
   the wait is cut short between the two. It does not matter how the next round, or any other, ends.
   */
  lemma {:induction false} Backoff(s: State, es: Events, k: nat)
    requires k + 1 < |RoundsOf(s, es)| && RoundsOf(s, es)[k].outcome == Failed && UncutAfter(s, es, k)
    ensures Spaced(RoundsOf(s, es), k, FailsBefore(RoundsOf(s, es), k, s.call.fails))
    decreases es
  {
    var t := Step(s, es.head);
    var rest := RoundsOf(t, es.tail);
    if !IsRound(s, es.head) {
      BetweenRounds(s, es.head);
      assert RoundsOf(s, es) == rest;
      Backoff(t, es.tail, k);
    } else {
      assert RoundsOf(s, es)[1..] == rest;
      RoundStep(s, es.head);
      if k == 0 {
        FailedRound(s, es.head);
        FirstRoundWaits(t, es.tail);
      } else {
        Backoff(t, es.tail, k - 1);
      }
    }
  }

  lemma {:induction false} FailsInARow(rs: seq<Round>, k: nat, fails: nat)
    requires k <= |rs| && forall i :: 0 <= i < k ==> rs[i].outcome == Failed
    ensures FailsBefore(rs, k, fails) == fails + k
    decreases k
  {
    if k > 0 {
      FailsInARow(rs[1..], k - 1, fails + 1);
    }
  }

  lemma {:induction false} FailsSince(rs: seq<Round>, j: nat, k: nat, fails: nat)
    requires j < k <= |rs| && rs[j].outcome == Connected
    requires forall i :: j < i < k ==> rs[i].outcome == Failed
    ensures FailsBefore(rs, k, fails) == k - j - 1
    decreases j
  {
    if j == 0 {
      FailsInARow(rs[1..], k - 1, 0);
    } else {
      FailsSince(rs[1..], j - 1, k - 1, FailsAfter(rs[0].outcome, fails));
    }
  }

  /** While the rounds from the first on fail, the gaps are those of the table, from the failures already counted. */
  lemma FirstFailures(s: State, es: Events, k: nat)
    requires k + 1 < |RoundsOf(s, es)| && UncutAfter(s, es, k)
    requires forall i :: 0 <= i <= k ==> RoundsOf(s, es)[i].outcome == Failed
    ensures Spaced(RoundsOf(s, es), k, s.call.fails + k)
  {
    Backoff(s, es, k);
    FailsInARow(RoundsOf(s, es), k, s.call.fails);
  }

  /** After a round that connects, the rounds that fail next have the gaps from the start of the table. */
  lemma SuccessStartsAgain(s: State, es: Events, j: nat, k: nat)
    requires j < k && k + 1 < |RoundsOf(s, es)| && UncutAfter(s, es, k)
    requires RoundsOf(s, es)[j].outcome == Connected
    requires forall i :: j < i <= k ==> RoundsOf(s, es)[i].outcome == Failed
    ensures Spaced(RoundsOf(s, es), k, k - j - 1)
  {
    Backoff(s, es, k);
    FailsSince(RoundsOf(s, es), j, k, s.call.fails);
  }

  /** After a change of the list of calls while connected, the next round starts a second later or more, unless that wait is cut short. */
  lemma ListChangeWaits(s: State, now: nat, es: Events)
    requires s.running && Up(s.call)
    requires Uncut(Step(s, CallListChanged(now)), es) && RoundsOf(Step(s, CallListChanged(now)), es) != []
    ensures RoundsOf(Step(s, CallListChanged(now)), es)[0].now >= now + 1000
  {
    FirstRoundWaits(Step(s, CallListChanged(now)), es);
  }

  /**
   A round in which no call succeeds puts off the next one exactly when an enabled family was known to be
   down before it; a family whose status is unknown does not count.
   */
  lemma UnsuccessfulRound(s: State, e: Event)
    requires IsRound(s, e) && e.env.now <= e.env.done
    requires !Connects4(s.call, e.env.v4) && !Connects6(e.env.v6)
    ensures (forall now: nat :: Admits(Step(s, e).call, now) ==> now >= e.env.done + 5000) <==> Down(s.call)
  {
    RoundStep(s, e);
    if !Down(s.call) {
      assert Admits(Step(s, e).call, e.env.done);
    }
  }

  /**
   A run from the very beginning in which two rounds fail in the same millisecond: the first check learns
   nothing, and turning loopback on asks for a call both times.
   */
  lemma UnknownStatusDoesNotWait(auth: int, now: nat, a: Answers)
    requires a.first < 0
    ensures var s, x := Begin(true, false, true, auth, 0, false, now), Env(now, now, a, a, now, now, None, true, None);
      RoundsOf(s, Cons(Signalled(x), Cons(Loopback(1), Cons(Signalled(x), Cons(Loopback(1), Cons(Signalled(x), Nil))))))
      == [Round(now, now, Undecided), Round(now, now, Undecided)]
  {
    var x := Env(now, now, a, a, now, now, None, true, None);
    var s0 := Begin(true, false, true, auth, 0, false, now);
    var s1 := Step(s0, Signalled(x));
    assert s1.signals == [] && s1.call == s0.call.(status6 := DISCONNECTED);
    var s2 := Step(s1, Loopback(1));
    assert s2.signals == [Start];
    var s3 := Step(s2, Signalled(x));
    assert s3 == s2.(signals := []);
    var s4 := Step(s3, Loopback(1));
    assert s4 == s2 && Step(s4, Signalled(x)) == s3;
    var r, last := Round(now, now, Undecided), Cons(Signalled(x), Nil);
    assert RoundsOf(s4, last) == [r];
    assert RoundsOf(s3, Cons(Loopback(1), last)) == [r];
    assert RoundsOf(s2, Cons(Signalled(x), Cons(Loopback(1), last))) == [r, r];
    assert RoundsOf(s1, Cons(Loopback(1), Cons(Signalled(x), Cons(Loopback(1), last)))) == [r, r];
  }

  /** A wait is cut short in no other way. */
  lemma WaitCutShort(s: State, e: Event)
    requires e.Signalled? ==> e.env.now <= e.env.done
    ensures Step(s, e).call.allow < s.call.allow <==> CutsShort(s, e)
  {
    if IsRound(s, e) {
      RoundStep(s, e);
    } else {
      BetweenRounds(s, e);
    }
  }

  // ---------- retries ----------

  /**
   The alarm set when a call is tried too early goes off when the wait is over, and less than a second later,
   if the wait still lasts when the clock is read again. If it has just ended no alarm is set at all; if it ended
   a second before, the subtraction wraps.
   */
  lemma AlarmIsOnTime(allow: nat, later: nat)
    ensures later < allow ==> allow <= later + 1000 * AlarmSeconds(allow, later) < allow + 1000
    ensures allow <= later <= allow + 999 ==> AlarmSeconds(allow, later) == 0
    ensures allow + 999 < later < allow + 0x1_0000_0000_0000_0000 ==>
      AlarmSeconds(allow, later) == (0x1_0000_0000_0000_0000 + allow + 999 - later) / 1000 % 0x1_0000_0000
  {
  }

  /** The alarm is not due before a call is allowed. */
  predicate AlarmCovers(s: State) {
    s.call.alarm.Some? ==> s.call.allow <= s.call.alarm.value.due
  }

  /** A failed round reads the clock later than it sets the alarm. */
  predicate ArmsEarly(s: State, e: Event) {
    IsRound(s, e) && Down(Step(s, e).call) && e.env.armed < e.env.done
  }

  lemma EarlyCallCovers(c: Call, x: Env)
    requires Registered(c) && x.now < c.allow && c.alarm.None?
    ensures Tried(c, x).alarm.Some? ==> Tried(c, x).allow <= Tried(c, x).alarm.value.due
  {
    AlarmIsOnTime(c.allow, x.later);
  }

  /** The allowed time is moved to after the alarm. */
  predicate Overtakes(s: State, e: Event) {
    s.running && s.call.alarm.Some?
    && ((e.CallListChanged? && (s.call.status4 == 2 || s.call.status6 == 2) && s.call.alarm.value.due < e.now + 1000)
        || (e.Registration? && e.attached != 1 && s.call.alarm.value.due < e.now))
  }

  /** An event leaves an alarm that is early if and only if it sets it so or moves the allowed time behind it. */
  lemma AlarmStep(s: State, e: Event)
    requires AlarmCovers(s)
    ensures AlarmCovers(Step(s, e)) <==> !ArmsEarly(s, e) && !Overtakes(s, e)
  {
    if IsRound(s, e) {
      RoundStep(s, e);
      if Down(Step(s, e).call) {
        FailedRound(s, e);
      }
    } else if s.running && e.Signalled? && s.signals != [] && s.signals[0] == Start && Registered(s.call) {
      EarlyCallCovers(s.call.(alarm := None), e.env);
    }
  }

  predicate CoversThroughout(s: State, es: Events)
    decreases es
  {
    AlarmCovers(s) && (es.Cons? ==> CoversThroughout(Step(s, es.head), es.tail))
  }

  predicate SomeUncovers(s: State, es: Events)
    decreases es
  {
    es.Cons? && (ArmsEarly(s, es.head) || Overtakes(s, es.head) || SomeUncovers(Step(s, es.head), es.tail))
  }

  /** Throughout a run no alarm is early, if and only if none is set so and none is overtaken by the allowed time. */
  lemma {:induction false} AlarmRun(s: State, es: Events)
    requires AlarmCovers(s)
    ensures CoversThroughout(s, es) <==> !SomeUncovers(s, es)
    decreases es
  {
    if es.Cons? {
      AlarmStep(s, es.head);
      if !ArmsEarly(s, es.head) && !Overtakes(s, es.head) {
        AlarmRun(Step(s, es.head), es.tail);
      }
    }
  }

  /** A call is wanted and may be made. */
  predicate CallDue(s: State) {
    && s.running && (s.call.attached == 1 || s.call.loopback != 0)
    && ((s.call.enable4 && s.call.status4 == 1) || (s.call.enable6 && s.call.status6 == 1))
  }

  /** If a call is due, an alarm is set within reach or a signal leads to a call. */
  predicate Retrying(s: State) {
    CallDue(s) ==> (s.call.alarm.Some? && !s.call.alarm.value.overflowed) || Start in s.signals || Check in s.signals
  }

  /** A call is tried too early, but no longer so when the clock is read again, and nothing else leads to one. */
  predicate Lost(s: State, e: Event) {
    && CallDue(s) && e.Signalled? && s.signals != [] && s.signals[0] == Start
    && e.env.now < s.call.allow <= e.env.later
    && Start !in s.signals[1..] && Check !in s.signals[1..]
  }

  lemma PostHolds(signals: seq<Signal>, signal: Signal, due: bool)
    ensures due ==> signal in Post(signals, signal, due)
    ensures forall x :: x in signals ==> x in Post(signals, signal, due)
  {
    if due {
      assert Post(signals, signal, due)[|signals|] == signal;
    }
  }

  lemma TriedIsRetried(c: Call, x: Env)
    requires c.alarm.None? && Down(Tried(c, x)) && Registered(c)
    ensures Tried(c, x).alarm.Some? && !Tried(c, x).alarm.value.overflowed <==> !(x.now < c.allow <= x.later)
    ensures x.now < c.allow ==> Down(c)
  {
    AlarmIsOnTime(c.allow, x.later);
  }

  lemma StartKeepsRetrying(s: State, x: Env)
    requires s.running && s.signals != [] && s.signals[0] == Start
    ensures Retrying(Step(s, Signalled(x))) <==> !Lost(s, Signalled(x))
  {
    var c := s.call.(alarm := None);
    assert Step(s, Signalled(x)) == s.(call := Tried(c, x), signals := s.signals[1..]);
    if Down(Tried(c, x)) && Registered(c) {
      TriedIsRetried(c, x);
    }
    assert Registered(Tried(c, x)) == Registered(c);
    assert x.now < c.allow ==> Down(Tried(c, x)) == Down(c);
  }

  lemma OthersKeepRetrying(s: State, e: Event)
    requires Retrying(s) && !(s.running && e.Signalled? && s.signals != [] && s.signals[0] == Start)
    ensures Retrying(Step(s, e))
  {
    PostHolds(s.signals, Start, true);
    PostHolds(s.signals, Check, true);
    PostHolds(s.signals, Stop, true);
    if s.running && e.Signalled? && s.signals != [] {
      PostHolds(s.signals[1..], Start, true);
    }
  }

  /** An event keeps the loop retrying if and only if the retry is not lost in it. */
  lemma RetryingStep(s: State, e: Event)
    requires Retrying(s)
    ensures Retrying(Step(s, e)) <==> !Lost(s, e)
  {
    if s.running && e.Signalled? && s.signals != [] && s.signals[0] == Start {
      StartKeepsRetrying(s, e.env);
    } else {
      OthersKeepRetrying(s, e);
    }
  }

  predicate RetryingThroughout(s: State, es: Events)
    decreases es
  {
    Retrying(s) && (es.Cons? ==> RetryingThroughout(Step(s, es.head), es.tail))
  }

  predicate SomeLost(s: State, es: Events)
    decreases es
  {
    es.Cons? && (Lost(s, es.head) || SomeLost(Step(s, es.head), es.tail))
  }

  /**
   Throughout a run no retry is forgotten, although every signal cancels the alarm, if and only if none is
   lost between the two readings of the clock.
   */
  lemma {:induction false} RetryingRun(s: State, es: Events)
    requires Retrying(s)
    ensures RetryingThroughout(s, es) <==> !SomeLost(s, es)
    ensures !SomeLost(s, es) ==> Retrying(Run(s, es))
    decreases es
  {
    if es.Cons? {
      RetryingStep(s, es.head);
      if !Lost(s, es.head) {
        RetryingRun(Step(s, es.head), es.tail);
      }
    }
  }

  /**
   A run on the usual path that forgets the retry: a round fails at 0 and the clock is read a millisecond
   after the alarm is set, so the alarm is due at 5000 and the call allowed at 5001. The call is tried at 5000
   and found too early; at 5001 nothing is left to wait for, and no alarm is set.
   */
  lemma RetryForgotten(a: Answers)
    requires a.first < 0
    ensures var s := Begin(true, false, false, 0, 1, false, 0);
      var check := Signalled(Env(0, 0, a, a, 0, 0, Some(DISCONNECTED), true, None));
      var round := Signalled(Env(0, 0, a, a, 0, 1, None, true, None));
      var early := Signalled(Env(5000, 5001, a, a, 5001, 5001, None, true, None));
      var t := Run(s, Cons(check, Cons(round, Cons(AlarmGoesOff(5000), Cons(early, Nil)))));
      CallDue(t) && !Retrying(t) && t.signals == [] && t.call.alarm.None?
  {
    var s := Begin(true, false, false, 0, 1, false, 0);
    var check := Signalled(Env(0, 0, a, a, 0, 0, Some(DISCONNECTED), true, None));
    var round := Signalled(Env(0, 0, a, a, 0, 1, None, true, None));
    var early := Signalled(Env(5000, 5001, a, a, 5001, 5001, None, true, None));
    var s1 := Step(s, check);
    assert s1.signals == [Start] && Down(s1.call) && s1.call.allow == 0 && s1.call.fails == 0;
    var s2 := Step(s1, round);
    assert s2.signals == [] && s2.call.allow == 5001 && s2.call.alarm == Some(Alarm(5000, false));
    var s3 := Step(s2, AlarmGoesOff(5000));
    assert s3.signals == [Start];
    var s4 := Step(s3, early);
    assert s4.signals == [] && s4.call.alarm.None?;
    assert Run(s3, Cons(early, Nil)) == s4;
    assert Run(s2, Cons(AlarmGoesOff(5000), Cons(early, Nil))) == s4;
  }

  /** A retry that has been forgotten is taken up when poll next times out, and its check asks for the call if it is still due. */
  lemma PollAsksAgain(s: State, x: Env)
    requires CallDue(s) && s.signals == []
    ensures var t := Step(s, PollTimesOut);
      && t.signals == [Check] && Retrying(t)
      && (Down(Checked(t.call, x)) ==> Step(t, Signalled(x)).signals == [Start])
  {
    assert Post([], Check, true) == [Check] && Post([], Start, true) == [Start];
  }

  lemma BeginRetries(enable4: bool, enable6: bool, credentials: bool, auth: int, attached: byte, mainLoop: bool, now: nat)
    ensures var s := Begin(enable4, enable6, credentials, auth, attached, mainLoop, now); Retrying(s) && AlarmCovers(s)
  {
  }

  // ---------- authentication ----------

  predicate SwapsAuth(s: State, e: Event) {
    IsRound(s, e) && s.call.enable4 && s.call.status4 != 2 && s.call.credentials && e.env.v4.first > 0 && e.env.v4.second == 0
  }

  /** The rounds of a run in which a second setup, with the other kind of authentication, succeeded. */
  function SwapsOf(s: State, es: Events): nat
    decreases es
  {
    if es.Nil? then 0 else (if SwapsAuth(s, es.head) then 1 else 0) + SwapsOf(Step(s, es.head), es.tail)
  }

  function AuthAfter(auth: int, swaps: nat): int {
    if swaps == 0 then auth else if (swaps % 2 == 1) == (auth == 1) then 2 else 1
  }

  lemma AuthAfterSwap(auth: int, n: nat)
    ensures AuthAfter(Swap(auth), n) == AuthAfter(auth, n + 1)
  {
  }

  lemma AuthStep(s: State, e: Event)
    ensures Step(s, e).call.auth == if SwapsAuth(s, e) then Swap(s.call.auth) else s.call.auth
  {
  }

  /** The configured kind of authentication is kept until a second setup succeeds; after that only how many did matters. */
  lemma {:induction false} AuthRun(s: State, es: Events)
    ensures Run(s, es).call.auth == AuthAfter(s.call.auth, SwapsOf(s, es))
    decreases es
  {
    if es.Cons? {
      var t := Step(s, es.head);
      AuthStep(s, es.head);
      AuthRun(t, es.tail);
      AuthAfterSwap(s.call.auth, SwapsOf(t, es.tail));
    }
  }
}
