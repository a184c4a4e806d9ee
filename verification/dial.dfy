/**
 The dialling loop as a state machine over values: what each signal and each report from the modem does
 to the call, the wait before the next one, and the network interface's address client. Times are in
 milliseconds.
 */
module Dial {
  import opened Prelude

  const DISCONNECTED: byte := 1
  const CONNECTED: byte := 2
  const UNKNOWN: byte := 0xff

  /** The ranges of `unsigned long` and `unsigned int`. */
  const ULONG := 0x1_0000_0000_0000_0000
  const UINT := 0x1_0000_0000

  /** The signals the loop sends to itself through a pipe, read in order. */
  datatype Signal = Start | Check | Stop

  /** An alarm: when it is due, and whether its seconds came of a subtraction that went below zero. */
  datatype Alarm = Alarm(due: nat, overflowed: bool)

  /** The calls: what is wanted, what is known, and when the next one is allowed. */
  datatype Call = Call(
    enable4: bool,
    enable6: bool,
    credentials: bool,
    auth: int,
    status4: byte,
    status6: byte,
    attached: byte,
    loopback: nat,
    fails: nat,
    allow: nat,
    alarm: Option<Alarm>)

  /** The address client: its starts (true) and stops (false), and the link, which is -1 before the first change. */
  datatype Client = Client(link: int, actions: seq<bool>)

  /** `mainLoop` is the option to survive a lost device. */
  datatype State = State(call: Call, client: Client, signals: seq<Signal>, mainLoop: bool, running: bool)

  /** What the modem answers to a setup, to a second setup with the other kind of authentication, and to the address query. */
  datatype Answers = Answers(first: int, second: int, address: int)

  /**
   What the clock shows and the modem answers while one signal is handled. A call that comes too early reads
   the clock twice, `now` and `later`; after a failed round the alarm is set at `armed`, and then the clock
   read, which shows `done`.
   */
  datatype Env = Env(
    now: nat,
    later: nat,
    v4: Answers,
    v6: Answers,
    armed: nat,
    done: nat,
    query4: Option<byte>,
    sameAddress: bool,
    query6: Option<byte>)

  /** A restart reads the registration anew; an alarm that went off while the pipes were closed is lost. */
  datatype Event =
    | Signalled(env: Env)
    | AlarmGoesOff(now: nat)
    | PollTimesOut
    | PollFails
    | Interrupt
    | Registration(attached: byte, now: nat)
    | CallListChanged(now: nat)
    | Loopback(loopback: nat)
    | ModemReset(attached: byte, missed: bool, gone: bool)
    | Disconnected(attached: byte, missed: bool)

  datatype Events = Nil | Cons(head: Event, tail: Events)

  /** The state in which the loop is entered: nothing known, and a check of the call due. */
  function Begin(enable4: bool, enable6: bool, credentials: bool, auth: int, attached: byte, mainLoop: bool, now: nat): State {
    State(Call(enable4, enable6, credentials, auth, UNKNOWN, UNKNOWN, attached, 0, 0, now, None),
          Client(-1, []), [Check], mainLoop, true)
  }

  // ---------- calls ----------

  /** Seconds to wait after a failed round, by the number of failures before it. */
  function Delay(fails: nat): nat {
    match fails
    case 0 => 5
    case 1 => 10
    case 2 => 20
    case 3 => 40
    case _ => 60
  }

  predicate Registered(c: Call) {
    c.attached == 1 || c.loopback != 0
  }

  /** A signal to try a call is acted on. */
  predicate Admits(c: Call, now: nat) {
    Registered(c) && c.allow <= now
  }

  predicate Retries(c: Call, v4: Answers) {
    v4.first > 0 && c.credentials
  }

  predicate Connects4(c: Call, v4: Answers) {
    (if Retries(c, v4) then v4.second == 0 else v4.first == 0) && v4.address == 0
  }

  predicate Connects6(v6: Answers) {
    v6.first == 0 && v6.address == 0
  }

  /** The other kind of authentication. */
  function Swap(auth: int): int {
    if auth == 1 then 2 else 1
  }

  predicate Swaps4(c: Call, v4: Answers) {
    c.enable4 && c.status4 != CONNECTED && Retries(c, v4) && v4.second == 0
  }

  function Try4(c: Call, v4: Answers): Call {
    c.(auth := if Swaps4(c, v4) then Swap(c.auth) else c.auth,
       status4 := if c.enable4 && c.status4 != CONNECTED && Connects4(c, v4) then CONNECTED else c.status4)
  }

  function Try6(c: Call, v6: Answers): Call {
    c.(status6 := if c.enable6 && c.status6 != CONNECTED && Connects6(v6) then CONNECTED else c.status6)
  }

  /** An enabled family is known to be down. */
  predicate Down(c: Call) {
    (c.enable4 && c.status4 == DISCONNECTED) || (c.enable6 && c.status6 == DISCONNECTED)
  }

  predicate Up(c: Call) {
    c.status4 == CONNECTED || c.status6 == CONNECTED
  }

  function Settle(c: Call, armed: nat, done: nat): Call {
    if Down(c) then
      c.(allow := Delay(c.fails) * 1000 + done,
         fails := c.fails + 1,
         alarm := AlarmAfter(armed, Delay(c.fails), false))
    else if Up(c) then c.(fails := 0, allow := done)
    else c
  }

  /** An alarm for no seconds is none. */
  function AlarmAfter(at: nat, seconds: nat, overflowed: bool): Option<Alarm> {
    if seconds == 0 then None else Some(Alarm(at + 1000 * seconds, overflowed))
  }

  predicate Overflows(allow: nat, later: nat) {
    later > allow + 999
  }

  /** The seconds of the alarm set when a call is tried too early; the subtraction is unsigned. */
  function AlarmSeconds(allow: nat, later: nat): nat {
    if Overflows(allow, later) then (allow - later + 999) % ULONG / 1000 % UINT else (allow - later + 999) / 1000
  }

  function Dialled(c: Call, x: Env): Call {
    Settle(Try6(Try4(c, x.v4), x.v6), x.armed, x.done)
  }

  function Tried(c: Call, x: Env): Call {
    if !Registered(c) then c
    else if x.now < c.allow then
      c.(alarm := AlarmAfter(x.later, AlarmSeconds(c.allow, x.later), Overflows(c.allow, x.later)))
    else Dialled(c, x)
  }

  // ---------- checks ----------

  function LinkChange(c: Client, link: int): Client {
    if c.link == link then c else Client(link, c.actions + [link != 0])
  }

  function Checked(c: Call, x: Env): Call {
    var q4 := if !c.enable4 then DISCONNECTED else if x.query4.Some? then x.query4.value else c.status4;
    var st4 := if c.enable4 && q4 == CONNECTED && !x.sameAddress then DISCONNECTED else q4;
    var st6 := if !c.enable6 then DISCONNECTED else if x.query6.Some? then x.query6.value else c.status6;
    c.(status4 := st4, status6 := st6)
  }

  function Relinked(client: Client, c: Call): Client {
    if c.status4 == DISCONNECTED && c.status6 == DISCONNECTED then LinkChange(client, 0)
    else if Up(c) then LinkChange(client, 1)
    else client
  }

  // ---------- steps ----------

  /** The signals after one more has been sent, if it is due. */
  function Post(signals: seq<Signal>, signal: Signal, due: bool): seq<Signal> {
    if due then signals + [signal] else signals
  }

  /** One signal is read, which cancels the alarm, and acted on. */
  function Handled(s: State, x: Env): State
    requires s.signals != []
  {
    var c, rest := s.call.(alarm := None), s.signals[1..];
    match s.signals[0]
    case Start => s.(call := Tried(c, x), signals := rest)
    case Check =>
      var k := Checked(c, x);
      s.(call := k, client := Relinked(s.client, k), signals := Post(rest, Start, Down(k)))
    case Stop => s.(call := c, client := LinkChange(s.client, 0), signals := rest, running := false)
  }

  /** New pipes, and a check of the call. */
  function Restarted(s: State, attached: byte, missed: bool): State {
    s.(call := s.call.(attached := attached, loopback := 0, alarm := if missed then None else s.call.alarm),
       signals := [Check])
  }

  function Step(s: State, e: Event): State {
    if !s.running then s
    else
      match e
      case Signalled(x) => if s.signals == [] then s else Handled(s, x)
      case AlarmGoesOff(now) =>
        if s.call.alarm.Some? && s.call.alarm.value.due <= now then
          s.(call := s.call.(alarm := None), signals := Post(s.signals, Start, true))
        else s
      case PollFails => s.(client := LinkChange(s.client, 0), running := false)
      case PollTimesOut => s.(signals := Post(s.signals, Check, s.signals == []))
      case Interrupt => s.(mainLoop := false, signals := Post(s.signals, Stop, true))
      case Registration(attached, now) =>
        s.(call := s.call.(attached := attached, allow := if attached == 1 then s.call.allow else now),
           signals := Post(s.signals, Start, attached == 1 && Down(s.call)))
      case CallListChanged(now) =>
        s.(call := s.call.(allow := if Up(s.call) then now + 1000 else s.call.allow), signals := Post(s.signals, Check, true))
      case Loopback(loopback) =>
        s.(call := s.call.(loopback := loopback), signals := Post(s.signals, Start, loopback != 0))
      case ModemReset(attached, missed, gone) =>
        var t := s.(client := s.client.(link := 0));
        if gone then t.(running := false) else Restarted(t, attached, missed)
      case Disconnected(attached, missed) =>
        var t := s.(client := LinkChange(s.client, 0));
        if s.mainLoop then Restarted(t, attached, missed) else t.(running := false)
  }

  function Run(s: State, es: Events): State
    decreases es
  {
    if es.Nil? then s else Run(Step(s, es.head), es.tail)
  }

  /** Once the loop has been left nothing changes. */
  lemma {:induction false} StoppedRun(s: State, es: Events)
    requires !s.running
    ensures Run(s, es) == s
    decreases es
  {
    if es.Cons? {
      StoppedRun(s, es.tail);
    }
  }
}
