/** The status of a client and its keep-alive timer, over any timed run. */
module ClientStatus {
  import opened Bytes

  /** gettimeofday */
  datatype Time = Time(sec: nat, usec: nat)

  function Micros(t: Time): nat {
    t.sec * 1000000 + t.usec
  }

  /** _startTime and _millis; a stopped timer has a start time of 0 seconds. */
  datatype TimerState = TimerState(start: Time, millis: nat)

  const Stopped := TimerState(Time(0, 0), 0)

  /** C++ conversion of a quotient to an integer: towards zero. */
  function Truncate(n: int, d: int): int
    requires d > 0
  {
    if n >= 0 then n / d else -((-n) / d)
  }

  /** The milliseconds that isTimeup computes. */
  function Elapsed(start: Time, now: Time): int {
    (now.sec - start.sec) * 1000 + Truncate(now.usec - start.usec, 1000)
  }

  predicate IsTimeup(t: TimerState, now: Time) {
    t.start.sec != 0 && Elapsed(t.start, now) > t.millis
  }

  datatype Status = Disconnected | Connecting | Active | Asleep | Awake | Lost

  /** What updateStatus looks at in a message. */
  datatype Message =
    | Connect(duration: uint16)
    | Connack
    | PingReq
    | PingResp
    | Publish
    | Subscribe
    | Unsubscribe
    | Disconnect(duration: uint16)
    | Other

  datatype Node = Node(status: Status, keepAliveMsec: uint16, timer: TimerState)

  const NewNode := Node(Disconnected, 0, Stopped)

  /** _keepAliveMsec is 16 bits wide. */
  function KeepAliveMsec(duration: uint16): uint16 {
    (duration * 1000) % 65536
  }

  /** _keepAliveMsec * 1.5, passed as an unsigned integer. */
  function Patience(keepAliveMsec: uint16): nat {
    keepAliveMsec * 3 / 2
  }

  /** setKeepAlive, and the new status. */
  function StartConnecting(n: Node, duration: uint16, now: Time): Node {
    var k := KeepAliveMsec(duration);
    Node(Connecting, k, TimerState(now, Patience(k)))
  }

  function UpdateStatus(n: Node, m: Message, now: Time): Node {
    match n.status
    case Disconnected => if m.Connect? then StartConnecting(n, m.duration, now) else n
    case Lost => if m.Connect? then StartConnecting(n, m.duration, now) else n
    case Connecting => if m.Connack? then n.(status := Active) else n
    case Active =>
      (match m
       case PingReq => n.(timer := TimerState(now, Patience(n.keepAliveMsec)))
       case Publish => n.(timer := TimerState(now, Patience(n.keepAliveMsec)))
       case Subscribe => n.(timer := TimerState(now, Patience(n.keepAliveMsec)))
       case Unsubscribe => n.(timer := TimerState(now, Patience(n.keepAliveMsec)))
       case Disconnect(d) =>
         if d != 0 then n.(status := Asleep, keepAliveMsec := KeepAliveMsec(d)) else n.(status := Disconnected)
       case _ => n)
    case Asleep =>
      if m.Connect? then StartConnecting(n, m.duration, now)
      else if m.PingReq? then n.(status := Awake)
      else n
    case Awake =>
      if m.Connect? then StartConnecting(n, m.duration, now)
      else if m.Disconnect? then n.(status := Disconnected)
      else if m.PingResp? then n.(status := Asleep)
      else n
  }

  function CheckTimeover(n: Node, now: Time): Node {
    if n.status == Active && IsTimeup(n.timer, now) then n.(status := Lost) else n
  }

  // ---------- The code ----------

  class Timer {
    var startTime: Time
    var millis: nat

    ghost function State(): TimerState
      reads this
    {
      TimerState(startTime, millis)
    }

    constructor ()
      ensures State() == Stopped
    {
      startTime, millis := Time(0, 0), 0;
    }

    method Start(msec: nat, now: Time)
      modifies this
      ensures State() == TimerState(now, msec)
    {
      startTime, millis := now, msec;
    }

    method TimeIsUp(now: Time) returns (r: bool)
      ensures r == IsTimeup(State(), now)
    {
      if startTime.sec == 0 {
        return false;
      }
      var secs := (now.sec - startTime.sec) * 1000;
      var usecs := Truncate(now.usec - startTime.usec, 1000);
      return secs + usecs > millis;
    }
  }

  /** The part of ClientNode that updateStatus, setKeepAlive and checkTimeover share. */
  class ClientNode {
    var status: Status
    var keepAliveMsec: uint16
    const keepAliveTimer: Timer

    ghost function State(): Node
      reads this, keepAliveTimer
    {
      Node(status, keepAliveMsec, keepAliveTimer.State())
    }

    constructor ()
      ensures State() == NewNode && fresh(keepAliveTimer)
    {
      status, keepAliveMsec := Disconnected, 0;
      keepAliveTimer := new Timer();
    }

    method SetKeepAlive(duration: uint16, now: Time)
      modifies this, keepAliveTimer
      ensures State() == StartConnecting(old(State()), duration, now).(status := old(status))
    {
      keepAliveMsec := (duration * 1000) % 65536;
      keepAliveTimer.Start(keepAliveMsec * 3 / 2, now);
    }

    method Update(m: Message, now: Time)
      modifies this, keepAliveTimer
      ensures State() == UpdateStatus(old(State()), m, now)
    {
      if (status == Disconnected || status == Lost) && m.Connect? {
        SetKeepAlive(m.duration, now);
        status := Connecting;
      } else if status == Connecting && m.Connack? {
        status := Active;
      } else if status == Active {
        match m {
          case PingReq => keepAliveTimer.Start(keepAliveMsec * 3 / 2, now);
          case Publish => keepAliveTimer.Start(keepAliveMsec * 3 / 2, now);
          case Subscribe => keepAliveTimer.Start(keepAliveMsec * 3 / 2, now);
          case Unsubscribe => keepAliveTimer.Start(keepAliveMsec * 3 / 2, now);
          case Disconnect(d) =>
            if d != 0 {
              status := Asleep;
              keepAliveMsec := (d * 1000) % 65536;
            } else {
              status := Disconnected;
            }
          case _ =>
        }
      } else if status == Asleep {
        if m.Connect? {
          SetKeepAlive(m.duration, now);
          status := Connecting;
        } else if m.PingReq? {
          // getClientId() is a pointer into the message, never NULL
          status := Awake;
        }
      } else if status == Awake {
        match m {
          case Connect(d) =>
            status := Connecting;
            SetKeepAlive(d, now);
          case Disconnect(_) => status := Disconnected;
          case PingResp => status := Asleep;
          case _ =>
        }
      }
    }

    method CheckTimer(now: Time)
      modifies this
      ensures State() == CheckTimeover(old(State()), now)
    {
      if status == Active {
        var up := keepAliveTimer.TimeIsUp(now);
        if up {
          status := Lost;
        }
      }
    }
  }

  // ---------- Timed runs ----------

  /** updateStatus runs for every message queued from the client (Received) or to it (Sent);
      Check is the scan on a timeout event; SocketError is what BrokerRecvTask does. */
  datatype Happening = Received(m: Message) | Sent(m: Message) | Check | SocketError

  datatype Timed = Timed(now: Time, what: Happening)

  function Step(n: Node, e: Timed): Node {
    match e.what
    case Received(m) => UpdateStatus(n, m, e.now)
    case Sent(m) => UpdateStatus(n, m, e.now)
    case Check => CheckTimeover(n, e.now)
    case SocketError => n.(status := Disconnected)
  }

  function Run(es: seq<Timed>): Node {
    if es == [] then NewNode else Step(Run(es[..|es| - 1]), es[|es| - 1])
  }

  /** ClientRecvTask lets in no CONNACK. */
  predicate Plausible(es: seq<Timed>) {
    forall i | 0 <= i < |es| :: es[i].what != Received(Connack)
  }

  predicate IsMessage(e: Timed) {
    e.what.Received? || e.what.Sent?
  }

  /** A CONNECT that enters Connecting. */
  predicate Enters(status: Status, e: Timed) {
    status != Connecting && status != Active && IsMessage(e) && e.what.m.Connect?
  }

  /** A message that restarts the timer. */
  predicate Refreshes(status: Status, e: Timed) {
    status == Active && IsMessage(e)
    && (e.what.m.PingReq? || e.what.m.Publish? || e.what.m.Subscribe? || e.what.m.Unsubscribe?)
  }

  /** From the run alone: when the last entering CONNECT or refreshing message came. */
  function LastRefresh(es: seq<Timed>): Time {
    if es == [] then Time(0, 0)
    else
      var before := es[..|es| - 1];
      var e := es[|es| - 1];
      if Enters(Run(before).status, e) || Refreshes(Run(before).status, e) then e.now else LastRefresh(before)
  }

  /** The duration of the last CONNECT that entered Connecting. */
  function LastDuration(es: seq<Timed>): uint16 {
    if es == [] then 0
    else
      var before := es[..|es| - 1];
      var e := es[|es| - 1];
      if Enters(Run(before).status, e) then e.what.m.duration else LastDuration(before)
  }

  /** A DISCONNECT that puts an Active client to sleep. */
  predicate Sleeps(status: Status, e: Timed) {
    status == Active && IsMessage(e) && e.what.m.Disconnect? && e.what.m.duration != 0
  }

  /** The duration of the last such CONNECT or DISCONNECT. */
  function LastPeriod(es: seq<Timed>): uint16 {
    if es == [] then 0
    else
      var before := es[..|es| - 1];
      var e := es[|es| - 1];
      if Enters(Run(before).status, e) || Sleeps(Run(before).status, e) then e.what.m.duration else LastPeriod(before)
  }

  /** Milliseconds of silence allowed: one and a half times the last 16 bits of 1000 times the
      duration of the CONNECT. */
  function Allowed(es: seq<Timed>): nat {
    (1000 * LastDuration(es)) % 65536 * 3 / 2
  }

  /** In every run the keep-alive time is that of the last CONNECT or sleep, and the timer was
      started by the last CONNECT or refreshing message, with the CONNECT's duration. */
  lemma {:induction false} TimerFollowsTheRun(es: seq<Timed>)
    ensures Run(es).keepAliveMsec == (1000 * LastPeriod(es)) % 65536
    ensures Run(es).timer == TimerState(LastRefresh(es), Allowed(es))
    ensures Run(es).status == Active || Run(es).status == Connecting ==> LastPeriod(es) == LastDuration(es)
  {
    if es != [] {
      var before, e := es[..|es| - 1], es[|es| - 1];
      TimerFollowsTheRun(before);
      TimerStep(Run(before), e);
    }
  }

  lemma TimerStep(n: Node, e: Timed)
    ensures
      var next := Step(n, e);
      && (Enters(n.status, e) || Sleeps(n.status, e) ==> next.keepAliveMsec == (1000 * e.what.m.duration) % 65536)
      && (!Enters(n.status, e) && !Sleeps(n.status, e) ==> next.keepAliveMsec == n.keepAliveMsec)
      && (Enters(n.status, e) || Refreshes(n.status, e) ==> next.timer == TimerState(e.now, next.keepAliveMsec * 3 / 2))
      && (!Enters(n.status, e) && !Refreshes(n.status, e) ==> next.timer == n.timer)
      && (next.status == Active || next.status == Connecting ==>
            Enters(n.status, e) || ((n.status == Active || n.status == Connecting) && !Sleeps(n.status, e)))
  {
  }

  // ---------- Every change of status ----------

  /** Any message of this kind, in either direction. */
  predicate Says(e: Timed, m: Message) {
    e.what == Received(m) || e.what == Sent(m)
  }

  predicate Moves(es: seq<Timed>, e: Timed, to: Status) {
    Run(es).status != to && Run(es + [e]).status == to
  }

  lemma LastStep(es: seq<Timed>, e: Timed)
    ensures Run(es + [e]) == Step(Run(es), e)
  {
    assert (es + [e])[..|es|] == es && (es + [e])[|es|] == e;
  }

  /** Active is entered exactly by a CONNACK sent while Connecting. */
  lemma ActiveOnlyByConnack(es: seq<Timed>, e: Timed)
    requires Plausible(es + [e])
    ensures Moves(es, e, Active) <==> Run(es).status == Connecting && e.what == Sent(Connack)
  {
    LastStep(es, e);
    assert (es + [e])[|es|] == e;
  }

  /** Asleep, by a DISCONNECT with a duration in Active, or by PINGRESP in Awake. */
  lemma AsleepIff(es: seq<Timed>, e: Timed)
    ensures Moves(es, e, Asleep) <==>
      || (Run(es).status == Active && exists d: uint16 :: d != 0 && Says(e, Disconnect(d)))
      || (Run(es).status == Awake && Says(e, PingResp))
  {
    LastStep(es, e);
    if IsMessage(e) && e.what.m.Disconnect? {
      assert Says(e, Disconnect(e.what.m.duration));
    }
  }

  /** Awake, by PINGREQ in Asleep. */
  lemma AwakeIff(es: seq<Timed>, e: Timed)
    ensures Moves(es, e, Awake) <==> Run(es).status == Asleep && Says(e, PingReq)
  {
    LastStep(es, e);
  }

  /** Disconnected, by a DISCONNECT without a duration in Active, any DISCONNECT in Awake, or an
      error of the socket. */
  lemma DisconnectedIff(es: seq<Timed>, e: Timed)
    ensures Moves(es, e, Disconnected) <==>
      || (Run(es).status == Active && Says(e, Disconnect(0)))
      || (Run(es).status == Awake && exists d: uint16 :: Says(e, Disconnect(d)))
      || (Run(es).status != Disconnected && e.what == SocketError)
  {
    LastStep(es, e);
    if IsMessage(e) && e.what.m.Disconnect? {
      assert Says(e, Disconnect(e.what.m.duration));
    }
  }

  /** Connecting, by a CONNECT in any status but Connecting and Active. */
  lemma ConnectingIff(es: seq<Timed>, e: Timed)
    ensures Moves(es, e, Connecting) <==>
      Run(es).status in {Disconnected, Lost, Asleep, Awake} && exists d: uint16 :: Says(e, Connect(d))
  {
    LastStep(es, e);
    if IsMessage(e) && e.what.m.Connect? {
      assert Says(e, Connect(e.what.m.duration));
    }
  }

  /** A client that is Asleep or Awake went to sleep by one DISCONNECT, has been one or the other
      since, and its keep-alive time is the one that DISCONNECT gave. */
  lemma {:induction false} AsleepSince(es: seq<Timed>) returns (j: nat)
    requires Run(es).status in {Asleep, Awake}
    ensures j < |es| && Sleeps(Run(es[..j]).status, es[j])
    ensures forall i | j < i <= |es| :: Run(es[..i]).status in {Asleep, Awake}
    ensures Run(es).keepAliveMsec == (1000 * es[j].what.m.duration) % 65536
  {
    var before, e := es[..|es| - 1], es[|es| - 1];
    assert es[..|es|] == es;
    TimerStep(Run(before), e);
    if Run(before).status in {Asleep, Awake} {
      j := AsleepSince(before);
      forall i | j < i <= |es|
        ensures Run(es[..i]).status in {Asleep, Awake}
      {
        if i < |es| {
          assert before[..i] == es[..i];
        }
      }
      assert before[..j] == es[..j];
    } else {
      j := |es| - 1;
    }
  }

  /** And Connecting goes back to one CONNECT, without interruption. */
  lemma {:induction false} ConnectingSince(es: seq<Timed>) returns (j: nat)
    requires Run(es).status == Connecting
    ensures j < |es| && Enters(Run(es[..j]).status, es[j])
    ensures forall i | j < i <= |es| :: Run(es[..i]).status == Connecting
  {
    var before := es[..|es| - 1];
    if Run(before).status == Connecting {
      j := ConnectingSince(before);
      assert es[..|es|] == es;
      forall i | j < i <= |es|
        ensures Run(es[..i]).status == Connecting
      {
        if i < |es| {
          assert before[..i] == es[..i];
        }
      }
      assert before[..j] == es[..j];
    } else {
      j := |es| - 1;
      assert es[..|es|] == es;
    }
  }

  /** What isTimeup computes from two clocks: the milliseconds between them, rounded down if the
      later one is further into its second, and up if not. */
  lemma ElapsedRounds(start: Time, now: Time)
    ensures
      var us, ms := Micros(now) - Micros(start), Elapsed(start, now);
      if now.usec >= start.usec then 1000 * ms <= us < 1000 * (ms + 1) else 1000 * (ms - 1) < us <= 1000 * ms
  {
    var d := now.usec - start.usec;
    assert Micros(now) - Micros(start) == 1000 * ((now.sec - start.sec) * 1000) + d;
    if d < 0 {
      assert 1000 * ((-d) / 1000) <= -d < 1000 * ((-d) / 1000) + 1000;
    }
  }

  lemma MoreThan(us: int, elapsed: int, ms: nat, down: bool)
    requires if down then 1000 * elapsed <= us < 1000 * (elapsed + 1) else 1000 * (elapsed - 1) < us <= 1000 * elapsed
    ensures elapsed > ms <==> if down then us >= 1000 * (ms + 1) else us > 1000 * ms
  {
  }

  lemma LostStep(n: Node, e: Timed, since: Time, ms: nat)
    requires n.timer == TimerState(since, ms)
    ensures
      var silence := Micros(e.now) - Micros(since);
      n.status != Lost && Step(n, e).status == Lost <==>
        && n.status == Active && e.what == Check && since.sec != 0
        && if e.now.usec >= since.usec then silence >= 1000 * (ms + 1) else silence > 1000 * ms
  {
    ElapsedRounds(since, e.now);
    MoreThan(Micros(e.now) - Micros(since), Elapsed(since, e.now), ms, e.now.usec >= since.usec);
  }

  /** Lost is entered exactly by a check of an Active client whose timer was started at a clock of
      one second or more, if the silence since the CONNECT or the last refreshing message, in either
      direction, is more than what is allowed: by any microsecond if the clock is less far into its
      second than it was then, and by a whole millisecond if not. */
  lemma LostIff(es: seq<Timed>, e: Timed)
    ensures
      var since, ms := LastRefresh(es), Allowed(es);
      var silence := Micros(e.now) - Micros(since);
      Moves(es, e, Lost) <==>
        && Run(es).status == Active && e.what == Check && since.sec != 0
        && if e.now.usec >= since.usec then silence >= 1000 * (ms + 1) else silence > 1000 * ms
  {
    LastStep(es, e);
    TimerFollowsTheRun(es);
    LostStep(Run(es), e, LastRefresh(es), Allowed(es));
  }

  /** So in silence of no more than what is allowed nothing is lost, and a check that comes a
      millisecond later than that finds it. */
  lemma LostOnlyAfterSilence(es: seq<Timed>, e: Timed)
    ensures
      var since, ms := LastRefresh(es), (1000 * LastDuration(es)) % 65536 * 3 / 2;
      var silence := Micros(e.now) - Micros(since);
      && (Moves(es, e, Lost) ==> silence > 1000 * ms)
      && (Run(es).status == Active && e.what == Check && since.sec != 0 && silence >= 1000 * (ms + 1) ==>
            Moves(es, e, Lost))
  {
    LostIff(es, e);
  }

  /** The client gets the full one and a half times its duration exactly up to 65 seconds. */
  lemma FullPatienceIff(es: seq<Timed>, e: Timed, duration: uint16)
    requires Enters(Run(es).status, e) && e.what.m.duration == duration
    ensures Allowed(es + [e]) == 1500 * duration <==> duration <= 65
  {
    assert (es + [e])[..|es|] == es && (es + [e])[|es|] == e;
    if duration > 65 {
      assert (1000 * duration) % 65536 < 65536 <= 1000 * duration;
    }
  }
}
