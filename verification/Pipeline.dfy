/** The five tasks of the gateway as one transition system. A task is between two steps at
    each point where another thread can act; a step is one locked section, one semaphore call,
    or private work of one task. The handlers are a parameter. */
module Pipeline {

  // ---------- Queues ----------

  /** An Event. `Mail` names a client queue; the message itself is in that queue. `paired` is the
      message that was pushed just before the event: a history for the proofs, which no step
      reads. `Announcement` is an EtBroadcast event, which carries its own message. */
  datatype Event<K, M> = Mail(key: K, paired: M) | Announcement(a: M)

  /** An EventQue (que, sem) and the MessageQue of every client it serves. */
  datatype Box<!K, M> = Box(fifo: map<K, seq<M>>, que: seq<Event<K, M>>, sem: nat)
  {
    function Fifo(k: K): seq<M> {
      if k in fifo then fifo[k] else []
    }

    function Push(k: K, m: M): Box<K, M> {
      this.(fifo := fifo[k := Fifo(k) + [m]])
    }

    /** Event::~Event: the client queue is popped unless it is empty. */
    function Delete(ev: Event<K, M>): Box<K, M> {
      if ev.Mail? && Fifo(ev.key) != [] then this.(fifo := fifo[ev.key := Fifo(ev.key)[1..]]) else this
    }

    function Post(ev: Event<K, M>): Box<K, M> {
      this.(que := que + [ev])
    }

    function Signal(): Box<K, M> {
      this.(sem := sem + 1)
    }
  }

  /** The messages a sequence of events stands for, in one client queue. */
  function Msgs<K(==), M>(evs: seq<Event<K, M>>, k: K): seq<M> {
    if evs == [] then []
    else (if evs[0].Mail? && evs[0].key == k then [evs[0].paired] else []) + Msgs(evs[1..], k)
  }

  lemma {:induction false} MsgsAppend<K, M>(a: seq<Event<K, M>>, b: seq<Event<K, M>>, k: K)
    ensures Msgs(a + b, k) == Msgs(a, k) + Msgs(b, k)
  {
    if a == [] {
      assert a + b == b;
    } else {
      assert (a + b)[1..] == a[1..] + b;
      MsgsAppend(a[1..], b, k);
    }
  }

  lemma MsgsSnoc<K, M>(a: seq<Event<K, M>>, ev: Event<K, M>, k: K)
    ensures Msgs(a + [ev], k) == Msgs(a, k) + (if ev.Mail? && ev.key == k then [ev.paired] else [])
  {
    MsgsAppend(a, [ev], k);
    assert [ev][1..] == [];
  }

  // ---------- The handlers, and the sequential machine ----------

  datatype Out<M> = ToBroker(x: M) | ToClient(y: M)

  datatype Reply<+S, M> = Reply(st: S, outs: seq<Out<M>>)

  /** A client's state and what one received message does to it. */
  datatype Machine<!S, !M> = Machine(init: Client -> S, step: (S, M) -> Reply<S, M>)

  /** A message as a handler took it: from the client (up) or from the broker. */
  datatype Entry<M> = Entry(up: bool, m: M)

  datatype Result<S, M> = Result(st: S, toBroker: seq<M>, toClient: seq<M>)

  function BrokerOuts<M>(outs: seq<Out<M>>): seq<M> {
    if outs == [] then []
    else (if outs[0].ToBroker? then [outs[0].x] else []) + BrokerOuts(outs[1..])
  }

  function ClientOuts<M>(outs: seq<Out<M>>): seq<M> {
    if outs == [] then []
    else (if outs[0].ToClient? then [outs[0].y] else []) + ClientOuts(outs[1..])
  }

  /** One client, one thread: the handlers run on the messages one after another. */
  function Sequential<S, M>(h: Machine<S, M>, c: Client, log: seq<Entry<M>>): Result<S, M> {
    if log == [] then Result(h.init(c), [], [])
    else
      var r := Sequential(h, c, log[..|log| - 1]);
      var reply := h.step(r.st, log[|log| - 1].m);
      Result(reply.st, r.toBroker + BrokerOuts(reply.outs), r.toClient + ClientOuts(reply.outs))
  }

  /** The part of a log that came from one side. */
  function Side<M>(log: seq<Entry<M>>, up: bool): seq<M> {
    if log == [] then []
    else Side(log[..|log| - 1], up) + (if log[|log| - 1].up == up then [log[|log| - 1].m] else [])
  }

  // ---------- The tasks ----------

  /** A receiving task: between messages, after the push, after the locked part of post. */
  datatype Receiver<K, M> = Idle | Pushed(ev: Event<K, M>) | Posted

  /** A sending task: before wait, with a token, with an event, with the message handed on. */
  datatype Sender<K, M> = Waiting | Woken | Holding(ev: Event<K, M>) | Sent(ev: Event<K, M>)

  /** A client, by its radio address. */
  type Client = nat

  /** Which side of the gateway queue a client queue is on. */
  datatype Source = Source(client: Client, up: bool)

  /** What the control task still has to send for the event in hand. */
  datatype Task<M> = Upstream(c: Client, x: M) | Downstream(c: Client, y: M) | Announce(a: M)

  datatype Stage<M> =
    | Between
    | PostUp(up: Event<Client, M>)
    | SignalUp
    | PostDown(down: Event<Client, M>)
    | SignalDown

  /** GatewayControlTask: before timedwait, about to lock the queue, with an event, or carrying
      out the replies; `hand` is empty for a timeout event. */
  datatype Control<M> =
    | Ready
    | Locking
    | Reading(ev: Event<Source, M>)
    | Emitting(hand: seq<Event<Source, M>>, todo: seq<Task<M>>, stage: Stage<M>)

  datatype State<S, M> = State(
    gw: Box<Source, M>, bs: Box<Client, M>, cs: Box<Client, M>,
    clientRecv: Receiver<Source, M>, brokerRecv: Receiver<Source, M>,
    ctl: Control<M>,
    brokerSend: Sender<Client, M>, clientSend: Sender<Client, M>,
    nodes: map<Client, S>,
    // histories
    arrived: map<Source, seq<M>>, log: map<Client, seq<Entry<M>>>,
    toBroker: map<Client, seq<M>>, toClient: map<Client, seq<M>>, aired: seq<M>,
    // NULL or an empty front() was met
    fault: bool)

  function Of<K, M>(m: map<K, seq<M>>, k: K): seq<M> {
    if k in m then m[k] else []
  }

  function NodeOf<S, M>(h: Machine<S, M>, s: State<S, M>, c: Client): S {
    if c in s.nodes then s.nodes[c] else h.init(c)
  }

  function Init<S, M>(): State<S, M> {
    State(Box(map[], [], 0), Box(map[], [], 0), Box(map[], [], 0), Idle, Idle, Ready, Waiting, Waiting,
          map[], map[], map[], map[], map[], [], false)
  }

  /** One step of one task; what it does is fixed by where the task stands, up to what arrives
      from outside, the timeout of timedwait, and the announcements made on timers. */
  datatype Step<M> =
    | Arrive(src: Source, m: M)
    | Search(a: M)
    | ClientRecvTask
    | BrokerRecvTask
    | ControlTask(timeout: bool, news: seq<M>)
    | BrokerSendTask
    | ClientSendTask

  function ReceiverStep<M>(b: Box<Source, M>, r: Receiver<Source, M>):
    (Box<Source, M>, Receiver<Source, M>)
  {
    match r
    case Idle => (b, r)
    case Pushed(ev) => (b.Post(ev), Posted)
    case Posted => (b.Signal(), Idle)
  }

  /** `handed` is the client and the message given to the socket or the radio, `aired` the message
      given to the radio for all. */
  datatype Sending<!K, M> =
    Sending(box: Box<K, M>, task: Sender<K, M>, handed: seq<(K, M)>, aired: seq<M>, fault: bool)

  function SenderStep<K, M>(b: Box<K, M>, w: Sender<K, M>, broadcasts: bool): Sending<K, M> {
    match w
    case Waiting =>
      if b.sem == 0 then Sending(b, w, [], [], false) else Sending(b.(sem := b.sem - 1), Woken, [], [], false)
    case Woken =>
      if b.que == [] then Sending(b, w, [], [], true)
      else Sending(b.(que := b.que[1..]), Holding(b.que[0]), [], [], false)
    case Holding(ev) =>
      if ev.Announcement? then Sending(b, Sent(ev), [], [ev.a], !broadcasts)
      else if b.Fifo(ev.key) == [] then Sending(b, Sent(ev), [], [], true)
      else Sending(b, Sent(ev), [(ev.key, b.Fifo(ev.key)[0])], [], false)
    case Sent(ev) =>
      Sending(b.Delete(ev), Waiting, [], [], false)
  }

  function Handed<K, M>(m: map<K, seq<M>>, handed: seq<(K, M)>): map<K, seq<M>> {
    if handed == [] then m else m[handed[0].0 := Of(m, handed[0].0) + [handed[0].1]]
  }

  function Tasks<M>(c: Client, outs: seq<Out<M>>): seq<Task<M>> {
    if outs == [] then []
    else [match outs[0] case ToBroker(x) => Upstream(c, x) case ToClient(y) => Downstream(c, y)] + Tasks(c, outs[1..])
  }

  function Announcements<M>(news: seq<M>): (ts: seq<Task<M>>)
    ensures forall i | 0 <= i < |ts| :: ts[i].Announce?
  {
    if news == [] then [] else [Announce(news[0])] + Announcements(news[1..])
  }

  datatype Emission<M> = Emission(bs: Box<Client, M>, cs: Box<Client, M>, todo: seq<Task<M>>, stage: Stage<M>)

  /** One step of sending the replies: push the message, post its event, signal. */
  function EmitStep<M>(bs: Box<Client, M>, cs: Box<Client, M>, todo: seq<Task<M>>, stage: Stage<M>): Emission<M>
    requires stage.Between? ==> todo != []
  {
    match stage
    case PostUp(ev) => Emission(bs.Post(ev), cs, todo, SignalUp)
    case SignalUp => Emission(bs.Signal(), cs, todo, Between)
    case PostDown(ev) => Emission(bs, cs.Post(ev), todo, SignalDown)
    case SignalDown => Emission(bs, cs.Signal(), todo, Between)
    case Between =>
      match todo[0]
      case Upstream(c, x) => Emission(bs.Push(c, x), cs, todo[1..], PostUp(Mail(c, x)))
      case Downstream(c, y) => Emission(bs, cs.Push(c, y), todo[1..], PostDown(Mail(c, y)))
      case Announce(a) => Emission(bs, cs, todo[1..], PostDown(Announcement(a)))
  }

  function ControlStep<S, M>(
    h: Machine<S, M>, s: State<S, M>, timeout: bool, news: seq<M>): State<S, M>
  {
    match s.ctl
    case Ready =>
      if timeout then s.(ctl := Locking)
      else if s.gw.sem == 0 then s
      else s.(gw := s.gw.(sem := s.gw.sem - 1), ctl := Locking)
    case Locking =>
      if s.gw.que == [] then s.(ctl := Emitting([], Announcements(news), Between))
      else s.(gw := s.gw.(que := s.gw.que[1..]), ctl := Reading(s.gw.que[0]))
    case Reading(ev) =>
      if ev.Announcement? then s.(ctl := Emitting([ev], Announcements(news), Between))
      else if s.gw.Fifo(ev.key) == [] then s.(fault := true)
      else
        var c, m := ev.key.client, s.gw.Fifo(ev.key)[0];
        var reply := h.step(NodeOf(h, s, c), m);
        s.(nodes := s.nodes[c := reply.st],
           log := s.log[c := Of(s.log, c) + [Entry(ev.key.up, m)]],
           ctl := Emitting([ev], Tasks(c, reply.outs), Between))
    case Emitting(hand, todo, stage) =>
      if stage.Between? && todo == [] then
        // delete ev
        if hand == [] then s.(ctl := Ready) else s.(gw := s.gw.Delete(hand[0]), ctl := Ready)
      else
        var e := EmitStep(s.bs, s.cs, todo, stage);
        s.(bs := e.bs, cs := e.cs, ctl := Emitting(hand, e.todo, e.stage))
  }

  function Next<S, M>(
    h: Machine<S, M>, s: State<S, M>, step: Step<M>): State<S, M>
  {
    match step
    case Arrive(src, m) =>
      var s1 := s.(gw := s.gw.Push(src, m), arrived := s.arrived[src := Of(s.arrived, src) + [m]]);
      if src.up then
        if s.clientRecv.Idle? then s1.(clientRecv := Pushed(Mail(src, m))) else s
      else
        if s.brokerRecv.Idle? then s1.(brokerRecv := Pushed(Mail(src, m))) else s
    case Search(a) =>
      if s.clientRecv.Idle? then s.(clientRecv := Pushed(Announcement(a))) else s
    case ClientRecvTask =>
      var (gw, task) := ReceiverStep(s.gw, s.clientRecv);
      s.(gw := gw, clientRecv := task)
    case BrokerRecvTask =>
      var (gw, task) := ReceiverStep(s.gw, s.brokerRecv);
      s.(gw := gw, brokerRecv := task)
    case ControlTask(timeout, news) => ControlStep(h, s, timeout, news)
    case BrokerSendTask =>
      var r := SenderStep(s.bs, s.brokerSend, false);
      s.(bs := r.box, brokerSend := r.task, toBroker := Handed(s.toBroker, r.handed), fault := s.fault || r.fault)
    case ClientSendTask =>
      var r := SenderStep(s.cs, s.clientSend, true);
      s.(cs := r.box, clientSend := r.task, toClient := Handed(s.toClient, r.handed), aired := s.aired + r.aired,
          fault := s.fault || r.fault)
  }

  /** Any interleaving; a step whose task is blocked or busy changes nothing. */
  function Exec<S, M>(h: Machine<S, M>, steps: seq<Step<M>>): State<S, M> {
    if steps == [] then Init()
    else Next(h, Exec(h, steps[..|steps| - 1]), steps[|steps| - 1])
  }
}
