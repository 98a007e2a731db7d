/** Under every interleaving of the five tasks, each client sees the sequential machine. */
module PipelineProof {
  import opened Pipeline

  // ---------- What is in a task's hands ----------

  function HandOf<K, M>(w: Sender<K, M>): seq<Event<K, M>> {
    match w
    case Waiting => []
    case Woken => []
    case Holding(ev) => [ev]
    case Sent(ev) => [ev]
  }

  /** The event whose message has not been handed on yet. */
  function UnsentOf<K, M>(w: Sender<K, M>): seq<Event<K, M>> {
    if w.Holding? then [w.ev] else []
  }

  function PendingOf<K, M>(r: Receiver<K, M>): seq<Event<K, M>> {
    if r.Pushed? then [r.ev] else []
  }

  function ControlHand<M>(ctl: Control<M>): seq<Event<Source, M>> {
    match ctl
    case Ready => []
    case Locking => []
    case Reading(ev) => [ev]
    case Emitting(hand, _, _) => hand
  }

  function Unhandled<M>(ctl: Control<M>): seq<Event<Source, M>> {
    if ctl.Reading? then [ctl.ev] else []
  }

  function PostingUp<M>(stage: Stage<M>): seq<Event<Client, M>> {
    if stage.PostUp? then [stage.up] else []
  }

  function PostingDown<M>(stage: Stage<M>): seq<Event<Client, M>> {
    if stage.PostDown? then [stage.down] else []
  }

  function StageOf<M>(ctl: Control<M>): Stage<M> {
    if ctl.Emitting? then ctl.stage else Between
  }

  function PendingUp<M>(ctl: Control<M>): seq<Event<Client, M>> {
    PostingUp(StageOf(ctl))
  }

  function PendingDown<M>(ctl: Control<M>): seq<Event<Client, M>> {
    PostingDown(StageOf(ctl))
  }

  function UpTodo<M>(todo: seq<Task<M>>, c: Client): seq<M> {
    if todo == [] then []
    else (if todo[0].Upstream? && todo[0].c == c then [todo[0].x] else []) + UpTodo(todo[1..], c)
  }

  function DownTodo<M>(todo: seq<Task<M>>, c: Client): seq<M> {
    if todo == [] then []
    else (if todo[0].Downstream? && todo[0].c == c then [todo[0].y] else []) + DownTodo(todo[1..], c)
  }

  function Todo<M>(ctl: Control<M>): seq<Task<M>> {
    if ctl.Emitting? then ctl.todo else []
  }

  lemma {:induction false} TodoOfTasks<M>(c: Client, outs: seq<Out<M>>, d: Client)
    ensures UpTodo(Tasks(c, outs), d) == if c == d then BrokerOuts(outs) else []
    ensures DownTodo(Tasks(c, outs), d) == if c == d then ClientOuts(outs) else []
  {
    if outs != [] {
      TodoOfTasks(c, outs[1..], d);
      assert Tasks(c, outs)[1..] == Tasks(c, outs[1..]);
    }
  }

  lemma {:induction false} TodoOfAnnouncements<M>(news: seq<M>, d: Client)
    ensures UpTodo<M>(Announcements(news), d) == [] && DownTodo<M>(Announcements(news), d) == []
  {
    if news != [] {
      TodoOfAnnouncements(news[1..], d);
      assert Announcements(news)[1..] == Announcements(news[1..]);
    }
  }

  // ---------- Messages of a sequence of events ----------

  lemma MsgsCons<K, M>(ev: Event<K, M>, evs: seq<Event<K, M>>, k: K)
    ensures Msgs([ev] + evs, k) == (if ev.Mail? && ev.key == k then [ev.paired] else []) + Msgs(evs, k)
  {
    assert ([ev] + evs)[1..] == evs;
  }

  /** Events of other clients do not show. */
  lemma MsgsSkip<K, M>(a: seq<Event<K, M>>, ev: Event<K, M>, b: seq<Event<K, M>>, k: K)
    requires !(ev.Mail? && ev.key == k)
    ensures Msgs(a + ([ev] + b), k) == Msgs(a + b, k)
  {
    MsgsCons(ev, b, k);
    MsgsAppend(a, [ev] + b, k);
    MsgsAppend(a, b, k);
  }

  // ---------- One outgoing queue ----------

  /** The client queue k holds exactly the messages of the events in hand, queued and about to be
      posted, in that order; and all that is due to go out is what has been handed on, then those
      (less the one already handed on), then what is still to be pushed. */
  ghost predicate Outgoing<K, M>(
    fifo: seq<M>, w: Sender<K, M>, line: seq<Event<K, M>>, k: K, handed: seq<M>, todo: seq<M>, total: seq<M>)
  {
    && fifo == Msgs(HandOf(w) + line, k)
    && total == handed + (Msgs(UnsentOf(w) + line, k) + todo)
  }

  /** The semaphore of a queue that is only waited on: `signal` is 1 while the poster is between
      the locked section and sem_post. */
  predicate Counted<K, M>(b: Box<K, M>, w: Sender<K, M>, signal: nat) {
    |b.que| == b.sem + (if w.Woken? then 1 else 0) + signal
  }

  function HandedTo<K(==), M>(handed: seq<(K, M)>, k: K): seq<M> {
    if handed != [] && handed[0].0 == k then [handed[0].1] else []
  }

  lemma FrontOf<K, M>(
    fifo: seq<M>, w: Sender<K, M>, line: seq<Event<K, M>>, handed: seq<M>, todo: seq<M>, total: seq<M>)
    requires (w.Holding? || w.Sent?) && w.ev.Mail?
    requires Outgoing(fifo, w, line, w.ev.key, handed, todo, total)
    ensures fifo != [] && fifo[0] == w.ev.paired
  {
    MsgsCons(w.ev, line, w.ev.key);
  }

  lemma PopKeeps<K, M>(
    que: seq<Event<K, M>>, pend: seq<Event<K, M>>, k: K, fifo: seq<M>, handed: seq<M>, todo: seq<M>, total: seq<M>)
    requires que != [] && Outgoing(fifo, Woken, que + pend, k, handed, todo, total)
    ensures Outgoing(fifo, Holding(que[0]), que[1..] + pend, k, handed, todo, total)
  {
    assert [] + (que + pend) == [que[0]] + (que[1..] + pend);
  }

  lemma HandOnKeeps<K, M>(
    ev: Event<K, M>, line: seq<Event<K, M>>, k: K, fifo: seq<M>, handed: seq<M>, todo: seq<M>, total: seq<M>)
    requires Outgoing(fifo, Holding(ev), line, k, handed, todo, total)
    ensures Outgoing(fifo, Sent(ev), line, k, handed + (if ev.Mail? && ev.key == k then [ev.paired] else []), todo, total)
  {
    MsgsCons(ev, line, k);
    assert [] + line == line;
    var one := if ev.Mail? && ev.key == k then [ev.paired] else [];
    RegroupFour(handed, one, Msgs(line, k), todo);
  }

  lemma RegroupFour<M>(a: seq<M>, b: seq<M>, c: seq<M>, d: seq<M>)
    ensures a + ((b + c) + d) == (a + b) + (c + d)
  {
  }

  lemma DeleteKeeps<K, M>(
    b: Box<K, M>, ev: Event<K, M>, line: seq<Event<K, M>>, k: K, handed: seq<M>, todo: seq<M>, total: seq<M>)
    requires Outgoing(b.Fifo(k), Sent(ev), line, k, handed, todo, total)
    ensures Outgoing(b.Delete(ev).Fifo(k), Waiting, line, k, handed, todo, total)
  {
    MsgsCons(ev, line, k);
    assert [] + line == line;
  }

  /** One step of a sending task, seen from one client. */
  lemma SenderKeeps<K, M>(
    b: Box<K, M>, w: Sender<K, M>, broadcasts: bool, pend: seq<Event<K, M>>, k: K,
    handed: seq<M>, todo: seq<M>, total: seq<M>, signal: nat)
    requires Outgoing(b.Fifo(k), w, b.que + pend, k, handed, todo, total)
    requires Counted(b, w, signal)
    requires w.Holding? && w.ev.Mail? ==> b.Fifo(w.ev.key) != [] && b.Fifo(w.ev.key)[0] == w.ev.paired
    ensures
      var r := SenderStep(b, w, broadcasts);
      Outgoing(r.box.Fifo(k), r.task, r.box.que + pend, k, handed + HandedTo(r.handed, k), todo, total)
  {
    var r := SenderStep(b, w, broadcasts);
    match w
    case Waiting =>
      assert handed + HandedTo(r.handed, k) == handed;
    case Woken =>
      assert b.que != [];
      PopKeeps(b.que, pend, k, b.Fifo(k), handed, todo, total);
      assert handed + HandedTo(r.handed, k) == handed;
    case Holding(ev) =>
      HandOnKeeps(ev, b.que + pend, k, b.Fifo(k), handed, todo, total);
    case Sent(ev) =>
      DeleteKeeps(b, ev, b.que + pend, k, handed, todo, total);
      assert handed + HandedTo(r.handed, k) == handed;
  }

  lemma SenderFaultless<K, M>(b: Box<K, M>, w: Sender<K, M>, broadcasts: bool, signal: nat)
    requires Counted(b, w, signal)
    requires w.Holding? && w.ev.Mail? ==> b.Fifo(w.ev.key) != []
    requires w.Holding? && w.ev.Announcement? ==> broadcasts
    ensures !SenderStep(b, w, broadcasts).fault
    ensures Counted(SenderStep(b, w, broadcasts).box, SenderStep(b, w, broadcasts).task, signal)
  {
  }

  lemma Regroup<M>(a: seq<M>, b: seq<M>, c: seq<M>)
    ensures (a + b) + c == a + (b + c)
  {
  }

  lemma MsgsLonger<K, M>(hand: seq<Event<K, M>>, que: seq<Event<K, M>>, ev: Event<K, M>, k: K)
    ensures Msgs(hand + (que + [ev]), k) == Msgs(hand + que, k) + (if ev.Mail? && ev.key == k then [ev.paired] else [])
  {
    Regroup(hand, que, [ev]);
    MsgsSnoc(hand + que, ev, k);
  }

  lemma PushKeeps<K, M>(
    fifo: seq<M>, w: Sender<K, M>, que: seq<Event<K, M>>, ev: Event<K, M>, k: K, one: seq<M>,
    handed: seq<M>, todo: seq<M>, total: seq<M>)
    requires Outgoing(fifo, w, que, k, handed, one + todo, total)
    requires one == if ev.Mail? && ev.key == k then [ev.paired] else []
    ensures Outgoing(fifo + one, w, que + [ev], k, handed, todo, total)
  {
    MsgsLonger(HandOf(w), que, ev, k);
    MsgsLonger(UnsentOf(w), que, ev, k);
    Regroup(Msgs(UnsentOf(w) + que, k), one, todo);
  }

  lemma PushBoxKeeps<K, M>(
    b: Box<K, M>, w: Sender<K, M>, k0: K, m: M, k: K, handed: seq<M>, todo: seq<M>, total: seq<M>)
    requires Outgoing(b.Fifo(k), w, b.que + [], k, handed, (if k == k0 then [m] else []) + todo, total)
    ensures Outgoing(b.Push(k0, m).Fifo(k), w, b.que + [Mail(k0, m)], k, handed, todo, total)
  {
    var one := if k == k0 then [m] else [];
    assert b.que + [] == b.que && b.Fifo(k) + [] == b.Fifo(k);
    PushKeeps(b.Fifo(k), w, b.que, Mail(k0, m), k, one, handed, todo, total);
  }

  lemma AnnounceBoxKeeps<K, M>(
    b: Box<K, M>, w: Sender<K, M>, a: M, k: K, handed: seq<M>, todo: seq<M>, total: seq<M>)
    requires Outgoing(b.Fifo(k), w, b.que + [], k, handed, todo, total)
    ensures Outgoing(b.Fifo(k), w, b.que + [Announcement(a)], k, handed, todo, total)
  {
    assert b.que + [] == b.que && b.Fifo(k) + [] == b.Fifo(k) && [] + todo == todo;
    PushKeeps(b.Fifo(k), w, b.que, Announcement(a), k, [], handed, todo, total);
  }

  lemma PostBoxKeeps<K, M>(
    b: Box<K, M>, w: Sender<K, M>, ev: Event<K, M>, k: K, handed: seq<M>, todo: seq<M>, total: seq<M>)
    requires Outgoing(b.Fifo(k), w, b.que + [ev], k, handed, todo, total)
    ensures Outgoing(b.Post(ev).Fifo(k), w, b.Post(ev).que + [], k, handed, todo, total)
  {
    assert (b.que + [ev]) + [] == b.que + [ev];
  }

  /** One step of sending the replies, seen from one client. */
  lemma EmitUpKeeps<M>(
    bs: Box<Client, M>, cs: Box<Client, M>, todo: seq<Task<M>>, stage: Stage<M>,
    w: Sender<Client, M>, c: Client, handed: seq<M>, total: seq<M>)
    requires stage.Between? ==> todo != []
    requires Outgoing(bs.Fifo(c), w, bs.que + PostingUp(stage), c, handed, UpTodo(todo, c), total)
    ensures
      var e := EmitStep(bs, cs, todo, stage);
      Outgoing(e.bs.Fifo(c), w, e.bs.que + PostingUp(e.stage), c, handed, UpTodo(e.todo, c), total)
  {
    match stage
    case PostUp(ev) => PostBoxKeeps(bs, w, ev, c, handed, UpTodo(todo, c), total);
    case SignalUp =>
    case PostDown(_) =>
    case SignalDown =>
    case Between =>
      if todo[0].Upstream? {
        PushBoxKeeps(bs, w, todo[0].c, todo[0].x, c, handed, UpTodo(todo[1..], c), total);
      } else {
        assert UpTodo(todo, c) == UpTodo(todo[1..], c);
      }
  }

  lemma EmitDownKeeps<M>(
    bs: Box<Client, M>, cs: Box<Client, M>, todo: seq<Task<M>>, stage: Stage<M>,
    w: Sender<Client, M>, c: Client, handed: seq<M>, total: seq<M>)
    requires stage.Between? ==> todo != []
    requires Outgoing(cs.Fifo(c), w, cs.que + PostingDown(stage), c, handed, DownTodo(todo, c), total)
    ensures
      var e := EmitStep(bs, cs, todo, stage);
      Outgoing(e.cs.Fifo(c), w, e.cs.que + PostingDown(e.stage), c, handed, DownTodo(e.todo, c), total)
  {
    match stage
    case PostDown(ev) => PostBoxKeeps(cs, w, ev, c, handed, DownTodo(todo, c), total);
    case SignalDown =>
    case PostUp(_) =>
    case SignalUp =>
    case Between =>
      match todo[0]
      case Downstream(c0, y) => PushBoxKeeps(cs, w, c0, y, c, handed, DownTodo(todo[1..], c), total);
      case Announce(a) =>
        assert DownTodo(todo, c) == DownTodo(todo[1..], c);
        AnnounceBoxKeeps(cs, w, a, c, handed, DownTodo(todo[1..], c), total);
      case Upstream(_, _) =>
        assert DownTodo(todo, c) == DownTodo(todo[1..], c);
  }

  // ---------- The gateway queue ----------

  /** What a client's queue towards the control task holds, and what has been taken from it. */
  ghost predicate Incoming<M>(
    fifo: seq<M>, hand: seq<Event<Source, M>>, fresh_: seq<Event<Source, M>>, line: seq<Event<Source, M>>,
    k: Source, taken: seq<M>, arrived: seq<M>)
  {
    && fifo == Msgs(hand + line, k)
    && arrived == taken + Msgs(fresh_ + line, k)
  }

  lemma ArriveKeeps<M>(
    fifo: seq<M>, hand: seq<Event<Source, M>>, fresh_: seq<Event<Source, M>>, line: seq<Event<Source, M>>,
    k: Source, taken: seq<M>, arrived: seq<M>, ev: Event<Source, M>)
    requires Incoming(fifo, hand, fresh_, line, k, taken, arrived)
    ensures
      var one := if ev.Mail? && ev.key == k then [ev.paired] else [];
      Incoming(fifo + one, hand, fresh_, line + [ev], k, taken, arrived + one)
  {
    assert hand + (line + [ev]) == (hand + line) + [ev];
    assert fresh_ + (line + [ev]) == (fresh_ + line) + [ev];
    MsgsSnoc(hand + line, ev, k);
    MsgsSnoc(fresh_ + line, ev, k);
  }

  /** The event of the other receiving task is posted in front of one that is still pending. */
  lemma OvertakeKeeps<M>(
    fifo: seq<M>, hand: seq<Event<Source, M>>, fresh_: seq<Event<Source, M>>, que: seq<Event<Source, M>>,
    pend: seq<Event<Source, M>>, k: Source, taken: seq<M>, arrived: seq<M>, ev: Event<Source, M>)
    requires Incoming(fifo, hand, fresh_, que + pend, k, taken, arrived)
    requires !(ev.Mail? && ev.key == k)
    ensures Incoming(fifo, hand, fresh_, (que + [ev]) + pend, k, taken, arrived)
  {
    assert hand + ((que + [ev]) + pend) == (hand + que) + ([ev] + pend);
    assert fresh_ + ((que + [ev]) + pend) == (fresh_ + que) + ([ev] + pend);
    assert hand + (que + pend) == (hand + que) + pend;
    assert fresh_ + (que + pend) == (fresh_ + que) + pend;
    MsgsSkip(hand + que, ev, pend, k);
    MsgsSkip(fresh_ + que, ev, pend, k);
  }

  lemma DeleteIncoming<M>(
    b: Box<Source, M>, ev: Event<Source, M>, line: seq<Event<Source, M>>, k: Source, taken: seq<M>, arrived: seq<M>)
    requires Incoming(b.Fifo(k), [ev], [], line, k, taken, arrived)
    ensures Incoming(b.Delete(ev).Fifo(k), [], [], line, k, taken, arrived)
  {
    MsgsCons(ev, line, k);
    assert [] + line == line;
  }

  /** The handler has taken the message of the event in hand; it is still in the queue. */
  lemma HandleIncoming<M>(
    fifo: seq<M>, ev: Event<Source, M>, line: seq<Event<Source, M>>, k: Source, taken: seq<M>, arrived: seq<M>)
    requires Incoming(fifo, [ev], [ev], line, k, taken, arrived)
    ensures Incoming(fifo, [ev], [], line, k, taken + (if ev.Mail? && ev.key == k then [ev.paired] else []), arrived)
  {
    MsgsCons(ev, line, k);
    assert [] + line == line;
    var one := if ev.Mail? && ev.key == k then [ev.paired] else [];
    assert taken + (one + Msgs(line, k)) == (taken + one) + Msgs(line, k);
  }

  lemma TakeIncoming<M>(
    fifo: seq<M>, que: seq<Event<Source, M>>, pend: seq<Event<Source, M>>, k: Source, taken: seq<M>, arrived: seq<M>)
    requires que != [] && Incoming(fifo, [], [], que + pend, k, taken, arrived)
    ensures Incoming(fifo, [que[0]], [que[0]], que[1..] + pend, k, taken, arrived)
  {
    assert [] + (que + pend) == [que[0]] + (que[1..] + pend);
  }

  /** One step of a receiving task, seen from one client queue. */
  lemma ReceiverKeeps<M>(
    b: Box<Source, M>, r: Receiver<Source, M>, other: Receiver<Source, M>, mine: bool,
    hand: seq<Event<Source, M>>, fresh_: seq<Event<Source, M>>, k: Source, taken: seq<M>, arrived: seq<M>)
    requires !mine && r.Pushed? ==> !(r.ev.Mail? && r.ev.key == k)
    requires Incoming(b.Fifo(k), hand, fresh_, b.que + PendingOf(if mine then r else other), k, taken, arrived)
    ensures
      var (b', r') := ReceiverStep(b, r);
      Incoming(b'.Fifo(k), hand, fresh_, b'.que + PendingOf(if mine then r' else other), k, taken, arrived)
  {
    if r.Pushed? {
      if mine {
        assert (b.que + [r.ev]) + [] == b.que + [r.ev];
      } else {
        OvertakeKeeps(b.Fifo(k), hand, fresh_, b.que, PendingOf(other), k, taken, arrived, r.ev);
      }
    }
  }

  // ---------- The whole gateway ----------

  function Pending<S, M>(s: State<S, M>, up: bool): seq<Event<Source, M>> {
    PendingOf(if up then s.clientRecv else s.brokerRecv)
  }

  ghost predicate SourceOk<S, M>(s: State<S, M>, k: Source) {
    Incoming(s.gw.Fifo(k), ControlHand(s.ctl), Unhandled(s.ctl), s.gw.que + Pending(s, k.up), k,
             Side(Of(s.log, k.client), k.up), Of(s.arrived, k))
  }

  ghost predicate NodeOk<S, M>(h: Machine<S, M>, s: State<S, M>, c: Client) {
    NodeOf(h, s, c) == Sequential(h, c, Of(s.log, c)).st
  }

  ghost predicate UpOk<S, M>(h: Machine<S, M>, s: State<S, M>, c: Client) {
    Outgoing(s.bs.Fifo(c), s.brokerSend, s.bs.que + PendingUp(s.ctl), c,
             Of(s.toBroker, c), UpTodo(Todo(s.ctl), c), Sequential(h, c, Of(s.log, c)).toBroker)
  }

  ghost predicate DownOk<S, M>(h: Machine<S, M>, s: State<S, M>, c: Client) {
    Outgoing(s.cs.Fifo(c), s.clientSend, s.cs.que + PendingDown(s.ctl), c,
             Of(s.toClient, c), DownTodo(Todo(s.ctl), c), Sequential(h, c, Of(s.log, c)).toClient)
  }

  function SignalUps<M>(ctl: Control<M>): nat {
    if StageOf(ctl).SignalUp? then 1 else 0
  }

  function SignalDowns<M>(ctl: Control<M>): nat {
    if StageOf(ctl).SignalDown? then 1 else 0
  }

  ghost predicate AllMail<K, M>(evs: seq<Event<K, M>>) {
    forall i | 0 <= i < |evs| :: evs[i].Mail?
  }

  ghost predicate Shape<S, M>(s: State<S, M>) {
    && !s.fault
    && (s.clientRecv.Pushed? && s.clientRecv.ev.Mail? ==> s.clientRecv.ev.key.up)
    && (s.brokerRecv.Pushed? ==> s.brokerRecv.ev.Mail? && !s.brokerRecv.ev.key.up)
    && |ControlHand(s.ctl)| <= 1
    && Counted(s.bs, s.brokerSend, SignalUps(s.ctl))
    && Counted(s.cs, s.clientSend, SignalDowns(s.ctl))
    && AllMail(s.bs.que) && AllMail(HandOf(s.brokerSend)) && AllMail(PendingUp(s.ctl))
  }

  ghost predicate Inv<S, M>(h: Machine<S, M>, s: State<S, M>) {
    && Shape(s)
    && (forall k: Source :: SourceOk(s, k))
    && (forall c: Client :: NodeOk(h, s, c) && UpOk(h, s, c) && DownOk(h, s, c))
  }

  // ---------- The sending tasks ----------

  /** Holding the mail whose message is at the front of its client's queue. */
  ghost predicate HoldsFront<K, M>(b: Box<K, M>, w: Sender<K, M>) {
    w.Holding? && w.ev.Mail? ==> b.Fifo(w.ev.key) != [] && b.Fifo(w.ev.key)[0] == w.ev.paired
  }

  lemma BrokerSendUp<S, M>(h: Machine<S, M>, s: State<S, M>, c: Client)
    requires UpOk(h, s, c) && Counted(s.bs, s.brokerSend, SignalUps(s.ctl)) && HoldsFront(s.bs, s.brokerSend)
    ensures UpOk(h, Next(h, s, BrokerSendTask), c)
  {
    SenderKeeps(s.bs, s.brokerSend, false, PendingUp(s.ctl), c, Of(s.toBroker, c), UpTodo(Todo(s.ctl), c),
                Sequential(h, c, Of(s.log, c)).toBroker, SignalUps(s.ctl));
    var t := Next(h, s, BrokerSendTask);
    assert Of(t.toBroker, c) == Of(s.toBroker, c) + HandedTo(SenderStep(s.bs, s.brokerSend, false).handed, c);
  }

  lemma BrokerSendKeeps<S, M>(h: Machine<S, M>, s: State<S, M>)
    requires Inv(h, s)
    ensures Inv(h, Next(h, s, BrokerSendTask))
  {
    var t := Next(h, s, BrokerSendTask);
    var w := s.brokerSend;
    if w.Holding? {
      assert HandOf(w)[0].Mail?;
      assert UpOk(h, s, w.ev.key);
      FrontOf(s.bs.Fifo(w.ev.key), w, s.bs.que + PendingUp(s.ctl), Of(s.toBroker, w.ev.key),
              UpTodo(Todo(s.ctl), w.ev.key), Sequential(h, w.ev.key, Of(s.log, w.ev.key)).toBroker);
    }
    SenderFaultless(s.bs, w, false, SignalUps(s.ctl));
    SourcesFrame(s, t);
    forall c: Client
      ensures NodeOk(h, t, c) && UpOk(h, t, c) && DownOk(h, t, c)
    {
      assert NodeOk(h, s, c) && UpOk(h, s, c) && DownOk(h, s, c);
      BrokerSendUp(h, s, c);
    }
  }

  lemma ClientSendDown<S, M>(h: Machine<S, M>, s: State<S, M>, c: Client)
    requires DownOk(h, s, c) && Counted(s.cs, s.clientSend, SignalDowns(s.ctl)) && HoldsFront(s.cs, s.clientSend)
    ensures DownOk(h, Next(h, s, ClientSendTask), c)
  {
    SenderKeeps(s.cs, s.clientSend, true, PendingDown(s.ctl), c, Of(s.toClient, c), DownTodo(Todo(s.ctl), c),
                Sequential(h, c, Of(s.log, c)).toClient, SignalDowns(s.ctl));
    var t := Next(h, s, ClientSendTask);
    assert Of(t.toClient, c) == Of(s.toClient, c) + HandedTo(SenderStep(s.cs, s.clientSend, true).handed, c);
  }

  lemma ClientSendKeeps<S, M>(h: Machine<S, M>, s: State<S, M>)
    requires Inv(h, s)
    ensures Inv(h, Next(h, s, ClientSendTask))
  {
    var t := Next(h, s, ClientSendTask);
    var w := s.clientSend;
    if w.Holding? && w.ev.Mail? {
      assert DownOk(h, s, w.ev.key);
      FrontOf(s.cs.Fifo(w.ev.key), w, s.cs.que + PendingDown(s.ctl), Of(s.toClient, w.ev.key),
              DownTodo(Todo(s.ctl), w.ev.key), Sequential(h, w.ev.key, Of(s.log, w.ev.key)).toClient);
    }
    SenderFaultless(s.cs, w, true, SignalDowns(s.ctl));
    SourcesFrame(s, t);
    forall c: Client
      ensures NodeOk(h, t, c) && UpOk(h, t, c) && DownOk(h, t, c)
    {
      assert NodeOk(h, s, c) && UpOk(h, s, c) && DownOk(h, s, c);
      ClientSendDown(h, s, c);
    }
  }

  // ---------- What a step leaves alone ----------

  lemma ClientsFrame<S, M>(h: Machine<S, M>, s: State<S, M>, t: State<S, M>)
    requires t.bs == s.bs && t.brokerSend == s.brokerSend && t.toBroker == s.toBroker
    requires t.cs == s.cs && t.clientSend == s.clientSend && t.toClient == s.toClient
    requires t.nodes == s.nodes && t.log == s.log && StageOf(t.ctl) == StageOf(s.ctl)
    requires forall c: Client :: UpTodo(Todo(t.ctl), c) == UpTodo(Todo(s.ctl), c)
    requires forall c: Client :: DownTodo(Todo(t.ctl), c) == DownTodo(Todo(s.ctl), c)
    requires forall c: Client :: NodeOk(h, s, c) && UpOk(h, s, c) && DownOk(h, s, c)
    ensures forall c: Client :: NodeOk(h, t, c) && UpOk(h, t, c) && DownOk(h, t, c)
  {
    forall c: Client
      ensures NodeOk(h, t, c) && UpOk(h, t, c) && DownOk(h, t, c)
    {
      assert NodeOk(h, s, c) && UpOk(h, s, c) && DownOk(h, s, c);
    }
  }

  lemma SourcesFrame<S, M>(s: State<S, M>, t: State<S, M>)
    requires t.gw.fifo == s.gw.fifo && t.gw.que == s.gw.que
    requires t.clientRecv == s.clientRecv && t.brokerRecv == s.brokerRecv
    requires ControlHand(t.ctl) == ControlHand(s.ctl) && Unhandled(t.ctl) == Unhandled(s.ctl)
    requires t.log == s.log && t.arrived == s.arrived
    requires forall k: Source :: SourceOk(s, k)
    ensures forall k: Source :: SourceOk(t, k)
  {
    forall k: Source
      ensures SourceOk(t, k)
    {
      assert SourceOk(s, k);
    }
  }

  lemma ShapeFrame<S, M>(s: State<S, M>, t: State<S, M>)
    requires Shape(s) && t.fault == s.fault
    requires t.clientRecv == s.clientRecv && t.brokerRecv == s.brokerRecv
    requires t.bs == s.bs && t.brokerSend == s.brokerSend && t.cs == s.cs && t.clientSend == s.clientSend
    requires StageOf(t.ctl) == StageOf(s.ctl) && |ControlHand(t.ctl)| <= 1
    ensures Shape(t)
  {
  }

  // ---------- The receiving tasks ----------

  /** A message is pushed, or a SEARCHGW event made. */
  lemma ArrivalKeepsSource<S, M>(s: State<S, M>, t: State<S, M>, ev: Event<Source, M>, up: bool, k: Source)
    requires SourceOk(s, k) && PendingOf(if up then s.clientRecv else s.brokerRecv) == []
    requires ev.Mail? ==> ev.key.up == up
    requires t.gw.que == s.gw.que && t.ctl == s.ctl && t.log == s.log
    requires if up then t.clientRecv == Pushed(ev) && t.brokerRecv == s.brokerRecv
             else t.brokerRecv == Pushed(ev) && t.clientRecv == s.clientRecv
    requires
      var one := if ev.Mail? && ev.key == k then [ev.paired] else [];
      t.gw.Fifo(k) == s.gw.Fifo(k) + one && Of(t.arrived, k) == Of(s.arrived, k) + one
    ensures SourceOk(t, k)
  {
    if k.up == up {
      assert s.gw.que + [] == s.gw.que;
      ArriveKeeps(s.gw.Fifo(k), ControlHand(s.ctl), Unhandled(s.ctl), s.gw.que, k,
                  Side(Of(s.log, k.client), k.up), Of(s.arrived, k), ev);
    } else {
      assert s.gw.Fifo(k) + [] == s.gw.Fifo(k) && Of(s.arrived, k) + [] == Of(s.arrived, k);
    }
  }

  lemma ArriveKeepsInv<S, M>(h: Machine<S, M>, s: State<S, M>, src: Source, m: M)
    requires Inv(h, s)
    ensures Inv(h, Next(h, s, Arrive(src, m)))
  {
    var t := Next(h, s, Arrive(src, m));
    if t != s {
      forall k: Source
        ensures SourceOk(t, k)
      {
        assert SourceOk(s, k);
        assert s.gw.Fifo(k) + [] == s.gw.Fifo(k) && Of(s.arrived, k) + [] == Of(s.arrived, k);
        ArrivalKeepsSource(s, t, Mail(src, m), src.up, k);
      }
      ClientsFrame(h, s, t);
    }
  }

  lemma SearchKeepsInv<S, M>(h: Machine<S, M>, s: State<S, M>, a: M)
    requires Inv(h, s)
    ensures Inv(h, Next(h, s, Search(a)))
  {
    var t := Next(h, s, Search(a));
    if s.clientRecv.Idle? {
      forall k: Source
        ensures SourceOk(t, k)
      {
        assert SourceOk(s, k);
        assert s.gw.Fifo(k) + [] == s.gw.Fifo(k) && Of(s.arrived, k) + [] == Of(s.arrived, k);
        ArrivalKeepsSource(s, t, Announcement(a), true, k);
      }
      ClientsFrame(h, s, t);
    }
  }

  lemma ReceiversKeepInv<S, M>(h: Machine<S, M>, s: State<S, M>, up: bool)
    requires Inv(h, s)
    ensures Inv(h, Next(h, s, if up then ClientRecvTask else BrokerRecvTask))
  {
    var t := Next(h, s, if up then ClientRecvTask else BrokerRecvTask);
    var r, other := if up then s.clientRecv else s.brokerRecv, if up then s.brokerRecv else s.clientRecv;
    forall k: Source
      ensures SourceOk(t, k)
    {
      assert SourceOk(s, k);
      ReceiverKeeps(s.gw, r, other, k.up == up, ControlHand(s.ctl), Unhandled(s.ctl), k,
                    Side(Of(s.log, k.client), k.up), Of(s.arrived, k));
    }
    ClientsFrame(h, s, t);
  }

  // ---------- The control task ----------

  /** timedwait: the semaphore. */
  lemma ControlWaitsKeeps<S, M>(h: Machine<S, M>, s: State<S, M>, timeout: bool, news: seq<M>)
    requires Inv(h, s) && s.ctl.Ready?
    ensures Inv(h, ControlStep(h, s, timeout, news))
  {
    var t := ControlStep(h, s, timeout, news);
    assert t.ctl.Ready? || t.ctl.Locking?;
    assert Todo(t.ctl) == Todo(s.ctl);
    SourcesFrame(s, t);
    ClientsFrame(h, s, t);
    ShapeFrame(s, t);
  }

  /** timedwait: the locked section. */
  lemma ControlTakesKeeps<S, M>(h: Machine<S, M>, s: State<S, M>, timeout: bool, news: seq<M>)
    requires Inv(h, s) && s.ctl.Locking?
    ensures Inv(h, ControlStep(h, s, timeout, news))
  {
    var t := ControlStep(h, s, timeout, news);
    if s.gw.que == [] {
      SourcesFrame(s, t);
    } else {
      forall k: Source
        ensures SourceOk(t, k)
      {
        assert SourceOk(s, k);
        TakeIncoming(s.gw.Fifo(k), s.gw.que, Pending(s, k.up), k, Side(Of(s.log, k.client), k.up), Of(s.arrived, k));
      }
    }
    forall c: Client
      ensures UpTodo(Todo(t.ctl), c) == [] && DownTodo(Todo(t.ctl), c) == []
    {
      TodoOfAnnouncements(news, c);
    }
    ClientsFrame(h, s, t);
    ShapeFrame(s, t);
  }

  /** A SEARCHGW event. */
  lemma ControlAnnouncesKeeps<S, M>(h: Machine<S, M>, s: State<S, M>, timeout: bool, news: seq<M>)
    requires Inv(h, s) && s.ctl.Reading? && s.ctl.ev.Announcement?
    ensures Inv(h, ControlStep(h, s, timeout, news))
  {
    var t := ControlStep(h, s, timeout, news);
    forall k: Source
      ensures SourceOk(t, k)
    {
      assert SourceOk(s, k);
      var taken := Side(Of(s.log, k.client), k.up);
      HandleIncoming(s.gw.Fifo(k), s.ctl.ev, s.gw.que + Pending(s, k.up), k, taken, Of(s.arrived, k));
      assert taken + [] == taken;
    }
    forall c: Client
      ensures UpTodo(Todo(t.ctl), c) == [] && DownTodo(Todo(t.ctl), c) == []
    {
      TodoOfAnnouncements(news, c);
    }
    ClientsFrame(h, s, t);
    ShapeFrame(s, t);
  }

  lemma SequentialSnoc<S, M>(h: Machine<S, M>, c: Client, log: seq<Entry<M>>, e: Entry<M>)
    ensures
      var r := Sequential(h, c, log);
      var reply := h.step(r.st, e.m);
      Sequential(h, c, log + [e]) ==
        Result(reply.st, r.toBroker + BrokerOuts(reply.outs), r.toClient + ClientOuts(reply.outs))
  {
    assert (log + [e])[..|log|] == log;
  }

  lemma SideSnoc<M>(log: seq<Entry<M>>, e: Entry<M>, up: bool)
    ensures Side(log + [e], up) == Side(log, up) + (if e.up == up then [e.m] else [])
  {
    assert (log + [e])[..|log|] == log;
  }

  /** What was all due before, with a handler's replies still to be pushed. */
  lemma RepliesKeep<K, M>(
    fifo: seq<M>, w: Sender<K, M>, line: seq<Event<K, M>>, k: K, handed: seq<M>, total: seq<M>, outs: seq<M>)
    requires Outgoing(fifo, w, line, k, handed, [], total)
    ensures Outgoing(fifo, w, line, k, handed, outs, total + outs)
  {
    var sent := Msgs(UnsentOf(w) + line, k);
    assert sent + [] == sent;
    Regroup(handed, sent, outs);
  }

  lemma ControlHandlesSource<S, M>(s: State<S, M>, t: State<S, M>, ev: Event<Source, M>, k: Source)
    requires SourceOk(s, k) && ev.Mail? && s.ctl == Reading(ev)
    requires t.gw == s.gw && t.clientRecv == s.clientRecv && t.brokerRecv == s.brokerRecv && t.arrived == s.arrived
    requires ControlHand(t.ctl) == [ev] && Unhandled(t.ctl) == []
    requires t.log == s.log[ev.key.client := Of(s.log, ev.key.client) + [Entry(ev.key.up, ev.paired)]]
    ensures SourceOk(t, k)
  {
    var taken := Side(Of(s.log, k.client), k.up);
    HandleIncoming(s.gw.Fifo(k), ev, s.gw.que + Pending(s, k.up), k, taken, Of(s.arrived, k));
    SideSnoc(Of(s.log, ev.key.client), Entry(ev.key.up, ev.paired), k.up);
    assert taken + [] == taken;
  }

  lemma ControlHandlesClient<S, M>(
    h: Machine<S, M>, s: State<S, M>, t: State<S, M>, c0: Client, e: Entry<M>, hand: seq<Event<Source, M>>, c: Client)
    requires NodeOk(h, s, c) && UpOk(h, s, c) && DownOk(h, s, c) && s.ctl.Reading?
    requires t.bs == s.bs && t.brokerSend == s.brokerSend && t.toBroker == s.toBroker
    requires t.cs == s.cs && t.clientSend == s.clientSend && t.toClient == s.toClient
    requires t.log == s.log[c0 := Of(s.log, c0) + [e]]
    requires t.nodes == s.nodes[c0 := h.step(NodeOf(h, s, c0), e.m).st]
    requires t.ctl == Emitting(hand, Tasks(c0, h.step(NodeOf(h, s, c0), e.m).outs), Between)
    ensures NodeOk(h, t, c) && UpOk(h, t, c) && DownOk(h, t, c)
  {
    var log := Of(s.log, c0);
    SequentialSnoc(h, c0, log, e);
    var outs := h.step(NodeOf(h, s, c0), e.m).outs;
    TodoOfTasks(c0, outs, c);
    if c == c0 {
      var r := Sequential(h, c, log);
      RepliesKeep(s.bs.Fifo(c), s.brokerSend, s.bs.que + [], c, Of(s.toBroker, c), r.toBroker, BrokerOuts(outs));
      RepliesKeep(s.cs.Fifo(c), s.clientSend, s.cs.que + [], c, Of(s.toClient, c), r.toClient, ClientOuts(outs));
    }
  }

  /** getClientRecvMessage / getBrokerRecvMessage and the handler. */
  lemma ControlHandlesKeeps<S, M>(h: Machine<S, M>, s: State<S, M>, timeout: bool, news: seq<M>)
    requires Inv(h, s) && s.ctl.Reading? && s.ctl.ev.Mail?
    ensures Inv(h, ControlStep(h, s, timeout, news))
  {
    var ev := s.ctl.ev;
    assert SourceOk(s, ev.key);
    MsgsCons(ev, s.gw.que + Pending(s, ev.key.up), ev.key);
    assert s.gw.Fifo(ev.key)[0] == ev.paired;
    var t := ControlStep(h, s, timeout, news);
    forall k: Source
      ensures SourceOk(t, k)
    {
      assert SourceOk(s, k);
      ControlHandlesSource(s, t, ev, k);
    }
    forall c: Client
      ensures NodeOk(h, t, c) && UpOk(h, t, c) && DownOk(h, t, c)
    {
      assert NodeOk(h, s, c) && UpOk(h, s, c) && DownOk(h, s, c);
      ControlHandlesClient(h, s, t, ev.key.client, Entry(ev.key.up, ev.paired), [ev], c);
    }
  }

  /** The destructor pops the message of the event that has been dealt with. */
  lemma ControlDeletesKeeps<S, M>(h: Machine<S, M>, s: State<S, M>, timeout: bool, news: seq<M>)
    requires Inv(h, s) && s.ctl.Emitting? && s.ctl.stage.Between? && s.ctl.todo == []
    ensures Inv(h, ControlStep(h, s, timeout, news))
  {
    DestructorKeeps(h, s, if s.ctl.hand == [] then s.gw else s.gw.Delete(s.ctl.hand[0]));
  }

  lemma DestructorKeeps<S, M>(h: Machine<S, M>, s: State<S, M>, gw: Box<Source, M>)
    requires Inv(h, s) && s.ctl.Emitting? && s.ctl.stage.Between? && s.ctl.todo == []
    requires gw == if s.ctl.hand == [] then s.gw else s.gw.Delete(s.ctl.hand[0])
    ensures Inv(h, s.(gw := gw, ctl := Ready))
  {
    var t := s.(gw := gw, ctl := Ready);
    assert Todo(t.ctl) == Todo(s.ctl);
    if s.ctl.hand == [] {
      SourcesFrame(s, t);
    } else {
      DeleteSources(s, t, s.ctl.hand[0]);
    }
    ClientsFrame(h, s, t);
    ShapeFrame(s, t);
  }

  lemma DeleteSources<S, M>(s: State<S, M>, t: State<S, M>, ev: Event<Source, M>)
    requires ControlHand(s.ctl) == [ev] && Unhandled(s.ctl) == []
    requires t.gw == s.gw.Delete(ev) && t.ctl == Ready
    requires t.clientRecv == s.clientRecv && t.brokerRecv == s.brokerRecv && t.log == s.log && t.arrived == s.arrived
    requires forall k: Source :: SourceOk(s, k)
    ensures forall k: Source :: SourceOk(t, k)
  {
    forall k: Source
      ensures SourceOk(t, k)
    {
      assert SourceOk(s, k);
      DeleteIncoming(s.gw, ev, s.gw.que + Pending(s, k.up), k, Side(Of(s.log, k.client), k.up), Of(s.arrived, k));
    }
  }

  /** The replies, one push, one locked section and one sem_post at a time. */
  lemma ControlEmitsKeeps<S, M>(h: Machine<S, M>, s: State<S, M>, timeout: bool, news: seq<M>)
    requires Inv(h, s) && s.ctl.Emitting? && !(s.ctl.stage.Between? && s.ctl.todo == [])
    ensures Inv(h, ControlStep(h, s, timeout, news))
  {
    var t := ControlStep(h, s, timeout, news);
    var todo, stage := s.ctl.todo, s.ctl.stage;
    var e := EmitStep(s.bs, s.cs, todo, stage);
    SourcesFrame(s, t);
    forall c: Client
      ensures NodeOk(h, t, c) && UpOk(h, t, c) && DownOk(h, t, c)
    {
      assert NodeOk(h, s, c) && UpOk(h, s, c) && DownOk(h, s, c);
      var r := Sequential(h, c, Of(s.log, c));
      EmitUpKeeps(s.bs, s.cs, todo, stage, s.brokerSend, c, Of(s.toBroker, c), r.toBroker);
      EmitDownKeeps(s.bs, s.cs, todo, stage, s.clientSend, c, Of(s.toClient, c), r.toClient);
    }
    EmitShape(s, todo, stage);
  }

  lemma EmitShape<S, M>(s: State<S, M>, todo: seq<Task<M>>, stage: Stage<M>)
    requires Shape(s) && StageOf(s.ctl) == stage && (stage.Between? ==> todo != [])
    ensures
      var e := EmitStep(s.bs, s.cs, todo, stage);
      && Counted(e.bs, s.brokerSend, if e.stage.SignalUp? then 1 else 0)
      && Counted(e.cs, s.clientSend, if e.stage.SignalDown? then 1 else 0)
      && AllMail(e.bs.que) && AllMail(PostingUp(e.stage))
  {
    if stage.PostUp? {
      assert PendingUp(s.ctl)[0].Mail?;
    }
  }

  lemma NextInv<S, M>(h: Machine<S, M>, s: State<S, M>, step: Step<M>)
    requires Inv(h, s)
    ensures Inv(h, Next(h, s, step))
  {
    match step
    case Arrive(src, m) => ArriveKeepsInv(h, s, src, m);
    case Search(a) => SearchKeepsInv(h, s, a);
    case ClientRecvTask => ReceiversKeepInv(h, s, true);
    case BrokerRecvTask => ReceiversKeepInv(h, s, false);
    case BrokerSendTask => BrokerSendKeeps(h, s);
    case ClientSendTask => ClientSendKeeps(h, s);
    case ControlTask(timeout, news) =>
      if s.ctl.Emitting? {
        if s.ctl.stage.Between? && s.ctl.todo == [] {
          ControlDeletesKeeps(h, s, timeout, news);
        } else {
          ControlEmitsKeeps(h, s, timeout, news);
        }
      } else if s.ctl.Ready? {
        ControlWaitsKeeps(h, s, timeout, news);
      } else if s.ctl.Locking? {
        ControlTakesKeeps(h, s, timeout, news);
      } else if s.ctl.ev.Announcement? {
        ControlAnnouncesKeeps(h, s, timeout, news);
      } else {
        ControlHandlesKeeps(h, s, timeout, news);
      }
  }

  lemma {:induction false} ExecInv<S, M>(h: Machine<S, M>, steps: seq<Step<M>>)
    ensures Inv(h, Exec(h, steps))
  {
    if steps != [] {
      ExecInv(h, steps[..|steps| - 1]);
      NextInv(h, Exec(h, steps[..|steps| - 1]), steps[|steps| - 1]);
    }
  }

  // ---------- The theorems ----------

  /** Event/message pairing. In every reachable state no task has met NULL or an empty front(),
      and whatever mail a task holds - from the moment it takes the event until the destructor
      runs - the client's queue is not empty and its front is the message that was pushed just
      before that event was posted. */
  lemma EventsMeetTheirMessages<S, M>(h: Machine<S, M>, steps: seq<Step<M>>)
    ensures
      var s := Exec(h, steps);
      && !s.fault
      && (ControlHand(s.ctl) != [] ==>
            var ev := ControlHand(s.ctl)[0];
            ev.Mail? ==> s.gw.Fifo(ev.key) != [] && s.gw.Fifo(ev.key)[0] == ev.paired)
      && (HandOf(s.brokerSend) != [] ==>
            var ev := s.brokerSend.ev;
            ev.Mail? && s.bs.Fifo(ev.key) != [] && s.bs.Fifo(ev.key)[0] == ev.paired)
      && (HandOf(s.clientSend) != [] ==>
            var ev := s.clientSend.ev;
            ev.Mail? ==> s.cs.Fifo(ev.key) != [] && s.cs.Fifo(ev.key)[0] == ev.paired)
  {
    ExecInv(h, steps);
    var s := Exec(h, steps);
    if ControlHand(s.ctl) != [] && ControlHand(s.ctl)[0].Mail? {
      var ev := ControlHand(s.ctl)[0];
      assert SourceOk(s, ev.key) && ControlHand(s.ctl) == [ev];
      MsgsCons(ev, s.gw.que + Pending(s, ev.key.up), ev.key);
    }
    if HandOf(s.brokerSend) != [] {
      var ev := s.brokerSend.ev;
      assert HandOf(s.brokerSend)[0].Mail? && UpOk(h, s, ev.key);
      MsgsCons(ev, s.bs.que + PendingUp(s.ctl), ev.key);
    }
    if HandOf(s.clientSend) != [] && s.clientSend.ev.Mail? {
      var ev := s.clientSend.ev;
      assert DownOk(h, s, ev.key);
      MsgsCons(ev, s.cs.que + PendingDown(s.ctl), ev.key);
    }
  }

  /** Nothing is queued and no task is busy. */
  predicate Quiescent<S, M>(s: State<S, M>) {
    && s.gw.que == [] && s.bs.que == [] && s.cs.que == []
    && !s.clientRecv.Pushed? && !s.brokerRecv.Pushed? && s.ctl.Ready?
    && !s.brokerSend.Holding? && !s.clientSend.Holding?
  }

  /** Pipeline refinement. Under every interleaving and for every client there is an order of
      its messages - each side in arrival order, nothing skipped - such that what has been handed
      to the broker and to the radio is a prefix of what the sequential machine sends on it; and
      when nothing is in flight, everything received has been handled and everything sent. */
  lemma PipelineRefinesSequential<S, M>(h: Machine<S, M>, steps: seq<Step<M>>, c: Client)
    ensures
      var s := Exec(h, steps);
      var log := Of(s.log, c);
      var r := Sequential(h, c, log);
      && Side(log, true) <= Of(s.arrived, Source(c, true))
      && Side(log, false) <= Of(s.arrived, Source(c, false))
      && NodeOf(h, s, c) == r.st
      && Of(s.toBroker, c) <= r.toBroker
      && Of(s.toClient, c) <= r.toClient
      && (Quiescent(s) ==>
            && Side(log, true) == Of(s.arrived, Source(c, true))
            && Side(log, false) == Of(s.arrived, Source(c, false))
            && Of(s.toBroker, c) == r.toBroker
            && Of(s.toClient, c) == r.toClient)
  {
    ExecInv(h, steps);
    var s := Exec(h, steps);
    assert SourceOk(s, Source(c, true)) && SourceOk(s, Source(c, false));
    assert NodeOk(h, s, c) && UpOk(h, s, c) && DownOk(h, s, c);
  }
}
