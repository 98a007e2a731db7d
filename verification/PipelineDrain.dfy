/** Nothing gets stuck: from every reachable state the five tasks alone can bring everything that
    has arrived to the broker and to the radio. */
module PipelineDrain {
  import opened Pipeline
  import opened PipelineProof

  /** A step of one of the tasks, with nothing new from outside: no arrival, no search, no timeout
      and no announcement. */
  predicate Internal<M(==)>(step: Step<M>) {
    !step.Arrive? && !step.Search? && (step.ControlTask? ==> !step.timeout && step.news == [])
  }

  predicate AllInternal<M(==)>(steps: seq<Step<M>>) {
    forall i | 0 <= i < |steps| :: Internal(steps[i])
  }

  /** These steps, from any state. */
  function From<S, M>(h: Machine<S, M>, s: State<S, M>, steps: seq<Step<M>>): State<S, M>
    decreases |steps|
  {
    if steps == [] then s else From(h, Next(h, s, steps[0]), steps[1..])
  }

  lemma {:induction false} FromExec<S, M>(h: Machine<S, M>, steps: seq<Step<M>>, more: seq<Step<M>>)
    ensures Exec(h, steps + more) == From(h, Exec(h, steps), more)
    decreases |more|
  {
    if more == [] {
      assert steps + more == steps;
    } else {
      var first := steps + [more[0]];
      assert first[..|steps|] == steps && first + more[1..] == steps + more;
      FromExec(h, first, more[1..]);
    }
  }

  lemma {:induction false} FromAppend<S, M>(h: Machine<S, M>, s: State<S, M>, a: seq<Step<M>>, b: seq<Step<M>>)
    ensures From(h, s, a + b) == From(h, From(h, s, a), b)
    decreases |a|
  {
    if a == [] {
      assert a + b == b;
    } else {
      assert (a + b)[1..] == a[1..] + b;
      FromAppend(h, Next(h, s, a[0]), a[1..], b);
    }
  }

  /** One step, then the rest. */
  lemma FromCons<S, M(!new)>(h: Machine<S, M>, s: State<S, M>, step: Step<M>, more: seq<Step<M>>)
    requires Internal(step) && AllInternal(more)
    ensures AllInternal([step] + more) && From(h, s, [step] + more) == From(h, Next(h, s, step), more)
  {
    assert ([step] + more)[1..] == more;
  }

  lemma ReadingArrived<S, M>(h: Machine<S, M>, s: State<S, M>, timeout: bool, news: seq<M>)
    requires s.ctl.Reading?
    ensures ControlStep(h, s, timeout, news).arrived == s.arrived
  {
    var ev := s.ctl.ev;
    if ev.Announcement? {
      assert ControlStep(h, s, timeout, news) == s.(ctl := Emitting([ev], Announcements(news), Between));
    } else if s.gw.Fifo(ev.key) == [] {
      assert ControlStep(h, s, timeout, news) == s.(fault := true);
    } else {
      var t := ControlStep(h, s, timeout, news);
      assert t == s.(nodes := t.nodes, log := t.log, ctl := t.ctl);
    }
  }

  lemma EmittingArrived<S, M>(h: Machine<S, M>, s: State<S, M>, timeout: bool, news: seq<M>)
    requires s.ctl.Emitting?
    ensures ControlStep(h, s, timeout, news).arrived == s.arrived
  {
    if s.ctl.stage.Between? && s.ctl.todo == [] {
      var gw := if s.ctl.hand == [] then s.gw else s.gw.Delete(s.ctl.hand[0]);
      assert ControlStep(h, s, timeout, news) == s.(gw := gw, ctl := Ready);
    } else {
      var e := EmitStep(s.bs, s.cs, s.ctl.todo, s.ctl.stage);
      assert ControlStep(h, s, timeout, news) == s.(bs := e.bs, cs := e.cs, ctl := Emitting(s.ctl.hand, e.todo, e.stage));
    }
  }

  lemma ControlArrived<S, M>(h: Machine<S, M>, s: State<S, M>, timeout: bool, news: seq<M>)
    ensures ControlStep(h, s, timeout, news).arrived == s.arrived
  {
    match s.ctl {
      case Reading(_) => ReadingArrived(h, s, timeout, news);
      case Emitting(_, _, _) => EmittingArrived(h, s, timeout, news);
      case _ =>
    }
  }

  lemma ArriveArrived<S, M>(h: Machine<S, M>, s: State<S, M>, src: Source, m: M)
    ensures Next(h, s, Arrive(src, m)).arrived ==
      if (src.up && s.clientRecv.Idle?) || (!src.up && s.brokerRecv.Idle?) then s.arrived[src := Of(s.arrived, src) + [m]]
      else s.arrived
  {
  }

  lemma ArrivedStep<S, M>(h: Machine<S, M>, s: State<S, M>, step: Step<M>)
    ensures Next(h, s, step).arrived ==
      if step.Arrive? && (if step.src.up then s.clientRecv.Idle? else s.brokerRecv.Idle?)
      then s.arrived[step.src := Of(s.arrived, step.src) + [step.m]]
      else s.arrived
  {
    match step {
      case ControlTask(timeout, news) => ControlArrived(h, s, timeout, news);
      case Arrive(src, m) => ArriveArrived(h, s, src, m);
      case _ =>
    }
  }

  /** What the receiving tasks have taken in from one side of a client: the arrivals that found the
      task between two messages. */
  function Received<S, M>(h: Machine<S, M>, steps: seq<Step<M>>, src: Source): seq<M> {
    if steps == [] then []
    else
      var before, step := steps[..|steps| - 1], steps[|steps| - 1];
      var s := Exec(h, before);
      Received(h, before, src)
      + if step.Arrive? && step.src == src && (if src.up then s.clientRecv.Idle? else s.brokerRecv.Idle?) then [step.m] else []
  }

  /** The history of arrivals, on which the refinement is stated, is just that. */
  lemma {:induction false} ArrivedIsReceived<S, M>(h: Machine<S, M>, steps: seq<Step<M>>, src: Source)
    ensures Of(Exec(h, steps).arrived, src) == Received(h, steps, src)
  {
    if steps != [] {
      var before := steps[..|steps| - 1];
      ArrivedIsReceived(h, before, src);
      ArrivedStep(h, Exec(h, before), steps[|steps| - 1]);
    }
  }

  lemma {:induction false} ArrivedStays<S, M(!new)>(h: Machine<S, M>, s: State<S, M>, steps: seq<Step<M>>)
    requires AllInternal(steps)
    ensures From(h, s, steps).arrived == s.arrived
    decreases |steps|
  {
    if steps != [] {
      assert Internal(steps[0]);
      ArrivedStep(h, s, steps[0]);
      ArrivedStays(h, Next(h, s, steps[0]), steps[1..]);
    }
  }

  // ---------- Enough tokens for the control task ----------

  /** How much there is still to push, post and signal. */
  function Work<M>(todo: seq<Task<M>>, stage: Stage<M>): nat {
    3 * |todo| + match stage case Between => 0 case SignalUp => 1 case SignalDown => 1 case _ => 2
  }

  function ToEmit<M>(ctl: Control<M>): nat {
    match ctl case Emitting(_, todo, stage) => Work(todo, stage) case _ => 0
  }

  lemma EmitsLess<M>(bs: Box<Client, M>, cs: Box<Client, M>, todo: seq<Task<M>>, stage: Stage<M>)
    requires stage.Between? ==> todo != []
    ensures var e := EmitStep(bs, cs, todo, stage); Work(e.todo, e.stage) < Work(todo, stage)
  {
  }

  function Tokens<S, M>(s: State<S, M>): nat {
    s.gw.sem + (if s.clientRecv.Posted? then 1 else 0) + (if s.brokerRecv.Posted? then 1 else 0)
    + (if s.ctl.Locking? then 1 else 0)
  }

  /** No event without a token for it, even after timeouts. */
  predicate Signalled<S, M>(s: State<S, M>) {
    |s.gw.que| <= Tokens(s)
  }

  lemma ControlSignalled<S, M>(h: Machine<S, M>, s: State<S, M>, timeout: bool, news: seq<M>)
    requires Signalled(s)
    ensures Signalled(ControlStep(h, s, timeout, news))
  {
    match s.ctl {
      case Reading(_) => ReadingKeeps(h, s, timeout, news);
      case Emitting(_, _, _) => EmittingKeeps(h, s, timeout, news);
      case _ =>
    }
  }

  /** Between two events only the client queues change, not the events and tokens. */
  ghost predicate SameTokens<S, M>(s: State<S, M>, t: State<S, M>) {
    && t.gw.que == s.gw.que && t.gw.sem == s.gw.sem && t.clientRecv == s.clientRecv && t.brokerRecv == s.brokerRecv
    && !t.ctl.Locking?
  }

  lemma ReadingKeeps<S, M>(h: Machine<S, M>, s: State<S, M>, timeout: bool, news: seq<M>)
    requires s.ctl.Reading?
    ensures
      var t, ev := ControlStep(h, s, timeout, news), s.ctl.ev;
      SameTokens(s, t) && (t.ctl.Emitting? || (ev.Mail? && s.gw.Fifo(ev.key) == []))
  {
    var ev := s.ctl.ev;
    if ev.Announcement? {
      assert ControlStep(h, s, timeout, news) == s.(ctl := Emitting([ev], Announcements(news), Between));
    } else if s.gw.Fifo(ev.key) == [] {
      assert ControlStep(h, s, timeout, news) == s.(fault := true);
    } else {
      var t := ControlStep(h, s, timeout, news);
      assert t == s.(nodes := t.nodes, log := t.log, ctl := t.ctl);
    }
  }

  lemma EmittingKeeps<S, M>(h: Machine<S, M>, s: State<S, M>, timeout: bool, news: seq<M>)
    requires s.ctl.Emitting?
    ensures
      var t := ControlStep(h, s, timeout, news);
      SameTokens(s, t) && (t.ctl.Ready? || (t.ctl.Emitting? && ToEmit(t.ctl) < ToEmit(s.ctl)))
  {
    if s.ctl.stage.Between? && s.ctl.todo == [] {
      DeletingKeeps(h, s, timeout, news);
    } else {
      PostingKeeps(h, s, timeout, news);
    }
  }

  lemma DeletingKeeps<S, M>(h: Machine<S, M>, s: State<S, M>, timeout: bool, news: seq<M>)
    requires s.ctl.Emitting? && s.ctl.stage.Between? && s.ctl.todo == []
    ensures var t := ControlStep(h, s, timeout, news); SameTokens(s, t) && t.ctl.Ready?
  {
    var gw := if s.ctl.hand == [] then s.gw else s.gw.Delete(s.ctl.hand[0]);
    assert ControlStep(h, s, timeout, news) == s.(gw := gw, ctl := Ready);
  }

  lemma PostingKeeps<S, M>(h: Machine<S, M>, s: State<S, M>, timeout: bool, news: seq<M>)
    requires s.ctl.Emitting? && !(s.ctl.stage.Between? && s.ctl.todo == [])
    ensures
      var t := ControlStep(h, s, timeout, news);
      SameTokens(s, t) && t.ctl.Emitting? && ToEmit(t.ctl) < ToEmit(s.ctl)
  {
    var e := EmitStep(s.bs, s.cs, s.ctl.todo, s.ctl.stage);
    EmitsLess(s.bs, s.cs, s.ctl.todo, s.ctl.stage);
    assert ControlStep(h, s, timeout, news) == s.(bs := e.bs, cs := e.cs, ctl := Emitting(s.ctl.hand, e.todo, e.stage));
  }

  lemma NextSignalled<S, M>(h: Machine<S, M>, s: State<S, M>, step: Step<M>)
    requires Signalled(s)
    ensures Signalled(Next(h, s, step))
  {
    match step {
      case ControlTask(timeout, news) =>
        ControlSignalled(h, s, timeout, news);
        assert Next(h, s, step) == ControlStep(h, s, timeout, news);
      case Arrive(src, m) => ArriveSignalled(h, s, src, m);
      case _ =>
    }
  }

  lemma ArriveSignalled<S, M>(h: Machine<S, M>, s: State<S, M>, src: Source, m: M)
    requires Signalled(s)
    ensures Signalled(Next(h, s, Arrive(src, m)))
  {
  }

  lemma {:induction false} ExecSignalled<S, M>(h: Machine<S, M>, steps: seq<Step<M>>)
    ensures Signalled(Exec(h, steps))
  {
    if steps != [] {
      ExecSignalled(h, steps[..|steps| - 1]);
      NextSignalled(h, Exec(h, steps[..|steps| - 1]), steps[|steps| - 1]);
    }
  }

  /** sem_post by a receiving task; sem_timedwait that did not time out. */
  function SignalBy<S, M>(s: State<S, M>, step: Step<M>): nat {
    if (step.ClientRecvTask? && s.clientRecv.Posted?) || (step.BrokerRecvTask? && s.brokerRecv.Posted?) then 1 else 0
  }

  function WaitBy<S, M>(s: State<S, M>, step: Step<M>): nat {
    if step.ControlTask? && !step.timeout && s.ctl.Ready? && s.gw.sem > 0 then 1 else 0
  }

  function Signals<S, M>(h: Machine<S, M>, steps: seq<Step<M>>): nat {
    if steps == [] then 0
    else
      var before := steps[..|steps| - 1];
      Signals(h, before) + SignalBy(Exec(h, before), steps[|steps| - 1])
  }

  function Waits<S, M>(h: Machine<S, M>, steps: seq<Step<M>>): nat {
    if steps == [] then 0
    else
      var before := steps[..|steps| - 1];
      Waits(h, before) + WaitBy(Exec(h, before), steps[|steps| - 1])
  }

  lemma ControlSem<S, M>(h: Machine<S, M>, s: State<S, M>, timeout: bool, news: seq<M>)
    ensures ControlStep(h, s, timeout, news).gw.sem + WaitBy(s, ControlTask(timeout, news)) == s.gw.sem
  {
    match s.ctl {
      case Reading(_) => ReadingKeeps(h, s, timeout, news);
      case Emitting(_, _, _) => EmittingKeeps(h, s, timeout, news);
      case _ =>
    }
  }

  lemma ArriveSem<S, M>(h: Machine<S, M>, s: State<S, M>, src: Source, m: M)
    ensures Next(h, s, Arrive(src, m)).gw.sem == s.gw.sem
  {
  }

  lemma SemStep<S, M>(h: Machine<S, M>, s: State<S, M>, step: Step<M>)
    ensures Next(h, s, step).gw.sem + WaitBy(s, step) == s.gw.sem + SignalBy(s, step)
  {
    match step {
      case ControlTask(timeout, news) => ControlSem(h, s, timeout, news);
      case Arrive(src, m) => ArriveSem(h, s, src, m);
      case _ =>
    }
  }

  /** The gateway's semaphore counts the posts less the waits that did not time out. */
  lemma {:induction false} SemaphoreCounts<S, M>(h: Machine<S, M>, steps: seq<Step<M>>)
    ensures Exec(h, steps).gw.sem + Waits(h, steps) == Signals(h, steps)
  {
    if steps != [] {
      var before := steps[..|steps| - 1];
      SemaphoreCounts(h, before);
      SemStep(h, Exec(h, before), steps[|steps| - 1]);
    }
  }

  ghost predicate Sound<S, M>(h: Machine<S, M>, s: State<S, M>) {
    Inv(h, s) && Signalled(s)
  }

  lemma NextSound<S, M>(h: Machine<S, M>, s: State<S, M>, step: Step<M>)
    requires Sound(h, s)
    ensures Sound(h, Next(h, s, step))
  {
    NextInv(h, s, step);
    NextSignalled(h, s, step);
  }

  // ---------- One task after another ----------

  function ReceiverRank<K, M>(r: Receiver<K, M>): nat {
    match r case Idle => 0 case Posted => 1 case Pushed(_) => 2
  }

  predicate ReceiversIdle<S, M>(s: State<S, M>) {
    s.clientRecv.Idle? && s.brokerRecv.Idle?
  }

  lemma {:induction false} DrainReceivers<S, M(!new)>(h: Machine<S, M>, s: State<S, M>) returns (more: seq<Step<M>>)
    requires Sound(h, s)
    ensures AllInternal(more) && Sound(h, From(h, s, more)) && ReceiversIdle(From(h, s, more))
    decreases ReceiverRank(s.clientRecv) + ReceiverRank(s.brokerRecv)
  {
    if ReceiversIdle(s) {
      more := [];
    } else {
      var step: Step<M> := if s.clientRecv.Idle? then BrokerRecvTask else ClientRecvTask;
      NextSound(h, s, step);
      more := DrainReceivers(h, Next(h, s, step));
      FromCons(h, s, step, more);
      more := [step] + more;
    }
  }

  /** No event waits for the control task, and it is waiting for one. */
  predicate ControlIdle<S, M>(s: State<S, M>) {
    ReceiversIdle(s) && s.ctl.Ready? && s.gw.que == []
  }

  function ControlRank<M>(ctl: Control<M>, waiting: bool): nat {
    match ctl
    case Reading(_) => 4
    case Locking => if waiting then 1 else 4
    case Emitting(_, _, _) => 3
    case Ready => 2
  }

  ghost predicate Advances<S, M>(s: State<S, M>, t: State<S, M>) {
    && ReceiversIdle(t) && |t.gw.que| <= |s.gw.que|
    && (|t.gw.que| == |s.gw.que| ==>
          var r, q := ControlRank(t.ctl, t.gw.que != []), ControlRank(s.ctl, s.gw.que != []);
          r <= q && (r == q ==> ToEmit(t.ctl) < ToEmit(s.ctl)))
  }

  lemma TakingMoves<S, M>(h: Machine<S, M>, s: State<S, M>)
    requires Signalled(s) && ReceiversIdle(s) && !ControlIdle(s) && (s.ctl.Ready? || s.ctl.Locking?)
    ensures Advances(s, ControlStep(h, s, false, []))
  {
  }

  lemma RepliesMove<S, M>(s: State<S, M>, t: State<S, M>)
    requires ReceiversIdle(s) && SameTokens(s, t)
    requires if s.ctl.Reading? then t.ctl.Emitting? else s.ctl.Emitting?
    requires s.ctl.Emitting? ==> t.ctl.Ready? || (t.ctl.Emitting? && ToEmit(t.ctl) < ToEmit(s.ctl))
    ensures Advances(s, t)
  {
  }

  /** The control task never waits in vain, and gets somewhere. */
  lemma ControlMoves<S, M>(h: Machine<S, M>, s: State<S, M>)
    requires Sound(h, s) && ReceiversIdle(s) && !ControlIdle(s)
    ensures Advances(s, ControlStep(h, s, false, []))
  {
    if s.ctl.Reading? {
      if s.ctl.ev.Mail? {
        ReadingMeets(h, s);
      }
      ReadingKeeps(h, s, false, []);
      RepliesMove(s, ControlStep(h, s, false, []));
    } else if s.ctl.Emitting? {
      EmittingKeeps(h, s, false, []);
      RepliesMove(s, ControlStep(h, s, false, []));
    } else {
      TakingMoves(h, s);
    }
  }

  lemma ReadingMeets<S, M>(h: Machine<S, M>, s: State<S, M>)
    requires Inv(h, s) && s.ctl.Reading? && s.ctl.ev.Mail?
    ensures s.gw.Fifo(s.ctl.ev.key) != []
  {
    var ev := s.ctl.ev;
    assert SourceOk(s, ev.key);
    MsgsCons(ev, s.gw.que + Pending(s, ev.key.up), ev.key);
  }

  lemma {:induction false} DrainControl<S, M(!new)>(h: Machine<S, M>, s: State<S, M>) returns (more: seq<Step<M>>)
    requires Sound(h, s) && ReceiversIdle(s)
    ensures AllInternal(more) && Sound(h, From(h, s, more)) && ControlIdle(From(h, s, more))
    decreases |s.gw.que|, ControlRank(s.ctl, s.gw.que != []), ToEmit(s.ctl)
  {
    if ControlIdle(s) {
      more := [];
    } else {
      var step := ControlTask(false, []);
      NextSound(h, s, step);
      ControlMoves(h, s);
      more := DrainControl(h, Next(h, s, step));
      FromCons(h, s, step, more);
      more := [step] + more;
    }
  }

  function SenderRank<K, M>(b: Box<K, M>, w: Sender<K, M>): nat {
    4 * |b.que| + match w case Waiting => 3 case Woken => 2 case Holding(_) => 5 case Sent(_) => 4
  }

  predicate SenderIdle<K, M>(b: Box<K, M>, w: Sender<K, M>) {
    b.que == [] && w.Waiting?
  }

  lemma SenderMoves<K, M>(b: Box<K, M>, w: Sender<K, M>, broadcasts: bool)
    requires Counted(b, w, 0) && !SenderIdle(b, w)
    ensures var r := SenderStep(b, w, broadcasts); SenderRank(r.box, r.task) < SenderRank(b, w)
  {
  }

  lemma {:induction false} DrainBroker<S, M(!new)>(h: Machine<S, M>, s: State<S, M>) returns (more: seq<Step<M>>)
    requires Sound(h, s) && ControlIdle(s)
    ensures
      var t := From(h, s, more);
      AllInternal(more) && Sound(h, t) && ControlIdle(t) && SenderIdle(t.bs, t.brokerSend)
    decreases SenderRank(s.bs, s.brokerSend)
  {
    if SenderIdle(s.bs, s.brokerSend) {
      more := [];
    } else {
      NextSound(h, s, BrokerSendTask);
      SenderMoves(s.bs, s.brokerSend, false);
      more := DrainBroker(h, Next(h, s, BrokerSendTask));
      FromCons(h, s, BrokerSendTask, more);
      more := [BrokerSendTask] + more;
    }
  }

  lemma {:induction false} DrainClient<S, M(!new)>(h: Machine<S, M>, s: State<S, M>) returns (more: seq<Step<M>>)
    requires Sound(h, s) && ControlIdle(s) && SenderIdle(s.bs, s.brokerSend)
    ensures
      var t := From(h, s, more);
      AllInternal(more) && ControlIdle(t) && SenderIdle(t.bs, t.brokerSend) && SenderIdle(t.cs, t.clientSend)
    decreases SenderRank(s.cs, s.clientSend)
  {
    if SenderIdle(s.cs, s.clientSend) {
      more := [];
    } else {
      NextSound(h, s, ClientSendTask);
      SenderMoves(s.cs, s.clientSend, true);
      more := DrainClient(h, Next(h, s, ClientSendTask));
      FromCons(h, s, ClientSendTask, more);
      more := [ClientSendTask] + more;
    }
  }

  lemma DrainAll<S, M(!new)>(h: Machine<S, M>, s: State<S, M>) returns (more: seq<Step<M>>)
    requires Sound(h, s)
    ensures AllInternal(more) && Quiescent(From(h, s, more))
  {
    var a := DrainReceivers(h, s);
    var b := DrainControl(h, From(h, s, a));
    FromAppend(h, s, a, b);
    var c := DrainBroker(h, From(h, s, a + b));
    FromAppend(h, s, a + b, c);
    var d := DrainClient(h, From(h, s, a + b + c));
    FromAppend(h, s, a + b + c, d);
    more := a + b + c + d;
  }

  /** Everything that had arrived from both sides of this client has been handled, and all that the
      sequential machine sends on it has been handed over. */
  ghost predicate AllDone<S, M>(h: Machine<S, M>, arrived: map<Source, seq<M>>, t: State<S, M>, c: Client) {
    var log := Of(t.log, c);
    var r := Sequential(h, c, log);
    && Side(log, true) == Of(arrived, Source(c, true)) && Side(log, false) == Of(arrived, Source(c, false))
    && Of(t.toBroker, c) == r.toBroker && Of(t.toClient, c) == r.toClient
  }

  /** From every reachable state, some finite sequence of steps of the tasks alone leads to a state
      in which nothing is in flight, and everything received until then has been handled and sent,
      for every client. */
  lemma NothingIsStuck<S, M(!new)>(h: Machine<S, M>, steps: seq<Step<M>>) returns (more: seq<Step<M>>)
    ensures AllInternal(more)
    ensures
      var t := Exec(h, steps + more);
      Quiescent(t) && forall c: Client :: AllDone(h, Exec(h, steps).arrived, t, c)
  {
    var s := Exec(h, steps);
    ExecInv(h, steps);
    ExecSignalled(h, steps);
    more := DrainAll(h, s);
    FromExec(h, steps, more);
    ArrivedStays(h, s, more);
    forall c: Client ensures AllDone(h, s.arrived, Exec(h, steps + more), c) {
      PipelineRefinesSequential(h, steps + more, c);
    }
  }
}
