/** Messages for all clients - ADVERTISE, the time, GWINFO - under every interleaving of the tasks. */
module PipelineBroadcasts {
  import opened Pipeline
  import opened PipelineProof

  // ---------- Announcements ----------

  function Announced<K, M>(evs: seq<Event<K, M>>): seq<M> {
    if evs == [] then [] else (if evs[0].Announcement? then [evs[0].a] else []) + Announced(evs[1..])
  }

  lemma {:induction false} AnnouncedAppend<K, M>(a: seq<Event<K, M>>, b: seq<Event<K, M>>)
    ensures Announced(a + b) == Announced(a) + Announced(b)
  {
    if a == [] {
      assert a + b == b;
    } else {
      assert (a + b)[1..] == a[1..] + b;
      AnnouncedAppend(a[1..], b);
      var first: seq<M> := if a[0].Announcement? then [a[0].a] else [];
      Regroup(first, Announced(a[1..]), Announced(b));
    }
  }

  lemma AnnouncedOne<K, M>(ev: Event<K, M>)
    ensures Announced([ev]) == if ev.Announcement? then [ev.a] else []
  {
    assert [ev][1..] == [];
  }

  /** What the control task has still to send to all. */
  function News<M>(todo: seq<Task<M>>): seq<M> {
    if todo == [] then [] else (if todo[0].Announce? then [todo[0].a] else []) + News(todo[1..])
  }

  lemma {:induction false} NewsOfAnnouncements<M>(news: seq<M>)
    ensures News(Announcements(news)) == news
  {
    if news != [] {
      NewsOfAnnouncements(news[1..]);
      assert Announcements(news)[1..] == Announcements(news[1..]);
    }
  }

  lemma {:induction false} NoNewsInReplies<M>(c: Client, outs: seq<Out<M>>)
    ensures News(Tasks(c, outs)) == []
  {
    if outs != [] {
      NoNewsInReplies(c, outs[1..]);
      assert Tasks(c, outs)[1..] == Tasks(c, outs[1..]);
    }
  }

  // ---------- From the control task to the radio ----------

  /** The control task makes its news on a timeout event, and for a SEARCHGW. */
  function MadeBy<S, M>(s: State<S, M>, step: Step<M>): seq<M> {
    if step.ControlTask? && ((s.ctl.Locking? && s.gw.que == []) || (s.ctl.Reading? && s.ctl.ev.Announcement?))
    then step.news else []
  }

  function Made<S, M>(h: Machine<S, M>, steps: seq<Step<M>>): seq<M> {
    if steps == [] then []
    else
      var before := steps[..|steps| - 1];
      Made(h, before) + MadeBy(Exec(h, before), steps[|steps| - 1])
  }

  /** Held by the sending task, queued for it, about to be posted, and still to be sent. */
  function OnTheWay<M>(
    w: Sender<Client, M>, que: seq<Event<Client, M>>, pend: seq<Event<Client, M>>, todo: seq<Task<M>>): seq<M>
  {
    Announced(UnsentOf(w)) + (Announced(que) + (Announced(pend) + News(todo)))
  }

  lemma TakeFirst<M>(que: seq<Event<Client, M>>, rest: seq<M>)
    requires que != []
    ensures [] + (Announced(que) + rest) == Announced([que[0]]) + (Announced(que[1..]) + rest)
  {
    AnnouncedOne(que[0]);
    var first: seq<M> := if que[0].Announcement? then [que[0].a] else [];
    assert Announced(que) == first + Announced(que[1..]);
    Regroup(first, Announced(que[1..]), rest);
    NothingFirst(Announced(que) + rest);
  }

  lemma NothingFirst<M>(a: seq<M>)
    ensures [] + a == a
  {
  }

  lemma HandOn<M>(aired: seq<M>, one: seq<M>, rest: seq<M>)
    ensures (aired + one) + ([] + rest) == aired + (one + rest)
  {
  }

  /** A step of the sending task. */
  lemma SenderConserves<M>(
    b: Box<Client, M>, w: Sender<Client, M>, pend: seq<Event<Client, M>>, todo: seq<Task<M>>, aired: seq<M>)
    ensures
      var r := SenderStep(b, w, true);
      (aired + r.aired) + OnTheWay(r.task, r.box.que, pend, todo) == aired + OnTheWay(w, b.que, pend, todo)
  {
    var rest := Announced(pend) + News(todo);
    match w {
      case Woken =>
        if b.que != [] {
          TakeFirst(b.que, rest);
        }
      case Holding(ev) =>
        AnnouncedOne(ev);
        HandOn(aired, if ev.Announcement? then [ev.a] else [], Announced(b.que) + rest);
      case _ =>
    }
    assert aired + [] == aired;
  }

  lemma PostNext<M>(que: seq<Event<Client, M>>, ev: Event<Client, M>, rest: seq<M>)
    ensures Announced(que + [ev]) + ([] + rest) == Announced(que) + (Announced([ev]) + rest)
  {
    AnnouncedAppend(que, [ev]);
  }

  /** One step of sending the replies. */
  lemma EmitConserves<M>(
    bs: Box<Client, M>, cs: Box<Client, M>, todo: seq<Task<M>>, stage: Stage<M>, w: Sender<Client, M>)
    requires stage.Between? ==> todo != []
    ensures
      var e := EmitStep(bs, cs, todo, stage);
      OnTheWay(w, e.cs.que, PostingDown(e.stage), e.todo) == OnTheWay(w, cs.que, PostingDown(stage), todo)
  {
    match stage {
      case PostDown(ev) => PostNext(cs.que, ev, News(todo));
      case Between => TaskNext(todo);
      case _ =>
    }
  }

  lemma TaskNext<M>(todo: seq<Task<M>>)
    requires todo != []
    ensures
      var first := match todo[0]
        case Announce(a) => [Announcement(a)]
        case Downstream(c, y) => [Mail(c, y)]
        case Upstream(_, _) => [];
      Announced<Client, M>(first) + News(todo[1..]) == [] + News(todo)
  {
    match todo[0] {
      case Announce(a) => AnnouncedOne<Client, M>(Announcement(a));
      case Downstream(c, y) => AnnouncedOne<Client, M>(Mail(c, y));
      case Upstream(_, _) =>
    }
  }

  function Flow<S, M>(s: State<S, M>): seq<M> {
    s.aired + OnTheWay(s.clientSend, s.cs.que, PendingDown(s.ctl), Todo(s.ctl))
  }

  lemma MakeNext<M>(w: Sender<Client, M>, que: seq<Event<Client, M>>, aired: seq<M>, news: seq<M>)
    ensures aired + OnTheWay(w, que, [], Announcements(news)) == aired + OnTheWay(w, que, [], []) + news
  {
    NewsOfAnnouncements(news);
  }

  lemma ReadingSearch<S, M>(h: Machine<S, M>, s: State<S, M>, timeout: bool, news: seq<M>)
    requires s.ctl.Reading? && s.ctl.ev.Announcement?
    ensures Flow(ControlStep(h, s, timeout, news)) == Flow(s) + news
  {
    MakeNext(s.clientSend, s.cs.que, s.aired, news);
  }

  lemma ReadingMail<S, M>(h: Machine<S, M>, s: State<S, M>, timeout: bool, news: seq<M>)
    requires s.ctl.Reading? && s.ctl.ev.Mail?
    ensures Flow(ControlStep(h, s, timeout, news)) == Flow(s)
  {
    var ev := s.ctl.ev;
    if s.gw.Fifo(ev.key) != [] {
      NoNewsInReplies(ev.key.client, h.step(NodeOf(h, s, ev.key.client), s.gw.Fifo(ev.key)[0]).outs);
    }
  }

  lemma Posting<S, M>(h: Machine<S, M>, s: State<S, M>, timeout: bool, news: seq<M>)
    requires s.ctl.Emitting? && !(s.ctl.stage.Between? && s.ctl.todo == [])
    ensures Flow(ControlStep(h, s, timeout, news)) == Flow(s)
  {
    var e := EmitStep(s.bs, s.cs, s.ctl.todo, s.ctl.stage);
    EmitConserves(s.bs, s.cs, s.ctl.todo, s.ctl.stage, s.clientSend);
    assert ControlStep(h, s, timeout, news) == s.(bs := e.bs, cs := e.cs, ctl := Emitting(s.ctl.hand, e.todo, e.stage));
  }

  lemma Deleting<S, M>(h: Machine<S, M>, s: State<S, M>, timeout: bool, news: seq<M>)
    requires s.ctl.Emitting? && s.ctl.stage.Between? && s.ctl.todo == []
    ensures Flow(ControlStep(h, s, timeout, news)) == Flow(s)
  {
    var gw := if s.ctl.hand == [] then s.gw else s.gw.Delete(s.ctl.hand[0]);
    assert ControlStep(h, s, timeout, news) == s.(gw := gw, ctl := Ready);
  }

  lemma Taking<S, M>(h: Machine<S, M>, s: State<S, M>, timeout: bool, news: seq<M>)
    requires s.ctl.Locking?
    ensures Flow(ControlStep(h, s, timeout, news)) == if s.gw.que == [] then Flow(s) + news else Flow(s)
  {
    MakeNext(s.clientSend, s.cs.que, s.aired, news);
  }

  lemma Waiting<S, M>(h: Machine<S, M>, s: State<S, M>, timeout: bool, news: seq<M>)
    requires s.ctl.Ready?
    ensures Flow(ControlStep(h, s, timeout, news)) == Flow(s)
  {
  }

  lemma ControlConserves<S, M>(h: Machine<S, M>, s: State<S, M>, timeout: bool, news: seq<M>)
    ensures Flow(ControlStep(h, s, timeout, news)) == Flow(s) + MadeBy(s, ControlTask(timeout, news))
  {
    match s.ctl {
      case Emitting(_, todo, stage) =>
        if stage.Between? && todo == [] {
          Deleting(h, s, timeout, news);
        } else {
          Posting(h, s, timeout, news);
        }
      case Reading(ev) =>
        if ev.Announcement? {
          ReadingSearch(h, s, timeout, news);
        } else {
          ReadingMail(h, s, timeout, news);
        }
      case Locking => Taking(h, s, timeout, news);
      case Ready => Waiting(h, s, timeout, news);
    }
  }

  /** Nothing appears, goes missing or overtakes in this step. */
  ghost predicate Conserves<S, M>(h: Machine<S, M>, s: State<S, M>, step: Step<M>) {
    Flow(Next(h, s, step)) == Flow(s) + MadeBy(s, step)
  }

  lemma ArriveConserves<S, M>(h: Machine<S, M>, s: State<S, M>, src: Source, m: M)
    ensures Conserves(h, s, Arrive(src, m))
  {
  }

  lemma SearchConserves<S, M>(h: Machine<S, M>, s: State<S, M>, a: M)
    ensures Conserves(h, s, Search(a))
  {
  }

  lemma ReceiversConserve<S, M>(h: Machine<S, M>, s: State<S, M>)
    ensures Conserves(h, s, ClientRecvTask) && Conserves(h, s, BrokerRecvTask)
  {
  }

  lemma TurnConserves<S, M>(h: Machine<S, M>, s: State<S, M>, timeout: bool, news: seq<M>)
    ensures Conserves(h, s, ControlTask(timeout, news))
  {
    ControlConserves(h, s, timeout, news);
  }

  lemma SendersConserve<S, M>(h: Machine<S, M>, s: State<S, M>)
    ensures Conserves(h, s, ClientSendTask) && Conserves(h, s, BrokerSendTask)
  {
    SenderConserves(s.cs, s.clientSend, PendingDown(s.ctl), Todo(s.ctl), s.aired);
  }

  lemma StepConserves<S, M>(h: Machine<S, M>, s: State<S, M>, step: Step<M>)
    ensures Conserves(h, s, step)
  {
    match step {
      case Arrive(src, m) => ArriveConserves(h, s, src, m);
      case Search(a) => SearchConserves(h, s, a);
      case ControlTask(timeout, news) => TurnConserves(h, s, timeout, news);
      case _ =>
        ReceiversConserve(h, s);
        SendersConserve(h, s);
    }
  }

  /** Under every interleaving, what the radio was given for all clients and what is on its way to
      it are exactly the announcements made, each once and in that order; and when nothing is in
      flight, all of them have been sent. */
  lemma {:induction false} AnnouncementsAreSent<S, M>(h: Machine<S, M>, steps: seq<Step<M>>)
    ensures
      var s := Exec(h, steps);
      && s.aired + OnTheWay(s.clientSend, s.cs.que, PendingDown(s.ctl), Todo(s.ctl)) == Made(h, steps)
      && (Quiescent(s) ==> s.aired == Made(h, steps))
  {
    if steps != [] {
      var before := steps[..|steps| - 1];
      AnnouncementsAreSent(h, before);
      StepConserves(h, Exec(h, before), steps[|steps| - 1]);
    }
  }

  // ---------- From the radio to the control task ----------

  /** A SEARCHGW is received while the receiving task is between messages. */
  function FoundBy<S, M>(s: State<S, M>, step: Step<M>): seq<M> {
    if step.Search? && s.clientRecv.Idle? then [step.a] else []
  }

  /** The control task turns to one. */
  function ReadBy<S, M>(s: State<S, M>, step: Step<M>): seq<M> {
    if step.ControlTask? && s.ctl.Reading? && s.ctl.ev.Announcement? then [s.ctl.ev.a] else []
  }

  function Found<S, M>(h: Machine<S, M>, steps: seq<Step<M>>): seq<M> {
    if steps == [] then []
    else
      var before := steps[..|steps| - 1];
      Found(h, before) + FoundBy(Exec(h, before), steps[|steps| - 1])
  }

  function ReadSearches<S, M>(h: Machine<S, M>, steps: seq<Step<M>>): seq<M> {
    if steps == [] then []
    else
      var before := steps[..|steps| - 1];
      ReadSearches(h, before) + ReadBy(Exec(h, before), steps[|steps| - 1])
  }

  /** In the hand of the control task, queued for it, and about to be posted. */
  function Waiters<M>(hand: seq<Event<Source, M>>, que: seq<Event<Source, M>>, r: Receiver<Source, M>): seq<M> {
    Announced(hand) + (Announced(que) + Announced(PendingOf(r)))
  }

  function Searching<S, M>(s: State<S, M>): seq<M> {
    Waiters(Unhandled(s.ctl), s.gw.que, s.clientRecv)
  }

  lemma TakeSearch<M>(que: seq<Event<Source, M>>, r: Receiver<Source, M>)
    requires que != []
    ensures Waiters([que[0]], que[1..], r) == Waiters([], que, r)
  {
    AnnouncedOne(que[0]);
    assert que == [que[0]] + que[1..];
    Regroup(Announced([que[0]]), Announced(que[1..]), Announced(PendingOf(r)));
  }

  lemma ReceiverPosts<M>(hand: seq<Event<Source, M>>, b: Box<Source, M>, r: Receiver<Source, M>)
    ensures var (b', r') := ReceiverStep(b, r); Waiters(hand, b'.que, r') == Waiters(hand, b.que, r)
  {
    if r.Pushed? {
      AnnouncedAppend(b.que, [r.ev]);
    }
  }

  lemma MailPosts<M>(hand: seq<Event<Source, M>>, b: Box<Source, M>, r: Receiver<Source, M>, client: Receiver<Source, M>)
    requires r.Pushed? ==> r.ev.Mail?
    ensures Waiters(hand, ReceiverStep(b, r).0.que, client) == Waiters(hand, b.que, client)
  {
    if r.Pushed? {
      AnnouncedAppend(b.que, [r.ev]);
      AnnouncedOne(r.ev);
      assert Announced(b.que) + [] == Announced(b.que);
    }
  }

  lemma SearchPushed<M>(hand: seq<Event<Source, M>>, que: seq<Event<Source, M>>, a: M)
    ensures Waiters(hand, que, Pushed(Announcement(a))) == Waiters(hand, que, Idle) + [a]
  {
    AnnouncedOne<Source, M>(Announcement(a));
    assert Announced(que) + [] == Announced(que);
    Regroup(Announced(hand), Announced(que), [a]);
  }

  lemma MailPushed<M>(hand: seq<Event<Source, M>>, que: seq<Event<Source, M>>, k: Source, m: M)
    ensures Waiters(hand, que, Pushed(Mail(k, m))) == Waiters(hand, que, Idle)
  {
    AnnouncedOne<Source, M>(Mail(k, m));
  }

  lemma ArriveSearching<S, M>(h: Machine<S, M>, s: State<S, M>, src: Source, m: M)
    ensures Searching(Next(h, s, Arrive(src, m))) == Searching(s)
  {
    MailPushed(Unhandled(s.ctl), s.gw.que, src, m);
  }

  lemma SearchRead<S, M>(h: Machine<S, M>, s: State<S, M>, timeout: bool, news: seq<M>)
    requires s.ctl.Reading? && s.ctl.ev.Announcement?
    ensures [s.ctl.ev.a] + Searching(ControlStep(h, s, timeout, news)) == Searching(s)
  {
    AnnouncedOne(s.ctl.ev);
    NothingFirst(Announced(s.gw.que) + Announced(PendingOf(s.clientRecv)));
  }

  lemma MailRead<S, M>(h: Machine<S, M>, s: State<S, M>, timeout: bool, news: seq<M>)
    requires s.ctl.Reading? && s.ctl.ev.Mail?
    ensures Searching(ControlStep(h, s, timeout, news)) == Searching(s)
  {
    AnnouncedOne(s.ctl.ev);
  }

  lemma DeletingSearching<S, M>(h: Machine<S, M>, s: State<S, M>, timeout: bool, news: seq<M>)
    requires s.ctl.Emitting? && s.ctl.stage.Between? && s.ctl.todo == []
    ensures Searching(ControlStep(h, s, timeout, news)) == Searching(s)
  {
    var gw := if s.ctl.hand == [] then s.gw else s.gw.Delete(s.ctl.hand[0]);
    assert ControlStep(h, s, timeout, news) == s.(gw := gw, ctl := Ready);
  }

  lemma PostingSearching<S, M>(h: Machine<S, M>, s: State<S, M>, timeout: bool, news: seq<M>)
    requires s.ctl.Emitting? && !(s.ctl.stage.Between? && s.ctl.todo == [])
    ensures Searching(ControlStep(h, s, timeout, news)) == Searching(s)
  {
    var e := EmitStep(s.bs, s.cs, s.ctl.todo, s.ctl.stage);
    assert ControlStep(h, s, timeout, news) == s.(bs := e.bs, cs := e.cs, ctl := Emitting(s.ctl.hand, e.todo, e.stage));
  }

  lemma TakingSearching<S, M>(h: Machine<S, M>, s: State<S, M>, timeout: bool, news: seq<M>)
    requires s.ctl.Locking? || s.ctl.Ready?
    ensures Searching(ControlStep(h, s, timeout, news)) == Searching(s)
  {
    if s.ctl.Locking? && s.gw.que != [] {
      TakeSearch(s.gw.que, s.clientRecv);
    }
  }

  lemma ControlSearching<S, M>(h: Machine<S, M>, s: State<S, M>, timeout: bool, news: seq<M>)
    ensures ReadBy(s, ControlTask(timeout, news)) + Searching(ControlStep(h, s, timeout, news)) == Searching(s)
  {
    NothingFirst(Searching(s));
    match s.ctl {
      case Emitting(_, todo, stage) =>
        if stage.Between? && todo == [] {
          DeletingSearching(h, s, timeout, news);
        } else {
          PostingSearching(h, s, timeout, news);
        }
      case Reading(ev) =>
        if ev.Announcement? {
          SearchRead(h, s, timeout, news);
        } else {
          MailRead(h, s, timeout, news);
        }
      case _ => TakingSearching(h, s, timeout, news);
    }
  }

  lemma StepSearching<S, M>(h: Machine<S, M>, s: State<S, M>, step: Step<M>)
    requires s.brokerRecv.Pushed? ==> s.brokerRecv.ev.Mail?
    ensures ReadBy(s, step) + Searching(Next(h, s, step)) == Searching(s) + FoundBy(s, step)
  {
    assert [] + Searching(s) == Searching(s) == Searching(s) + [];
    match step {
      case ControlTask(timeout, news) => ControlSearching(h, s, timeout, news);
      case Arrive(src, m) => ArriveSearching(h, s, src, m);
      case Search(a) => SearchPushed(Unhandled(s.ctl), s.gw.que, a);
      case ClientRecvTask => ReceiverPosts(Unhandled(s.ctl), s.gw, s.clientRecv);
      case BrokerRecvTask => MailPosts(Unhandled(s.ctl), s.gw, s.brokerRecv, s.clientRecv);
      case _ =>
    }
  }

  lemma ChainSearches<M>(read: seq<M>, one: seq<M>, after: seq<M>, before: seq<M>, more: seq<M>, found: seq<M>)
    requires one + after == before + more && read + before == found
    ensures (read + one) + after == found + more
  {
    Regroup(read, one, after);
    Regroup(read, before, more);
  }

  /** Under every interleaving, the searches that the control task has turned to and those still on
      their way to it are exactly the ones received, each once and in order. */
  lemma {:induction false} SearchesAreRead<S, M>(h: Machine<S, M>, steps: seq<Step<M>>)
    ensures
      var s := Exec(h, steps);
      && ReadSearches(h, steps) + Searching(s) == Found(h, steps)
      && (Quiescent(s) ==> ReadSearches(h, steps) == Found(h, steps))
  {
    if steps != [] {
      var before, step := steps[..|steps| - 1], steps[|steps| - 1];
      var s := Exec(h, before);
      SearchesAreRead(h, before);
      ExecInv(h, before);
      StepSearching(h, s, step);
      ChainSearches(ReadSearches(h, before), ReadBy(s, step), Searching(Exec(h, steps)), Searching(s),
        FoundBy(s, step), Found(h, before));
    }
  }
}
