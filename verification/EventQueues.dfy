/** The queues of the gateway: EventQue (queue, mutex, semaphore) and MessageQue. */
module EventQueues {
  import opened Wrappers

  /** EventQue<T>. Each method is one step that no other thread can see half of: a locked
      section, or a semaphore call. post is Push then Signal, wait is Take then Pop, timedwait
      is Take or nothing, then PopOrTimeout. */
  class EventQue<T> {
    var que: seq<T>
    var sem: nat

    constructor ()
      ensures que == [] && sem == 0
    {
      que, sem := [], 0;
    }

    method Push(ev: T)
      modifies this
      ensures que == old(que) + [ev] && sem == old(sem)
    {
      que := que + [ev];
    }

    method Signal()
      modifies this
      ensures sem == old(sem) + 1 && que == old(que)
    {
      sem := sem + 1;
    }

    /** sem_wait returns only once the value is positive. */
    method Take()
      requires sem > 0
      modifies this
      ensures sem == old(sem) - 1 && que == old(que)
    {
      sem := sem - 1;
    }

    /** front() and pop() under the lock; front() needs an element. */
    method Pop() returns (ev: T)
      requires que != []
      modifies this
      ensures [ev] + que == old(que) && sem == old(sem)
    {
      ev := que[0];
      que := que[1..];
    }

    method PopOrTimeout() returns (ev: Option<T>)
      modifies this
      ensures sem == old(sem)
      ensures ev.None? <==> old(que) == []
      ensures if ev.Some? then [ev.value] + que == old(que) else que == []
    {
      if que == [] {
        ev := None;
      } else {
        ev := Some(que[0]);
        que := que[1..];
      }
    }
  }

  /** MessageQue<T>: the message stays at the front until it is popped. */
  class MessageQue<T> {
    var que: seq<T>

    constructor ()
      ensures que == []
    {
      que := [];
    }

    method Push(msg: T)
      modifies this
      ensures que == old(que) + [msg]
    {
      que := que + [msg];
    }

    method GetMessage() returns (msg: Option<T>)
      ensures msg == if que == [] then None else Some(que[0])
    {
      if que != [] {
        msg := Some(que[0]);
      } else {
        msg := None;
      }
    }

    method Pop()
      modifies this
      ensures que == if old(que) == [] then [] else old(que)[1..]
    {
      if que != [] {
        que := que[1..];
      }
    }
  }

  // ---------- One EventQue, any number of threads ----------

  /** `unposted` threads have pushed and not yet signalled, `holding` ones have a token and have
      not yet popped, `timedOut` ones gave up waiting and have not yet locked. `posted` and
      `taken` are histories. `fault` records front() on an empty queue. */
  datatype Shared<T> = Shared(
    que: seq<T>, sem: nat, unposted: nat, holding: nat, timedOut: nat,
    posted: seq<T>, taken: seq<T>, fault: bool)

  datatype Step<T> =
    | Push(ev: T)
    | Signal
    | Take
    | GiveUp
    | Pop
    | PopOrTimeout(hasToken: bool)

  predicate Enabled<T>(s: Shared<T>, step: Step<T>) {
    match step
    case Push(_) => true
    case Signal => s.unposted > 0
    case Take => s.sem > 0
    case GiveUp => true
    case Pop => s.holding > 0
    case PopOrTimeout(hasToken) => if hasToken then s.holding > 0 else s.timedOut > 0
  }

  function Next<T>(s: Shared<T>, step: Step<T>): Shared<T>
    requires Enabled(s, step)
  {
    match step
    case Push(ev) => s.(que := s.que + [ev], unposted := s.unposted + 1, posted := s.posted + [ev])
    case Signal => s.(unposted := s.unposted - 1, sem := s.sem + 1)
    case Take => s.(sem := s.sem - 1, holding := s.holding + 1)
    case GiveUp => s.(timedOut := s.timedOut + 1)
    case Pop =>
      if s.que == [] then s.(holding := s.holding - 1, fault := true)
      else s.(holding := s.holding - 1, que := s.que[1..], taken := s.taken + [s.que[0]])
    case PopOrTimeout(hasToken) =>
      var s := if hasToken then s.(holding := s.holding - 1) else s.(timedOut := s.timedOut - 1);
      if s.que == [] then s else s.(que := s.que[1..], taken := s.taken + [s.que[0]])
  }

  function Exec<T>(steps: seq<Step<T>>): Shared<T> {
    if steps == [] then Shared([], 0, 0, 0, 0, [], [], false)
    else
      var s := Exec(steps[..|steps| - 1]);
      var step := steps[|steps| - 1];
      if Enabled(s, step) then Next(s, step) else s
  }

  /** Every consumer uses wait. */
  predicate WaitOnly<T>(steps: seq<Step<T>>) {
    forall i | 0 <= i < |steps| :: !steps[i].GiveUp? && !steps[i].PopOrTimeout?
  }

  /** Every consumer uses timedwait. */
  predicate TimedOnly<T>(steps: seq<Step<T>>) {
    forall i | 0 <= i < |steps| :: !steps[i].Pop?
  }

  lemma NextPostOrder<T>(s: Shared<T>, step: Step<T>)
    requires s.posted == s.taken + s.que && Enabled(s, step)
    ensures Next(s, step).posted == Next(s, step).taken + Next(s, step).que
  {
    if step.Push? {
      assert s.taken + (s.que + [step.ev]) == (s.taken + s.que) + [step.ev];
    } else if s.que != [] {
      assert (s.taken + [s.que[0]]) + s.que[1..] == s.taken + s.que;
    }
  }

  /** The events of the pushes among these steps. */
  function Pushed<T>(steps: seq<Step<T>>): seq<T> {
    if steps == [] then []
    else Pushed(steps[..|steps| - 1]) + if steps[|steps| - 1].Push? then [steps[|steps| - 1].ev] else []
  }

  /** In post order, exactly once, whatever the consumers. */
  lemma {:induction false} PostOrder<T>(steps: seq<Step<T>>)
    ensures var s := Exec(steps); s.posted == s.taken + s.que == Pushed(steps)
  {
    if steps != [] {
      PostOrder(steps[..|steps| - 1]);
      var s := Exec(steps[..|steps| - 1]);
      if Enabled(s, steps[|steps| - 1]) {
        NextPostOrder(s, steps[|steps| - 1]);
      }
    }
  }

  /** On a wait-only queue every element is accounted for, so front() always finds one. */
  lemma {:induction false} WaitQueueSafe<T>(steps: seq<Step<T>>)
    requires WaitOnly(steps)
    ensures var s := Exec(steps); !s.fault && |s.que| == s.sem + s.holding + s.unposted
  {
    if steps != [] {
      WaitQueueSafe(steps[..|steps| - 1]);
    }
  }

  /** With timedwait the same sum is only an upper bound on the length. */
  lemma {:induction false} TimedQueueBound<T>(steps: seq<Step<T>>)
    requires TimedOnly(steps)
    ensures var s := Exec(steps); !s.fault && |s.que| <= s.sem + s.holding + s.unposted
  {
    if steps != [] {
      TimedQueueBound(steps[..|steps| - 1]);
    }
  }

  /** The bound is not an equality, and mixing the two kinds of consumers on one queue is
      unsafe: a thread that timed out can take the element a token stands for. */
  lemma MixedConsumersFault<T>(ev: T)
    ensures
      var s := Exec([Push(ev), Signal, Take, GiveUp, PopOrTimeout(false)]);
      s.que == [] && s.holding == 1 && s.sem == 0
    ensures Exec([Push(ev), Signal, Take, GiveUp, PopOrTimeout(false), Pop]).fault
  {
    var a: seq<Step<T>> := [Push(ev)];
    var b := a + [Signal];
    var c := b + [Take];
    var d := c + [GiveUp];
    var e := d + [PopOrTimeout(false)];
    var f := e + [Pop];
    assert a[..0] == [] && b[..1] == a && c[..2] == b && d[..3] == c && e[..4] == d && f[..5] == e;
    assert Exec(a) == Shared([ev], 0, 1, 0, 0, [ev], [], false);
    assert Exec(b) == Shared([ev], 1, 0, 0, 0, [ev], [], false);
    assert Exec(c) == Shared([ev], 0, 0, 1, 0, [ev], [], false);
    assert Exec(d) == Shared([ev], 0, 0, 1, 1, [ev], [], false);
    assert Exec(e) == Shared([], 0, 0, 1, 0, [ev], [ev], false);
    assert e == [Push(ev), Signal, Take, GiveUp, PopOrTimeout(false)];
    assert f == [Push(ev), Signal, Take, GiveUp, PopOrTimeout(false), Pop];
  }
}
