/** One slot for a waiting acknowledgement, and what it correlates, apart from any message. */
module AckSlot {
  import opened Wrappers
  import opened Bytes
  import opened Gateway

  /** A request with a non-zero message id is forwarded, the broker acknowledges an id, or
      neither. */
  datatype AckEvent = Forward(topicId: uint16, msgId: uint16) | Ack(id: uint16) | Other

  datatype Slot = Slot(made: seq<AckObject>, waited: Option<nat>)
  {
    predicate Answered(ev: AckEvent) {
      ev.Ack? && waited.Some? && waited.value < |made| && made[waited.value].msgId == ev.id
    }

    function Next(ev: AckEvent): Slot {
      if ev.Forward? then Slot(made + [AckObject(ev.topicId, ev.msgId)], Some(|made|))
      else if Answered(ev) then Slot(made, None)
      else this
    }
  }

  function SlotAfter(evs: seq<AckEvent>): Slot {
    if evs == [] then Slot([], None) else SlotAfter(evs[..|evs| - 1]).Next(evs[|evs| - 1])
  }

  /** The request at i is the latest one forwarded, and unanswered so far. */
  ghost predicate Pending(evs: seq<AckEvent>, i: nat) {
    && i < |evs| && evs[i].Forward?
    && (forall k | i < k < |evs| :: !evs[k].Forward? && evs[k] != Ack(evs[i].msgId))
  }

  ghost predicate SomePending(evs: seq<AckEvent>) {
    exists i: nat :: Pending(evs, i)
  }

  /** Event j is the first acknowledgement of the request at i, none being forwarded in between. */
  ghost predicate Answers(evs: seq<AckEvent>, i: nat, j: nat) {
    && i < j < |evs| && evs[i].Forward? && evs[j] == Ack(evs[i].msgId)
    && (forall k | i < k < j :: !evs[k].Forward? && evs[k] != Ack(evs[i].msgId))
  }

  lemma AnswersPending(evs: seq<AckEvent>, i: nat, j: nat)
    requires j < |evs|
    ensures Answers(evs, i, j) <==> Pending(evs[..j], i) && evs[j] == Ack(evs[i].msgId)
  {
    if Pending(evs[..j], i) {
      assert forall k | i < k < j :: evs[..j][k] == evs[k];
    }
  }

  lemma PendingNext(evs: seq<AckEvent>, ev: AckEvent, i: nat)
    ensures Pending(evs + [ev], i) <==>
      if ev.Forward? then i == |evs| else Pending(evs, i) && ev != Ack(evs[i].msgId)
  {
    var more := evs + [ev];
    assert more[|evs|] == ev;
    if Pending(more, i) && i < |evs| {
      assert forall k | i < k < |evs| :: evs[k] == more[k];
    }
  }

  lemma {:induction false} SlotIsPending(evs: seq<AckEvent>)
    ensures
      var s := SlotAfter(evs);
      && (s.waited.Some? <==> SomePending(evs))
      && (s.waited.Some? ==> s.waited.value == |s.made| - 1)
      && (forall i: nat | Pending(evs, i) ::
            s.waited.Some? && s.made[s.waited.value] == AckObject(evs[i].topicId, evs[i].msgId))
    decreases |evs|
  {
    if evs != [] {
      var before, ev := evs[..|evs| - 1], evs[|evs| - 1];
      assert evs == before + [ev];
      SlotIsPending(before);
      forall i: nat
        ensures Pending(evs, i) <==>
          if ev.Forward? then i == |before| else Pending(before, i) && ev != Ack(before[i].msgId)
      {
        PendingNext(before, ev, i);
      }
      if ev.Forward? {
        assert Pending(evs, |before|);
      }
    }
  }

  lemma {:induction false} SlotGrows(evs: seq<AckEvent>, more: seq<AckEvent>)
    ensures SlotAfter(evs).made <= SlotAfter(evs + more).made
    ensures SlotAfter(evs).waited == None && SlotAfter(evs + more).waited.Some?
      ==> SlotAfter(evs + more).waited.value >= |SlotAfter(evs).made|
    decreases |more|
  {
    if more == [] {
      assert evs + more == evs;
    } else {
      assert (evs + more)[..|evs + more| - 1] == evs + more[..|more| - 1];
      SlotGrows(evs, more[..|more| - 1]);
    }
  }

  lemma AcceptedObject(evs: seq<AckEvent>, i: nat, j: nat)
    requires Answers(evs, i, j)
    ensures
      var s := SlotAfter(evs[..j]);
      && s.Answered(evs[j]) && SlotAfter(evs[..j + 1]) == Slot(s.made, None)
      && s.made[s.waited.value] == AckObject(evs[i].topicId, evs[i].msgId)
  {
    SlotIsPending(evs[..j]);
    AnswersPending(evs, i, j);
    assert evs[..j + 1][..j] == evs[..j];
  }

  /** At most one per request, and each for one request only. */
  lemma AckOnce(evs: seq<AckEvent>, i: nat, j: nat, i': nat, j': nat)
    requires Answers(evs, i, j) && Answers(evs, i', j')
    ensures i == i' <==> j == j'
  {
  }

  ghost predicate Released(before: Slot, now: Slot, k: nat) {
    now.waited != Some(k) && k < |before.made| <= |now.made| && now.made[k] == before.made[k]
  }

  lemma ReleasedFrom(evs: seq<AckEvent>, m: nat, k: nat)
    requires m <= |evs| && SlotAfter(evs[..m]).waited == None && k < |SlotAfter(evs[..m]).made|
    ensures Released(SlotAfter(evs[..m]), SlotAfter(evs), k)
  {
    assert evs == evs[..m] + evs[m..];
    SlotGrows(evs[..m], evs[m..]);
  }

  lemma AcceptedSlot(evs: seq<AckEvent>, ev: AckEvent)
    requires SlotAfter(evs).Answered(ev)
    ensures SlotAfter(evs + [ev]) == Slot(SlotAfter(evs).made, None)
  {
    assert (evs + [ev])[..|evs|] == evs;
  }
}
