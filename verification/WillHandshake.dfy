/** The will handshake (section 6.2 of MQTT-SN v1.2) over runs of the handlers, and who owns the
    MQTT CONNECT object. */
module WillHandshake {
  import opened Wrappers
  import opened Bytes
  import opened MqttCodec
  import opened Pipeline
  import opened Gateway
  import opened GatewayRuns
  import MqttReference

  // ---------- The slot alone ----------

  predicate IsConnect(item: Item) {
    item.FromClient? && item.sn.SnConnect?
  }

  predicate WantsWill(item: Item) {
    IsConnect(item) && HasBit(item.sn.flags, 0x08)
  }

  predicate IsWillTopic(item: Item) {
    item.FromClient? && item.sn.SnWillTopic?
  }

  predicate IsWillMsg(item: Item) {
    item.FromClient? && item.sn.SnWillMsg?
  }

  /** All CONNECT objects made, the slot, and the references queued for the broker so far. */
  datatype Handshake = Handshake(connects: seq<Connect>, slot: Option<nat>, queued: seq<nat>)

  function Opened(id: Str, item: Item): Connect
    requires IsConnect(item)
  {
    var c := NewConnect(id, item.sn.duration);
    if HasBit(item.sn.flags, 0x04) then c.SetCleanSessionFlg() else c
  }

  function Next(id: Str, h: Handshake, item: Item): Handshake {
    if IsConnect(item) then
      var k := |h.connects|;
      Handshake(h.connects + [Opened(id, item)], Some(k), h.queued + if WantsWill(item) then [] else [k])
    else if h.slot.None? || h.slot.value >= |h.connects| then h
    else
      var k := h.slot.value;
      if IsWillTopic(item) then
        h.(connects := h.connects[k := h.connects[k].SetWillTopic(item.sn.topic).SetWillQosZero()])
      else if IsWillMsg(item) then
        Handshake(h.connects[k := h.connects[k].SetWillMessage(item.sn.message)], None, h.queued + [k])
      else h
  }

  function HandshakeAt(id: Str, log: seq<Item>, n: nat): Handshake
    requires n <= |log|
  {
    if n == 0 then Handshake([], None, []) else Next(id, HandshakeAt(id, log, n - 1), log[n - 1])
  }

  function ConnectRefs(outs: seq<Out<Item>>): seq<nat> {
    if outs == [] then []
    else (if outs[0].ToBroker? && outs[0].x.ConnectAt? then [outs[0].x.k] else []) + ConnectRefs(outs[1..])
  }

  function QueuedConnects(id: Str, log: seq<Item>, n: nat): seq<nat>
    requires n <= |log|
  {
    if n == 0 then [] else QueuedConnects(id, log, n - 1) + ConnectRefs(OutsAt(id, log, n - 1))
  }

  lemma RefsOfOne(o: Out<Item>)
    ensures ConnectRefs([o]) == if o.ToBroker? && o.x.ConnectAt? then [o.x.k] else []
  {
    assert [o][1..] == [];
  }

  lemma RefsOfTwo(o: Out<Item>, p: Out<Item>)
    requires !(o.ToBroker? && o.x.ConnectAt?) && !(p.ToBroker? && p.x.ConnectAt?)
    ensures ConnectRefs([o, p]) == []
  {
    assert [o, p][1..] == [p];
    RefsOfOne(p);
  }

  lemma RefsStep(n: Node, item: Item)
    ensures ConnectRefs(Handle(n, item).outs) ==
      if IsConnect(item) && !WantsWill(item) then [|n.connects|]
      else if IsWillMsg(item) && n.connect.Some? then [n.connect.value]
      else []
  {
    var outs := Handle(n, item).outs;
    if |outs| == 1 {
      assert outs == [outs[0]];
      RefsOfOne(outs[0]);
    } else if |outs| == 2 {
      assert outs == [outs[0], outs[1]];
      RefsOfTwo(outs[0], outs[1]);
    }
  }

  lemma HandshakeStep(n: Node, item: Item, queued: seq<nat>)
    ensures
      var r := Handle(n, item);
      Handshake(r.st.connects, r.st.connect, queued + ConnectRefs(r.outs))
        == Next(n.clientId, Handshake(n.connects, n.connect, queued), item)
    ensures Handle(n, item).st.clientId == n.clientId
  {
    RefsStep(n, item);
    SlotStep(n, item, queued);
    assert queued + [] == queued;
  }

  ghost predicate SameSlot(n: Node, item: Item, queued: seq<nat>) {
    var r, t := Handle(n, item).st, Next(n.clientId, Handshake(n.connects, n.connect, queued), item);
    r.connects == t.connects && r.connect == t.slot && r.clientId == n.clientId
  }

  lemma SlotStep(n: Node, item: Item, queued: seq<nat>)
    ensures SameSlot(n, item, queued)
  {
    if IsConnect(item) || IsWillTopic(item) || IsWillMsg(item) {
      HandshakeMessage(n, item, queued);
    } else {
      OtherMessage(n, item, queued);
    }
  }

  lemma HandshakeMessage(n: Node, item: Item, queued: seq<nat>)
    requires IsConnect(item) || IsWillTopic(item) || IsWillMsg(item)
    ensures SameSlot(n, item, queued)
  {
  }

  lemma OtherMessage(n: Node, item: Item, queued: seq<nat>)
    requires !IsConnect(item) && !IsWillTopic(item) && !IsWillMsg(item)
    ensures SameSlot(n, item, queued)
  {
  }

  lemma HandshakeOfState(id: Str, log: seq<Item>, n: nat)
    requires n <= |log|
    ensures var s := At(id, log, n);
      s.clientId == id && Handshake(s.connects, s.connect, QueuedConnects(id, log, n)) == HandshakeAt(id, log, n)
  {
    var s, queued, h := HandshakeRun(id, log, n);
  }

  /** The state, the queued references and the handshake, step by step. */
  lemma {:induction false} HandshakeRun(id: Str, log: seq<Item>, n: nat) returns (s: Node, queued: seq<nat>, h: Handshake)
    requires n <= |log|
    ensures s == At(id, log, n) && queued == QueuedConnects(id, log, n) && h == HandshakeAt(id, log, n)
    ensures s.clientId == id && Handshake(s.connects, s.connect, queued) == h
    decreases n
  {
    if n > 0 {
      s, queued, h := HandshakeRun(id, log, n - 1);
      HandshakeStep(s, log[n - 1], queued);
    }
    s, queued, h := At(id, log, n), QueuedConnects(id, log, n), HandshakeAt(id, log, n);
  }

  // ---------- What the slot means ----------

  /** The CONNECT whose object the slot holds: the latest one, with no WILLMSG since. */
  ghost predicate Open(log: seq<Item>, j: nat, n: nat) {
    && j < n <= |log| && IsConnect(log[j])
    && (forall t | j < t < n :: !IsConnect(log[t]) && !IsWillMsg(log[t]))
  }

  /** The topic of the last WILLTOPIC after j. */
  function LastTopic(log: seq<Item>, j: nat, n: nat): Option<Str>
    requires j < n <= |log|
    decreases n
  {
    if n == j + 1 then None
    else if IsWillTopic(log[n - 1]) then Some(log[n - 1].sn.topic)
    else LastTopic(log, j, n - 1)
  }

  /** What has become of the CONNECT made at j: WILLTOPIC clears every flag (setWillQos masks). */
  function Prepared(id: Str, log: seq<Item>, j: nat, n: nat): Connect
    requires j < n <= |log| && IsConnect(log[j])
  {
    var c := Opened(id, log[j]);
    match LastTopic(log, j, n) case None => c case Some(t) => c.(willTopic := t, connectFlags := 0)
  }

  ghost predicate SlotSpec(id: Str, log: seq<Item>, n: nat, h: Handshake)
    requires n <= |log|
  {
    && (h.slot.Some? ==> h.slot.value == |h.connects| - 1 && exists j: nat :: Open(log, j, n))
    && (forall j: nat | Open(log, j, n) ::
          && h.slot.Some? && h.connects[h.slot.value] == Prepared(id, log, j, n)
          && (h.slot.value in h.queued <==> !WantsWill(log[j])))
    && (forall k | k in h.queued :: k < |h.connects|)
  }

  lemma OpenNext(log: seq<Item>, j: nat, n: nat)
    requires n < |log|
    ensures Open(log, j, n + 1) <==>
      if IsConnect(log[n]) then j == n else Open(log, j, n) && !IsWillMsg(log[n])
  {
  }

  lemma {:induction false} SlotMeaning(id: Str, log: seq<Item>, n: nat)
    requires n <= |log|
    ensures SlotSpec(id, log, n, HandshakeAt(id, log, n))
    decreases n
  {
    if n > 0 {
      SlotMeaning(id, log, n - 1);
      SlotMeaningStep(id, log, n - 1, HandshakeAt(id, log, n - 1));
    }
  }

  lemma SlotMeaningStep(id: Str, log: seq<Item>, n: nat, h: Handshake)
    requires n < |log| && SlotSpec(id, log, n, h)
    ensures SlotSpec(id, log, n + 1, Next(id, h, log[n]))
  {
    if IsConnect(log[n]) {
      SlotOnConnect(id, log, n, h);
    } else {
      SlotOnOther(id, log, n, h);
    }
  }

  lemma SlotOnConnect(id: Str, log: seq<Item>, n: nat, h: Handshake)
    requires n < |log| && SlotSpec(id, log, n, h) && IsConnect(log[n])
    ensures SlotSpec(id, log, n + 1, Next(id, h, log[n]))
  {
    var next := n + 1;
    forall j: nat ensures Open(log, j, next) <==> j == n {
      OpenNext(log, j, n);
    }
    assert Open(log, n, next);
  }

  lemma SlotOnOther(id: Str, log: seq<Item>, n: nat, h: Handshake)
    requires n < |log| && SlotSpec(id, log, n, h) && !IsConnect(log[n])
    ensures SlotSpec(id, log, n + 1, Next(id, h, log[n]))
  {
    forall j: nat ensures Open(log, j, n + 1) <==> Open(log, j, n) && !IsWillMsg(log[n]) {
      OpenNext(log, j, n);
    }
    if h.slot.Some? && !IsWillMsg(log[n]) {
      var j: nat :| Open(log, j, n);
      assert Open(log, j, n + 1);
    }
  }

  // ---------- The handshake ----------

  lemma {:induction false} SilentQueue(id: Str, log: seq<Item>, j: nat, n: nat)
    requires Open(log, j, n) && WantsWill(log[j])
    ensures HandshakeAt(id, log, n).queued == HandshakeAt(id, log, j).queued
    decreases n
  {
    if n == j + 1 {
      var q := HandshakeAt(id, log, j).queued;
      assert q + [] == q;
    } else {
      SilentQueue(id, log, j, n - 1);
    }
  }

  /** No MQTT CONNECT is queued from a CONNECT with the Will flag until a WILLMSG. */
  lemma SilentUntilWillMsg(id: Str, log: seq<Item>, j: nat, n: nat)
    requires Open(log, j, n) && WantsWill(log[j])
    ensures QueuedConnects(id, log, n) == QueuedConnects(id, log, j)
  {
    SilentQueue(id, log, j, n);
    HandshakeOfState(id, log, j);
    HandshakeOfState(id, log, n);
  }

  /** The CONNECT at j completed by the WILLMSG at n: the Will flag, this message, the last WILLTOPIC
      since the CONNECT, client id and duration; clean session unless a WILLTOPIC came. */
  ghost predicate Completed(id: Str, log: seq<Item>, j: nat, n: nat, c: Connect)
    requires j < n < |log| && IsConnect(log[j]) && IsWillMsg(log[n])
  {
    && HasBit(c.connectFlags, WILL_FLAG) && c.willMessage == log[n].sn.message
    && c.willTopic == (match LastTopic(log, j, n) case None => [] case Some(t) => t)
    && c.clientId == id && c.keepAlive == log[j].sn.duration
    && (HasBit(c.connectFlags, 2) <==> HasBit(log[j].sn.flags, 0x04) && LastTopic(log, j, n) == None)
  }

  /** What the WILLMSG queues: the object of that CONNECT, which was not queued before. */
  ghost predicate Completes(id: Str, log: seq<Item>, j: nat, n: nat, h: Handshake, next: Handshake)
    requires j < n < |log| && IsConnect(log[j]) && IsWillMsg(log[n])
  {
    && h.slot.Some? && h.slot.value < |next.connects| && h.slot.value !in h.queued
    && next.slot == None && next.queued == h.queued + [h.slot.value]
    && Completed(id, log, j, n, next.connects[h.slot.value])
  }

  lemma WillMsgCompletes(id: Str, log: seq<Item>, j: nat, n: nat)
    requires Open(log, j, n) && WantsWill(log[j]) && n < |log| && IsWillMsg(log[n])
    ensures Completes(id, log, j, n, HandshakeAt(id, log, n), HandshakeAt(id, log, n + 1))
  {
    SlotMeaning(id, log, n);
  }

  /** In terms of the handlers: exactly that one message is sent. */
  lemma WillConnectQueued(id: Str, log: seq<Item>, j: nat, n: nat)
    requires Open(log, j, n) && WantsWill(log[j]) && n < |log| && IsWillMsg(log[n])
    ensures
      var k := HandshakeAt(id, log, n).slot;
      && k.Some? && OutsAt(id, log, n) == [ToBroker(ConnectAt(k.value))]
  {
    SlotMeaning(id, log, n);
    HandshakeOfState(id, log, n);
  }

  ghost predicate SaysConnack(outs: seq<Out<Item>>) {
    exists rc: byte :: ToClient(ForClient(SnConnack(rc))) in outs
  }

  lemma ConnackStep(n: Node, item: Item)
    ensures SaysConnack(Handle(n, item).outs) <==>
      (item.FromBroker? && item.packet.ConnAck?) || (IsWillMsg(item) && n.connect == None)
  {
    var outs := Handle(n, item).outs;
    if item.FromBroker? && item.packet.ConnAck? {
      assert ToClient(ForClient(SnConnack(if item.packet.returnCode != 0 then RC_NOT_SUPPORTED else RC_ACCEPTED))) in outs;
    } else if IsWillMsg(item) && n.connect == None {
      assert ToClient(ForClient(SnConnack(RC_CONGESTION))) in outs;
    }
  }

  /** The client gets a CONNACK exactly for one of the broker, and for a WILLMSG that comes when no
      handshake is open. */
  lemma ConnackIff(id: Str, log: seq<Item>, n: nat)
    requires n < |log|
    ensures SaysConnack(OutsAt(id, log, n)) <==>
      (log[n].FromBroker? && log[n].packet.ConnAck?) || (IsWillMsg(log[n]) && !exists j: nat :: Open(log, j, n))
  {
    ConnackStep(At(id, log, n), log[n]);
    HandshakeOfState(id, log, n);
    SlotMeaning(id, log, n);
  }

  // ---------- Ownership ----------

  function Count(ks: seq<nat>, k: nat): nat {
    if ks == [] then 0 else (if ks[|ks| - 1] == k then 1 else 0) + Count(ks[..|ks| - 1], k)
  }

  lemma CountSnoc(ks: seq<nat>, j: nat, k: nat)
    ensures Count(ks + [j], k) == Count(ks, k) + if j == k then 1 else 0
  {
    assert (ks + [j])[..|ks|] == ks;
  }

  /** An object that has left the slot is never written or queued again. */
  ghost predicate Released(h: Handshake, now: Handshake, k: nat) {
    && k < |h.connects| <= |now.connects| && now.connects[k] == h.connects[k]
    && now.slot != Some(k) && Count(now.queued, k) == Count(h.queued, k)
  }

  lemma ReleasedForEver(id: Str, log: seq<Item>, m: nat, n: nat, k: nat)
    requires m <= n <= |log|
    requires k < |HandshakeAt(id, log, m).connects| && HandshakeAt(id, log, m).slot != Some(k)
    ensures Released(HandshakeAt(id, log, m), HandshakeAt(id, log, n), k)
  {
    var now := ReleasedRun(id, log, m, n, k, HandshakeAt(id, log, m));
  }

  lemma {:induction false} ReleasedRun(id: Str, log: seq<Item>, m: nat, n: nat, k: nat, was: Handshake) returns (now: Handshake)
    requires m <= n <= |log|
    requires was == HandshakeAt(id, log, m) && k < |was.connects| && was.slot != Some(k)
    ensures now == HandshakeAt(id, log, n) && Released(was, now, k)
    decreases n
  {
    if m == n {
      now := was;
    } else {
      now := ReleasedRun(id, log, m, n - 1, k, was);
      ReleasedStep(id, was, now, log[n - 1], k);
      now := HandshakeAt(id, log, n);
    }
  }

  lemma ReleasedStep(id: Str, was: Handshake, h: Handshake, item: Item, k: nat)
    requires Released(was, h, k)
    ensures Released(was, Next(id, h, item), k)
  {
    NextShape(id, h, item);
    ReleasedByShape(was, h, Next(id, h, item), k);
  }

  /** A step writes at most the object in the slot, and queues at most that one or a new one. */
  ghost predicate Shape(h: Handshake, t: Handshake) {
    && |h.connects| <= |t.connects|
    && (forall k | 0 <= k < |h.connects| && h.slot != Some(k) :: t.connects[k] == h.connects[k])
    && (t.slot == h.slot || t.slot == None || t.slot == Some(|h.connects|))
    && (|| t.queued == h.queued
        || t.queued == h.queued + [|h.connects|]
        || (h.slot.Some? && t.queued == h.queued + [h.slot.value]))
  }

  lemma NextShape(id: Str, h: Handshake, item: Item)
    ensures Shape(h, Next(id, h, item))
  {
    assert h.queued + [] == h.queued;
  }

  lemma ReleasedByShape(was: Handshake, h: Handshake, t: Handshake, k: nat)
    requires Released(was, h, k) && Shape(h, t)
    ensures Released(was, t, k)
  {
    CountSnoc(h.queued, |h.connects|, k);
    if h.slot.Some? {
      CountSnoc(h.queued, h.slot.value, k);
    }
  }

  lemma {:induction false} CountZero(ks: seq<nat>, k: nat)
    ensures Count(ks, k) == 0 <==> k !in ks
  {
    if ks != [] {
      CountZero(ks[..|ks| - 1], k);
      assert ks == ks[..|ks| - 1] + [ks[|ks| - 1]];
    }
  }

  /** The CONNECT queued by a will handshake is in the queue once and for all: whatever comes
      later, it is in no slot, its content is what it was, and it was queued exactly once. */
  lemma WillConnectIsFinal(id: Str, log: seq<Item>, j: nat, n: nat, later: nat, k: nat)
    requires Open(log, j, n) && WantsWill(log[j]) && n < later <= |log| && IsWillMsg(log[n])
    requires OutsAt(id, log, n) == [ToBroker(ConnectAt(k))]
    ensures
      var h, now := HandshakeAt(id, log, n + 1), HandshakeAt(id, log, later);
      Released(h, now, k) && Count(now.queued, k) == 1
  {
    WillConnectQueued(id, log, j, n);
    FinalByQueue(id, log, j, n, later, k);
  }

  lemma FinalByQueue(id: Str, log: seq<Item>, j: nat, n: nat, later: nat, k: nat)
    requires Open(log, j, n) && WantsWill(log[j]) && n < later <= |log| && IsWillMsg(log[n])
    requires HandshakeAt(id, log, n).slot == Some(k)
    ensures
      var h, now := HandshakeAt(id, log, n + 1), HandshakeAt(id, log, later);
      Released(h, now, k) && Count(now.queued, k) == 1
  {
    var h := HandshakeAt(id, log, n);
    WillMsgCompletes(id, log, j, n);
    ReleasedForEver(id, log, n + 1, later, k);
    CountSnoc(h.queued, k, k);
    CountZero(h.queued, k);
  }

  /** The CONNECT at j made object k. */
  predicate MadeBy(id: Str, log: seq<Item>, j: nat, k: nat) {
    j < |log| && IsConnect(log[j]) && |HandshakeAt(id, log, j).connects| == k
  }

  /** While the CONNECT at j is open, its object is the latest. */
  lemma {:induction false} OpenIsLatest(id: Str, log: seq<Item>, j: nat, n: nat)
    requires Open(log, j, n)
    ensures |HandshakeAt(id, log, n).connects| == |HandshakeAt(id, log, j).connects| + 1
    decreases n
  {
    if n > j + 1 {
      OpenIsLatest(id, log, j, n - 1);
    }
  }

  /** Where a queued object comes from: a CONNECT without a will, or the WILLMSG of a handshake. */
  lemma {:induction false} QueuedFrom(id: Str, log: seq<Item>, n: nat, k: nat) returns (j: nat, w: nat)
    requires n <= |log| && k in HandshakeAt(id, log, n).queued
    ensures j < n && MadeBy(id, log, j, k)
    ensures WantsWill(log[j]) ==> Open(log, j, w) && w < n && IsWillMsg(log[w]) && HandshakeAt(id, log, w).slot == Some(k)
    decreases n
  {
    var h := HandshakeAt(id, log, n - 1);
    if k in h.queued {
      j, w := QueuedFrom(id, log, n - 1, k);
    } else {
      NewlyQueued(id, h, log[n - 1], k);
      j, w := n - 1, n - 1;
      if IsWillMsg(log[n - 1]) {
        SlotMeaning(id, log, n - 1);
        j :| Open(log, j, n - 1);
        OpenIsLatest(id, log, j, n - 1);
      }
    }
  }

  lemma NewlyQueued(id: Str, h: Handshake, item: Item, k: nat)
    requires k in Next(id, h, item).queued && k !in h.queued
    ensures (IsConnect(item) && !WantsWill(item) && k == |h.connects|) || (IsWillMsg(item) && h.slot == Some(k))
  {
    assert h.queued + [] == h.queued;
  }

  ghost predicate HasCompleted(id: Str, log: seq<Item>, j: nat, c: Connect) {
    exists w: nat :: Open(log, j, w) && w < |log| && IsWillMsg(log[w]) && Completed(id, log, j, w, c)
  }

  /** In any run, a queued object whose CONNECT wanted a will was queued once, is out of the slot,
      and has been completed by the WILLMSG of that handshake. */
  lemma QueuedWillsAreComplete(id: Str, log: seq<Item>, k: nat) returns (j: nat)
    requires k in HandshakeAt(id, log, |log|).queued
    ensures
      var now := HandshakeAt(id, log, |log|);
      && MadeBy(id, log, j, k) && k < |now.connects|
      && (WantsWill(log[j]) ==>
            now.slot != Some(k) && Count(now.queued, k) == 1 && HasCompleted(id, log, j, now.connects[k]))
  {
    var n, w := |log|, 0;
    SlotMeaning(id, log, n);
    j, w := QueuedFrom(id, log, n, k);
    if WantsWill(log[j]) {
      WillMsgCompletes(id, log, j, w);
      FinalByQueue(id, log, j, w, n, k);
      assert Completed(id, log, j, w, HandshakeAt(id, log, n).connects[k]);
    }
  }

  // ---------- Sharing on the path without a will ----------

  /** The latest handshake is a CONNECT without the Will flag. */
  ghost predicate SharedAt(log: seq<Item>, n: nat) {
    exists j: nat :: Open(log, j, n) && !WantsWill(log[j])
  }

  /** The object is in the slot and in the queue at once exactly then. */
  lemma SharedIff(id: Str, log: seq<Item>, n: nat)
    requires n <= |log|
    ensures
      var s := At(id, log, n);
      s.connect.Some? && s.connect.value in QueuedConnects(id, log, n) <==> SharedAt(log, n)
  {
    SlotMeaning(id, log, n);
    HandshakeOfState(id, log, n);
    SharedInHandshake(id, log, n, HandshakeAt(id, log, n));
  }

  lemma SharedInHandshake(id: Str, log: seq<Item>, n: nat, h: Handshake)
    requires n <= |log| && SlotSpec(id, log, n, h)
    ensures h.slot.Some? && h.slot.value in h.queued <==> SharedAt(log, n)
  {
  }

  ghost predicate NoneTwice(ks: seq<nat>) {
    forall k: nat :: Count(ks, k) <= 1
  }

  /** No object is queued twice (and deleted twice by the sending task) if and only if no WILLMSG
      comes while the object is shared. */
  lemma {:induction false} QueuedOnceIff(id: Str, log: seq<Item>, n: nat)
    requires n <= |log|
    ensures NoneTwice(HandshakeAt(id, log, n).queued) <==> forall t | 0 <= t < n :: IsWillMsg(log[t]) ==> !SharedAt(log, t)
    decreases n
  {
    if n > 0 {
      var h, item := HandshakeAt(id, log, n - 1), log[n - 1];
      QueuedOnceIff(id, log, n - 1);
      SlotMeaning(id, log, n - 1);
      SharedInHandshake(id, log, n - 1, h);
      QueueStep(id, h, item);
    }
  }

  predicate Fits(h: Handshake) {
    && (h.slot.Some? ==> h.slot.value < |h.connects|)
    && (forall k | k in h.queued :: k < |h.connects|)
  }

  lemma QueueStep(id: Str, h: Handshake, item: Item)
    requires Fits(h)
    ensures NoneTwice(Next(id, h, item).queued)
      <==> NoneTwice(h.queued) && !(IsWillMsg(item) && h.slot.Some? && h.slot.value in h.queued)
  {
    assert h.queued + [] == h.queued;
    if IsConnect(item) && !WantsWill(item) {
      NoneTwiceSnoc(h.queued, |h.connects|);
    } else if IsWillMsg(item) && h.slot.Some? {
      NoneTwiceSnoc(h.queued, h.slot.value);
    }
  }

  lemma NoneTwiceSnoc(ks: seq<nat>, j: nat)
    ensures NoneTwice(ks + [j]) <==> NoneTwice(ks) && j !in ks
  {
    forall k: nat ensures Count(ks + [j], k) == Count(ks, k) + if j == k then 1 else 0 {
      CountSnoc(ks, j, k);
    }
    CountZero(ks, j);
    if NoneTwice(ks + [j]) {
      assert Count(ks + [j], j) <= 1;
      forall k: nat ensures Count(ks, k) <= 1 {
        assert Count(ks + [j], k) <= 1;
      }
    }
  }

  ghost predicate QueuedKeepContent(h: Handshake, now: Handshake) {
    forall k | k in h.queued :: k < |h.connects| && k < |now.connects| && now.connects[k] == h.connects[k]
  }

  /** The object of the CONNECT at j, without a will and still in the slot, is written anew: by any
      WILLMSG; by a WILLTOPIC with another topic than the last one, or the first one with a topic
      or after a clean-session flag, which it clears. */
  ghost predicate Rewrites(log: seq<Item>, j: nat, n: nat)
    requires n < |log|
  {
    && Open(log, j, n) && !WantsWill(log[j])
    && (|| IsWillMsg(log[n])
        || (IsWillTopic(log[n])
            && match LastTopic(log, j, n)
               case Some(t) => t != log[n].sn.topic
               case None => log[n].sn.topic != [] || HasBit(log[j].sn.flags, 0x04)))
  }

  /** One message leaves the content of every queued object alone exactly when it does not rewrite
      a shared one. */
  lemma MutationIff(id: Str, log: seq<Item>, n: nat)
    requires n < |log|
    ensures QueuedKeepContent(HandshakeAt(id, log, n), HandshakeAt(id, log, n + 1))
      <==> !exists j: nat :: Rewrites(log, j, n)
  {
    SlotMeaning(id, log, n);
    var h := HandshakeAt(id, log, n);
    MutationStep(id, h, log[n]);
    if h.slot.Some? {
      var j: nat :| Open(log, j, n);
      forall i: nat | Open(log, i, n) ensures i == j {
        OneOpen(log, i, j, n);
      }
      if !WantsWill(log[j]) {
        RewritesPrepared(id, log, j, n);
      }
      assert Rewrites(log, j, n) <==> h.slot.value in h.queued && Changes(log[n], h.connects[h.slot.value]);
    }
  }

  lemma OneOpen(log: seq<Item>, i: nat, j: nat, n: nat)
    requires Open(log, i, n) && Open(log, j, n)
    ensures i == j
  {
  }

  predicate Changes(item: Item, c: Connect) {
    || (IsWillTopic(item) && c.SetWillTopic(item.sn.topic).SetWillQosZero() != c)
    || (IsWillMsg(item) && c.SetWillMessage(item.sn.message) != c)
  }

  lemma RewritesPrepared(id: Str, log: seq<Item>, j: nat, n: nat)
    requires n < |log| && Open(log, j, n) && !WantsWill(log[j])
    ensures Rewrites(log, j, n) <==> Changes(log[n], Prepared(id, log, j, n))
  {
  }

  lemma MutationStep(id: Str, h: Handshake, item: Item)
    requires Fits(h)
    ensures QueuedKeepContent(h, Next(id, h, item))
      <==> !(h.slot.Some? && h.slot.value in h.queued && Changes(item, h.connects[h.slot.value]))
  {
  }

  /** A client that sends WILLTOPIC and WILLMSG only when asked for them. */
  ghost predicate Disciplined(log: seq<Item>) {
    forall t | 0 <= t < |log| :: IsWillTopic(log[t]) || IsWillMsg(log[t]) ==> !SharedAt(log, t)
  }

  /** All that is queued stays queued, with the content it has. */
  ghost predicate Keeps(h: Handshake, t: Handshake) {
    && |h.connects| <= |t.connects|
    && (forall k | k in h.queued :: k in t.queued && k < |h.connects| && t.connects[k] == h.connects[k])
  }

  lemma KeepsStep(id: Str, log: seq<Item>, n: nat, h: Handshake)
    requires n < |log| && Disciplined(log) && SlotSpec(id, log, n, h)
    ensures Keeps(h, Next(id, h, log[n]))
  {
    SharedInHandshake(id, log, n, h);
    NextShape(id, h, log[n]);
  }

  lemma KeepsAt(id: Str, log: seq<Item>, n: nat)
    requires n < |log| && Disciplined(log)
    ensures Keeps(HandshakeAt(id, log, n), HandshakeAt(id, log, n + 1))
  {
    SlotMeaning(id, log, n);
    KeepsStep(id, log, n, HandshakeAt(id, log, n));
  }

  ghost function States(id: Str, log: seq<Item>, n: nat): (hs: seq<Handshake>)
    requires n <= |log|
    ensures |hs| == n + 1 && forall i | 0 <= i <= n :: hs[i] == HandshakeAt(id, log, i)
  {
    if n == 0 then [HandshakeAt(id, log, 0)] else States(id, log, n - 1) + [HandshakeAt(id, log, n)]
  }

  lemma {:induction false} KeepsChain(hs: seq<Handshake>, m: nat, n: nat)
    requires m <= n < |hs| && forall i | m <= i < n :: Keeps(hs[i], hs[i + 1])
    requires forall k | k in hs[m].queued :: k < |hs[m].connects|
    ensures Keeps(hs[m], hs[n])
    decreases n
  {
    if m < n {
      KeepsChain(hs, m, n - 1);
      assert Keeps(hs[n - 1], hs[n - 1 + 1]);
    }
  }

  /** For it every queued CONNECT keeps the content it was queued with, to the end. */
  lemma DisciplineKeepsQueue(id: Str, log: seq<Item>, m: nat, n: nat)
    requires Disciplined(log) && m <= n <= |log|
    ensures Keeps(HandshakeAt(id, log, m), HandshakeAt(id, log, n))
  {
    var hs := States(id, log, n);
    SlotMeaning(id, log, m);
    forall i | m <= i < n ensures Keeps(hs[i], hs[i + 1]) {
      KeepsAt(id, log, i);
    }
    KeepsChain(hs, m, n);
  }

  /** So what a CONNECT without a will queued is what that CONNECT said. */
  lemma QueuedAsSaid(id: Str, log: seq<Item>, j: nat, k: nat, n: nat)
    requires Disciplined(log) && MadeBy(id, log, j, k) && !WantsWill(log[j]) && j < n <= |log|
    ensures
      var now := HandshakeAt(id, log, n).connects;
      k < |now| && now[k] == Opened(id, log[j])
  {
    var h := HandshakeAt(id, log, j);
    QueuedByConnect(id, h, log[j]);
    DisciplineKeepsQueue(id, log, j + 1, n);
    assert HandshakeAt(id, log, j + 1) == Next(id, h, log[j]);
  }

  lemma QueuedByConnect(id: Str, h: Handshake, item: Item)
    requires IsConnect(item) && !WantsWill(item)
    ensures
      var k, t := |h.connects|, Next(id, h, item);
      k in t.queued && |t.connects| == k + 1 && t.connects[k] == Opened(id, item)
  {
  }

  /** An undisciplined one: the queued object changes under the sending task. */
  lemma SharedObjectChanges(id: Str, env: Env)
    ensures
      var log := [FromClient(SnConnect(FLAG_CLEAN, 10), env), FromClient(SnWillTopic([0x61]), env)];
      var before, now := HandshakeAt(id, log, 1), HandshakeAt(id, log, 2);
      && before.queued == now.queued == [0]
      && HasBit(before.connects[0].connectFlags, 2) && !HasBit(now.connects[0].connectFlags, 2)
  {
    var log := [FromClient(SnConnect(FLAG_CLEAN, 10), env), FromClient(SnWillTopic([0x61]), env)];
    assert HandshakeAt(id, log, 0) == Handshake([], None, []);
    assert HandshakeAt(id, log, 1) == Next(id, HandshakeAt(id, log, 0), log[0]);
    assert HandshakeAt(id, log, 2) == Next(id, HandshakeAt(id, log, 1), log[1]);
  }

  // ---------- On the wire ----------

  predicate FlagsInUse(cs: seq<Connect>) {
    forall k | 0 <= k < |cs| :: cs[k].connectFlags in {0, 2, 4, 6}
  }

  lemma SettersKeepFlags(c: Connect, s: Str)
    requires c.connectFlags in {0, 2, 4, 6}
    ensures c.SetWillTopic(s).SetWillQosZero().connectFlags == 0
    ensures c.SetWillMessage(s).connectFlags in {4, 6}
  {
  }

  lemma FlagsStep(id: Str, h: Handshake, item: Item)
    requires FlagsInUse(h.connects)
    ensures FlagsInUse(Next(id, h, item).connects)
  {
    if !IsConnect(item) && h.slot.Some? && h.slot.value < |h.connects| {
      if IsWillTopic(item) {
        SettersKeepFlags(h.connects[h.slot.value], item.sn.topic);
      } else if IsWillMsg(item) {
        SettersKeepFlags(h.connects[h.slot.value], item.sn.message);
      }
    }
  }

  lemma {:induction false} FlagsOfConnects(id: Str, log: seq<Item>, n: nat)
    requires n <= |log|
    ensures FlagsInUse(HandshakeAt(id, log, n).connects)
    decreases n
  {
    if n > 0 {
      FlagsOfConnects(id, log, n - 1);
      FlagsStep(id, HandshakeAt(id, log, n - 1), log[n - 1]);
    }
  }

  /** Every CONNECT object of every run, at every moment: a reader of the standard recovers it
      from its bytes. */
  lemma EveryConnectIsReadable(id: Str, log: seq<Item>, n: nat, c: Connect)
    requires n <= |log| && c in At(id, log, n).connects && |ConnectBody(c)| < 65536
    ensures MqttReference.ReadConnect(SerializeConnect(c)) == Some(MqttReference.FieldsOf(c))
  {
    HandshakeOfState(id, log, n);
    FlagsOfConnects(id, log, n);
    ReadableByFlags(c);
  }

  lemma ReadableByFlags(c: Connect)
    requires c.connectFlags in {0, 2, 4, 6} && |ConnectBody(c)| < 65536
    ensures MqttReference.ReadConnect(SerializeConnect(c)) == Some(MqttReference.FieldsOf(c))
  {
    assert !HasBit(c.connectFlags, WILL_QOS_1);
    MqttReference.ConnectLayoutIff(c);
  }
}
