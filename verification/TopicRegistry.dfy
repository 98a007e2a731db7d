/** The topic ids of one client: a table that only grows, searched from the start. */
module TopicRegistry {
  import opened Wrappers
  import opened Bytes

  const MAX_TOPIC_COUNT := 50
  const TOPICID_NORMAL: uint16 := 256
  const TOPICID_PREDEFINED_TIME: uint16 := 1
  /** "$GW/01" */
  const TOPIC_PREDEFINED_TIME: Str := [0x24, 0x47, 0x57, 0x2f, 0x30, 0x31]

  datatype Topic = Topic(id: uint16, name: Str)

  /** _topics and _nextTopicId; _cnt is the length. */
  datatype Table = Table(topics: seq<Topic>, next: uint16)

  function NewTable(): Table {
    Table([Topic(TOPICID_PREDEFINED_TIME, TOPIC_PREDEFINED_TIME)], TOPICID_NORMAL)
  }

  /** Index of the first topic with this name. */
  function FindName(ts: seq<Topic>, name: Str): (r: Option<nat>)
    ensures r.Some? ==> r.value < |ts| && ts[r.value].name == name
    ensures r.None? ==> forall i | 0 <= i < |ts| :: ts[i].name != name
  {
    if ts == [] then None
    else if ts[0].name == name then Some(0)
    else match FindName(ts[1..], name) case None => None case Some(i) => Some(i + 1)
  }

  function FindId(ts: seq<Topic>, id: uint16): (r: Option<nat>)
    ensures r.Some? ==> r.value < |ts| && ts[r.value].id == id && forall i | 0 <= i < r.value :: ts[i].id != id
    ensures r.None? ==> forall i | 0 <= i < |ts| :: ts[i].id != id
  {
    if ts == [] then None
    else if ts[0].id == id then Some(0)
    else match FindId(ts[1..], id) case None => None case Some(i) => Some(i + 1)
  }

  /** getTopicId: 0 when the name is unknown. */
  function GetTopicId(t: Table, name: Str): uint16 {
    match FindName(t.topics, name) case None => 0 case Some(i) => t.topics[i].id
  }

  /** getTopic(id), as a name. */
  function NameOfId(t: Table, id: uint16): Option<Str> {
    match FindId(t.topics, id) case None => None case Some(i) => Some(t.topics[i].name)
  }

  datatype Created = Created(table: Table, id: uint16)

  /** getTopicLength() == 2, a uint8_t comparison. */
  predicate Short(name: Str) {
    |name| % 256 == 2
  }

  /** createTopic. `objectBytes` are the two bytes that getUint16 finds at the address of the
      std::string object of a short name. Note what is returned for such a name. */
  function CreateTopic(t: Table, name: Str, objectBytes: uint16): Created {
    if FindName(t.topics, name).None? then
      if |t.topics| < MAX_TOPIC_COUNT then
        var next := if Short(name) then t.next else NextId(t.next);
        Created(Table(t.topics + [Topic(if Short(name) then objectBytes else next, name)], next), next)
      else Created(t, 0)
    else Created(t, GetTopicId(t, name))
  }

  /** getNextTopicId: increment, wrap around, stay out of the reserved ids. */
  function NextId(next: uint16): uint16 {
    if (next + 1) % 65536 < TOPICID_NORMAL then TOPICID_NORMAL else (next + 1) % 65536
  }

  class Topics {
    var topics: seq<Topic>
    var cnt: nat
    var nextTopicId: uint16

    ghost predicate Valid()
      reads this
    {
      cnt == |topics| <= MAX_TOPIC_COUNT
    }

    ghost function Contents(): Table
      reads this
    {
      Table(topics, nextTopicId)
    }

    constructor ()
      ensures Valid() && Contents() == NewTable()
    {
      topics := [Topic(TOPICID_PREDEFINED_TIME, TOPIC_PREDEFINED_TIME)];
      cnt := 1;
      nextTopicId := TOPICID_NORMAL;
    }

    method GetTopicByName(name: Str) returns (r: Option<nat>)
      requires Valid()
      ensures r == FindName(topics, name)
    {
      var i := 0;
      assert topics[0..] == topics;
      while i < cnt
        invariant 0 <= i <= cnt
        invariant FindName(topics, name) ==
          match FindName(topics[i..], name) case None => None case Some(k) => Some(k + i)
      {
        if topics[i].name == name {
          return Some(i);
        }
        assert topics[i..][1..] == topics[i + 1..];
        i := i + 1;
      }
      return None;
    }

    method GetTopicByTopicId(id: uint16) returns (r: Option<nat>)
      requires Valid()
      ensures r == FindId(topics, id)
    {
      var i := 0;
      assert topics[0..] == topics;
      while i < cnt
        invariant 0 <= i <= cnt
        invariant FindId(topics, id) ==
          match FindId(topics[i..], id) case None => None case Some(k) => Some(k + i)
      {
        if topics[i].id == id {
          return Some(i);
        }
        assert topics[i..][1..] == topics[i + 1..];
        i := i + 1;
      }
      return None;
    }

    method GetId(name: Str) returns (id: uint16)
      requires Valid()
      ensures id == GetTopicId(Contents(), name)
    {
      var p := GetTopicByName(name);
      if p.Some? {
        return topics[p.value].id;
      }
      return 0;
    }

    method GetNextTopicId() returns (id: uint16)
      modifies this`nextTopicId
      ensures id == nextTopicId == NextId(old(nextTopicId))
    {
      nextTopicId := (nextTopicId + 1) % 65536;
      if nextTopicId < TOPICID_NORMAL {
        nextTopicId := TOPICID_NORMAL;
      }
      return nextTopicId;
    }

    method Create(name: Str, objectBytes: uint16) returns (id: uint16)
      requires Valid()
      modifies this
      ensures Valid()
      ensures Created(Contents(), id) == CreateTopic(old(Contents()), name, objectBytes)
    {
      var p := GetTopicByName(name);
      if p.None? {
        if cnt < MAX_TOPIC_COUNT {
          var own: uint16;
          if Short(name) {
            own := objectBytes;
          } else {
            own := GetNextTopicId();
          }
          topics := topics + [Topic(own, name)];
          cnt := cnt + 1;
          return nextTopicId;
        } else {
          return 0;
        }
      } else {
        id := GetId(name);
      }
    }
  }

  // ---------- Every sequence of creations ----------

  datatype Creation = Creation(name: Str, objectBytes: uint16)

  function Build(cs: seq<Creation>): Table {
    if cs == [] then NewTable()
    else
      var c := cs[|cs| - 1];
      CreateTopic(Build(cs[..|cs| - 1]), c.name, c.objectBytes).table
  }

  predicate Plain(cs: seq<Creation>) {
    forall i | 0 <= i < |cs| :: !Short(cs[i].name)
  }

  /** The id after this many steps from the first one. */
  function IdAfter(times: nat): uint16 {
    if times == 0 then 256 else NextId(IdAfter(times - 1))
  }

  /** getNextTopicId alone would go through 256 to 65535 over and over, past the reserved ids. */
  lemma {:induction false} IdsCycle(times: nat)
    ensures IdAfter(times) == 256 + times % 65280
  {
    if times > 0 {
      IdsCycle(times - 1);
      NextInCycle(IdAfter(times - 1), times - 1);
    }
  }

  lemma NextInCycle(id: uint16, n: nat)
    requires id == 256 + n % 65280
    ensures NextId(id) == 256 + (n + 1) % 65280
  {
    ModuloNext(n);
  }

  lemma ModuloNext(n: nat)
    ensures (n + 1) % 65280 == if n % 65280 == 65279 then 0 else n % 65280 + 1
  {
  }

  /** The predefined topic first, then ids in order of creation, every name once. */
  predicate InOrder(t: Table) {
    && 1 <= |t.topics| <= 50
    && t.next == 255 + |t.topics|
    && t.topics[0] == Topic(1, [0x24, 0x47, 0x57, 0x2f, 0x30, 0x31])
    && (forall i | 1 <= i < |t.topics| :: t.topics[i].id == 256 + i)
    && (forall i, j | 0 <= i < j < |t.topics| :: t.topics[i].name != t.topics[j].name)
  }

  lemma CreateKeepsOrder(t: Table, name: Str, objectBytes: uint16)
    requires InOrder(t) && !Short(name)
    ensures var c := CreateTopic(t, name, objectBytes); InOrder(c.table) && t.topics <= c.table.topics
  {
  }

  lemma {:induction false} BuildInOrder(cs: seq<Creation>)
    requires Plain(cs)
    ensures InOrder(Build(cs))
  {
    if cs != [] {
      BuildInOrder(cs[..|cs| - 1]);
      CreateKeepsOrder(Build(cs[..|cs| - 1]), cs[|cs| - 1].name, cs[|cs| - 1].objectBytes);
    }
  }

  /** In an ordered table the two lookups are inverse to each other. */
  lemma LookupsInverse(t: Table, name: Str, id: uint16)
    requires InOrder(t)
    ensures NameOfId(t, id) == Some(name) <==> id != 0 && GetTopicId(t, name) == id
  {
    if NameOfId(t, id) == Some(name) {
      var i := FindId(t.topics, id).value;
      var j := FindName(t.topics, name);
      assert j.Some? && j.value == i;
    }
    if id != 0 && GetTopicId(t, name) == id {
      var i := FindName(t.topics, name).value;
      var j := FindId(t.topics, id);
      assert j.Some?;
      assert j.value == i by {
        assert t.topics[j.value].id == t.topics[i].id;
      }
    }
  }

  /** The registry as a whole. Over every sequence of creations of ordinary names: the table
      extends the one it grew from, so nothing is ever reassigned; names and ids are in
      one-to-one correspondence; ids are 257 to 305, and 1 for the predefined topic; creating a
      known name changes nothing and gives its id; creating an unknown one gives 0 exactly when
      50 entries exist, and otherwise an id that then stands for that name. */
  lemma RegistryIsAGrowingInjection(cs: seq<Creation>, name: Str, objectBytes: uint16)
    requires Plain(cs) && !Short(name)
    ensures
      var t := Build(cs);
      var c := CreateTopic(t, name, objectBytes);
      && InOrder(t) && t.topics <= c.table.topics
      && (forall i, j | 0 <= i < j < |t.topics| ::
            t.topics[i].id != t.topics[j].id && t.topics[i].name != t.topics[j].name)
      && (forall i | 1 <= i < |t.topics| :: 257 <= t.topics[i].id <= 305)
      && (GetTopicId(t, name) != 0 ==> c == Created(t, GetTopicId(t, name)))
      && (c.id == 0 <==> GetTopicId(t, name) == 0 && |t.topics| == 50)
      && (c.id != 0 ==> NameOfId(c.table, c.id) == Some(name) && GetTopicId(c.table, name) == c.id)
      && CreateTopic(c.table, name, objectBytes) == c
  {
    BuildInOrder(cs);
    var t := Build(cs);
    CreateKeepsOrder(t, name, objectBytes);
    var c := CreateTopic(t, name, objectBytes);
    if FindName(t.topics, name).None? && |t.topics| < MAX_TOPIC_COUNT {
      var j := FindName(c.table.topics, name);
      assert c.table.topics[|t.topics|].name == name;
      assert j.Some? && j.value == |t.topics|;
    }
    LookupsInverse(c.table, name, c.id);
  }

  lemma {:induction false} BuildGrows(cs: seq<Creation>, more: seq<Creation>)
    ensures Build(cs).topics <= Build(cs + more).topics
  {
    if more == [] {
      assert cs + more == cs;
    } else {
      assert (cs + more)[..|cs + more| - 1] == cs + more[..|more| - 1];
      BuildGrows(cs, more[..|more| - 1]);
    }
  }

  /** An id, once given, keeps its meaning whatever is created later. */
  lemma IdsAreNeverReassigned(cs: seq<Creation>, more: seq<Creation>, id: uint16)
    requires NameOfId(Build(cs), id).Some?
    ensures NameOfId(Build(cs + more), id) == NameOfId(Build(cs), id)
  {
    BuildGrows(cs, more);
    FindIdInPrefix(Build(cs).topics, Build(cs + more).topics, id);
  }

  lemma FindIdInPrefix(a: seq<Topic>, b: seq<Topic>, id: uint16)
    requires a <= b && FindId(a, id).Some?
    ensures FindId(b, id) == FindId(a, id)
  {
    var i, j := FindId(a, id).value, FindId(b, id);
    assert b[i].id == id;
    assert j.Some? && forall k | 0 <= k < |a| :: a[k] == b[k];
  }

  // ---------- Two-character names ----------

  /** Exactly when createTopic does what it is for, in any table: what it returns for an unknown
      name, with room left, stands for that name from then on if and only if no earlier entry has
      that id, and for a short name the string object happens to hold it. */
  lemma CreatedIdIsTheNamesIff(t: Table, name: Str, objectBytes: uint16)
    requires FindName(t.topics, name).None? && |t.topics| < MAX_TOPIC_COUNT
    ensures
      var c := CreateTopic(t, name, objectBytes);
      && c.id == (if |name| % 256 == 2 then t.next else NextId(t.next))
      && (NameOfId(c.table, c.id) == Some(name)
          <==> FindId(t.topics, c.id).None? && (|name| % 256 == 2 ==> objectBytes == t.next))
  {
    var c := CreateTopic(t, name, objectBytes);
    var n := |t.topics|;
    assert c.table.topics[..n] == t.topics && c.table.topics[n].name == name;
    var j := FindId(c.table.topics, c.id);
    if FindId(t.topics, c.id).Some? {
      FindIdInPrefix(t.topics, c.table.topics, c.id);
    } else if j.Some? {
      assert j.value == n;
    }
  }

  /** Whatever names are created: ordinary ones get 257 and on, in order, past the predefined one. */
  predicate Numbered(t: Table) {
    && 1 <= |t.topics| <= MAX_TOPIC_COUNT
    && t.topics[0] == Topic(TOPICID_PREDEFINED_TIME, TOPIC_PREDEFINED_TIME)
    && TOPICID_NORMAL <= t.next < TOPICID_NORMAL + |t.topics|
    && (forall i | 1 <= i < |t.topics| && !Short(t.topics[i].name) :: TOPICID_NORMAL < t.topics[i].id <= t.next)
    && (t.next == TOPICID_NORMAL || exists i | 1 <= i < |t.topics| :: !Short(t.topics[i].name) && t.topics[i].id == t.next)
  }

  lemma CreateKeepsNumbers(t: Table, name: Str, objectBytes: uint16)
    requires Numbered(t)
    ensures Numbered(CreateTopic(t, name, objectBytes).table)
  {
    var c := CreateTopic(t, name, objectBytes);
    if c.table != t {
      assert c.table.topics[|t.topics|].name == name;
      assert forall i | 0 <= i < |t.topics| :: c.table.topics[i] == t.topics[i];
    }
  }

  lemma {:induction false} BuildNumbered(cs: seq<Creation>)
    ensures Numbered(Build(cs))
  {
    if cs != [] {
      BuildNumbered(cs[..|cs| - 1]);
      CreateKeepsNumbers(Build(cs[..|cs| - 1]), cs[|cs| - 1].name, cs[|cs| - 1].objectBytes);
    }
  }

  /** Only a short name can hold the next id. */
  lemma NextIdTakenIff(t: Table)
    requires Numbered(t)
    ensures FindId(t.topics, NextId(t.next)).Some?
      <==> exists i | 1 <= i < |t.topics| :: Short(t.topics[i].name) && t.topics[i].id == NextId(t.next)
  {
    assert NextId(t.next) == t.next + 1;
    var r := FindId(t.topics, NextId(t.next));
    if r.Some? {
      assert t.topics[r.value].id == NextId(t.next);
    }
  }

  /** After any creations, a new ordinary name gets an id that is not its own exactly when a short
      name was stored under it. */
  lemma OrdinaryNameFailsIff(cs: seq<Creation>, name: Str, objectBytes: uint16)
    requires FindName(Build(cs).topics, name).None? && |Build(cs).topics| < MAX_TOPIC_COUNT && !Short(name)
    ensures
      var t, c := Build(cs), CreateTopic(Build(cs), name, objectBytes);
      NameOfId(c.table, c.id) != Some(name)
      <==> exists i | 1 <= i < |t.topics| :: Short(t.topics[i].name) && t.topics[i].id == NextId(t.next)
  {
    BuildNumbered(cs);
    NextIdTakenIff(Build(cs));
    CreatedIdIsTheNamesIff(Build(cs), name, objectBytes);
  }

  /** A new short name gets its own id only if no ordinary name has been created before, the string
      object happens to hold 256, and no other short name was stored under that. */
  lemma ShortNameWorksIff(cs: seq<Creation>, name: Str, objectBytes: uint16)
    requires FindName(Build(cs).topics, name).None? && |Build(cs).topics| < MAX_TOPIC_COUNT && Short(name)
    ensures
      var t, c := Build(cs), CreateTopic(Build(cs), name, objectBytes);
      NameOfId(c.table, c.id) == Some(name)
      <==> && objectBytes == TOPICID_NORMAL
           && forall i | 1 <= i < |t.topics| :: Short(t.topics[i].name) && t.topics[i].id != TOPICID_NORMAL
  {
    BuildNumbered(cs);
    CreatedIdIsTheNamesIff(Build(cs), name, objectBytes);
  }

  /** No string object starts with an odd byte. So it is where the object starts with an aligned
      pointer, low byte first. */
  predicate EvenObjects(cs: seq<Creation>) {
    forall i | 0 <= i < |cs| :: (cs[i].objectBytes / 256) % 2 == 0
  }

  /** Then a short name never takes the place of an ordinary one. */
  lemma OrdinaryNamesWork(cs: seq<Creation>, name: Str, objectBytes: uint16)
    requires EvenObjects(cs) && !Short(name)
    requires FindName(Build(cs).topics, name).None? && |Build(cs).topics| < MAX_TOPIC_COUNT
    ensures var c := CreateTopic(Build(cs), name, objectBytes); NameOfId(c.table, c.id) == Some(name)
  {
    BuildNumbered(cs);
    ShortIdsAreEven(cs);
    NextIdIsOdd(Build(cs));
    OrdinaryNameFailsIff(cs, name, objectBytes);
  }

  lemma NextIdIsOdd(t: Table)
    requires Numbered(t)
    ensures NextId(t.next) / 256 == 1
  {
  }

  lemma {:induction false} ShortIdsAreEven(cs: seq<Creation>)
    requires EvenObjects(cs)
    ensures forall i | 1 <= i < |Build(cs).topics| && Short(Build(cs).topics[i].name) ::
      (Build(cs).topics[i].id / 256) % 2 == 0
  {
    if cs != [] {
      var n := |cs| - 1;
      BuildNumbered(cs[..n]);
      ShortIdsAreEven(cs[..n]);
      OneMoreEven(Build(cs[..n]), cs[n]);
    }
  }

  lemma OneMoreEven(t: Table, c: Creation)
    requires (c.objectBytes / 256) % 2 == 0
    requires forall i | 1 <= i < |t.topics| && Short(t.topics[i].name) :: (t.topics[i].id / 256) % 2 == 0
    ensures
      var ts := CreateTopic(t, c.name, c.objectBytes).table.topics;
      forall i | 1 <= i < |ts| && Short(ts[i].name) :: (ts[i].id / 256) % 2 == 0
  {
  }

  /** "ab" stored under 257, then "xyz": the id returned for "xyz" stands for "ab". The string object
      of "ab" starts with the bytes 1 and 1 here, so not where OrdinaryNamesWork applies, as with a
      pointer in front on a little-endian machine; a big-endian one with 32-bit pointers can have
      it. */
  lemma OrdinaryNameFails()
    ensures
      var ab, xyz: Str := [0x61, 0x62], [0x78, 0x79, 0x7a];
      var c := CreateTopic(Build([Creation(ab, 257)]), xyz, 0);
      c.id == 257 && NameOfId(c.table, 257) == Some(ab)
  {
    var ab: Str, xyz: Str := [0x61, 0x62], [0x78, 0x79, 0x7a];
    assert [Creation(ab, 257)][..0] == [];
    var t := CreateTopic(NewTable(), ab, 257).table;
    assert Build([Creation(ab, 257)]) == t && t.topics[1] == Topic(257, ab);
    assert FindId(t.topics, 257) == Some(1) && |TOPIC_PREDEFINED_TIME| == 6;
    FindIdInPrefix(t.topics, CreateTopic(t, xyz, 0).table.topics, 257);
  }
}
