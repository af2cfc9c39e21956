/** The engine's streams: a reference count for every (topic, item) that some client
    asked for, and a shared buffer for each. The DDE server and the operating system
    may refuse any call; every refusal is an input here. */
module EngineStreams {

  type Topic = string
  type Item = string

  const NULL_TOPIC: Topic := " "

  const ERROR_BAD_TOPIC := -9
  const ERROR_ENGINE_NO_TOPIC := -15
  const ERROR_ENGINE_NO_ITEM := -16
  const ERROR_DDE_POST := -21
  const ERROR_DDE_NO_ACK := -22
  const ERROR_SHEM_BUFFER := -23

  type Refcounts = map<Topic, map<Item, nat>>

  /** A mapping and its mutex; `handle` tells one creation from another. */
  datatype StreamBuffer = StreamBuffer(handle: int)

  /** What the DDE server and the operating system answer during one request. */
  datatype Environment = Environment(
    topicAck: bool,     // the server acknowledges a new conversation
    itemAck: bool,      // ... and a request to link an item
    delinkAck: bool,    // ... and a request to delink one
    mapping: bool,      // file mapping, view and mutex: creation
    view: bool,
    mutex: bool,
    unmapped: bool,     // ... and release
    mappingClosed: bool,
    mutexClosed: bool,
    handle: int)

  // ---------------------------------------------------------------------------
  // Reference counts as one table of cells
  // ---------------------------------------------------------------------------

  function Count(rc: Refcounts, t: Topic, i: Item): nat {
    if t in rc && i in rc[t] then rc[t][i] else 0
  }

  /** No topic without items, and no item without a reference. */
  ghost predicate WellFormed(rc: Refcounts) {
    forall t :: t in rc ==> rc[t] != map[] && forall i :: i in rc[t] ==> rc[t][i] >= 1
  }

  /** Every counted cell has its buffer, and no other cell has one. */
  ghost predicate Backed(rc: Refcounts, buffers: map<(Item, Topic), StreamBuffer>) {
    forall i, t :: (i, t) in buffers <==> Count(rc, t, i) > 0
  }

  /** Well-formed tables are determined by their counts: no two of them look alike. */
  lemma CountsDetermine(a: Refcounts, b: Refcounts)
    requires WellFormed(a) && WellFormed(b)
    requires forall t, i :: Count(a, t, i) == Count(b, t, i)
    ensures a == b
  {
    forall t
      ensures t in a <==> t in b
    {
      if t in a {
        var i :| i in a[t];
        assert Count(a, t, i) == Count(b, t, i);
      }
      if t in b {
        var i :| i in b[t];
        assert Count(b, t, i) == Count(a, t, i);
      }
    }
    forall t | t in a
      ensures a[t] == b[t]
    {
      assert forall i :: i in a[t] <==> Count(a, t, i) > 0;
      assert forall i :: i in b[t] <==> Count(b, t, i) > 0;
      forall i | i in a[t]
        ensures i in b[t] && a[t][i] == b[t][i]
      {
        assert Count(a, t, i) == Count(b, t, i);
      }
    }
  }

  function Put(rc: Refcounts, t: Topic, i: Item, n: nat): Refcounts {
    rc[t := (if t in rc then rc[t] else map[])[i := n]]
  }

  /** Erasing an item, and its topic when that was the last one. */
  function Erase(rc: Refcounts, t: Topic, i: Item): Refcounts
    requires t in rc
  {
    if rc[t] - {i} == map[] then rc - {t} else rc[t := rc[t] - {i}]
  }

  ghost predicate SameElsewhere(a: Refcounts, b: Refcounts, t: Topic, i: Item) {
    forall t', i' :: (t', i') != (t, i) ==> Count(a, t', i') == Count(b, t', i')
  }

  lemma PutCounts(rc: Refcounts, t: Topic, i: Item, n: nat)
    requires WellFormed(rc) && n >= 1
    ensures WellFormed(Put(rc, t, i, n)) && Count(Put(rc, t, i, n), t, i) == n
    ensures SameElsewhere(rc, Put(rc, t, i, n), t, i)
  {
    assert i in Put(rc, t, i, n)[t];
  }

  lemma EraseCounts(rc: Refcounts, t: Topic, i: Item)
    requires t in rc
    requires forall t' :: t' in rc && t' != t ==> rc[t'] != map[]
    requires forall t', i' :: t' in rc && i' in rc[t'] && (t', i') != (t, i) ==> rc[t'][i'] >= 1
    ensures WellFormed(Erase(rc, t, i)) && Count(Erase(rc, t, i), t, i) == 0
    ensures SameElsewhere(rc, Erase(rc, t, i), t, i)
  {
    forall i' | i' != i
      ensures Count(rc, t, i') == Count(Erase(rc, t, i), t, i')
    {
      assert i' in rc[t] <==> i' in rc[t] - {i};
    }
  }

  /** What the unwinding relies on: erasing undoes a first entry. */
  lemma EraseUndoesPut(rc: Refcounts, t: Topic, i: Item)
    requires WellFormed(rc) && Count(rc, t, i) == 0
    ensures Erase(Put(rc, t, i, 1), t, i) == rc
  {
    var row := if t in rc then rc[t] else map[];
    assert row[i := 1] - {i} == row;
    if t !in rc {
      assert rc[t := map[i := 1]] - {t} == rc;
    }
  }

  /** One reference more, and one reference less for a cell that has any. */
  function Plus(rc: Refcounts, t: Topic, i: Item): Refcounts {
    Put(rc, t, i, Count(rc, t, i) + 1)
  }

  function Minus(rc: Refcounts, t: Topic, i: Item): Refcounts {
    if Count(rc, t, i) == 0 then rc
    else if Count(rc, t, i) == 1 then Erase(rc, t, i)
    else Put(rc, t, i, Count(rc, t, i) - 1)
  }

  function Less(n: nat): nat {
    if n > 0 then n - 1 else 0
  }

  lemma PlusCounts(rc: Refcounts, t: Topic, i: Item)
    requires WellFormed(rc)
    ensures WellFormed(Plus(rc, t, i)) && Count(Plus(rc, t, i), t, i) == Count(rc, t, i) + 1
    ensures SameElsewhere(rc, Plus(rc, t, i), t, i)
  {
  }

  lemma MinusCounts(rc: Refcounts, t: Topic, i: Item)
    requires WellFormed(rc)
    ensures WellFormed(Minus(rc, t, i)) && Count(Minus(rc, t, i), t, i) == Less(Count(rc, t, i))
    ensures SameElsewhere(rc, Minus(rc, t, i), t, i)
  {
    if Count(rc, t, i) == 1 {
      EraseCounts(rc, t, i);
    } else if Count(rc, t, i) > 1 {
      PutCounts(rc, t, i, Count(rc, t, i) - 1);
    }
  }

  /** Removing what was just added restores the whole table. */
  lemma MinusUndoesPlus(rc: Refcounts, t: Topic, i: Item)
    requires WellFormed(rc)
    ensures Minus(Plus(rc, t, i), t, i) == rc
  {
    PlusCounts(rc, t, i);
    if Count(rc, t, i) == 0 {
      EraseUndoesPut(rc, t, i);
    } else {
      assert rc[t][i := rc[t][i] + 1][i := rc[t][i]] == rc[t];
    }
  }

  type Buffers = map<(Item, Topic), StreamBuffer>

  function PlusBuffer(rc: Refcounts, buffers: Buffers, t: Topic, i: Item, handle: int): Buffers {
    if Count(rc, t, i) == 0 then buffers[(i, t) := StreamBuffer(handle)] else buffers
  }

  function MinusBuffer(rc: Refcounts, buffers: Buffers, t: Topic, i: Item): Buffers {
    if Count(rc, t, i) == 1 then buffers - {(i, t)} else buffers
  }

  /** Buffers come with the first reference, and go with the last one. */
  lemma BuffersFollowCounts(rc: Refcounts, buffers: Buffers, t: Topic, i: Item, handle: int)
    requires WellFormed(rc) && Backed(rc, buffers)
    ensures Backed(Plus(rc, t, i), PlusBuffer(rc, buffers, t, i, handle))
    ensures Backed(Minus(rc, t, i), MinusBuffer(rc, buffers, t, i))
    ensures MinusBuffer(Plus(rc, t, i), PlusBuffer(rc, buffers, t, i, handle), t, i) == buffers
  {
    PlusCounts(rc, t, i);
    MinusCounts(rc, t, i);
  }

  // ---------------------------------------------------------------------------
  // The engine
  // ---------------------------------------------------------------------------

  /** Which refusal decides the answer to an ADD. */
  function AddCode(rc: Refcounts, t: Topic, i: Item, env: Environment): int {
    if t == NULL_TOPIC then ERROR_BAD_TOPIC
    else if Count(rc, t, i) > 0 then 0
    else if t !in rc && !env.topicAck then ERROR_DDE_NO_ACK
    else if !env.itemAck then ERROR_DDE_POST
    else if !(env.mapping && env.view && env.mutex) then ERROR_SHEM_BUFFER
    else 0
  }

  /** ... and to a REMOVE. The last two leave the stream removed all the same. */
  function RemoveCode(rc: Refcounts, t: Topic, i: Item, env: Environment): int {
    if t == NULL_TOPIC then ERROR_BAD_TOPIC
    else if t !in rc then ERROR_ENGINE_NO_TOPIC
    else if Count(rc, t, i) == 0 then ERROR_ENGINE_NO_ITEM
    else if Count(rc, t, i) > 1 then 0
    else if !env.delinkAck then ERROR_DDE_POST
    else if !(env.unmapped && env.mappingClosed && env.mutexClosed) then ERROR_SHEM_BUFFER
    else 0
  }

  const ALL_WELL := Environment(true, true, true, true, true, true, true, true, true, 0)

  /** When the answers are good, when they depend on the system, and which error says what. */
  lemma AddAnswersExactly(rc: Refcounts, t: Topic, i: Item, env: Environment)
    requires WellFormed(rc)
    ensures AddCode(rc, t, i, ALL_WELL) == 0 <==> t != NULL_TOPIC
    ensures AddCode(rc, t, i, env) == 0 <==>
            t != NULL_TOPIC && (Count(rc, t, i) > 0 ||
                                ((env.topicAck || exists j :: Count(rc, t, j) > 0) && env.itemAck && env.mapping && env.view && env.mutex))
    ensures AddCode(rc, t, i, env) == -9 <==> t == NULL_TOPIC
    ensures AddCode(rc, t, i, env) == -22 <==> t != NULL_TOPIC && (forall j :: Count(rc, t, j) == 0) && !env.topicAck
    ensures AddCode(rc, t, i, env) == -23 ==> env.itemAck && !(env.mapping && env.view && env.mutex)
    ensures AddCode(rc, t, i, env) in {0, -9, -21, -22, -23}
  {
    TopicExactly(rc, t);
  }

  lemma TopicExactly(rc: Refcounts, t: Topic)
    requires WellFormed(rc)
    ensures t in rc <==> exists j :: Count(rc, t, j) > 0
  {
    if t in rc {
      var j :| j in rc[t];
      assert Count(rc, t, j) > 0;
    }
  }

  lemma RemoveAnswersExactly(rc: Refcounts, t: Topic, i: Item, env: Environment)
    requires WellFormed(rc)
    ensures RemoveCode(rc, t, i, ALL_WELL) == 0 <==> t != NULL_TOPIC && Count(rc, t, i) > 0
    ensures RemoveCode(rc, t, i, env) == 0 <==>
            t != NULL_TOPIC && (Count(rc, t, i) > 1 ||
                                (Count(rc, t, i) == 1 && env.delinkAck && env.unmapped && env.mappingClosed && env.mutexClosed))
    ensures RemoveCode(rc, t, i, env) == -9 <==> t == NULL_TOPIC
    ensures RemoveCode(rc, t, i, env) == -15 <==> t != NULL_TOPIC && forall j :: Count(rc, t, j) == 0
    ensures RemoveCode(rc, t, i, env) == -16 <==> t != NULL_TOPIC && Count(rc, t, i) == 0 && exists j :: Count(rc, t, j) > 0
    ensures RemoveCode(rc, t, i, env) == -21 <==> t != NULL_TOPIC && Count(rc, t, i) == 1 && !env.delinkAck
    ensures RemoveCode(rc, t, i, env) in {0, -9, -15, -16, -21, -23}
  {
    TopicExactly(rc, t);
  }

  class Engine {
    var topicRefcounts: Refcounts
    var buffers: map<(Item, Topic), StreamBuffer>

    ghost predicate Valid()
      reads this
    {
      WellFormed(topicRefcounts) && Backed(topicRefcounts, buffers) && NULL_TOPIC !in topicRefcounts
    }

    constructor ()
      ensures Valid() && topicRefcounts == map[] && buffers == map[]
    {
      topicRefcounts, buffers := map[], map[];
    }

    /** A reference more for one cell, or an error code and nothing changed: the
        unwinding falls through its cases to exactly the state before the call. */
    method AddStream(t: Topic, i: Item, env: Environment) returns (err: int)
      requires Valid()
      modifies this
      ensures Valid() && err == AddCode(old(topicRefcounts), t, i, env)
      ensures err != 0 ==> topicRefcounts == old(topicRefcounts) && buffers == old(buffers)
      ensures err == 0 ==> topicRefcounts == Plus(old(topicRefcounts), t, i)
      ensures err == 0 ==> buffers == PlusBuffer(old(topicRefcounts), old(buffers), t, i, env.handle)
    {
      if t == NULL_TOPIC {
        return ERROR_BAD_TOPIC;
      }
      ghost var rc := topicRefcounts;
      err := CreateOrCount(t, i, env);
      Unwind(err, t, i);
      if err == 0 {
        PlusCounts(rc, t, i);
        BuffersFollowCounts(rc, old(buffers), t, i, env.handle);
      } else {
        EraseUndoesPut(rc, t, i);
        assert t !in rc ==> rc[t := map[]] - {t} == rc && rc - {t} == rc;
      }
    }

    /** A new topic, a new item, or one reference more. What a failure leaves behind
        here is for the unwinding to clear away. */
    method CreateOrCount(t: Topic, i: Item, env: Environment) returns (err: int)
      requires t != NULL_TOPIC && Valid()
      modifies this
      ensures err == AddCode(old(topicRefcounts), t, i, env)
      ensures err == 0 || err == ERROR_SHEM_BUFFER ==> topicRefcounts == Plus(old(topicRefcounts), t, i)
      ensures err == ERROR_DDE_NO_ACK || (err == ERROR_DDE_POST && t in old(topicRefcounts)) ==> topicRefcounts == old(topicRefcounts)
      ensures err == ERROR_DDE_POST && t !in old(topicRefcounts) ==> topicRefcounts == old(topicRefcounts)[t := map[]]
      ensures buffers == if err == 0 then PlusBuffer(old(topicRefcounts), old(buffers), t, i, env.handle) else old(buffers)
    {
      err := 0;
      if t !in topicRefcounts {
        err := CreateTopic(t, i, env);
      } else if i !in topicRefcounts[t] {
        err := CreateItem(t, i, env);
      } else {
        topicRefcounts := topicRefcounts[t := topicRefcounts[t][i := topicRefcounts[t][i] + 1]];
      }
    }

    /** The error handling of AddStream: each case falls through to the next. */
    method Unwind(err: int, t: Topic, i: Item)
      requires err == ERROR_SHEM_BUFFER ==> t in topicRefcounts
      modifies this`topicRefcounts
      ensures err == ERROR_SHEM_BUFFER ==> topicRefcounts == Erase(old(topicRefcounts), t, i)
      ensures err == ERROR_DDE_POST ==>
                topicRefcounts == if t in old(topicRefcounts) && old(topicRefcounts)[t] != map[] then old(topicRefcounts)
                                  else old(topicRefcounts) - {t}
      ensures err == ERROR_DDE_NO_ACK ==> topicRefcounts == old(topicRefcounts) - {t}
      ensures err !in {ERROR_SHEM_BUFFER, ERROR_DDE_POST, ERROR_DDE_NO_ACK} ==> topicRefcounts == old(topicRefcounts)
    {
      if err == ERROR_SHEM_BUFFER {
        topicRefcounts := topicRefcounts[t := topicRefcounts[t] - {i}];
      }
      if err == ERROR_SHEM_BUFFER || err == ERROR_DDE_POST {
        Touch(t);
        if topicRefcounts[t] != map[] {
          return;
        }
      }
      if err == ERROR_SHEM_BUFFER || err == ERROR_DDE_POST || err == ERROR_DDE_NO_ACK {
        CloseTopic(t);
      }
    }

    /** `topic_refcounts[t]`: the map's operator inserts an empty entry for a new key. */
    method Touch(t: Topic)
      modifies this`topicRefcounts
      ensures topicRefcounts == if t in old(topicRefcounts) then old(topicRefcounts) else old(topicRefcounts)[t := map[]]
    {
      if t !in topicRefcounts {
        topicRefcounts := topicRefcounts[t := map[]];
      }
    }

    method CreateItem(t: Topic, i: Item, env: Environment) returns (err: int)
      requires t in topicRefcounts
      modifies this
      ensures err == if !env.itemAck then ERROR_DDE_POST
                     else if (i, t) in old(buffers) || !(env.mapping && env.view && env.mutex) then ERROR_SHEM_BUFFER else 0
      ensures topicRefcounts == if env.itemAck then old(topicRefcounts)[t := old(topicRefcounts)[t][i := 1]] else old(topicRefcounts)
      ensures buffers == if err == 0 then old(buffers)[(i, t) := StreamBuffer(env.handle)] else old(buffers)
    {
      if !env.itemAck {
        return ERROR_DDE_POST;
      }
      Touch(t);
      topicRefcounts := topicRefcounts[t := topicRefcounts[t][i := 1]];
      var created := CreateBuffer(t, i, env);
      if !created {
        return ERROR_SHEM_BUFFER;
      }
      err := 0;
    }

    method CreateTopic(t: Topic, i: Item, env: Environment) returns (err: int)
      modifies this
      ensures err == if !env.topicAck then ERROR_DDE_NO_ACK
                     else if !env.itemAck then ERROR_DDE_POST
                     else if (i, t) in old(buffers) || !(env.mapping && env.view && env.mutex) then ERROR_SHEM_BUFFER else 0
      ensures topicRefcounts == if !env.topicAck then old(topicRefcounts)
                                else if env.itemAck then old(topicRefcounts)[t := map[i := 1]]
                                else old(topicRefcounts)[t := map[]]
      ensures buffers == if err == 0 then old(buffers)[(i, t) := StreamBuffer(env.handle)] else old(buffers)
    {
      if !env.topicAck {
        return ERROR_DDE_NO_ACK;
      }
      topicRefcounts := topicRefcounts[t := map[]];
      if !env.itemAck {
        return ERROR_DDE_POST;
      }
      topicRefcounts := topicRefcounts[t := topicRefcounts[t][i := 1]];
      var created := CreateBuffer(t, i, env);
      if !created {
        return ERROR_SHEM_BUFFER;
      }
      err := 0;
    }

    method CreateBuffer(t: Topic, i: Item, env: Environment) returns (created: bool)
      modifies this`buffers
      ensures created == ((i, t) !in old(buffers) && env.mapping && env.view && env.mutex)
      ensures buffers == if created then old(buffers)[(i, t) := StreamBuffer(env.handle)] else old(buffers)
    {
      if (i, t) in buffers {
        return false;
      }
      if !env.mapping || !env.view || !env.mutex {
        return false;
      }
      buffers := buffers[(i, t) := StreamBuffer(env.handle)];
      created := true;
    }

    /** A reference less for a cell that has one, whatever is returned; the buffer
        goes with the last reference. */
    method RemoveStream(t: Topic, i: Item, env: Environment) returns (err: int)
      requires Valid()
      modifies this
      ensures Valid() && err == RemoveCode(old(topicRefcounts), t, i, env)
      ensures t == NULL_TOPIC ==> topicRefcounts == old(topicRefcounts) && buffers == old(buffers)
      ensures t != NULL_TOPIC ==> topicRefcounts == Minus(old(topicRefcounts), t, i)
      ensures t != NULL_TOPIC ==> buffers == MinusBuffer(old(topicRefcounts), old(buffers), t, i)
    {
      if t == NULL_TOPIC {
        return ERROR_BAD_TOPIC;
      }
      ghost var rc := topicRefcounts;
      MinusCounts(rc, t, i);
      BuffersFollowCounts(rc, buffers, t, i, 0);
      if t !in topicRefcounts {
        return ERROR_ENGINE_NO_TOPIC;
      }
      err := 0;
      if i in topicRefcounts[t] {
        err := DropReference(t, i, env);
      } else {
        err := ERROR_ENGINE_NO_ITEM;
      }
      if topicRefcounts[t] == map[] {
        CloseTopic(t);
      }
      MinusCounts(rc, t, i);
      BuffersFollowCounts(rc, old(buffers), t, i, 0);
    }

    /** One reference less; with the last one the item goes, but not yet its topic. */
    method DropReference(t: Topic, i: Item, env: Environment) returns (err: int)
      requires t in topicRefcounts && i in topicRefcounts[t] && topicRefcounts[t][i] >= 1
      modifies this
      ensures t in topicRefcounts
      ensures Minus(old(topicRefcounts), t, i) == if topicRefcounts[t] == map[] then topicRefcounts - {t} else topicRefcounts
      ensures buffers == MinusBuffer(old(topicRefcounts), old(buffers), t, i)
      ensures err == if old(topicRefcounts)[t][i] > 1 then 0
                     else if !env.delinkAck then ERROR_DDE_POST
                     else if (i, t) !in old(buffers) || !(env.unmapped && env.mappingClosed && env.mutexClosed) then ERROR_SHEM_BUFFER
                     else 0
    {
      ghost var rc := topicRefcounts;
      err := 0;
      topicRefcounts := topicRefcounts[t := topicRefcounts[t][i := topicRefcounts[t][i] - 1]];
      if topicRefcounts[t][i] == 0 {
        err := CloseItem(t, i, env);
        topicRefcounts := topicRefcounts[t := topicRefcounts[t] - {i}];
        assert rc[t][i := 0] - {i} == rc[t] - {i};
        assert rc[t := rc[t] - {i}] - {t} == rc - {t};
      } else {
        assert i in topicRefcounts[t];
      }
    }

    method CloseItem(t: Topic, i: Item, env: Environment) returns (err: int)
      modifies this`buffers
      ensures buffers == old(buffers) - {(i, t)}
      ensures err == if !env.delinkAck then ERROR_DDE_POST
                     else if (i, t) !in old(buffers) || !(env.unmapped && env.mappingClosed && env.mutexClosed) then ERROR_SHEM_BUFFER
                     else 0
    {
      err := if env.delinkAck then 0 else ERROR_DDE_POST;
      var destroyed := DestroyBuffer(t, i, env);
      if !destroyed && err == 0 {
        err := ERROR_SHEM_BUFFER;
      }
    }

    method DestroyBuffer(t: Topic, i: Item, env: Environment) returns (clean: bool)
      modifies this`buffers
      ensures buffers == old(buffers) - {(i, t)}
      ensures clean == ((i, t) in old(buffers) && env.unmapped && env.mappingClosed && env.mutexClosed)
    {
      if (i, t) !in buffers {
        return false;
      }
      clean := env.unmapped && env.mappingClosed && env.mutexClosed;
      buffers := buffers - {(i, t)};
    }

    method CloseTopic(t: Topic)
      modifies this`topicRefcounts
      ensures topicRefcounts == old(topicRefcounts) - {t}
    {
      topicRefcounts := topicRefcounts - {t};
    }

    /** A stream added and removed again: whatever is returned, nothing has changed. */
    method TestStream(t: Topic, i: Item, add: Environment, remove: Environment) returns (err: int)
      requires Valid()
      modifies this
      ensures Valid() && topicRefcounts == old(topicRefcounts) && buffers == old(buffers)
      ensures var code := AddCode(old(topicRefcounts), t, i, add);
              err == if code != 0 then code else RemoveCode(Plus(old(topicRefcounts), t, i), t, i, remove)
    {
      err := AddStream(t, i, add);
      if err != 0 {
        return;
      }
      MinusUndoesPlus(old(topicRefcounts), t, i);
      BuffersFollowCounts(old(topicRefcounts), old(buffers), t, i, add.handle);
      err := RemoveStream(t, i, remove);
    }

    /** Meant to remove every stream at shutdown; one reference of each is removed. */
    method RemoveAllStreams(answers: ((Topic, Item)) -> Environment)
      requires Valid()
      modifies this
      ensures Valid() && OneLess(old(topicRefcounts), topicRefcounts)
    {
      var cells := set t, i | t in topicRefcounts && i in topicRefcounts[t] :: (t, i);
      ghost var before := topicRefcounts;
      assert Progress(before, before, cells);
      while cells != {}
        invariant Valid() && Progress(before, topicRefcounts, cells)
        invariant forall cell :: cell in cells ==> cell.0 in before
        decreases cells
      {
        var cell :| cell in cells;
        ghost var rc := topicRefcounts;
        ProgressStep(before, rc, cells, cell);
        var _ := RemoveStream(cell.0, cell.1, answers(cell));
        cells := cells - {cell};
      }
    }
  }

  /** The cells still to be visited have all their references; the others one less. */
  ghost predicate Progress(before: Refcounts, now: Refcounts, cells: set<(Topic, Item)>) {
    forall t, i :: Count(now, t, i) == if (t, i) in cells then Count(before, t, i) else Less(Count(before, t, i))
  }

  lemma ProgressStep(before: Refcounts, now: Refcounts, cells: set<(Topic, Item)>, cell: (Topic, Item))
    requires WellFormed(now) && Progress(before, now, cells) && cell in cells
    ensures Progress(before, Minus(now, cell.0, cell.1), cells - {cell})
  {
    MinusCounts(now, cell.0, cell.1);
    forall t, i
      ensures Count(Minus(now, cell.0, cell.1), t, i)
              == if (t, i) in cells - {cell} then Count(before, t, i) else Less(Count(before, t, i))
    {
      assert Count(now, t, i) == if (t, i) in cells then Count(before, t, i) else Less(Count(before, t, i));
      if (t, i) != cell {
        assert Count(Minus(now, cell.0, cell.1), t, i) == Count(now, t, i);
      }
    }
  }

  /** What is left after one reference of each stream was removed. */
  ghost predicate OneLess(before: Refcounts, after: Refcounts) {
    Progress(before, after, {})
  }

  /** Shutdown leaves no stream behind exactly when no stream was shared. */
  lemma AllRemovedExactly(before: Refcounts, after: Refcounts)
    requires WellFormed(before) && WellFormed(after) && OneLess(before, after)
    ensures after == map[] <==> forall t, i :: Count(before, t, i) <= 1
  {
    if after == map[] {
      forall t, i
        ensures Count(before, t, i) <= 1
      {
        assert Count(after, t, i) == 0;
      }
    } else {
      var t :| t in after;
      var i :| i in after[t];
      assert Count(after, t, i) == Less(Count(before, t, i));
    }
  }
}
