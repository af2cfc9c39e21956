/** The client library's blocks. A block is a matrix of topics by items, with a
    pre-cache for topics that have no item yet, and one for items that have no topic.
    Every cell of a matrix is a stream that the library asked the engine for, and
    whose shared buffer it captured. What the engine answers, and whether a buffer
    can be mapped, is an input to every operation. */
module ClientBlocks {
  import opened EngineStreams
  import BufferNames

  type Cell = (Topic, Item)

  const ERROR_BAD_INPUT := -1
  const ERROR_NOT_CONNECTED := -3
  const ERROR_BLOCK_ALREADY_EXISTS := -5
  const ERROR_BLOCK_DOESNT_EXIST := -6
  const ERROR_BLOCK_CREATION := -7
  const ERROR_BLOCK_SIZE := -8
  const ERROR_BAD_ITEM := -10
  const ERROR_DECREMENT_BASE := -25

  const MAX_BLOCK_SIZE := 16777216
  const BLOCK_ID_SIZE := 63
  const RESERVED_BLOCK_NAME := "___RESERVED_BLOCK_NAME___"

  /** What a call returns; a buffer that cannot be mapped throws. */
  datatype Result = Code(err: int) | Thrown

  /** Zero, or one below the base for every request that failed. */
  function ErrorCode(failures: nat): int {
    if failures == 0 then 0 else ERROR_DECREMENT_BASE - failures
  }

  /** So a code tells how many requests failed: none, or -26 for one, and so on down. */
  lemma ErrorCodeMeans(m: nat, n: nat)
    ensures ErrorCode(n) == 0 <==> n == 0
    ensures n > 0 ==> ErrorCode(n) + 25 + n == 0
    ensures ErrorCode(m) == ErrorCode(n) <==> m == n
  {
  }

  predicate IsValidBlockID(id: string) {
    |id| <= BLOCK_ID_SIZE && id != RESERVED_BLOCK_NAME
  }

  // ---------------------------------------------------------------------------
  // What a block has done so far, and what it therefore holds
  // ---------------------------------------------------------------------------

  datatype Event =
    | Added(cell: Cell, code: int)
    | Captured(cell: Cell)
    | CaptureFailed(cell: Cell)
    | Released(cell: Cell)
    | Removed(cell: Cell, code: int)

  /** ADD was acknowledged, and the buffer mapped. What becomes of a REMOVE does not matter. */
  predicate Granted(e: Event) {
    match e
    case Added(_, code) => code == 0
    case CaptureFailed(_) => false
    case _ => true
  }

  /** What there is to know about the events so far: the cells whose ADD was
      acknowledged and not taken back, and those captured; the requests sent, with
      their multiplicities; whether everything asked for was granted; whether ADD was only
      sent for what was not held, and REMOVE for what was; and whether, at every point so
      far, a captured cell was a held one. */
  datatype Books = Books(held: set<Cell>, captured: set<Cell>, adds: multiset<Cell>, drops: multiset<Cell>,
                         granted: bool, proper: bool, safe: bool)

  const NO_BOOKS := Books({}, {}, multiset{}, multiset{}, true, true, true)

  predicate Proper(held: set<Cell>, e: Event) {
    match e
    case Added(c, code) => code == 0 ==> c !in held
    case Removed(c, _) => c in held
    case _ => true
  }

  function Record(b: Books, e: Event): Books {
    var held := match e
                case Added(c, code) => if code == 0 then b.held + {c} else b.held
                case Removed(c, _) => b.held - {c}
                case _ => b.held;
    var captured := match e
                    case Captured(c) => b.captured + {c}
                    case Released(c) => b.captured - {c}
                    case _ => b.captured;
    Books(held, captured,
          if e.Added? then b.adds + multiset{e.cell} else b.adds,
          if e.Removed? then b.drops + multiset{e.cell} else b.drops,
          b.granted && Granted(e),
          b.proper && Proper(b.held, e),
          b.safe && captured <= held)
  }

  function Fold(b: Books, events: seq<Event>): Books {
    if events == [] then b else Record(Fold(b, events[..|events| - 1]), events[|events| - 1])
  }

  lemma {:induction false} FoldSum(b: Books, x: seq<Event>, y: seq<Event>)
    ensures Fold(b, x + y) == Fold(Fold(b, x), y)
  {
    if y == [] {
      assert x + y == x;
    } else {
      FoldSum(b, x, y[..|y| - 1]);
      assert (x + y)[..|x + y| - 1] == x + y[..|y| - 1];
    }
  }

  /** What was wrong once stays on record, so what is right now was always so. */
  lemma {:induction false} RightAllAlong(b: Books, events: seq<Event>, k: nat)
    requires k <= |events|
    ensures Fold(b, events).proper ==> Fold(b, events[..k]).proper
    ensures Fold(b, events).safe ==> Fold(b, events[..k]).safe
  {
    if k == |events| {
      assert events[..k] == events;
    } else {
      RightAllAlong(b, events[..|events| - 1], k);
      assert events[..|events| - 1][..k] == events[..k];
    }
  }

  // ---------------------------------------------------------------------------
  // Sets of cells
  // ---------------------------------------------------------------------------

  function Cells(topics: set<Topic>, items: set<Item>): (cells: set<Cell>)
    ensures forall c :: c in cells <==> c.0 in topics && c.1 in items
  {
    set t, i | t in topics && i in items :: (t, i)
  }

  lemma OneMore(base: set<Cell>, asked: set<Cell>, c: Cell)
    ensures base + asked + {c} == base + (asked + {c})
    ensures base - asked - {c} == base - (asked + {c})
    ensures c !in asked ==> multiset(asked + {c}) == multiset(asked) + multiset{c}
  {
  }

  /** A cell moves from those still to be asked for to those asked for. */
  lemma OneMoves(rest: set<Cell>, asked: set<Cell>, c: Cell)
    requires rest !! asked && c in rest
    ensures rest - {c} !! asked + {c} && (rest - {c}) + (asked + {c}) == rest + asked
  {
  }

  function TopicsOf(cells: set<Cell>): set<Topic> {
    set c | c in cells :: c.0
  }

  function ItemsOf(cells: set<Cell>): set<Item> {
    set c | c in cells :: c.1
  }

  function Answered(cells: set<Cell>, reply: Cell -> int): set<Cell> {
    set c | c in cells && reply(c) == 0
  }

  function Refused(cells: set<Cell>, reply: Cell -> int): set<Cell> {
    set c | c in cells && reply(c) != 0
  }

  // ---------------------------------------------------------------------------
  // One block, and what it did
  // ---------------------------------------------------------------------------

  datatype Block = Block(topics: set<Topic>, items: set<Item>, itemPrecache: set<Item>, topicPrecache: set<Topic>) {
    function Matrix(): set<Cell> {
      Cells(topics, items)
    }

    /** Everything the block was asked to have: in the matrix or waiting for it. */
    function AllTopics(): set<Topic> {
      topics + topicPrecache
    }

    function AllItems(): set<Item> {
      items + itemPrecache
    }

    /** Topics and items come and go together; what is pre-cached waits for an empty
        matrix, and only one side waits. */
    ghost predicate Shape() {
      && (topics == {} <==> items == {})
      && (topics != {} ==> itemPrecache == {} && topicPrecache == {})
      && (itemPrecache == {} || topicPrecache == {})
    }
  }

  const EMPTY_BLOCK := Block({}, {}, {}, {})

  /** The one state of a block of which these topics and items are wanted. */
  function BlockOf(topics: set<Topic>, items: set<Item>): Block {
    if topics == {} || items == {} then Block({}, {}, items, topics) else Block(topics, items, {}, {})
  }

  /** A block and what it did so far. */
  datatype Account = Account(block: Block, books: Books) {
    /** In the middle of an operation: as long as every ADD was granted, exactly these
        cells are held and captured. */
    ghost predicate Tracked(cells: set<Cell>) {
      && block.Shape()
      && books.safe && books.captured <= books.held
      && books.captured <= block.Matrix()
      && (books.granted ==> books.proper && books.held == cells && books.captured == cells)
    }

    ghost predicate Settled() {
      Tracked(block.Matrix())
    }
  }

  /** One ADD request; if it is acknowledged, the cell enters the block, and then its
      buffer is captured. */
  function AfterAdd(a: Account, c: Cell, code: int, captured: bool): Account {
    var asked := Record(a.books, Added(c, code));
    if code != 0 then a.(books := asked)
    else
      Account(Block(a.block.topics + {c.0}, a.block.items + {c.1}, {}, {}),
              Record(asked, if captured then Captured(c) else CaptureFailed(c)))
  }

  /** The buffer is released, then the REMOVE request is sent. */
  function AfterDrop(a: Account, c: Cell, code: int): Account {
    a.(books := Record(Record(a.books, Released(c)), Removed(c, code)))
  }

  lemma AddKeepsTrack(a: Account, c: Cell, code: int, captured: bool, cells: set<Cell>)
    requires a.Tracked(cells) && c !in cells
    ensures AfterAdd(a, c, code, captured).Tracked(cells + {c})
    ensures AfterAdd(a, c, code, captured).books.granted == (a.books.granted && code == 0 && captured)
  {
  }

  lemma DropKeepsTrack(a: Account, c: Cell, code: int, cells: set<Cell>)
    requires a.Tracked(cells)
    requires a.books.granted ==> c in cells
    ensures AfterDrop(a, c, code).Tracked(cells - {c}) && AfterDrop(a, c, code).books.granted == a.books.granted
  {
  }

  // ---------------------------------------------------------------------------
  // The capture sets
  // ---------------------------------------------------------------------------

  type CaptureSets = map<Cell, set<string>>

  predicate Captures(sets: CaptureSets, c: Cell, id: string) {
    c in sets && id in sets[c]
  }

  function Capture(sets: CaptureSets, c: Cell, id: string): CaptureSets {
    sets[c := (if c in sets then sets[c] else {}) + {id}]
  }

  function Release(sets: CaptureSets, c: Cell, id: string): CaptureSets {
    if c !in sets then sets
    else if sets[c] - {id} == {} then sets - {c}
    else sets[c := sets[c] - {id}]
  }

  /** No entry without a block, and in the entry of a cell exactly the blocks whose
      books say that they captured it. */
  ghost predicate Linked(sets: CaptureSets, books: map<string, Books>) {
    && (forall c :: c in sets ==> sets[c] != {})
    && (forall c, id :: Captures(sets, c, id) <==> id in books && c in books[id].captured)
  }

  lemma CaptureKeepsLinks(sets: CaptureSets, books: map<string, Books>, c: Cell, id: string, b: Books)
    requires Linked(sets, books) && id in books
    requires b.captured == books[id].captured + {c}
    ensures Linked(Capture(sets, c, id), books[id := b])
  {
    var after := Capture(sets, c, id);
    forall d, k
      ensures Captures(after, d, k) <==> k in books[id := b] && d in books[id := b][k].captured
    {
      assert Captures(sets, d, k) <==> k in books && d in books[k].captured;
    }
  }

  lemma ReleaseKeepsLinks(sets: CaptureSets, books: map<string, Books>, c: Cell, id: string, b: Books)
    requires Linked(sets, books) && id in books
    requires b.captured == books[id].captured - {c}
    ensures Linked(Release(sets, c, id), books[id := b])
  {
    var after := Release(sets, c, id);
    forall d, k
      ensures Captures(after, d, k) <==> k in books[id := b] && d in books[id := b][k].captured
    {
      assert Captures(sets, d, k) <==> k in books && d in books[k].captured;
      if c in sets {
        assert k != id ==> (k in sets[c] <==> k in sets[c] - {id});
      }
    }
  }

  lemma OtherwiseKeepsLinks(sets: CaptureSets, books: map<string, Books>, id: string, b: Books)
    requires Linked(sets, books)
    requires b.captured == if id in books then books[id].captured else {}
    ensures Linked(sets, books[id := b])
  {
  }

  lemma KeptOnce<V(!new)>(m: map<string, V>, id: string, v: V)
    ensures Kept(m, m[id := v], id) && Kept(m, m - {id}, id)
  {
  }

  lemma KeptTwice<V(!new)>(a: map<string, V>, b: map<string, V>, c: map<string, V>, id: string)
    requires Kept(a, b, id) && Kept(b, c, id)
    ensures Kept(a, c, id)
  {
    forall k | k != id
      ensures SameAt(a, c, k)
    {
      assert SameAt(a, b, k) && SameAt(b, c, k);
    }
  }

  lemma WithoutOne<V(!new)>(a: map<string, V>, b: map<string, V>, id: string)
    requires Kept(a, b, id)
    ensures a - {id} == b - {id}
  {
    forall k | k != id
      ensures (k in a <==> k in b) && (k in a ==> a[k] == b[k])
    {
      assert SameAt(a, b, k);
    }
  }

  lemma ClosingKeepsLinks(sets: CaptureSets, books: map<string, Books>, id: string)
    requires Linked(sets, books) && id in books && books[id].captured == {}
    ensures Linked(sets, books - {id})
  {
  }

  /** Two tables that agree except perhaps for one name. */
  ghost predicate Kept<V(!new)>(a: map<string, V>, b: map<string, V>, id: string) {
    forall k :: k != id ==> SameAt(a, b, k)
  }

  ghost predicate SameAt<V(!new)>(a: map<string, V>, b: map<string, V>, k: string) {
    (k in a <==> k in b) && (k in a && k in b ==> a[k] == b[k])
  }

  // ---------------------------------------------------------------------------
  // Adding and removing a batch of cells
  // ---------------------------------------------------------------------------

  /** Topics and items of acknowledged cells enter the matrix. */
  function Entering(b: Block, answered: set<Cell>): Block {
    if answered == {} then b else Block(b.topics + TopicsOf(answered), b.items + ItemsOf(answered), {}, {})
  }

  /** What ADD requests for these cells do: each cell is asked for once, and those
      acknowledged enter the block. */
  ghost predicate Entered(a: Account, n: Account, asked: set<Cell>, reply: Cell -> int) {
    && n.block == Entering(a.block, Answered(asked, reply))
    && n.books.held == a.books.held + Answered(asked, reply)
    && n.books.adds == a.books.adds + multiset(asked)
    && n.books.drops == a.books.drops
  }

  lemma EnteringTwice(b: Block, x: set<Cell>, y: set<Cell>)
    ensures Entering(Entering(b, x), y) == Entering(b, x + y)
  {
  }

  lemma AnsweredSum(a: set<Cell>, b: set<Cell>, reply: Cell -> int)
    ensures Answered(a + b, reply) == Answered(a, reply) + Answered(b, reply)
  {
  }

  lemma EnteredOneMore(a: Account, m: Account, asked: set<Cell>, reply: Cell -> int, c: Cell, captured: bool)
    requires Entered(a, m, asked, reply) && c !in asked
    ensures Entered(a, AfterAdd(m, c, reply(c), captured), asked + {c}, reply)
  {
    OneMore({}, asked, c);
    AnsweredSum(asked, {c}, reply);
    EnteringTwice(a.block, Answered(asked, reply), Answered({c}, reply));
    EnteringOne(m, c, reply, captured);
    SumAssociates(a.books.held, Answered(asked, reply), Answered({c}, reply));
  }

  lemma SumAssociates(x: set<Cell>, y: set<Cell>, z: set<Cell>)
    ensures x + y + z == x + (y + z)
  {
  }

  lemma EnteringOne(m: Account, c: Cell, reply: Cell -> int, captured: bool)
    ensures var n := AfterAdd(m, c, reply(c), captured);
            && n.block == Entering(m.block, Answered({c}, reply))
            && n.books.held == m.books.held + Answered({c}, reply)
            && n.books.adds == m.books.adds + multiset{c} && n.books.drops == m.books.drops
  {
  }

  /** A batch of ADD requests, this far into it. */
  ghost predicate Adding(start: Account, h: Account, base: set<Cell>, asked: set<Cell>, reply: Cell -> int, failures: nat, thrown: bool) {
    && h.Tracked(base + asked)
    && Entered(start, h, asked, reply)
    && failures == |Refused(asked, reply)|
    && h.books.granted == (start.books.granted && !thrown && failures == 0)
  }

  lemma AddingStep(start: Account, h: Account, n: Account, base: set<Cell>, asked: set<Cell>, reply: Cell -> int, failures: nat, c: Cell, captured: bool)
    requires Adding(start, h, base, asked, reply, failures, false)
    requires c !in base && c !in asked && n == AfterAdd(h, c, reply(c), captured)
    ensures Adding(start, n, base, asked + {c}, reply, failures + (if reply(c) != 0 then 1 else 0), reply(c) == 0 && !captured)
  {
    assert n.Tracked(base + (asked + {c})) && n.books.granted == (h.books.granted && reply(c) == 0 && captured) by {
      AddKeepsTrack(h, c, reply(c), captured, base + asked);
      OneMore(base, asked, c);
    }
    assert Entered(start, n, asked + {c}, reply) by {
      EnteredOneMore(start, h, asked, reply, c, captured);
    }
    RefusedOneMore(asked, reply, c);
  }

  lemma RefusedOneMore(asked: set<Cell>, reply: Cell -> int, c: Cell)
    requires c !in asked
    ensures Refused(asked + {c}, reply) == Refused(asked, reply) + (if reply(c) != 0 then {c} else {})
    ensures |Refused(asked + {c}, reply)| == |Refused(asked, reply)| + (if reply(c) != 0 then 1 else 0)
  {
  }

  /** What REMOVE requests for these cells do: each is sent once, for a cell that is no
      longer captured. */
  ghost predicate Left(h: Account, n: Account, asked: set<Cell>) {
    && n.block == h.block
    && n.books.adds == h.books.adds
    && n.books.drops == h.books.drops + multiset(asked)
    && n.books.captured == h.books.captured - asked
  }

  /** A batch of REMOVE requests, this far into it. */
  ghost predicate Dropping(start: Account, h: Account, base: set<Cell>, asked: set<Cell>, reply: Cell -> int, failures: nat) {
    && h.Tracked(base - asked)
    && Left(start, h, asked)
    && failures == |Refused(asked, reply)|
    && h.books.granted == start.books.granted
  }

  lemma DroppingStep(start: Account, h: Account, n: Account, base: set<Cell>, asked: set<Cell>, reply: Cell -> int, failures: nat, c: Cell)
    requires Dropping(start, h, base, asked, reply, failures)
    requires c in base && c !in asked && n == AfterDrop(h, c, reply(c))
    ensures Dropping(start, n, base, asked + {c}, reply, failures + if reply(c) != 0 then 1 else 0)
  {
    DropKeepsTrack(h, c, reply(c), base - asked);
    RefusedOneMore(asked, reply, c);
    OneMore(base, asked, c);
    OneMore(start.books.captured, asked, c);
  }

  /** Exactly the blocks with a shape are determined by what is wanted of them. */
  lemma ShapeExactly(b: Block)
    ensures b.Shape() <==> b == BlockOf(b.AllTopics(), b.AllItems())
  {
  }

  /** The cells that an addition asks for: new topics with every item, and old topics
      with the new items. */
  function CellsToAdd(b: Block, topics: set<Topic>, items: set<Item>): set<Cell> {
    Cells(b.AllTopics() + topics, b.AllItems() + items) - b.Matrix()
  }

  lemma CellsToAddSplit(b: Block, topics: set<Topic>, items: set<Item>)
    requires b.Shape()
    ensures var newTopics := topics + b.topicPrecache - b.topics;
            var someItems := items + b.itemPrecache;
            var newCells, oldCells := Cells(newTopics, someItems + b.items), Cells(b.topics, someItems - b.items);
            newCells !! oldCells && CellsToAdd(b, topics, items) == newCells + oldCells
  {
  }

  /** What is put aside when one side is still missing. */
  function PutAside(b: Block, topics: set<Topic>, items: set<Item>): Block {
    if topics + b.topicPrecache - b.topics != {} then
      if items + b.itemPrecache + b.items == {} then b.(topicPrecache := b.topicPrecache + (topics + b.topicPrecache - b.topics))
      else b
    else if b.topics == {} then b.(itemPrecache := b.itemPrecache + items)
    else b
  }

  /** Whatever is acknowledged, the block keeps its shape. */
  lemma AdditionKeepsShape(b: Block, topics: set<Topic>, items: set<Item>, answered: set<Cell>)
    requires b.Shape() && answered <= CellsToAdd(b, topics, items)
    ensures PutAside(b, topics, items).Shape()
    ensures Entering(PutAside(b, topics, items), answered).Shape()
  {
    if answered != {} {
      var c :| c in answered;
      assert c.0 in TopicsOf(answered) && c.1 in ItemsOf(answered);
    }
  }

  /** When every request is acknowledged, the block becomes what is wanted of it. */
  lemma AdditionSettles(b: Block, topics: set<Topic>, items: set<Item>)
    requires b.Shape()
    ensures var n := Entering(PutAside(b, topics, items), CellsToAdd(b, topics, items));
            && n == BlockOf(b.AllTopics() + topics, b.AllItems() + items)
            && n.Matrix() == b.Matrix() + CellsToAdd(b, topics, items)
  {
    var T, I := b.AllTopics() + topics, b.AllItems() + items;
    var W := CellsToAdd(b, topics, items);
    EverythingReached(b, T, I);
    if T == {} || I == {} {
      NothingToAdd(b, topics, items);
    } else if W == {} {
      ReachedIsAll(b, T, I);
      NothingPutAside(b, topics, items);
    } else {
      ReachedIsAll(b, T, I);
      assert W == Cells(T, I) - b.Matrix();
      NothingPutAside(b, topics, items);
      assert Entering(b, W) == Block(T, I, {}, {});
    }
  }

  lemma NothingPutAside(b: Block, topics: set<Topic>, items: set<Item>)
    requires b.AllTopics() + topics != {} && b.AllItems() + items != {} && b.Shape()
    ensures var n := PutAside(b, topics, items); n.topics == b.topics && n.items == b.items
    ensures b.topics == b.AllTopics() + topics && b.items == b.AllItems() + items ==> PutAside(b, topics, items) == b
  {
  }

  lemma ReachedIsAll(b: Block, T: set<Topic>, I: set<Item>)
    requires b.Shape() && b.topics <= T && b.items <= I && T != {} && I != {}
    requires Cells(T, I) - b.Matrix() == {} ==> b.topics == T && b.items == I
    ensures Cells(T, I) == b.Matrix() + (Cells(T, I) - b.Matrix())
    ensures Cells(T, I) - b.Matrix() == {} ==> b == BlockOf(T, I)
  {
  }

  lemma NothingToAdd(b: Block, topics: set<Topic>, items: set<Item>)
    requires b.Shape()
    requires b.AllTopics() + topics == {} || b.AllItems() + items == {}
    ensures PutAside(b, topics, items) == BlockOf(b.AllTopics() + topics, b.AllItems() + items)
    ensures b.Matrix() == {} && PutAside(b, topics, items).Matrix() == {}
  {
  }

  /** Together, the cells asked for reach every new topic and every new item. */
  lemma EverythingReached(b: Block, T: set<Topic>, I: set<Item>)
    requires b.Shape() && b.topics <= T && b.items <= I
    ensures var W := Cells(T, I) - b.Matrix();
            T != {} && I != {} ==> b.topics + TopicsOf(W) == T && b.items + ItemsOf(W) == I
    ensures T == {} || I == {} ==> Cells(T, I) - b.Matrix() == {}
  {
    var W := Cells(T, I) - b.Matrix();
    if T != {} && I != {} {
      forall t | t in T && t !in b.topics
        ensures t in TopicsOf(W)
      {
        var i :| i in I;
        assert (t, i) in W;
      }
      forall i | i in I && i !in b.items
        ensures i in ItemsOf(W)
      {
        var t :| t in T;
        assert (t, i) in W;
      }
    }
  }

  lemma PutAsideKeepsTrack(a: Account, topics: set<Topic>, items: set<Item>)
    requires a.Settled()
    ensures Account(PutAside(a.block, topics, items), a.books).Tracked(a.block.Matrix())
  {
  }

  lemma TrackedSettles(n: Account, cells: set<Cell>)
    requires n.Tracked(cells)
    requires n.books.granted ==> n.block.Matrix() == cells
    ensures n.Settled()
  {
  }

  lemma NoneRefused(asked: set<Cell>, reply: Cell -> int)
    requires |Refused(asked, reply)| == 0
    ensures Answered(asked, reply) == asked
  {
    assert Refused(asked, reply) == {};
    assert forall c :: c in asked ==> c !in Refused(asked, reply);
  }

  /** However an addition ended, the block is settled; if nothing failed, it is what is
      wanted of it. */
  lemma AdditionDone(a: Account, n: Account, topics: set<Topic>, items: set<Item>, asked: set<Cell>, reply: Cell -> int, failures: nat, thrown: bool)
    requires a.block.Shape()
    requires Adding(Account(PutAside(a.block, topics, items), a.books), n, a.block.Matrix(), asked, reply, failures, thrown)
    requires !thrown ==> asked == CellsToAdd(a.block, topics, items)
    ensures n.Settled()
    ensures !thrown && failures == 0 ==> n.block == BlockOf(a.block.AllTopics() + topics, a.block.AllItems() + items)
  {
    if !thrown && failures == 0 {
      NoneRefused(asked, reply);
      AdditionSettles(a.block, topics, items);
    }
    TrackedSettles(n, a.block.Matrix() + asked);
  }

  /** A topic out of the matrix; with the last one, the items wait in the pre-cache. */
  function WithoutTopic(b: Block, t: Topic): Block {
    if b.topics - {t} == {} then Block({}, {}, b.itemPrecache + b.items, b.topicPrecache - {t})
    else Block(b.topics - {t}, b.items, b.itemPrecache, b.topicPrecache - {t})
  }

  function WithoutItem(b: Block, i: Item): Block {
    if b.items - {i} == {} then Block({}, {}, b.itemPrecache - {i}, b.topicPrecache + b.topics)
    else Block(b.topics, b.items - {i}, b.itemPrecache - {i}, b.topicPrecache)
  }

  lemma TopicRemovalSettles(b: Block, t: Topic)
    requires b.Shape()
    ensures WithoutTopic(b, t) == BlockOf(b.AllTopics() - {t}, b.AllItems())
    ensures Departs(b, WithoutTopic(b, t), if t in b.topics then Cells({t}, b.items) else {})
  {
  }

  lemma ItemRemovalSettles(b: Block, i: Item)
    requires b.Shape()
    ensures WithoutItem(b, i) == BlockOf(b.AllTopics(), b.AllItems() - {i})
    ensures Departs(b, WithoutItem(b, i), if i in b.items then Cells(b.topics, {i}) else {})
  {
  }

  /** These are the cells that leave the matrix. */
  ghost predicate Departs(b: Block, n: Block, gone: set<Cell>) {
    gone <= b.Matrix() && n.Matrix() == b.Matrix() - gone && gone == b.Matrix() - n.Matrix() && n.Shape()
  }

  // ---------------------------------------------------------------------------
  // Calls, and the lives of blocks
  // ---------------------------------------------------------------------------

  datatype Operation = AddAll(topics: set<Topic>, items: set<Item>) | DropTopic(t: Topic) | DropItem(i: Item) | Close

  /** One operation whose requests are all acknowledged, as the library carries it out
      with its matrix and its two pre-caches. */
  function Operate(b: Block, op: Operation): Block {
    match op
    case AddAll(topics, items) => Entering(PutAside(b, topics, items), CellsToAdd(b, topics, items))
    case DropTopic(t) => if t in b.AllTopics() then WithoutTopic(b, t) else b
    case DropItem(i) => if i in b.AllItems() then WithoutItem(b, i) else b
    case Close => EMPTY_BLOCK
  }

  /** The cells that an operation sends a request for. */
  function CellsOf(b: Block, op: Operation): set<Cell> {
    match op
    case AddAll(topics, items) => CellsToAdd(b, topics, items)
    case DropTopic(t) => if t in b.topics then Cells({t}, b.items) else {}
    case DropItem(i) => if i in b.items then Cells(b.topics, {i}) else {}
    case Close => b.Matrix()
  }

  /** An operation as it was carried out: in which order its cells were asked for, what
      the engine answered, and whether the last buffer could not be mapped. */
  datatype Call = Call(op: Operation, order: seq<Cell>, reply: Cell -> int, thrown: bool)

  function Members(order: seq<Cell>): set<Cell> {
    set c | c in order
  }

  ghost predicate Once(order: seq<Cell>) {
    forall i, j :: 0 <= i < j < |order| ==> order[i] != order[j]
  }

  lemma OnceBefore(order: seq<Cell>)
    requires order != [] && Once(order)
    ensures var before, c := order[..|order| - 1], order[|order| - 1];
            Once(before) && c !in Members(before) && Members(order) == Members(before) + {c}
  {
    var before, c := order[..|order| - 1], order[|order| - 1];
    assert order == before + [c];
  }

  lemma OnceMore(order: seq<Cell>, c: Cell)
    requires Once(order) && c !in Members(order)
    ensures Once(order + [c]) && Members(order + [c]) == Members(order) + {c}
  {
  }

  /** Every cell of the operation once, in any order; an exception cuts an addition short. */
  ghost predicate Carries(b: Block, call: Call) {
    && Once(call.order)
    && Members(call.order) <= CellsOf(b, call.op)
    && (!call.thrown ==> Members(call.order) == CellsOf(b, call.op))
    && (call.thrown ==> call.op.AddAll? && Threw(call.order, call.reply))
  }

  predicate Threw(order: seq<Cell>, reply: Cell -> int) {
    order != [] && reply(order[|order| - 1]) == 0
  }

  function AddEvents(order: seq<Cell>, reply: Cell -> int, thrown: bool): seq<Event> {
    if order == [] then []
    else
      var c := order[|order| - 1];
      AddEvents(order[..|order| - 1], reply, false) +
      if reply(c) != 0 then [Added(c, reply(c))] else [Added(c, 0), if thrown then CaptureFailed(c) else Captured(c)]
  }

  function DropEvents(order: seq<Cell>, reply: Cell -> int): seq<Event> {
    if order == [] then []
    else
      var c := order[|order| - 1];
      DropEvents(order[..|order| - 1], reply) + [Released(c), Removed(c, reply(c))]
  }

  /** What an operation does towards the engine and the capture sets, event by event. */
  function EventsOf(call: Call): seq<Event> {
    if call.op.AddAll? then AddEvents(call.order, call.reply, call.thrown) else DropEvents(call.order, call.reply)
  }

  function BlockAfter(b: Block, call: Call): Block {
    match call.op
    case AddAll(topics, items) => Entering(PutAside(b, topics, items), Answered(Members(call.order), call.reply))
    case _ => Operate(b, call.op)
  }

  /** One block before and after a call. */
  ghost predicate Called(a: Account, n: Account, call: Call) {
    Carries(a.block, call) && n == AfterCall(a, call)
  }

  function AfterCall(a: Account, call: Call): Account {
    Account(BlockAfter(a.block, call), Fold(a.books, EventsOf(call)))
  }

  predicate AllGranted(call: Call) {
    call.op.AddAll? ==> !call.thrown && forall c :: c in call.order ==> call.reply(c) == 0
  }

  function AfterAdds(a: Account, order: seq<Cell>, reply: Cell -> int, thrown: bool): Account {
    if order == [] then a
    else
      var c := order[|order| - 1];
      AfterAdd(AfterAdds(a, order[..|order| - 1], reply, false), c, reply(c), !thrown)
  }

  function AfterDrops(a: Account, order: seq<Cell>, reply: Cell -> int): Account {
    if order == [] then a
    else
      var c := order[|order| - 1];
      AfterDrop(AfterDrops(a, order[..|order| - 1], reply), c, reply(c))
  }

  lemma FoldTwo(b: Books, events: seq<Event>, e: Event, f: Event)
    ensures Fold(b, events + [e]) == Record(Fold(b, events), e)
    ensures Fold(b, events + [e, f]) == Record(Record(Fold(b, events), e), f)
  {
    assert (events + [e])[..|events|] == events;
    assert (events + [e, f])[..|events| + 1] == events + [e];
  }

  lemma {:induction false} AddsFold(a: Account, order: seq<Cell>, reply: Cell -> int, thrown: bool)
    ensures AfterAdds(a, order, reply, thrown).books == Fold(a.books, AddEvents(order, reply, thrown))
  {
    if order != [] {
      var before, c := order[..|order| - 1], order[|order| - 1];
      AddsFold(a, before, reply, false);
      FoldTwo(a.books, AddEvents(before, reply, false), Added(c, reply(c)), if thrown then CaptureFailed(c) else Captured(c));
    }
  }

  lemma {:induction false} DropsFold(a: Account, order: seq<Cell>, reply: Cell -> int)
    ensures AfterDrops(a, order, reply).books == Fold(a.books, DropEvents(order, reply))
  {
    if order != [] {
      var before, c := order[..|order| - 1], order[|order| - 1];
      DropsFold(a, before, reply);
      FoldTwo(a.books, DropEvents(before, reply), Released(c), Removed(c, reply(c)));
    }
  }

  lemma AddsLast(a: Account, order: seq<Cell>, c: Cell, reply: Cell -> int, thrown: bool)
    ensures AfterAdds(a, order + [c], reply, thrown) == AfterAdd(AfterAdds(a, order, reply, false), c, reply(c), !thrown)
  {
    assert (order + [c])[..|order|] == order;
  }

  lemma {:induction false} AddsSum(a: Account, x: seq<Cell>, y: seq<Cell>, reply: Cell -> int, thrown: bool)
    requires y == [] ==> !thrown
    ensures AfterAdds(AfterAdds(a, x, reply, false), y, reply, thrown) == AfterAdds(a, x + y, reply, thrown)
  {
    if y == [] {
      assert x + y == x;
    } else {
      var before, c := y[..|y| - 1], y[|y| - 1];
      assert y == before + [c] && x + y == (x + before) + [c];
      AddsSum(a, x, before, reply, false);
      AddsLast(AfterAdds(a, x, reply, false), before, c, reply, thrown);
      AddsLast(a, x + before, c, reply, thrown);
    }
  }

  lemma {:induction false} AddsAreAdding(start: Account, order: seq<Cell>, reply: Cell -> int, thrown: bool, base: set<Cell>)
    requires start.Tracked(base) && Once(order) && Members(order) !! base
    requires thrown ==> Threw(order, reply)
    ensures Adding(start, AfterAdds(start, order, reply, thrown), base, Members(order), reply, |Refused(Members(order), reply)|, thrown)
  {
    if order == [] {
      assert base + {} == base;
    } else {
      var before, c := order[..|order| - 1], order[|order| - 1];
      OnceBefore(order);
      AddsAreAdding(start, before, reply, false, base);
      AddingOneMore(start, AfterAdds(start, before, reply, false), base, Members(before), reply, c, thrown);
    }
  }

  lemma AddingOneMore(start: Account, h: Account, base: set<Cell>, asked: set<Cell>, reply: Cell -> int, c: Cell, thrown: bool)
    requires Adding(start, h, base, asked, reply, |Refused(asked, reply)|, false)
    requires c !in base && c !in asked && (thrown ==> reply(c) == 0)
    ensures Adding(start, AfterAdd(h, c, reply(c), !thrown), base, asked + {c}, reply, |Refused(asked + {c}, reply)|, thrown)
  {
    AddingStep(start, h, AfterAdd(h, c, reply(c), !thrown), base, asked, reply, |Refused(asked, reply)|, c, !thrown);
    RefusedOneMore(asked, reply, c);
  }

  lemma {:induction false} DropsAreDropping(start: Account, order: seq<Cell>, reply: Cell -> int, base: set<Cell>)
    requires start.Tracked(base) && Once(order) && Members(order) <= base
    ensures Dropping(start, AfterDrops(start, order, reply), base, Members(order), reply, |Refused(Members(order), reply)|)
  {
    if order == [] {
      assert base - {} == base && start.books.captured - {} == start.books.captured;
    } else {
      var before, c := order[..|order| - 1], order[|order| - 1];
      OnceBefore(order);
      DropsAreDropping(start, before, reply, base);
      DroppingStep(start, AfterDrops(start, before, reply), AfterDrops(start, order, reply), base, Members(before), reply,
                   |Refused(Members(before), reply)|, c);
      RefusedOneMore(Members(before), reply, c);
    }
  }

  lemma RemovalDeparts(b: Block, op: Operation)
    requires b.Shape() && !op.AddAll?
    ensures Departs(b, Operate(b, op), CellsOf(b, op))
  {
    match op
    case DropTopic(t) => TopicRemovalSettles(b, t);
    case DropItem(i) => ItemRemovalSettles(b, i);
    case Close =>
  }

  /** What an addition leaves behind, whatever was answered. */
  lemma AdditionCarried(a: Account, call: Call)
    requires a.Settled() && call.op.AddAll? && Carries(a.block, call)
    ensures var aside := Account(PutAside(a.block, call.op.topics, call.op.items), a.books);
            && AfterCall(a, call) == AfterAdds(aside, call.order, call.reply, call.thrown)
            && Adding(aside, AfterCall(a, call), a.block.Matrix(), Members(call.order), call.reply,
                      |Refused(Members(call.order), call.reply)|, call.thrown)
  {
    var aside := Account(PutAside(a.block, call.op.topics, call.op.items), a.books);
    PutAsideKeepsTrack(a, call.op.topics, call.op.items);
    AddsAreAdding(aside, call.order, call.reply, call.thrown, a.block.Matrix());
    AddsFold(aside, call.order, call.reply, call.thrown);
  }

  lemma RemovalCarried(a: Account, call: Call)
    requires a.Settled() && !call.op.AddAll? && Carries(a.block, call)
    ensures AfterCall(a, call).books == AfterDrops(a, call.order, call.reply).books
    ensures Dropping(a, AfterDrops(a, call.order, call.reply), a.block.Matrix(), CellsOf(a.block, call.op), call.reply,
                     |Refused(CellsOf(a.block, call.op), call.reply)|)
    ensures AfterCall(a, call).Settled() && AfterCall(a, call).books.granted == a.books.granted
  {
    RemovalDeparts(a.block, call.op);
    DropsAreDropping(a, call.order, call.reply, a.block.Matrix());
    DropsFold(a, call.order, call.reply);
    RemovalDone(a, AfterDrops(a, call.order, call.reply), Operate(a.block, call.op), CellsOf(a.block, call.op), call.reply,
                |Refused(CellsOf(a.block, call.op), call.reply)|);
  }

  lemma GrantedExactly(call: Call)
    requires call.op.AddAll?
    ensures AllGranted(call) <==> !call.thrown && |Refused(Members(call.order), call.reply)| == 0
  {
    var refused := Refused(Members(call.order), call.reply);
    if c :| c in call.order && call.reply(c) != 0 {
      assert c in refused;
    } else {
      assert refused == {};
    }
  }

  /** Every call, however it went, takes a settled block to a settled block. */
  lemma CallSettles(a: Account, call: Call)
    requires a.Settled() && Carries(a.block, call)
    ensures AfterCall(a, call).Settled()
    ensures AfterCall(a, call).books.granted == (a.books.granted && AllGranted(call))
  {
    if call.op.AddAll? {
      AdditionCarried(a, call);
      GrantedExactly(call);
      AdditionDone(a, AfterCall(a, call), call.op.topics, call.op.items, Members(call.order), call.reply,
                   |Refused(Members(call.order), call.reply)|, call.thrown);
    } else {
      RemovalCarried(a, call);
    }
  }

  /** All calls on a block since it was created; nothing comes after its closing. */
  ghost predicate ProperLife(calls: seq<Call>) {
    calls == [] ||
    var before := calls[..|calls| - 1];
    && ProperLife(before)
    && (before != [] ==> !before[|before| - 1].op.Close?)
    && Carries(LifeBlock(before), calls[|calls| - 1])
  }

  function LifeBlock(calls: seq<Call>): Block {
    if calls == [] then EMPTY_BLOCK else BlockAfter(LifeBlock(calls[..|calls| - 1]), calls[|calls| - 1])
  }

  function LifeEvents(calls: seq<Call>): seq<Event> {
    if calls == [] then [] else LifeEvents(calls[..|calls| - 1]) + EventsOf(calls[|calls| - 1])
  }

  function LifeBooks(calls: seq<Call>): Books {
    Fold(NO_BOOKS, LifeEvents(calls))
  }

  predicate GrantedLife(calls: seq<Call>) {
    forall k :: 0 <= k < |calls| ==> AllGranted(calls[k])
  }

  lemma OneMoreCall(calls: seq<Call>, call: Call)
    ensures LifeBlock(calls + [call]) == BlockAfter(LifeBlock(calls), call)
    ensures LifeEvents(calls + [call]) == LifeEvents(calls) + EventsOf(call)
    ensures LifeBooks(calls + [call]) == Fold(LifeBooks(calls), EventsOf(call))
    ensures ProperLife(calls + [call]) <==>
            ProperLife(calls) && (calls != [] ==> !calls[|calls| - 1].op.Close?) && Carries(LifeBlock(calls), call)
  {
    assert (calls + [call])[..|calls|] == calls;
    FoldSum(NO_BOOKS, LifeEvents(calls), EventsOf(call));
  }

  /** A block between calls is settled, and what it was asked for was granted if every
      addition was. */
  lemma {:induction false} LifeSettled(calls: seq<Call>)
    requires ProperLife(calls)
    ensures Account(LifeBlock(calls), LifeBooks(calls)).Settled()
    ensures LifeBooks(calls).granted <==> GrantedLife(calls)
  {
    if calls != [] {
      var before, call := calls[..|calls| - 1], calls[|calls| - 1];
      LifeSettled(before);
      CallSettles(Account(LifeBlock(before), LifeBooks(before)), call);
      LastCall(calls);
    }
  }

  lemma LastCall(calls: seq<Call>)
    requires calls != []
    ensures var before, call := calls[..|calls| - 1], calls[|calls| - 1];
            && Account(LifeBlock(calls), LifeBooks(calls)) == AfterCall(Account(LifeBlock(before), LifeBooks(before)), call)
            && (GrantedLife(calls) <==> GrantedLife(before) && AllGranted(call))
  {
    var before, call := calls[..|calls| - 1], calls[|calls| - 1];
    assert calls == before + [call];
    OneMoreCall(before, call);
  }

  // ---------------------------------------------------------------------------
  // One client library
  // ---------------------------------------------------------------------------

  ghost predicate AllSettled(blocks: map<string, Block>, books: map<string, Books>) {
    forall k :: SettledAt(blocks, books, k)
  }

  ghost predicate SettledAt(blocks: map<string, Block>, books: map<string, Books>, k: string) {
    k in blocks && k in books ==> Account(blocks[k], books[k]).Settled()
  }

  lemma OneChanged(blocks: map<string, Block>, books: map<string, Books>, blocks': map<string, Block>, books': map<string, Books>, id: string)
    requires AllSettled(blocks, books) && Kept(blocks, blocks', id) && Kept(books, books', id)
    requires id in blocks' && id in books' ==> Account(blocks'[id], books'[id]).Settled()
    ensures AllSettled(blocks', books')
  {
    forall k
      ensures SettledAt(blocks', books', k)
    {
      assert SettledAt(blocks, books, k);
      assert k != id ==> SameAt(blocks, blocks', k) && SameAt(books, books', k);
    }
  }

  class Client {
    var connected: bool
    var blocks: map<string, Block>
    var captures: CaptureSets
    ghost var books: map<string, Books>

    ghost function AccountOf(id: string): Account
      requires id in blocks && id in books
      reads this
    {
      Account(blocks[id], books[id])
    }

    /** The capture sets are those of the blocks there are. */
    ghost predicate Consistent()
      reads this
    {
      books.Keys == blocks.Keys && Linked(captures, books)
    }

    ghost predicate Valid()
      reads this
    {
      Consistent() && AllSettled(blocks, books)
    }

    /** Nothing about any other block. */
    twostate predicate OnlyThis(id: string)
      reads this
    {
      connected == old(connected) && Kept(old(blocks), blocks, id) && Kept(old(books), books, id)
    }

    constructor (connected: bool)
      ensures Valid() && blocks == map[] && captures == map[] && this.connected == connected
    {
      this.connected, blocks, captures, books := connected, map[], map[], map[];
    }

    /** _createBlock: a block limit or an allocation may stand in the way. */
    method CreateBlock(id: string, size: nat, created: bool) returns (err: int)
      requires Valid()
      modifies this
      ensures Valid() && captures == old(captures)
      ensures err != 0 ==> blocks == old(blocks) && books == old(books)
      ensures err == 0 ==> id !in old(blocks) && blocks == old(blocks)[id := EMPTY_BLOCK] && books == old(books)[id := NO_BOOKS]
      ensures err == if !connected then -3
                     else if |id| > 63 || id == "___RESERVED_BLOCK_NAME___" then -1
                     else if size < 1 || size > 16777216 then -8
                     else if id in old(blocks) then -5
                     else if !created then -7
                     else 0
    {
      if !connected {
        return ERROR_NOT_CONNECTED;
      }
      if !IsValidBlockID(id) {
        return ERROR_BAD_INPUT;
      }
      if size < 1 || size > MAX_BLOCK_SIZE {
        return ERROR_BLOCK_SIZE;
      }
      if id in blocks {
        return ERROR_BLOCK_ALREADY_EXISTS;
      }
      if !created {
        return ERROR_BLOCK_CREATION;
      }
      OtherwiseKeepsLinks(captures, books, id, NO_BOOKS);
      KeptOnce(blocks, id, EMPTY_BLOCK);
      KeptOnce(books, id, NO_BOOKS);
      OneChanged(blocks, books, blocks[id := EMPTY_BLOCK], books[id := NO_BOOKS], id);
      blocks, books := blocks[id := EMPTY_BLOCK], books[id := NO_BOOKS];
      err := 0;
    }

    /** _requestStreamOP(ADD) for one cell and, if acknowledged, the cell's entry into
        the block and the capture of its buffer. */
    method AddCell(id: string, c: Cell, reply: Cell -> int, mapped: Cell -> bool) returns (captured: bool)
      requires Consistent() && id in blocks
      modifies this`blocks, this`captures, this`books
      ensures Consistent() && OnlyThis(id) && id in blocks
      ensures captured || reply(c) != 0 || !mapped(c)
      ensures AccountOf(id) == AfterAdd(old(AccountOf(id)), c, reply(c), captured)
    {
      OtherwiseKeepsLinks(captures, books, id, Record(books[id], Added(c, reply(c))));
      books := books[id := Record(books[id], Added(c, reply(c)))];
      captured := false;
      if reply(c) == 0 {
        var db := blocks[id];
        blocks := blocks[id := Block(db.topics + {c.0}, db.items + {c.1}, {}, {})];
        captured := CaptureBuffer(id, c, mapped(c));
      }
    }

    /** _captureBuffer, which throws if it has to map the buffer and cannot. */
    method CaptureBuffer(id: string, c: Cell, mapped: bool) returns (captured: bool)
      requires Consistent() && id in blocks
      modifies this`captures, this`books
      ensures Consistent()
      ensures captured <==> c in old(captures) || mapped
      ensures captures == if captured then Capture(old(captures), c, id) else old(captures)
      ensures books == old(books)[id := Record(old(books)[id], if captured then Captured(c) else CaptureFailed(c))]
    {
      captured := c in captures || mapped;
      ghost var b := Record(books[id], if captured then Captured(c) else CaptureFailed(c));
      if captured {
        CaptureKeepsLinks(captures, books, c, id, b);
        captures := Capture(captures, c, id);
      } else {
        OtherwiseKeepsLinks(captures, books, id, b);
      }
      books := books[id := b];
    }

    /** _releaseBuffer, then _requestStreamOP(REMOVE). */
    method DropCell(id: string, c: Cell, reply: Cell -> int)
      requires Consistent() && id in blocks
      modifies this`captures, this`books
      ensures Consistent() && OnlyThis(id)
      ensures AccountOf(id) == AfterDrop(old(AccountOf(id)), c, reply(c))
    {
      ghost var b := Record(books[id], Released(c));
      ReleaseKeepsLinks(captures, books, c, id, b);
      captures, books := Release(captures, c, id), books[id := b];
      OtherwiseKeepsLinks(captures, books, id, Record(b, Removed(c, reply(c))));
      books := books[id := Record(b, Removed(c, reply(c)))];
    }

    /** The loops over topics and items, in whatever order the sets are walked. */
    method AddCells(id: string, cells: set<Cell>, reply: Cell -> int, mapped: Cell -> bool)
      returns (failures: nat, thrown: bool, ghost order: seq<Cell>)
      requires Consistent() && id in blocks
      modifies this`blocks, this`captures, this`books
      ensures Consistent() && OnlyThis(id) && id in blocks
      ensures Covers(order, cells, thrown)
      ensures Asked(old(AccountOf(id)), AccountOf(id), order, reply, mapped, failures, thrown)
    {
      ghost var start := AccountOf(id);
      var rest := cells;
      failures, thrown, order := 0, false, [];
      while rest != {} && !thrown
        invariant Consistent() && OnlyThis(id) && id in blocks
        invariant rest !! Members(order) && rest + Members(order) == cells
        invariant Asked(start, AccountOf(id), order, reply, mapped, failures, thrown)
        decreases rest
      {
        var c :| c in rest;
        ghost var h, hBlocks, hBooks := AccountOf(id), blocks, books;
        var captured := AddCell(id, c, reply, mapped);
        KeptTwice(old(blocks), hBlocks, blocks, id);
        KeptTwice(old(books), hBooks, books, id);
        AskedOneMore(start, h, order, reply, mapped, failures, c, captured);
        OneMoves(rest, Members(order), c);
        rest, order := rest - {c}, order + [c];
        failures := failures + if reply(c) != 0 then 1 else 0;
        thrown := reply(c) == 0 && !captured;
      }
    }

    method DropCells(id: string, cells: set<Cell>, reply: Cell -> int) returns (failures: nat, ghost order: seq<Cell>)
      requires Consistent() && id in blocks
      modifies this`captures, this`books
      ensures Consistent() && OnlyThis(id)
      ensures Members(order) == cells
      ensures Dropped(old(AccountOf(id)), AccountOf(id), order, reply, failures)
    {
      ghost var start := AccountOf(id);
      var rest := cells;
      failures, order := 0, [];
      while rest != {}
        invariant Consistent() && OnlyThis(id)
        invariant rest !! Members(order) && rest + Members(order) == cells
        invariant Dropped(start, AccountOf(id), order, reply, failures)
        decreases rest
      {
        var c :| c in rest;
        ghost var h, hBooks := AccountOf(id), books;
        DropCell(id, c, reply);
        KeptTwice(old(books), hBooks, books, id);
        DroppedOneMore(start, h, order, reply, failures, c);
        OneMoves(rest, Members(order), c);
        rest, order := rest - {c}, order + [c];
        failures := failures + if reply(c) != 0 then 1 else 0;
      }
    }

    /** The body of TOSDB_Add. The ADD requests sent are exactly the cells of the new
        matrix that were not in the old one, each once. */
    method AddTo(id: string, items: set<Item>, topics: set<Topic>, reply: Cell -> int, mapped: Cell -> bool)
      returns (r: Result, ghost call: Call)
      requires Valid() && id in blocks
      modifies this
      ensures Valid() && OnlyThis(id) && id in blocks
      ensures call.op == AddAll(topics, items) && call.reply == reply
      ensures Called(old(AccountOf(id)), AccountOf(id), call)
      ensures Addition(old(AccountOf(id)), AccountOf(id), call, r, mapped)
    {
      var db := blocks[id];
      ghost var a := AccountOf(id);
      assert SettledAt(blocks, books, id);
      CellsToAddSplit(db, topics, items);
      SetAside(id, items, topics);
      var newCells := Cells(topics + db.topicPrecache - db.topics, items + db.itemPrecache + db.items);
      var oldCells := Cells(db.topics, items + db.itemPrecache - db.items);
      var failures, thrown, order := AddBoth(id, newCells, oldCells, reply, mapped);
      r := if thrown then Thrown else Code(ErrorCode(failures));
      call := Call(AddAll(topics, items), order, reply, thrown);
      AdditionMade(a, AccountOf(id), call, failures, mapped);
      KeptOnce(old(blocks), id, PutAside(db, topics, items));
      KeptTwice(old(blocks), old(blocks)[id := PutAside(db, topics, items)], blocks, id);
      OneChanged(old(blocks), old(books), blocks, books, id);
    }

    /** The two loop nests: all items for the new topics, new items for the old ones. */
    method AddBoth(id: string, newCells: set<Cell>, oldCells: set<Cell>, reply: Cell -> int, mapped: Cell -> bool)
      returns (failures: nat, thrown: bool, ghost order: seq<Cell>)
      requires Consistent() && id in blocks && newCells !! oldCells
      modifies this`blocks, this`captures, this`books
      ensures Consistent() && OnlyThis(id) && id in blocks
      ensures Covers(order, newCells + oldCells, thrown)
      ensures Asked(old(AccountOf(id)), AccountOf(id), order, reply, mapped, failures, thrown)
    {
      failures, thrown, order := AddCells(id, newCells, reply, mapped);
      if !thrown {
        ghost var mBlocks, mBooks := blocks, books;
        failures, thrown, order := AddMore(id, newCells, oldCells, reply, mapped, old(AccountOf(id)), order, failures);
        KeptTwice(old(blocks), mBlocks, blocks, id);
        KeptTwice(old(books), mBooks, books, id);
      }
    }

    method AddMore(id: string, ghost newCells: set<Cell>, oldCells: set<Cell>, reply: Cell -> int, mapped: Cell -> bool,
                   ghost start: Account, ghost first: seq<Cell>, failed: nat)
      returns (failures: nat, thrown: bool, ghost order: seq<Cell>)
      requires Consistent() && id in blocks && newCells !! oldCells
      requires Covers(first, newCells, false) && Asked(start, AccountOf(id), first, reply, mapped, failed, false)
      modifies this`blocks, this`captures, this`books
      ensures Consistent() && OnlyThis(id) && id in blocks
      ensures Covers(order, newCells + oldCells, thrown)
      ensures Asked(start, AccountOf(id), order, reply, mapped, failures, thrown)
    {
      ghost var h := AccountOf(id);
      failures, thrown, order := AddCells(id, oldCells, reply, mapped);
      CoversBoth(first, order, newCells, oldCells, thrown);
      AskedTwice(start, h, AccountOf(id), first, order, reply, mapped, failed, failures, thrown);
      failures, order := failed + failures, first + order;
    }

    /** Topics without any item, or items without any topic, wait in a pre-cache. */
    method SetAside(id: string, items: set<Item>, topics: set<Topic>)
      requires id in blocks
      modifies this`blocks
      ensures blocks == old(blocks)[id := PutAside(old(blocks[id]), topics, items)]
    {
      var db := blocks[id];
      var tdiff := topics + db.topicPrecache - db.topics;
      if tdiff != {} {
        if items + db.itemPrecache + db.items == {} {
          blocks := blocks[id := db.(topicPrecache := db.topicPrecache + tdiff)];
        }
      } else if db.topics == {} {
        blocks := blocks[id := db.(itemPrecache := db.itemPrecache + items)];
      }
    }

    /** TOSDB_Add: NULL topics and invalid items are left out first. */
    method Add(id: string, items: set<Item>, topics: set<Topic>, reply: Cell -> int, mapped: Cell -> bool)
      returns (r: Result, ghost call: Call)
      requires Valid()
      modifies this
      ensures Valid() && OnlyThis(id)
      ensures var err := AddError(old(connected), old(blocks), id, items, topics);
              if err != 0 then r == Code(err) && blocks == old(blocks) && books == old(books)
              else
                && id in blocks
                && call.op == AddAll(topics - {NULL_TOPIC}, ValidItems(items)) && call.reply == reply
                && (forall i :: i in call.op.items <==> i in items && BufferNames.IsValidItemString(i))
                && Called(old(AccountOf(id)), AccountOf(id), call)
                && Addition(old(AccountOf(id)), AccountOf(id), call, r, mapped)
    {
      call := Call(Close, [], reply, false);
      if !connected {
        return Code(ERROR_NOT_CONNECTED), call;
      }
      var goodTopics, goodItems := topics - {NULL_TOPIC}, ValidItems(items);
      if goodItems == {} && goodTopics == {} {
        return Code(ERROR_BAD_INPUT), call;
      }
      if id !in blocks {
        return Code(ERROR_BLOCK_DOESNT_EXIST), call;
      }
      r, call := AddTo(id, goodItems, goodTopics, reply, mapped);
    }

    /** TOSDB_RemoveTopic. The topic goes whatever the engine answers; REMOVE is sent
        once for exactly the cells that leave the matrix. */
    method RemoveTopic(id: string, t: Topic, reply: Cell -> int) returns (err: int, ghost call: Call)
      requires Valid()
      modifies this
      ensures Valid() && OnlyThis(id)
      ensures var e := RemoveTopicError(old(connected), old(blocks), id, t);
              if e != 0 then err == e && blocks == old(blocks) && books == old(books)
              else
                && id in blocks
                && call.op == DropTopic(t) && call.reply == reply && Called(old(AccountOf(id)), AccountOf(id), call)
                && blocks[id] == BlockOf(old(blocks[id]).AllTopics() - {t}, old(blocks[id]).AllItems())
                && Requested(old(books[id]), books[id], old(blocks[id]).Matrix() - blocks[id].Matrix(), reply, err)
    {
      call := Call(DropTopic(t), [], reply, false);
      if t == NULL_TOPIC {
        return ERROR_BAD_TOPIC, call;
      }
      if !connected {
        return ERROR_NOT_CONNECTED, call;
      }
      if id !in blocks {
        return ERROR_BLOCK_DOESNT_EXIST, call;
      }
      if t !in blocks[id].topics && t !in blocks[id].topicPrecache {
        return ERROR_BAD_TOPIC, call;
      }
      assert SettledAt(blocks, books, id);
      TopicRemovalSettles(blocks[id], t);
      var db := blocks[id];
      err, call := RemoveCells(id, if t in db.topics then Cells({t}, db.items) else {}, WithoutTopic(db, t), reply, DropTopic(t));
    }

    /** TOSDB_RemoveItem. */
    method RemoveItem(id: string, i: Item, reply: Cell -> int) returns (err: int, ghost call: Call)
      requires Valid()
      modifies this
      ensures Valid() && OnlyThis(id)
      ensures var e := RemoveItemError(old(connected), old(blocks), id, i);
              if e != 0 then err == e && blocks == old(blocks) && books == old(books)
              else
                && id in blocks
                && call.op == DropItem(i) && call.reply == reply && Called(old(AccountOf(id)), AccountOf(id), call)
                && blocks[id] == BlockOf(old(blocks[id]).AllTopics(), old(blocks[id]).AllItems() - {i})
                && Requested(old(books[id]), books[id], old(blocks[id]).Matrix() - blocks[id].Matrix(), reply, err)
    {
      call := Call(DropItem(i), [], reply, false);
      if |i| > BufferNames.MAX_STRING || !IsValidBlockID(id) {
        return ERROR_BAD_INPUT, call;
      }
      if !connected {
        return ERROR_NOT_CONNECTED, call;
      }
      if id !in blocks {
        return ERROR_BLOCK_DOESNT_EXIST, call;
      }
      if i !in blocks[id].items && i !in blocks[id].itemPrecache {
        return ERROR_BAD_ITEM, call;
      }
      assert SettledAt(blocks, books, id);
      ItemRemovalSettles(blocks[id], i);
      var db := blocks[id];
      err, call := RemoveCells(id, if i in db.items then Cells(db.topics, {i}) else {}, WithoutItem(db, i), reply, DropItem(i));
    }

    /** The cells are released and removed, and then the block is changed to match. */
    method RemoveCells(id: string, gone: set<Cell>, n: Block, reply: Cell -> int, ghost op: Operation)
      returns (err: int, ghost call: Call)
      requires Valid() && id in blocks && (op.DropTopic? || op.DropItem?)
      requires gone == CellsOf(blocks[id], op) && n == Operate(blocks[id], op)
      modifies this
      ensures Valid() && OnlyThis(id) && id in blocks && blocks[id] == n
      ensures call.op == op && call.reply == reply && Called(old(AccountOf(id)), AccountOf(id), call)
      ensures Requested(old(books[id]), books[id], old(blocks[id]).Matrix() - n.Matrix(), reply, err)
    {
      assert SettledAt(blocks, books, id);
      ghost var a := AccountOf(id);
      var failures, order := DropCells(id, gone, reply);
      call := Call(op, order, reply, false);
      RemovalMade(a, AccountOf(id), call, failures);
      KeptOnce(blocks, id, n);
      blocks := blocks[id := n];
      OneChanged(old(blocks), old(books), blocks, books, id);
      err := ErrorCode(failures);
    }

    /** TOSDB_CloseBlock. REMOVE is sent once for every cell of the matrix, and the block
        is in no capture set any more when it is deleted. */
    method CloseBlock(id: string, reply: Cell -> int) returns (err: int, ghost call: Call)
      requires Valid()
      modifies this
      ensures Valid()
      ensures !IsValidBlockID(id) ==> err == ERROR_BAD_INPUT
      ensures IsValidBlockID(id) && id !in old(blocks) ==> err == ERROR_BLOCK_DOESNT_EXIST
      ensures !IsValidBlockID(id) || id !in old(blocks) ==> blocks == old(blocks) && books == old(books)
      ensures IsValidBlockID(id) && id in old(blocks) ==>
                && blocks == old(blocks) - {id} && books == old(books) - {id}
                && call.op == Close && call.reply == reply
                && Closed(old(AccountOf(id)), call, err)
      ensures id !in blocks ==> forall c :: !Captures(captures, c, id)
    {
      call := Call(Close, [], reply, false);
      if !IsValidBlockID(id) {
        return ERROR_BAD_INPUT, call;
      }
      if id !in blocks {
        return ERROR_BLOCK_DOESNT_EXIST, call;
      }
      assert SettledAt(blocks, books, id);
      ghost var a := AccountOf(id);
      var failures, order := DropCells(id, blocks[id].Matrix(), reply);
      call := Call(Close, order, reply, false);
      ClosingMade(a, AccountOf(id), call, failures);
      WithoutOne(old(books), books, id);
      RemoveEntry(id, a);
      KeptOnce(old(blocks), id, EMPTY_BLOCK);
      KeptOnce(old(books), id, NO_BOOKS);
      OneChanged(old(blocks), old(books), blocks, books, id);
      err := ErrorCode(failures);
    }

    /** The block has released everything, and goes from the table. */
    method RemoveEntry(id: string, ghost a: Account)
      requires Consistent() && id in blocks && books[id].captured == {}
      modifies this`blocks, this`books
      ensures Consistent() && blocks == old(blocks) - {id} && books == old(books) - {id}
    {
      ClosingKeepsLinks(captures, books, id);
      blocks, books := blocks - {id}, books - {id};
    }

    /** When the library is unloaded, it sends one REMOVE for every entry of its capture
        sets, whatever the answers: these are the cells, in the order of the requests. */
    method Unload() returns (order: seq<Cell>)
      ensures Once(order) && Members(order) == captures.Keys
    {
      var rest := captures.Keys;
      order := [];
      while rest != {}
        invariant Once(order) && rest !! Members(order) && rest + Members(order) == captures.Keys
        decreases rest
      {
        var c :| c in rest;
        OnceMore(order, c);
        OneMoves(rest, Members(order), c);
        rest, order := rest - {c}, order + [c];
      }
    }
  }

  // ---------------------------------------------------------------------------
  // Which calls are refused, and what the others request
  // ---------------------------------------------------------------------------

  function ValidItems(items: set<Item>): set<Item> {
    set i | i in items && BufferNames.IsValidItemString(i)
  }

  function AddError(connected: bool, blocks: map<string, Block>, id: string, items: set<Item>, topics: set<Topic>): int {
    if !connected then ERROR_NOT_CONNECTED
    else if ValidItems(items) == {} && topics - {NULL_TOPIC} == {} then ERROR_BAD_INPUT
    else if id !in blocks then ERROR_BLOCK_DOESNT_EXIST
    else 0
  }

  function RemoveTopicError(connected: bool, blocks: map<string, Block>, id: string, t: Topic): int {
    if t == NULL_TOPIC then ERROR_BAD_TOPIC
    else if !connected then ERROR_NOT_CONNECTED
    else if id !in blocks then ERROR_BLOCK_DOESNT_EXIST
    else if t !in blocks[id].AllTopics() then ERROR_BAD_TOPIC
    else 0
  }

  function RemoveItemError(connected: bool, blocks: map<string, Block>, id: string, i: Item): int {
    if |i| > BufferNames.MAX_STRING || !IsValidBlockID(id) then ERROR_BAD_INPUT
    else if !connected then ERROR_NOT_CONNECTED
    else if id !in blocks then ERROR_BLOCK_DOESNT_EXIST
    else if i !in blocks[id].AllItems() then ERROR_BAD_ITEM
    else 0
  }

  /** Exactly when an addition is refused as a whole, and with which code. */
  lemma AddRefusedExactly(connected: bool, blocks: map<string, Block>, id: string, items: set<Item>, topics: set<Topic>)
    ensures var some := (exists i :: i in items && BufferNames.IsValidItemString(i)) || exists t :: t in topics && t != NULL_TOPIC;
            && (AddError(connected, blocks, id, items, topics) == 0 <==> connected && id in blocks && some)
            && (AddError(connected, blocks, id, items, topics) == -3 <==> !connected)
            && (AddError(connected, blocks, id, items, topics) == -1 <==> connected && !some)
            && (AddError(connected, blocks, id, items, topics) == -6 <==> connected && some && id !in blocks)
  {
    if i :| i in items && BufferNames.IsValidItemString(i) {
      assert i in ValidItems(items);
    }
    if t :| t in topics && t != NULL_TOPIC {
      assert t in topics - {NULL_TOPIC};
    }
  }

  /** And when a removal is. What only waits in a pre-cache can be removed too. */
  lemma RemovalRefusedExactly(connected: bool, blocks: map<string, Block>, id: string, t: Topic, i: Item)
    ensures var e := RemoveTopicError(connected, blocks, id, t);
            && (e == 0 <==> t != NULL_TOPIC && connected && id in blocks && (t in blocks[id].topics || t in blocks[id].topicPrecache))
            && (e == -3 <==> t != NULL_TOPIC && !connected)
            && (e == -6 <==> t != NULL_TOPIC && connected && id !in blocks)
            && e in {0, -3, -6, -9}
    ensures var e := RemoveItemError(connected, blocks, id, i);
            var well := |i| <= 255 && |id| <= 63 && id != "___RESERVED_BLOCK_NAME___";
            && (e == 0 <==> well && connected && id in blocks && (i in blocks[id].items || i in blocks[id].itemPrecache))
            && (e == -1 <==> !well)
            && (e == -3 <==> well && !connected)
            && (e == -6 <==> well && connected && id !in blocks)
            && e in {0, -1, -3, -6, -10}
  {
  }

  /** An addition of which nothing is acknowledged changes nothing, pre-caches included, if
      there were topics and items to ask for; otherwise what is given waits. */
  lemma NothingAcknowledged(b: Block, call: Call)
    requires b.Shape() && call.op.AddAll? && Carries(b, call) && forall c :: c in call.order ==> call.reply(c) != 0
    ensures var topics, items := b.AllTopics() + call.op.topics, b.AllItems() + call.op.items;
            BlockAfter(b, call) == if topics != {} && items != {} then b else BlockOf(topics, items)
  {
    assert Answered(Members(call.order), call.reply) == {};
    if b.AllTopics() + call.op.topics == {} || b.AllItems() + call.op.items == {} {
      NothingToAdd(b, call.op.topics, call.op.items);
    }
  }

  /** REMOVE was sent once for each of these cells, and nothing else. */
  ghost predicate Requested(b: Books, n: Books, gone: set<Cell>, reply: Cell -> int, err: int) {
    && n.adds == b.adds && n.drops == b.drops + multiset(gone)
    && err == ErrorCode(|Refused(gone, reply)|)
  }

  /** ADD was sent once for the cells of the new matrix that were not in the old one, as
      far as the addition got; those acknowledged entered the block, and the result counts
      the others. An exception comes from the last cell, whose buffer was not mapped. */
  ghost predicate Addition(a: Account, n: Account, call: Call, r: Result, mapped: Cell -> bool)
    requires call.op.AddAll?
  {
    var topics, items, asked := call.op.topics, call.op.items, Members(call.order);
    var W := BlockOf(a.block.AllTopics() + topics, a.block.AllItems() + items).Matrix() - a.block.Matrix();
    && Carries(a.block, call) && asked <= W
    && n.block == Entering(PutAside(a.block, topics, items), Answered(asked, call.reply))
    && n.books.adds == a.books.adds + multiset(asked) && n.books.drops == a.books.drops
    && (if call.thrown then r == Thrown && Threw(call.order, call.reply) && !mapped(call.order[|call.order| - 1])
        else r == Code(ErrorCode(|Refused(W, call.reply)|)) && asked == W)
    && (r == Code(0) ==> n.block == BlockOf(a.block.AllTopics() + topics, a.block.AllItems() + items))
  }

  lemma NewCells(b: Block, topics: set<Topic>, items: set<Item>)
    requires b.Shape()
    ensures BlockOf(b.AllTopics() + topics, b.AllItems() + items).Matrix() - b.Matrix() == CellsToAdd(b, topics, items)
  {
  }

  lemma AddsOneMore(start: Account, order: seq<Cell>, reply: Cell -> int, c: Cell, captured: bool)
    ensures AfterAdds(start, order + [c], reply, reply(c) == 0 && !captured) ==
            AfterAdd(AfterAdds(start, order, reply, false), c, reply(c), captured)
  {
    assert (order + [c])[..|order|] == order;
  }

  /** A loop of ADD requests, this far into it. */
  ghost predicate Asked(start: Account, now: Account, order: seq<Cell>, reply: Cell -> int, mapped: Cell -> bool, failures: nat, thrown: bool) {
    && Once(order)
    && now == AfterAdds(start, order, reply, thrown)
    && failures == |Refused(Members(order), reply)|
    && (thrown ==> Threw(order, reply) && !mapped(order[|order| - 1]))
  }

  lemma AskedOneMore(start: Account, now: Account, order: seq<Cell>, reply: Cell -> int, mapped: Cell -> bool,
                     failures: nat, c: Cell, captured: bool)
    requires Asked(start, now, order, reply, mapped, failures, false) && c !in Members(order)
    requires captured || reply(c) != 0 || !mapped(c)
    ensures Asked(start, AfterAdd(now, c, reply(c), captured), order + [c], reply, mapped,
                  failures + (if reply(c) != 0 then 1 else 0), reply(c) == 0 && !captured)
    ensures Members(order + [c]) == Members(order) + {c}
  {
    OnceMore(order, c);
    RefusedOneMore(Members(order), reply, c);
    AddsOneMore(start, order, reply, c, captured);
  }

  /** All the cells, unless an exception cut the loop short. */
  ghost predicate Covers(order: seq<Cell>, cells: set<Cell>, thrown: bool) {
    Members(order) <= cells && (!thrown ==> Members(order) == cells)
  }

  lemma AskedTwice(start: Account, h: Account, now: Account, x: seq<Cell>, y: seq<Cell>,
                   reply: Cell -> int, mapped: Cell -> bool, f: nat, g: nat, thrown: bool)
    requires Asked(start, h, x, reply, mapped, f, false) && Asked(h, now, y, reply, mapped, g, thrown)
    requires Members(x) !! Members(y)
    ensures Asked(start, now, x + y, reply, mapped, f + g, thrown)
  {
    AddsSum(start, x, y, reply, thrown);
    OnceBoth(x, y, reply);
  }

  lemma CoversBoth(x: seq<Cell>, y: seq<Cell>, newCells: set<Cell>, oldCells: set<Cell>, thrown: bool)
    requires Covers(x, newCells, false) && Covers(y, oldCells, thrown) && newCells !! oldCells
    ensures Covers(x + y, newCells + oldCells, thrown) && Members(x) !! Members(y)
  {
    assert Members(x + y) == Members(x) + Members(y);
  }

  ghost predicate Dropped(start: Account, now: Account, order: seq<Cell>, reply: Cell -> int, failures: nat) {
    && Once(order)
    && now == AfterDrops(start, order, reply)
    && failures == |Refused(Members(order), reply)|
  }

  lemma DroppedOneMore(start: Account, now: Account, order: seq<Cell>, reply: Cell -> int, failures: nat, c: Cell)
    requires Dropped(start, now, order, reply, failures) && c !in Members(order)
    ensures Dropped(start, AfterDrop(now, c, reply(c)), order + [c], reply, failures + if reply(c) != 0 then 1 else 0)
    ensures Members(order + [c]) == Members(order) + {c}
  {
    OnceMore(order, c);
    RefusedOneMore(Members(order), reply, c);
    assert (order + [c])[..|order|] == order;
  }

  lemma OnceBoth(x: seq<Cell>, y: seq<Cell>, reply: Cell -> int)
    requires Once(x) && Once(y) && Members(x) !! Members(y)
    ensures Once(x + y) && Members(x + y) == Members(x) + Members(y)
    ensures |Refused(Members(x + y), reply)| == |Refused(Members(x), reply)| + |Refused(Members(y), reply)|
  {
    forall i, j | 0 <= i < j < |x + y|
      ensures (x + y)[i] != (x + y)[j]
    {
      if i < |x| <= j {
        assert x[i] in Members(x) && y[j - |x|] in Members(y);
      }
    }
    assert Refused(Members(x + y), reply) == Refused(Members(x), reply) + Refused(Members(y), reply);
  }

  lemma AdditionMade(a: Account, n: Account, call: Call, failures: nat, mapped: Cell -> bool)
    requires a.Settled() && call.op.AddAll?
    requires Covers(call.order, CellsOf(a.block, call.op), call.thrown)
    requires Asked(Account(PutAside(a.block, call.op.topics, call.op.items), a.books), n, call.order, call.reply, mapped, failures, call.thrown)
    ensures Called(a, n, call) && n.Settled()
    ensures Addition(a, n, call, if call.thrown then Thrown else Code(ErrorCode(failures)), mapped)
  {
    AdditionCarried(a, call);
    NewCells(a.block, call.op.topics, call.op.items);
    AdditionDone(a, n, call.op.topics, call.op.items, Members(call.order), call.reply, failures, call.thrown);
  }

  /** The cells are dropped, and then the block is changed to match. */
  lemma RemovalDone(a: Account, m: Account, n: Block, gone: set<Cell>, reply: Cell -> int, failures: nat)
    requires a.Settled() && Departs(a.block, n, gone)
    requires Dropping(a, m, a.block.Matrix(), gone, reply, failures)
    ensures Account(n, m.books).Settled()
    ensures Requested(a.books, m.books, a.block.Matrix() - n.Matrix(), reply, ErrorCode(failures))
  {
  }

  lemma RemovalMade(a: Account, m: Account, call: Call, failures: nat)
    requires a.Settled() && !call.op.AddAll? && !call.thrown
    requires Members(call.order) == CellsOf(a.block, call.op) && Dropped(a, m, call.order, call.reply, failures)
    ensures var n := Operate(a.block, call.op);
            && Called(a, Account(n, m.books), call) && Account(n, m.books).Settled()
            && Requested(a.books, m.books, a.block.Matrix() - n.Matrix(), call.reply, ErrorCode(failures))
  {
    RemovalCarried(a, call);
    RemovalDeparts(a.block, call.op);
    RemovalDone(a, m, Operate(a.block, call.op), CellsOf(a.block, call.op), call.reply, failures);
  }

  /** A block that was closed has released everything, and holds nothing if every ADD was
      granted. */
  ghost predicate Closed(a: Account, call: Call, err: int) {
    var n := AfterCall(a, call);
    && Called(a, n, call)
    && Requested(a.books, n.books, a.block.Matrix(), call.reply, err)
    && n.books.captured == {} && (n.books.granted ==> n.books.held == {})
  }

  lemma ClosingMade(a: Account, m: Account, call: Call, failures: nat)
    requires a.Settled() && call.op.Close? && !call.thrown
    requires Members(call.order) == a.block.Matrix() && Dropped(a, m, call.order, call.reply, failures)
    ensures Closed(a, call, ErrorCode(failures)) && m.books.captured == {}
  {
    RemovalMade(a, m, call, failures);
    NothingHeld(AfterCall(a, call));
    assert a.block.Matrix() - EMPTY_BLOCK.Matrix() == a.block.Matrix();
  }

  lemma NothingHeld(a: Account)
    requires a.Settled() && a.block == EMPTY_BLOCK
    ensures a.books.captured == {} && (a.books.granted ==> a.books.held == {})
  {
  }

  // ---------------------------------------------------------------------------
  // What a block comes to over any run of its operations
  // ---------------------------------------------------------------------------

  function OperateAll(ops: seq<Operation>): Block {
    if ops == [] then EMPTY_BLOCK else Operate(OperateAll(ops[..|ops| - 1]), ops[|ops| - 1])
  }

  /** What was asked for, topics and items apart, with no regard to pre-caching. */
  function WantedTopics(ops: seq<Operation>): set<Topic> {
    if ops == [] then {}
    else
      var before, op := WantedTopics(ops[..|ops| - 1]), ops[|ops| - 1];
      match op
      case AddAll(topics, _) => before + topics
      case DropTopic(t) => before - {t}
      case DropItem(_) => before
      case Close => {}
  }

  function WantedItems(ops: seq<Operation>): set<Item> {
    if ops == [] then {}
    else
      var before, op := WantedItems(ops[..|ops| - 1]), ops[|ops| - 1];
      match op
      case AddAll(_, items) => before + items
      case DropTopic(_) => before
      case DropItem(i) => before - {i}
      case Close => {}
  }

  lemma BlockOfKeepsWanted(topics: set<Topic>, items: set<Item>)
    ensures BlockOf(topics, items).AllTopics() == topics && BlockOf(topics, items).AllItems() == items
    ensures BlockOf(topics, items).Shape()
  {
  }

  lemma OneOperation(topics: set<Topic>, items: set<Item>, op: Operation)
    ensures Operate(BlockOf(topics, items), op) ==
            match op
            case AddAll(ts, xs) => BlockOf(topics + ts, items + xs)
            case DropTopic(t) => BlockOf(topics - {t}, items)
            case DropItem(i) => BlockOf(topics, items - {i})
            case Close => BlockOf({}, {})
  {
    var b := BlockOf(topics, items);
    BlockOfKeepsWanted(topics, items);
    match op
    case AddAll(ts, xs) => AdditionSettles(b, ts, xs);
    case DropTopic(t) =>
      TopicRemovalSettles(b, t);
      assert t !in topics ==> topics - {t} == topics;
    case DropItem(i) =>
      ItemRemovalSettles(b, i);
      assert i !in items ==> items - {i} == items;
    case Close =>
  }

  /** The pre-caches make the order of the calls irrelevant: over any run, the block is
      the one that has all the wanted topics and all the wanted items. */
  lemma {:induction false} OperationsSettle(ops: seq<Operation>)
    ensures OperateAll(ops) == BlockOf(WantedTopics(ops), WantedItems(ops))
  {
    if ops != [] {
      var before := ops[..|ops| - 1];
      OperationsSettle(before);
      OneOperation(WantedTopics(before), WantedItems(before), ops[|ops| - 1]);
    }
  }

  function Operations(calls: seq<Call>): (ops: seq<Operation>)
    ensures |ops| == |calls|
  {
    seq(|calls|, k requires 0 <= k < |calls| => calls[k].op)
  }

  lemma GrantedCallOperates(b: Block, call: Call)
    requires Carries(b, call) && AllGranted(call)
    ensures BlockAfter(b, call) == Operate(b, call.op)
  {
    assert Answered(Members(call.order), call.reply) == Members(call.order) || !call.op.AddAll?;
  }

  /** If every addition was granted, a block is the one wanted by the operations on it. */
  lemma {:induction false} LifeIsWanted(calls: seq<Call>)
    requires ProperLife(calls) && GrantedLife(calls)
    ensures LifeBlock(calls) == BlockOf(WantedTopics(Operations(calls)), WantedItems(Operations(calls)))
  {
    var ops := Operations(calls);
    OperationsSettle(ops);
    LifeOperates(calls);
  }

  lemma {:induction false} LifeOperates(calls: seq<Call>)
    requires ProperLife(calls) && GrantedLife(calls)
    ensures LifeBlock(calls) == OperateAll(Operations(calls))
  {
    if calls != [] {
      var before := calls[..|calls| - 1];
      LifeOperates(before);
      assert Operations(calls)[..|calls| - 1] == Operations(before);
      GrantedCallOperates(LifeBlock(before), calls[|calls| - 1]);
    }
  }

  /** Adding back what was removed restores the block, the last topic or item included. */
  lemma AddingBackRestores(b: Block, t: Topic, i: Item)
    requires b.Shape()
    ensures t in b.AllTopics() ==> Operate(Operate(b, DropTopic(t)), AddAll({t}, {})) == b
    ensures i in b.AllItems() ==> Operate(Operate(b, DropItem(i)), AddAll({}, {i})) == b
  {
    var T, I := b.AllTopics(), b.AllItems();
    ShapeExactly(b);
    OneOperation(T, I, DropTopic(t));
    OneOperation(T - {t}, I, AddAll({t}, {}));
    OneOperation(T, I, DropItem(i));
    OneOperation(T, I - {i}, AddAll({}, {i}));
    assert t in T ==> T - {t} + {t} == T;
    assert i in I ==> I - {i} + {i} == I;
    assert T + {} == T && I + {} == I;
  }

  // ---------------------------------------------------------------------------
  // Additions that leave a gap
  // ---------------------------------------------------------------------------

  /** The cells that were not acknowledged, because they were refused or because the addition
      was cut short before them, although cells with their topic and cells with their item
      are in the block. */
  function GapOf(b: Block, call: Call): set<Cell>
    requires call.op.AddAll?
  {
    var answered := Answered(Members(call.order), call.reply);
    set c | c in CellsOf(b, call.op) - answered && answered != {} &&
            c.0 in b.topics + TopicsOf(answered) && c.1 in b.items + ItemsOf(answered)
  }

  ghost predicate Gapless(b: Block, call: Call) {
    call.op.AddAll? ==> GapOf(b, call) == {}
  }

  lemma MembersBefore(order: seq<Cell>)
    requires order != []
    ensures Members(order) == Members(order[..|order| - 1]) + {order[|order| - 1]}
  {
    assert order == order[..|order| - 1] + [order[|order| - 1]];
  }

  lemma AnsweredMore(cells: set<Cell>, reply: Cell -> int, c: Cell)
    ensures Answered(cells + {c}, reply) == if reply(c) == 0 then Answered(cells, reply) + {c} else Answered(cells, reply)
  {
  }

  lemma {:induction false} AddsHold(a: Account, order: seq<Cell>, reply: Cell -> int, thrown: bool)
    requires Once(order) && Members(order) !! a.books.held
    ensures var n := AfterAdds(a, order, reply, thrown).books;
            && n.held == a.books.held + Answered(Members(order), reply)
            && n.proper == a.books.proper
  {
    if order != [] {
      var before, c := order[..|order| - 1], order[|order| - 1];
      OnceBefore(order);
      AddsHold(a, before, reply, false);
      AnsweredMore(Members(before), reply, c);
      SumAssociates(a.books.held, Answered(Members(before), reply), {c});
    }
  }

  lemma {:induction false} AddsCapture(a: Account, order: seq<Cell>, reply: Cell -> int)
    ensures AfterAdds(a, order, reply, false).books.captured == a.books.captured + Answered(Members(order), reply)
  {
    if order != [] {
      var before, c := order[..|order| - 1], order[|order| - 1];
      AddsCapture(a, before, reply);
      MembersBefore(order);
      AnsweredMore(Members(before), reply, c);
      SumAssociates(a.books.captured, Answered(Members(before), reply), {c});
    }
  }

  lemma DropHolds(a: Account, c: Cell, code: int)
    ensures AfterDrop(a, c, code).books.held == a.books.held - {c}
    ensures c in a.books.held ==> AfterDrop(a, c, code).books.proper == a.books.proper
  {
  }

  lemma {:induction false} DropsHold(a: Account, order: seq<Cell>, reply: Cell -> int)
    requires Once(order) && Members(order) <= a.books.held
    ensures AfterDrops(a, order, reply).books.held == a.books.held - Members(order)
    ensures AfterDrops(a, order, reply).books.proper == a.books.proper
  {
    if order != [] {
      var before, c := order[..|order| - 1], order[|order| - 1];
      OnceBefore(order);
      DropsHold(a, before, reply);
      DropHolds(AfterDrops(a, before, reply), c, reply(c));
      OneMore(a.books.held, Members(before), c);
    }
  }

  /** Acknowledged cells are in the block, and the others that are in it are the gap. */
  lemma GapInBlock(b: Block, call: Call)
    requires b.Shape() && call.op.AddAll? && Carries(b, call)
    ensures var answered := Answered(Members(call.order), call.reply);
            && b.Matrix() + answered <= BlockAfter(b, call).Matrix()
            && BlockAfter(b, call).Matrix() - (b.Matrix() + answered) == GapOf(b, call)
  {
    var answered := Answered(Members(call.order), call.reply);
    AsideMatrix(b, call.op.topics, call.op.items);
    if answered != {} {
      AnsweredWanted(b, call);
      GapBetween(b, answered, CellsOf(b, call.op), b.AllTopics() + call.op.topics, b.AllItems() + call.op.items);
    }
  }

  lemma GapBetween(b: Block, answered: set<Cell>, wanted: set<Cell>, T: set<Topic>, I: set<Item>)
    requires b.topics + TopicsOf(answered) <= T && b.items + ItemsOf(answered) <= I
    requires answered <= Cells(TopicsOf(answered), ItemsOf(answered)) && wanted == Cells(T, I) - b.Matrix()
    ensures var after := Cells(b.topics + TopicsOf(answered), b.items + ItemsOf(answered));
            && b.Matrix() + answered <= after
            && after - (b.Matrix() + answered) ==
               set c | c in wanted - answered && c.0 in b.topics + TopicsOf(answered) && c.1 in b.items + ItemsOf(answered)
  {
  }

  lemma AsideMatrix(b: Block, topics: set<Topic>, items: set<Item>)
    requires b.Shape()
    ensures PutAside(b, topics, items).topics == b.topics && PutAside(b, topics, items).items == b.items
  {
  }

  lemma AnsweredWanted(b: Block, call: Call)
    requires b.Shape() && call.op.AddAll? && Carries(b, call)
    ensures var answered := Answered(Members(call.order), call.reply);
            && b.topics + TopicsOf(answered) <= b.AllTopics() + call.op.topics
            && b.items + ItemsOf(answered) <= b.AllItems() + call.op.items
            && answered <= Cells(TopicsOf(answered), ItemsOf(answered))
  {
  }

  /** After any addition, refused or thrown in part or not, to a block that holds its matrix:
      a later REMOVE will be sent for a cell that it does not hold exactly if the cell is in
      the gap. */
  lemma AdditionLeavesGapExactly(a: Account, call: Call)
    requires a.block.Shape() && a.books.held == a.block.Matrix()
    requires call.op.AddAll? && Carries(a.block, call)
    ensures var n := AfterCall(a, call);
            && n.block.Matrix() - n.books.held == GapOf(a.block, call)
            && n.books.held <= n.block.Matrix() && n.books.proper == a.books.proper
  {
    var aside := Account(PutAside(a.block, call.op.topics, call.op.items), a.books);
    AddsFold(aside, call.order, call.reply, call.thrown);
    AddsHold(aside, call.order, call.reply, call.thrown);
    GapInBlock(a.block, call);
  }

  lemma RemovalHolds(a: Account, call: Call)
    requires a.block.Shape() && a.books.held == a.block.Matrix() && Carries(a.block, call) && !call.op.AddAll?
    ensures var n := AfterCall(a, call);
            n.books.held == n.block.Matrix() && n.books.proper == a.books.proper
  {
    RemovalDeparts(a.block, call.op);
    DropsFold(a, call.order, call.reply);
    DropsHold(a, call.order, call.reply);
  }

  lemma SameExactly(held: set<Cell>, matrix: set<Cell>, gap: set<Cell>)
    requires held <= matrix && matrix - held == gap
    ensures held == matrix <==> gap == {}
  {
    if gap == {} {
      forall c | c in matrix
        ensures c in held
      {
        assert c !in gap;
      }
    }
  }

  lemma AdditionHoldsExactly(a: Account, call: Call)
    requires a.block.Shape() && a.books.held == a.block.Matrix() && Carries(a.block, call) && call.op.AddAll?
    ensures var n := AfterCall(a, call);
            && (n.books.held == n.block.Matrix() <==> GapOf(a.block, call) == {})
            && n.books.proper == a.books.proper
  {
    AdditionLeavesGapExactly(a, call);
    SameExactly(AfterCall(a, call).books.held, AfterCall(a, call).block.Matrix(), GapOf(a.block, call));
  }

  lemma CallHoldsExactly(a: Account, call: Call)
    requires a.block.Shape() && a.books.held == a.block.Matrix() && Carries(a.block, call)
    ensures var n := AfterCall(a, call);
            && (n.books.held == n.block.Matrix() <==> Gapless(a.block, call))
            && n.books.proper == a.books.proper
  {
    if call.op.AddAll? {
      AdditionHoldsExactly(a, call);
    } else {
      RemovalHolds(a, call);
    }
  }

  ghost predicate GaplessLife(calls: seq<Call>) {
    calls == [] ||
    (GaplessLife(calls[..|calls| - 1]) && Gapless(LifeBlock(calls[..|calls| - 1]), calls[|calls| - 1]))
  }

  ghost predicate HoldsMatrix(calls: seq<Call>) {
    LifeBooks(calls).held == LifeBlock(calls).Matrix()
  }

  /** A block that was never left with a gap holds its matrix, and asked for nothing twice. */
  lemma {:induction false} LifeHolds(calls: seq<Call>)
    requires ProperLife(calls) && GaplessLife(calls)
    ensures HoldsMatrix(calls) && LifeBooks(calls).proper
  {
    if calls != [] {
      var before, call := calls[..|calls| - 1], calls[|calls| - 1];
      LifeHolds(before);
      LifeSettled(before);
      CallHoldsExactly(Account(LifeBlock(before), LifeBooks(before)), call);
      LastCall(calls);
    }
  }

  /** After each of its calls. */
  ghost predicate AlwaysHolds(calls: seq<Call>) {
    HoldsMatrix(calls) && (calls != [] ==> AlwaysHolds(calls[..|calls| - 1]))
  }

  lemma LastHoldsExactly(calls: seq<Call>)
    requires calls != [] && ProperLife(calls) && GaplessLife(calls[..|calls| - 1])
    ensures HoldsMatrix(calls) <==> Gapless(LifeBlock(calls[..|calls| - 1]), calls[|calls| - 1])
  {
    var before := calls[..|calls| - 1];
    LifeHolds(before);
    LifeSettled(before);
    CallHoldsExactly(Account(LifeBlock(before), LifeBooks(before)), calls[|calls| - 1]);
    LastCall(calls);
  }

  /** And only such a block holds its matrix after each of its calls. */
  lemma {:induction false} GaplessExactly(calls: seq<Call>)
    requires ProperLife(calls)
    ensures AlwaysHolds(calls) <==> GaplessLife(calls)
  {
    if calls == [] {
      assert HoldsMatrix([]);
    } else {
      GaplessExactly(calls[..|calls| - 1]);
      if GaplessLife(calls[..|calls| - 1]) {
        LastHoldsExactly(calls);
      }
    }
  }

  lemma {:induction false} GrantedIsGapless(calls: seq<Call>)
    requires ProperLife(calls) && GrantedLife(calls)
    ensures GaplessLife(calls)
  {
    if calls != [] {
      var call := calls[|calls| - 1];
      GrantedIsGapless(calls[..|calls| - 1]);
      assert AllGranted(call);
      assert call.op.AddAll? ==> Answered(Members(call.order), call.reply) == Members(call.order);
    }
  }

  /** What a method of the library says of a block continues the life of the block. */
  lemma LifeGoesOn(calls: seq<Call>, n: Account, call: Call)
    requires ProperLife(calls) && (calls != [] ==> !calls[|calls| - 1].op.Close?)
    requires Called(Account(LifeBlock(calls), LifeBooks(calls)), n, call)
    ensures ProperLife(calls + [call])
    ensures n == Account(LifeBlock(calls + [call]), LifeBooks(calls + [call]))
  {
    OneMoreCall(calls, call);
  }

  /** Two topics by two items on an empty block, where the last cell is refused. */
  function RefusedCall(t: Topic, u: Topic, i: Item, j: Item): Call {
    Call(AddAll({t, u}, {i, j}), [(t, i), (t, j), (u, i), (u, j)], c => if c == (u, j) then ERROR_DDE_POST else 0, false)
  }

  /** The same where every request is acknowledged, but the buffer of the third cell cannot
      be mapped. */
  function ThrownCall(t: Topic, u: Topic, i: Item, j: Item): Call {
    Call(AddAll({t, u}, {i, j}), [(t, i), (t, j), (u, i)], c => 0, true)
  }

  lemma FourCells(t: Topic, u: Topic, i: Item, j: Item)
    ensures CellsToAdd(EMPTY_BLOCK, {t, u}, {i, j}) == {(t, i), (t, j), (u, i), (u, j)}
  {
  }

  lemma RefusalLeavesGap(t: Topic, u: Topic, i: Item, j: Item)
    requires t != u && i != j
    ensures Carries(EMPTY_BLOCK, RefusedCall(t, u, i, j)) && GapOf(EMPTY_BLOCK, RefusedCall(t, u, i, j)) == {(u, j)}
  {
    var call := RefusedCall(t, u, i, j);
    FourCells(t, u, i, j);
    assert Members(call.order) == {(t, i), (t, j), (u, i), (u, j)};
    var answered := Answered(Members(call.order), call.reply);
    assert answered == {(t, i), (t, j), (u, i)};
    assert (u, i) in answered && (t, j) in answered;
  }

  /** Nothing is refused, and yet there is a gap. */
  lemma ExceptionLeavesGap(t: Topic, u: Topic, i: Item, j: Item)
    requires t != u && i != j
    ensures Carries(EMPTY_BLOCK, ThrownCall(t, u, i, j)) && GapOf(EMPTY_BLOCK, ThrownCall(t, u, i, j)) == {(u, j)}
  {
    var call := ThrownCall(t, u, i, j);
    FourCells(t, u, i, j);
    assert Members(call.order) == {(t, i), (t, j), (u, i)};
    var answered := Answered(Members(call.order), call.reply);
    assert answered == {(t, i), (t, j), (u, i)};
    assert (u, i) in answered && (t, j) in answered;
  }
}
