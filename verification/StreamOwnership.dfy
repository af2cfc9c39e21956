/** All clients and the engine together. Requests of different blocks, of one client
    or of several, reach the engine in any interleaving; the engine sees nothing of
    blocks, only ADD and REMOVE for a (topic, item). */
module StreamOwnership {
  import opened EngineStreams
  import opened ClientBlocks

  /** One for every block that was ever created, in any client. */
  type BlockId = nat

  /** `acted`: whether the engine carried out a request that failed all the same, because
      its answer was lost, or because a last reference goes even if delinking fails.
      `handle`: of the buffer, if one is created. */
  datatype Step = Step(who: BlockId, event: Event, acted: bool, handle: int)

  /** The engine's two tables, and the books of every block. */
  datatype System = System(counts: Refcounts, buffers: Buffers, ledgers: map<BlockId, Books>)

  function BooksAt(s: System, b: BlockId): Books {
    if b in s.ledgers then s.ledgers[b] else NO_BOOKS
  }

  predicate Effective(step: Step) {
    match step.event
    case Added(_, code) => code == 0 || step.acted
    case Removed(_, code) => code == 0 || step.acted
    case _ => false
  }

  /** A request that is carried out has its effect on the engine's tables. Captures and
      releases stay inside the client. */
  function CountsAfter(s: System, step: Step): Refcounts {
    if !Effective(step) then s.counts
    else if step.event.Added? then Plus(s.counts, step.event.cell.0, step.event.cell.1)
    else Minus(s.counts, step.event.cell.0, step.event.cell.1)
  }

  function BuffersAfter(s: System, step: Step): Buffers {
    if !Effective(step) then s.buffers
    else if step.event.Added? then PlusBuffer(s.counts, s.buffers, step.event.cell.0, step.event.cell.1, step.handle)
    else MinusBuffer(s.counts, s.buffers, step.event.cell.0, step.event.cell.1)
  }

  function Next(s: System, step: Step): System {
    System(CountsAfter(s, step), BuffersAfter(s, step), s.ledgers[step.who := Record(BooksAt(s, step.who), step.event)])
  }

  function Replay(steps: seq<Step>): System {
    if steps == [] then System(map[], map[], map[]) else Next(Replay(steps[..|steps| - 1]), steps[|steps| - 1])
  }

  function Holders(ledgers: map<BlockId, Books>, c: Cell): set<BlockId> {
    set b | b in ledgers && c in ledgers[b].held
  }

  lemma EngineStep(s: System, step: Step, c: Cell)
    requires WellFormed(s.counts) && Backed(s.counts, s.buffers)
    ensures var n := Next(s, step);
            && WellFormed(n.counts) && Backed(n.counts, n.buffers)
            && Count(n.counts, c.0, c.1) ==
               if !Effective(step) || step.event.cell != c then Count(s.counts, c.0, c.1)
               else if step.event.Added? then Count(s.counts, c.0, c.1) + 1
               else Less(Count(s.counts, c.0, c.1))
  {
    if Effective(step) {
      var d := step.event.cell;
      PlusCounts(s.counts, d.0, d.1);
      MinusCounts(s.counts, d.0, d.1);
      BuffersFollowCounts(s.counts, s.buffers, d.0, d.1, step.handle);
    }
  }

  /** Only the block that acts may become or cease to be a holder. */
  lemma HoldersStep(ledgers: map<BlockId, Books>, who: BlockId, n: Books, c: Cell)
    ensures Holders(ledgers[who := n], c) == if c in n.held then Holders(ledgers, c) + {who} else Holders(ledgers, c) - {who}
  {
  }

  lemma HoldersCount(ledgers: map<BlockId, Books>, who: BlockId, n: Books, c: Cell)
    ensures |Holders(ledgers[who := n], c)| ==
            |Holders(ledgers, c)| + (if c in n.held then 1 else 0) - (if who in Holders(ledgers, c) then 1 else 0)
  {
    HoldersStep(ledgers, who, n, c);
    var h := Holders(ledgers, c);
    if who in h {
      assert h + {who} == h;
    } else {
      assert h - {who} == h;
    }
  }

  // ---------------------------------------------------------------------------
  // One step
  // ---------------------------------------------------------------------------

  /** The engine's count of every stream is the number of blocks that hold it. */
  ghost predicate Balanced(s: System) {
    forall c :: BalancedAt(s, c)
  }

  ghost predicate BalancedAt(s: System, c: Cell) {
    Count(s.counts, c.0, c.1) == |Holders(s.ledgers, c)|
  }

  /** What a request must be for the balance to be kept: an ADD for a stream the block does
      not hold, or one that fails without effect; a REMOVE with effect for a stream it
      holds, or one that nobody has, or a REMOVE without effect for one it does not hold. */
  predicate Keeps(s: System, step: Step) {
    var held := BooksAt(s, step.who).held;
    match step.event
    case Added(c, code) => if code == 0 then c !in held else !step.acted
    case Removed(c, _) => if Effective(step) then c in held || Count(s.counts, c.0, c.1) == 0 else c !in held
    case _ => true
  }

  predicate Concerns(step: Step, c: Cell) {
    (step.event.Added? || step.event.Removed?) && step.event.cell == c
  }

  lemma StepBalancesAt(s: System, step: Step, c: Cell)
    requires WellFormed(s.counts) && Backed(s.counts, s.buffers) && BalancedAt(s, c)
    ensures BalancedAt(Next(s, step), c) <==> Keeps(s, step) || !Concerns(step, c)
  {
    EngineStep(s, step, c);
    HoldersCount(s.ledgers, step.who, Record(BooksAt(s, step.who), step.event), c);
    assert step.who in Holders(s.ledgers, c) <==> c in BooksAt(s, step.who).held;
  }

  /** One step keeps the balance exactly when it is of that kind. */
  lemma StepBalancesExactly(s: System, step: Step)
    requires WellFormed(s.counts) && Backed(s.counts, s.buffers) && Balanced(s)
    ensures Balanced(Next(s, step)) <==> Keeps(s, step)
  {
    forall c: Cell
      ensures BalancedAt(Next(s, step), c) <==> Keeps(s, step) || !Concerns(step, c)
    {
      assert BalancedAt(s, c);
      StepBalancesAt(s, step, c);
    }
    if !Keeps(s, step) {
      assert !BalancedAt(Next(s, step), step.event.cell);
    }
  }

  // ---------------------------------------------------------------------------
  // Any run of proper requests
  // ---------------------------------------------------------------------------

  /** References that nobody will give back: a REMOVE that had no effect, and an ADD that
      had one although it failed. */
  predicate Leaks(step: Step, c: Cell) {
    match step.event
    case Added(d, code) => d == c && code != 0 && step.acted
    case Removed(d, _) => d == c && !Effective(step)
    case _ => false
  }

  function Leaked(steps: seq<Step>, c: Cell): nat {
    if steps == [] then 0 else Leaked(steps[..|steps| - 1], c) + if Leaks(steps[|steps| - 1], c) then 1 else 0
  }

  lemma {:induction false} NoneLeakedExactly(steps: seq<Step>, c: Cell)
    ensures Leaked(steps, c) == 0 <==> forall k :: 0 <= k < |steps| ==> !Leaks(steps[k], c)
  {
    if steps != [] {
      NoneLeakedExactly(steps[..|steps| - 1], c);
    }
  }

  ghost predicate AllProper(s: System) {
    forall b :: b in s.ledgers ==> s.ledgers[b].proper
  }

  ghost predicate CountIs(steps: seq<Step>, c: Cell) {
    var s := Replay(steps);
    Count(s.counts, c.0, c.1) == |Holders(s.ledgers, c)| + Leaked(steps, c)
  }

  lemma ProperBefore(s: System, step: Step)
    requires AllProper(Next(s, step))
    ensures AllProper(s) && Proper(BooksAt(s, step.who).held, step.event)
  {
    var next := Next(s, step);
    assert step.who in next.ledgers;
    forall b | b in s.ledgers
      ensures s.ledgers[b].proper
    {
      assert b in next.ledgers;
    }
  }

  /** As long as ADD is sent for what is not held, and REMOVE for what is, every count is
      the number of holders and of leaked references, whatever the answers. */
  lemma {:induction false} ProperRequestsBalance(steps: seq<Step>)
    requires AllProper(Replay(steps))
    ensures WellFormed(Replay(steps).counts) && Backed(Replay(steps).counts, Replay(steps).buffers)
    ensures forall c :: CountIs(steps, c)
  {
    if steps == [] {
      forall c: Cell
        ensures CountIs(steps, c)
      {
        assert Holders(map[], c) == {};
      }
    } else {
      var before, step := steps[..|steps| - 1], steps[|steps| - 1];
      var s := Replay(before);
      ProperBefore(s, step);
      ProperRequestsBalance(before);
      forall c: Cell
        ensures CountIs(steps, c)
      {
        assert CountIs(before, c);
        EngineStep(s, step, c);
        HoldersCount(s.ledgers, step.who, Record(BooksAt(s, step.who), step.event), c);
        assert step.who in Holders(s.ledgers, c) <==> c in BooksAt(s, step.who).held;
      }
      EngineStep(s, step, step.event.cell);
    }
  }

  // ---------------------------------------------------------------------------
  // Any interleaving of operations
  // ---------------------------------------------------------------------------

  /** What one block does in a run. */
  function Projection(steps: seq<Step>, b: BlockId): seq<Event> {
    if steps == [] then []
    else
      var step := steps[|steps| - 1];
      Projection(steps[..|steps| - 1], b) + if step.who == b then [step.event] else []
  }

  lemma {:induction false} LedgerIsFold(steps: seq<Step>, b: BlockId)
    ensures BooksAt(Replay(steps), b) == Fold(NO_BOOKS, Projection(steps, b))
  {
    if steps != [] {
      var before, step := steps[..|steps| - 1], steps[|steps| - 1];
      LedgerIsFold(before, b);
      if step.who == b {
        FoldTwo(NO_BOOKS, Projection(before, b), step.event, step.event);
      } else {
        assert Projection(before, b) + [] == Projection(before, b);
      }
    }
  }

  lemma {:induction false} LedgerHasStep(steps: seq<Step>, b: BlockId) returns (k: nat)
    requires b in Replay(steps).ledgers
    ensures k < |steps| && steps[k].who == b
  {
    k := |steps| - 1;
    if steps[k].who != b {
      k := LedgerHasStep(steps[..k], b);
    }
  }

  /** Every block lives by its operations, each carried out as the library does, whatever is
      refused or thrown, as long as no addition leaves a gap. */
  ghost predicate GaplessLives(lives: map<BlockId, seq<Call>>) {
    forall b :: b in lives ==> ProperLife(lives[b]) && GaplessLife(lives[b])
  }

  /** A run in which each block is somewhere in its life, inside an operation or between
      two of them. */
  ghost predicate Interleaves(steps: seq<Step>, lives: map<BlockId, seq<Call>>) {
    && (forall k :: 0 <= k < |steps| ==> steps[k].who in lives)
    && (forall b :: b in lives ==> Projection(steps, b) <= LifeEvents(lives[b]))
  }

  /** A run that has come to the end of every operation of a block. */
  ghost predicate Finished(steps: seq<Step>, lives: map<BlockId, seq<Call>>, b: BlockId) {
    b in lives && Projection(steps, b) == LifeEvents(lives[b])
  }

  lemma {:induction false} ProjectionBefore(steps: seq<Step>, k: nat, b: BlockId)
    requires k <= |steps|
    ensures Projection(steps[..k], b) <= Projection(steps, b)
  {
    if k == |steps| {
      assert steps[..k] == steps;
    } else {
      ProjectionBefore(steps[..|steps| - 1], k, b);
      assert steps[..|steps| - 1][..k] == steps[..k];
    }
  }

  /** What holds of such runs therefore holds at every point on the way. */
  lemma EveryPointInterleaves(steps: seq<Step>, lives: map<BlockId, seq<Call>>, k: nat)
    requires Interleaves(steps, lives) && k <= |steps|
    ensures Interleaves(steps[..k], lives)
  {
    forall b | b in lives
      ensures Projection(steps[..k], b) <= LifeEvents(lives[b])
    {
      ProjectionBefore(steps, k, b);
    }
  }

  /** The books of a block are in order at every point of its life. */
  lemma LedgerInOrder(steps: seq<Step>, lives: map<BlockId, seq<Call>>, b: BlockId)
    requires GaplessLives(lives) && Interleaves(steps, lives) && b in lives
    ensures BooksAt(Replay(steps), b).proper
    ensures BooksAt(Replay(steps), b).captured <= BooksAt(Replay(steps), b).held
    ensures Finished(steps, lives, b) ==>
              var books, matrix := BooksAt(Replay(steps), b), LifeBlock(lives[b]).Matrix();
              books.held == matrix && (GrantedLife(lives[b]) ==> books.captured == matrix)
  {
    var events := LifeEvents(lives[b]);
    LedgerIsFold(steps, b);
    LifeSettled(lives[b]);
    LifeHolds(lives[b]);
    RightAllAlong(NO_BOOKS, events, |Projection(steps, b)|);
    assert events[..|Projection(steps, b)|] == Projection(steps, b);
    SafeMeansHeld(Projection(steps, b));
  }

  lemma SafeMeansHeld(events: seq<Event>)
    requires Fold(NO_BOOKS, events).safe
    ensures Fold(NO_BOOKS, events).captured <= Fold(NO_BOOKS, events).held
  {
  }

  lemma LivesAreProper(steps: seq<Step>, lives: map<BlockId, seq<Call>>)
    requires GaplessLives(lives) && Interleaves(steps, lives)
    ensures AllProper(Replay(steps)) && Replay(steps).ledgers.Keys <= lives.Keys
  {
    forall b | b in Replay(steps).ledgers
      ensures b in lives && Replay(steps).ledgers[b].proper
    {
      var k := LedgerHasStep(steps, b);
      LedgerInOrder(steps, lives, b);
    }
  }

  /** At every point of any interleaving of the operations of any number of blocks, in which
      no addition leaves a gap: the engine's count of a stream is the number of blocks that
      hold it and of references leaked by failed REMOVEs; its buffer is there exactly if that
      is positive; and what a block has captured has a reference and a buffer. */
  lemma AtEveryPoint(steps: seq<Step>, lives: map<BlockId, seq<Call>>, c: Cell)
    requires GaplessLives(lives) && Interleaves(steps, lives)
    ensures var s := Replay(steps);
            && Count(s.counts, c.0, c.1) == |Holders(s.ledgers, c)| + Leaked(steps, c)
            && ((c.1, c.0) in s.buffers <==> Count(s.counts, c.0, c.1) > 0)
            && forall b :: b in s.ledgers && c in s.ledgers[b].captured ==>
                 b in Holders(s.ledgers, c) && Count(s.counts, c.0, c.1) >= 1 && (c.1, c.0) in s.buffers
  {
    var s := Replay(steps);
    LivesAreProper(steps, lives);
    ProperRequestsBalance(steps);
    assert CountIs(steps, c);
    forall b | b in s.ledgers && c in s.ledgers[b].captured
      ensures b in Holders(s.ledgers, c)
    {
      LedgerInOrder(steps, lives, b);
    }
  }

  function Having(lives: map<BlockId, seq<Call>>, c: Cell): set<BlockId> {
    set b | b in lives && c in LifeBlock(lives[b]).Matrix()
  }

  lemma HoldersHave(steps: seq<Step>, lives: map<BlockId, seq<Call>>, c: Cell)
    requires GaplessLives(lives) && Interleaves(steps, lives)
    requires forall b :: b in lives ==> Finished(steps, lives, b)
    ensures Holders(Replay(steps).ledgers, c) == Having(lives, c)
  {
    var s := Replay(steps);
    LivesAreProper(steps, lives);
    forall b
      ensures b in Holders(s.ledgers, c) <==> b in Having(lives, c)
    {
      if b in lives {
        LedgerInOrder(steps, lives, b);
        assert c in BooksAt(s, b).held <==> b in Holders(s.ledgers, c);
      }
    }
  }

  /** Between operations, the count of a stream is the number of blocks that have it in their
      matrix, and of leaked references; if none leaked, the buffer is there exactly if some
      block has. */
  lemma BetweenOperations(steps: seq<Step>, lives: map<BlockId, seq<Call>>, c: Cell)
    requires GaplessLives(lives) && Interleaves(steps, lives)
    requires forall b :: b in lives ==> Finished(steps, lives, b)
    ensures Count(Replay(steps).counts, c.0, c.1) == |Having(lives, c)| + Leaked(steps, c)
    ensures Leaked(steps, c) == 0 ==> ((c.1, c.0) in Replay(steps).buffers <==> Having(lives, c) != {})
  {
    AtEveryPoint(steps, lives, c);
    HoldersHave(steps, lives, c);
  }

  /** Whether a block was asked for a topic and an item, and neither was taken back. */
  predicate Wants(life: seq<Call>, c: Cell) {
    c.0 in WantedTopics(Operations(life)) && c.1 in WantedItems(Operations(life))
  }

  ghost predicate GrantedLives(lives: map<BlockId, seq<Call>>) {
    forall b :: b in lives ==> ProperLife(lives[b]) && GrantedLife(lives[b])
  }

  /** If every addition was granted, there are no gaps, and the blocks that have a stream are,
      in terms of nothing but the operations on them, those that want its topic and item. */
  lemma GrantedLivesWant(lives: map<BlockId, seq<Call>>, c: Cell)
    requires GrantedLives(lives)
    ensures GaplessLives(lives)
    ensures Having(lives, c) == set b | b in lives && Wants(lives[b], c)
  {
    forall b | b in lives
      ensures GaplessLife(lives[b]) && (c in LifeBlock(lives[b]).Matrix() <==> Wants(lives[b], c))
    {
      GrantedIsGapless(lives[b]);
      LifeIsWanted(lives[b]);
    }
  }

  // ---------------------------------------------------------------------------
  // What a gap does
  // ---------------------------------------------------------------------------

  /** When a block sends REMOVE for a stream it does not hold, another block's only
      reference goes, although that block still has the buffer captured. */
  lemma StrayRemoveTakesReference(s: System, who: BlockId, other: BlockId, c: Cell)
    requires WellFormed(s.counts) && Backed(s.counts, s.buffers) && BalancedAt(s, c) && who != other
    requires other in s.ledgers && Holders(s.ledgers, c) == {other} && c in s.ledgers[other].captured
    ensures Taken(Next(s, Step(who, Removed(c, 0), false, 0)), other, c)
  {
    EngineStep(s, Step(who, Removed(c, 0), false, 0), c);
    assert other in Holders(s.ledgers, c);
  }

  /** A block holds a stream and has captured its buffer, and the engine has neither. */
  ghost predicate Taken(s: System, other: BlockId, c: Cell) {
    && WellFormed(s.counts) && Backed(s.counts, s.buffers)
    && Count(s.counts, c.0, c.1) == 0 && (c.1, c.0) !in s.buffers
    && c in BooksAt(s, other).held && c in BooksAt(s, other).captured
  }

  function By(who: BlockId, events: seq<Event>): seq<Step> {
    if events == [] then [] else By(who, events[..|events| - 1]) + [Step(who, events[|events| - 1], false, 0)]
  }

  lemma {:induction false} BySum(who: BlockId, x: seq<Event>, y: seq<Event>)
    ensures By(who, x + y) == By(who, x) + By(who, y)
  {
    if y == [] {
      assert x + y == x;
    } else {
      BySum(who, x, y[..|y| - 1]);
      assert (x + y)[..|x + y| - 1] == x + y[..|y| - 1];
    }
  }

  lemma {:induction false} ProjectionSum(x: seq<Step>, y: seq<Step>, b: BlockId)
    ensures Projection(x + y, b) == Projection(x, b) + Projection(y, b)
  {
    if y == [] {
      assert x + y == x;
    } else {
      ProjectionSum(x, y[..|y| - 1], b);
      assert (x + y)[..|x + y| - 1] == x + y[..|y| - 1];
    }
  }

  lemma {:induction false} ProjectionOfBy(who: BlockId, events: seq<Event>, b: BlockId)
    ensures Projection(By(who, events), b) == if b == who then events else []
  {
    if events != [] {
      ProjectionOfBy(who, events[..|events| - 1], b);
      assert By(who, events)[..|By(who, events)| - 1] == By(who, events[..|events| - 1]);
    }
  }

  /** What one block does, then all that another does, then the rest of the first. */
  function Three(x: seq<Event>, y: seq<Event>, z: seq<Event>): seq<Step> {
    By(0, x) + By(1, y) + By(0, z)
  }

  /** What a step of such a run is. */
  predicate Plain(step: Step) {
    !step.acted && (step.event.Removed? ==> step.event.code == 0)
  }

  predicate AllAcknowledged(events: seq<Event>) {
    forall e :: e in events && e.Removed? ==> e.code == 0
  }

  lemma {:induction false} ByPlain(who: BlockId, events: seq<Event>, k: nat)
    requires k < |By(who, events)| && AllAcknowledged(events)
    ensures Plain(By(who, events)[k]) && By(who, events)[k].who == who
  {
    var before := events[..|events| - 1];
    if k < |By(who, before)| {
      ByPlain(who, before, k);
    }
  }

  lemma {:induction false} OnlyAdds(order: seq<Cell>, reply: Cell -> int, thrown: bool)
    ensures AllAcknowledged(AddEvents(order, reply, thrown))
  {
    if order != [] {
      OnlyAdds(order[..|order| - 1], reply, false);
    }
  }

  lemma ThreePlain(x: seq<Event>, y: seq<Event>, z: seq<Event>, k: nat)
    requires k < |Three(x, y, z)| && AllAcknowledged(x) && AllAcknowledged(y) && AllAcknowledged(z)
    ensures Plain(Three(x, y, z)[k]) && Three(x, y, z)[k].who in {0, 1}
  {
    var m, n := |By(0, x)|, |By(1, y)|;
    if k < m {
      ByPlain(0, x, k);
    } else if k < m + n {
      ByPlain(1, y, k - m);
    } else {
      ByPlain(0, z, k - m - n);
    }
  }

  lemma ThreeProjected(x: seq<Event>, y: seq<Event>, z: seq<Event>, b: BlockId)
    ensures Projection(Three(x, y, z), b) == if b == 0 then x + z else if b == 1 then y else []
  {
    ProjectionSum(By(0, x) + By(1, y), By(0, z), b);
    ProjectionSum(By(0, x), By(1, y), b);
    ProjectionOfBy(0, x, b);
    ProjectionOfBy(1, y, b);
    ProjectionOfBy(0, z, b);
  }

  lemma ThreeProper(x: seq<Event>, y: seq<Event>, z: seq<Event>)
    requires AllAcknowledged(x) && AllAcknowledged(y) && AllAcknowledged(z)
    requires Fold(NO_BOOKS, x + z).proper && Fold(NO_BOOKS, y).proper
    ensures AllProper(Replay(Three(x, y, z))) && Replay(Three(x, y, z)).ledgers.Keys <= {0, 1}
  {
    forall b | b in Replay(Three(x, y, z)).ledgers
      ensures b in {0, 1} && Replay(Three(x, y, z)).ledgers[b].proper
    {
      LedgerIsFold(Three(x, y, z), b);
      ThreeProjected(x, y, z, b);
      var k := LedgerHasStep(Three(x, y, z), b);
      ThreePlain(x, y, z, k);
    }
  }

  lemma ThreeLeakNothing(x: seq<Event>, y: seq<Event>, z: seq<Event>, c: Cell)
    requires AllAcknowledged(x) && AllAcknowledged(y) && AllAcknowledged(z)
    ensures Leaked(Three(x, y, z), c) == 0
  {
    forall k | 0 <= k < |Three(x, y, z)|
      ensures !Leaks(Three(x, y, z)[k], c)
    {
      ThreePlain(x, y, z, k);
    }
    NoneLeakedExactly(Three(x, y, z), c);
  }

  /** Of two blocks that did nothing wrong, the one that holds a stream has its only
      reference. */
  lemma OnlyHolder(x: seq<Event>, y: seq<Event>, z: seq<Event>, c: Cell)
    requires AllAcknowledged(x) && AllAcknowledged(y) && AllAcknowledged(z)
    requires Fold(NO_BOOKS, x + z).proper && c !in Fold(NO_BOOKS, x + z).held
    requires Fold(NO_BOOKS, y).proper && c in Fold(NO_BOOKS, y).held && c in Fold(NO_BOOKS, y).captured
    ensures var s := Replay(Three(x, y, z));
            && WellFormed(s.counts) && Backed(s.counts, s.buffers) && BalancedAt(s, c)
            && Holders(s.ledgers, c) == {1} && 1 in s.ledgers && c in s.ledgers[1].captured
  {
    ThreeProper(x, y, z);
    ThreeLeakNothing(x, y, z, c);
    ProperRequestsBalance(Three(x, y, z));
    assert CountIs(Three(x, y, z), c);
    ThreeProjected(x, y, z, 0);
    ThreeProjected(x, y, z, 1);
    LedgerIsFold(Three(x, y, z), 0);
    LedgerIsFold(Three(x, y, z), 1);
    HoldersOfTwo(Replay(Three(x, y, z)), c);
  }

  lemma HoldersOfTwo(s: System, c: Cell)
    requires s.ledgers.Keys <= {0, 1} && c !in BooksAt(s, 0).held && c in BooksAt(s, 1).held
    ensures Holders(s.ledgers, c) == {1} && 1 in s.ledgers
  {
  }

  lemma ReplayMore(steps: seq<Step>, step: Step)
    ensures Replay(steps + [step]) == Next(Replay(steps), step)
  {
    assert (steps + [step])[..|steps|] == steps;
  }

  /** And it loses that when the other one sends REMOVE all the same. */
  lemma ReferenceTaken(x: seq<Event>, y: seq<Event>, z: seq<Event>, c: Cell)
    requires AllAcknowledged(x) && AllAcknowledged(y) && AllAcknowledged(z)
    requires Fold(NO_BOOKS, x + z).proper && c !in Fold(NO_BOOKS, x + z).held
    requires Fold(NO_BOOKS, y).proper && c in Fold(NO_BOOKS, y).held && c in Fold(NO_BOOKS, y).captured
    ensures Taken(Replay(Three(x, y, z + [Removed(c, 0)])), 1, c)
  {
    OnlyHolder(x, y, z, c);
    StrayRemoveTakesReference(Replay(Three(x, y, z)), 0, 1, c);
    ThreeMore(x, y, z, Removed(c, 0));
    ReplayMore(Three(x, y, z), Step(0, Removed(c, 0), false, 0));
  }

  lemma ThreeMore(x: seq<Event>, y: seq<Event>, z: seq<Event>, e: Event)
    ensures Three(x, y, z + [e]) == Three(x, y, z) + [Step(0, e, false, 0)]
  {
    assert (z + [e])[..|z|] == z;
    assert By(0, z + [e]) == By(0, z) + [Step(0, e, false, 0)];
  }

  /** Nothing that concerns other streams brings it back. */
  lemma {:induction false} StaysTaken(steps: seq<Step>, more: seq<Event>, c: Cell)
    requires Taken(Replay(steps), 1, c)
    requires forall e :: e in more ==> e.cell != c
    ensures Taken(Replay(steps + By(0, more)), 1, c)
  {
    if more == [] {
      assert steps + By(0, more) == steps;
    } else {
      var before, e := more[..|more| - 1], more[|more| - 1];
      StaysTaken(steps, before, c);
      assert steps + By(0, more) == (steps + By(0, before)) + [Step(0, e, false, 0)];
      ReplayMore(steps + By(0, before), Step(0, e, false, 0));
      EngineStep(Replay(steps + By(0, before)), Step(0, e, false, 0), c);
    }
  }

  // ----- the calls of such a run

  /** A cell alone, granted to another block. */
  function OtherCall(c: Cell): Call {
    Call(AddAll({c.0}, {c.1}), [c], _ => 0, false)
  }

  /** The removal of the cell's topic, beginning with the cell. */
  function RemovalOf(c: Cell, rest: seq<Cell>): Call {
    Call(DropTopic(c.0), [c] + rest, _ => 0, false)
  }

  lemma LifeOfOne(call: Call)
    requires Carries(EMPTY_BLOCK, call)
    ensures ProperLife([call]) && LifeBlock([call]) == BlockAfter(EMPTY_BLOCK, call) && LifeEvents([call]) == EventsOf(call)
  {
    OneMoreCall([], call);
    assert [] + [call] == [call];
  }

  lemma OtherCarried(c: Cell)
    ensures Carries(EMPTY_BLOCK, OtherCall(c)) && c in BlockAfter(EMPTY_BLOCK, OtherCall(c)).Matrix()
  {
    var other := OtherCall(c);
    assert Members(other.order) == {c} == CellsToAdd(EMPTY_BLOCK, {c.0}, {c.1});
    assert Answered({c}, other.reply) == {c};
    assert c.0 in TopicsOf({c}) && c.1 in ItemsOf({c});
  }

  lemma OtherBooks(c: Cell)
    ensures var b := Fold(NO_BOOKS, EventsOf(OtherCall(c)));
            b.proper && c in b.held && c in b.captured
    ensures AllAcknowledged(EventsOf(OtherCall(c)))
  {
    var a, other := Account(EMPTY_BLOCK, NO_BOOKS), OtherCall(c);
    AddsFold(a, other.order, other.reply, false);
    AddsHold(a, other.order, other.reply, false);
    AddsCapture(a, other.order, other.reply);
    assert c in other.order && c in Answered(Members(other.order), other.reply);
    OnlyAdds(other.order, other.reply, false);
  }

  lemma {:induction false} Listed(cells: set<Cell>) returns (order: seq<Cell>)
    ensures Once(order) && Members(order) == cells
  {
    if cells == {} {
      order := [];
    } else {
      var c :| c in cells;
      var rest := Listed(cells - {c});
      OnceMore(rest, c);
      order := rest + [c];
    }
  }

  lemma {:induction false} DropsBegin(c: Cell, rest: seq<Cell>, reply: Cell -> int)
    ensures DropEvents([c] + rest, reply) == [Released(c), Removed(c, reply(c))] + DropEvents(rest, reply)
  {
    if rest == [] {
      assert [c] + rest == [c] && [c][..0] == [];
    } else {
      var before := rest[..|rest| - 1];
      DropsBegin(c, before, reply);
      assert ([c] + rest)[..|rest|] == [c] + before;
    }
  }

  lemma {:induction false} DropsConcern(order: seq<Cell>, reply: Cell -> int)
    ensures forall e :: e in DropEvents(order, reply) ==> e.cell in order
    ensures (forall c :: c in order ==> reply(c) == 0) ==> AllAcknowledged(DropEvents(order, reply))
  {
    if order != [] {
      DropsConcern(order[..|order| - 1], reply);
    }
  }

  /** The removal is one that the library would carry out. */
  lemma RemovalCarries(b: Block, c: Cell) returns (rest: seq<Cell>)
    requires c in b.Matrix()
    ensures Carries(b, RemovalOf(c, rest)) && c !in rest
  {
    rest := Listed(CellsOf(b, DropTopic(c.0)) - {c});
    var order := [c] + rest;
    assert c !in Members(rest);
    assert Members(order) == Members(rest) + {c};
    forall i, j | 0 <= i < j < |order|
      ensures order[i] != order[j]
    {
      if i == 0 {
        assert rest[j - 1] in Members(rest);
      }
    }
  }

  lemma ReleasedFirst(b: Books, x: seq<Event>, c: Cell)
    ensures Fold(b, x + [Released(c)]).proper == Fold(b, x).proper && Fold(b, x + [Released(c)]).held == Fold(b, x).held
  {
    FoldTwo(b, x, Released(c), Released(c));
  }

  lemma PairSum(e: Event, f: Event)
    ensures [e] + [f] == [e, f]
  {
  }

  lemma FirstTakes(x: seq<Event>, y: seq<Event>, c: Cell)
    requires AllAcknowledged(x) && Fold(NO_BOOKS, x).proper && c !in Fold(NO_BOOKS, x).held
    requires AllAcknowledged(y) && Fold(NO_BOOKS, y).proper && c in Fold(NO_BOOKS, y).held && c in Fold(NO_BOOKS, y).captured
    ensures Taken(Replay(Three(x, y, [Released(c), Removed(c, 0)])), 1, c)
  {
    ReleasedFirst(NO_BOOKS, x, c);
    ReferenceTaken(x, y, [Released(c)], c);
    PairSum(Released(c), Removed(c, 0));
  }

  lemma ThreeSum(x: seq<Event>, y: seq<Event>, z: seq<Event>, more: seq<Event>)
    ensures Three(x, y, z + more) == Three(x, y, z) + By(0, more)
  {
    BySum(0, z, more);
    assert By(0, x) + By(1, y) + (By(0, z) + By(0, more)) == By(0, x) + By(1, y) + By(0, z) + By(0, more);
  }

  /** The removal in the run: its first REMOVE takes the reference, and the rest does not
      bring it back. */
  lemma RemovalTakes(x: seq<Event>, c: Cell, rest: seq<Cell>)
    requires AllAcknowledged(x) && Fold(NO_BOOKS, x).proper && c !in Fold(NO_BOOKS, x).held && c !in rest
    ensures Taken(Replay(Three(x, EventsOf(OtherCall(c)), EventsOf(RemovalOf(c, rest)))), 1, c)
  {
    var y, reply := EventsOf(OtherCall(c)), RemovalOf(c, rest).reply;
    OtherBooks(c);
    FirstTakes(x, y, c);
    DropsConcern(rest, reply);
    StaysTaken(Three(x, y, [Released(c), Removed(c, 0)]), DropEvents(rest, reply), c);
    DropsBegin(c, rest, reply);
    ThreeSum(x, y, [Released(c), Removed(c, 0)], DropEvents(rest, reply));
  }

  lemma ThreeFinished(l: seq<Call>, m: seq<Call>, x: seq<Event>, y: seq<Event>, z: seq<Event>)
    requires ProperLife(l) && LifeEvents(l) == x + z && ProperLife(m) && LifeEvents(m) == y
    requires AllAcknowledged(x) && AllAcknowledged(y) && AllAcknowledged(z)
    ensures Ended(Three(x, y, z), map[0 := l, 1 := m])
  {
    ThreeProjected(x, y, z, 0);
    ThreeProjected(x, y, z, 1);
    forall k | 0 <= k < |Three(x, y, z)|
      ensures Three(x, y, z)[k].who in {0, 1}
    {
      ThreePlain(x, y, z, k);
    }
  }

  /** A run of nothing but operations, all of which have ended. */
  ghost predicate Ended(steps: seq<Step>, lives: map<BlockId, seq<Call>>) {
    Interleaves(steps, lives) && forall b :: b in lives ==> ProperLife(lives[b]) && Finished(steps, lives, b)
  }

  /** A block's life up to and including an addition that left the first gap. */
  ghost predicate FirstGap(before: seq<Call>, call: Call, c: Cell) {
    && ProperLife(before + [call]) && GaplessLife(before)
    && call.op.AddAll? && c in GapOf(LifeBlock(before), call)
  }

  lemma FirstGapBooks(before: seq<Call>, call: Call, c: Cell)
    requires FirstGap(before, call, c)
    ensures LifeBooks(before + [call]).proper && c !in LifeBooks(before + [call]).held
    ensures c in LifeBlock(before + [call]).Matrix()
    ensures ProperLife(before)
  {
    OneMoreCall(before, call);
    LifeHolds(before);
    LifeSettled(before);
    AdditionLeavesGapExactly(Account(LifeBlock(before), LifeBooks(before)), call);
  }

  /** Every gap can do harm. Whatever a block did before, if its last addition left a gap and
      none of its REMOVEs failed, then after that another block may be granted the missing
      stream, and the removal of the stream's topic from the first one takes that reference:
      all calls have ended, and the engine has neither reference nor buffer of a stream that
      the other block holds and has captured. With no gap this cannot be: see `AtEveryPoint`. */
  lemma GapTakesReference(before: seq<Call>, call: Call, c: Cell) returns (removal: Call, steps: seq<Step>)
    requires FirstGap(before, call, c) && AllAcknowledged(LifeEvents(before + [call]))
    ensures removal.op == DropTopic(c.0)
    ensures Ended(steps, map[0 := before + [call] + [removal], 1 := [OtherCall(c)]])
    ensures c in LifeBlock([OtherCall(c)]).Matrix()
    ensures Taken(Replay(steps), 1, c)
  {
    var life, x := before + [call], LifeEvents(before + [call]);
    FirstGapBooks(before, call, c);
    var rest := RemovalCarries(LifeBlock(life), c);
    removal := RemovalOf(c, rest);
    steps := Three(x, EventsOf(OtherCall(c)), EventsOf(removal));
    RemovalTakes(x, c, rest);
    OneMoreCall(life, removal);
    assert life[|life| - 1] == call;
    OtherCarried(c);
    LifeOfOne(OtherCall(c));
    OtherBooks(c);
    DropsConcern(removal.order, removal.reply);
    ThreeFinished(life + [removal], [OtherCall(c)], x, EventsOf(OtherCall(c)), EventsOf(removal));
  }

  /** Two such runs from nothing: an addition with one cell refused, and one that was cut
      short, where nothing was refused. */
  lemma TwoGaps(t: Topic, u: Topic, i: Item, j: Item)
    requires t != u && i != j
    ensures FirstGap([], RefusedCall(t, u, i, j), (u, j)) && AllAcknowledged(LifeEvents([] + [RefusedCall(t, u, i, j)]))
    ensures FirstGap([], ThrownCall(t, u, i, j), (u, j)) && AllAcknowledged(LifeEvents([] + [ThrownCall(t, u, i, j)]))
  {
    RefusalLeavesGap(t, u, i, j);
    GapFromNothing(RefusedCall(t, u, i, j), (u, j));
    ExceptionLeavesGap(t, u, i, j);
    GapFromNothing(ThrownCall(t, u, i, j), (u, j));
  }

  lemma GapFromNothing(call: Call, c: Cell)
    requires call.op.AddAll? && Carries(EMPTY_BLOCK, call) && c in GapOf(EMPTY_BLOCK, call)
    ensures FirstGap([], call, c) && AllAcknowledged(LifeEvents([] + [call]))
  {
    OneMoreCall([], call);
    OnlyAdds(call.order, call.reply, call.thrown);
    assert LifeEvents([] + [call]) == EventsOf(call);
  }

  /** The order matters. The engine refuses a stream in some environment if and only if
      nothing has it: one that has a reference is never refused, so the refusal must come
      before the other block's addition. */
  lemma RefusedOnlyWithoutReference(rc: Refcounts, u: Topic, j: Item)
    requires u != NULL_TOPIC
    ensures (forall env :: AddCode(rc, u, j, env) == 0) <==> Count(rc, u, j) > 0
  {
    if Count(rc, u, j) == 0 {
      assert AddCode(rc, u, j, Environment(true, false, true, true, true, true, true, true, true, 0)) != 0;
    }
  }

  // ---------------------------------------------------------------------------
  // A client that is unloaded
  // ---------------------------------------------------------------------------

  /** The requests of `Client.Unload`, one after the other, each carried out. */
  function MinusAll(counts: Refcounts, order: seq<Cell>): Refcounts {
    if order == [] then counts
    else Minus(MinusAll(counts, order[..|order| - 1]), order[|order| - 1].0, order[|order| - 1].1)
  }

  lemma {:induction false} OneRemoveEach(counts: Refcounts, order: seq<Cell>, c: Cell)
    requires WellFormed(counts) && Once(order)
    ensures WellFormed(MinusAll(counts, order))
    ensures Count(MinusAll(counts, order), c.0, c.1) ==
            if c in order then Less(Count(counts, c.0, c.1)) else Count(counts, c.0, c.1)
  {
    if order != [] {
      var before, d := order[..|order| - 1], order[|order| - 1];
      OnceBefore(order);
      OneRemoveEach(counts, before, c);
      MinusCounts(MinusAll(counts, before), d.0, d.1);
      assert d !in before;
    }
  }

  /** The client's open blocks under their names, between operations, each granted what it
      asked for, and its capture sets. */
  ghost predicate IsClient(steps: seq<Step>, lives: map<BlockId, seq<Call>>, open: map<string, BlockId>, captures: CaptureSets) {
    && (forall k, l :: k in open && l in open && open[k] == open[l] ==> k == l)
    && (forall k :: k in open ==> Finished(steps, lives, open[k]) && GrantedLife(lives[open[k]]))
    && Linked(captures, map k | k in open :: BooksAt(Replay(steps), open[k]))
  }

  /** The references that are not this client's. */
  function Others(steps: seq<Step>, open: map<string, BlockId>, c: Cell): nat {
    |Holders(Replay(steps).ledgers, c) - open.Values| + Leaked(steps, c)
  }

  lemma {:induction false} ImageSize(names: set<string>, open: map<string, BlockId>)
    requires names <= open.Keys
    requires forall k, l :: k in open && l in open && open[k] == open[l] ==> k == l
    ensures |set k | k in names :: open[k]| == |names|
  {
    var image := set k | k in names :: open[k];
    if names == {} {
      assert image == {};
    } else {
      var k :| k in names;
      ImageSize(names - {k}, open);
      assert image == (set l | l in names - {k} :: open[l]) + {open[k]};
    }
  }

  function Names(captures: CaptureSets, c: Cell): set<string> {
    if c in captures then captures[c] else {}
  }

  /** The client's blocks that have captured a stream are those that hold it. */
  lemma NamesHold(steps: seq<Step>, lives: map<BlockId, seq<Call>>, open: map<string, BlockId>, captures: CaptureSets, c: Cell, k: string)
    requires GaplessLives(lives) && Interleaves(steps, lives) && IsClient(steps, lives, open, captures)
    ensures k in Names(captures, c) <==> k in open && open[k] in Holders(Replay(steps).ledgers, c)
  {
    assert k in Names(captures, c) <==> Captures(captures, c, k);
    if k in open {
      LedgerInOrder(steps, lives, open[k]);
      assert c in BooksAt(Replay(steps), open[k]).held <==> open[k] in Holders(Replay(steps).ledgers, c);
    }
  }

  lemma PartsOfHolders(holders: set<BlockId>, names: set<string>, open: map<string, BlockId>)
    requires forall k, l :: k in open && l in open && open[k] == open[l] ==> k == l
    requires forall k :: k in names <==> k in open && open[k] in holders
    ensures |holders| == |holders - open.Values| + |names|
  {
    ImageSize(names, open);
    ImageIsPart(holders, names, open);
    assert holders == (holders - open.Values) + holders * open.Values;
  }

  lemma ImageIsPart(holders: set<BlockId>, names: set<string>, open: map<string, BlockId>)
    requires forall k :: k in names <==> k in open && open[k] in holders
    ensures (set k | k in names :: open[k]) == holders * open.Values
  {
  }

  /** Unloading leaves, of every stream, the others' references, or too many of its own. */
  lemma UnloadLeaves(steps: seq<Step>, lives: map<BlockId, seq<Call>>, open: map<string, BlockId>,
                     captures: CaptureSets, order: seq<Cell>, c: Cell)
    requires GaplessLives(lives) && Interleaves(steps, lives) && IsClient(steps, lives, open, captures)
    requires Once(order) && Members(order) == captures.Keys
    ensures Count(MinusAll(Replay(steps).counts, order), c.0, c.1) ==
            Others(steps, open, c) + if c in captures then |captures[c]| - 1 else 0
  {
    LivesAreProper(steps, lives);
    ProperRequestsBalance(steps);
    OneRemoveEach(Replay(steps).counts, order, c);
    AtEveryPoint(steps, lives, c);
    forall k
      ensures k in Names(captures, c) <==> k in open && open[k] in Holders(Replay(steps).ledgers, c)
    {
      NamesHold(steps, lives, open, captures, c, k);
    }
    PartsOfHolders(Holders(Replay(steps).ledgers, c), Names(captures, c), open);
    assert c in order <==> c in Members(order);
  }

  /** After the requests of the unloading, only the others' references are left. */
  ghost predicate AllReturned(steps: seq<Step>, open: map<string, BlockId>, order: seq<Cell>, c: Cell) {
    Count(MinusAll(Replay(steps).counts, order), c.0, c.1) == Others(steps, open, c)
  }

  /** At any time between a client's operations, whatever the other blocks are doing, its
      unloading returns exactly its own references if and only if no two of its blocks share
      a stream. */
  lemma UnloadReturnsAllExactly(steps: seq<Step>, lives: map<BlockId, seq<Call>>, open: map<string, BlockId>,
                                captures: CaptureSets, order: seq<Cell>)
    requires GaplessLives(lives) && Interleaves(steps, lives) && IsClient(steps, lives, open, captures)
    requires Once(order) && Members(order) == captures.Keys
    ensures (forall c: Cell :: AllReturned(steps, open, order, c)) <==> forall c :: c in captures ==> |captures[c]| == 1
  {
    forall c: Cell
      ensures AllReturned(steps, open, order, c) <==> (c in captures ==> |captures[c]| == 1)
    {
      UnloadLeaves(steps, lives, open, captures, order, c);
    }
  }
}
