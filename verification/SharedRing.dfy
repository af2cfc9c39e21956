/** The shared-memory ring: the engine writes fixed-size elements into a mapped
    region, and each client library rebuilds, from nothing but the byte offset and
    the loop count of its last read, which elements are new. */
module SharedRing {
  import opened Arithmetic

  newtype byte = x: int | 0 <= x < 256
  type BlockId = string

  const HEADER_SIZE: nat := 20          // five 32-bit header fields
  const STAMP_SIZE: nat := 40           // a C `tm` of nine ints, and a long
  const DEFAULT_BUFFER_SIZE: nat := 4096

  /** One element: the value's bytes, then its time stamp's bytes. */
  datatype Element = Element(val: seq<byte>, stamp: seq<byte>)

  /** TypeSize(topic): float or long, double or long long, fixed-size string. */
  predicate IsTypeSize(size: nat) {
    size in {4, 8, 40}
  }

  // ---------------------------------------------------------------------------
  // Positions: where `w` writes leave the header, and what a reader infers
  // ---------------------------------------------------------------------------

  function OffsetAfter(w: nat, n: nat, e: nat): nat
    requires n > 0
  {
    (w % n) * e
  }

  function LoopsAfter(w: nat, n: nat): nat
    requires n > 0
  {
    Wrap(w / n)
  }

  /** What one more write does to the header. */
  lemma OneMoreWrite(w: nat, n: nat, e: nat)
    requires n > 0 && e > 0
    ensures OffsetAfter(w, n, e) + e <= n * e
    ensures OffsetAfter(w, n, e) + e == n * e ==> OffsetAfter(w + 1, n, e) == 0 && LoopsAfter(w + 1, n) == Wrap(LoopsAfter(w, n) + 1)
    ensures OffsetAfter(w, n, e) + e < n * e ==> OffsetAfter(w + 1, n, e) == OffsetAfter(w, n, e) + e && LoopsAfter(w + 1, n) == LoopsAfter(w, n)
  {
    NextSlot(w, n);
    SubMul(w % n, 1, e);
    OffsetsInRing(w, n, e);
    LoopIncrement(w / n);
    if w % n + 1 < n {
      MulLe(w % n + 2, n, e);
      SubMul(w % n + 1, 1, e);
    }
  }

  lemma LoopIncrement(a: int)
    ensures Wrap(Wrap(a) + 1) == Wrap(a + 1)
  {
  }

  /** How often the buffer looped between the `r`-th and the `w`-th write. */
  function Loops(w: nat, r: nat, n: nat): int
    requires n > 0
  {
    w / n - r / n
  }

  /** The number of new elements that the reader's arithmetic arrives at: the true
      number, short of one whole ring for every 2^32 loops that went unseen. */
  function Inferred(w: nat, r: nat, n: nat): int
    requires n > 0
  {
    w - r - (Loops(w, r, n) / U32) * U32 * n
  }

  lemma OffsetsInRing(w: nat, n: nat, e: nat)
    requires n > 0 && e > 0
    ensures OffsetAfter(w, n, e) + e <= n * e
  {
    MulLe(w % n + 1, n, e);
    SubMul(w % n, 1, e);
  }

  lemma LoopsNonNegative(w: nat, r: nat, n: nat)
    requires n > 0 && r <= w
    ensures Loops(w, r, n) >= 0
  {
    assert w == (w / n) * n + w % n && r == (r / n) * n + r % n;
    SubMul(w / n, r / n, n);
    MultiplesApart(Loops(w, r, n), n);
  }

  /** The inferred count, split into loops seen and distance within the ring. */
  lemma InferredForm(w: nat, r: nat, n: nat)
    requires n > 0 && r <= w
    ensures Inferred(w, r, n) == (Loops(w, r, n) % U32) * n + (w % n - r % n)
    ensures 0 < n + Inferred(w, r, n) && Inferred(w, r, n) <= w - r
    ensures w - r == Loops(w, r, n) * n + (w % n - r % n)
  {
  }

  /** The unsigned differences of positions and of loop counts, put together, are
      exactly a whole number of elements, whatever wrapped around. */
  lemma PositionsToCount(w: nat, r: nat, n: nat, e: nat)
    requires n > 0 && e > 0 && r <= w && n * e < 0x8000_0000
    ensures AsLong(Wrap(OffsetAfter(w, n, e) - OffsetAfter(r, n, e))) + Wrap(LoopsAfter(w, n) - LoopsAfter(r, n)) * (n * e)
            == Inferred(w, r, n) * e
  {
    var t := Loops(w, r, n) % U32;
    OffsetsInRing(w, n, e);
    OffsetsInRing(r, n, e);
    assert AsLong(Wrap(OffsetAfter(w, n, e) - OffsetAfter(r, n, e))) == OffsetAfter(w, n, e) - OffsetAfter(r, n, e);
    LoopDifference(w / n, r / n);
    InferredForm(w, r, n);
    SubMul(w % n, r % n, e);
    SubMul(t * n, w % n - r % n, e);
    MulAssoc(t, n, e);
  }

  lemma MulAssoc(a: int, b: int, c: int)
    ensures a * b * c == a * (b * c)
  {
  }

  lemma LoopDifference(a: int, b: int)
    ensures Wrap(Wrap(a) - Wrap(b)) == Wrap(a - b)
  {
  }

  /** With fewer than 2^32 loops between two reads, the count is the true one. */
  lemma InferredIsExact(w: nat, r: nat, n: nat)
    requires n > 0 && r <= w && Loops(w, r, n) < U32
    ensures Inferred(w, r, n) == w - r
  {
    LoopsNonNegative(w, r, n);
    assert Loops(w, r, n) / U32 == 0;
  }

  /** The "numElems < 0" exception is out of reach below 2^32 loops, and is thrown
      in exactly one situation: a multiple of 2^32 loops, and a smaller position. */
  lemma NegativeCountExactly(w: nat, r: nat, n: nat)
    requires n > 0 && r <= w
    ensures Inferred(w, r, n) < 0 <==> Loops(w, r, n) % U32 == 0 && w % n < r % n
    ensures Inferred(w, r, n) < 0 ==> Loops(w, r, n) >= U32
  {
    LoopsNonNegative(w, r, n);
    InferredForm(w, r, n);
    MultiplesApart(Loops(w, r, n) % U32, n);
    MultiplesApart(Loops(w, r, n), n);
  }

  /** A read hands over the right elements exactly when fewer than 2^32 loops went
      by, or the residue still covers a whole ring. */
  lemma CountRightExactly(w: nat, r: nat, n: nat)
    requires n > 0 && r <= w
    ensures Min(Inferred(w, r, n), n) == Min(w - r, n) <==> Loops(w, r, n) < U32 || Inferred(w, r, n) >= n
  {
    LoopsNonNegative(w, r, n);
    InferredForm(w, r, n);
    var q := Loops(w, r, n);
    if q < U32 {
      InferredIsExact(w, r, n);
    } else {
      // at least one whole multiple of 2^32 loops: more than a ring was written
      assert q / U32 >= 1;
      assert w - r - Inferred(w, r, n) == (q / U32) * U32 * n;
      MulLe(1, q / U32, U32 * n);
      MulAssoc(q / U32, U32, n);
      assert U32 * n >= 2 * n;
    }
  }

  /** The byte distance from the header at which the reader looks for the element
      written `back` writes ago. */
  function Spot(next: nat, back: nat, e: nat, dlen: nat): int
    requires dlen > 0
  {
    TruncRem(next - back * e + dlen, dlen)
  }

  function SlotOffset(beg: nat, j: nat, e: nat): nat {
    beg + j * e
  }

  /** The slot that lies `back` slots before slot `k`. */
  function SlotBack(k: nat, back: nat, n: nat): nat
    requires n > 0
  {
    (k - back) % n
  }

  /** The modulo is taken with the header's length still inside, which is right
      because the header is shorter than one element ... */
  lemma SpotFindsSlot(beg: nat, k: nat, back: nat, n: nat, e: nat)
    requires beg < e && k < n && back <= n
    requires n * e > 0
    ensures Spot(beg + k * e, back, e, n * e) == SlotOffset(beg, SlotBack(k, back, n), e)
    ensures SlotBack(k, back, n) < n
  {
    var j := k - back + n;
    ModShift(k - back, 1, n);
    SubMul(k, back, e);
    SubMul(k - back, n, e);
    SubMul(j, n, e);
    SubMul(j, 1, e);
    MulLe(0, j, e);
    var x := beg + k * e - back * e + n * e;
    assert x == j * e + beg;
    if j < n {
      DivModUnique(j, 0, j, n);
      MulLe(j + 1, n, e);
      TruncRemBelow(x, n * e);
    } else {
      DivModUnique(j, 1, j - n, n);
      MulLe(n, j, e);
      MulLe(j + 1, n + n, e);
      SubMul(n, n, e);
      TruncRemBelow(x, n * e);
    }
  }

  lemma TruncRemBelow(x: nat, m: nat)
    requires m > 0 && x < m + m
    ensures TruncRem(x, m) == if x < m then x else x - m
  {
    if x < m {
      DivModUnique(x, 0, x, m);
    } else {
      DivModUnique(x, 1, x - m, m);
    }
  }

  lemma SlotOfIndex(w: nat, back: nat, n: nat)
    requires n > 0
    ensures SlotBack(w % n, back, n) == (w - back) % n
  {
    assert w == (w / n) * n + w % n;
    ModShift(w % n - back, w / n, n);
  }

  /** ... and only because of that: with a header as long as an element or longer,
      the last slot is looked for in the wrong place. */
  lemma SpotRightExactly(beg: nat, n: nat, e: nat)
    requires n > 0 && e > 0 && n * e > 0
    ensures (forall k: nat, back: nat | k < n && 1 <= back <= n ::
               Spot(beg + k * e, back, e, n * e) == SlotOffset(beg, SlotBack(k, back, n), e))
            <==> beg < e
  {
    if beg < e {
      forall k: nat, back: nat | k < n && 1 <= back <= n
        ensures Spot(beg + k * e, back, e, n * e) == SlotOffset(beg, SlotBack(k, back, n), e)
      {
        SpotFindsSlot(beg, k, back, n, e);
      }
    } else {
      // slot n - 1, one whole ring back: the offset is not below the modulus
      assert SlotBack(n - 1, n, n) == n - 1 by {
        ModShift(-1, 1, n);
        DivModUnique(n - 1, 0, n - 1, n);
      }
      var x := beg + (n - 1) * e;
      SubMul(n - 1, 1, e);
      assert x >= n * e;
      assert x - n * e + n * e == x;
      assert Spot(x, n, e, n * e) < n * e by {
        assert x == (x / (n * e)) * (n * e) + x % (n * e);
      }
    }
  }

  // ---------------------------------------------------------------------------
  // The writer: header fields and slots in one mapped region
  // ---------------------------------------------------------------------------

  /** One stream's buffer. `history` is everything ever written to it. */
  class Ring {
    const typeSize: nat
    const elemSize: nat
    const begOffset: nat
    const endOffset: nat
    const mem: array<byte>
    var nextOffset: nat
    var loopSeq: nat
    ghost const slots: nat
    ghost var history: seq<Element>

    ghost predicate Layout() {
      && IsTypeSize(typeSize)
      && elemSize == typeSize + STAMP_SIZE
      && begOffset == HEADER_SIZE
      && slots >= 1
      && endOffset == begOffset + slots * elemSize
      && endOffset <= mem.Length < 0x8000_0000
    }

    function ElementAt(offset: nat): Element
      requires typeSize <= elemSize && STAMP_SIZE <= elemSize && offset + elemSize <= mem.Length
      reads mem
    {
      Element(mem[offset..offset + typeSize], mem[offset + (elemSize - STAMP_SIZE)..offset + elemSize])
    }

    /** Slot `j` still holds the element of the given index. */
    ghost predicate Holds(i: nat)
      requires Layout() && i < |history|
      reads this`history, mem
    {
      var o := SlotOffset(begOffset, i % slots, elemSize);
      o + elemSize <= endOffset && ElementAt(o) == history[i]
    }

    /** The header says where the next write goes, and the last `slots` writes are
        all still in the region, each in its own slot. */
    ghost predicate Valid()
      reads this, mem
    {
      && Layout()
      && nextOffset == begOffset + OffsetAfter(|history|, slots, elemSize)
      && loopSeq == LoopsAfter(|history|, slots)
      && (forall i: nat :: i < |history| < i + slots + 1 ==> Holds(i))
    }

    /** CreateBuffer's layout; the region is one page if a page is larger than the
        default size. */
    constructor (typeSize: nat, pageSize: nat)
      requires IsTypeSize(typeSize) && pageSize < 0x8000_0000
      ensures Valid() && history == [] && fresh(mem)
      ensures this.typeSize == typeSize
      ensures mem.Length == Max(DEFAULT_BUFFER_SIZE, pageSize)
      ensures endOffset + elemSize > mem.Length  // no room for another slot is wasted
      ensures slots > 0 && begOffset < elemSize
      ensures begOffset == 20 && elemSize == typeSize + 40 && endOffset == 20 + slots * elemSize && endOffset <= mem.Length
      ensures nextOffset == begOffset && loopSeq == 0
    {
      var rawSize := if DEFAULT_BUFFER_SIZE < pageSize then pageSize else DEFAULT_BUFFER_SIZE;
      var elem := typeSize + STAMP_SIZE;
      var n := (rawSize - HEADER_SIZE) / elem;
      MulLe(1, n, elem);
      assert rawSize - HEADER_SIZE == n * elem + (rawSize - HEADER_SIZE) % elem;
      this.typeSize := typeSize;
      elemSize := elem;
      begOffset := HEADER_SIZE;
      endOffset := HEADER_SIZE + n * elem;
      mem := new byte[rawSize];
      nextOffset := HEADER_SIZE;
      loopSeq := 0;
      slots := n;
      history := [];
    }

    /** RouteToBuffer: value, stamp, then the header. */
    method Write(val: seq<byte>, stamp: seq<byte>)
      requires Valid() && |val| == typeSize && |stamp| == STAMP_SIZE
      modifies this, mem
      ensures Valid()
      ensures history == old(history) + [Element(val, stamp)]
      ensures if old(nextOffset) + elemSize < endOffset then nextOffset == old(nextOffset) + elemSize && loopSeq == old(loopSeq)
              else nextOffset == begOffset && loopSeq == Wrap(old(loopSeq) + 1)
    {
      OneMoreWrite(|history|, slots, elemSize);
      StoreElement(val, stamp);
      if nextOffset + elemSize >= endOffset {
        nextOffset := begOffset;
        loopSeq := Wrap(loopSeq + 1);
      } else {
        nextOffset := nextOffset + elemSize;
      }
    }

    /** The two stores at `nextOffset`: the value, and the stamp at the slot's end. */
    method StoreBytes(val: seq<byte>, stamp: seq<byte>)
      requires Layout() && nextOffset + elemSize <= mem.Length
      requires |val| == typeSize && |stamp| == STAMP_SIZE
      modifies mem
      ensures ElementAt(nextOffset) == Element(val, stamp)
      ensures mem[nextOffset..nextOffset + typeSize] == val && mem[nextOffset + elemSize - 40..nextOffset + elemSize] == stamp
      ensures forall p :: 0 <= p < nextOffset || nextOffset + elemSize <= p < mem.Length ==> mem[p] == old(mem[p])
    {
      forall i | 0 <= i < typeSize {
        mem[nextOffset + i] := val[i];
      }
      forall i | 0 <= i < STAMP_SIZE {
        mem[nextOffset + (elemSize - STAMP_SIZE) + i] := stamp[i];
      }
      assert mem[nextOffset..nextOffset + typeSize] == val;
      assert mem[nextOffset + (elemSize - STAMP_SIZE)..nextOffset + elemSize] == stamp;
    }

    method StoreElement(val: seq<byte>, stamp: seq<byte>)
      requires Valid() && |val| == typeSize && |stamp| == STAMP_SIZE
      modifies this`history, mem
      ensures history == old(history) + [Element(val, stamp)]
      ensures forall i: nat :: i < |history| < i + slots + 1 ==> Holds(i)
    {
      ghost var w := |history|;
      OneMoreWrite(w, slots, elemSize);
      StoreBytes(val, stamp);
      history := history + [Element(val, stamp)];
      forall i: nat | i < |history| < i + slots + 1
        ensures Holds(i)
      {
        if i < w {
          OtherSlotKept(i, w);
          assert old(Holds(i));
          SlotKept(SlotOffset(begOffset, i % slots, elemSize));
        }
      }
    }

    /** A slot clear of the one just written. */
    twostate lemma SlotKept(o: nat)
      requires typeSize <= elemSize && STAMP_SIZE <= elemSize && o + elemSize <= mem.Length
      requires o + elemSize <= nextOffset || nextOffset + elemSize <= o
      requires nextOffset + elemSize <= mem.Length
      requires forall p :: 0 <= p < nextOffset || nextOffset + elemSize <= p < mem.Length ==> mem[p] == old(mem[p])
      ensures ElementAt(o) == old(ElementAt(o))
    {
    }

    /** Where the reader looks is where that element still is. */
    lemma SpotHoldsElement(back: nat)
      requires Valid() && 0 < back <= slots && back <= |history|
      requires slots * elemSize > 0
      ensures var spot := Spot(nextOffset, back, elemSize, slots * elemSize);
              && begOffset <= spot && spot + elemSize <= mem.Length
              && ElementAt(spot) == history[|history| - back]
    {
      ghost var i := |history| - back;
      SpotFindsSlot(begOffset, |history| % slots, back, slots, elemSize);
      SlotOfIndex(|history|, back, slots);
      assert Holds(i);
      MulLe(0, i % slots, elemSize);
    }

    /** A write to slot `w % slots` touches no byte of the slots of the elements
        that stay in the window. */
    lemma OtherSlotKept(i: nat, w: nat)
      requires Layout() && i < w < i + slots
      ensures SlotOffset(begOffset, i % slots, elemSize) + elemSize <= SlotOffset(begOffset, w % slots, elemSize)
              || SlotOffset(begOffset, w % slots, elemSize) + elemSize <= SlotOffset(begOffset, i % slots, elemSize)
    {
      ModDistinct(i, w, slots);
      var a, b := i % slots, w % slots;
      SubMul(a, 1, elemSize);
      SubMul(b, 1, elemSize);
      if a < b {
        MulLe(a + 1, b, elemSize);
      } else {
        MulLe(b + 1, a, elemSize);
      }
    }
  }

  // ---------------------------------------------------------------------------
  // The reader, and what any interleaving of writes and reads amounts to
  // ---------------------------------------------------------------------------

  /** A client's view of one stream: how much was written and consumed, and for each
      block that captured the buffer, the indices of the elements handed to it. */
  datatype Run = Run(written: nat, consumed: nat, blocks: set<BlockId>,
                     joined: map<BlockId, nat>, indices: map<BlockId, seq<nat>>)

  datatype Step = Write | Read | Skip | Capture(b: BlockId) | Release(b: BlockId)

  function Span(a: nat, b: nat): (s: seq<nat>)
    requires a <= b
    ensures |s| == b - a && forall j :: 0 <= j < |s| ==> s[j] == a + j
  {
    seq(b - a, j requires 0 <= j < b - a => a + j)
  }

  /** The same data appended for every block. */
  function AppendAll<T>(m: map<BlockId, seq<T>>, more: seq<T>): (r: map<BlockId, seq<T>>)
    ensures r.Keys == m.Keys
  {
    map b | b in m :: m[b] + more
  }

  lemma AppendTwice<T>(m: map<BlockId, seq<T>>, a: seq<T>, b: seq<T>)
    ensures AppendAll(AppendAll(m, a), b) == AppendAll(m, a + b)
    ensures AppendAll(m, []) == m
  {
    assert forall k :: k in m ==> m[k] + a + b == m[k] + (a + b);
    assert forall k :: k in m ==> m[k] + [] == m[k];
  }

  /** A read under the mutex. A negative count throws, and changes nothing. */
  function AfterRead(run: Run, n: nat): (next: Run)
    requires n > 0 && run.consumed <= run.written
    ensures var f := Inferred(run.written, run.consumed, n);
            if f <= 0 || run.blocks == {} then next == run else Advanced(run, next, Min(f, n))
  {
    var f := Inferred(run.written, run.consumed, n);
    if f <= 0 || run.blocks == {} then run
    else
      InferredForm(run.written, run.consumed, n);
      run.(consumed := run.written,
           indices := AppendAll(run.indices, Span(run.written - Min(f, n), run.written)))
  }

  /** The last `k` elements handed to every block, and everything consumed. */
  ghost predicate Advanced(run: Run, next: Run, k: nat) {
    && k <= run.written
    && next == run.(consumed := run.written,
                    indices := AppendAll(run.indices, Span(run.written - k, run.written)))
  }

  /** A read's effect, as the reader's contract tells it, is the step of the run. */
  lemma ReadIsStep(run: Run, next: Run, n: nat)
    requires n > 0 && run.consumed <= run.written && run.blocks != {}
    requires var f := Inferred(run.written, run.consumed, n);
             if f <= 0 then next == run else Advanced(run, next, Min(f, n))
    ensures next == Apply(run, n, Read)
  {
  }

  /** The first capture creates the client's entry, with its position at zero; the
      entry goes away with the last block. */
  function Apply(run: Run, n: nat, step: Step): Run
    requires n > 0 && run.consumed <= run.written
  {
    match step
    case Write => run.(written := run.written + 1)
    case Read => AfterRead(run, n)
    case Skip => run
    case Capture(b) =>
      if b in run.blocks then run
      else
        var from := if run.blocks == {} then 0 else run.consumed;
        run.(consumed := from, blocks := run.blocks + {b}, joined := run.joined[b := from], indices := run.indices[b := []])
    case Release(b) =>
      run.(blocks := run.blocks - {b}, joined := run.joined - {b}, indices := run.indices - {b})
  }

  const START := Run(0, 0, {}, map[], map[])

  function Replay(n: nat, steps: seq<Step>): (run: Run)
    requires n > 0
    ensures run.consumed <= run.written
  {
    if steps == [] then START else Apply(Replay(n, steps[..|steps| - 1]), n, steps[|steps| - 1])
  }

  ghost predicate Increasing(s: seq<nat>) {
    forall j, k :: 0 <= j < k < |s| ==> s[j] < s[k]
  }

  /** Nothing handed over twice or out of order, and nothing from before the capture. */
  ghost predicate Ordered(run: Run) {
    && run.consumed <= run.written
    && run.joined.Keys == run.blocks && run.indices.Keys == run.blocks
    && forall b :: b in run.blocks ==>
         && run.joined[b] <= run.consumed
         && Increasing(run.indices[b])
         && forall j :: 0 <= j < |run.indices[b]| ==> run.joined[b] <= run.indices[b][j] < run.consumed
  }

  /** Of what a block should have been handed, only overwritten elements are missing. */
  ghost predicate Covered(run: Run, n: nat) {
    forall b, i :: b in run.blocks && b in run.joined && b in run.indices && run.joined[b] <= i < run.consumed ==>
      i in run.indices[b] || i + n < run.written
  }

  /** Every block has been handed everything since its capture. */
  ghost predicate Complete(run: Run) {
    forall b :: b in run.blocks && b in run.joined && b in run.indices ==>
      run.joined[b] <= run.consumed && run.indices[b] == Span(run.joined[b], run.consumed)
  }

  /** Every read comes before the loop count has gone all the way around. */
  ghost predicate TimelyReads(n: nat, steps: seq<Step>)
    requires n > 0
  {
    forall k :: 0 <= k < |steps| && steps[k] == Read ==>
      var run := Replay(n, steps[..k]); Loops(run.written, run.consumed, n) < U32
  }

  /** Every read comes before anything unread is overwritten. */
  ghost predicate PromptReads(n: nat, steps: seq<Step>)
    requires n > 0
  {
    forall k :: 0 <= k < |steps| && steps[k] == Read ==>
      var run := Replay(n, steps[..k]); run.written - run.consumed <= n
  }

  lemma ReadKeepsOrdered(run: Run, n: nat)
    requires n > 0 && Ordered(run)
    ensures Ordered(AfterRead(run, n))
  {
    InferredForm(run.written, run.consumed, n);
  }

  lemma ReadKeepsCovered(run: Run, n: nat)
    requires n > 0 && Ordered(run) && Covered(run, n) && Loops(run.written, run.consumed, n) < U32
    ensures Covered(AfterRead(run, n), n)
  {
    InferredIsExact(run.written, run.consumed, n);
    var next := AfterRead(run, n);
    var f := Inferred(run.written, run.consumed, n);
    if f > 0 && run.blocks != {} {
      var from := run.written - Min(f, n);
      forall b, i | b in next.blocks && next.joined[b] <= i < next.consumed
        ensures i in next.indices[b] || i + n < next.written
      {
        if i >= from {
          assert next.indices[b][|run.indices[b]| + (i - from)] == i;
        } else if i < run.consumed && i in run.indices[b] {
          var j :| 0 <= j < |run.indices[b]| && run.indices[b][j] == i;
          assert next.indices[b][j] == i;
        }
      }
    }
  }

  lemma ReadKeepsComplete(run: Run, n: nat)
    requires n > 0 && Ordered(run) && Complete(run) && run.written - run.consumed <= n
    ensures Complete(AfterRead(run, n))
  {
    var w, r := run.written, run.consumed;
    InferredForm(w, r, n);
    MultiplesApart(Loops(w, r, n) - 1, n);
    SubMul(Loops(w, r, n), 1, n);
    assert Loops(w, r, n) <= 1;
    InferredIsExact(w, r, n);
  }

  lemma StepKeepsOrdered(run: Run, n: nat, step: Step)
    requires n > 0 && Ordered(run)
    ensures Ordered(Apply(run, n, step))
  {
    if step == Read {
      ReadKeepsOrdered(run, n);
    }
  }

  lemma StepKeepsCovered(run: Run, n: nat, step: Step)
    requires n > 0 && Ordered(run) && Covered(run, n)
    requires step == Read ==> Loops(run.written, run.consumed, n) < U32
    ensures Covered(Apply(run, n, step), n)
  {
    if step == Read {
      ReadKeepsCovered(run, n);
    }
  }

  lemma StepKeepsComplete(run: Run, n: nat, step: Step)
    requires n > 0 && Ordered(run) && Complete(run)
    requires step == Read ==> run.written - run.consumed <= n
    ensures Complete(Apply(run, n, step))
  {
    if step == Read {
      ReadKeepsComplete(run, n);
    }
  }

  /** Over any run of writes, reads, early exits, captures and releases: what a block
      was handed is in order and without duplicates, whatever wrapped around; with
      timely reads only overwritten elements are missing; with prompt reads, nothing. */
  lemma {:induction false} AnyRun(n: nat, steps: seq<Step>)
    requires n > 0
    ensures Ordered(Replay(n, steps))
    ensures TimelyReads(n, steps) ==> Covered(Replay(n, steps), n)
    ensures PromptReads(n, steps) ==> Complete(Replay(n, steps))
  {
    if steps != [] {
      var k := |steps| - 1;
      var before, last := steps[..k], steps[k];
      AnyRun(n, before);
      assert forall j :: 0 <= j < k ==> before[..j] == steps[..j];
      var run := Replay(n, before);
      StepKeepsOrdered(run, n, last);
      if TimelyReads(n, steps) {
        StepKeepsCovered(run, n, last);
      }
      if PromptReads(n, steps) {
        StepKeepsComplete(run, n, last);
      }
    }
  }

  // ----- what a run's parts are, in terms of its steps

  /** A block is in the entry if it was captured and not released since. */
  ghost predicate Subscribed(steps: seq<Step>, b: BlockId) {
    exists k :: 0 <= k < |steps| && steps[k] == Capture(b) && forall j :: k < j < |steps| ==> steps[j] != Release(b)
  }

  lemma {:induction false} BlocksAreSubscribed(n: nat, steps: seq<Step>, b: BlockId)
    requires n > 0
    ensures b in Replay(n, steps).blocks <==> Subscribed(steps, b)
  {
    if steps != [] {
      var m := |steps| - 1;
      var before := steps[..m];
      BlocksAreSubscribed(n, before, b);
      if Subscribed(before, b) && steps[m] != Release(b) {
        var k :| 0 <= k < m && before[k] == Capture(b) && forall j :: k < j < m ==> before[j] != Release(b);
        assert steps[k] == Capture(b);
      }
      if Subscribed(steps, b) && steps[m] != Capture(b) {
        var k :| 0 <= k < |steps| && steps[k] == Capture(b) && forall j :: k < j < |steps| ==> steps[j] != Release(b);
        assert before[k] == Capture(b);
      }
      if steps[m] == Capture(b) {
        assert Subscribed(steps, b);
      }
    }
  }

  function Writes(steps: seq<Step>): nat {
    if steps == [] then 0 else Writes(steps[..|steps| - 1]) + if steps[|steps| - 1] == Write then 1 else 0
  }

  lemma {:induction false} WrittenIsCounted(n: nat, steps: seq<Step>)
    requires n > 0
    ensures Replay(n, steps).written == Writes(steps)
  {
    if steps != [] {
      WrittenIsCounted(n, steps[..|steps| - 1]);
    }
  }

  /** A block that joins a new entry starts with everything that was ever written; one that
      joins an entry of others starts where they are. */
  lemma {:induction false} JoinedAtCapture(n: nat, steps: seq<Step>, k: nat, b: BlockId)
    requires n > 0 && k < |steps| && steps[k] == Capture(b) && b !in Replay(n, steps[..k]).blocks
    requires forall j :: k < j < |steps| ==> steps[j] != Release(b)
    ensures var run, start := Replay(n, steps), Replay(n, steps[..k]);
            b in run.blocks && b in run.joined && run.joined[b] == if start.blocks == {} then 0 else start.consumed
  {
    var m := |steps| - 1;
    if k < m {
      assert steps[..m][..k] == steps[..k];
      JoinedAtCapture(n, steps[..m], k, b);
    }
  }

  /** A read that is carried out in time brings every block up to what is written; and only
      reads and new entries move the position. */
  lemma ReadCatchesUp(n: nat, run: Run, step: Step)
    requires n > 0 && run.consumed <= run.written
    ensures step == Read && run.blocks != {} && Loops(run.written, run.consumed, n) < U32 ==>
              Apply(run, n, step).consumed == run.written
    ensures Apply(run, n, step).consumed != run.consumed ==> step == Read || (step.Capture? && run.blocks == {})
  {
    InferredForm(run.written, run.consumed, n);
    if Loops(run.written, run.consumed, n) < U32 {
      InferredIsExact(run.written, run.consumed, n);
    }
  }

  /** Put together: after a read, if all reads were prompt, every block that is subscribed has
      been handed every element from its start to the last one written. */
  lemma SubscribersHaveAll(n: nat, steps: seq<Step>, b: BlockId)
    requires n > 0 && steps != [] && steps[|steps| - 1] == Read && PromptReads(n, steps) && Subscribed(steps, b)
    ensures var run := Replay(n, steps);
            && b in run.joined && b in run.indices && run.joined[b] <= Writes(steps)
            && run.indices[b] == Span(run.joined[b], Writes(steps))
  {
    var m := |steps| - 1;
    var run := Replay(n, steps[..m]);
    AnyRun(n, steps);
    BlocksAreSubscribed(n, steps, b);
    WrittenIsCounted(n, steps);
    InferredForm(run.written, run.consumed, n);
    MultiplesApart(Loops(run.written, run.consumed, n) - 1, n);
    SubMul(Loops(run.written, run.consumed, n), 1, n);
    ReadCatchesUp(n, run, Read);
  }

  /** The elements of a history with these indices, in this order. */
  ghost predicate Selects(history: seq<Element>, elements: seq<Element>, at: seq<nat>) {
    && |elements| == |at|
    && forall j :: 0 <= j < |at| ==> at[j] < |history| && elements[j] == history[at[j]]
  }

  ghost predicate AllSelect(history: seq<Element>, delivered: map<BlockId, seq<Element>>, indices: map<BlockId, seq<nat>>) {
    && delivered.Keys == indices.Keys
    && forall b :: b in delivered ==> Selects(history, delivered[b], indices[b])
  }

  lemma AllSelectMore(history: seq<Element>, delivered: map<BlockId, seq<Element>>, indices: map<BlockId, seq<nat>>, from: nat)
    requires AllSelect(history, delivered, indices) && from <= |history|
    ensures AllSelect(history, AppendAll(delivered, history[from..]), AppendAll(indices, Span(from, |history|)))
  {
  }

  datatype Outcome = Skipped | Unchanged | Threw | Delivered

  /** The client's entry for one stream: the position of its last read, and the blocks
      that captured the stream, each with what was inserted into it. */
  class BufferReader {
    const ring: Ring
    var lastOffset: nat
    var lastSeq: nat
    var blocks: set<BlockId>
    var delivered: map<BlockId, seq<Element>>
    ghost var consumed: nat
    ghost var joined: map<BlockId, nat>
    ghost var indices: map<BlockId, seq<nat>>

    /** The entry agrees with the ring's history up to `consumed`. The ring's own
        invariant is asked for separately, where the memory is read. */
    ghost predicate Valid()
      reads this, ring`history
    {
      && ring.slots > 0
      && consumed <= |ring.history|
      && lastOffset == OffsetAfter(consumed, ring.slots, ring.elemSize)
      && lastSeq == LoopsAfter(consumed, ring.slots)
      && delivered.Keys == blocks
      && AllSelect(ring.history, delivered, indices)
    }

    ghost function View(): Run
      reads this, ring`history
    {
      Run(|ring.history|, consumed, blocks, joined, indices)
    }

    constructor (ring: Ring)
      requires ring.slots > 0
      ensures this.ring == ring && Valid()
      ensures View() == START.(written := |ring.history|)
    {
      this.ring := ring;
      lastOffset, lastSeq, blocks, delivered := 0, 0, {}, map[];
      consumed, joined, indices := 0, map[], map[];
    }

    /** _captureBuffer, for a mapping that is there. */
    method Capture(b: BlockId)
      requires Valid()
      modifies this
      ensures Valid() && View() == Apply(old(View()), ring.slots, Step.Capture(b))
      ensures blocks == old(blocks) + {b}
      ensures delivered == if b in old(blocks) then old(delivered) else old(delivered)[b := []]
      ensures if old(blocks) == {} then lastOffset == 0 && lastSeq == 0 else lastOffset == old(lastOffset) && lastSeq == old(lastSeq)
    {
      if b !in blocks {
        if blocks == {} {
          lastOffset, lastSeq, consumed := 0, 0, 0;
        }
        blocks := blocks + {b};
        delivered := delivered[b := []];
        joined := joined[b := consumed];
        indices := indices[b := []];
      }
    }

    /** _releaseBuffer. */
    method Release(b: BlockId)
      requires Valid()
      modifies this
      ensures Valid() && View() == Apply(old(View()), ring.slots, Step.Release(b))
      ensures blocks == old(blocks) - {b} && delivered == old(delivered) - {b}
    {
      blocks := blocks - {b};
      delivered := delivered - {b};
      joined := joined - {b};
      indices := indices - {b};
    }

    /** What a read that counted `count` new elements leaves behind, told from the
        state it found. */
    twostate predicate ReadBy(outcome: Outcome, count: int)
      reads this, ring`history
    {
      && (outcome != Delivered ==> View() == old(View()) && delivered == old(delivered))
      && (outcome == Unchanged ==> count == 0)
      && (outcome == Threw ==> count < 0)
      && (outcome == Delivered ==>
            var newest := Min(count, ring.slots);
            && 0 < newest <= |ring.history| - old(consumed)
            && Advanced(old(View()), View(), newest)
            && delivered == AppendAll(old(delivered), ring.history[consumed - newest..]))
    }

    /** _extractFromBuffer. The first test runs without the mutex, so the header may
        be changing under it: `peekNext` and `peekSeq` are whatever it happened to
        see. Nothing is assumed of them. */
    method Extract(peekNext: nat, peekSeq: nat, mutexFree: bool) returns (outcome: Outcome, ghost count: int)
      requires Valid() && ring.Valid()
      modifies this
      ensures Valid() && ReadBy(outcome, count)
      ensures count == Inferred(|ring.history|, old(consumed), ring.slots)
      ensures outcome != Skipped && blocks != {} ==> View() == Apply(old(View()), ring.slots, Read)
      ensures outcome == Skipped <==> (Wrap(peekNext - ring.begOffset) == old(lastOffset) && peekSeq == old(lastSeq)) || !mutexFree
    {
      if (Wrap(peekNext - ring.begOffset) == lastOffset && peekSeq == lastSeq) || !mutexFree {
        return Skipped, Inferred(|ring.history|, consumed, ring.slots);
      }
      outcome, count := ExtractLocked();
      if blocks != {} {
        ReadIsStep(old(View()), View(), ring.slots);
      }
    }

    method ExtractLocked() returns (outcome: Outcome, ghost count: int)
      requires Valid() && ring.Valid()
      modifies this
      ensures Valid() && ReadBy(outcome, count) && outcome != Skipped
      ensures count == Inferred(|ring.history|, old(consumed), ring.slots)
    {
      var dlen := ring.endOffset - ring.begOffset;
      var nelems := CountNew(dlen);
      count := nelems;
      if nelems == 0 {
        outcome := Unchanged;
      } else if nelems < 0 {
        outcome := Threw;
      } else {
        nelems := CapAtCapacity(nelems, dlen);
        TakeNewest(nelems, dlen);
        outcome := Delivered;
      }
    }

    /** How many elements were written since the last read. */
    method CountNew(dlen: nat) returns (nelems: int)
      requires Valid() && ring.Valid() && dlen == ring.slots * ring.elemSize
      ensures nelems == Inferred(|ring.history|, consumed, ring.slots)
      ensures nelems <= |ring.history| - consumed
    {
      InferredForm(|ring.history|, consumed, ring.slots);
      var npos := AsLong(Wrap(ring.nextOffset - ring.begOffset - lastOffset));
      // an unsigned difference, so never negative once it is widened to 64 bits
      var loopDiff: int := Wrap(ring.loopSeq - lastSeq);
      if loopDiff < 0 {
        loopDiff := loopDiff + U32;
      }
      PositionsToCount(|ring.history|, consumed, ring.slots, ring.elemSize);
      TruncDivExact(Inferred(|ring.history|, consumed, ring.slots), ring.elemSize);
      nelems := TruncDiv(npos + loopDiff * dlen, ring.elemSize);
    }

    method CapAtCapacity(nelems: nat, dlen: nat) returns (capped: nat)
      requires ring.Valid() && dlen == ring.slots * ring.elemSize
      ensures capped == Min(nelems, ring.slots)
    {
      DivModUnique(dlen, ring.slots, 0, ring.elemSize);
      capped := nelems;
      if capped >= dlen / ring.elemSize {
        capped := dlen / ring.elemSize;
      }
    }

    /** Hands over the last `nelems` elements and moves up to the header's position. */
    method TakeNewest(nelems: nat, dlen: nat)
      requires Valid() && ring.Valid() && dlen == ring.slots * ring.elemSize && dlen > 0
      requires 0 < nelems <= ring.slots && nelems <= |ring.history| - consumed
      modifies this`delivered, this`lastOffset, this`lastSeq, this`consumed, this`indices
      ensures Valid() && Advanced(old(View()), View(), nelems)
      ensures delivered == AppendAll(old(delivered), ring.history[consumed - nelems..])
    {
      AllSelectMore(ring.history, delivered, indices, |ring.history| - nelems);
      DeliverNewest(nelems, dlen);
      lastOffset := Wrap(ring.nextOffset - ring.begOffset);
      lastSeq := ring.loopSeq;
      consumed := |ring.history|;
      indices := AppendAll(indices, Span(consumed - nelems, consumed));
      OffsetsInRing(consumed, ring.slots, ring.elemSize);
    }

    /** The element written `back` writes ago, read from the mapped memory. */
    method ReadBack(back: nat, dlen: nat) returns (e: Element)
      requires ring.Valid() && dlen == ring.slots * ring.elemSize && dlen > 0
      requires 0 < back <= ring.slots && back <= |ring.history|
      ensures e == ring.history[|ring.history| - back]
    {
      ring.SpotHoldsElement(back);
      var spot := Spot(ring.nextOffset, back, ring.elemSize, dlen);
      e := ring.ElementAt(spot);
    }

    /** The do-while loop: each of the last `nelems` elements, oldest first, into each
        block of the set. The order of the blocks does not matter. */
    method DeliverNewest(nelems: nat, dlen: nat)
      requires ring.Valid() && dlen == ring.slots * ring.elemSize && dlen > 0
      requires 0 < nelems <= ring.slots && nelems <= |ring.history|
      modifies this`delivered
      ensures delivered == AppendAll(old(delivered), ring.history[|ring.history| - nelems..])
    {
      ghost var w := |ring.history|;
      AppendTwice(delivered, [], []);
      var back := nelems;
      while back > 0
        invariant 0 <= back <= nelems
        invariant delivered == AppendAll(old(delivered), ring.history[w - nelems..w - back])
      {
        var e := ReadBack(back, dlen);
        AppendTwice(old(delivered), ring.history[w - nelems..w - back], [e]);
        delivered := AppendAll(delivered, [e]);
        assert ring.history[w - nelems..w - back] + [e] == ring.history[w - nelems..w - (back - 1)];
        back := back - 1;
      }
      assert ring.history[w - nelems..w] == ring.history[w - nelems..];
    }
  }

  /** What the engine's writer does, seen from a client's entry: the write step of the run.
      The entry stays as it is. */
  method WriteSeen(reader: BufferReader, val: seq<byte>, stamp: seq<byte>)
    requires reader.Valid() && reader.ring.Valid()
    requires |val| == reader.ring.typeSize && |stamp| == STAMP_SIZE
    modifies reader.ring, reader.ring.mem
    ensures reader.Valid() && reader.ring.Valid()
    ensures reader.View() == Apply(old(reader.View()), reader.ring.slots, Write)
    ensures reader.ring.history == old(reader.ring.history) + [Element(val, stamp)]
  {
    reader.ring.Write(val, stamp);
  }

  /** The unlocked test is exact whenever the header was standing still: it then skips
      exactly when there is nothing new, up to whole multiples of 2^32 loops. */
  lemma EarlyExitExactly(w: nat, r: nat, n: nat, e: nat)
    requires n > 0 && e > 0 && r <= w && n * e < 0x8000_0000
    ensures OffsetAfter(w, n, e) == OffsetAfter(r, n, e) && LoopsAfter(w, n) == LoopsAfter(r, n)
            <==> w % n == r % n && Loops(w, r, n) % U32 == 0
    ensures OffsetAfter(w, n, e) == OffsetAfter(r, n, e) && LoopsAfter(w, n) == LoopsAfter(r, n) ==> Inferred(w, r, n) == 0
    ensures Loops(w, r, n) < U32 ==>
              (OffsetAfter(w, n, e) == OffsetAfter(r, n, e) && LoopsAfter(w, n) == LoopsAfter(r, n) <==> w == r)
  {
    InferredForm(w, r, n);
    LoopsNonNegative(w, r, n);
    LoopDifference(w / n, r / n);
    SubMul(w % n, r % n, e);
    MultiplesApart(w % n - r % n, e);
    if Loops(w, r, n) < U32 {
      InferredIsExact(w, r, n);
    }
  }
}
