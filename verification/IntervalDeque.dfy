/**
  Prices folded into fixed-time intervals, and the deque of intervals that incoming batches
  are put in (python/tosdb/intervalize/ohlc.py). Batches are newest first.
*/
module IntervalDeque {
  import opened Basics
  import Arithmetic

  datatype Datum = Datum(price: real, time: int)

  /** Interval lengths, in seconds, that the constructor accepts. */
  type Length = n: int | 10 <= n <= 14400 witness 10

  datatype Ohlc = Ohlc(o: real, h: real, l: real, c: real, ticks: nat)

  /** An interval by its number since the epoch; a null interval has no prices. */
  datatype Slot = Slot(ei: int, bar: Option<Ohlc>)

  // ---------------------------------------------------------------------------
  // Folding
  // ---------------------------------------------------------------------------

  function Max(a: real, b: real): real {
    if a < b then b else a
  }

  function Min(a: real, b: real): real {
    if b < a then b else a
  }

  function MaxOf(v: seq<real>): real
    requires v != []
  {
    if |v| == 1 then v[0] else Max(MaxOf(v[..|v| - 1]), v[|v| - 1])
  }

  function MinOf(v: seq<real>): real
    requires v != []
  {
    if |v| == 1 then v[0] else Min(MinOf(v[..|v| - 1]), v[|v| - 1])
  }

  /** The interval of all prices at once. */
  function OfData(v: seq<real>): Ohlc
    requires v != []
  {
    Ohlc(v[0], MaxOf(v), MinOf(v), v[|v| - 1], |v|)
  }

  function Updated(bar: Ohlc, v: seq<real>): Ohlc
    requires v != []
  {
    Ohlc(bar.o, Max(bar.h, MaxOf(v)), Min(bar.l, MinOf(v)), v[|v| - 1], bar.ticks + |v|)
  }

  lemma {:induction false} ExtremesOfSum(a: seq<real>, b: seq<real>)
    requires a != [] && b != []
    ensures MaxOf(a + b) == Max(MaxOf(a), MaxOf(b))
    ensures MinOf(a + b) == Min(MinOf(a), MinOf(b))
  {
    assert (a + b)[..|a + b| - 1] == a + b[..|b| - 1];
    if |b| == 1 {
      assert a + b[..0] == a;
    } else {
      ExtremesOfSum(a, b[..|b| - 1]);
    }
  }

  lemma {:induction false} ExtremesBound(v: seq<real>)
    requires v != []
    ensures MaxOf(v) in v && MinOf(v) in v
    ensures forall k :: 0 <= k < |v| ==> MinOf(v) <= v[k] <= MaxOf(v)
  {
    if |v| > 1 {
      ExtremesBound(v[..|v| - 1]);
      assert v == v[..|v| - 1] + [v[|v| - 1]];
    }
  }

  /** What an interval of all its prices is. */
  lemma SummaryMeans(v: seq<real>)
    requires v != []
    ensures var bar := OfData(v);
            && bar.o == v[0] && bar.c == v[|v| - 1] && bar.ticks == |v|
            && bar.h in v && bar.l in v && forall x :: x in v ==> bar.l <= x <= bar.h
  {
    ExtremesBound(v);
  }

  lemma UpdateContinues(a: seq<real>, b: seq<real>)
    requires a != [] && b != []
    ensures Updated(OfData(a), b) == OfData(a + b)
  {
    ExtremesOfSum(a, b);
  }

  function Concat<T>(chunks: seq<seq<T>>): seq<T> {
    if chunks == [] then [] else Concat(chunks[..|chunks| - 1]) + chunks[|chunks| - 1]
  }

  /** The interval constructed on the first chunk and updated with the rest. */
  function Folded(chunks: seq<seq<real>>): Ohlc
    requires chunks != [] && forall k :: 0 <= k < |chunks| ==> chunks[k] != []
  {
    if |chunks| == 1 then OfData(chunks[0]) else Updated(Folded(chunks[..|chunks| - 1]), chunks[|chunks| - 1])
  }

  /** However the prices of an interval are split, it ends up the same. */
  lemma {:induction false} SplitDoesNotMatter(chunks: seq<seq<real>>)
    requires chunks != [] && forall k :: 0 <= k < |chunks| ==> chunks[k] != []
    ensures Concat(chunks) != [] && Folded(chunks) == OfData(Concat(chunks))
  {
    var n := |chunks| - 1;
    if n == 0 {
      assert Concat(chunks[..0]) == [];
      assert [] + chunks[0] == chunks[0];
    } else {
      SplitDoesNotMatter(chunks[..n]);
      UpdateContinues(Concat(chunks[..n]), chunks[n]);
    }
  }

  /** Every chunk turned around: the prices in the order of time. */
  function InTime(chunks: seq<seq<real>>): (r: seq<seq<real>>)
    ensures |r| == |chunks|
  {
    seq(|chunks|, k requires 0 <= k < |chunks| => Reverse(chunks[k]))
  }

  lemma {:induction false} ConcatEnds(chunks: seq<seq<real>>)
    requires chunks != [] && forall k :: 0 <= k < |chunks| ==> chunks[k] != []
    ensures Concat(chunks) != []
    ensures Concat(chunks)[0] == chunks[0][0]
    ensures var last := chunks[|chunks| - 1];
            Concat(chunks)[|Concat(chunks)| - 1] == last[|last| - 1]
  {
    if |chunks| > 1 {
      ConcatEnds(chunks[..|chunks| - 1]);
    }
  }

  lemma {:induction false} SameExtremes(chunks: seq<seq<real>>)
    requires chunks != [] && forall k :: 0 <= k < |chunks| ==> chunks[k] != []
    ensures Concat(chunks) != [] && |Concat(InTime(chunks))| == |Concat(chunks)|
    ensures MaxOf(Concat(InTime(chunks))) == MaxOf(Concat(chunks))
    ensures MinOf(Concat(InTime(chunks))) == MinOf(Concat(chunks))
  {
    var n := |chunks| - 1;
    assert InTime(chunks)[..n] == InTime(chunks[..n]);
    TurnedExtremes(chunks[n]);
    if n == 0 {
      assert Concat(chunks[..0]) == [] && Concat(InTime(chunks)[..0]) == [];
      assert Concat(chunks) == chunks[0] && Concat(InTime(chunks)) == Reverse(chunks[0]);
    } else {
      SameExtremes(chunks[..n]);
      ExtremesOfSum(Concat(chunks[..n]), chunks[n]);
      ExtremesOfSum(Concat(InTime(chunks[..n])), Reverse(chunks[n]));
    }
  }

  lemma TurnedExtremes(v: seq<real>)
    requires v != []
    ensures MaxOf(Reverse(v)) == MaxOf(v) && MinOf(Reverse(v)) == MinOf(v)
  {
    ExtremesBound(v);
    ExtremesBound(Reverse(v));
    var r := Reverse(v);
    var a :| 0 <= a < |v| && v[a] == MaxOf(v);
    var b :| 0 <= b < |v| && v[b] == MinOf(v);
    assert r[|v| - 1 - a] == v[a] && r[|v| - 1 - b] == v[b];
    var c :| 0 <= c < |v| && r[c] == MaxOf(r);
    var d :| 0 <= d < |v| && r[d] == MinOf(r);
    assert v[|v| - 1 - c] == r[c] && v[|v| - 1 - d] == r[d];
  }

  /** High, low and ticks are those of the interval. But the open is the first price in time
      only if the first chunk ends with the price it begins with, and the close the last only
      if the last chunk does: a chunk is newest first. */
  lemma OpenAndCloseExactly(chunks: seq<seq<real>>)
    requires chunks != [] && forall k :: 0 <= k < |chunks| ==> chunks[k] != []
    ensures var inTime := Concat(InTime(chunks));
            var first, last := chunks[0], chunks[|chunks| - 1];
            && inTime != []
            && Folded(chunks).h in inTime && Folded(chunks).l in inTime
            && (forall x :: x in inTime ==> Folded(chunks).l <= x <= Folded(chunks).h)
            && Folded(chunks).ticks == |inTime|
            && (Folded(chunks).o == inTime[0] <==> first[0] == first[|first| - 1])
            && (Folded(chunks).c == inTime[|inTime| - 1] <==> last[0] == last[|last| - 1])
  {
    SplitDoesNotMatter(chunks);
    SameExtremes(chunks);
    SummaryMeans(Concat(InTime(chunks)));
    ConcatEnds(chunks);
    assert forall k :: 0 <= k < |chunks| ==> InTime(chunks)[k] == Reverse(chunks[k]);
    ConcatEnds(InTime(chunks));
  }

  // ---------------------------------------------------------------------------
  // The deque, as a value
  // ---------------------------------------------------------------------------

  function IntervalOf(isec: Length, d: Datum): int {
    d.time / isec
  }

  function Prices(data: seq<Datum>): (v: seq<real>)
    ensures |v| == |data|
  {
    seq(|data|, k requires 0 <= k < |data| => data[k].price)
  }

  lemma PricesOfSum(a: seq<Datum>, b: seq<Datum>)
    ensures Prices(a + b) == Prices(a) + Prices(b)
  {
  }

  /** The interval of all data put in it, or none. */
  function Summary(data: seq<Datum>): Option<Ohlc> {
    if data == [] then None else Some(OfData(Prices(data)))
  }

  ghost predicate Later(dq: seq<Slot>, i: int, j: int) {
    0 <= i < j < |dq| ==> dq[i].ei > dq[j].ei
  }

  ghost predicate Decreasing(dq: seq<Slot>) {
    forall i, j :: Later(dq, i, j)
  }

  /** The first interval with this number. */
  function Find(dq: seq<Slot>, ei: int): (i: nat)
    ensures i <= |dq| && (i < |dq| ==> dq[i].ei == ei)
  {
    if dq == [] || dq[0].ei == ei then 0 else Find(dq[1..], ei) + 1
  }

  lemma {:induction false} FindIsFirst(dq: seq<Slot>, ei: int, k: nat)
    requires k < |dq| && dq[k].ei == ei
    ensures Find(dq, ei) <= k
  {
    if dq[0].ei != ei {
      FindIsFirst(dq[1..], ei, k - 1);
    }
  }

  lemma {:induction false} FindWhere(dq: seq<Slot>, ei: int, i: nat)
    requires i <= |dq| && (i < |dq| ==> dq[i].ei == ei)
    requires forall k :: 0 <= k < i ==> dq[k].ei != ei
    ensures Find(dq, ei) == i
  {
    if i < |dq| {
      FindIsFirst(dq, ei, i);
    }
  }

  /** Numbers of intervals, by the time where they begin. */
  lemma IntervalOfExactly(isec: Length, d: Datum, ei: int)
    ensures IntervalOf(isec, d) == ei <==> ei * isec <= d.time < (ei + 1) * isec
  {
    assert d.time == d.time / isec * isec + d.time % isec;
    Arithmetic.SubMul(ei, 1, isec);
    if ei * isec <= d.time < (ei + 1) * isec {
      Arithmetic.DivModUnique(d.time, ei, d.time - ei * isec, isec);
    }
    if IntervalOf(isec, d) == ei {
      assert d.time == ei * isec + d.time % isec;
    }
  }

  predicate IsStranded(dq: seq<Slot>, ei: int)
    requires dq != []
  {
    ei <= dq[0].ei && Find(dq, ei) == |dq|
  }

  /** Data are stranded exactly if they are older than the newest interval and have none. */
  lemma StrandedExactly(dq: seq<Slot>, ei: int)
    requires dq != []
    ensures IsStranded(dq, ei) <==> ei <= dq[0].ei && forall k :: 0 <= k < |dq| ==> dq[k].ei != ei
  {
    if k :| 0 <= k < |dq| && dq[k].ei == ei {
      FindIsFirst(dq, ei, k);
    }
  }

  function Fed(slot: Slot, v: seq<real>): Slot
    requires v != []
  {
    Slot(slot.ei, Some(if slot.bar == None then OfData(v) else Updated(slot.bar.value, v)))
  }

  function Inserted(dq: seq<Slot>, ei: int, v: seq<real>): seq<Slot>
    requires dq != [] && v != []
  {
    if ei > dq[0].ei then [Slot(ei, Some(OfData(v)))] + dq
    else
      var i := Find(dq, ei);
      if i == |dq| then dq else dq[i := Fed(dq[i], v)]
  }

  function WithNull(dq: seq<Slot>): seq<Slot>
    requires dq != []
  {
    [Slot(dq[0].ei + 1, None)] + dq
  }

  function TicksOf(slot: Slot): nat {
    if slot.bar == None then 0 else slot.bar.value.ticks
  }

  function Ticks(dq: seq<Slot>): nat {
    if dq == [] then 0 else TicksOf(dq[0]) + Ticks(dq[1..])
  }

  lemma {:induction false} TicksChange(dq: seq<Slot>, i: nat, slot: Slot)
    requires i < |dq|
    ensures Ticks(dq[i := slot]) == Ticks(dq) - TicksOf(dq[i]) + TicksOf(slot)
  {
    if i == 0 {
      assert dq[0 := slot][1..] == dq[1..];
    } else {
      TicksChange(dq[1..], i - 1, slot);
      assert dq[i := slot][1..] == dq[1..][i - 1 := slot];
    }
  }

  lemma InsertedTicks(dq: seq<Slot>, ei: int, v: seq<real>)
    requires dq != [] && v != []
    ensures Ticks(Inserted(dq, ei, v)) == Ticks(dq) + if IsStranded(dq, ei) then 0 else |v|
  {
    if ei > dq[0].ei {
      assert Inserted(dq, ei, v)[1..] == dq;
    } else if Find(dq, ei) < |dq| {
      TicksChange(dq, Find(dq, ei), Fed(dq[Find(dq, ei)], v));
    }
  }

  lemma FrontGrows(dq: seq<Slot>, slot: Slot)
    requires dq != [] && Decreasing(dq) && slot.ei > dq[0].ei
    ensures Decreasing([slot] + dq)
  {
    forall i, j
      ensures Later([slot] + dq, i, j)
    {
      if 0 <= i < j < |dq| + 1 {
        assert Later(dq, i - 1, j - 1) && Later(dq, 0, j - 1);
      }
    }
  }

  lemma FedKeepsDecreasing(dq: seq<Slot>, i: nat, v: seq<real>)
    requires i < |dq| && Decreasing(dq) && v != []
    ensures Decreasing(dq[i := Fed(dq[i], v)])
  {
    var fed := dq[i := Fed(dq[i], v)];
    forall a, b
      ensures Later(fed, a, b)
    {
      assert Later(dq, a, b);
    }
  }

  lemma InsertedDecreases(dq: seq<Slot>, ei: int, v: seq<real>)
    requires dq != [] && v != [] && Decreasing(dq)
    ensures Decreasing(Inserted(dq, ei, v)) && Inserted(dq, ei, v) != []
  {
    if ei > dq[0].ei {
      FrontGrows(dq, Slot(ei, Some(OfData(v))));
    } else if Find(dq, ei) < |dq| {
      FedKeepsDecreasing(dq, Find(dq, ei), v);
    }
  }

  // ---------------------------------------------------------------------------
  // Looking up by date-time
  // ---------------------------------------------------------------------------

  /** By offset from the newest interval; an offset that is not in the deque is an error. */
  function GetByNumber(dq: seq<Slot>, ei: int): Option<Slot>
    requires dq != []
  {
    var off := dq[0].ei - ei;
    if off < 0 || off >= |dq| then None else Some(dq[off])
  }

  function Search(dq: seq<Slot>, ei: int): Option<Slot> {
    if Find(dq, ei) < |dq| then Some(dq[Find(dq, ei)]) else None
  }

  predicate Contiguous(dq: seq<Slot>)
    requires dq != []
  {
    dq[0].ei - dq[|dq| - 1].ei == |dq| - 1
  }

  lemma {:induction false} NoMoreThanSpan(dq: seq<Slot>, i: nat, j: nat)
    requires Decreasing(dq) && i <= j < |dq|
    ensures dq[i].ei - dq[j].ei >= j - i
    decreases j - i
  {
    if i < j {
      NoMoreThanSpan(dq, i, j - 1);
      assert Later(dq, j - 1, j);
    }
  }

  lemma ContiguousAt(dq: seq<Slot>, k: nat)
    requires dq != [] && Decreasing(dq) && Contiguous(dq) && k < |dq|
    ensures dq[k].ei == dq[0].ei - k
  {
    NoMoreThanSpan(dq, 0, k);
    NoMoreThanSpan(dq, k, |dq| - 1);
  }

  lemma GetIsSearch(dq: seq<Slot>, ei: int)
    requires dq != [] && Decreasing(dq) && Contiguous(dq)
    ensures GetByNumber(dq, ei) == Search(dq, ei)
  {
    var i, off := Find(dq, ei), dq[0].ei - ei;
    if i < |dq| {
      ContiguousAt(dq, i);
    }
    if 0 <= off < |dq| {
      ContiguousAt(dq, off);
      FindIs(dq, off);
    }
  }

  /** Every lookup finds its interval if and only if no number is missing in between. */
  lemma GetFindsAllExactly(dq: seq<Slot>)
    requires dq != [] && Decreasing(dq)
    ensures (forall ei :: GetByNumber(dq, ei) == Search(dq, ei)) <==> Contiguous(dq)
  {
    if Contiguous(dq) {
      forall ei
        ensures GetByNumber(dq, ei) == Search(dq, ei)
      {
        GetIsSearch(dq, ei);
      }
    } else {
      var last := dq[|dq| - 1].ei;
      NoMoreThanSpan(dq, 0, |dq| - 1);
      FindIs(dq, |dq| - 1);
      assert GetByNumber(dq, last) == None;
      assert Search(dq, last).Some?;
    }
  }

  lemma InsertedContiguousExactly(dq: seq<Slot>, ei: int, v: seq<real>)
    requires dq != [] && v != [] && Contiguous(dq)
    ensures Contiguous(Inserted(dq, ei, v)) <==> ei <= dq[0].ei + 1
    ensures Contiguous(WithNull(dq))
  {
  }

  // ---------------------------------------------------------------------------
  // The first data
  // ---------------------------------------------------------------------------

  /** How many data from the front are of one interval. */
  function RunLength(isec: Length, dat: seq<Datum>): (n: nat)
    requires dat != []
    ensures 0 < n <= |dat|
    ensures n < |dat| ==> IntervalOf(isec, dat[n]) != IntervalOf(isec, dat[0])
  {
    if |dat| == 1 || IntervalOf(isec, dat[1]) != IntervalOf(isec, dat[0]) then 1 else RunLength(isec, dat[1..]) + 1
  }

  lemma {:induction false} RunIsOne(isec: Length, dat: seq<Datum>, k: nat)
    requires k < |dat|
    ensures k < RunLength(isec, dat) ==> IntervalOf(isec, dat[k]) == IntervalOf(isec, dat[0])
  {
    if k > 0 && |dat| > 1 && IntervalOf(isec, dat[1]) == IntervalOf(isec, dat[0]) {
      RunIsOne(isec, dat[1..], k - 1);
    }
  }

  lemma {:induction false} RunWhere(isec: Length, dat: seq<Datum>, n: nat)
    requires 0 < n <= |dat| && (n < |dat| ==> IntervalOf(isec, dat[n]) != IntervalOf(isec, dat[0]))
    requires forall k :: 0 <= k < n ==> IntervalOf(isec, dat[k]) == IntervalOf(isec, dat[0])
    ensures RunLength(isec, dat) == n
  {
    var r := RunLength(isec, dat);
    if n < r {
      RunIsOne(isec, dat, n);
    }
  }

  /** Null intervals for the numbers in between, counting up. */
  function Gap(last: int, e: int): seq<Slot>
    decreases e - last
  {
    if last != 0 && e - last > 1 then [Slot(last + 1, None)] + Gap(last + 1, e) else []
  }

  /** That is, all of them, unless the counting meets zero. */
  lemma {:induction false} GapIsAll(last: int, e: int, k: nat)
    requires last > 0 || e <= 0
    ensures |Gap(last, e)| == if last == 0 || e <= last then 0 else e - last - 1
    ensures k < |Gap(last, e)| ==> Gap(last, e)[k] == Slot(last + 1 + k, None)
    decreases e - last
  {
    if last != 0 && e - last > 1 {
      GapIsAll(last + 1, e, if k > 0 then k - 1 else 0);
    }
  }

  /** Runs of one interval, with the gaps to the one before filled. */
  function Grouped(isec: Length, dat: seq<Datum>, last: int): seq<Slot>
    decreases |dat|
  {
    if dat == [] then []
    else
      var n, e := RunLength(isec, dat), IntervalOf(isec, dat[0]);
      Gap(last, e) + [Slot(e, Some(OfData(Prices(dat[..n]))))] + Grouped(isec, dat[n..], e)
  }

  /** Interval numbers do not increase: the data are newest first, or near enough. */
  predicate NewestFirst(isec: Length, dat: seq<Datum>) {
    forall k :: 1 <= k < |dat| ==> NotLater(isec, dat, k)
  }

  predicate NotLater(isec: Length, dat: seq<Datum>, k: nat)
    requires 1 <= k < |dat|
  {
    IntervalOf(isec, dat[k]) <= IntervalOf(isec, dat[k - 1])
  }

  lemma {:induction false} NewestIsFirst(isec: Length, dat: seq<Datum>, i: nat, j: nat)
    requires NewestFirst(isec, dat) && i <= j < |dat|
    ensures IntervalOf(isec, dat[j]) <= IntervalOf(isec, dat[i])
    decreases j - i
  {
    if i < j {
      NewestIsFirst(isec, dat, i, j - 1);
      assert NotLater(isec, dat, j);
    }
  }

  lemma RestNewestFirst(isec: Length, dat: seq<Datum>, n: nat)
    requires NewestFirst(isec, dat) && n <= |dat|
    ensures NewestFirst(isec, dat[n..])
  {
    forall k | 1 <= k < |dat| - n
      ensures NotLater(isec, dat[n..], k)
    {
      assert NotLater(isec, dat, n + k);
    }
  }

  lemma {:induction false} GroupedDecreases(isec: Length, dat: seq<Datum>, last: int)
    requires NewestFirst(isec, dat)
    requires dat != [] ==> last == 0 || IntervalOf(isec, dat[0]) < last
    ensures Decreasing(Grouped(isec, dat, last))
    ensures forall k :: 0 <= k < |Grouped(isec, dat, last)| ==> Grouped(isec, dat, last)[k].bar.Some?
    ensures dat != [] ==> Grouped(isec, dat, last) != [] && Grouped(isec, dat, last)[0].ei == IntervalOf(isec, dat[0])
    decreases |dat|
  {
    if dat != [] {
      var n, e := RunLength(isec, dat), IntervalOf(isec, dat[0]);
      var slot, rest := Slot(e, Some(OfData(Prices(dat[..n])))), Grouped(isec, dat[n..], e);
      assert Gap(last, e) == [];
      RestNewestFirst(isec, dat, n);
      if n < |dat| {
        NewestIsFirst(isec, dat, 0, n);
        GroupedDecreases(isec, dat[n..], e);
        FrontGrows(rest, slot);
      } else {
        assert rest == [];
      }
      assert Grouped(isec, dat, last) == [slot] + rest;
    }
  }

  lemma {:induction false} GroupedNewestFirst(isec: Length, dat: seq<Datum>, last: int, k: nat)
    requires Decreasing(Grouped(isec, dat, last)) && 1 <= k < |dat|
    ensures NotLater(isec, dat, k)
    decreases |dat|
  {
    var n, e := RunLength(isec, dat), IntervalOf(isec, dat[0]);
    var head, rest := Gap(last, e) + [Slot(e, Some(OfData(Prices(dat[..n]))))], Grouped(isec, dat[n..], e);
    assert Grouped(isec, dat, last) == head + rest;
    RunIsOne(isec, dat, k - 1);
    RunIsOne(isec, dat, k);
    if n < |dat| {
      SuffixDecreases(head, rest);
      var next := IntervalOf(isec, dat[n]);
      assert rest[|Gap(e, next)|].ei == next;
      assert Later(head + rest, |head| - 1, |head| + |Gap(e, next)|);
      if k > n {
        GroupedNewestFirst(isec, dat[n..], e, k - n);
        assert NotLater(isec, dat[n..], k - n);
      }
    }
  }

  lemma SuffixDecreases(head: seq<Slot>, rest: seq<Slot>)
    requires Decreasing(head + rest)
    ensures Decreasing(rest)
  {
    forall i, j
      ensures Later(rest, i, j)
    {
      assert Later(head + rest, |head| + i, |head| + j);
    }
  }

  /** The first intervals are in order exactly if the data are newest first; the filling of
      gaps, which counts up, then never happens. */
  lemma FirstIntervalsExactly(isec: Length, dat: seq<Datum>)
    ensures Decreasing(Grouped(isec, dat, 0)) <==> NewestFirst(isec, dat)
    ensures NewestFirst(isec, dat) ==> forall k :: 0 <= k < |Grouped(isec, dat, 0)| ==> Grouped(isec, dat, 0)[k].bar.Some?
  {
    if NewestFirst(isec, dat) {
      GroupedDecreases(isec, dat, 0);
    }
    if Decreasing(Grouped(isec, dat, 0)) {
      forall k | 1 <= k < |dat|
        ensures NotLater(isec, dat, k)
      {
        GroupedNewestFirst(isec, dat, 0, k);
      }
    }
  }

  // ---------------------------------------------------------------------------
  // Batches
  // ---------------------------------------------------------------------------

  /** Where the data of the oldest interval begin. */
  function Cut(isec: Length, dat: seq<Datum>, old_: int): (fi: nat)
    ensures fi <= |dat| && (fi < |dat| ==> IntervalOf(isec, dat[fi]) == old_)
  {
    if dat == [] || IntervalOf(isec, dat[0]) == old_ then 0 else Cut(isec, dat[1..], old_) + 1
  }

  lemma {:induction false} CutIsFirst(isec: Length, dat: seq<Datum>, k: nat)
    requires k < |dat|
    ensures Cut(isec, dat, IntervalOf(isec, dat[k])) <= k
  {
    if IntervalOf(isec, dat[0]) != IntervalOf(isec, dat[k]) {
      CutIsFirst(isec, dat[1..], k - 1);
    }
  }

  lemma {:induction false} CutWhere(isec: Length, dat: seq<Datum>, old_: int, fi: nat)
    requires fi <= |dat| && (fi < |dat| ==> IntervalOf(isec, dat[fi]) == old_)
    requires forall k :: 0 <= k < fi ==> IntervalOf(isec, dat[k]) != old_
    ensures Cut(isec, dat, old_) == fi
  {
    if fi < |dat| {
      CutIsFirst(isec, dat, fi);
    }
  }

  lemma CutFindsOld(isec: Length, dat: seq<Datum>)
    requires dat != []
    ensures Cut(isec, dat, IntervalOf(isec, dat[|dat| - 1])) < |dat|
  {
    CutIsFirst(isec, dat, |dat| - 1);
  }

  /** Data put in one interval at once. */
  datatype Chunk = Chunk(ei: int, data: seq<Datum>)

  function OldestOf(isec: Length, dat: seq<Datum>): int
    requires dat != []
  {
    IntervalOf(isec, dat[|dat| - 1])
  }

  function OlderPart(isec: Length, dat: seq<Datum>): (r: seq<Datum>)
    requires dat != []
    ensures r != []
  {
    CutFindsOld(isec, dat);
    dat[Cut(isec, dat, OldestOf(isec, dat))..]
  }

  function NewerPart(isec: Length, dat: seq<Datum>): seq<Datum>
    requires dat != []
  {
    dat[..Cut(isec, dat, OldestOf(isec, dat))]
  }

  /** The one or two chunks of a batch: the oldest interval's, and the rest for the next. */
  function ChunksOf(isec: Length, dat: seq<Datum>): (chunks: seq<Chunk>)
    ensures forall k :: 0 <= k < |chunks| ==> chunks[k].data != []
  {
    if dat == [] then []
    else
      var ei, newer := OldestOf(isec, dat), NewerPart(isec, dat);
      [Chunk(ei, OlderPart(isec, dat))] + if newer == [] then [] else [Chunk(ei + 1, newer)]
  }

  predicate Own(isec: Length, chunk: Chunk) {
    forall k :: 0 <= k < |chunk.data| ==> IntervalOf(isec, chunk.data[k]) == chunk.ei
  }

  /** A batch that spans no more than two intervals next to each other. */
  predicate Narrow(isec: Length, dat: seq<Datum>) {
    dat == [] || IntervalOf(isec, dat[0]) - IntervalOf(isec, dat[|dat| - 1]) <= 1
  }

  /** Every datum of a batch is meant for its own interval if and only if it is narrow. */
  lemma OwnIntervalsExactly(isec: Length, dat: seq<Datum>)
    requires NewestFirst(isec, dat)
    ensures (forall k :: 0 <= k < |ChunksOf(isec, dat)| ==> Own(isec, ChunksOf(isec, dat)[k])) <==> Narrow(isec, dat)
  {
    if dat != [] {
      var ei := IntervalOf(isec, dat[|dat| - 1]);
      var fi := Cut(isec, dat, ei);
      forall k | 0 <= k < |dat|
        ensures ei <= IntervalOf(isec, dat[k]) <= IntervalOf(isec, dat[0])
        ensures k >= fi <==> IntervalOf(isec, dat[k]) == ei
      {
        if IntervalOf(isec, dat[k]) == ei {
          CutIsFirst(isec, dat, k);
        }
        NewestIsFirst(isec, dat, 0, k);
        NewestIsFirst(isec, dat, k, |dat| - 1);
        if k >= fi {
          NewestIsFirst(isec, dat, fi, k);
        }
      }
      assert Own(isec, Chunk(ei, dat[fi..]));
      if fi > 0 {
        var newer := Chunk(ei + 1, dat[..fi]);
        assert newer.data[0] == dat[0];
        assert Own(isec, newer) <==> Narrow(isec, dat);
        assert ChunksOf(isec, dat)[1] == newer;
      }
    }
  }

  function Flat(chunks: seq<Chunk>): seq<Datum> {
    if chunks == [] then [] else Flat(chunks[..|chunks| - 1]) + chunks[|chunks| - 1].data
  }

  /** Nothing of a batch is left out or doubled. */
  lemma ChunksConserve(isec: Length, dat: seq<Datum>)
    ensures multiset(Flat(ChunksOf(isec, dat))) == multiset(dat)
  {
    if dat != [] {
      var ei := IntervalOf(isec, dat[|dat| - 1]);
      var fi := Cut(isec, dat, ei);
      assert dat == dat[..fi] + dat[fi..];
      FlatPair(Chunk(ei, dat[fi..]), Chunk(ei + 1, dat[..fi]));
      assert fi == 0 ==> dat[fi..] == dat;
    }
  }

  lemma FlatPair(a: Chunk, b: Chunk)
    ensures Flat([a]) == a.data && Flat([a, b]) == a.data + b.data
  {
  }

  lemma FlatMore(chunks: seq<Chunk>, chunk: Chunk)
    ensures Flat(chunks + [chunk]) == Flat(chunks) + chunk.data
  {
  }

  // ---------------------------------------------------------------------------
  // Whole runs
  // ---------------------------------------------------------------------------

  /** The deque with everything that was put in it, in order, and what found no place. */
  datatype Log = Log(deque: seq<Slot>, placed: seq<Chunk>, stranded: seq<Chunk>)

  datatype Event = Batch(dat: seq<Datum>) | NoneForAnInterval

  function Put(g: Log, chunk: Chunk): Log
    requires g.deque != [] && chunk.data != []
  {
    if IsStranded(g.deque, chunk.ei) then g.(stranded := g.stranded + [chunk])
    else g.(deque := Inserted(g.deque, chunk.ei, Prices(chunk.data)), placed := g.placed + [chunk])
  }

  /** Only in a deque that has begun, and only chunks that hold something. */
  function PutAll(g: Log, chunks: seq<Chunk>): (r: Log)
    requires g.deque != [] && forall k :: 0 <= k < |chunks| ==> chunks[k].data != []
    ensures r.deque != []
  {
    if chunks == [] then g else Put(PutAll(g, chunks[..|chunks| - 1]), chunks[|chunks| - 1])
  }

  function Step(isec: Length, g: Log, e: Event): (r: Log)
    requires g.deque != []
    ensures r.deque != []
  {
    match e
    case Batch(dat) => PutAll(g, ChunksOf(isec, dat))
    case NoneForAnInterval => g.(deque := WithNull(g.deque))
  }

  function Replay(isec: Length, g: Log, events: seq<Event>): (r: Log)
    requires g.deque != []
    ensures r.deque != []
  {
    if events == [] then g else Step(isec, Replay(isec, g, events[..|events| - 1]), events[|events| - 1])
  }

  function FirstChunks(isec: Length, dat: seq<Datum>): seq<Chunk>
    decreases |dat|
  {
    if dat == [] then []
    else
      var n := RunLength(isec, dat);
      [Chunk(IntervalOf(isec, dat[0]), dat[..n])] + FirstChunks(isec, dat[n..])
  }

  function Begin(isec: Length, dat: seq<Datum>): Log {
    Log(Grouped(isec, dat, 0), FirstChunks(isec, dat), [])
  }

  /** All data put in an interval, in the order they came. */
  function DataOf(chunks: seq<Chunk>, ei: int): seq<Datum> {
    if chunks == [] then []
    else
      var last := chunks[|chunks| - 1];
      DataOf(chunks[..|chunks| - 1], ei) + if last.ei == ei then last.data else []
  }

  ghost predicate SlotRight(g: Log, i: int) {
    0 <= i < |g.deque| ==> g.deque[i].bar == Summary(DataOf(g.placed, g.deque[i].ei))
  }

  /** Nothing is recorded for an interval that is not there. */
  ghost predicate NothingElse(g: Log, ei: int) {
    Find(g.deque, ei) == |g.deque| ==> DataOf(g.placed, ei) == []
  }

  /** Every interval is the summary of all that was put in it, and its ticks count that. */
  ghost predicate Sound(g: Log) {
    && g.deque != [] && Decreasing(g.deque)
    && (forall i :: SlotRight(g, i))
    && (forall ei :: NothingElse(g, ei))
    && Ticks(g.deque) == |Flat(g.placed)|
  }

  lemma DataMore(chunks: seq<Chunk>, chunk: Chunk, ei: int)
    ensures DataOf(chunks + [chunk], ei) == if chunk.ei == ei then DataOf(chunks, ei) + chunk.data else DataOf(chunks, ei)
  {
  }

  lemma FindIs(dq: seq<Slot>, i: nat)
    requires Decreasing(dq) && i < |dq|
    ensures Find(dq, dq[i].ei) == i
  {
    var j := Find(dq, dq[i].ei);
    FindIsFirst(dq, dq[i].ei, i);
    assert Later(dq, j, i);
  }

  lemma FedIsSummary(slot: Slot, before: seq<Datum>, more: seq<Datum>)
    requires slot.bar == Summary(before) && more != []
    ensures Fed(slot, Prices(more)) == Slot(slot.ei, Summary(before + more))
  {
    PricesOfSum(before, more);
    if before == [] {
      assert [] + more == more;
    } else {
      UpdateContinues(Prices(before), Prices(more));
    }
  }

  lemma {:induction false} FindInFront(slot: Slot, dq: seq<Slot>, ei: int)
    ensures Find([slot] + dq, ei) == if slot.ei == ei then 0 else Find(dq, ei) + 1
  {
  }

  lemma {:induction false} FindSameNumbers(a: seq<Slot>, b: seq<Slot>, ei: int)
    requires |a| == |b| && forall k :: 0 <= k < |a| ==> a[k].ei == b[k].ei
    ensures Find(a, ei) == Find(b, ei)
  {
    if a != [] {
      FindSameNumbers(a[1..], b[1..], ei);
    }
  }

  lemma PutInFront(g: Log, chunk: Chunk)
    requires Sound(g) && chunk.data != [] && chunk.ei > g.deque[0].ei
    ensures forall i :: SlotRight(Put(g, chunk), i)
    ensures forall ei :: NothingElse(Put(g, chunk), ei)
  {
    var n := Put(g, chunk);
    var slot := Slot(chunk.ei, Some(OfData(Prices(chunk.data))));
    assert n.deque == [slot] + g.deque;
    NotThereYet(g, chunk.ei);
    forall i
      ensures SlotRight(n, i)
    {
      if 0 <= i < |n.deque| {
        DataMore(g.placed, chunk, n.deque[i].ei);
        if i > 0 {
          assert SlotRight(g, i - 1) && Later(g.deque, 0, i - 1);
        } else {
          assert [] + chunk.data == chunk.data;
        }
      }
    }
    forall ei
      ensures NothingElse(n, ei)
    {
      FindInFront(slot, g.deque, ei);
      DataMore(g.placed, chunk, ei);
      assert NothingElse(g, ei);
    }
  }

  lemma NotThereYet(g: Log, ei: int)
    requires Sound(g) && ei > g.deque[0].ei
    ensures DataOf(g.placed, ei) == []
  {
    var i := Find(g.deque, ei);
    assert NothingElse(g, ei) && Later(g.deque, 0, i);
  }

  lemma PutInPlace(g: Log, chunk: Chunk)
    requires Sound(g) && chunk.data != [] && chunk.ei <= g.deque[0].ei && Find(g.deque, chunk.ei) < |g.deque|
    ensures forall i :: SlotRight(Put(g, chunk), i)
    ensures forall ei :: NothingElse(Put(g, chunk), ei)
  {
    var n := Put(g, chunk);
    var at := Find(g.deque, chunk.ei);
    forall i
      ensures SlotRight(n, i)
    {
      if 0 <= i < |n.deque| {
        DataMore(g.placed, chunk, g.deque[i].ei);
        assert SlotRight(g, i);
        FindIs(g.deque, i);
        if i == at {
          FedIsSummary(g.deque[i], DataOf(g.placed, chunk.ei), chunk.data);
        }
      }
    }
    forall ei
      ensures NothingElse(n, ei)
    {
      FindSameNumbers(n.deque, g.deque, ei);
      DataMore(g.placed, chunk, ei);
      assert NothingElse(g, ei);
    }
  }

  lemma PutIsSound(g: Log, chunk: Chunk)
    requires Sound(g) && chunk.data != []
    ensures Sound(Put(g, chunk))
  {
    var n := Put(g, chunk);
    if IsStranded(g.deque, chunk.ei) {
      forall i
        ensures SlotRight(n, i)
      {
        assert SlotRight(g, i);
      }
      forall ei
        ensures NothingElse(n, ei)
      {
        assert NothingElse(g, ei);
      }
    } else {
      InsertedDecreases(g.deque, chunk.ei, Prices(chunk.data));
      InsertedTicks(g.deque, chunk.ei, Prices(chunk.data));
      FlatMore(g.placed, chunk);
      if chunk.ei > g.deque[0].ei {
        PutInFront(g, chunk);
      } else {
        PutInPlace(g, chunk);
      }
    }
  }

  lemma {:induction false} PutAllIsSound(g: Log, chunks: seq<Chunk>)
    requires Sound(g) && forall k :: 0 <= k < |chunks| ==> chunks[k].data != []
    ensures Sound(PutAll(g, chunks))
  {
    if chunks != [] {
      PutAllIsSound(g, chunks[..|chunks| - 1]);
      PutIsSound(PutAll(g, chunks[..|chunks| - 1]), chunks[|chunks| - 1]);
    }
  }

  lemma NullIsSound(g: Log)
    requires Sound(g)
    ensures Sound(g.(deque := WithNull(g.deque)))
  {
    var slot := Slot(g.deque[0].ei + 1, None);
    var n := g.(deque := WithNull(g.deque));
    assert n.deque == [slot] + g.deque;
    NotThereYet(g, slot.ei);
    FrontGrows(g.deque, slot);
    assert n.deque[1..] == g.deque;
    forall i
      ensures SlotRight(n, i)
    {
      assert SlotRight(g, i - 1);
    }
    forall ei
      ensures NothingElse(n, ei)
    {
      FindInFront(slot, g.deque, ei);
      assert NothingElse(g, ei);
    }
  }

  /** Data of the first batch are in their own runs, in one chunk for each interval. */
  lemma {:induction false} FirstDataOf(isec: Length, dat: seq<Datum>, last: int, ei: int)
    requires NewestFirst(isec, dat)
    requires dat != [] ==> last == 0 || IntervalOf(isec, dat[0]) < last
    ensures BarAt(Grouped(isec, dat, last), ei) == Summary(DataOf(FirstChunks(isec, dat), ei))
    decreases |dat|
  {
    if dat != [] {
      var n, e := RunLength(isec, dat), IntervalOf(isec, dat[0]);
      RestIsOlder(isec, dat);
      FirstDataOf(isec, dat[n..], e, ei);
      GroupedDecreases(isec, dat[n..], e);
      NotInRest(Grouped(isec, dat[n..], e), e);
      BarInFront(RunSlot(isec, dat), Grouped(isec, dat[n..], e), Chunk(e, dat[..n]), FirstChunks(isec, dat[n..]), ei);
      GroupedFront(isec, dat, last);
    }
  }

  lemma RestIsOlder(isec: Length, dat: seq<Datum>)
    requires NewestFirst(isec, dat) && dat != []
    ensures var rest := dat[RunLength(isec, dat)..];
            NewestFirst(isec, rest) && (rest != [] ==> IntervalOf(isec, rest[0]) < IntervalOf(isec, dat[0]))
  {
    var n := RunLength(isec, dat);
    RestNewestFirst(isec, dat, n);
    if n < |dat| {
      NewestIsFirst(isec, dat, 0, n);
    }
  }

  lemma GroupedFront(isec: Length, dat: seq<Datum>, last: int)
    requires dat != [] && (last == 0 || IntervalOf(isec, dat[0]) < last)
    ensures Grouped(isec, dat, last) ==
            [RunSlot(isec, dat)] + Grouped(isec, dat[RunLength(isec, dat)..], IntervalOf(isec, dat[0]))
  {
    assert Gap(last, IntervalOf(isec, dat[0])) == [];
  }

  lemma BarInFront(slot: Slot, rest: seq<Slot>, chunk: Chunk, chunks: seq<Chunk>, ei: int)
    requires slot.ei == chunk.ei && slot.bar == Summary(chunk.data)
    requires BarAt(rest, ei) == Summary(DataOf(chunks, ei)) && Find(rest, slot.ei) == |rest|
    ensures BarAt([slot] + rest, ei) == Summary(DataOf([chunk] + chunks, ei))
  {
    FindInFront(slot, rest, ei);
    DataOfFront(chunk, chunks, ei);
    if ei == slot.ei {
      OnlyInFront(chunk.data, DataOf(chunks, ei));
    }
  }

  lemma OnlyInFront(data: seq<Datum>, more: seq<Datum>)
    requires Summary(more) == None
    ensures data + more == data
  {
    SummaryOfNone(more);
  }

  /** What is in the interval with this number, if it is there. */
  function BarAt(dq: seq<Slot>, ei: int): Option<Ohlc> {
    if Find(dq, ei) < |dq| then dq[Find(dq, ei)].bar else None
  }

  lemma SummaryOfNone(data: seq<Datum>)
    requires Summary(data) == None
    ensures data == []
  {
  }

  lemma NotInRest(rest: seq<Slot>, e: int)
    requires Decreasing(rest) && (rest != [] ==> rest[0].ei < e)
    ensures Find(rest, e) == |rest|
  {
    assert Later(rest, 0, Find(rest, e));
  }

  lemma {:induction false} DataOfFront(chunk: Chunk, chunks: seq<Chunk>, ei: int)
    ensures DataOf([chunk] + chunks, ei) == if chunk.ei == ei then chunk.data + DataOf(chunks, ei) else DataOf(chunks, ei)
  {
    if chunks == [] {
      assert [chunk] + chunks == [] + [chunk];
      DataMore([], chunk, ei);
    } else {
      var before, last := chunks[..|chunks| - 1], chunks[|chunks| - 1];
      DataOfFront(chunk, before, ei);
      assert [chunk] + chunks == ([chunk] + before) + [last];
      DataMore([chunk] + before, last, ei);
    }
  }

  lemma {:induction false} FlatFront(chunk: Chunk, chunks: seq<Chunk>)
    ensures Flat([chunk] + chunks) == chunk.data + Flat(chunks)
  {
    if chunks == [] {
      assert [chunk] + chunks == [] + [chunk];
      FlatMore([], chunk);
    } else {
      var before, last := chunks[..|chunks| - 1], chunks[|chunks| - 1];
      FlatFront(chunk, before);
      assert [chunk] + chunks == ([chunk] + before) + [last];
      FlatMore([chunk] + before, last);
    }
  }

  lemma {:induction false} FirstFlat(isec: Length, dat: seq<Datum>)
    ensures Flat(FirstChunks(isec, dat)) == dat
    decreases |dat|
  {
    if dat != [] {
      var n, e := RunLength(isec, dat), IntervalOf(isec, dat[0]);
      FirstFlat(isec, dat[n..]);
      FlatFront(Chunk(e, dat[..n]), FirstChunks(isec, dat[n..]));
    }
  }

  lemma {:induction false} TicksOfSum(a: seq<Slot>, b: seq<Slot>)
    ensures Ticks(a + b) == Ticks(a) + Ticks(b)
  {
    if a == [] {
      assert a + b == b;
    } else {
      TicksOfSum(a[1..], b);
      assert (a + b)[1..] == a[1..] + b;
    }
  }

  lemma {:induction false} GapTicks(last: int, e: int)
    ensures Ticks(Gap(last, e)) == 0
    decreases e - last
  {
    if last != 0 && e - last > 1 {
      GapTicks(last + 1, e);
      assert Gap(last, e)[1..] == Gap(last + 1, e);
    }
  }

  lemma {:induction false} FirstTicks(isec: Length, dat: seq<Datum>, last: int)
    ensures Ticks(Grouped(isec, dat, last)) == |dat|
    decreases |dat|
  {
    if dat != [] {
      var n, e := RunLength(isec, dat), IntervalOf(isec, dat[0]);
      FirstTicks(isec, dat[n..], e);
      GapTicks(last, e);
      TicksOfSum(Gap(last, e), [RunSlot(isec, dat)]);
      TicksOfSum(Gap(last, e) + [RunSlot(isec, dat)], Grouped(isec, dat[n..], e));
      assert [RunSlot(isec, dat)][1..] == [];
    }
  }

  lemma BeginIsSound(isec: Length, dat: seq<Datum>)
    requires dat != [] && NewestFirst(isec, dat)
    ensures Sound(Begin(isec, dat))
  {
    var g := Begin(isec, dat);
    GroupedDecreases(isec, dat, 0);
    FirstFlat(isec, dat);
    FirstTicks(isec, dat, 0);
    forall i
      ensures SlotRight(g, i)
    {
      if 0 <= i < |g.deque| {
        FindIs(g.deque, i);
        FirstDataOf(isec, dat, 0, g.deque[i].ei);
      }
    }
    forall ei
      ensures NothingElse(g, ei)
    {
      FirstDataOf(isec, dat, 0, ei);
    }
  }

  function FedBy(events: seq<Event>): seq<Datum> {
    if events == [] then []
    else
      FedBy(events[..|events| - 1]) +
      match events[|events| - 1]
      case Batch(dat) => dat
      case NoneForAnInterval => []
  }

  lemma {:induction false} PutAllConserves(g: Log, chunks: seq<Chunk>)
    requires g.deque != [] && forall k :: 0 <= k < |chunks| ==> chunks[k].data != []
    ensures var r := PutAll(g, chunks);
            multiset(Flat(r.placed)) + multiset(Flat(r.stranded)) ==
            multiset(Flat(g.placed)) + multiset(Flat(g.stranded)) + multiset(Flat(chunks))
  {
    if chunks != [] {
      var before, last := chunks[..|chunks| - 1], chunks[|chunks| - 1];
      PutAllConserves(g, before);
      var r := PutAll(g, before);
      FlatMore(r.placed, last);
      FlatMore(r.stranded, last);
      assert multiset(Flat(chunks)) == multiset(Flat(before)) + multiset(last.data);
    }
  }

  /** Over any run from any first data that are newest first: the deque is in order, every
      interval is the open, high, low and close of all that was put in it, and what was put
      in and what was stranded is all that came. */
  lemma {:induction false} AnyRun(isec: Length, first: seq<Datum>, events: seq<Event>)
    requires first != [] && NewestFirst(isec, first)
    ensures Begin(isec, first).deque != []
    ensures var g := Replay(isec, Begin(isec, first), events);
            && Sound(g)
            && multiset(Flat(g.placed)) + multiset(Flat(g.stranded)) == multiset(first) + multiset(FedBy(events))
  {
    BeginIsSound(isec, first);
    if events == [] {
      FirstFlat(isec, first);
    } else {
      var before, e := events[..|events| - 1], events[|events| - 1];
      AnyRun(isec, first, before);
      var g := Replay(isec, Begin(isec, first), before);
      match e
      case NoneForAnInterval =>
        NullIsSound(g);
      case Batch(dat) =>
        PutAllIsSound(g, ChunksOf(isec, dat));
        PutAllConserves(g, ChunksOf(isec, dat));
        ChunksConserve(isec, dat);
    }
  }

  /** So in any run the bar of an interval is there exactly if something was put in it; then
      its open and close are the first and the last price that was put in, all prices lie
      between its low and its high, both are among them, and its ticks count them. */
  lemma BarMeans(g: Log, i: nat)
    requires Sound(g) && i < |g.deque|
    ensures var v := Prices(DataOf(g.placed, g.deque[i].ei));
            match g.deque[i].bar
            case None => v == []
            case Some(bar) =>
              && v != [] && bar.o == v[0] && bar.c == v[|v| - 1] && bar.ticks == |v|
              && bar.h in v && bar.l in v && forall x :: x in v ==> bar.l <= x <= bar.h
  {
    var data := DataOf(g.placed, g.deque[i].ei);
    assert SlotRight(g, i);
    if data != [] {
      SummaryMeans(Prices(data));
    }
  }

  /** Counted, as the original could. */
  lemma TicksConserved(isec: Length, first: seq<Datum>, events: seq<Event>)
    requires first != [] && NewestFirst(isec, first)
    ensures Begin(isec, first).deque != []
    ensures var g := Replay(isec, Begin(isec, first), events);
            Ticks(g.deque) + |Flat(g.stranded)| == |first| + |FedBy(events)|
  {
    AnyRun(isec, first, events);
    var g := Replay(isec, Begin(isec, first), events);
    assert |multiset(Flat(g.placed)) + multiset(Flat(g.stranded))| == |Flat(g.placed)| + |Flat(g.stranded)|;
    assert |multiset(first) + multiset(FedBy(events))| == |first| + |FedBy(events)|;
  }

  ghost predicate OwnAt(isec: Length, chunks: seq<Chunk>, k: int) {
    0 <= k < |chunks| ==> Own(isec, chunks[k])
  }

  ghost predicate AllOwn(isec: Length, chunks: seq<Chunk>) {
    forall k :: OwnAt(isec, chunks, k)
  }

  lemma OwnMore(isec: Length, chunks: seq<Chunk>, chunk: Chunk)
    requires AllOwn(isec, chunks) && Own(isec, chunk)
    ensures AllOwn(isec, chunks + [chunk])
  {
    forall k
      ensures OwnAt(isec, chunks + [chunk], k)
    {
      assert OwnAt(isec, chunks, k);
    }
  }

  lemma {:induction false} PutAllOwn(isec: Length, g: Log, chunks: seq<Chunk>)
    requires g.deque != [] && forall k :: 0 <= k < |chunks| ==> chunks[k].data != []
    requires AllOwn(isec, g.placed) && forall k :: 0 <= k < |chunks| ==> Own(isec, chunks[k])
    ensures AllOwn(isec, PutAll(g, chunks).placed)
  {
    if chunks != [] {
      PutAllOwn(isec, g, chunks[..|chunks| - 1]);
      OwnMore(isec, PutAll(g, chunks[..|chunks| - 1]).placed, chunks[|chunks| - 1]);
    }
  }

  lemma {:induction false} FirstOwn(isec: Length, dat: seq<Datum>)
    ensures AllOwn(isec, FirstChunks(isec, dat))
    decreases |dat|
  {
    if dat != [] {
      var n := RunLength(isec, dat);
      FirstOwn(isec, dat[n..]);
      forall k
        ensures OwnAt(isec, FirstChunks(isec, dat), k)
      {
        assert OwnAt(isec, FirstChunks(isec, dat[n..]), k - 1);
        if k == 0 {
          forall j | 0 <= j < n
            ensures IntervalOf(isec, dat[..n][j]) == IntervalOf(isec, dat[0])
          {
            RunIsOne(isec, dat, j);
          }
        }
      }
    }
  }

  ghost predicate NarrowEvent(isec: Length, e: Event) {
    e.Batch? ==> NewestFirst(isec, e.dat) && Narrow(isec, e.dat)
  }

  /** And if every batch is narrow, all that is in an interval is of that interval. */
  lemma {:induction false} NarrowRun(isec: Length, first: seq<Datum>, events: seq<Event>)
    requires first != [] && NewestFirst(isec, first)
    requires forall k :: 0 <= k < |events| ==> NarrowEvent(isec, events[k])
    ensures Begin(isec, first).deque != []
    ensures AllOwn(isec, Replay(isec, Begin(isec, first), events).placed)
  {
    BeginIsSound(isec, first);
    if events == [] {
      FirstOwn(isec, first);
    } else {
      var before, e := events[..|events| - 1], events[|events| - 1];
      NarrowRun(isec, first, before);
      if e.Batch? {
        OwnIntervalsExactly(isec, e.dat);
        PutAllOwn(isec, Replay(isec, Begin(isec, first), before), ChunksOf(isec, e.dat));
      }
    }
  }

  /** A batch over three intervals puts the newest data one interval too early. */
  lemma WideBatch()
    ensures ChunksOf(10, [Datum(2.0, 25), Datum(1.0, 5)]) == [Chunk(0, [Datum(1.0, 5)]), Chunk(1, [Datum(2.0, 25)])]
    ensures IntervalOf(10, Datum(2.0, 25)) == 2
  {
    var dat := [Datum(2.0, 25), Datum(1.0, 5)];
    var newer, older := Datum(2.0, 25), Datum(1.0, 5);
    assert IntervalOf(10, older) == 0 && IntervalOf(10, newer) == 2;
    assert dat[1..] == [older] && dat[..1] == [newer];
    assert Cut(10, dat[1..], 0) == 0;
    assert Cut(10, dat, 0) == 1;
  }

  // ---------------------------------------------------------------------------
  // The objects
  // ---------------------------------------------------------------------------

  class Interval {
    const ei: int
    const isNull: bool
    var o: real
    var h: real
    var l: real
    var c: real
    var ticks: nat

    function Value(): Slot
      reads this
    {
      Slot(ei, if isNull then None else Some(Ohlc(o, h, l, c, ticks)))
    }

    constructor Null(ei: int)
      ensures Value() == Slot(ei, None)
    {
      this.ei, isNull := ei, true;
      o, h, l, c, ticks := 0.0, 0.0, 0.0, 0.0, 0;
    }

    constructor (dat: seq<real>, ei: int)
      requires dat != []
      ensures Value() == Slot(ei, Some(OfData(dat)))
      ensures o == dat[0] && c == dat[|dat| - 1] && ticks == |dat| && h == MaxOf(dat) && l == MinOf(dat)
    {
      this.ei, isNull := ei, false;
      c, ticks := dat[|dat| - 1], |dat|;
      o, h, l := dat[0], MaxOf(dat), MinOf(dat);
    }

    method Update(dat: seq<real>)
      requires dat != [] && !isNull
      modifies this
      ensures Value() == Fed(old(Value()), dat)
      ensures o == old(o) && c == dat[|dat| - 1] && ticks == old(ticks) + |dat|
      ensures h == Max(old(h), MaxOf(dat)) && l == Min(old(l), MinOf(dat))
    {
      h := Max(h, MaxOf(dat));
      l := Min(l, MinOf(dat));
      c := dat[|dat| - 1];
      ticks := ticks + |dat|;
    }
  }

  /** A date-time tuple, as the interval objects have it. */
  datatype Calendar = Calendar(second: int, minute: int, hour: int, day: int, month: int, year: int)

  /** What a lookup finds, or which of its two errors it raises. */
  datatype Lookup = Found(interval: Interval) | InvalidInterval | DoesNotExist

  /** The intervals of one item and topic, newest first. */
  class Buffer {
    const isec: Length
    var deque: seq<Interval>
    ghost var log: Log

    ghost predicate Distinct()
      reads this
    {
      forall i, j :: 0 <= i < j < |deque| ==> deque[i] != deque[j]
    }

    function Values(): (r: seq<Slot>)
      reads this, deque
      ensures |r| == |deque|
    {
      seq(|deque|, k requires 0 <= k < |deque| reads this, deque => deque[k].Value())
    }

    ghost predicate Valid()
      reads this, deque
    {
      Distinct() && Values() == log.deque && Sound(log)
    }

    method FirstWith(ei: int) returns (i: nat)
      ensures i == Find(Values(), ei)
    {
      i := 0;
      while i < |deque| && deque[i].ei != ei
        invariant i <= |deque|
        invariant forall k :: 0 <= k < i ==> deque[k].ei != ei
      {
        i := i + 1;
      }
      assert forall k :: 0 <= k < |deque| ==> Values()[k].ei == deque[k].ei;
      FindWhere(Values(), ei, i);
    }

    method AppendLeft(interval: Interval)
      requires interval !in deque && Distinct()
      modifies this`deque
      ensures deque == [interval] + old(deque) && Distinct()
      ensures Values() == [interval.Value()] + old(Values())
    {
      deque := [interval] + deque;
    }

    /** In front, in its place, or nowhere. */
    method InsertData(ei: int, vdat: seq<real>) returns (stranded: bool)
      requires Distinct() && deque != [] && vdat != []
      modifies this`deque, deque
      ensures Distinct() && forall b :: b in deque ==> b in old(deque) || fresh(b)
      ensures stranded == IsStranded(old(Values()), ei)
      ensures Values() == Inserted(old(Values()), ei, vdat)
    {
      stranded := false;
      if ei > deque[0].ei {
        var interval := new Interval(vdat, ei);
        AppendLeft(interval);
      } else {
        var i := FirstWith(ei);
        if i == |deque| {
          stranded := true;
        } else if deque[i].isNull {
          var interval := new Interval(vdat, ei);
          deque := deque[i := interval];
        } else {
          deque[i].Update(vdat);
        }
      }
    }

    /** A chunk of a batch, with the record of it. */
    method InsertChunk(ei: int, data: seq<Datum>)
      requires Valid() && data != []
      modifies this`deque, this`log, deque
      ensures Valid() && forall b :: b in deque ==> b in old(deque) || fresh(b)
      ensures log == Put(old(log), Chunk(ei, data))
    {
      PutIsSound(log, Chunk(ei, data));
      var stranded := InsertData(ei, Prices(data));
      log := Put(log, Chunk(ei, data));
    }

    method SplitBatch(dat: seq<Datum>) returns (older: seq<Datum>, newer: seq<Datum>)
      requires dat != []
      ensures older == OlderPart(isec, dat) && older != [] && newer == NewerPart(isec, dat)
    {
      var ei := OldestOf(isec, dat);
      var fi := 0;
      while fi < |dat| && IntervalOf(isec, dat[fi]) != ei
        invariant fi <= |dat|
        invariant forall k :: 0 <= k < fi ==> IntervalOf(isec, dat[k]) != ei
      {
        fi := fi + 1;
      }
      CutWhere(isec, dat, ei, fi);
      CutFindsOld(isec, dat);
      older, newer := dat[fi..], dat[..fi];
    }

    /** The older chunk first, then the newer if there is any. */
    method InsertPair(ei: int, older: seq<Datum>, newer: seq<Datum>)
      requires Valid() && older != []
      modifies this`deque, this`log, deque
      ensures Valid() && forall b :: b in deque ==> b in old(deque) || fresh(b)
      ensures log == PutBoth(old(log), Chunk(ei, older), Chunk(ei + 1, newer))
    {
      InsertChunk(ei, older);
      if newer != [] {
        assert forall k :: 0 <= k < |deque| ==> deque[k] in old(deque) || fresh(deque[k]);
        InsertChunk(ei + 1, newer);
      }
    }

    /** A batch is taken to be of the oldest interval in it, and of the next. */
    method InsertBatch(dat: seq<Datum>)
      requires Valid() && dat != []
      modifies this`deque, this`log, deque
      ensures Valid() && forall b :: b in deque ==> b in old(deque) || fresh(b)
      ensures log == AfterBatch(isec, old(log), dat)
    {
      var older, newer := SplitBatch(dat);
      InsertPair(OldestOf(isec, dat), older, newer);
    }

    method ParseData(dat: seq<Datum>)
      requires Valid() && dat != []
      modifies this`deque, this`log, deque
      ensures Valid() && forall b :: b in deque ==> b in old(deque) || fresh(b)
      ensures log == Step(isec, old(log), Batch(dat))
    {
      BatchIsPair(isec, log, dat);
      InsertBatch(dat);
    }

    /** Called when no data came for as long as an interval. */
    method HandleNullInterval()
      requires Valid()
      modifies this`deque, this`log
      ensures Valid() && log == Step(isec, old(log), NoneForAnInterval)
    {
      NullIsSound(log);
      var interval := new Interval.Null(deque[0].ei + 1);
      AppendLeft(interval);
      log := log.(deque := WithNull(log.deque));
    }

    method Append(interval: Interval)
      requires interval !in deque && Distinct()
      modifies this`deque
      ensures deque == old(deque) + [interval] && Distinct()
      ensures Values() == old(Values()) + [interval.Value()]
    {
      deque := deque + [interval];
    }

    method FillGaps(from: int, e: int)
      requires Distinct()
      modifies this`deque
      ensures Distinct() && forall b :: b in deque ==> b in old(deque) || fresh(b)
      ensures Values() == old(Values()) + Gap(from, e)
    {
      var last := from;
      while last != 0 && e - last > 1
        invariant Distinct() && forall b :: b in deque ==> b in old(deque) || fresh(b)
        invariant Values() + Gap(last, e) == old(Values()) + Gap(from, e)
        decreases e - last
      {
        var interval := new Interval.Null(last + 1);
        Append(interval);
        last := last + 1;
      }
    }

    method CountRun(dat: seq<Datum>) returns (n: nat)
      requires dat != []
      ensures n == RunLength(isec, dat)
    {
      n := 1;
      while n < |dat| && IntervalOf(isec, dat[n]) == IntervalOf(isec, dat[0])
        invariant 1 <= n <= |dat|
        invariant forall k :: 0 <= k < n ==> IntervalOf(isec, dat[k]) == IntervalOf(isec, dat[0])
      {
        n := n + 1;
      }
      RunWhere(isec, dat, n);
    }

    /** One run of the first data, with the gap before it. */
    method AppendRun(dat: seq<Datum>, last: int) returns (n: nat)
      requires dat != [] && Distinct()
      modifies this`deque
      ensures Distinct() && forall b :: b in deque ==> b in old(deque) || fresh(b)
      ensures n == RunLength(isec, dat)
      ensures Values() == old(Values()) + Gap(last, IntervalOf(isec, dat[0])) + [RunSlot(isec, dat)]
    {
      n := CountRun(dat);
      FillGaps(last, IntervalOf(isec, dat[0]));
      var interval := new Interval(Prices(dat[..n]), IntervalOf(isec, dat[0]));
      Append(interval);
    }

    /** The first data, grouped by interval. */
    method Fill(dat: seq<Datum>)
      requires deque == []
      modifies this`deque
      ensures Distinct() && forall b :: b in deque ==> fresh(b)
      ensures Values() == Grouped(isec, dat, 0)
    {
      var rest, last := dat, 0;
      assert Values() == [];
      while rest != []
        invariant Distinct() && forall b :: b in deque ==> fresh(b)
        invariant Values() + Grouped(isec, rest, last) == Grouped(isec, dat, 0)
        decreases |rest|
      {
        GroupedOne(isec, rest, last, Values());
        var n := AppendRun(rest, last);
        rest, last := rest[n..], IntervalOf(isec, rest[0]);
      }
    }

    /** A new buffer is in order from the start if its first data are newest first. */
    constructor (isec: Length, dat: seq<Datum>)
      requires dat != []
      ensures this.isec == isec && log == Begin(isec, dat)
      ensures Values() == Grouped(isec, dat, 0)
      ensures forall b :: b in deque ==> fresh(b)
      ensures NewestFirst(isec, dat) ==> Valid()
    {
      this.isec := isec;
      deque := [];
      log := Begin(isec, dat);
      new;
      Fill(dat);
      if NewestFirst(isec, dat) {
        BeginIsSound(isec, dat);
      }
    }

    /** By the local time where an interval begins; `mktime` gives its seconds since the epoch. */
    method GetByDatetime(datetime: Calendar, mktime: Calendar -> int) returns (r: Lookup)
      requires deque != []
      ensures r.InvalidInterval? <==> mktime(datetime) % isec != 0
      ensures r.DoesNotExist? <==> mktime(datetime) % isec == 0 && GetByNumber(Values(), mktime(datetime) / isec) == None
      ensures r.Found? ==> r.interval in deque && GetByNumber(Values(), mktime(datetime) / isec) == Some(r.interval.Value())
    {
      var seconds := mktime(datetime);
      if seconds % isec != 0 {
        return InvalidInterval;
      }
      var off := deque[0].ei - seconds / isec;
      if off < 0 || off >= |deque| {
        return DoesNotExist;
      }
      r := Found(deque[off]);
    }
  }

  function RunSlot(isec: Length, dat: seq<Datum>): Slot
    requires dat != []
  {
    Slot(IntervalOf(isec, dat[0]), Some(OfData(Prices(dat[..RunLength(isec, dat)]))))
  }

  lemma GroupedOne(isec: Length, dat: seq<Datum>, last: int, before: seq<Slot>)
    requires dat != []
    ensures var n, e := RunLength(isec, dat), IntervalOf(isec, dat[0]);
            before + Grouped(isec, dat, last) == before + Gap(last, e) + [RunSlot(isec, dat)] + Grouped(isec, dat[n..], e)
  {
  }

  function PutBoth(g: Log, a: Chunk, b: Chunk): Log
    requires g.deque != [] && a.data != []
  {
    if b.data == [] then Put(g, a) else Put(Put(g, a), b)
  }

  function AfterBatch(isec: Length, g: Log, dat: seq<Datum>): Log
    requires g.deque != [] && dat != []
  {
    PutBoth(g, Chunk(OldestOf(isec, dat), OlderPart(isec, dat)), Chunk(OldestOf(isec, dat) + 1, NewerPart(isec, dat)))
  }

  lemma BatchIsPair(isec: Length, g: Log, dat: seq<Datum>)
    requires g.deque != [] && dat != []
    ensures Step(isec, g, Batch(dat)) == AfterBatch(isec, g, dat)
  {
    PutPair(g, Chunk(OldestOf(isec, dat), OlderPart(isec, dat)), Chunk(OldestOf(isec, dat) + 1, NewerPart(isec, dat)));
  }

  lemma PutPair(g: Log, a: Chunk, b: Chunk)
    requires g.deque != [] && a.data != []
    ensures PutAll(g, [a]) == Put(g, a)
    ensures b.data != [] ==> PutAll(g, [a, b]) == Put(Put(g, a), b)
  {
  }
}
