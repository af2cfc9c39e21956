/**
  The bounded stream that a data block keeps for each item and topic, with a marker between
  what a client has read and what it has not (src/data_stream.tpp).
*/
module MarkedStream {
  import opened Basics
  import opened Arithmetic

  const MAX_BOUND: nat := 0x7FFF_FFFF

  // ---------------------------------------------------------------------------
  // What a stream means
  // ---------------------------------------------------------------------------

  /** Everything ever pushed; how much of that is unread, how much of the unread is still
      there, how many elements there are in all, and how many there may be. */
  datatype View<T> = View(history: seq<T>, unread: nat, kept: nat, count: nat, bound: nat)

  ghost predicate Proper<T>(v: View<T>) {
    && v.kept <= v.unread <= |v.history|
    && v.kept <= v.count <= |v.history|
    && v.count <= v.bound && 1 <= v.bound <= MAX_BOUND
    && (v.kept < v.unread ==> v.kept > 0)
  }

  /** n elements, newest first, after leaving out the newest few. */
  function Window<T>(history: seq<T>, skip: nat, n: nat): (r: seq<T>)
    requires skip + n <= |history|
    ensures |r| == n
  {
    seq(n, k requires 0 <= k < n => history[|history| - 1 - skip - k])
  }

  function Pushed<T>(v: View<T>, x: T): View<T> {
    View(v.history + [x], v.unread + 1, Min(v.kept + 1, v.bound), Min(v.count + 1, v.bound), v.bound)
  }

  function Bounded(size: nat): nat {
    if size < 1 then 1 else Min(size, MAX_BOUND)
  }

  function Resized<T>(v: View<T>, size: nat): View<T> {
    View(v.history, v.unread, Min(v.kept, Bounded(size)), Min(v.count, Bounded(size)), Bounded(size))
  }

  /** How many unread elements a read takes: a single one even if there is no room. */
  function Taken(unread: nat, room: nat): nat {
    if unread == 1 then 1 else Min(unread, room)
  }

  /** A read from the marker: what it gets, newest first, and the number it answers, which
      is negative if something unread was not got. */
  datatype Read<T> = Read(data: seq<T>, answer: int)

  function ReadFrom<T>(v: View<T>, room: nat, beg: nat): Read<T>
    requires Proper(v)
  {
    if beg >= v.kept then Read([], 0)
    else
      var n: int := Taken(v.kept - beg, room);
      Read(Window(v.history, beg, n), if v.kept < v.unread || n < v.kept - beg then -n else n)
  }

  function AfterRead<T>(v: View<T>, beg: nat): View<T> {
    if beg >= v.kept then v else v.(unread := beg, kept := beg)
  }

  /** What pushing and resizing leave of a stream, in so many words: never more than fits, and
      no less than that of what was there. */
  lemma SizesAfter<T>(v: View<T>, x: T, size: nat)
    requires Proper(v)
    ensures var n := Pushed(v, x);
            && n.history == v.history + [x] && n.bound == v.bound && n.unread == v.unread + 1
            && n.count == (if v.count == v.bound then v.count else v.count + 1)
            && n.kept == (if v.kept == v.bound then v.kept else v.kept + 1)
    ensures var n := Resized(v, size);
            && n.history == v.history && n.unread == v.unread
            && (1 <= size <= 0x7FFF_FFFF ==> n.bound == size) && (size == 0 ==> n.bound == 1) && (size > 0x7FFF_FFFF ==> n.bound == 0x7FFF_FFFF)
            && n.count == (if v.count <= n.bound then v.count else n.bound)
            && n.kept == (if v.kept <= n.bound then v.kept else n.bound)
  {
  }

  /** Where the oldest unread elements begin that there is room for; in 32 bits, as computed. */
  function NextBeg(kept: nat, room: nat): nat {
    var beg := AsLong(Wrap(kept - room));
    if beg < 0 then 0 else beg
  }

  /** For all rooms that a stream could fill it is just that. */
  lemma NextBegIsRight(kept: nat, room: nat)
    requires kept <= MAX_BOUND
    ensures room <= MAX_BOUND ==> NextBeg(kept, room) == if kept > room then kept - room else 0
  {
  }

  /** The number a read answers is how many elements it got, below zero if something unread was
      not got; it gets as many as there are to read and there is room for, or the one there is. */
  lemma AnswerCounts<T>(v: View<T>, room: nat, beg: nat)
    requires Proper(v)
    ensures var r := ReadFrom(v, room, beg);
            && (r.answer == |r.data| || r.answer + |r.data| == 0)
            && |r.data| == (if beg >= v.kept then 0 else if v.kept - beg == 1 then 1 else if room < v.kept - beg then room else v.kept - beg)
            && (r.answer < 0 <==> beg < v.kept && |r.data| > 0 && (v.kept < v.unread || |r.data| < v.kept - beg))
  {
  }

  /** A loss is not told only when there is no room at all for two or more elements. */
  lemma SilentLossExactly<T>(v: View<T>, room: nat, beg: nat)
    requires Proper(v) && beg <= v.kept
    ensures ReadFrom(v, room, beg).answer >= 0 && |ReadFrom(v, room, beg).data| < v.unread - beg && beg < v.kept
            <==> room == 0 && v.kept - beg >= 2
  {
  }

  // ---------------------------------------------------------------------------
  // Whole runs
  // ---------------------------------------------------------------------------

  /** A copy of any part puts the marker at its newest element. */
  function AfterCopy<T>(v: View<T>, beg: nat): View<T> {
    v.(unread := beg, kept := beg)
  }

  datatype Event<T> = Push(x: T) | Resize(size: nat) | Copy(beg: nat) | ReadAt(room: nat, beg: nat) | ReadNext(room: nat)

  /** Where the last copy left the marker; what a client has been given since, in order of
      time; whether it was told of a loss; and whether it read without any room what needed
      some. */
  datatype Log<T> = Log(view: View<T>, start: nat, delivered: seq<T>, warned: bool, roomless: bool)

  function Delivered<T>(g: Log<T>, room: nat, beg: nat): Log<T>
    requires Proper(g.view)
  {
    var r := ReadFrom(g.view, room, beg);
    Log(AfterRead(g.view, beg), g.start, g.delivered + Reverse(r.data), g.warned || r.answer < 0,
        g.roomless || (room == 0 && g.view.kept - beg >= 2))
  }

  function Step<T>(g: Log<T>, e: Event<T>): Log<T>
    requires Proper(g.view)
  {
    match e
    case Push(x) => g.(view := Pushed(g.view, x))
    case Resize(size) => g.(view := Resized(g.view, size))
    case Copy(beg) => if beg <= g.view.count && beg < g.view.bound then Log(AfterCopy(g.view, beg), |g.view.history| - beg, [], false, false) else g
    case ReadAt(room, beg) => Delivered(g, room, beg)
    case ReadNext(room) => Delivered(g, room, NextBeg(g.view.kept, room))
  }

  function New<T>(size: nat): Log<T> {
    Log(View([], 0, 0, 0, Bounded(size)), 0, [], false, false)
  }

  lemma StepStaysProper<T>(g: Log<T>, e: Event<T>)
    requires Proper(g.view)
    ensures Proper(Step(g, e).view)
  {
  }

  function Replay<T>(size: nat, events: seq<Event<T>>): (g: Log<T>)
    ensures Proper(g.view)
  {
    if events == [] then New(size)
    else
      var before := Replay(size, events[..|events| - 1]);
      StepStaysProper(before, events[|events| - 1]);
      Step(before, events[|events| - 1])
  }

  /** No copy begins past what there is. */
  ghost predicate CopiesInside<T>(size: nat, events: seq<Event<T>>) {
    forall k :: 0 <= k < |events| && events[k].Copy? ==> events[k].beg <= Replay(size, events[..k]).view.count
  }

  /** Where the marker is in the history. */
  function Position<T>(v: View<T>): nat
    requires Proper(v)
  {
    |v.history| - v.unread
  }

  ghost predicate Honest<T>(g: Log<T>) {
    && Proper(g.view)
    && g.start + |g.delivered| <= Position(g.view)
    && (g.warned || g.roomless <==> g.start + |g.delivered| < Position(g.view))
    && (!g.warned && !g.roomless ==> g.delivered == g.view.history[g.start..Position(g.view)])
  }

  lemma WindowInTime<T>(history: seq<T>, skip: nat, n: nat)
    requires skip + n <= |history|
    ensures Reverse(Window(history, skip, n)) == history[|history| - skip - n..|history| - skip]
  {
  }

  /** A read gets what lies just before the new marker. It leaves a gap after the old one if
      it says so, or if it had no room. */
  lemma ReadIsWindow<T>(v: View<T>, room: nat, beg: nat) returns (from: nat)
    requires Proper(v) && beg < v.kept
    ensures Position(v) <= from <= Position(AfterRead(v, beg)) == |v.history| - beg
    ensures Reverse(ReadFrom(v, room, beg).data) == v.history[from..|v.history| - beg]
    ensures ReadFrom(v, room, beg).answer < 0 || (room == 0 && v.kept - beg >= 2) <==> Position(v) < from
  {
    var n := Taken(v.kept - beg, room);
    TakenExactly(v.kept, v.unread, room, beg);
    from := |v.history| - beg - n;
    WindowInTime(v.history, beg, n);
    assert ReadFrom(v, room, beg).data == Window(v.history, beg, n);
  }

  /** In numbers: how much of the unread is taken, and when that leaves some behind. */
  lemma TakenExactly(kept: nat, unread: nat, room: nat, beg: nat)
    requires beg < kept <= unread
    ensures var n := Taken(kept - beg, room);
            && n <= kept - beg
            && (n == 0 <==> room == 0 && kept - beg >= 2)
            && (n < unread - beg <==> (n > 0 && (kept < unread || n < kept - beg)) || (room == 0 && kept - beg >= 2))
  {
  }

  lemma SliceGrows<T>(history: seq<T>, start: nat, from: nat, to: nat)
    requires start <= from <= to <= |history|
    ensures history[start..from] + history[from..to] == history[start..to]
  {
  }

  lemma HonestMore<T>(g: Log<T>, n: Log<T>, from: nat, data: seq<T>)
    requires Honest(g) && Proper(n.view) && n.view.history == g.view.history && n.start == g.start
    requires Position(g.view) <= from <= Position(n.view)
    requires data == g.view.history[from..Position(n.view)] && n.delivered == g.delivered + data
    requires n.warned || n.roomless <==> g.warned || g.roomless || Position(g.view) < from
    ensures Honest(n)
  {
    if !n.warned && !n.roomless {
      SliceGrows(g.view.history, g.start, from, Position(n.view));
    }
  }

  lemma DeliveredIsHonest<T>(g: Log<T>, room: nat, beg: nat)
    requires Honest(g)
    ensures Honest(Delivered(g, room, beg))
  {
    if beg < g.view.kept {
      var from := ReadIsWindow(g.view, room, beg);
      HonestMore(g, Delivered(g, room, beg), from, Reverse(ReadFrom(g.view, room, beg).data));
    } else {
      assert Reverse<T>([]) == [];
      HonestMore(g, Delivered(g, room, beg), Position(g.view), []);
    }
  }

  /** Over any run of pushes, resizings, copies that begin inside what there is, and reads:
      since the last copy a client was given exactly what lies between the markers, each
      element once and in order, as long as no read warned it and none was without the room
      it needed; and less than that otherwise. */
  lemma {:induction false} AnyRun<T>(size: nat, events: seq<Event<T>>)
    requires CopiesInside(size, events)
    ensures Honest(Replay(size, events))
  {
    if events != [] {
      var n := |events| - 1;
      var before, e := Replay(size, events[..n]), events[n];
      InsideBefore(size, events);
      AnyRun(size, events[..n]);
      StepIsHonest(before, e);
    }
  }

  lemma StepIsHonest<T>(g: Log<T>, e: Event<T>)
    requires Honest(g) && (e.Copy? ==> e.beg <= g.view.count)
    ensures Honest(Step(g, e))
  {
    match e
    case Push(x) =>
      HistoryGrows(g.view.history, x, g.start, Position(g.view));
    case Resize(_) =>
    case Copy(_) =>
    case ReadAt(room, beg) =>
      DeliveredIsHonest(g, room, beg);
    case ReadNext(room) =>
      DeliveredIsHonest(g, room, NextBeg(g.view.kept, room));
  }

  lemma InsideBefore<T>(size: nat, events: seq<Event<T>>)
    requires CopiesInside(size, events) && events != []
    ensures CopiesInside(size, events[..|events| - 1])
  {
    var before := events[..|events| - 1];
    forall k | 0 <= k < |before| && before[k].Copy?
      ensures before[k].beg <= Replay(size, before[..k]).view.count
    {
      assert before[..k] == events[..k] && before[k] == events[k];
    }
  }

  lemma HistoryGrows<T>(history: seq<T>, x: T, start: nat, to: nat)
    requires to <= |history|
    ensures start <= to ==> (history + [x])[start..to] == history[start..to]
  {
  }

  /** What a client got is all there was between the markers exactly if it was never warned
      and never read without the room it needed. */
  lemma NothingLostExactly<T>(size: nat, events: seq<Event<T>>)
    requires CopiesInside(size, events)
    ensures var g := Replay(size, events);
            && g.start <= Position(g.view)
            && (g.delivered == g.view.history[g.start..Position(g.view)] <==> !g.warned && !g.roomless)
  {
    AnyRun(size, events);
  }

  lemma DequeIsWindow<T>(deque: seq<T>, history: seq<T>, count: nat, beg: nat, n: nat)
    requires beg + n <= count <= |deque| && count <= |history|
    requires forall k :: 0 <= k < count ==> deque[k] == history[|history| - 1 - k]
    ensures deque[beg..beg + n] == Window(history, beg, n)
  {
  }

  lemma CopiedIsRead<T>(v: View<T>, deque: seq<T>, room: nat, beg: nat, data: seq<T>, answer: int)
    requires Proper(v) && beg < v.kept && |deque| == v.bound
    requires forall k :: 0 <= k < v.count ==> deque[k] == v.history[|v.history| - 1 - k]
    requires data == if beg == v.kept - 1 then [deque[beg]] else deque[beg..beg + Min(room, v.kept - beg)]
    requires answer == if v.kept < v.unread || |data| < v.kept - beg then -|data| else |data|
    ensures Read(data, answer) == ReadFrom(v, room, beg)
  {
    DequeIsWindow(deque, v.history, v.count, beg, Taken(v.kept - beg, room));
    assert [deque[beg]] == deque[beg..beg + 1];
  }

  // ---------------------------------------------------------------------------
  // The object
  // ---------------------------------------------------------------------------

  class DataStream<T> {
    var deque: seq<T>
    var bound: nat
    var count: nat
    var mark: int
    var dirty: bool
    ghost var history: seq<T>
    ghost var unread: nat

    ghost predicate Shape()
      reads this
    {
      && |deque| == bound && 1 <= bound <= MAX_BOUND
      && count <= bound && count <= |history|
      && -1 <= mark < bound
      && (forall k :: 0 <= k < count ==> deque[k] == history[|history| - 1 - k])
    }

    ghost function Meaning(): View<T>
      reads this
      requires mark >= -1
    {
      View(history, unread, mark + 1, count, bound)
    }

    ghost predicate Valid()
      reads this
    {
      && Shape() && Proper(Meaning())
      && (dirty <==> mark + 1 < unread)
    }

    /** The elements are there from the start, but do not count. */
    constructor (size: nat, default_: T)
      ensures Valid() && Meaning() == New<T>(size).view
    {
      deque := seq(Bounded(size), _ => default_);
      bound, count := Bounded(size), 0;
      mark, dirty := -1, false;
      history, unread := [], 0;
    }

    method IncrInternalCounts()
      requires 1 <= bound && -1 <= mark < bound
      modifies this`count, this`mark, this`dirty
      ensures count == if old(count) < bound then old(count) + 1 else old(count)
      ensures mark == if old(mark) == bound - 1 then old(mark) else old(mark) + 1
      ensures dirty == (old(dirty) || old(mark) == bound - 1)
    {
      var penult := bound - 1;
      if count < bound {
        count := count + 1;
      }
      if mark == penult {
        dirty := true;
      } else if mark < penult {
        mark := mark + 1;
      } else {
        assert false;
      }
    }

    method Push(x: T)
      requires Shape()
      modifies this
      ensures Shape() && history == old(history) + [x] && bound == old(bound)
      ensures count == Min(old(count) + 1, bound) && mark == Min(old(mark) + 2, bound) - 1
      ensures dirty == (old(dirty) || old(mark) == bound - 1)
      ensures old(Valid()) ==> Valid() && Meaning() == Pushed(old(Meaning()), x)
    {
      deque := [x] + deque[..|deque| - 1];
      history, unread := history + [x], unread + 1;
      IncrInternalCounts();
    }

    method BoundSize(size: nat, default_: T) returns (r: nat)
      requires Valid()
      modifies this
      ensures Valid() && Meaning() == Resized(old(Meaning()), size)
      ensures r == bound
    {
      var sz := Bounded(size);
      deque := if sz <= |deque| then deque[..sz] else deque + seq(sz - |deque|, _ => default_);
      if sz < bound && sz <= mark {
        mark, dirty := sz - 1, true;
      }
      bound := sz;
      if sz < count {
        count := sz;
      }
      r := bound;
    }

    /** Negative indices count from the end of the deque, filled or not. */
    function Adjusted(i: int): int
      reads this
    {
      if i < 0 then i + |deque| else i
    }

    predicate InRange(end: int, beg: int)
      reads this
    {
      0 <= Adjusted(beg) <= Adjusted(end) < |deque|
    }

    lemma InRangeExactly(end: int, beg: int)
      requires Shape()
      ensures beg >= 0 ==> Adjusted(beg) == beg
      ensures beg < 0 ==> Adjusted(beg) == bound + beg
      ensures 0 <= beg && 0 <= end ==> (InRange(end, beg) <==> beg <= end < bound)
      ensures 0 <= beg && end < 0 ==> (InRange(end, beg) <==> beg <= bound + end)
      ensures beg < 0 && end < 0 ==> (InRange(end, beg) <==> -(bound as int) <= beg <= end)
      ensures beg < 0 && 0 <= end ==> (InRange(end, beg) <==> 0 <= bound + beg <= end < bound)
    {
    }

    /** Any part of the stream; the marker moves to its newest element. */
    method Copy(room: nat, end: int, beg: int) returns (r: Option<seq<T>>)
      requires Shape()
      modifies this`mark, this`dirty, this`unread
      ensures r.Some? <==> old(InRange(end, beg))
      ensures r.None? ==> mark == old(mark) && dirty == old(dirty) && unread == old(unread)
      ensures r.Some? ==> Shape() && mark == Adjusted(beg) - 1 && !dirty && unread == Adjusted(beg)
      ensures r.Some? ==> var b, e := Adjusted(beg), Adjusted(end);
                          r.value == if b == e then [deque[b]]
                                     else if b < Min(e + 1, count) then deque[b..b + Min(room, Min(e + 1, count) - b)]
                                     else []
      ensures r.Some? ==> (Valid() <==> Adjusted(beg) <= count)
      ensures r.Some? && old(Valid()) && Adjusted(beg) <= count ==> Meaning() == AfterCopy(old(Meaning()), Adjusted(beg))
    {
      if !InRange(end, beg) {
        return None;
      }
      var b, e := Adjusted(beg), Adjusted(end);
      if b == e {
        r := Some([deque[b]]);
      } else {
        var stop := Min(room + b, Min(e + 1, count));
        r := Some(if b < stop then deque[b..stop] else []);
      }
      mark, dirty := b - 1, false;
      unread := b;
    }

    /** Up to the marker: what was not read before, if the marker is right. */
    method CopyUpToMarker(room: nat, beg: nat) returns (data: seq<T>, answer: int)
      requires Shape()
      modifies this`mark, this`dirty, this`unread
      ensures beg > old(mark) ==> data == [] && answer == 0 && mark == old(mark) && dirty == old(dirty) && unread == old(unread)
      ensures beg <= old(mark) ==> mark == beg - 1 && !dirty && unread == beg
      ensures beg <= old(mark) ==> data == if beg == old(mark) then [deque[beg]]
                                           else if beg < Min(old(mark) + 1, count)
                                           then deque[beg..beg + Min(room, Min(old(mark) + 1, count) - beg)] else []
      ensures beg <= old(mark) ==> answer == if old(dirty) || |data| < old(mark) - beg + 1 then -|data| else |data|
    {
      var wasDirty := dirty;
      var wanted := mark - beg + 1;
      if wanted < 1 {
        return [], 0;
      }
      var copied := Copy(room, mark, beg);
      data := copied.value;
      answer := |data|;
      if wasDirty || |data| < wanted {
        answer := -answer;
      }
    }

    method CopyUnread(room: nat, beg: nat) returns (data: seq<T>, answer: int)
      requires Valid()
      modifies this`mark, this`dirty, this`unread
      ensures Valid() && Meaning() == AfterRead(old(Meaning()), beg)
      ensures Read(data, answer) == ReadFrom(old(Meaning()), room, beg)
    {
      ghost var v := Meaning();
      data, answer := CopyUpToMarker(room, beg);
      if beg < v.kept {
        CopiedIsRead(v, deque, room, beg, data, answer);
      }
    }

    /** A negative beginning counts from the oldest element there is. */
    method CopyFromMarker(room: nat, beg: int) returns (data: seq<T>, answer: int)
      requires Valid()
      modifies this`mark, this`dirty, this`unread
      ensures Valid()
      ensures var b := if beg < 0 then beg + count else beg;
              if b < 0 then data == [] && answer == 0 && Meaning() == old(Meaning())
              else Read(data, answer) == ReadFrom(old(Meaning()), room, b) && Meaning() == AfterRead(old(Meaning()), b)
    {
      var b := if beg < 0 then beg + count else beg;
      if b < 0 {
        return [], 0;
      }
      data, answer := CopyUnread(room, b);
    }

    method NcopyFromMarker(room: nat) returns (data: seq<T>, answer: int)
      requires Valid()
      modifies this`mark, this`dirty, this`unread
      ensures Valid() && Meaning() == AfterRead(old(Meaning()), NextBeg(old(Meaning().kept), room))
      ensures Read(data, answer) == ReadFrom(old(Meaning()), room, NextBeg(old(Meaning().kept), room))
    {
      var beg := AsLong(Wrap(mark - room + 1));
      data, answer := CopyFromMarker(room, if beg < 0 then 0 else beg);
    }
  }

  /** What an event does to a stream is what it does to the record of it. */
  method Perform<T>(s: DataStream<T>, ghost g: Log<T>, e: Event<T>, filler: T) returns (ghost next: Log<T>)
    requires s.Valid() && g.view == s.Meaning() && (e.Copy? ==> e.beg <= s.count)
    modifies s
    ensures s.Valid() && next == Step(g, e) && next.view == s.Meaning()
  {
    next := Step(g, e);
    match e {
      case Push(x) => s.Push(x);
      case Resize(size) => var _ := s.BoundSize(size, filler);
      case Copy(beg) => var _ := s.Copy(0, -1, beg);
      case ReadAt(room, beg) => var _, _ := s.CopyUnread(room, beg);
      case ReadNext(room) => var _, _ := s.NcopyFromMarker(room);
    }
  }

  /** A client is warned exactly by an answer below zero, and is given what the read got. */
  lemma WarnedExactly<T>(g: Log<T>, room: nat, beg: nat)
    requires Proper(g.view)
    ensures var r, n := ReadFrom(g.view, room, beg), Step(g, ReadAt(room, beg));
            && n.delivered == g.delivered + Reverse(r.data) && n.start == g.start
            && (n.warned <==> g.warned || r.answer < 0)
            && (n.roomless <==> g.roomless || (room == 0 && g.view.kept >= beg + 2))
    ensures Step(g, ReadNext(room)) == Step(g, ReadAt(room, NextBeg(g.view.kept, room)))
    ensures var n := Step(g, Copy(beg));
            beg <= g.view.count && beg < g.view.bound ==>
              n.start == Position(n.view) && n.delivered == [] && !n.warned && !n.roomless
              && n.view.history == g.view.history && n.view.unread == beg
  {
  }

  /** Copying from past what is there leaves a marker that promises elements that are not
      there either. The next read gets everything there is, and warns of a loss all the same;
      or, if there is nothing and the marker is at the very front, it gets an element that was
      never pushed, and does not warn. */
  method WarnedForNothing<T>(s: DataStream<T>, room: nat, end: int, beg: int) returns (data: seq<T>, answer: int)
    requires s.Valid() && s.InRange(end, beg) && s.Adjusted(beg) > s.count && room >= s.count
    modifies s
    ensures s.history == old(s.history) && s.count == old(s.count) <= |s.history|
    ensures if old(s.Adjusted(beg)) == 1 then data == [old(s.deque[0])] && answer == 1 && s.count == 0
            else data == Window(s.history, 0, s.count) && answer + s.count == 0
  {
    var _ := s.Copy(room, end, beg);
    data, answer := s.CopyUpToMarker(room, 0);
  }
}
