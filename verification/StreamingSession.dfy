/** StreamingSession: an endless merge of many streams. Every call of `next` returns a
    batch of data, newest first; what may still be overtaken by a slower stream is
    kept back. The block's snapshots and the clock are inputs. */
module StreamingSession {
  import opened Basics

  type Key = (string, string)   // item, topic

  datatype Datum = Datum(value: string, time: int)
  datatype Tick = Tick(key: Key, datum: Datum)

  const INT_MAX: int := 0x7FFF_FFFF_FFFF_FFFF

  /** stream_snapshot_from_marker: newest first, or None. */
  datatype Snapshot = NoData | Data(newestFirst: seq<Datum>)

  /** One round of snapshots, one for every visit of an (item, topic), and whether the
      time is up in case the round was not enough. */
  datatype Poll = Poll(snapshots: seq<Snapshot>, timedOut: bool)

  datatype Outcome = Batch(ticks: seq<Tick>) | TimedOut | Waiting | AssertionFailed

  // ---------------------------------------------------------------------------
  // Sequences of data
  // ---------------------------------------------------------------------------

  ghost predicate InTime(v: seq<Datum>) {
    forall i, j :: InTimeAt(v, i, j)
  }

  ghost predicate InTimeAt(v: seq<Datum>, i: int, j: int) {
    0 <= i < j < |v| ==> v[i].time <= v[j].time
  }

  lemma InTimeMeans(v: seq<Datum>)
    ensures InTime(v) <==> forall i, j :: 0 <= i < j < |v| ==> v[i].time <= v[j].time
  {
    if InTime(v) {
      forall i, j | 0 <= i < j < |v|
        ensures v[i].time <= v[j].time
      {
        assert InTimeAt(v, i, j);
      }
    }
  }

  /** The data at or before the cutoff, wherever they are. */
  function UpTo(v: seq<Datum>, cutoff: int): (r: seq<Datum>)
    ensures |r| <= |v|
  {
    if v == [] then []
    else
      var before, last := UpTo(v[..|v| - 1], cutoff), v[|v| - 1];
      if last.time <= cutoff then before + [last] else before
  }

  lemma {:induction false} UpToSound(v: seq<Datum>, cutoff: int)
    ensures forall d :: d in UpTo(v, cutoff) ==> d in v && d.time <= cutoff
  {
    if v != [] {
      UpToSound(v[..|v| - 1], cutoff);
    }
  }

  lemma {:induction false} UpToFindsAll(v: seq<Datum>, cutoff: int, d: Datum)
    requires d in v && d.time <= cutoff
    ensures d in UpTo(v, cutoff)
  {
    if d != v[|v| - 1] {
      assert d in v[..|v| - 1];
      UpToFindsAll(v[..|v| - 1], cutoff, d);
    }
  }

  /** No datum at or before the cutoff comes after a later one. */
  ghost predicate IsPrefix(v: seq<Datum>, cutoff: int) {
    forall i, j :: 0 <= i < j < |v| && v[j].time <= cutoff ==> v[i].time <= cutoff
  }

  lemma {:induction false} UpToPrefix(v: seq<Datum>, cutoff: int)
    requires IsPrefix(v, cutoff)
    ensures UpTo(v, cutoff) == v[..|UpTo(v, cutoff)|]
    ensures forall k :: |UpTo(v, cutoff)| <= k < |v| ==> v[k].time > cutoff
  {
    if v != [] {
      var w := v[..|v| - 1];
      if v[|v| - 1].time <= cutoff {
        UpToEverything(v, cutoff);
      } else {
        var n := |UpTo(w, cutoff)|;
        UpToPrefix(w, cutoff);
        assert UpTo(v, cutoff) == UpTo(w, cutoff);
        assert v[..n] == w[..n];
        assert forall k :: n <= k < |w| ==> v[k] == w[k];
      }
    }
  }

  lemma {:induction false} UpToEverything(v: seq<Datum>, cutoff: int)
    requires forall k :: 0 <= k < |v| ==> v[k].time <= cutoff
    ensures UpTo(v, cutoff) == v
  {
    if v != [] {
      UpToEverything(v[..|v| - 1], cutoff);
      assert v == v[..|v| - 1] + [v[|v| - 1]];
    }
  }

  /** Cutting off as many data as there are at or before the cutoff loses nothing and
      repeats nothing exactly when they are the first ones. */
  lemma CuttingConservesExactly(v: seq<Datum>, cutoff: int)
    ensures multiset(UpTo(v, cutoff)) + multiset(v[|UpTo(v, cutoff)|..]) == multiset(v) <==> IsPrefix(v, cutoff)
  {
    var u := UpTo(v, cutoff);
    var n := |u|;
    assert v == v[..n] + v[n..];
    if IsPrefix(v, cutoff) {
      UpToPrefix(v, cutoff);
    } else if multiset(u) + multiset(v[n..]) == multiset(v) {
      UpToSound(v, cutoff);
      SameTail(multiset(u), multiset(v[..n]), multiset(v[n..]));
      forall k | 0 <= k < n
        ensures v[k].time <= cutoff
      {
        assert v[k] in multiset(v[..n]);
      }
      UpToCounts(v, cutoff, n);
    }
  }

  lemma SameTail(a: multiset<Datum>, b: multiset<Datum>, c: multiset<Datum>)
    requires a + c == b + c
    ensures a == b
  {
    forall d
      ensures a[d] == b[d]
    {
      assert (a + c)[d] == (b + c)[d];
    }
  }

  /** If the first `n` data are at or before the cutoff, and there are no more such
      data than `n`, then none of the others is. */
  lemma {:induction false} UpToCounts(v: seq<Datum>, cutoff: int, n: nat)
    requires n <= |v| && (forall k :: 0 <= k < n ==> v[k].time <= cutoff)
    ensures |UpTo(v, cutoff)| >= n
    ensures |UpTo(v, cutoff)| == n ==> IsPrefix(v, cutoff)
  {
    if |v| > n {
      UpToCounts(v[..|v| - 1], cutoff, n);
    } else if v != [] {
      UpToCounts(v[..|v| - 1], cutoff, n - 1);
    }
  }

  // ---------------------------------------------------------------------------
  // One round
  // ---------------------------------------------------------------------------

  type Buffers = map<Key, seq<Datum>>

  ghost predicate NoRepeats(keys: seq<Key>) {
    forall i, j :: Differ(keys, i, j)
  }

  ghost predicate Differ(keys: seq<Key>, i: int, j: int) {
    0 <= i < j < |keys| ==> keys[i] != keys[j]
  }

  lemma NoRepeatsBefore(keys: seq<Key>, n: nat)
    requires NoRepeats(keys) && n < |keys|
    ensures NoRepeats(keys[..n]) && keys[n] !in keys[..n]
  {
    forall i, j
      ensures Differ(keys[..n], i, j)
    {
      assert Differ(keys, i, j);
    }
    forall i | 0 <= i < n
      ensures keys[i] != keys[n]
    {
      assert Differ(keys, i, n);
    }
  }

  function At(buffers: Buffers, k: Key): seq<Datum> {
    if k in buffers then buffers[k] else []
  }

  /** The oldest of the newest data of all streams that have any. */
  function OldestNew(keys: seq<Key>, buffers: Buffers): int {
    if keys == [] then INT_MAX
    else
      var rest, v := OldestNew(keys[..|keys| - 1], buffers), At(buffers, keys[|keys| - 1]);
      if v != [] && v[|v| - 1].time < rest then v[|v| - 1].time else rest
  }

  lemma {:induction false} OldestNewMeans(keys: seq<Key>, buffers: Buffers)
    ensures OldestNew(keys, buffers) <= INT_MAX
    ensures forall k :: k in keys && At(buffers, k) != [] ==> OldestNew(keys, buffers) <= At(buffers, k)[|At(buffers, k)| - 1].time
    ensures OldestNew(keys, buffers) < INT_MAX ==>
              exists k :: k in keys && At(buffers, k) != [] && At(buffers, k)[|At(buffers, k)| - 1].time == OldestNew(keys, buffers)
  {
    if keys != [] {
      var before, last := keys[..|keys| - 1], keys[|keys| - 1];
      OldestNewMeans(before, buffers);
      assert forall k :: k in keys <==> k in before || k == last;
    }
  }

  function Cutoff(keys: seq<Key>, buffers: Buffers): int {
    var oldest := OldestNew(keys, buffers);
    if oldest != INT_MAX then oldest else 0
  }

  function Tagged(k: Key, v: seq<Datum>): (r: seq<Tick>)
    ensures |r| == |v| && forall j :: 0 <= j < |v| ==> r[j] == Tick(k, v[j])
  {
    seq(|v|, j requires 0 <= j < |v| => Tick(k, v[j]))
  }

  /** Everything at or before the cutoff, stream by stream. */
  function Good(keys: seq<Key>, buffers: Buffers, cutoff: int): seq<Tick>
  {
    if keys == [] then []
    else
      var k := keys[|keys| - 1];
      Good(keys[..|keys| - 1], buffers, cutoff) + Tagged(k, UpTo(At(buffers, k), cutoff))
  }

  lemma {:induction false} GoodSound(keys: seq<Key>, buffers: Buffers, cutoff: int)
    ensures forall t :: t in Good(keys, buffers, cutoff) ==> t.datum.time <= cutoff && t.key in keys && t.datum in At(buffers, t.key)
  {
    if keys != [] {
      var k := keys[|keys| - 1];
      GoodSound(keys[..|keys| - 1], buffers, cutoff);
      UpToSound(At(buffers, k), cutoff);
    }
  }

  lemma {:induction false} GoodFindsAll(keys: seq<Key>, buffers: Buffers, cutoff: int, k: Key, d: Datum)
    requires k in keys && d in At(buffers, k) && d.time <= cutoff
    ensures Tick(k, d) in Good(keys, buffers, cutoff)
  {
    var last := keys[|keys| - 1];
    if k == last {
      UpToFindsAll(At(buffers, k), cutoff, d);
      var u := UpTo(At(buffers, k), cutoff);
      var j :| 0 <= j < |u| && u[j] == d;
      assert Tagged(last, u)[j] == Tick(k, d);
    } else {
      assert k in keys[..|keys| - 1];
      GoodFindsAll(keys[..|keys| - 1], buffers, cutoff, k, d);
    }
  }

  ghost predicate OffScale(keys: seq<Key>, buffers: Buffers) {
    forall k :: k in keys ==>
      var v := At(buffers, k);
      (v != [] ==> v[|v| - 1].time >= INT_MAX) && forall d :: d in v ==> d.time > 0
  }

  /** The "'good' list is empty" assertion fires in exactly one situation: every newest
      datum has a time stamp off the 64-bit scale, and no datum is from before 1970. */
  lemma AssertionFiresExactly(keys: seq<Key>, buffers: Buffers)
    ensures Good(keys, buffers, Cutoff(keys, buffers)) == [] <==> OffScale(keys, buffers)
  {
    var oldest, cutoff := OldestNew(keys, buffers), Cutoff(keys, buffers);
    var good := Good(keys, buffers, cutoff);
    OldestNewMeans(keys, buffers);
    if oldest < INT_MAX {
      var k :| k in keys && At(buffers, k) != [] && At(buffers, k)[|At(buffers, k)| - 1].time == oldest;
      GoodFindsAll(keys, buffers, cutoff, k, At(buffers, k)[|At(buffers, k)| - 1]);
    } else {
      forall k, d | k in keys && d in At(buffers, k) && d.time <= 0
        ensures good != []
      {
        GoodFindsAll(keys, buffers, cutoff, k, d);
      }
      GoodSound(keys, buffers, cutoff);
      if good != [] {
        assert good[0] in good;
      }
    }
  }

  // ---------------------------------------------------------------------------
  // Sorting a batch, newest first and stable
  // ---------------------------------------------------------------------------

  ghost predicate NewestFirst(s: seq<Tick>) {
    forall i, j :: 0 <= i < j < |s| ==> s[i].datum.time >= s[j].datum.time
  }

  /** Before the first tick that is not newer. */
  function Insert(t: Tick, s: seq<Tick>): seq<Tick> {
    if s == [] || s[0].datum.time <= t.datum.time then [t] + s else [s[0]] + Insert(t, s[1..])
  }

  function SortedByTime(s: seq<Tick>): seq<Tick> {
    if s == [] then [] else Insert(s[0], SortedByTime(s[1..]))
  }

  /** The ticks of one time, in their order. */
  function AtTime(s: seq<Tick>, time: int): seq<Tick> {
    if s == [] then [] else (if s[0].datum.time == time then [s[0]] else []) + AtTime(s[1..], time)
  }

  lemma {:induction false} InsertPermutes(t: Tick, s: seq<Tick>)
    ensures multiset(Insert(t, s)) == multiset{t} + multiset(s)
  {
    if s != [] && s[0].datum.time > t.datum.time {
      InsertPermutes(t, s[1..]);
      assert multiset(s) == multiset{s[0]} + multiset(s[1..]) by {
        assert s == [s[0]] + s[1..];
      }
    }
  }

  lemma {:induction false} InsertSorts(t: Tick, s: seq<Tick>)
    requires NewestFirst(s)
    ensures NewestFirst(Insert(t, s))
    ensures forall u :: u in Insert(t, s) ==> u == t || u in s
  {
    if s != [] && s[0].datum.time > t.datum.time {
      InsertSorts(t, s[1..]);
      assert forall u :: u in s[1..] ==> u in s && u.datum.time <= s[0].datum.time;
    }
  }

  lemma AtTimeFirst(t: Tick, s: seq<Tick>, time: int)
    ensures AtTime([t] + s, time) == (if t.datum.time == time then [t] else []) + AtTime(s, time)
  {
  }

  lemma {:induction false} InsertKeepsOrder(t: Tick, s: seq<Tick>, time: int)
    ensures AtTime(Insert(t, s), time) == AtTime([t] + s, time)
  {
    if s != [] && s[0].datum.time > t.datum.time {
      InsertKeepsOrder(t, s[1..], time);
      assert s == [s[0]] + s[1..];
      FirstTwoSwap(t, s[0], Insert(t, s[1..]), s[1..], time);
    }
  }

  lemma FirstTwoSwap(t: Tick, u: Tick, rest: seq<Tick>, s: seq<Tick>, time: int)
    requires t.datum.time != u.datum.time && AtTime(rest, time) == AtTime([t] + s, time)
    ensures AtTime([u] + rest, time) == AtTime([t] + ([u] + s), time)
  {
  }

  /** `sorted` with `reverse=True`: a permutation, newest first, that keeps the order of
      ticks with equal times. */
  lemma {:induction false} SortedByTimeSorts(s: seq<Tick>, time: int)
    ensures NewestFirst(SortedByTime(s)) && multiset(SortedByTime(s)) == multiset(s)
    ensures AtTime(SortedByTime(s), time) == AtTime(s, time)
  {
    if s != [] {
      SortedByTimeSorts(s[1..], time);
      InsertPermutes(s[0], SortedByTime(s[1..]));
      InsertSorts(s[0], SortedByTime(s[1..]));
      InsertKeepsOrder(s[0], SortedByTime(s[1..]), time);
      AtTimeFirst(s[0], SortedByTime(s[1..]), time);
      assert s == [s[0]] + s[1..];
    }
  }

  // ---------------------------------------------------------------------------
  // What a session has taken in and given out
  // ---------------------------------------------------------------------------

  /** The buffers; everything pulled and everything sent, stream by stream; the batches
      so far, each turned around, one after the other; and the last one's cutoff. */
  datatype Log = Log(buffers: Buffers, pulled: Buffers, sent: Buffers, timeline: seq<Tick>, bound: int)

  /** What was pulled is what was sent followed by what is buffered, as long as the
      stream kept to its time order. */
  ghost predicate Conserved(pulled: seq<Datum>, sent: seq<Datum>, buffered: seq<Datum>) {
    InTime(pulled) ==> sent + buffered == pulled
  }

  /** The timeline holds every datum of the stream as often as it was sent. */
  ghost predicate Accounted(timeline: seq<Tick>, k: Key, sent: seq<Datum>) {
    forall d :: AccountedFor(timeline, k, sent, d)
  }

  ghost predicate AccountedFor(timeline: seq<Tick>, k: Key, sent: seq<Datum>, d: Datum) {
    multiset(timeline)[Tick(k, d)] == multiset(sent)[d]
  }

  /** The stream has reached the bound, and what is buffered of it is not before it. */
  ghost predicate Beyond(pulled: seq<Datum>, buffered: seq<Datum>, bound: int) {
    && pulled != [] && pulled[|pulled| - 1].time >= bound
    && forall j :: 0 <= j < |buffered| ==> buffered[j].time >= bound
  }

  ghost predicate StreamSound(g: Log, keys: seq<Key>, k: Key) {
    && (k in g.buffers <==> k in keys) && (k in g.pulled <==> k in keys) && (k in g.sent <==> k in keys)
    && Conserved(At(g.pulled, k), At(g.sent, k), At(g.buffers, k))
    && Accounted(g.timeline, k, At(g.sent, k))
  }

  ghost predicate Ascending(s: seq<Tick>) {
    forall i, j :: AscendingAt(s, i, j)
  }

  ghost predicate AscendingAt(s: seq<Tick>, i: int, j: int) {
    0 <= i < j < |s| ==> s[i].datum.time <= s[j].datum.time
  }

  ghost predicate Within(s: seq<Tick>, bound: int) {
    forall j :: WithinAt(s, bound, j)
  }

  ghost predicate WithinAt(s: seq<Tick>, bound: int, j: int) {
    0 <= j < |s| ==> s[j].datum.time <= bound
  }

  lemma AscendingMeans(s: seq<Tick>, bound: int)
    ensures Ascending(s) <==> forall i, j :: 0 <= i < j < |s| ==> s[i].datum.time <= s[j].datum.time
    ensures Within(s, bound) <==> forall j :: 0 <= j < |s| ==> s[j].datum.time <= bound
  {
    if Ascending(s) {
      forall i, j | 0 <= i < j < |s|
        ensures s[i].datum.time <= s[j].datum.time
      {
        assert AscendingAt(s, i, j);
      }
    }
    if Within(s, bound) {
      forall j | 0 <= j < |s|
        ensures s[j].datum.time <= bound
      {
        assert WithinAt(s, bound, j);
      }
    }
  }

  ghost predicate BeyondIn(g: Log, keys: seq<Key>, k: Key) {
    k in keys ==> Beyond(At(g.pulled, k), At(g.buffers, k), g.bound)
  }

  ghost predicate InOrder(g: Log, keys: seq<Key>) {
    && Ascending(g.timeline) && Within(g.timeline, g.bound)
    && (g.timeline != [] ==> forall k :: BeyondIn(g, keys, k))
  }

  ghost predicate InTimeIn(m: Buffers, k: Key) {
    InTime(At(m, k))
  }

  ghost predicate AllInTime(m: Buffers) {
    forall k :: InTimeIn(m, k)
  }

  /** Conservation for every stream that keeps to its time order and, in guarantee mode
      if all of them do, one timeline in time order. */
  ghost predicate Sound(g: Log, keys: seq<Key>, guarantee: bool) {
    && (forall k :: StreamSound(g, keys, k))
    && (guarantee && AllInTime(g.pulled) ==> InOrder(g, keys))
  }

  /** New data of each stream, oldest first. */
  function Extended(m: Buffers, more: Buffers): Buffers {
    map k | k in m :: At(m, k) + At(more, k)
  }

  function AfterPull(g: Log, more: Buffers): Log {
    g.(buffers := Extended(g.buffers, more), pulled := Extended(g.pulled, more))
  }

  function Kept(m: Buffers, cutoff: int): Buffers {
    map k | k in m :: At(m, k)[|UpTo(At(m, k), cutoff)|..]
  }

  function Taken(m: Buffers, cutoff: int): Buffers {
    map k | k in m :: UpTo(At(m, k), cutoff)
  }

  function AfterBatch(g: Log, keys: seq<Key>): Log {
    var cutoff := Cutoff(keys, g.buffers);
    Log(Kept(g.buffers, cutoff), g.pulled, Extended(g.sent, Taken(g.buffers, cutoff)),
        g.timeline + Reverse(SortedByTime(Good(keys, g.buffers, cutoff))), cutoff)
  }

  lemma InTimeParts(v: seq<Datum>, w: seq<Datum>)
    requires InTime(v + w)
    ensures InTime(v) && InTime(w)
    ensures forall i, j :: 0 <= i < |v| && 0 <= j < |w| ==> v[i].time <= w[j].time
  {
    InTimeMeans(v + w);
    InTimeMeans(v);
    InTimeMeans(w);
    assert forall i :: 0 <= i < |v| ==> (v + w)[i] == v[i];
    assert forall j :: 0 <= j < |w| ==> (v + w)[|v| + j] == w[j];
  }

  // ----- one stream through one round

  lemma PullConserves(p: seq<Datum>, s: seq<Datum>, b: seq<Datum>, more: seq<Datum>)
    requires Conserved(p, s, b)
    ensures Conserved(p + more, s, b + more)
  {
    if InTime(p + more) {
      InTimeParts(p, more);
      assert s + (b + more) == (s + b) + more;
    }
  }

  lemma PullStaysBeyond(p: seq<Datum>, b: seq<Datum>, more: seq<Datum>, bound: int)
    requires Beyond(p, b, bound) && InTime(p + more)
    ensures Beyond(p + more, b + more, bound)
  {
    InTimeParts(p, more);
  }

  lemma SortedPartsMeet(v: seq<Datum>, cutoff: int)
    requires InTime(v)
    ensures UpTo(v, cutoff) + v[|UpTo(v, cutoff)|..] == v
    ensures forall k :: |UpTo(v, cutoff)| <= k < |v| ==> v[k].time > cutoff
  {
    InTimeMeans(v);
    UpToPrefix(v, cutoff);
  }

  lemma BatchConserves(p: seq<Datum>, s: seq<Datum>, b: seq<Datum>, cutoff: int)
    requires Conserved(p, s, b)
    ensures Conserved(p, s + UpTo(b, cutoff), b[|UpTo(b, cutoff)|..])
  {
    if InTime(p) {
      InTimeParts(s, b);
      SortedPartsMeet(b, cutoff);
      var u := UpTo(b, cutoff);
      assert (s + u) + b[|u|..] == s + (u + b[|u|..]);
    }
  }

  lemma BatchLeavesBeyond(p: seq<Datum>, s: seq<Datum>, b: seq<Datum>, cutoff: int)
    requires Conserved(p, s, b) && InTime(p) && b != [] && b[|b| - 1].time >= cutoff
    ensures Beyond(p, b[|UpTo(b, cutoff)|..], cutoff)
  {
    InTimeParts(s, b);
    SortedPartsMeet(b, cutoff);
    assert p[|p| - 1] == b[|b| - 1];
  }

  // ----- all streams through one round

  lemma AtExtended(m: Buffers, more: Buffers, k: Key)
    ensures k in m ==> At(Extended(m, more), k) == At(m, k) + At(more, k)
    ensures k in m <==> k in Extended(m, more)
  {
  }

  lemma AtCut(m: Buffers, cutoff: int, k: Key)
    ensures At(Kept(m, cutoff), k) == At(m, k)[|UpTo(At(m, k), cutoff)|..]
    ensures At(Taken(m, cutoff), k) == UpTo(At(m, k), cutoff)
    ensures (k in m <==> k in Kept(m, cutoff)) && (k in m <==> k in Taken(m, cutoff))
  {
  }

  lemma PullStream(g: Log, more: Buffers, keys: seq<Key>, k: Key)
    requires StreamSound(g, keys, k)
    ensures StreamSound(AfterPull(g, more), keys, k)
  {
    AtExtended(g.buffers, more, k);
    AtExtended(g.pulled, more, k);
    if k in keys {
      PullConserves(At(g.pulled, k), At(g.sent, k), At(g.buffers, k), At(more, k));
    }
  }

  lemma PullOrder(g: Log, more: Buffers, keys: seq<Key>, k: Key)
    requires StreamSound(g, keys, k) && InTimeIn(AfterPull(g, more).pulled, k)
    ensures InTimeIn(g.pulled, k)
    ensures BeyondIn(g, keys, k) ==> BeyondIn(AfterPull(g, more), keys, k)
  {
    AtExtended(g.buffers, more, k);
    AtExtended(g.pulled, more, k);
    if k in keys {
      InTimeParts(At(g.pulled, k), At(more, k));
      if BeyondIn(g, keys, k) {
        PullStaysBeyond(At(g.pulled, k), At(g.buffers, k), At(more, k), g.bound);
      }
    }
  }

  lemma PullKeepsSound(g: Log, more: Buffers, keys: seq<Key>, guarantee: bool)
    requires Sound(g, keys, guarantee)
    ensures Sound(AfterPull(g, more), keys, guarantee)
  {
    var n := AfterPull(g, more);
    forall k
      ensures StreamSound(n, keys, k)
      ensures InTimeIn(n.pulled, k) ==> InTimeIn(g.pulled, k)
      ensures InTimeIn(n.pulled, k) && BeyondIn(g, keys, k) ==> BeyondIn(n, keys, k)
    {
      assert StreamSound(g, keys, k);
      PullStream(g, more, keys, k);
      if InTimeIn(n.pulled, k) {
        PullOrder(g, more, keys, k);
      }
    }
    if guarantee && AllInTime(n.pulled) {
      forall k
        ensures InTimeIn(g.pulled, k)
      {
        assert InTimeIn(n.pulled, k);
      }
      if g.timeline != [] {
        forall k
          ensures BeyondIn(n, keys, k)
        {
          assert InTimeIn(n.pulled, k) && BeyondIn(g, keys, k);
        }
      }
    }
  }

  /** How often a datum of a stream is in the batch: as often as it is taken. */
  lemma {:induction false} GoodCounts(keys: seq<Key>, buffers: Buffers, cutoff: int, k: Key, d: Datum)
    requires NoRepeats(keys)
    ensures multiset(Good(keys, buffers, cutoff))[Tick(k, d)] == if k in keys then multiset(UpTo(At(buffers, k), cutoff))[d] else 0
  {
    if keys != [] {
      var before, last := keys[..|keys| - 1], keys[|keys| - 1];
      NoRepeatsBefore(keys, |keys| - 1);
      GoodCounts(before, buffers, cutoff, k, d);
      TaggedCounts(last, UpTo(At(buffers, last), cutoff), k, d);
      assert k in keys <==> k in before || k == last;
    }
  }

  /** The ticks of one stream, in their order. */
  function OfKey(s: seq<Tick>, k: Key): seq<Tick> {
    if s == [] then [] else OfKey(s[..|s| - 1], k) + if s[|s| - 1].key == k then [s[|s| - 1]] else []
  }

  lemma {:induction false} OfKeySum(s: seq<Tick>, t: seq<Tick>, k: Key)
    ensures OfKey(s + t, k) == OfKey(s, k) + OfKey(t, k)
  {
    if t == [] {
      assert s + t == s;
    } else {
      OfKeySum(s, t[..|t| - 1], k);
      assert (s + t)[..|s + t| - 1] == s + t[..|t| - 1];
    }
  }

  lemma {:induction false} OfKeyTagged(v: seq<Datum>, last: Key, k: Key)
    ensures OfKey(Tagged(last, v), k) == if last == k then Tagged(k, v) else []
  {
    if v != [] {
      OfKeyTagged(v[..|v| - 1], last, k);
      assert Tagged(last, v)[..|v| - 1] == Tagged(last, v[..|v| - 1]);
    }
  }

  /** What is collected of a stream is in the stream's order. */
  lemma {:induction false} GoodOfKey(keys: seq<Key>, buffers: Buffers, cutoff: int, k: Key)
    requires NoRepeats(keys)
    ensures OfKey(Good(keys, buffers, cutoff), k) == if k in keys then Tagged(k, UpTo(At(buffers, k), cutoff)) else []
  {
    if keys != [] {
      var before, last := keys[..|keys| - 1], keys[|keys| - 1];
      NoRepeatsBefore(keys, |keys| - 1);
      GoodOfKey(before, buffers, cutoff, k);
      OfKeySum(Good(before, buffers, cutoff), Tagged(last, UpTo(At(buffers, last), cutoff)), k);
      OfKeyTagged(UpTo(At(buffers, last), cutoff), last, k);
      assert k in keys <==> k in before || k == last;
    }
  }

  /** And the streams follow each other in the order of the keys. */
  lemma {:induction false} GoodByKey(keys: seq<Key>, buffers: Buffers, cutoff: int, i: nat, j: nat) returns (p: nat, q: nat)
    requires i <= j < |Good(keys, buffers, cutoff)|
    ensures p <= q < |keys|
    ensures keys[p] == Good(keys, buffers, cutoff)[i].key && keys[q] == Good(keys, buffers, cutoff)[j].key
  {
    var n := |keys| - 1;
    var done := |Good(keys[..n], buffers, cutoff)|;
    if j < done {
      p, q := GoodByKey(keys[..n], buffers, cutoff, i, j);
    } else if i < done {
      var r;
      p, r := GoodByKey(keys[..n], buffers, cutoff, i, i);
      q := n;
    } else {
      p, q := n, n;
    }
  }

  lemma {:induction false} TaggedCounts(last: Key, v: seq<Datum>, k: Key, d: Datum)
    ensures multiset(Tagged(last, v))[Tick(k, d)] == if k == last then multiset(v)[d] else 0
  {
    if v == [] {
      assert Tagged(last, v) == [];
    } else {
      var w, e := v[..|v| - 1], v[|v| - 1];
      TaggedCounts(last, w, k, d);
      assert v == w + [e];
      assert Tagged(last, v) == Tagged(last, w) + [Tick(last, e)];
    }
  }

  lemma {:induction false} ReverseCounts(s: seq<Tick>)
    ensures multiset(Reverse(s)) == multiset(s)
  {
    if s == [] {
      assert Reverse(s) == [];
    } else {
      ReverseCounts(s[1..]);
      assert s == [s[0]] + s[1..];
      assert Reverse(s) == Reverse(s[1..]) + [s[0]];
    }
  }

  lemma BatchCounts(keys: seq<Key>, buffers: Buffers, cutoff: int, k: Key, d: Datum)
    requires NoRepeats(keys)
    ensures multiset(Reverse(SortedByTime(Good(keys, buffers, cutoff))))[Tick(k, d)] ==
            if k in keys then multiset(UpTo(At(buffers, k), cutoff))[d] else 0
  {
    SortedByTimeSorts(Good(keys, buffers, cutoff), 0);
    ReverseCounts(SortedByTime(Good(keys, buffers, cutoff)));
    GoodCounts(keys, buffers, cutoff, k, d);
  }

  lemma AccountMore(timeline: seq<Tick>, batch: seq<Tick>, k: Key, sent: seq<Datum>, more: seq<Datum>)
    requires Accounted(timeline, k, sent)
    requires forall d :: AccountedFor(batch, k, more, d)
    ensures Accounted(timeline + batch, k, sent + more)
  {
    forall d
      ensures AccountedFor(timeline + batch, k, sent + more, d)
    {
      assert AccountedFor(timeline, k, sent, d) && AccountedFor(batch, k, more, d);
    }
  }

  lemma BatchStream(g: Log, keys: seq<Key>, k: Key)
    requires StreamSound(g, keys, k) && NoRepeats(keys)
    ensures StreamSound(AfterBatch(g, keys), keys, k)
  {
    var cutoff := Cutoff(keys, g.buffers);
    var batch := Reverse(SortedByTime(Good(keys, g.buffers, cutoff)));
    var v := At(g.buffers, k);
    AtCut(g.buffers, cutoff, k);
    AtExtended(g.sent, Taken(g.buffers, cutoff), k);
    BatchConserves(At(g.pulled, k), At(g.sent, k), v, cutoff);
    var taken := if k in keys then UpTo(v, cutoff) else [];
    forall d
      ensures AccountedFor(batch, k, taken, d)
    {
      BatchCounts(keys, g.buffers, cutoff, k, d);
    }
    AccountMore(g.timeline, batch, k, At(g.sent, k), taken);
    assert k !in keys ==> At(g.sent, k) + [] == At(g.sent, k);
  }

  lemma ReverseAscends(s: seq<Tick>)
    requires NewestFirst(s)
    ensures Ascending(Reverse(s))
  {
  }

  lemma SameMembers(good: seq<Tick>, t: Tick)
    requires t in Reverse(SortedByTime(good))
    ensures t in good
  {
    SortedByTimeSorts(good, 0);
    ReverseCounts(SortedByTime(good));
    assert t in multiset(Reverse(SortedByTime(good)));
  }

  lemma TickInBounds(g: Log, keys: seq<Key>, cutoff: int, t: Tick)
    requires t in Reverse(SortedByTime(Good(keys, g.buffers, cutoff)))
    ensures t.datum.time <= cutoff
    ensures (forall k :: BeyondIn(g, keys, k)) ==> t.datum.time >= g.bound
  {
    GoodSound(keys, g.buffers, cutoff);
    SameMembers(Good(keys, g.buffers, cutoff), t);
    if forall k :: BeyondIn(g, keys, k) {
      assert BeyondIn(g, keys, t.key);
    }
  }

  /** A batch is not before the bound of the last one, and not after its own cutoff. */
  lemma BatchInBounds(g: Log, keys: seq<Key>, cutoff: int)
    ensures var batch := Reverse(SortedByTime(Good(keys, g.buffers, cutoff)));
            && Ascending(batch) && Within(batch, cutoff)
            && ((forall k :: BeyondIn(g, keys, k)) ==> forall j :: 0 <= j < |batch| ==> batch[j].datum.time >= g.bound)
  {
    var good := Good(keys, g.buffers, cutoff);
    var batch := Reverse(SortedByTime(good));
    SortedByTimeSorts(good, 0);
    ReverseAscends(SortedByTime(good));
    forall j | 0 <= j < |batch|
      ensures WithinAt(batch, cutoff, j)
      ensures (forall k :: BeyondIn(g, keys, k)) ==> batch[j].datum.time >= g.bound
    {
      TickInBounds(g, keys, cutoff, batch[j]);
    }
    AscendingMeans(batch, cutoff);
  }

  lemma AppendAscending(timeline: seq<Tick>, batch: seq<Tick>, bound: int, cutoff: int)
    requires Ascending(timeline) && Within(timeline, bound)
    requires Ascending(batch) && Within(batch, cutoff) && |batch| > 0
    requires timeline != [] ==> forall j :: 0 <= j < |batch| ==> batch[j].datum.time >= bound
    ensures Ascending(timeline + batch) && Within(timeline + batch, cutoff)
  {
    AscendingMeans(timeline, bound);
    AscendingMeans(batch, cutoff);
    AscendingMeans(timeline + batch, cutoff);
    assert timeline != [] ==> bound <= batch[0].datum.time <= cutoff;
  }

  lemma BatchNotEmpty(good: seq<Tick>)
    requires good != []
    ensures |Reverse(SortedByTime(good))| > 0
  {
  }

  lemma BatchOrder(g: Log, keys: seq<Key>, k: Key)
    requires StreamSound(g, keys, k) && InTimeIn(g.pulled, k)
    requires k in keys ==> At(g.buffers, k) != []
    ensures BeyondIn(AfterBatch(g, keys), keys, k)
  {
    var cutoff := Cutoff(keys, g.buffers);
    OldestNewMeans(keys, g.buffers);
    AtCut(g.buffers, cutoff, k);
    if k in keys {
      BatchLeavesBeyond(At(g.pulled, k), At(g.sent, k), At(g.buffers, k), cutoff);
    }
  }

  lemma BatchKeepsSound(g: Log, keys: seq<Key>, guarantee: bool)
    requires Sound(g, keys, guarantee) && NoRepeats(keys)
    requires guarantee ==> forall k :: k in keys ==> At(g.buffers, k) != []
    requires Good(keys, g.buffers, Cutoff(keys, g.buffers)) != []
    ensures Sound(AfterBatch(g, keys), keys, guarantee)
  {
    var n, cutoff := AfterBatch(g, keys), Cutoff(keys, g.buffers);
    forall k
      ensures StreamSound(n, keys, k)
      ensures guarantee && InTimeIn(g.pulled, k) ==> BeyondIn(n, keys, k)
    {
      assert StreamSound(g, keys, k);
      BatchStream(g, keys, k);
      if guarantee && InTimeIn(g.pulled, k) {
        BatchOrder(g, keys, k);
      }
    }
    if guarantee && AllInTime(n.pulled) {
      BatchInBounds(g, keys, cutoff);
      BatchNotEmpty(Good(keys, g.buffers, cutoff));
      AppendAscending(g.timeline, Reverse(SortedByTime(Good(keys, g.buffers, cutoff))), g.bound, cutoff);
      forall k
        ensures BeyondIn(n, keys, k)
      {
        assert InTimeIn(g.pulled, k);
      }
    }
  }

  /** Never empty, newest first, and nothing after the cutoff. */
  ghost predicate ProperBatch(ticks: seq<Tick>, cutoff: int) {
    ticks != [] && NewestFirst(ticks) && Within(ticks, cutoff)
  }

  lemma BatchIsSorted(keys: seq<Key>, buffers: Buffers, cutoff: int)
    requires Good(keys, buffers, cutoff) != []
    ensures ProperBatch(SortedByTime(Good(keys, buffers, cutoff)), cutoff)
  {
    var good := Good(keys, buffers, cutoff);
    var ticks := SortedByTime(good);
    SortedByTimeSorts(good, 0);
    GoodSound(keys, buffers, cutoff);
    BatchNotEmpty(good);
    forall j | 0 <= j < |ticks|
      ensures WithinAt(ticks, cutoff, j)
    {
      assert ticks[j] in multiset(ticks);
      assert ticks[j] in good;
    }
  }

  lemma NothingTaken(keys: seq<Key>, buffers: Buffers, cutoff: int)
    requires Good(keys, buffers, cutoff) == []
    requires forall k :: k in buffers ==> k in keys
    ensures Kept(buffers, cutoff) == buffers
  {
    forall k | k in buffers
      ensures UpTo(At(buffers, k), cutoff) == []
    {
      var u := UpTo(At(buffers, k), cutoff);
      if u != [] {
        UpToSound(At(buffers, k), cutoff);
        assert u[0] in u;
        GoodFindsAll(keys, buffers, cutoff, k, u[0]);
      }
    }
  }

  /** Not after the newest datum of any stream that has data. */
  ghost predicate Due(keys: seq<Key>, buffers: Buffers, d: Datum) {
    forall k :: k in keys && At(buffers, k) != [] ==> d.time <= At(buffers, k)[|At(buffers, k)| - 1].time
  }

  /** Some stream's newest datum is on the scale. */
  ghost predicate OnScale(keys: seq<Key>, buffers: Buffers) {
    exists k :: k in keys && At(buffers, k) != [] && At(buffers, k)[|At(buffers, k)| - 1].time < INT_MAX
  }

  lemma {:induction false} UpToCount(v: seq<Datum>, cutoff: int, d: Datum)
    ensures multiset(UpTo(v, cutoff))[d] == if d.time <= cutoff then multiset(v)[d] else 0
  {
    if v != [] {
      UpToCount(v[..|v| - 1], cutoff, d);
      assert v == v[..|v| - 1] + [v[|v| - 1]];
    }
  }

  lemma DueExactly(keys: seq<Key>, buffers: Buffers, d: Datum)
    requires OnScale(keys, buffers)
    ensures d.time <= Cutoff(keys, buffers) <==> Due(keys, buffers, d)
  {
    OldestNewMeans(keys, buffers);
    var s :| s in keys && At(buffers, s) != [] && At(buffers, s)[|At(buffers, s)| - 1].time < INT_MAX;
    assert OldestNew(keys, buffers) < INT_MAX;
  }

  /** A batch has every buffered datum that is due, as often as it is buffered, and no other. */
  lemma BatchIsExactly(keys: seq<Key>, buffers: Buffers, k: Key, d: Datum)
    requires NoRepeats(keys) && OnScale(keys, buffers)
    ensures multiset(SortedByTime(Good(keys, buffers, Cutoff(keys, buffers))))[Tick(k, d)] ==
            if k in keys && Due(keys, buffers, d) then multiset(At(buffers, k))[d] else 0
  {
    var cutoff := Cutoff(keys, buffers);
    SortedByTimeSorts(Good(keys, buffers, cutoff), 0);
    GoodCounts(keys, buffers, cutoff, k, d);
    UpToCount(At(buffers, k), cutoff, d);
    DueExactly(keys, buffers, d);
  }

  ghost predicate BatchIs(ticks: seq<Tick>, keys: seq<Key>, buffers: Buffers) {
    forall k, d :: BatchHas(ticks, keys, buffers, k, d)
  }

  ghost predicate BatchHas(ticks: seq<Tick>, keys: seq<Key>, buffers: Buffers, k: Key, d: Datum) {
    multiset(ticks)[Tick(k, d)] == if k in keys && Due(keys, buffers, d) then multiset(At(buffers, k))[d] else 0
  }

  ghost predicate BatchRight(ticks: seq<Tick>, keys: seq<Key>, buffers: Buffers) {
    OnScale(keys, buffers) ==> BatchIs(ticks, keys, buffers)
  }

  lemma BatchIsRight(keys: seq<Key>, buffers: Buffers)
    requires NoRepeats(keys)
    ensures BatchRight(SortedByTime(Good(keys, buffers, Cutoff(keys, buffers))), keys, buffers)
  {
    if OnScale(keys, buffers) {
      forall k, d
        ensures BatchHas(SortedByTime(Good(keys, buffers, Cutoff(keys, buffers))), keys, buffers, k, d)
      {
        BatchIsExactly(keys, buffers, k, d);
      }
    }
  }

  // ---------------------------------------------------------------------------
  // The session
  // ---------------------------------------------------------------------------

  /** Items by topics, in the order of the nested loops. */
  function Product(items: seq<string>, topics: seq<string>): seq<Key> {
    if items == [] then [] else seq(|topics|, j requires 0 <= j < |topics| => (items[0], topics[j])) + Product(items[1..], topics)
  }

  /** The keys in order of their first visit: what a dictionary over them iterates. */
  function Distinct(visits: seq<Key>): (keys: seq<Key>)
    ensures forall k :: k in keys <==> k in visits
  {
    if visits == [] then []
    else
      var before, last := Distinct(visits[..|visits| - 1]), visits[|visits| - 1];
      assert forall k :: k in visits <==> k in visits[..|visits| - 1] || k == last;
      if last in before then before else before + [last]
  }

  lemma {:induction false} DistinctHasNoRepeats(visits: seq<Key>)
    ensures NoRepeats(Distinct(visits))
  {
    if visits != [] {
      var before, last := Distinct(visits[..|visits| - 1]), visits[|visits| - 1];
      DistinctHasNoRepeats(visits[..|visits| - 1]);
      forall i, j
        ensures Differ(Distinct(visits), i, j)
      {
        assert Differ(before, i, j);
      }
    }
  }

  /** Items in the outer loop, topics in the inner one. */
  lemma {:induction false} ProductAt(items: seq<string>, topics: seq<string>, i: nat, j: nat)
    requires i < |items| && j < |topics|
    ensures |Product(items, topics)| == |items| * |topics|
    ensures i * |topics| + j < |items| * |topics| && Product(items, topics)[i * |topics| + j] == (items[i], topics[j])
  {
    ProductSize(items, topics);
    if i > 0 {
      ProductAt(items[1..], topics, i - 1, j);
      assert (i - 1) * |topics| + j == i * |topics| + j - |topics|;
    } else {
      ProductSize(items[1..], topics);
      assert |items| * |topics| == |topics| + (|items| - 1) * |topics|;
    }
  }

  lemma {:induction false} ProductSize(items: seq<string>, topics: seq<string>)
    ensures |Product(items, topics)| == |items| * |topics|
  {
    if items != [] {
      ProductSize(items[1..], topics);
      assert |items| * |topics| == |topics| + (|items| - 1) * |topics|;
    }
  }

  /** The keys are in the order of their first visits. */
  lemma {:induction false} DistinctInOrder(visits: seq<Key>, m: nat)
    requires m <= |visits|
    ensures Distinct(visits[..m]) <= Distinct(visits)
    decreases |visits| - m
  {
    if m == |visits| {
      assert visits[..m] == visits;
    } else {
      DistinctInOrder(visits, m + 1);
      assert visits[..m + 1][..m] == visits[..m];
    }
  }

  /** What a round of snapshots brings, oldest first. */
  function Brought(visits: seq<Key>, snapshots: seq<Snapshot>): Buffers
    requires |visits| == |snapshots|
  {
    if visits == [] then map[]
    else
      var n := |visits| - 1;
      var before := Brought(visits[..n], snapshots[..n]);
      match snapshots[n]
      case NoData => before
      case Data(d) => before[visits[n] := At(before, visits[n]) + Reverse(d)]
  }

  function OneVisit(visit: Key, snapshot: Snapshot, k: Key): seq<Datum> {
    if visit == k && snapshot.Data? then Reverse(snapshot.newestFirst) else []
  }

  /** What the visits of one stream bring, from the first visit on. */
  function BroughtTo(visits: seq<Key>, snapshots: seq<Snapshot>, k: Key): seq<Datum>
    requires |visits| == |snapshots|
  {
    if visits == [] then [] else OneVisit(visits[0], snapshots[0], k) + BroughtTo(visits[1..], snapshots[1..], k)
  }

  lemma BroughtFront(visit: Key, snapshot: Snapshot, visits: seq<Key>, snapshots: seq<Snapshot>, k: Key)
    requires |visits| == |snapshots|
    ensures BroughtTo([visit] + visits, [snapshot] + snapshots, k) == OneVisit(visit, snapshot, k) + BroughtTo(visits, snapshots, k)
  {
    assert ([visit] + visits)[1..] == visits && ([snapshot] + snapshots)[1..] == snapshots;
  }

  lemma FrontAndBack<T>(s: seq<T>, x: T)
    requires s != []
    ensures s == [s[0]] + s[1..] && s + [x] == [s[0]] + (s[1..] + [x])
  {
  }

  lemma {:induction false} BroughtToSum(visits: seq<Key>, snapshots: seq<Snapshot>, visit: Key, snapshot: Snapshot, k: Key)
    requires |visits| == |snapshots|
    ensures BroughtTo(visits + [visit], snapshots + [snapshot], k) == BroughtTo(visits, snapshots, k) + OneVisit(visit, snapshot, k)
    decreases |visits|
  {
    if |visits| == 0 {
      BroughtFront(visit, snapshot, [], [], k);
      assert visits + [visit] == [visit] + [] && snapshots + [snapshot] == [snapshot] + [];
    } else {
      var v, s := visits[1..], snapshots[1..];
      BroughtToSum(v, s, visit, snapshot, k);
      FrontAndBack(visits, visit);
      FrontAndBack(snapshots, snapshot);
      BroughtFront(visits[0], snapshots[0], v + [visit], s + [snapshot], k);
      BroughtFront(visits[0], snapshots[0], v, s, k);
      DataAssociate(OneVisit(visits[0], snapshots[0], k), BroughtTo(v, s, k), OneVisit(visit, snapshot, k));
    }
  }

  lemma BroughtLast(visits: seq<Key>, snapshots: seq<Snapshot>, k: Key)
    requires |visits| == |snapshots| > 0
    ensures var n := |visits| - 1;
            At(Brought(visits, snapshots), k) == At(Brought(visits[..n], snapshots[..n]), k) + OneVisit(visits[n], snapshots[n], k)
  {
    var n := |visits| - 1;
    assert At(Brought(visits[..n], snapshots[..n]), k) + [] == At(Brought(visits[..n], snapshots[..n]), k);
  }

  lemma DataAssociate(a: seq<Datum>, b: seq<Datum>, c: seq<Datum>)
    ensures a + (b + c) == a + b + c
  {
  }

  lemma BackAgain<T>(s: seq<T>)
    requires s != []
    ensures s[..|s| - 1] + [s[|s| - 1]] == s
  {
  }

  /** Every snapshot goes to its own stream, turned around, and after those before it. */
  lemma {:induction false} BroughtIs(visits: seq<Key>, snapshots: seq<Snapshot>, k: Key)
    requires |visits| == |snapshots|
    ensures At(Brought(visits, snapshots), k) == BroughtTo(visits, snapshots, k)
    decreases |visits|
  {
    if |visits| > 0 {
      var n := |visits| - 1;
      BroughtIs(visits[..n], snapshots[..n], k);
      BroughtLast(visits, snapshots, k);
      BroughtToSum(visits[..n], snapshots[..n], visits[n], snapshots[n], k);
      BackAgain(visits);
      BackAgain(snapshots);
    }
  }

  lemma BroughtOneMore(m: Buffers, visits: seq<Key>, snapshots: seq<Snapshot>, n: nat)
    requires n < |visits| == |snapshots| && visits[n] in m
    ensures var before := Extended(m, Brought(visits[..n], snapshots[..n]));
            && visits[n] in before
            && Extended(m, Brought(visits[..n + 1], snapshots[..n + 1])) ==
               match snapshots[n]
               case NoData => before
               case Data(d) => before[visits[n] := before[visits[n]] + Reverse(d)]
  {
    assert visits[..n + 1][..n] == visits[..n] && snapshots[..n + 1][..n] == snapshots[..n];
    match snapshots[n]
    case NoData =>
    case Data(d) => ExtendAt(m, Brought(visits[..n], snapshots[..n]), visits[n], Reverse(d));
  }

  function WithSnapshot(buffers: Buffers, k: Key, snapshot: Snapshot): Buffers {
    match snapshot
    case NoData => buffers
    case Data(d) => buffers[k := At(buffers, k) + Reverse(d)]
  }

  /** The loops over items and topics after n snapshots. */
  ghost predicate Appended(start: Buffers, visits: seq<Key>, snapshots: seq<Snapshot>, n: nat, buffers: Buffers) {
    n <= |visits| == |snapshots| && buffers == Extended(start, Brought(visits[..n], snapshots[..n]))
  }

  lemma AppendedOneMore(start: Buffers, visits: seq<Key>, snapshots: seq<Snapshot>, n: nat, buffers: Buffers)
    requires Appended(start, visits, snapshots, n, buffers) && n < |visits| && HasKeys(start, Distinct(visits))
    ensures visits[n] in buffers
    ensures Appended(start, visits, snapshots, n + 1, WithSnapshot(buffers, visits[n], snapshots[n]))
  {
    assert KeyAt(start, Distinct(visits), visits[n]);
    BroughtOneMore(start, visits, snapshots, n);
  }

  lemma AppendedAll(start: Buffers, visits: seq<Key>, snapshots: seq<Snapshot>, buffers: Buffers)
    requires |visits| == |snapshots|
    ensures Appended(start, visits, snapshots, 0, start)
    ensures Appended(start, visits, snapshots, |visits|, buffers) ==> buffers == Extended(start, Brought(visits, snapshots))
  {
    NothingBrought(start);
    assert visits[..|visits|] == visits && snapshots[..|visits|] == snapshots;
  }

  lemma ExtendAt(m: Buffers, more: Buffers, k: Key, x: seq<Datum>)
    requires k in m
    ensures Extended(m, more[k := At(more, k) + x]) == Extended(m, more)[k := At(m, k) + At(more, k) + x]
  {
    assert At(m, k) + (At(more, k) + x) == At(m, k) + At(more, k) + x;
  }

  lemma NothingBrought(m: Buffers)
    ensures Extended(m, map[]) == m
  {
    assert forall k :: k in m ==> At(m, k) + [] == m[k];
  }

  /** Whether a round has brought enough: data of all streams, or of any. */
  predicate Ready(keys: seq<Key>, buffers: Buffers, guarantee: bool) {
    if guarantee then forall k :: k in keys ==> At(buffers, k) != [] else exists k :: k in keys && At(buffers, k) != []
  }

  /** With the guarantee a silent stream holds up the others, without it none does. */
  lemma ReadyMeans(keys: seq<Key>, buffers: Buffers)
    ensures Ready(keys, buffers, true) <==> forall k :: k in keys ==> At(buffers, k) != []
    ensures Ready(keys, buffers, false) <==> exists k :: k in keys && At(buffers, k) != []
  {
  }

  /** As `Kept`, for the streams already visited. */
  function KeptOf(m: Buffers, done: seq<Key>, cutoff: int): Buffers {
    map k | k in m :: if k in done then At(m, k)[|UpTo(At(m, k), cutoff)|..] else At(m, k)
  }

  lemma KeptOneMore(m: Buffers, keys: seq<Key>, n: nat, cutoff: int)
    requires n < |keys| && keys[n] in m && NoRepeats(keys)
    ensures At(KeptOf(m, keys[..n], cutoff), keys[n]) == At(m, keys[n])
    ensures keys[n] in KeptOf(m, keys[..n], cutoff)
    ensures KeptOf(m, keys[..n + 1], cutoff) == KeptOf(m, keys[..n], cutoff)[keys[n] := At(m, keys[n])[|UpTo(At(m, keys[n]), cutoff)|..]]
  {
    NoRepeatsBefore(keys, n);
    assert keys[..n + 1] == keys[..n] + [keys[n]];
  }

  lemma GoodOneMore(m: Buffers, keys: seq<Key>, n: nat, cutoff: int)
    requires n < |keys|
    ensures Good(keys[..n + 1], m, cutoff) == Good(keys[..n], m, cutoff) + Tagged(keys[n], UpTo(At(m, keys[n]), cutoff))
  {
    assert keys[..n + 1][..n] == keys[..n];
  }

  ghost predicate HasKeys(m: Buffers, keys: seq<Key>) {
    forall k :: KeyAt(m, keys, k)
  }

  ghost predicate KeyAt(m: Buffers, keys: seq<Key>, k: Key) {
    k in m <==> k in keys
  }

  lemma KeptOfAll(m: Buffers, keys: seq<Key>, cutoff: int)
    requires HasKeys(m, keys)
    ensures KeptOf(m, keys, cutoff) == Kept(m, cutoff) && KeptOf(m, [], cutoff) == m
  {
    assert forall k :: k in m ==> KeyAt(m, keys, k);
  }

  /** The collecting loop after n streams. */
  ghost predicate Collected(start: Buffers, keys: seq<Key>, n: nat, cutoff: int, good: seq<Tick>, buffers: Buffers) {
    && n <= |keys|
    && good == Good(keys[..n], start, cutoff)
    && buffers == KeptOf(start, keys[..n], cutoff)
  }

  lemma CollectOneMore(start: Buffers, keys: seq<Key>, n: nat, cutoff: int, good: seq<Tick>, buffers: Buffers)
    requires Collected(start, keys, n, cutoff, good, buffers)
    requires n < |keys| && HasKeys(start, keys) && NoRepeats(keys)
    ensures keys[n] in buffers
    ensures var taken := UpTo(At(buffers, keys[n]), cutoff);
            Collected(start, keys, n + 1, cutoff, good + Tagged(keys[n], taken),
                      buffers[keys[n] := At(buffers, keys[n])[|taken|..]])
  {
    assert KeyAt(start, keys, keys[n]);
    KeptOneMore(start, keys, n, cutoff);
    GoodOneMore(start, keys, n, cutoff);
  }

  lemma CollectedAll(start: Buffers, keys: seq<Key>, cutoff: int, good: seq<Tick>, buffers: Buffers)
    requires HasKeys(start, keys)
    ensures Collected(start, keys, 0, cutoff, [], start)
    ensures Collected(start, keys, |keys|, cutoff, good, buffers) ==>
              good == Good(keys, start, cutoff) && buffers == Kept(start, cutoff)
  {
    KeptOfAll(start, keys, cutoff);
    assert keys[..|keys|] == keys && keys[..0] == [];
  }

  /** What was pulled after some more rounds. */
  function PulledAfter(pulled: Buffers, visits: seq<Key>, polls: seq<Poll>): Buffers {
    if polls == [] then pulled
    else
      var before, snapshots := PulledAfter(pulled, visits, polls[..|polls| - 1]), polls[|polls| - 1].snapshots;
      if |snapshots| == |visits| then Extended(before, Brought(visits, snapshots)) else before
  }

  lemma PulledOneMore(pulled: Buffers, visits: seq<Key>, polls: seq<Poll>, p: nat)
    requires p < |polls| && |polls[p].snapshots| == |visits|
    ensures PulledAfter(pulled, visits, polls[..p + 1]) ==
            Extended(PulledAfter(pulled, visits, polls[..p]), Brought(visits, polls[p].snapshots))
  {
    assert polls[..p + 1][..p] == polls[..p];
  }

  /** After so many rounds there is not enough. */
  ghost predicate NotYet(start: Buffers, visits: seq<Key>, keys: seq<Key>, guarantee: bool, polls: seq<Poll>, rounds: nat)
    requires rounds <= |polls|
  {
    !Ready(keys, PulledAfter(start, visits, polls[..rounds]), guarantee)
  }

  /** A call after so many rounds, of which only the last may have brought enough: all that was
      pulled is buffered. */
  ghost predicate Gathered(g: Log, now: Log, visits: seq<Key>, keys: seq<Key>, guarantee: bool, polls: seq<Poll>, rounds: nat) {
    && rounds <= |polls| && now.timeline == g.timeline && now.sent == g.sent
    && now.pulled == PulledAfter(g.pulled, visits, polls[..rounds])
    && now.buffers == PulledAfter(g.buffers, visits, polls[..rounds])
    && forall p :: 1 <= p < rounds ==> NotYet(g.buffers, visits, keys, guarantee, polls, p)
  }

  lemma GatheredOneMore(g: Log, now: Log, visits: seq<Key>, keys: seq<Key>, guarantee: bool, polls: seq<Poll>, n: nat)
    requires Gathered(g, now, visits, keys, guarantee, polls, n) && n < |polls| && |polls[n].snapshots| == |visits|
    requires n > 0 ==> !Ready(keys, now.buffers, guarantee)
    ensures Gathered(g, AfterPull(now, Brought(visits, polls[n].snapshots)), visits, keys, guarantee, polls, n + 1)
  {
    PulledOneMore(g.pulled, visits, polls, n);
    PulledOneMore(g.buffers, visits, polls, n);
    assert n > 0 ==> NotYet(g.buffers, visits, keys, guarantee, polls, n);
  }

  function NothingYet(keys: seq<Key>): Log {
    var empty: Buffers := map k | k in keys :: [];
    Log(empty, empty, empty, [], 0)
  }

  lemma NothingYetIsSound(keys: seq<Key>, guarantee: bool)
    ensures Sound(NothingYet(keys), keys, guarantee)
  {
  }

  lemma SoundHasKeys(g: Log, keys: seq<Key>, guarantee: bool)
    requires Sound(g, keys, guarantee)
    ensures HasKeys(g.buffers, keys)
  {
    forall k
      ensures KeyAt(g.buffers, keys, k)
    {
      assert StreamSound(g, keys, k);
    }
  }

  /** Either way a round that was enough may end. */
  lemma RoundIsSound(g: Log, keys: seq<Key>, guarantee: bool)
    requires Sound(g, keys, guarantee) && NoRepeats(keys) && Ready(keys, g.buffers, guarantee)
    ensures var cutoff := Cutoff(keys, g.buffers);
            var good := Good(keys, g.buffers, cutoff);
            if good == [] then Kept(g.buffers, cutoff) == g.buffers
            else Sound(AfterBatch(g, keys), keys, guarantee) && ProperBatch(SortedByTime(good), cutoff)
  {
    var cutoff := Cutoff(keys, g.buffers);
    if Good(keys, g.buffers, cutoff) == [] {
      SoundHasKeys(g, keys, guarantee);
      assert forall k :: k in g.buffers ==> KeyAt(g.buffers, keys, k);
      NothingTaken(keys, g.buffers, cutoff);
    } else {
      BatchIsSorted(keys, g.buffers, cutoff);
      BatchKeepsSound(g, keys, guarantee);
    }
  }

  class Session {
    const visits: seq<Key>
    const keys: seq<Key>
    const guarantee: bool
    var buffers: Buffers
    var cutoff: int
    ghost var log: Log

    ghost predicate Valid()
      reads this
    {
      && keys == Distinct(visits)
      && log.buffers == buffers
      && Sound(log, keys, guarantee)
    }

    constructor (items: seq<string>, topics: seq<string>, guarantee: bool)
      ensures Valid() && visits == Product(items, topics) && this.guarantee == guarantee
      ensures log == NothingYet(Distinct(Product(items, topics)))
    {
      NothingYetIsSound(Distinct(Product(items, topics)), guarantee);
      visits := Product(items, topics);
      keys := Distinct(Product(items, topics));
      this.guarantee := guarantee;
      buffers := map k | k in Distinct(Product(items, topics)) :: [];
      cutoff := 0;
      log := NothingYet(Distinct(Product(items, topics)));
    }

    /** The two nested loops over items and topics. */
    method Pull(snapshots: seq<Snapshot>)
      requires Valid() && |snapshots| == |visits|
      modifies this`buffers, this`log
      ensures Valid() && log == AfterPull(old(log), Brought(visits, snapshots))
    {
      PullKeepsSound(log, Brought(visits, snapshots), keys, guarantee);
      SoundHasKeys(log, keys, guarantee);
      AppendSnapshots(snapshots);
      log := AfterPull(log, Brought(visits, snapshots));
    }

    method AppendSnapshots(snapshots: seq<Snapshot>)
      requires HasKeys(buffers, Distinct(visits)) && |snapshots| == |visits|
      modifies this`buffers
      ensures buffers == Extended(old(buffers), Brought(visits, snapshots))
    {
      ghost var start := buffers;
      AppendedAll(start, visits, snapshots, start);
      for n := 0 to |visits|
        invariant Appended(start, visits, snapshots, n, buffers)
      {
        AppendedOneMore(start, visits, snapshots, n, buffers);
        AppendOne(visits[n], snapshots[n]);
      }
      AppendedAll(start, visits, snapshots, buffers);
    }

    /** Turned around, at the end of the stream's buffer. */
    method AppendOne(k: Key, snapshot: Snapshot)
      requires k in buffers
      modifies this`buffers
      ensures buffers == WithSnapshot(old(buffers), k, snapshot)
    {
      match snapshot
      case NoData =>
      case Data(dat) =>
        buffers := buffers[k := buffers[k] + Reverse(dat)];
    }

    /** Of the newest datum of each stream, the oldest. */
    method FindCutoff() returns (found: int)
      ensures found == Cutoff(keys, buffers)
    {
      var oldest := INT_MAX;
      for n := 0 to |keys|
        invariant oldest == OldestNew(keys[..n], buffers)
      {
        assert keys[..n + 1][..n] == keys[..n];
        var v := At(buffers, keys[n]);
        if v != [] && v[|v| - 1].time < oldest {
          oldest := v[|v| - 1].time;
        }
      }
      assert keys[..|keys|] == keys;
      found := if oldest != INT_MAX then oldest else 0;
    }

    /** Everything at or before the cutoff goes from the buffers to the batch. */
    method Collect() returns (good: seq<Tick>)
      requires HasKeys(buffers, keys) && NoRepeats(keys)
      modifies this`buffers
      ensures good == Good(keys, old(buffers), cutoff)
      ensures buffers == Kept(old(buffers), cutoff)
    {
      ghost var start := buffers;
      CollectedAll(start, keys, cutoff, [], start);
      good := [];
      for n := 0 to |keys|
        invariant Collected(start, keys, n, cutoff, good, buffers)
      {
        CollectOneMore(start, keys, n, cutoff, good, buffers);
        var found := TakeFrom(keys[n]);
        good := good + found;
      }
      CollectedAll(start, keys, cutoff, good, buffers);
    }

    method TakeRound() returns (good: seq<Tick>)
      requires HasKeys(buffers, keys) && NoRepeats(keys)
      modifies this`buffers, this`cutoff
      ensures cutoff == Cutoff(keys, old(buffers))
      ensures good == Good(keys, old(buffers), cutoff)
      ensures buffers == Kept(old(buffers), cutoff)
    {
      cutoff := FindCutoff();
      good := Collect();
    }

    method TakeFrom(k: Key) returns (found: seq<Tick>)
      requires k in buffers
      modifies this`buffers
      ensures found == Tagged(k, UpTo(old(At(buffers, k)), cutoff))
      ensures buffers == old(buffers)[k := old(At(buffers, k))[|found|..]]
    {
      found := GoodOf(k, buffers[k]);
      buffers := buffers[k := buffers[k][|found|..]];
    }

    /** The inner loop, which counts while it collects. */
    method GoodOf(k: Key, v: seq<Datum>) returns (good: seq<Tick>)
      ensures good == Tagged(k, UpTo(v, cutoff))
    {
      good := [];
      for j := 0 to |v|
        invariant good == Tagged(k, UpTo(v[..j], cutoff))
      {
        assert v[..j + 1][..j] == v[..j];
        if v[j].time <= cutoff {
          good := good + [Tick(k, v[j])];
        }
      }
      assert v[..|v|] == v;
    }

    /** One call: rounds of snapshots until there is enough, or the time is up. What is
        in a batch is the end of the timeline, turned around. */
    method Next(polls: seq<Poll>) returns (r: Outcome, ghost rounds: nat)
      requires Valid() && forall p :: 0 <= p < |polls| ==> |polls[p].snapshots| == |visits|
      modifies this
      ensures Valid() && rounds <= |polls|
      ensures log.pulled == PulledAfter(old(log.pulled), visits, polls[..rounds])
      ensures forall p :: 1 <= p < rounds ==> NotYet(old(buffers), visits, keys, guarantee, polls, p)
      ensures var held := PulledAfter(old(buffers), visits, polls[..rounds]);
              && (r.Batch? ==> BatchRight(r.ticks, keys, held))
              && (!r.Batch? ==> buffers == held)
              && (rounds > 0 ==> (Ready(keys, held, guarantee) <==> r.Batch? || r.AssertionFailed?))
      ensures r.Batch? ==> ProperBatch(r.ticks, cutoff) && log.timeline == old(log.timeline) + Reverse(r.ticks)
      ensures !r.Batch? ==> log.timeline == old(log.timeline) && log.sent == old(log.sent)
      ensures r.AssertionFailed? ==> OffScale(keys, buffers)
      ensures r.Waiting? ==> rounds == |polls| && (polls == [] || !Ready(keys, buffers, guarantee))
      ensures r.TimedOut? ==> 0 < rounds && polls[rounds - 1].timedOut && !Ready(keys, buffers, guarantee)
    {
      var enough, timedOut;
      enough, timedOut, rounds := Gather(polls);
      if enough {
        r := Deliver();
      } else {
        r := if timedOut then TimedOut else Waiting;
      }
    }

    /** Rounds of snapshots until there is enough, or the time is up, or the polls are. */
    method Gather(polls: seq<Poll>) returns (enough: bool, timedOut: bool, ghost rounds: nat)
      requires Valid() && forall p :: 0 <= p < |polls| ==> |polls[p].snapshots| == |visits|
      modifies this`buffers, this`log
      ensures Valid() && Gathered(old(log), log, visits, keys, guarantee, polls, rounds)
      ensures enough <==> rounds > 0 && Ready(keys, buffers, guarantee)
      ensures timedOut ==> !enough && 0 < rounds && polls[rounds - 1].timedOut
      ensures !enough && !timedOut ==> rounds == |polls|
    {
      rounds := 0;
      assert polls[..0] == [];
      for n := 0 to |polls|
        invariant rounds == n && Valid() && Gathered(old(log), log, visits, keys, guarantee, polls, n)
        invariant n > 0 ==> !Ready(keys, buffers, guarantee)
      {
        GatheredOneMore(old(log), log, visits, keys, guarantee, polls, n);
        Pull(polls[n].snapshots);
        rounds := n + 1;
        if Ready(keys, buffers, guarantee) {
          return true, false, rounds;
        }
        if polls[n].timedOut {
          return false, true, rounds;
        }
      }
      return false, false, rounds;
    }

    method Deliver() returns (r: Outcome)
      requires Valid() && Ready(keys, buffers, guarantee)
      modifies this
      ensures Valid()
      ensures r.Batch? ==> log == AfterBatch(old(log), keys) && ProperBatch(r.ticks, cutoff)
      ensures r.Batch? ==> r.ticks == SortedByTime(Good(keys, old(buffers), Cutoff(keys, old(buffers))))
      ensures r.Batch? ==> BatchRight(r.ticks, keys, old(buffers))
      ensures !r.Batch? ==> r.AssertionFailed? && log == old(log)
      ensures r.AssertionFailed? <==> OffScale(keys, old(buffers))
    {
      DistinctHasNoRepeats(visits);
      BatchIsRight(keys, buffers);
      AssertionFiresExactly(keys, buffers);
      r := DeliverBatch();
    }

    method DeliverBatch() returns (r: Outcome)
      requires Valid() && Ready(keys, buffers, guarantee)
      modifies this
      ensures Valid()
      ensures r.Batch? ==> log == AfterBatch(old(log), keys) && ProperBatch(r.ticks, cutoff)
      ensures r.Batch? ==> r.ticks == SortedByTime(Good(keys, old(buffers), Cutoff(keys, old(buffers))))
      ensures !r.Batch? ==> r.AssertionFailed? && log == old(log)
      ensures r.AssertionFailed? <==> Good(keys, old(buffers), Cutoff(keys, old(buffers))) == []
    {
      DistinctHasNoRepeats(visits);
      SoundHasKeys(log, keys, guarantee);
      RoundIsSound(log, keys, guarantee);
      var good := TakeRound();
      if good == [] {
        r := AssertionFailed;
      } else {
        log := AfterBatch(log, keys);
        r := Batch(SortedByTime(good));
      }
    }
  }

  /** A session without items or without topics is refused. */
  method Open(items: seq<string>, topics: seq<string>, guarantee: bool) returns (r: Session?)
    ensures r == null <==> items == [] || topics == []
    ensures r != null ==> fresh(r) && r.Valid() && r.guarantee == guarantee && r.keys != []
    ensures r != null ==> forall i, t :: i in items && t in topics ==> (i, t) in r.keys
  {
    if items == [] || topics == [] {
      return null;
    }
    r := new Session(items, topics, guarantee);
    forall i, t | i in items && t in topics
      ensures (i, t) in r.keys
    {
      ProductHasAll(items, topics, i, t);
    }
    assert (items[0], topics[0]) in r.keys;
  }

  lemma {:induction false} ProductHasAll(items: seq<string>, topics: seq<string>, i: string, t: string)
    requires i in items && t in topics
    ensures (i, t) in Product(items, topics)
  {
    if i == items[0] {
      var j :| 0 <= j < |topics| && topics[j] == t;
      assert Product(items, topics)[j] == (i, t);
    } else {
      ProductHasAll(items[1..], topics, i, t);
    }
  }
}
