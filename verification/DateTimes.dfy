/**
  Date-times and their differences (python/tosdb/_common.py).

  A date-time is its seconds since the epoch, which the original caches beside the calendar
  fields, and its microseconds. Local time and the epoch are taken to be inverse to each
  other, so the calendar fields are a function of the seconds.
*/
module DateTimes {
  import opened Basics
  import Arithmetic

  const M := 1000000

  datatype DateTime = DateTime(mktime: int, micro: int)

  datatype Difference = Difference(micro: int, sec: int, min: int, hour: int, day: int, sign: char)

  function Total(dt: DateTime): int {
    dt.mktime * M + dt.micro
  }

  predicate Normal(dt: DateTime) {
    0 <= dt.micro < M
  }

  // ---------------------------------------------------------------------------
  // Operators
  // ---------------------------------------------------------------------------

  /** From a calendar time. */
  function New(seconds: int, micro: int): DateTime {
    DateTime(seconds, if micro != 0 then micro % M else micro)
  }

  /** The engine's time stamp: seconds, and microseconds since the last full one. */
  datatype Stamp = Stamp(seconds: int, micro: int)

  function EngineStamp(clock: int): Stamp {
    Stamp(Arithmetic.TruncDiv(clock, M), Arithmetic.TruncRem(clock, M))
  }

  /** From a native time stamp, whose microseconds are taken as they are. */
  function OfStamp(stamp: Stamp): DateTime {
    DateTime(stamp.seconds, stamp.micro)
  }

  function Add(dt: DateTime, n: int): DateTime {
    var sec, micro := n / M, dt.micro + n % M;
    if micro >= M then New(dt.mktime + sec + 1, micro - M) else New(dt.mktime + sec, micro)
  }

  function Subtract(dt: DateTime, n: int): DateTime {
    if n < 0 then Add(dt, -n)
    else
      var sec, micro := n / M, dt.micro - n % M;
      if micro < 0 then New(dt.mktime - (sec + 1), micro + M) else New(dt.mktime - sec, micro)
  }

  function Compare(a: DateTime, b: DateTime): int {
    var seconds := a.mktime - b.mktime;
    var diff := if seconds == 0 then a.micro - b.micro else seconds;
    if diff < 0 then -1 else if diff > 0 then 1 else 0
  }

  function MicroToDtd(n: int): Difference {
    var t := if n < 0 then -n else n;
    var sec := t / M;
    var min := sec / 60;
    var hour := min / 60;
    Difference(t % M, sec % 60, min % 60, hour % 24, hour / 24, if n < 0 then '-' else '+')
  }

  function Minus(a: DateTime, b: DateTime): Difference {
    MicroToDtd((a.mktime - b.mktime) * M + (a.micro - b.micro))
  }

  function Magnitude(d: Difference): int {
    (((d.day * 24 + d.hour) * 60 + d.min) * 60 + d.sec) * M + d.micro
  }

  /** A sign that is neither is an error. */
  function DtdToMicro(d: Difference): Option<int> {
    if d.sign == '+' then Some(Magnitude(d)) else if d.sign == '-' then Some(Magnitude(d) * -1) else None
  }

  // ---------------------------------------------------------------------------
  // Laws
  // ---------------------------------------------------------------------------

  lemma AddShiftsExactly(dt: DateTime, n: int)
    ensures Total(Add(dt, n)) == Total(dt) + n <==> 0 <= dt.micro + n % M < 2 * M
    ensures Normal(Add(dt, n))
  {
  }

  lemma SubtractShiftsExactly(dt: DateTime, n: int)
    ensures Total(Subtract(dt, n)) == Total(dt) - n <==>
            if n < 0 then 0 <= dt.micro + -n % M < 2 * M else -M <= dt.micro - n % M < M
    ensures Normal(Subtract(dt, n))
  {
  }

  /** Every number of microseconds shifts a date-time by just that much if and only if its own
      microseconds are in range, or one past it. */
  lemma AlwaysShiftsExactly(dt: DateTime)
    ensures (forall n :: Total(Add(dt, n)) == Total(dt) + n) <==> 0 <= dt.micro <= M
  {
    if 0 <= dt.micro <= M {
      forall n
        ensures Total(Add(dt, n)) == Total(dt) + n
      {
        AddShiftsExactly(dt, n);
      }
    } else {
      AddShiftsExactly(dt, 0);
      AddShiftsExactly(dt, M - 1);
      assert (M - 1) % M == M - 1;
    }
  }

  lemma TotalDetermines(a: DateTime, b: DateTime)
    requires Normal(a) && Normal(b) && Total(a) == Total(b)
    ensures a == b
  {
  }

  lemma ShiftsCompose(dt: DateTime, m: int, n: int)
    requires Normal(dt)
    ensures Add(Add(dt, m), n) == Add(dt, m + n)
  {
    AddShiftsExactly(dt, m);
    AddShiftsExactly(dt, m + n);
    AddShiftsExactly(Add(dt, m), n);
    TotalDetermines(Add(Add(dt, m), n), Add(dt, m + n));
  }

  lemma SubtractIsAdd(dt: DateTime, n: int)
    requires Normal(dt)
    ensures Subtract(dt, n) == Add(dt, -n)
  {
    SubtractShiftsExactly(dt, n);
    AddShiftsExactly(dt, -n);
    TotalDetermines(Subtract(dt, n), Add(dt, -n));
  }

  lemma AddNothing(dt: DateTime)
    requires Normal(dt)
    ensures Add(dt, 0) == dt
  {
  }

  /** Adding and subtracting act on date-times as the integers do on themselves. */
  lemma ShiftsAdd(dt: DateTime, m: int, n: int)
    requires Normal(dt)
    ensures Add(Add(dt, m), n) == Add(dt, m + n)
    ensures Subtract(Add(dt, n), n) == dt && Add(Subtract(dt, n), n) == dt
    ensures Subtract(dt, n) == Add(dt, -n)
  {
    AddShiftsExactly(dt, n);
    AddNothing(dt);
    ShiftsCompose(dt, m, n);
    SubtractIsAdd(dt, n);
    SubtractIsAdd(Add(dt, n), n);
    ShiftsCompose(dt, n, -n);
    ShiftsCompose(dt, -n, n);
  }

  lemma CompareIsByTotal(a: DateTime, b: DateTime)
    requires Normal(a) && Normal(b)
    ensures Compare(a, b) < 0 <==> Total(a) < Total(b)
    ensures Compare(a, b) > 0 <==> Total(a) > Total(b)
    ensures Compare(a, b) == 0 <==> a == b
    ensures Compare(a, b) in {-1, 0, 1} && Compare(a, b) + Compare(b, a) == 0
  {
  }

  lemma LaterByMore(dt: DateTime, m: int, n: int)
    requires Normal(dt)
    ensures Compare(Add(dt, m), Add(dt, n)) < 0 <==> m < n
  {
    AddShiftsExactly(dt, m);
    AddShiftsExactly(dt, n);
    CompareIsByTotal(Add(dt, m), Add(dt, n));
  }

  /** Every field in its range, and zero is not negative. */
  predicate Canonical(d: Difference) {
    && 0 <= d.micro < M && 0 <= d.sec < 60 && 0 <= d.min < 60 && 0 <= d.hour < 24 && 0 <= d.day
    && (d.sign == '+' || (d.sign == '-' && Magnitude(d) > 0))
  }

  lemma MicrosComeBack(n: int)
    ensures DtdToMicro(MicroToDtd(n)) == Some(n)
    ensures Canonical(MicroToDtd(n))
  {
  }

  lemma CanonicalDetermined(a: Difference, b: Difference)
    requires Canonical(a) && Canonical(b) && Magnitude(a) == Magnitude(b) && a.sign == b.sign
    ensures a == b
  {
    FieldsOf(a);
    FieldsOf(b);
  }

  lemma FieldsOf(d: Difference)
    requires Canonical(d)
    ensures var sec := Magnitude(d) / M;
            var min := sec / 60;
            var hour := min / 60;
            && d.micro == Magnitude(d) % M && d.sec == sec % 60 && d.min == min % 60
            && d.hour == hour % 24 && d.day == hour / 24
  {
    Arithmetic.DivModUnique((((d.day * 24 + d.hour) * 60 + d.min) * 60 + d.sec) * M + d.micro, ((d.day * 24 + d.hour) * 60 + d.min) * 60 + d.sec, d.micro, M);
    Arithmetic.DivModUnique(((d.day * 24 + d.hour) * 60 + d.min) * 60 + d.sec, (d.day * 24 + d.hour) * 60 + d.min, d.sec, 60);
    Arithmetic.DivModUnique((d.day * 24 + d.hour) * 60 + d.min, d.day * 24 + d.hour, d.min, 60);
    Arithmetic.DivModUnique(d.day * 24 + d.hour, d.day, d.hour, 24);
  }

  /** A difference survives the way to microseconds and back exactly if it is canonical. */
  lemma DifferenceComesBackExactly(d: Difference)
    requires DtdToMicro(d).Some?
    ensures MicroToDtd(DtdToMicro(d).value) == d <==> Canonical(d)
  {
    var n := DtdToMicro(d).value;
    MicrosComeBack(n);
    if Canonical(d) {
      assert MicroToDtd(n).sign == d.sign by {
        assert Magnitude(d) >= 0;
      }
      CanonicalDetermined(MicroToDtd(n), d);
    }
  }

  /** The difference of two date-times is that of their totals, and undoes adding. */
  lemma DifferenceOfSum(dt: DateTime, other: DateTime, n: int)
    ensures DtdToMicro(Minus(dt, other)) == Some(Total(dt) - Total(other))
    ensures Normal(dt) ==> DtdToMicro(Minus(Add(dt, n), dt)) == Some(n)
  {
    MicrosComeBack(Total(dt) - Total(other));
    assert Total(dt) - Total(other) == (dt.mktime - other.mktime) * M + (dt.micro - other.micro);
    if Normal(dt) {
      AddShiftsExactly(dt, n);
      var sum := Add(dt, n);
      assert Total(sum) - Total(dt) == (sum.mktime - dt.mktime) * M + (sum.micro - dt.micro);
      MicrosComeBack(n);
    }
  }

  /** Every way to come by a date-time: from the engine's clock, from a calendar time with
      microseconds, from another one, and by moving one. */
  datatype Origin =
    | Stamped(clock: nat)
    | Calendar(seconds: int, micro: int)
    | Copied(origin: Origin)
    | Later(origin: Origin, n: int)
    | Earlier(origin: Origin, n: int)

  function Made(o: Origin): DateTime {
    match o
    case Stamped(clock) => OfStamp(EngineStamp(clock))
    case Calendar(seconds, micro) => New(seconds, micro)
    case Copied(origin) => Made(origin)
    case Later(origin, n) => Add(Made(origin), n)
    case Earlier(origin, n) => Subtract(Made(origin), n)
  }

  /** The microseconds since the epoch that are meant. */
  function Meant(o: Origin): int {
    match o
    case Stamped(clock) => clock
    case Calendar(seconds, micro) => seconds * M + micro % M
    case Copied(origin) => Meant(origin)
    case Later(origin, n) => Meant(origin) + n
    case Earlier(origin, n) => Meant(origin) - n
  }

  /** However a date-time was made, its microseconds are in range and its total is the one
      meant. So the condition of exact shifting is always met. */
  lemma {:induction false} EveryDateTime(o: Origin)
    ensures Normal(Made(o)) && Total(Made(o)) == Meant(o)
  {
    match o
    case Stamped(clock) =>
    case Calendar(_, _) =>
    case Copied(origin) => EveryDateTime(origin);
    case Later(origin, n) =>
      EveryDateTime(origin);
      AddShiftsExactly(Made(origin), n);
    case Earlier(origin, n) =>
      EveryDateTime(origin);
      SubtractShiftsExactly(Made(origin), n);
  }
}
