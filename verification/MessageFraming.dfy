/**
  The messages between a virtual client and the hub: parts joined by a delimiter byte that
  is stuffed out of the parts themselves, sent after their length over a stream socket
  (python/tosdb/__init__.py, python/tosdb/_common.py).
*/
module MessageFraming {
  import opened Basics

  type Byte = b: int | 0 <= b < 256
  type Bytes = seq<Byte>

  const DELIM: Byte := 0x7E
  const ESC: Byte := 0x7D
  const DEXOR: Byte := 0x03
  const EEXOR: Byte := 0x00

  // ---------------------------------------------------------------------------
  // Stuffing, in two passes each way
  // ---------------------------------------------------------------------------

  /** Every occurrence of a pattern replaced, from the left and without overlaps. */
  function Substitute(pattern: Bytes, substitute: Bytes, s: Bytes): Bytes
    requires pattern != []
  {
    if |s| < |pattern| then s
    else if s[..|pattern|] == pattern then substitute + Substitute(pattern, substitute, s[|pattern|..])
    else [s[0]] + Substitute(pattern, substitute, s[1..])
  }

  function EscapePart(part: Bytes): Bytes {
    Substitute([DELIM], [ESC, DEXOR], Substitute([ESC], [ESC, EEXOR], part))
  }

  function UnescapePart(part: Bytes): Bytes {
    Substitute([ESC, EEXOR], [ESC], Substitute([ESC, DEXOR], [DELIM], part))
  }

  /** What both passes make of one byte. */
  function Code(b: Byte): Bytes {
    if b == ESC then [ESC, EEXOR] else if b == DELIM then [ESC, DEXOR] else [b]
  }

  function Coded(part: Bytes): Bytes {
    if part == [] then [] else Code(part[0]) + Coded(part[1..])
  }

  /** Bytes that could have come from stuffing: no delimiter, and every escape completed. */
  predicate Stuffed(s: Bytes) {
    s == [] ||
    if s[0] == ESC then |s| > 1 && (s[1] == EEXOR || s[1] == DEXOR) && Stuffed(s[2..])
    else s[0] != DELIM && Stuffed(s[1..])
  }

  lemma {:induction false} EscapeIsOnePass(part: Bytes)
    ensures EscapePart(part) == Coded(part)
  {
    if part != [] {
      EscapeIsOnePass(part[1..]);
      var rest := Substitute([ESC], [ESC, EEXOR], part[1..]);
      if part[0] == ESC {
        assert ([ESC, EEXOR] + rest)[1..] == [EEXOR] + rest && ([EEXOR] + rest)[1..] == rest;
        assert Substitute([DELIM], [ESC, DEXOR], [EEXOR] + rest) == [EEXOR] + Substitute([DELIM], [ESC, DEXOR], rest);
      } else {
        assert ([part[0]] + rest)[1..] == rest;
      }
    }
  }

  /** The code, in numbers. */
  lemma CodeIs(b: Byte)
    ensures Code(b) == if b == 0x7D then [0x7D, 0x00] else if b == 0x7E then [0x7D, 0x03] else [b]
  {
  }

  /** After the first pass of the way back only the escape bytes are still stuffed. */
  function HalfCoded(part: Bytes): Bytes {
    if part == [] then [] else (if part[0] == ESC then [ESC, EEXOR] else [part[0]]) + HalfCoded(part[1..])
  }

  lemma SubstituteHit(pattern: Bytes, substitute: Bytes, rest: Bytes)
    requires pattern != []
    ensures Substitute(pattern, substitute, pattern + rest) == substitute + Substitute(pattern, substitute, rest)
  {
  }

  lemma SubstituteMiss(pattern: Bytes, substitute: Bytes, b: Byte, rest: Bytes)
    requires |pattern| == 2 && (b != pattern[0] || rest == [] || rest[0] != pattern[1])
    ensures Substitute(pattern, substitute, [b] + rest) == [b] + Substitute(pattern, substitute, rest)
  {
  }

  /** One byte's code through the first pass back. */
  lemma FirstPassOne(b: Byte, rest: Bytes)
    ensures Substitute([ESC, DEXOR], [DELIM], Code(b) + rest) ==
            (if b == ESC then [ESC, EEXOR] else [b]) + Substitute([ESC, DEXOR], [DELIM], rest)
  {
    if b == DELIM {
      SubstituteHit([ESC, DEXOR], [DELIM], rest);
    } else if b == ESC {
      assert [ESC, EEXOR] + rest == [ESC] + ([EEXOR] + rest);
      SubstituteMiss([ESC, DEXOR], [DELIM], ESC, [EEXOR] + rest);
      SubstituteMiss([ESC, DEXOR], [DELIM], EEXOR, rest);
      var done := Substitute([ESC, DEXOR], [DELIM], rest);
      assert [ESC] + ([EEXOR] + done) == [ESC, EEXOR] + done;
    } else {
      SubstituteMiss([ESC, DEXOR], [DELIM], b, rest);
    }
  }

  lemma {:induction false} FirstPassBack(part: Bytes)
    ensures Substitute([ESC, DEXOR], [DELIM], Coded(part)) == HalfCoded(part)
  {
    if part != [] {
      FirstPassBack(part[1..]);
      FirstPassOne(part[0], Coded(part[1..]));
    }
  }

  lemma {:induction false} SecondPassBack(part: Bytes)
    ensures Substitute([ESC, EEXOR], [ESC], HalfCoded(part)) == part
  {
    if part != [] {
      SecondPassBack(part[1..]);
      if part[0] == ESC {
        SubstituteHit([ESC, EEXOR], [ESC], HalfCoded(part[1..]));
      } else {
        SubstituteMiss([ESC, EEXOR], [ESC], part[0], HalfCoded(part[1..]));
      }
    }
  }

  /** Two passes back undo two passes there, on all bytes. */
  lemma UnescapeUndoesEscape(part: Bytes)
    ensures UnescapePart(EscapePart(part)) == part
  {
    EscapeIsOnePass(part);
    FirstPassBack(part);
    SecondPassBack(part);
  }

  lemma {:induction false} CodedIsStuffed(part: Bytes)
    ensures Stuffed(Coded(part))
  {
    if part != [] {
      CodedIsStuffed(part[1..]);
      assert Coded(part)[|Code(part[0])|..] == Coded(part[1..]);
    }
  }

  lemma {:induction false} StuffedIsCoded(s: Bytes) returns (part: Bytes)
    requires Stuffed(s)
    ensures Coded(part) == s
  {
    if s == [] {
      part := [];
    } else if s[0] == ESC {
      var rest := StuffedIsCoded(s[2..]);
      part := [if s[1] == EEXOR then ESC else DELIM] + rest;
      assert part[1..] == rest;
    } else {
      var rest := StuffedIsCoded(s[1..]);
      part := [s[0]] + rest;
      assert part[1..] == rest;
    }
  }

  /** And the passes there undo the passes back on exactly the bytes that stuffing makes. */
  lemma EscapeUndoesUnescapeExactly(s: Bytes)
    ensures EscapePart(UnescapePart(s)) == s <==> Stuffed(s)
  {
    EscapeIsOnePass(UnescapePart(s));
    CodedIsStuffed(UnescapePart(s));
    if Stuffed(s) {
      var part := StuffedIsCoded(s);
      EscapeIsOnePass(part);
      UnescapeUndoesEscape(part);
    }
  }

  lemma {:induction false} StuffedHasNoDelimiter(s: Bytes)
    requires Stuffed(s)
    ensures DELIM !in s
  {
    if s != [] {
      if s[0] == ESC {
        StuffedHasNoDelimiter(s[2..]);
        assert s == [s[0], s[1]] + s[2..];
      } else {
        StuffedHasNoDelimiter(s[1..]);
        assert s == [s[0]] + s[1..];
      }
    }
  }

  lemma EscapedHasNoDelimiter(part: Bytes)
    ensures DELIM !in EscapePart(part)
  {
    EscapeIsOnePass(part);
    CodedIsStuffed(part);
    StuffedHasNoDelimiter(Coded(part));
  }

  // ---------------------------------------------------------------------------
  // Messages
  // ---------------------------------------------------------------------------

  function Join(parts: seq<Bytes>): Bytes {
    if parts == [] then [] else if |parts| == 1 then parts[0] else parts[0] + [DELIM] + Join(parts[1..])
  }

  function Split(s: Bytes): (parts: seq<Bytes>)
    ensures parts != []
  {
    if s == [] then [[]]
    else
      var rest := Split(s[1..]);
      if s[0] == DELIM then [[]] + rest else [[s[0]] + rest[0]] + rest[1..]
  }

  function Each(parts: seq<Bytes>, f: Bytes -> Bytes): (r: seq<Bytes>) {
    seq(|parts|, i requires 0 <= i < |parts| => f(parts[i]))
  }

  /** Blank, tab, line feed, vertical tab, form feed and carriage return. */
  predicate IsSpace(b: Byte) {
    9 <= b <= 13 || b == 32
  }

  lemma SpacesAre(b: Byte)
    ensures IsSpace(b) <==> b in {0x20, 0x09, 0x0A, 0x0B, 0x0C, 0x0D}
  {
  }

  function StripLeft(s: Bytes): Bytes {
    if s != [] && IsSpace(s[0]) then StripLeft(s[1..]) else s
  }

  function StripRight(s: Bytes): Bytes {
    if s != [] && IsSpace(s[|s| - 1]) then StripRight(s[..|s| - 1]) else s
  }

  function PackMsg(parts: seq<Bytes>): Bytes {
    Join(Each(parts, EscapePart))
  }

  /** No message gives back no list at all. */
  function UnpackMsg(msg: Bytes): Option<seq<Bytes>> {
    if msg == [] then None else Some(Each(Split(StripRight(StripLeft(msg))), UnescapePart))
  }

  lemma {:induction false} SplitAfter(s: Bytes, rest: Bytes)
    requires DELIM !in s
    ensures Split(s) == [s]
    ensures Split(s + [DELIM] + rest) == [s] + Split(rest)
  {
    if s == [] {
      assert s + [DELIM] + rest == [DELIM] + rest;
    } else {
      assert s == [s[0]] + s[1..];
      SplitAfter(s[1..], rest);
      assert (s + [DELIM] + rest)[1..] == s[1..] + [DELIM] + rest;
    }
  }

  lemma {:induction false} SplitUndoesJoin(parts: seq<Bytes>)
    requires parts != [] && forall i :: 0 <= i < |parts| ==> DELIM !in parts[i]
    ensures Split(Join(parts)) == parts
  {
    if |parts| == 1 {
      SplitAfter(parts[0], []);
    } else {
      SplitUndoesJoin(parts[1..]);
      SplitAfter(parts[0], Join(parts[1..]));
    }
  }

  /** Without the stripping, a message always comes apart into its parts. */
  lemma PartsComeBack(parts: seq<Bytes>)
    requires parts != []
    ensures Each(Split(PackMsg(parts)), UnescapePart) == parts
  {
    var escaped := Each(parts, EscapePart);
    forall i | 0 <= i < |escaped|
      ensures DELIM !in escaped[i] && UnescapePart(escaped[i]) == parts[i]
    {
      EscapedHasNoDelimiter(parts[i]);
      UnescapeUndoesEscape(parts[i]);
    }
    SplitUndoesJoin(escaped);
  }

  /** What the stripping of the whole message does to its parts: the first loses spaces
      at its beginning, the last at its end. */
  function Trimmed(parts: seq<Bytes>): (r: seq<Bytes>)
    ensures |r| == |parts|
  {
    if parts == [] then []
    else
      var left := parts[0 := StripLeft(parts[0])];
      left[|left| - 1 := StripRight(left[|left| - 1])]
  }

  lemma {:induction false} JoinFirst(head: Bytes, parts: seq<Bytes>)
    requires parts != []
    ensures Join(parts[0 := head + parts[0]]) == head + Join(parts)
  {
  }

  lemma {:induction false} JoinLast(parts: seq<Bytes>, tail: Bytes)
    requires parts != []
    ensures Join(parts[|parts| - 1 := parts[|parts| - 1] + tail]) == Join(parts) + tail
  {
    var longer := parts[|parts| - 1 := parts[|parts| - 1] + tail];
    if |parts| > 1 {
      JoinLast(parts[1..], tail);
      assert longer[1..] == parts[1..][|parts| - 2 := parts[|parts| - 1] + tail];
      assert longer[0] == parts[0];
    }
  }

  lemma PackFirst(b: Byte, first: Bytes, parts: seq<Bytes>)
    requires parts != [] && parts[0] == [b] + first
    ensures PackMsg(parts) == Code(b) + PackMsg(parts[0 := first])
  {
    var fewer := Each(parts[0 := first], EscapePart);
    EscapeIsOnePass(first);
    EscapeIsOnePass(parts[0]);
    assert parts[0][1..] == first;
    JoinFirst(Code(b), fewer);
    assert Each(parts, EscapePart) == fewer[0 := Code(b) + fewer[0]];
  }

  lemma SumAssociates(a: Bytes, b: Bytes, c: Bytes)
    ensures a + (b + c) == a + b + c
  {
  }

  lemma CodedFront(b: Byte, rest: Bytes)
    ensures Coded([b] + rest) == Code(b) + Coded(rest)
  {
    assert ([b] + rest)[1..] == rest;
  }

  lemma {:induction false} CodedSum(s: Bytes, t: Bytes)
    ensures Coded(s + t) == Coded(s) + Coded(t)
  {
    if s == [] {
      assert s + t == t;
    } else {
      CodedSum(s[1..], t);
      assert s == [s[0]] + s[1..] && s + t == [s[0]] + (s[1..] + t);
      CodedFront(s[0], s[1..]);
      CodedFront(s[0], s[1..] + t);
      SumAssociates(Code(s[0]), Coded(s[1..]), Coded(t));
    }
  }

  lemma CodedOne(b: Byte)
    ensures Coded([b]) == Code(b)
  {
    assert [b][1..] == [] && Coded([]) == [];
  }

  lemma PackLast(parts: seq<Bytes>, last: Bytes, b: Byte)
    requires parts != [] && parts[|parts| - 1] == last + [b]
    ensures PackMsg(parts) == PackMsg(parts[|parts| - 1 := last]) + Code(b)
  {
    var fewer := Each(parts[|parts| - 1 := last], EscapePart);
    EscapeIsOnePass(last);
    EscapeIsOnePass(last + [b]);
    CodedSum(last, [b]);
    CodedOne(b);
    JoinLast(fewer, Code(b));
    assert Each(parts, EscapePart) == fewer[|fewer| - 1 := fewer[|fewer| - 1] + Code(b)];
  }

  /** A message without a first or a last byte of its own begins or ends with a delimiter. */
  lemma {:induction false} EndsAreDelimiters(parts: seq<Bytes>)
    requires parts != []
    ensures parts[0] == [] ==> if |parts| == 1 then Join(parts) == [] else Join(parts) != [] && Join(parts)[0] == DELIM
    ensures parts[|parts| - 1] == [] ==>
              if |parts| == 1 then Join(parts) == [] else Join(parts) != [] && Join(parts)[|Join(parts)| - 1] == DELIM
  {
    if |parts| > 1 {
      EndsAreDelimiters(parts[1..]);
    }
  }

  lemma {:induction false} StripLeftOfPack(parts: seq<Bytes>)
    requires parts != []
    ensures StripLeft(PackMsg(parts)) == PackMsg(parts[0 := StripLeft(parts[0])])
    decreases |parts[0]|
  {
    if parts[0] == [] {
      EscapeIsOnePass([]);
      EndsAreDelimiters(Each(parts, EscapePart));
      assert parts[0 := StripLeft(parts[0])] == parts;
    } else {
      var b, first := parts[0][0], parts[0][1..];
      PackFirst(b, first, parts);
      if IsSpace(b) {
        StripLeftOfPack(parts[0 := first]);
        assert PackMsg(parts)[1..] == PackMsg(parts[0 := first]);
        assert parts[0 := first][0 := StripLeft(first)] == parts[0 := StripLeft(first)];
      } else {
        assert parts[0 := StripLeft(parts[0])] == parts;
        assert PackMsg(parts)[0] == Code(b)[0];
      }
    }
  }

  lemma {:induction false} StripRightOfPack(parts: seq<Bytes>)
    requires parts != []
    ensures StripRight(PackMsg(parts)) == PackMsg(parts[|parts| - 1 := StripRight(parts[|parts| - 1])])
    decreases |parts[|parts| - 1]|
  {
    var n := |parts| - 1;
    if parts[n] == [] {
      NothingAtTheEnd(parts);
    } else {
      var b, last := parts[n][|parts[n]| - 1], parts[n][..|parts[n]| - 1];
      PackLast(parts, last, b);
      if IsSpace(b) {
        StripRightOfPack(parts[n := last]);
        StripRightSpace(PackMsg(parts[n := last]), b);
        SetTwice(parts, n, last, StripRight(last));
      } else {
        StripRightNothing(PackMsg(parts[n := last]), b);
        SetSame(parts, n);
      }
    }
  }

  lemma SetTwice(parts: seq<Bytes>, n: nat, x: Bytes, y: Bytes)
    requires n < |parts|
    ensures parts[n := x][n := y] == parts[n := y]
  {
  }

  lemma SetSame(parts: seq<Bytes>, n: nat)
    requires n < |parts|
    ensures parts[n := parts[n]] == parts
  {
  }

  lemma NothingAtTheEnd(parts: seq<Bytes>)
    requires parts != [] && parts[|parts| - 1] == []
    ensures StripRight(PackMsg(parts)) == PackMsg(parts[|parts| - 1 := []])
  {
    EscapeIsOnePass([]);
    EndsAreDelimiters(Each(parts, EscapePart));
    SetSame(parts, |parts| - 1);
  }

  lemma StripRightSpace(s: Bytes, b: Byte)
    requires IsSpace(b)
    ensures StripRight(s + Code(b)) == StripRight(s)
  {
    assert (s + [b])[..|s|] == s;
  }

  lemma StripRightNothing(s: Bytes, b: Byte)
    requires !IsSpace(b)
    ensures StripRight(s + Code(b)) == s + Code(b)
  {
  }

  lemma EmptyMessageExactly(parts: seq<Bytes>)
    ensures PackMsg(parts) == [] <==> parts == [] || parts == [[]]
  {
    if parts != [] {
      EscapeIsOnePass(parts[0]);
      EndsAreDelimiters(Each(parts, EscapePart));
      if |parts| == 1 && parts[0] != [] {
        PackFirst(parts[0][0], parts[0][1..], parts);
      }
    }
  }

  /** What any packed message unpacks to. */
  lemma UnpackOfPack(parts: seq<Bytes>)
    ensures UnpackMsg(PackMsg(parts)) == if parts == [] || parts == [[]] then None else Some(Trimmed(parts))
  {
    EmptyMessageExactly(parts);
    if parts != [] && parts != [[]] {
      StripLeftOfPack(parts);
      var left := parts[0 := StripLeft(parts[0])];
      StripRightOfPack(left);
      PartsComeBack(Trimmed(parts));
    }
  }

  lemma {:induction false} StripLeftKeepsExactly(s: Bytes)
    ensures |StripLeft(s)| <= |s| && (StripLeft(s) != s ==> |StripLeft(s)| < |s|)
    ensures StripLeft(s) == s <==> s == [] || !IsSpace(s[0])
  {
    if s != [] && IsSpace(s[0]) {
      StripLeftKeepsExactly(s[1..]);
    }
  }

  lemma {:induction false} StripRightKeepsExactly(s: Bytes)
    ensures |StripRight(s)| <= |s|
    ensures StripRight(s) == s <==> s == [] || !IsSpace(s[|s| - 1])
  {
    if s != [] && IsSpace(s[|s| - 1]) {
      StripRightKeepsExactly(s[..|s| - 1]);
    }
  }

  /** No space where the first part begins, and none where the last part ends. */
  predicate NoSpaceAtEnds(parts: seq<Bytes>)
    requires parts != []
  {
    var first, last := parts[0], parts[|parts| - 1];
    (first == [] || !IsSpace(first[0])) && (last == [] || !IsSpace(last[|last| - 1]))
  }

  lemma TrimmedKeepsExactly(parts: seq<Bytes>)
    requires parts != []
    ensures Trimmed(parts) == parts <==> NoSpaceAtEnds(parts)
  {
    var n := |parts| - 1;
    var left := parts[0 := StripLeft(parts[0])];
    StripLeftKeepsExactly(parts[0]);
    StripRightKeepsExactly(left[n]);
    if StripLeft(parts[0]) == parts[0] {
      assert left == parts;
    } else {
      assert |Trimmed(parts)[0]| < |parts[0]|;
    }
  }

  /** Exactly which parts survive packing and unpacking. */
  lemma RoundTripExactly(parts: seq<Bytes>)
    ensures UnpackMsg(PackMsg(parts)) == Some(parts) <==> parts != [] && parts != [[]] && NoSpaceAtEnds(parts)
  {
    UnpackOfPack(parts);
    if parts != [] {
      TrimmedKeepsExactly(parts);
    }
  }

  /** A string argument with a line feed at its end arrives without it. */
  lemma ASpaceIsLost()
    ensures UnpackMsg(PackMsg([[67], [49, 10]])) == Some([[67], [49]])
  {
    UnpackOfPack([[67], [49, 10]]);
    assert StripLeft([67]) == [67];
    assert [49, 10][..1] == [49];
    assert StripRight([49, 10]) == StripRight([49]) == [49];
    assert Trimmed([[67], [49, 10]]) == [[67], [49]];
  }

  // ---------------------------------------------------------------------------
  // The stream
  // ---------------------------------------------------------------------------

  const PREFIX_SIZE := 8
  const MAX_LENGTH: int := 0x1_0000_0000_0000_0000

  function LittleEndian(n: nat, size: nat): (r: Bytes)
    ensures |r| == size
  {
    if size == 0 then [] else [n % 256] + LittleEndian(n / 256, size - 1)
  }

  function FromLittleEndian(s: Bytes): nat {
    if s == [] then 0 else s[0] + 256 * FromLittleEndian(s[1..])
  }

  function Power256(n: nat): nat {
    if n == 0 then 1 else 256 * Power256(n - 1)
  }

  lemma {:induction false} LittleEndianRoundTrip(n: nat, size: nat)
    requires n < Power256(size)
    ensures FromLittleEndian(LittleEndian(n, size)) == n
  {
    if size > 0 {
      LittleEndianRoundTrip(n / 256, size - 1);
      assert LittleEndian(n, size)[1..] == LittleEndian(n / 256, size - 1);
    }
  }

  /** What goes over the wire for one message. */
  function Frame(data: Bytes): Bytes
    requires |data| < MAX_LENGTH
  {
    LittleEndian(|data|, PREFIX_SIZE) + data
  }

  function Frames(messages: seq<Bytes>): Bytes
    requires forall i :: 0 <= i < |messages| ==> |messages[i]| < MAX_LENGTH
  {
    if messages == [] then [] else Frame(messages[0]) + Frames(messages[1..])
  }

  /** What one attempt to receive makes of everything that is still to arrive. */
  function Received(stream: Bytes): Option<Bytes> {
    if |stream| < PREFIX_SIZE then None
    else
      var size := FromLittleEndian(stream[..PREFIX_SIZE]);
      if |stream| - PREFIX_SIZE < size then None else Some(stream[PREFIX_SIZE..PREFIX_SIZE + size])
  }

  function AfterReceived(stream: Bytes): Bytes {
    match Received(stream)
    case None => []
    case Some(data) => stream[PREFIX_SIZE + |data|..]
  }

  /** Receiving until nothing more comes. */
  function ReceivedAll(stream: Bytes): seq<Bytes>
    decreases |stream|
  {
    match Received(stream)
    case None => []
    case Some(data) => [data] + ReceivedAll(AfterReceived(stream))
  }

  lemma FrameArrives(data: Bytes, rest: Bytes)
    requires |data| < MAX_LENGTH
    ensures Received(Frame(data) + rest) == Some(data) && AfterReceived(Frame(data) + rest) == rest
  {
    var stream := Frame(data) + rest;
    assert Power256(8) == MAX_LENGTH by {
      assert Power256(4) == 0x1_0000_0000;
      assert Power256(8) == 256 * (256 * (256 * (256 * Power256(4))));
    }
    LittleEndianRoundTrip(|data|, PREFIX_SIZE);
    assert stream[..PREFIX_SIZE] == LittleEndian(|data|, PREFIX_SIZE);
    assert stream[PREFIX_SIZE..PREFIX_SIZE + |data|] == data;
    assert stream[PREFIX_SIZE + |data|..] == rest;
  }

  /** A connection that breaks inside a frame delivers nothing of it. */
  lemma TornFrameIsNothing(data: Bytes, cut: nat)
    requires |data| < MAX_LENGTH && cut < |Frame(data)|
    ensures Received(Frame(data)[..cut]) == None
  {
    FrameArrives(data, []);
    assert Frame(data) + [] == Frame(data);
    if cut >= PREFIX_SIZE {
      assert Frame(data)[..cut][..PREFIX_SIZE] == Frame(data)[..PREFIX_SIZE];
    }
  }

  /** However many messages were sent before the connection broke inside the next one,
      exactly those arrive, in order. */
  lemma {:induction false} MessagesArrive(messages: seq<Bytes>, next: Bytes, cut: nat)
    requires forall i :: 0 <= i < |messages| ==> |messages[i]| < MAX_LENGTH
    requires |next| < MAX_LENGTH && cut < |Frame(next)|
    ensures ReceivedAll(Frames(messages) + Frame(next)[..cut]) == messages
  {
    if messages == [] {
      TornFrameIsNothing(next, cut);
      assert [] + Frame(next)[..cut] == Frame(next)[..cut];
    } else {
      var rest := Frames(messages[1..]) + Frame(next)[..cut];
      MessagesArrive(messages[1..], next, cut);
      OneArrives(messages[0], Frames(messages[1..]), Frame(next)[..cut]);
    }
  }

  lemma OneArrives(data: Bytes, others: Bytes, torn: Bytes)
    requires |data| < MAX_LENGTH
    ensures ReceivedAll(Frame(data) + others + torn) == [data] + ReceivedAll(others + torn)
  {
    FrameArrives(data, others + torn);
    assert Frame(data) + others + torn == Frame(data) + (others + torn);
  }

  /** From the parts at one end to the parts at the other. */
  lemma PartsArriveExactly(parts: seq<Bytes>, rest: Bytes)
    requires |PackMsg(parts)| < MAX_LENGTH
    ensures var got := Received(Frame(PackMsg(parts)) + rest);
            && got.Some?
            && (UnpackMsg(got.value) == Some(parts) <==> parts != [] && parts != [[]] && NoSpaceAtEnds(parts))
  {
    FrameArrives(PackMsg(parts), rest);
    RoundTripExactly(parts);
  }

  /** One direction of a connection: what was sent and is still to be received, up to the
      point where the other side closed it. */
  class Socket {
    var pending: Bytes

    constructor ()
      ensures pending == []
    {
      pending := [];
    }

    method SendAll(data: Bytes)
      modifies this
      ensures pending == old(pending) + data
    {
      pending := pending + data;
    }

    /** Some of what is pending, as much as the network likes; nothing only at the end. */
    method Recv(most: nat) returns (p: Bytes)
      requires most > 0
      modifies this
      ensures p + pending == old(pending) && |p| <= most
      ensures p == [] <==> old(pending) == []
    {
      var size: int := *;
      var limit := if most < |pending| then most else |pending|;
      size := if size < 1 then 1 else size;
      size := if size < limit then size else limit;
      p := pending[..size];
      pending := pending[size..];
    }
  }

  method RecvAllTcp(sock: Socket, n: nat) returns (r: Option<Bytes>)
    modifies sock
    ensures r == if |old(sock.pending)| < n then None else Some(old(sock.pending)[..n])
    ensures sock.pending == if |old(sock.pending)| < n then [] else old(sock.pending)[n..]
  {
    var data: Bytes := [];
    while |data| < n
      invariant |data| <= n
      invariant data + sock.pending == old(sock.pending)
    {
      var p := sock.Recv(n - |data|);
      if p == [] {
        return None;
      }
      data := data + p;
    }
    assert old(sock.pending)[..n] == data;
    assert old(sock.pending)[n..] == sock.pending;
    return Some(data);
  }

  lemma BodyArrives(stream: Bytes, body: Bytes, size: nat)
    requires |stream| >= PREFIX_SIZE && body == stream[PREFIX_SIZE..]
    requires size == FromLittleEndian(stream[..PREFIX_SIZE])
    ensures Received(stream) == if |body| < size then None else Some(body[..size])
    ensures AfterReceived(stream) == if |body| < size then [] else body[size..]
  {
    if |body| >= size {
      assert stream[PREFIX_SIZE..PREFIX_SIZE + size] == body[..size];
      assert stream[PREFIX_SIZE + size..] == body[size..];
    }
  }

  method RecvTcp(sock: Socket) returns (r: Option<Bytes>)
    modifies sock
    ensures r == Received(old(sock.pending))
    ensures sock.pending == AfterReceived(old(sock.pending))
  {
    ghost var stream := sock.pending;
    var packed := RecvAllTcp(sock, PREFIX_SIZE);
    match packed
    case None =>
      r := None;
    case Some(prefix) =>
      ghost var body := sock.pending;
      r := RecvAllTcp(sock, FromLittleEndian(prefix));
      BodyArrives(stream, body, FromLittleEndian(prefix));
  }

  method SendTcp(sock: Socket, data: Bytes)
    requires |data| < MAX_LENGTH
    modifies sock
    ensures sock.pending == old(sock.pending) + Frame(data)
  {
    sock.SendAll(LittleEndian(|data|, PREFIX_SIZE) + data);
  }
}
