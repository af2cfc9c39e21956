/**
  The text messages between the client library and the engine: printed by the client
  (src/client/client_admin.cpp), carried in a buffer of fixed size (src/ipc.cpp), split into
  words (src/main.cpp) and read by the engine (src/service/engine.cpp).

  A topic is its name in the topic table, which maps both ways; the entry for no topic is
  a single space.
*/
module IpcMessages {
  import opened Basics
  import BufferNames

  const MAX_MESSAGE: nat := 511
  const ULONG_LIMIT: int := 0x1_0000_0000
  const LONG_LIMIT: int := 0x8000_0000
  const LONGEST_TOPIC: nat := 19

  const SIG_ADD: nat := 1
  const SIG_REMOVE: nat := 2
  const SIG_PAUSE: nat := 3
  const SIG_CONTINUE: nat := 4
  const SIG_STOP: nat := 5
  const SIG_DUMP: nat := 6
  const SIG_TEST: nat := 9

  const NULL_TOPIC := " "
  const NUL: char := '\0'

  datatype Message = Rejected | Signal(op: nat) | Request(op: nat, topic: string, item: string, timeout: nat)

  predicate IsStreamOp(op: nat) {
    op == SIG_ADD || op == SIG_REMOVE || op == SIG_TEST
  }

  predicate IsSignal(op: nat) {
    op == SIG_PAUSE || op == SIG_CONTINUE || op == SIG_STOP || op == SIG_DUMP
  }

  predicate IsTopicTable(table: set<string>) {
    forall topic :: topic in table ==> topic == NULL_TOPIC || (BufferNames.IsTopicName(topic) && |topic| <= LONGEST_TOPIC)
  }

  // ---------------------------------------------------------------------------
  // Words
  // ---------------------------------------------------------------------------

  predicate IsWord(s: string) {
    s != "" && ' ' !in s
  }

  function Pieces(s: string): (r: seq<string>)
    ensures r != []
  {
    if s == "" then [""] else Prefixed(s[0], Pieces(s[1..]))
  }

  /** One more character before the rest of the pieces. */
  function Prefixed(c: char, pieces: seq<string>): (r: seq<string>)
    requires pieces != []
    ensures r != []
  {
    if c == ' ' then [""] + pieces else [[c] + pieces[0]] + pieces[1..]
  }

  lemma PrefixedSum(c: char, a: seq<string>, b: seq<string>)
    requires a != []
    ensures Prefixed(c, a + b) == Prefixed(c, a) + b
  {
  }

  function NonEmpty(pieces: seq<string>): seq<string> {
    if pieces == [] then [] else Kept(pieces[0]) + NonEmpty(pieces[1..])
  }

  function Kept(piece: string): seq<string> {
    if piece == "" then [] else [piece]
  }

  /** Cut at every space, without what is empty then. */
  function Words(s: string): seq<string> {
    NonEmpty(Pieces(s))
  }

  lemma {:induction false} PiecesAround(a: string, b: string)
    ensures Pieces(a + " " + b) == Pieces(a) + Pieces(b)
  {
    var s := a + " " + b;
    if a == "" {
      assert s[0] == ' ' && s[1..] == b;
    } else {
      PiecesAround(a[1..], b);
      assert s[0] == a[0] && s[1..] == a[1..] + " " + b;
      PrefixedSum(a[0], Pieces(a[1..]), Pieces(b));
    }
  }

  lemma {:induction false} NonEmptyOfSum(a: seq<string>, b: seq<string>)
    ensures NonEmpty(a + b) == NonEmpty(a) + NonEmpty(b)
  {
    if a == [] {
      assert a + b == b;
    } else {
      NonEmptyOfSum(a[1..], b);
      assert (a + b)[0] == a[0] && (a + b)[1..] == a[1..] + b;
      SumAssociates(Kept(a[0]), NonEmpty(a[1..]), NonEmpty(b));
    }
  }

  lemma SumAssociates(a: seq<string>, b: seq<string>, c: seq<string>)
    ensures a + (b + c) == a + b + c
  {
  }

  /** A space always separates. */
  lemma WordsAround(a: string, b: string)
    ensures Words(a + " " + b) == Words(a) + Words(b)
  {
    PiecesAround(a, b);
    NonEmptyOfSum(Pieces(a), Pieces(b));
  }

  lemma {:induction false} PiecesOfSpaceless(s: string)
    requires ' ' !in s
    ensures Pieces(s) == [s]
  {
    if s != "" {
      PiecesOfSpaceless(s[1..]);
      assert s == [s[0]] + s[1..];
    }
  }

  lemma OneWord(s: string)
    requires ' ' !in s
    ensures Words(s) == if s == "" then [] else [s]
  {
    PiecesOfSpaceless(s);
    assert NonEmpty([s][1..]) == [];
  }

  lemma {:induction false} WordsAreWords(s: string, k: nat)
    requires k < |Words(s)|
    ensures IsWord(Words(s)[k])
  {
    PiecesAreSpaceless(s);
    NonEmptyAreWords(Pieces(s), k);
  }

  lemma {:induction false} PiecesAreSpaceless(s: string)
    ensures forall j :: 0 <= j < |Pieces(s)| ==> ' ' !in Pieces(s)[j]
  {
    if s != "" {
      PiecesAreSpaceless(s[1..]);
    }
  }

  lemma {:induction false} NonEmptyAreWords(pieces: seq<string>, k: nat)
    requires forall j :: 0 <= j < |pieces| ==> ' ' !in pieces[j]
    requires k < |NonEmpty(pieces)|
    ensures IsWord(NonEmpty(pieces)[k])
  {
    if pieces[0] == "" {
      NonEmptyAreWords(pieces[1..], k);
    } else if k > 0 {
      NonEmptyAreWords(pieces[1..], k - 1);
    }
  }

  function JoinWords(words: seq<string>): string {
    if words == [] then "" else if |words| == 1 then words[0] else words[0] + " " + JoinWords(words[1..])
  }

  /** Splitting inverts joining on exactly the lists of words. */
  lemma {:induction false} SplitUndoesJoinExactly(words: seq<string>)
    ensures Words(JoinWords(words)) == words <==> forall k :: 0 <= k < |words| ==> IsWord(words[k])
  {
    if forall k :: 0 <= k < |words| ==> IsWord(words[k]) {
      SplitUndoesJoin(words);
    }
    if Words(JoinWords(words)) == words {
      forall k | 0 <= k < |words|
        ensures IsWord(words[k])
      {
        WordsAreWords(JoinWords(words), k);
      }
    }
  }

  lemma {:induction false} SplitUndoesJoin(words: seq<string>)
    requires forall k :: 0 <= k < |words| ==> IsWord(words[k])
    ensures Words(JoinWords(words)) == words
  {
    if words == [] {
      OneWord("");
    } else {
      OneWord(words[0]);
      if |words| > 1 {
        SplitUndoesJoin(words[1..]);
        WordsAround(words[0], JoinWords(words[1..]));
      }
    }
  }

  class Vector {
    var elements: seq<string>

    constructor ()
      ensures elements == []
    {
      elements := [];
    }

    method PushBack(s: string)
      modifies this
      ensures elements == old(elements) + [s]
    {
      elements := elements + [s];
    }
  }

  method FindFirstOf(s: string, c: char) returns (i: nat)
    ensures i <= |s| && c !in s[..i] && (i < |s| ==> s[i] == c)
  {
    i := 0;
    while i < |s| && s[i] != c
      invariant i <= |s| && c !in s[..i]
    {
      i := i + 1;
    }
  }

  method ParseArgs(vec: Vector, str: string)
    modifies vec
    ensures vec.elements == old(vec.elements) + Words(str)
    decreases |str|
  {
    var i := FindFirstOf(str, ' ');
    if str == "" {
      OneWord(str);
    } else if i == |str| {
      assert str[..i] == str;
      OneWord(str);
      vec.PushBack(str);
    } else {
      assert str == str[..i] + " " + str[i + 1..];
      WordsAround(str[..i], str[i + 1..]);
      OneWord(str[..i]);
      if i == 0 {
        ParseArgs(vec, str[1..]);
      } else {
        vec.PushBack(str[..i]);
        ParseArgs(vec, str[i + 1..]);
      }
    }
  }

  // ---------------------------------------------------------------------------
  // Numbers
  // ---------------------------------------------------------------------------

  predicate IsDigit(c: char) {
    '0' <= c <= '9'
  }

  function Digit(n: nat): (c: char)
    requires n < 10
    ensures IsDigit(c) && (c - '0') as int == n
  {
    '0' + n as char
  }

  function Decimal(n: nat): string {
    if n < 10 then [Digit(n)] else Decimal(n / 10) + [Digit(n % 10)]
  }

  function SignedDecimal(n: int): string {
    if n < 0 then "-" + Decimal(-n) else Decimal(n)
  }

  function ValueOf(s: string): nat
    requires forall k :: 0 <= k < |s| ==> IsDigit(s[k])
  {
    if s == "" then 0
    else
      assert IsDigit(s[|s| - 1]);
      10 * ValueOf(s[..|s| - 1]) + (s[|s| - 1] - '0') as int
  }

  function LeadingDigits(s: string): (r: string)
    ensures forall k :: 0 <= k < |r| ==> IsDigit(r[k])
  {
    if s != "" && IsDigit(s[0]) then [s[0]] + LeadingDigits(s[1..]) else ""
  }

  predicate IsSpace(c: char) {
    '\t' <= c <= '\r' || c == ' '
  }

  function SkipSpaces(s: string): string {
    if s != "" && IsSpace(s[0]) then SkipSpaces(s[1..]) else s
  }

  predicate HasSign(s: string) {
    s != "" && (s[0] == '-' || s[0] == '+')
  }

  /** Spaces, a sign and the digits up to anything else; none are an error, and so is a
      number that does not fit. A negative number wraps around. */
  function Stoul(s: string): Option<nat> {
    var t := SkipSpaces(s);
    var digits := LeadingDigits(if HasSign(t) then t[1..] else t);
    if digits == "" || ValueOf(digits) >= ULONG_LIMIT then None
    else Some(if t[0] == '-' then (ULONG_LIMIT - ValueOf(digits)) % ULONG_LIMIT else ValueOf(digits))
  }

  function Stol(s: string): Option<int> {
    var t := SkipSpaces(s);
    var digits := LeadingDigits(if HasSign(t) then t[1..] else t);
    if digits == "" then None
    else
      var n := (if t[0] == '-' then -1 else 1) * ValueOf(digits);
      if -LONG_LIMIT <= n < LONG_LIMIT then Some(n) else None
  }

  lemma {:induction false} DecimalReadsBack(n: nat)
    ensures Decimal(n) != "" && (forall k :: 0 <= k < |Decimal(n)| ==> IsDigit(Decimal(n)[k]))
    ensures ValueOf(Decimal(n)) == n
  {
    if n >= 10 {
      DecimalReadsBack(n / 10);
      assert Decimal(n)[..|Decimal(n)| - 1] == Decimal(n / 10);
    } else {
      assert Decimal(n)[..0] == "";
    }
  }

  lemma {:induction false} LeadingDigitsStop(digits: string, rest: string)
    requires forall k :: 0 <= k < |digits| ==> IsDigit(digits[k])
    requires rest == "" || !IsDigit(rest[0])
    ensures LeadingDigits(digits + rest) == digits
  {
    if digits == "" {
      assert digits + rest == rest;
    } else {
      LeadingDigitsStop(digits[1..], rest);
      assert (digits + rest)[1..] == digits[1..] + rest;
    }
  }

  function Padding(n: nat): (r: string)
    ensures |r| == n && forall k :: 0 <= k < n ==> r[k] == NUL
  {
    seq(n, _ => NUL)
  }

  /** Reading stops at the padding. */
  lemma NumberReadsBack(n: nat, padding: nat)
    ensures Stoul(Decimal(n) + Padding(padding)) == if n < ULONG_LIMIT then Some(n) else None
  {
    DecimalReadsBack(n);
    LeadingDigitsStop(Decimal(n), Padding(padding));
    assert IsDigit((Decimal(n) + Padding(padding))[0]);
  }

  /** The engine's answer, an error code or none, reaches the client as it is. */
  lemma AnswerReadsBack(r: int, padding: nat)
    requires -LONG_LIMIT <= r < LONG_LIMIT
    ensures Stol(SignedDecimal(r) + Padding(padding)) == Some(r)
  {
    var n: nat := if r < 0 then -r else r;
    DecimalReadsBack(n);
    LeadingDigitsStop(Decimal(n), Padding(padding));
    if r < 0 {
      NegativeReadsBack(Decimal(n) + Padding(padding));
      LastGrows("-", Decimal(n), Padding(padding));
    } else {
      assert IsDigit((Decimal(n) + Padding(padding))[0]);
    }
  }

  lemma NegativeReadsBack(s: string)
    requires LeadingDigits(s) != "" && ValueOf(LeadingDigits(s)) <= LONG_LIMIT
    ensures Stol("-" + s).Some? && Stol("-" + s).value + ValueOf(LeadingDigits(s)) == 0
  {
  }

  predicate AllSpaces(s: string) {
    forall k :: 0 <= k < |s| ==> s[k] as int in {9, 10, 11, 12, 13, 32}
  }

  lemma {:induction false} SpacesSkipped(spaces: string, t: string)
    requires AllSpaces(spaces) && (t == "" || t[0] as int !in {9, 10, 11, 12, 13, 32})
    ensures SkipSpaces(spaces + t) == t
  {
    if spaces == "" {
      assert spaces + t == t;
    } else {
      SpacesSkipped(spaces[1..], t);
      assert (spaces + t)[1..] == spaces[1..] + t;
    }
  }

  /** What is read of any text that begins like a number: spaces, perhaps a sign, digits, and
      something else. */
  lemma NumberRead(spaces: string, sign: string, digits: string, rest: string)
    requires AllSpaces(spaces) && sign in {"", "-", "+"}
    requires digits != "" && forall k :: 0 <= k < |digits| ==> '0' <= digits[k] <= '9'
    requires rest == "" || !('0' <= rest[0] <= '9')
    ensures var v, s := ValueOf(digits), spaces + (sign + (digits + rest));
            && Stoul(s) == (if v >= 0x1_0000_0000 then None else if sign == "-" && v > 0 then Some(0x1_0000_0000 - v) else Some(v))
            && (sign != "-" ==> Stol(s) == if v < 0x8000_0000 then Some(v) else None)
            && (sign == "-" ==> (Stol(s).Some? <==> v <= 0x8000_0000) && (Stol(s).Some? ==> Stol(s).value + v == 0))
  {
    var t := sign + (digits + rest);
    AfterSign(sign, digits + rest);
    SpacesSkipped(spaces, t);
    LeadingDigitsStop(digits, rest);
    NumberOf(spaces + t, t, digits);
  }

  lemma NumberOf(s: string, t: string, digits: string)
    requires SkipSpaces(s) == t && t != "" && digits != ""
    requires LeadingDigits(if HasSign(t) then t[1..] else t) == digits
    ensures var v := ValueOf(digits);
            && Stoul(s) == (if v >= 0x1_0000_0000 then None else if t[0] == '-' && v > 0 then Some(0x1_0000_0000 - v) else Some(v))
            && (t[0] != '-' ==> Stol(s) == if v < 0x8000_0000 then Some(v) else None)
            && (t[0] == '-' ==> (Stol(s).Some? <==> v <= 0x8000_0000) && (Stol(s).Some? ==> Stol(s).value + v == 0))
  {
  }

  /** Where the digits begin. */
  lemma AfterSign(sign: string, t: string)
    requires sign in {"", "-", "+"} && t != "" && '0' <= t[0] <= '9'
    ensures var s := sign + t;
            && s[0] as int !in {9, 10, 11, 12, 13, 32}
            && (if HasSign(s) then s[1..] else s) == t
            && (s[0] == '-' <==> sign == "-")
  {
    if sign == "" {
      assert sign + t == t;
    } else {
      assert (sign + t)[1..] == t;
    }
  }

  /** Without a digit there is no number. */
  lemma NoNumberRead(spaces: string, sign: string, rest: string)
    requires AllSpaces(spaces) && sign in {"", "-", "+"}
    requires rest == "" || !('0' <= rest[0] <= '9')
    requires sign == "" && rest != "" ==> rest[0] as int !in {9, 10, 11, 12, 13, 32} && rest[0] != '-' && rest[0] != '+'
    ensures Stoul(spaces + (sign + rest)) == None && Stol(spaces + (sign + rest)) == None
  {
    var t := sign + rest;
    SpacesSkipped(spaces, t);
    if sign == "" {
      assert t == rest;
    } else {
      assert t[0] == sign[0] && t[1..] == rest;
    }
  }

  /** How numbers are printed: without leading zeros, and with a sign only below zero. */
  lemma {:induction false} PrintedPlainly(n: nat)
    ensures Decimal(n)[0] == '0' <==> n == 0
    ensures SignedDecimal(n) == Decimal(n)
    ensures n > 0 ==> SignedDecimal(-(n as int)) == "-" + Decimal(n)
  {
    if n >= 10 {
      PrintedPlainly(n / 10);
      DecimalReadsBack(n / 10);
    }
  }

  function Power10(k: nat): nat {
    if k == 0 then 1 else 10 * Power10(k - 1)
  }

  lemma {:induction false} DecimalIsShort(n: nat, k: nat)
    requires 0 < k && n < Power10(k)
    ensures |Decimal(n)| <= k
  {
    if n >= 10 {
      assert Power10(k) == 10 * Power10(k - 1);
      assert Power10(0) == 1;
      DecimalIsShort(n / 10, k - 1);
    }
  }

  // ---------------------------------------------------------------------------
  // Messages
  // ---------------------------------------------------------------------------

  function Print(op: nat, topic: string, item: string, timeout: nat): string {
    Decimal(op) + " " + topic + " " + item + " " + Decimal(timeout)
  }

  /** What the engine reads: a string as long as the buffer, whatever was sent. */
  function Delivered(msg: string): (r: string)
    requires |msg| <= MAX_MESSAGE
    ensures |r| == MAX_MESSAGE
  {
    msg + Padding(MAX_MESSAGE - |msg|)
  }

  /** A name that is not in the table finds the entry for no topic. */
  function Lookup(table: set<string>, name: string): string {
    if name in table then name else NULL_TOPIC
  }

  function FromWords(table: set<string>, args: seq<string>): Message {
    if args == [] then Rejected
    else
      match Stoul(args[0])
      case None => Rejected
      case Some(op) =>
        if IsSignal(op) then Signal(op)
        else if |args| != 4 then Rejected
        else
          match Stoul(args[3])
          case None => Rejected
          case Some(timeout) => Request(op, Lookup(table, args[1]), args[2], timeout)
  }

  function Parsed(table: set<string>, msg: string): Message {
    if |msg| > MAX_MESSAGE then Rejected else FromWords(table, Words(msg))
  }

  method ParseIPCMessage(table: set<string>, msg: string) returns (r: Message)
    ensures r == Parsed(table, msg) && (|msg| > 511 ==> r == Rejected)
  {
    if |msg| > MAX_MESSAGE {
      return Rejected;
    }
    var args := new Vector();
    ParseArgs(args, msg);
    assert args.elements == Words(msg);
    if |args.elements| == 0 {
      return Rejected;
    }
    var op := Stoul(args.elements[0]);
    if op == None {
      return Rejected;
    }
    if IsSignal(op.value) {
      return Signal(op.value);
    }
    if |args.elements| != 4 {
      return Rejected;
    }
    var topic := Lookup(table, args.elements[1]);
    var timeout := Stoul(args.elements[3]);
    if timeout == None {
      return Rejected;
    }
    r := Request(op.value, topic, args.elements[2], timeout.value);
  }

  /** What the client sends always fits. */
  lemma RequestFits(table: set<string>, op: nat, topic: string, item: string, timeout: nat)
    requires IsTopicTable(table) && topic in table
    requires op < 10 && |item| <= BufferNames.MAX_STRING && timeout < ULONG_LIMIT
    ensures |Print(op, topic, item, timeout)| <= 288 < MAX_MESSAGE
  {
    assert Power10(10) == 10_000_000_000 by {
      assert Power10(5) == 100_000;
      assert Power10(10) == 10 * (10 * (10 * (10 * (10 * Power10(5)))));
    }
    DecimalIsShort(timeout, 10);
    assert topic == NULL_TOPIC || |topic| <= LONGEST_TOPIC;
  }

  /** The words of a request: its topic is none of them if there is no topic. */
  lemma WordsOfRequest(op: nat, topic: string, item: string, timeout: nat, padding: nat)
    requires topic == NULL_TOPIC || IsWord(topic)
    ensures Words(Print(op, topic, item, timeout) + Padding(padding)) ==
            [Decimal(op)] + (if topic == NULL_TOPIC then [] else [topic]) + Words(item) + [Decimal(timeout) + Padding(padding)]
  {
    var last := Decimal(timeout) + Padding(padding);
    DecimalReadsBack(op);
    DecimalReadsBack(timeout);
    OneWord(Decimal(op));
    OneWord(last);
    WordsOfTopic(topic);
    WordsOfFour(Decimal(op), topic, item, last);
    LastGrows(Decimal(op) + " " + topic + " " + item + " ", Decimal(timeout), Padding(padding));
  }

  lemma LastGrows(before: string, last: string, more: string)
    ensures before + last + more == before + (last + more)
  {
  }

  lemma WordsOfFour(a: string, b: string, c: string, d: string)
    ensures Words(a + " " + b + " " + c + " " + d) == Words(a) + Words(b) + Words(c) + Words(d)
  {
    WordsAround(a, b);
    WordsAround(a + " " + b, c);
    WordsAround(a + " " + b + " " + c, d);
  }

  lemma WordsOfTopic(topic: string)
    requires topic == NULL_TOPIC || IsWord(topic)
    ensures Words(topic) == if topic == NULL_TOPIC then [] else [topic]
  {
    if topic == NULL_TOPIC {
      WordsAround("", "");
      OneWord("");
      assert "" + " " + "" == topic;
    } else {
      OneWord(topic);
    }
  }

  /** What the engine makes of any message printed like a request: a signal is one whatever
      follows; otherwise it takes the item without the spaces around it, and nothing else
      that has spaces in it, and no number that does not fit; a topic that is not in the
      table becomes the null topic. */
  lemma ParseOfPrint(table: set<string>, op: nat, topic: string, item: string, timeout: nat)
    requires IsWord(topic) && |Print(op, topic, item, timeout)| <= MAX_MESSAGE
    ensures Parsed(table, Delivered(Print(op, topic, item, timeout))) ==
            if op >= 0x1_0000_0000 then Rejected
            else if op in {3, 4, 5, 6} then Signal(op)
            else if |Words(item)| != 1 || timeout >= 0x1_0000_0000 then Rejected
            else Request(op, if topic in table then topic else " ", Words(item)[0], timeout)
  {
    var padding := MAX_MESSAGE - |Print(op, topic, item, timeout)|;
    WordsOfRequest(op, topic, item, timeout, padding);
    NumberReadsBack(op, 0);
    assert Decimal(op) + Padding(0) == Decimal(op);
    NumberReadsBack(timeout, padding);
  }

  /** Exactly which requests arrive as they were made. */
  lemma RequestArrivesExactly(table: set<string>, op: nat, topic: string, item: string, timeout: nat)
    requires IsTopicTable(table) && topic in table
    requires IsStreamOp(op) && timeout < ULONG_LIMIT
    requires |Print(op, topic, item, timeout)| <= MAX_MESSAGE
    ensures Parsed(table, Delivered(Print(op, topic, item, timeout))) == Request(op, topic, item, timeout)
            <==> IsWord(item) && topic != NULL_TOPIC
  {
    if topic != NULL_TOPIC {
      TopicIsWord(topic);
      ParseOfPrint(table, op, topic, item, timeout);
      OnlyWord(item);
    } else {
      NoTopicIsLost(table, op, item, timeout);
    }
  }

  lemma OnlyWord(s: string)
    ensures |Words(s)| == 1 && Words(s)[0] == s <==> IsWord(s)
  {
    if IsWord(s) {
      OneWord(s);
    } else if |Words(s)| == 1 {
      WordsAreWords(s, 0);
    }
  }

  /** No request is made without a topic; the parser could not tell. */
  lemma NoTopicIsLost(table: set<string>, op: nat, item: string, timeout: nat)
    requires |Print(op, NULL_TOPIC, item, timeout)| <= MAX_MESSAGE
    ensures Parsed(table, Delivered(Print(op, NULL_TOPIC, item, timeout))) != Request(op, NULL_TOPIC, item, timeout)
  {
    var msg := Delivered(Print(op, NULL_TOPIC, item, timeout));
    if IsWord(item) {
      OneWord(item);
      WordsOfRequest(op, NULL_TOPIC, item, timeout, MAX_MESSAGE - |Print(op, NULL_TOPIC, item, timeout)|);
      ThreeWordsAreNoRequest(table, msg);
    } else if Parsed(table, msg).Request? {
      WordsAreWords(msg, 2);
    }
  }

  lemma ThreeWordsAreNoRequest(table: set<string>, msg: string)
    requires |Words(msg)| == 3
    ensures !Parsed(table, msg).Request?
  {
  }

  lemma TopicIsWord(topic: string)
    requires BufferNames.IsTopicName(topic)
    ensures IsWord(topic)
  {
  }

  lemma ValidItemIsWord(item: string)
    requires BufferNames.IsValidItemString(item)
    ensures IsWord(item)
  {
  }

  /** Every request the client's own checks let through is short enough and arrives. */
  lemma ValidRequestArrives(table: set<string>, op: nat, topic: string, item: string, timeout: nat)
    requires IsTopicTable(table) && topic in table && topic != NULL_TOPIC
    requires IsStreamOp(op) && timeout < ULONG_LIMIT
    requires BufferNames.IsValidItemString(item)
    ensures |Print(op, topic, item, timeout)| <= MAX_MESSAGE
    ensures Parsed(table, Delivered(Print(op, topic, item, timeout))) == Request(op, topic, item, timeout)
  {
    RequestFits(table, op, topic, item, timeout);
    ValidItemIsWord(item);
    RequestArrivesExactly(table, op, topic, item, timeout);
  }

  /** A signal to the engine has no arguments. */
  lemma SignalArrives(table: set<string>, op: nat)
    requires IsSignal(op)
    ensures |Decimal(op)| <= MAX_MESSAGE && Parsed(table, Delivered(Decimal(op))) == Signal(op)
  {
    assert Decimal(op) == [Digit(op)];
    DecimalReadsBack(op);
    OneWord(Delivered(Decimal(op)));
    NumberReadsBack(op, MAX_MESSAGE - 1);
  }

  /** The four numbers that are signals, and what a bare number is otherwise. */
  lemma BareNumbers(table: set<string>, op: nat)
    requires op < ULONG_LIMIT
    ensures |Decimal(op)| <= MAX_MESSAGE
    ensures Parsed(table, Delivered(Decimal(op))) == if op in {3, 4, 5, 6} then Signal(op) else Rejected
  {
    assert Power10(10) == 10_000_000_000 by {
      assert Power10(5) == 100_000;
      assert Power10(10) == 10 * (10 * (10 * (10 * (10 * Power10(5)))));
    }
    DecimalIsShort(op, 10);
    DecimalReadsBack(op);
    OneWord(Delivered(Decimal(op)));
    NumberReadsBack(op, MAX_MESSAGE - |Decimal(op)|);
  }

  /** The parser takes an item with a space before it for another one. Only a REMOVE for an
      orphaned stream is sent without a check of the item. */
  lemma TakenForAnother(table: set<string>)
    requires "LAST" in table
    ensures |Print(SIG_REMOVE, "LAST", " SPY", 9)| <= MAX_MESSAGE
    ensures Parsed(table, Delivered(Print(SIG_REMOVE, "LAST", " SPY", 9))) == Request(SIG_REMOVE, "LAST", "SPY", 9)
  {
    assert |Print(SIG_REMOVE, "LAST", " SPY", 9)| == 13;
    WordsAround("", "SPY");
    assert "" + " " + "SPY" == " SPY";
    OneWord("");
    OneWord("SPY");
    ParseOfPrint(table, SIG_REMOVE, "LAST", " SPY", 9);
  }
}
