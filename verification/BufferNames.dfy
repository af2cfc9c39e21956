/** The names of shared buffers and of their mutexes, made from a topic and an item. */
module BufferNames {

  const MAX_STRING: nat := 255

  predicate IsAlnum(c: char) {
    'a' <= c <= 'z' || 'A' <= c <= 'Z' || '0' <= c <= '9'
  }

  predicate ValidStart(c: char) {
    IsAlnum(c) || c in {'-', '+', '.', '$', '/', '#'}
  }

  predicate ValidMid(c: char) {
    IsAlnum(c) || c in {'-', '.', '*', '+', ':', '$', '/', '#'}
  }

  predicate ValidEnd(c: char) {
    IsAlnum(c) || c in {'.', '$', '#'}
  }

  predicate IsValidItemString(item: string) {
    && 0 < |item| <= MAX_STRING
    && ValidStart(item[0])
    && (forall k :: 1 <= k < |item| - 1 ==> ValidMid(item[k]))
    && ValidEnd(item[|item| - 1])
  }

  /** The rules for items: ASCII letters and digits anywhere, and some other characters
      depending on whether they come first, last or in between. */
  lemma ItemRules(item: string)
    ensures IsValidItemString(item) <==>
            && 1 <= |item| <= 255
            && (IsAsciiAlnum(item[0]) || item[0] in "-+.$/#")
            && (IsAsciiAlnum(item[|item| - 1]) || item[|item| - 1] in ".$#")
            && forall k :: 1 <= k < |item| - 1 ==> IsAsciiAlnum(item[k]) || item[k] in "-.*+:$/#"
  {
  }

  predicate IsAsciiAlnum(c: char) {
    48 <= c as int <= 57 || 65 <= c as int <= 90 || 97 <= c as int <= 122
  }

  /** What the topic table holds: upper-case names with digits and underscores. */
  predicate IsTopicName(topic: string) {
    |topic| > 0 && Plain(topic)
  }

  // ---------------------------------------------------------------------------
  // Replacing the characters that are reserved in kernel object names
  // ---------------------------------------------------------------------------

  function SymbolDigit(c: char): char {
    match c
    case '-' => '1'
    case '.' => '2'
    case '$' => '3'
    case '/' => '4'
    case '*' => '5'
    case '+' => '6'
    case '#' => '7'
    case ':' => '8'
    case _ => '0'
  }

  predicate Reserved(c: char) {
    SymbolDigit(c) != '0'
  }

  /** "(1)" to "(8)" for the reserved characters, the character itself otherwise. */
  function Symbol(c: char): (r: string)
    ensures |r| > 0
  {
    if Reserved(c) then ['(', SymbolDigit(c), ')'] else [c]
  }

  function Expand(s: string): string {
    if s == "" then "" else Symbol(s[0]) + Expand(s[1..])
  }

  const PREFIX := "Global\\"
  const STEM := "TOSDB_Buffer__"

  function NameOf(topic: string, item: string): string {
    PREFIX + Expand(STEM + topic + "_" + item)
  }

  function MutexNameOf(topic: string, item: string): string {
    NameOf(topic, item) + "_mtx"
  }

  method CreateBufferName(topic: string, item: string) returns (name: string)
    ensures name == NameOf(topic, item)
  {
    var str := STEM + topic + "_" + item;
    var bname := "";
    for k := 0 to |str|
      invariant bname == Expand(str[..k])
    {
      ExpandSum(str[..k], [str[k]]);
      assert str[..k + 1] == str[..k] + [str[k]];
      assert Expand([str[k]]) == Symbol(str[k]) + Expand("");
      bname := bname + Symbol(str[k]);
    }
    assert str[..|str|] == str;
    name := PREFIX + bname;
  }

  lemma {:induction false} ExpandSum(a: string, b: string)
    ensures Expand(a + b) == Expand(a) + Expand(b)
  {
    if a == "" {
      assert a + b == b;
    } else {
      ExpandSum(a[1..], b);
      assert (a + b)[1..] == a[1..] + b;
      Reassociate(Symbol(a[0]), Expand(a[1..]), "", Expand(b));
    }
  }

  predicate Plain(s: string) {
    forall k :: 0 <= k < |s| ==> IsAlnum(s[k]) || s[k] == '_'
  }

  /** Without reserved characters there is nothing to replace. */
  lemma {:induction false} ExpandPlain(s: string)
    requires Plain(s)
    ensures Expand(s) == s
  {
    if s != "" {
      assert forall k :: 0 <= k < |s[1..]| ==> s[1..][k] == s[k + 1];
      ExpandPlain(s[1..]);
      assert Symbol(s[0]) == [s[0]];
    }
  }

  predicate Free(c: char, s: string) {
    forall k :: 0 <= k < |s| ==> s[k] != c
  }

  lemma {:induction false} ExpandKeepsFree(c: char, s: string)
    requires Free(c, s) && c !in "()12345678"
    ensures Free(c, Expand(s))
  {
    if s != "" {
      assert forall k :: 0 <= k < |s[1..]| ==> s[1..][k] == s[k + 1];
      ExpandKeepsFree(c, s[1..]);
      assert Free(c, Symbol(s[0]));
    }
  }

  /** An expansion without parentheses is the string itself. */
  lemma {:induction false} ExpandedPlain(s: string)
    requires Free('(', Expand(s))
    ensures Expand(s) == s
  {
    if s != "" {
      assert Expand(s)[0] == Symbol(s[0])[0];
      assert Symbol(s[0]) == [s[0]];
      assert forall k :: 0 <= k < |Expand(s[1..])| ==> Expand(s[1..])[k] == Expand(s)[k + 1];
      ExpandedPlain(s[1..]);
    }
  }

  /** Replacement loses nothing, as long as parentheses only come from it. */
  lemma {:induction false} ExpandInjective(a: string, b: string)
    requires Free('(', a) && Free('(', b) && Expand(a) == Expand(b)
    ensures a == b
  {
    if a != "" && b != "" {
      SameFirst(a[0], Expand(a[1..]), b[0], Expand(b[1..]));
      ExpandInjective(a[1..], b[1..]);
      assert a == [a[0]] + a[1..] && b == [b[0]] + b[1..];
    }
  }

  lemma SameFirst(c: char, x: string, d: char, y: string)
    requires c != '(' && d != '(' && Symbol(c) + x == Symbol(d) + y
    ensures c == d && x == y
  {
    var a, b := Symbol(c) + x, Symbol(d) + y;
    assert a[0] == Symbol(c)[0] && b[0] == Symbol(d)[0];
    assert Reserved(c) ==> a[1] == SymbolDigit(c);
    assert Reserved(d) ==> b[1] == SymbolDigit(d);
    assert c == d;
    SameTail(Symbol(c), x, y);
  }

  /** The last underscore splits a name in only one way. */
  lemma LastUnderscore(s: string, x: string, t: string, y: string)
    requires Free('_', x) && Free('_', y)
    requires s + "_" + x == t + "_" + y
    ensures s == t && x == y
  {
    AfterUnderscore(s, x);
    AfterUnderscore(t, y);
    var a, b := s + "_" + x, t + "_" + y;
    assert s == a[..|s|] && t == b[..|t|];
    assert x == a[|s| + 1..] && y == b[|t| + 1..];
  }

  lemma AfterUnderscore(s: string, x: string)
    requires Free('_', x)
    ensures var a := s + "_" + x;
            a[|s|] == '_' && forall k :: |s| < k < |a| ==> a[k] != '_'
  {
  }

  lemma ItemCharacters(item: string)
    requires IsValidItemString(item)
    ensures Free('_', item) && Free('(', item)
    ensures Free('_', Expand(item))
  {
    forall k | 0 <= k < |item|
      ensures item[k] != '_' && item[k] != '('
    {
      assert ValidStart(item[k]) || ValidMid(item[k]) || ValidEnd(item[k]);
    }
    ExpandKeepsFree('_', item);
  }

  lemma ExpandAround(stem: string, topic: string, item: string)
    requires Plain(stem) && Plain(topic)
    ensures Expand(stem + topic + "_" + item) == stem + (topic + "_" + Expand(item))
  {
    Reassociate(stem, topic, "_", item);
    ExpandSum(stem, topic + "_" + item);
    ExpandSum(topic + "_", item);
    ExpandSum(topic, "_");
    ExpandPlain(stem);
    ExpandPlain(topic);
    ExpandPlain("_");
  }

  lemma NameParts(topic: string, item: string)
    requires IsTopicName(topic)
    ensures NameOf(topic, item) == PREFIX + STEM + (topic + "_" + Expand(item))
  {
    StemPlain();
    ExpandAround(STEM, topic, item);
    Reassociate(PREFIX, STEM, "", topic + "_" + Expand(item));
  }

  lemma StemPlain()
    ensures Plain(STEM)
  {
  }

  lemma Reassociate(a: string, b: string, c: string, d: string)
    ensures a + b + c + d == a + (b + c + d)
    ensures a + b + d == a + (b + d)
  {
  }

  lemma SameTail(head: string, a: string, b: string)
    requires head + a == head + b
    ensures a == b
  {
    assert (head + a)[|head|..] == a && (head + b)[|head|..] == b;
  }

  /** No two streams share a buffer name, although topics contain the separator and
      items are rewritten. */
  lemma NamesInjective(t1: string, i1: string, t2: string, i2: string)
    requires IsTopicName(t1) && IsTopicName(t2)
    requires IsValidItemString(i1) && IsValidItemString(i2)
    ensures NameOf(t1, i1) == NameOf(t2, i2) <==> t1 == t2 && i1 == i2
  {
    if NameOf(t1, i1) == NameOf(t2, i2) {
      NameParts(t1, i1);
      NameParts(t2, i2);
      ItemCharacters(i1);
      ItemCharacters(i2);
      SameTail(PREFIX + STEM, t1 + "_" + Expand(i1), t2 + "_" + Expand(i2));
      LastUnderscore(t1, Expand(i1), t2, Expand(i2));
      ExpandInjective(i1, i2);
    }
  }

  /** It takes the item rules: with an underscore in an item, names do collide. */
  lemma UnderscoreItemsCollide(t: string, u: string, i: string)
    requires IsTopicName(t) && IsTopicName(u)
    ensures NameOf(t + "_" + u, i) == NameOf(t, u + "_" + i)
  {
    Reassociate(STEM, t + "_" + u, "_", i);
    Reassociate(STEM, t, "_", u + "_" + i);
    Reassociate(t + "_", u, "_", i);
  }

  /** Mappings and mutexes live in one namespace. The mutex of one stream takes the
      name of another stream's mapping in exactly one kind of case. */
  lemma MutexTakesBufferNameExactly(t1: string, i1: string, t2: string, i2: string)
    requires IsTopicName(t1) && IsTopicName(t2)
    requires IsValidItemString(i1) && IsValidItemString(i2)
    ensures MutexNameOf(t1, i1) == NameOf(t2, i2) <==> i2 == "mtx" && t2 == t1 + "_" + i1
  {
    NameParts(t1, i1);
    NameParts(t2, i2);
    ItemCharacters(i1);
    ItemCharacters(i2);
    var mine := t1 + "_" + Expand(i1);
    Reassociate(PREFIX + STEM, mine, "", "_mtx");
    assert mine + "_mtx" == mine + "_" + "mtx";
    ExpandPlain("mtx");
    if MutexNameOf(t1, i1) == NameOf(t2, i2) {
      SameTail(PREFIX + STEM, mine + "_" + "mtx", t2 + "_" + Expand(i2));
      LastUnderscore(mine, "mtx", t2, Expand(i2));
      ExpandInjective(i2, "mtx");
      assert forall k :: 0 <= k < |Expand(i1)| ==> Expand(i1)[k] == t2[|t1| + 1 + k];
      ExpandedPlain(i1);
    }
    if i2 == "mtx" && t2 == t1 + "_" + i1 {
      assert forall k :: 0 <= k < |i1| ==> i1[k] == t2[|t1| + 1 + k];
      ExpandPlain(i1);
    }
  }

  /** Both ASK and ASK_SIZE are topics. */
  lemma MutexTakesBufferName()
    ensures MutexNameOf("ASK", "SIZE") == NameOf("ASK_SIZE", "mtx")
  {
    assert IsValidItemString("SIZE") && IsValidItemString("mtx");
    MutexTakesBufferNameExactly("ASK", "SIZE", "ASK_SIZE", "mtx");
  }

  /** The table of reserved characters. */
  lemma SymbolTable(c: char)
    ensures Symbol(c) ==
            match c
            case '-' => "(1)"
            case '.' => "(2)"
            case '$' => "(3)"
            case '/' => "(4)"
            case '*' => "(5)"
            case '+' => "(6)"
            case '#' => "(7)"
            case ':' => "(8)"
            case _ => [c]
  {
  }

  /** A whole name. */
  lemma NameSpelled(topic: string, item: string)
    requires IsTopicName(topic)
    ensures NameOf(topic, item) == "Global\\" + "TOSDB_Buffer__" + (topic + "_" + Expand(item))
  {
    NameParts(topic, item);
  }
}
