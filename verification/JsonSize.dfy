/**
 The size of a provider message list: the UTF-8 length of its canonical JSON text
 (`ensure_ascii=False`, sorted keys, compact separators). String escaping follows
 section 7 of RFC 8259. The text is modelled character by character; that its size
 is additive, monotone and blind to message order is derived from the text.
 */
module JsonSize {
  import opened Sequences
  import opened Utf8

  datatype Message = Message(role: string, content: string)

  // ----- the text

  function HexDigit(n: nat): char
    requires n < 16
  {
    "0123456789abcdef"[n]
  }

  function EscapeChar(c: char): string {
    if c == '"' then "\\\""
    else if c == '\\' then "\\\\"
    else if c == '\n' then "\\n"
    else if c == '\r' then "\\r"
    else if c == '\t' then "\\t"
    else if c as int == 8 then "\\b"
    else if c as int == 12 then "\\f"
    else if c as int < 32 then "\\u00" + [HexDigit(c as int / 16), HexDigit(c as int % 16)]
    else [c]
  }

  function Escape(s: string): string {
    if s == "" then "" else EscapeChar(s[0]) + Escape(s[1..])
  }

  function Quote(s: string): string {
    "\"" + Escape(s) + "\""
  }

  /** A message object; the sorted keys put `content` before `role`. */
  function MessageJson(m: Message): string {
    "{\"content\":" + Quote(m.content) + ",\"role\":" + Quote(m.role) + "}"
  }

  /** Array elements, separated by commas. */
  function Join(parts: seq<string>): string {
    if parts == [] then ""
    else if |parts| == 1 then parts[0]
    else parts[0] + "," + Join(parts[1..])
  }

  function MessageTexts(ms: seq<Message>): seq<string> {
    seq(|ms|, i requires 0 <= i < |ms| => MessageJson(ms[i]))
  }

  function MessagesJson(ms: seq<Message>): string {
    "[" + Join(MessageTexts(ms)) + "]"
  }

  /** `max(1, len(text.encode("utf-8")))`: what a text weighs. */
  function TextUnits(text: string): nat {
    if Len(text) < 1 then 1 else Len(text)
  }

  /** What a message list weighs. */
  function Units(ms: seq<Message>): nat {
    TextUnits(MessagesJson(ms))
  }

  // ----- its size, part by part

  /** The bytes a text adds to a JSON string that contains it. */
  function EscapedLen(s: string): nat {
    Len(Escape(s))
  }

  /** What a message adds to the list, its separating comma included. */
  function Cost(m: Message): nat {
    1 + Len(MessageJson(m))
  }

  function TotalCost(ms: seq<Message>): nat {
    if ms == [] then 0 else Cost(ms[0]) + TotalCost(ms[1..])
  }

  lemma {:induction false} EscapeConcat(a: string, b: string)
    ensures Escape(a + b) == Escape(a) + Escape(b)
    ensures EscapedLen(a + b) == EscapedLen(a) + EscapedLen(b)
  {
    hide EscapeChar;
    EscapeConcatText(a, b);
    EncodeConcat(Escape(a), Escape(b));
  }

  lemma {:induction false} EscapeConcatText(a: string, b: string)
    ensures Escape(a + b) == Escape(a) + Escape(b)
  {
    hide EscapeChar;
    if a == "" {
      assert a + b == b;
    } else {
      assert (a + b)[1..] == a[1..] + b;
      EscapeConcatText(a[1..], b);
    }
  }

  lemma LenConcat3(a: string, b: string, c: string)
    ensures Len(a + b + c) == Len(a) + Len(b) + Len(c)
  {
    EncodeConcat(a + b, c);
    EncodeConcat(a, b);
  }

  lemma {:induction false} AsciiLen(s: string)
    requires forall i :: 0 <= i < |s| ==> s[i] as int < 128
    ensures Len(s) == |s|
  {
    if s != "" {
      AsciiLen(s[1..]);
    }
  }

  lemma {:induction false} LenAtLeast(s: string)
    ensures Len(s) >= |s|
  {
    if s != "" {
      LenAtLeast(s[1..]);
    }
  }

  lemma {:induction false} EscapedAtLeast(s: string)
    ensures |Escape(s)| >= |s|
    ensures EscapedLen(s) >= Len(s)
  {
    if s != "" {
      EscapedAtLeast(s[1..]);
      assert s == [s[0]] + s[1..];
      EncodeConcat([s[0]], s[1..]);
      EncodeConcat(EscapeChar(s[0]), Escape(s[1..]));
      EscapeCharAtLeast(s[0]);
    }
  }

  lemma EscapeCharAtLeast(c: char)
    ensures |EscapeChar(c)| >= 1
    ensures Len(EscapeChar(c)) >= Len([c])
  {
    if EscapeChar(c) != [c] {
      LenAtLeast(EscapeChar(c));
      AsciiLen([c]);
    }
  }

  /** Nothing to escape. */
  predicate Plain(s: string) {
    forall i :: 0 <= i < |s| ==> ' ' <= s[i] <= '~' && s[i] != '"' && s[i] != '\\'
  }

  lemma {:induction false} PlainEscape(s: string)
    requires Plain(s)
    ensures Escape(s) == s
  {
    if s != "" {
      PlainEscape(s[1..]);
    }
  }

  lemma QuoteLen(s: string)
    ensures Len(Quote(s)) == 2 + EscapedLen(s)
  {
    LenConcat3("\"", Escape(s), "\"");
    AsciiLen("\"");
  }

  /** 24 bytes of keys, quotes and punctuation, the comma, the content and the role. */
  lemma MessageCost(m: Message)
    ensures Cost(m) == 25 + EscapedLen(m.content) + EscapedLen(m.role)
  {
    hide Quote, EscapedLen, Len;
    var open, mid, close := "{\"content\":", ",\"role\":", "}";
    AsciiLen(open);
    AsciiLen(mid);
    AsciiLen(close);
    QuoteLen(m.content);
    QuoteLen(m.role);
    LenConcat3(open, Quote(m.content), mid);
    LenConcat3(open + Quote(m.content) + mid, Quote(m.role), close);
  }

  /** Text appended to a content costs exactly its escaped bytes. */
  lemma CostOfAppend(role: string, a: string, b: string)
    ensures Cost(Message(role, a + b)) == Cost(Message(role, a)) + EscapedLen(b)
  {
    MessageCost(Message(role, a + b));
    MessageCost(Message(role, a));
    EscapeConcat(a, b);
  }

  // ----- the size of a list

  /** Each part, and a comma for all but one. */
  function JoinedLen(parts: seq<string>): nat {
    if parts == [] then 0 else 1 + Len(parts[0]) + JoinedLen(parts[1..])
  }

  lemma {:induction false} JoinLen(parts: seq<string>)
    ensures Len(Join(parts)) == if parts == [] then 0 else JoinedLen(parts) - 1
  {
    if |parts| > 1 {
      JoinLen(parts[1..]);
      LenConcat3(parts[0], ",", Join(parts[1..]));
      AsciiLen(",");
    } else if |parts| == 1 {
      assert parts[1..] == [];
    }
  }

  lemma {:induction false} JoinedLenOfMessages(ms: seq<Message>)
    ensures JoinedLen(MessageTexts(ms)) == TotalCost(ms)
  {
    if ms != [] {
      assert MessageTexts(ms)[1..] == MessageTexts(ms[1..]);
      JoinedLenOfMessages(ms[1..]);
    }
  }

  /** The closed form of the size: both brackets, and every message with its comma but one. */
  lemma UnitsAreCosts(ms: seq<Message>)
    ensures Units(ms) == if ms == [] then 2 else 1 + TotalCost(ms)
  {
    JoinLen(MessageTexts(ms));
    JoinedLenOfMessages(ms);
    LenConcat3("[", Join(MessageTexts(ms)), "]");
    AsciiLen("[");
    AsciiLen("]");
  }

  lemma {:induction false} TotalCostConcat(a: seq<Message>, b: seq<Message>)
    ensures TotalCost(a + b) == TotalCost(a) + TotalCost(b)
  {
    if a == [] {
      assert a + b == b;
    } else {
      assert (a + b)[1..] == a[1..] + b;
      TotalCostConcat(a[1..], b);
    }
  }

  lemma TotalCostRemove(ms: seq<Message>, i: nat)
    requires i < |ms|
    ensures TotalCost(ms) == Cost(ms[i]) + TotalCost(ms[..i] + ms[i + 1..])
  {
    hide Cost;
    assert ms == ms[..i] + ms[i..];
    TotalCostConcat(ms[..i], ms[i..]);
    assert ms[i..][1..] == ms[i + 1..];
    TotalCostConcat(ms[..i], ms[i + 1..]);
  }

  lemma {:induction false} TotalCostPermutation(a: seq<Message>, b: seq<Message>)
    requires multiset(a) == multiset(b)
    ensures TotalCost(a) == TotalCost(b)
  {
    hide Cost;
    if a == [] {
      assert |b| == |multiset(b)| == 0;
    } else {
      assert a[0] in multiset(b);
      var i :| 0 <= i < |b| && b[i] == a[0];
      RemoveFromBoth(a, b, i);
      TotalCostPermutation(a[1..], b[..i] + b[i + 1..]);
      TotalCostRemove(b, i);
    }
  }

  /** The size does not depend on the order of the messages. */
  lemma UnitsPermutation(a: seq<Message>, b: seq<Message>)
    requires multiset(a) == multiset(b)
    ensures Units(a) == Units(b)
  {
    TotalCostPermutation(a, b);
    UnitsAreCosts(a);
    UnitsAreCosts(b);
    assert |a| == |multiset(a)| == |multiset(b)| == |b|;
  }

  /** Inserting a message anywhere makes the list strictly larger. */
  lemma UnitsInsert(a: seq<Message>, m: Message, b: seq<Message>)
    ensures Units(a + [m] + b) > Units(a + b)
  {
    hide Units, Cost;
    UnitsAreCosts(a + [m] + b);
    UnitsAreCosts(a + b);
    TotalCostConcat(a + [m], b);
    TotalCostConcat(a, [m]);
    TotalCostConcat(a, b);
    assert TotalCost([m]) == Cost(m) + TotalCost([]);
    MessageCost(m);
  }
}
