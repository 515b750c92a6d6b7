/**
 A reader for the JSON that goes to the provider: arrays of flat objects whose values are
 strings or bare tokens, with the escapes of section 7 of RFC 8259. Reading back what was
 written shows that no character and no field is lost or confused.
 */
module JsonReader {
  import opened Options
  import opened Sequences
  import opened JsonSize

  datatype Value = Text(text: string) | Bare(token: string)

  datatype Member = Member(key: string, value: Value)

  /** What was read, and what is left to read. */
  datatype Read<T> = Read(got: T, rest: string)

  function HexValue(c: char): Option<nat> {
    if '0' <= c <= '9' then Some(c as int - '0' as int)
    else if 'a' <= c <= 'f' then Some(10 + (c as int - 'a' as int))
    else None
  }

  /** The character a short escape stands for. */
  function ShortEscape(c: char): Option<char> {
    match c
    case '"' => Some('"')
    case '\\' => Some('\\')
    case '/' => Some('/')
    case 'b' => Some(8 as char)
    case 'f' => Some(12 as char)
    case 'n' => Some('\n')
    case 'r' => Some('\r')
    case 't' => Some('\t')
    case _ => None
  }

  /** A `\u` escape of the four digits in front. */
  function LongEscape(s: string): Option<char>
    requires |s| >= 4
  {
    var a, b, c, d := HexValue(s[0]), HexValue(s[1]), HexValue(s[2]), HexValue(s[3]);
    if a.None? || b.None? || c.None? || d.None? then None
    else
      var code := 4096 * a.value + 256 * b.value + 16 * c.value + d.value;
      if code < 0xD800 then Some(code as char) else None
  }

  /** The first character of a string's body, escaped or not. */
  function ReadChar(s: string): (r: Option<Read<char>>)
    ensures r.Some? ==> |r.value.rest| < |s|
  {
    if s == "" || s[0] == '"' || s[0] < ' ' then None
    else if s[0] != '\\' then Some(Read(s[0], s[1..]))
    else if |s| >= 6 && s[1] == 'u' then
      var c := LongEscape(s[2..6]);
      if c.None? then None else Some(Read(c.value, s[6..]))
    else if |s| >= 2 then
      var c := ShortEscape(s[1]);
      if c.None? then None else Some(Read(c.value, s[2..]))
    else None
  }

  /** A string's body up to its closing quote. */
  function ReadBody(s: string): (r: Option<Read<string>>)
    ensures r.Some? ==> |r.value.rest| < |s|
    decreases |s|
  {
    if s != "" && s[0] == '"' then Some(Read("", s[1..]))
    else
      var c := ReadChar(s);
      if c.None? then None
      else
        var more := ReadBody(c.value.rest);
        if more.None? then None else Some(Read([c.value.got] + more.value.got, more.value.rest))
  }

  predicate IsTokenChar(c: char) {
    '0' <= c <= '9' || c == '.' || c == '-' || c == '+' || c == 'e' || c == 'E'
  }

  function ReadToken(s: string): (r: Read<string>)
    ensures |r.rest| <= |s|
  {
    if s == "" || !IsTokenChar(s[0]) then Read("", s)
    else
      var more := ReadToken(s[1..]);
      Read([s[0]] + more.got, more.rest)
  }

  function ReadValue(s: string): (r: Option<Read<Value>>)
    ensures r.Some? ==> |r.value.rest| < |s|
  {
    if s != "" && s[0] == '"' then
      var body := ReadBody(s[1..]);
      if body.None? then None else Some(Read(Text(body.value.got), body.value.rest))
    else
      var token := ReadToken(s);
      if token.got == "" || |token.rest| >= |s| then None else Some(Read(Bare(token.got), token.rest))
  }

  /** `"key":value`. */
  function ReadMember(s: string): (r: Option<Read<Member>>)
    ensures r.Some? ==> |r.value.rest| < |s|
  {
    if s == "" || s[0] != '"' then None
    else
      var key := ReadBody(s[1..]);
      if key.None? || key.value.rest == "" || key.value.rest[0] != ':' then None
      else
        var value := ReadValue(key.value.rest[1..]);
        if value.None? then None else Some(Read(Member(key.value.got, value.value.got), value.value.rest))
  }

  /** Members up to the closing brace. */
  function ReadMembers(s: string): (r: Option<Read<seq<Member>>>)
    ensures r.Some? ==> |r.value.rest| < |s|
    decreases |s|
  {
    var m := ReadMember(s);
    if m.None? || m.value.rest == "" then None
    else if m.value.rest[0] == '}' then Some(Read([m.value.got], m.value.rest[1..]))
    else if m.value.rest[0] != ',' then None
    else
      var more := ReadMembers(m.value.rest[1..]);
      if more.None? then None else Some(Read([m.value.got] + more.value.got, more.value.rest))
  }

  function ReadObject(s: string): (r: Option<Read<seq<Member>>>)
    ensures r.Some? ==> |r.value.rest| < |s|
  {
    if s == "" || s[0] != '{' then None else ReadMembers(s[1..])
  }

  /** Objects up to the closing bracket. */
  function ReadObjects(s: string): Option<Read<seq<seq<Member>>>>
    decreases |s|
  {
    var o := ReadObject(s);
    if o.None? || o.value.rest == "" then None
    else if o.value.rest[0] == ']' then Some(Read([o.value.got], o.value.rest[1..]))
    else if o.value.rest[0] != ',' then None
    else
      var more := ReadObjects(o.value.rest[1..]);
      if more.None? then None else Some(Read([o.value.got] + more.value.got, more.value.rest))
  }

  function ReadArray(s: string): Option<Read<seq<seq<Member>>>> {
    if |s| < 2 || s[0] != '[' then None
    else if s[1] == ']' then Some(Read([], s[2..]))
    else ReadObjects(s[1..])
  }

  // ----- reading back strings

  lemma HexDigitValue(n: nat)
    requires n < 16
    ensures HexValue(HexDigit(n)) == Some(n)
  {
  }

  lemma ControlEscape(c: char, rest: string)
    requires c as int < 32 && EscapeChar(c) == "\\u00" + [HexDigit(c as int / 16), HexDigit(c as int % 16)]
    ensures ReadChar(EscapeChar(c) + rest) == Some(Read(c, rest))
  {
    var s := EscapeChar(c) + rest;
    HexDigitValue(c as int / 16);
    HexDigitValue(c as int % 16);
    assert HexValue('0') == Some(0);
    assert s[2..6] == ['0', '0', HexDigit(c as int / 16), HexDigit(c as int % 16)];
    assert s[6..] == rest;
  }

  /** Each character comes back as itself, whatever follows. */
  lemma CharComesBack(c: char, rest: string)
    ensures ReadChar(EscapeChar(c) + rest) == Some(Read(c, rest))
    ensures EscapeChar(c) != "" && EscapeChar(c)[0] != '"'
  {
    var s := EscapeChar(c) + rest;
    if |EscapeChar(c)| == 1 {
      assert s[1..] == rest;
    } else if |EscapeChar(c)| == 2 {
      assert s[2..] == rest;
    } else {
      ControlEscape(c, rest);
    }
  }

  lemma {:induction false} BodyComesBack(t: string, rest: string)
    ensures ReadBody(Escape(t) + "\"" + rest) == Some(Read(t, rest))
    decreases |t|
  {
    hide EscapeChar, ReadChar;
    var s := Escape(t) + "\"" + rest;
    if t == "" {
      assert s[1..] == rest;
    } else {
      var tail := Escape(t[1..]) + "\"" + rest;
      assert s == EscapeChar(t[0]) + tail;
      CharComesBack(t[0], tail);
      BodyComesBack(t[1..], rest);
      assert [t[0]] + t[1..] == t;
    }
  }

  lemma {:induction false} TokenComesBack(t: string, rest: string)
    requires (forall i :: 0 <= i < |t| ==> IsTokenChar(t[i])) && (rest == "" || !IsTokenChar(rest[0]))
    ensures ReadToken(t + rest) == Read(t, rest)
  {
    if t == "" {
      assert t + rest == rest;
    } else {
      assert (t + rest)[1..] == t[1..] + rest;
      TokenComesBack(t[1..], rest);
      assert [t[0]] + t[1..] == t;
    }
  }

  // ----- reading back members

  /** A value as it is written. */
  function Written(v: Value): string {
    if v.Text? then Quote(v.text) else v.token
  }

  predicate Readable(v: Value) {
    v.Bare? ==> v.token != "" && forall i :: 0 <= i < |v.token| ==> IsTokenChar(v.token[i])
  }

  lemma ValueComesBack(v: Value, rest: string)
    requires Readable(v) && rest != "" && !IsTokenChar(rest[0])
    ensures ReadValue(Written(v) + rest) == Some(Read(v, rest))
  {
    hide Escape;
    var s := Written(v) + rest;
    if v.Text? {
      assert s[1..] == Escape(v.text) + "\"" + rest;
      BodyComesBack(v.text, rest);
    } else {
      assert s[0] == v.token[0];
      TokenComesBack(v.token, rest);
    }
  }

  function MemberText(m: Member): string {
    Quote(m.key) + ":" + Written(m.value)
  }

  lemma MemberComesBack(m: Member, rest: string)
    requires Readable(m.value) && rest != "" && !IsTokenChar(rest[0])
    ensures ReadMember(MemberText(m) + rest) == Some(Read(m, rest))
  {
    hide Escape, Written, ReadBody, ReadValue, IsTokenChar;
    var tail := ":" + Written(m.value) + rest;
    QuotedText(m.key, tail);
    assert MemberText(m) + rest == Quote(m.key) + tail;
    BodyComesBack(m.key, tail);
    assert tail[1..] == Written(m.value) + rest;
    ValueComesBack(m.value, rest);
  }

  lemma QuotedText(t: string, rest: string)
    ensures (Quote(t) + rest)[0] == '"' && (Quote(t) + rest)[1..] == Escape(t) + "\"" + rest
  {
    hide Escape;
  }

  function MemberTexts(ms: seq<Member>): (r: seq<string>)
    ensures |r| == |ms|
  {
    seq(|ms|, i requires 0 <= i < |ms| => MemberText(ms[i]))
  }

  /** An object as it is written. */
  function ObjectText(ms: seq<Member>): string {
    "{" + Join(MemberTexts(ms)) + "}"
  }

  ghost predicate AllReadable(ms: seq<Member>) {
    ms != [] && forall i :: 0 <= i < |ms| ==> Readable(ms[i].value)
  }

  lemma {:induction false} MembersComeBack(ms: seq<Member>, rest: string)
    requires AllReadable(ms)
    ensures ReadMembers(Join(MemberTexts(ms)) + "}" + rest) == Some(Read(ms, rest))
    decreases |ms|
  {
    hide MemberText, ReadMember, Readable;
    var s := Join(MemberTexts(ms)) + "}" + rest;
    if |ms| == 1 {
      assert s == MemberText(ms[0]) + ("}" + rest);
      MemberComesBack(ms[0], "}" + rest);
      assert ("}" + rest)[1..] == rest;
      assert [ms[0]] == ms;
    } else {
      assert MemberTexts(ms)[1..] == MemberTexts(ms[1..]);
      var more := Join(MemberTexts(ms[1..])) + "}" + rest;
      assert s == MemberText(ms[0]) + ("," + more);
      MemberComesBack(ms[0], "," + more);
      assert ("," + more)[1..] == more;
      MembersComeBack(ms[1..], rest);
      assert [ms[0]] + ms[1..] == ms;
    }
  }

  lemma ObjectComesBack(ms: seq<Member>, rest: string)
    requires AllReadable(ms)
    ensures ReadObject(ObjectText(ms) + rest) == Some(Read(ms, rest))
  {
    hide Join, ReadMembers;
    assert (ObjectText(ms) + rest)[1..] == Join(MemberTexts(ms)) + "}" + rest;
    MembersComeBack(ms, rest);
  }

  function ObjectTexts(os: seq<seq<Member>>): (r: seq<string>)
    ensures |r| == |os|
  {
    seq(|os|, i requires 0 <= i < |os| => ObjectText(os[i]))
  }

  lemma {:induction false} ObjectsComeBack(os: seq<seq<Member>>, rest: string)
    requires os != [] && forall i :: 0 <= i < |os| ==> AllReadable(os[i])
    ensures ReadObjects(Join(ObjectTexts(os)) + "]" + rest) == Some(Read(os, rest))
    decreases |os|
  {
    hide ObjectText, ReadObject, AllReadable;
    var s := Join(ObjectTexts(os)) + "]" + rest;
    if |os| == 1 {
      assert s == ObjectText(os[0]) + ("]" + rest);
      ObjectComesBack(os[0], "]" + rest);
      assert ("]" + rest)[1..] == rest;
      assert [os[0]] == os;
    } else {
      assert ObjectTexts(os)[1..] == ObjectTexts(os[1..]);
      var more := Join(ObjectTexts(os[1..])) + "]" + rest;
      assert s == ObjectText(os[0]) + ("," + more);
      ObjectComesBack(os[0], "," + more);
      assert ("," + more)[1..] == more;
      ObjectsComeBack(os[1..], rest);
      assert [os[0]] + os[1..] == os;
    }
  }

  /** An array of objects comes back as it was written. */
  lemma ArrayComesBack(os: seq<seq<Member>>)
    requires forall i :: 0 <= i < |os| ==> AllReadable(os[i])
    ensures ReadArray("[" + Join(ObjectTexts(os)) + "]") == Some(Read(os, ""))
  {
    hide ReadObjects, ObjectText, AllReadable;
    var s := "[" + Join(ObjectTexts(os)) + "]";
    if os == [] {
      assert ObjectTexts(os) == [];
      assert s == "[]" && s[2..] == "";
    } else {
      FirstBrace(os);
      assert s[1..] == Join(ObjectTexts(os)) + "]" + "";
      ObjectsComeBack(os, "");
    }
  }

  lemma FirstBrace(os: seq<seq<Member>>)
    requires os != []
    ensures Join(ObjectTexts(os)) != "" && Join(ObjectTexts(os))[0] == '{'
  {
    assert ObjectTexts(os)[0][0] == '{';
  }

  // ----- messages

  function MessageMembers(m: Message): seq<Member> {
    [Member("content", Text(m.content)), Member("role", Text(m.role))]
  }

  /** A member with a plain key, in pieces. */
  lemma PlainMember(key: string, v: Value)
    requires Plain(key)
    ensures MemberText(Member(key, v)) == "\"" + key + "\":" + Written(v)
  {
    hide Escape, Written;
    PlainEscape(key);
    assert "\"" + key + "\"" + ":" == "\"" + key + "\":";
  }

  lemma {:induction false} JoinSnoc(parts: seq<string>, last: string)
    requires parts != []
    ensures Join(parts + [last]) == Join(parts) + "," + last
  {
    if |parts| == 1 {
      assert (parts + [last])[1..] == [last];
    } else {
      assert (parts + [last])[1..] == parts[1..] + [last];
      JoinSnoc(parts[1..], last);
      assert parts[0] + "," + (Join(parts[1..]) + "," + last) == parts[0] + "," + Join(parts[1..]) + "," + last;
    }
  }

  lemma MemberTextsSnoc(ms: seq<Member>, last: Member)
    requires ms != []
    ensures Join(MemberTexts(ms + [last])) == Join(MemberTexts(ms)) + "," + MemberText(last)
  {
    hide MemberText, Join;
    assert MemberTexts(ms + [last]) == MemberTexts(ms) + [MemberText(last)];
    JoinSnoc(MemberTexts(ms), MemberText(last));
  }

  /** A further member, `lead` being the comma, the quoted key and the colon. */
  lemma MoreText(ms: seq<Member>, key: string, lead: string, v: Value)
    requires ms != [] && Plain(key) && lead == ",\"" + key + "\":"
    ensures Join(MemberTexts(ms + [Member(key, v)])) == Join(MemberTexts(ms)) + lead + Written(v)
  {
    hide MemberText, Join, Written, MemberTexts;
    MemberTextsSnoc(ms, Member(key, v));
    PlainMember(key, v);
    var so, text := Join(MemberTexts(ms)), Written(v);
    assert so + "," + ("\"" + key + "\":" + text) == so + lead + text;
  }

  lemma FirstText(key: string, lead: string, v: Value)
    requires Plain(key) && lead == "{\"" + key + "\":"
    ensures "{" + Join(MemberTexts([Member(key, v)])) == lead + Written(v)
  {
    hide MemberText, Written;
    PlainMember(key, v);
    var text := Written(v);
    assert Join(MemberTexts([Member(key, v)])) == MemberText(Member(key, v));
    assert "{" + ("\"" + key + "\":" + text) == lead + text;
  }

  lemma MessageText(m: Message)
    ensures MessageJson(m) == ObjectText(MessageMembers(m))
  {
    hide Quote, MemberText, MemberTexts, Join;
    var content, role := Text(m.content), Text(m.role);
    FirstText("content", "{\"content\":", content);
    MoreText([Member("content", content)], "role", ",\"role\":", role);
    assert [Member("content", content)] + [Member("role", role)] == MessageMembers(m);
  }

  function AllMembers(ms: seq<Message>): (r: seq<seq<Member>>)
    ensures |r| == |ms|
  {
    seq(|ms|, i requires 0 <= i < |ms| => MessageMembers(ms[i]))
  }

  /** The text whose size is measured is the message list: each object has exactly its content and role, in order. */
  lemma MessagesComeBack(ms: seq<Message>)
    ensures var r := ReadArray(MessagesJson(ms));
            && r.Some? && r.value.rest == "" && |r.value.got| == |ms|
            && forall i :: 0 <= i < |ms| ==>
                 r.value.got[i] == [Member("content", Text(ms[i].content)), Member("role", Text(ms[i].role))]
  {
    hide MessageJson, ObjectText, ReadArray, Join;
    var os := AllMembers(ms);
    forall i | 0 <= i < |ms| ensures MessageTexts(ms)[i] == ObjectTexts(os)[i] {
      MessageText(ms[i]);
    }
    assert MessageTexts(ms) == ObjectTexts(os);
    ArrayComesBack(os);
  }
}
