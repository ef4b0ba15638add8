/** The strings of the control socket's answers: jsonEscape, its inverse, and the members of an object. */
module JsonText {
  import opened Sequences

  /** What jsonEscape emits for one character. */
  function EscapeChar(c: char): string {
    match c
    case '\\' => "\\\\"
    case '\"' => "\\\""
    case '\n' => "\\n"
    case '\r' => "\\r"
    case '\t' => "\\t"
    case _ => [c]
  }

  function Escape(s: string): string {
    if s == [] then [] else EscapeChar(s[0]) + Escape(s[1..])
  }

  /** The five characters that are escaped, and how; all others stand for themselves. */
  lemma EscapeTable(c: char)
    ensures Escape("\n") == ['\\', 'n'] && Escape("\r") == ['\\', 'r'] && Escape("\t") == ['\\', 't']
    ensures Escape("\\") == ['\\', '\\'] && Escape("\"") == ['\\', '\"']
    ensures c !in ['\n', '\r', '\t', '\\', '\"'] ==> Escape([c]) == [c]
  {
    EscapeOne('\n');
    EscapeOne('\r');
    EscapeOne('\t');
    EscapeOne('\\');
    EscapeOne('\"');
    EscapeOne(c);
  }

  lemma EscapeOne(c: char)
    ensures Escape([c]) == EscapeChar(c)
  {
    assert [c][1..] == [] && EscapeChar(c) + [] == EscapeChar(c);
  }

  /** Characters are escaped one by one. */
  lemma {:induction false} EscapeConcat(a: string, b: string)
    ensures Escape(a + b) == Escape(a) + Escape(b)
  {
    if a == [] {
      assert a + b == b;
    } else {
      assert (a + b)[1..] == a[1..] + b;
      EscapeConcat(a[1..], b);
    }
  }

  /** The character a two-character escape stands for (section 7 of RFC 8259, without `/`, `b`, `f` and `u`). */
  function Escaped(c: char): Option<char> {
    match c
    case '\\' => Some('\\')
    case '\"' => Some('\"')
    case 'n' => Some('\n')
    case 'r' => Some('\r')
    case 't' => Some('\t')
    case _ => None
  }

  /** Read a string up to its closing quote: its value, and the text behind the quote. */
  function ReadString(t: string): (r: Option<(string, string)>)
    ensures r.Some? ==> |r.value.1| < |t|
  {
    if t == [] then None
    else if t[0] == '\"' then Some(("", t[1..]))
    else if t[0] == '\\' then
      if |t| == 1 || Escaped(t[1]).None? then None
      else Prepend(Escaped(t[1]).value, ReadString(t[2..]))
    else Prepend(t[0], ReadString(t[1..]))
  }

  function Prepend(c: char, r: Option<(string, string)>): Option<(string, string)> {
    if r.None? then None else Some(([c] + r.value.0, r.value.1))
  }

  lemma ReadChar(c: char, later: string)
    ensures ReadString(EscapeChar(c) + later) == Prepend(c, ReadString(later))
  {
    var e := EscapeChar(c);
    assert (e + later)[|e|..] == later;
  }

  /** Reading undoes escaping, whatever follows the closing quote. */
  lemma {:induction false} ReadEscaped(s: string, rest: string)
    ensures ReadString(Escape(s) + ("\"" + rest)) == Some((s, rest))
  {
    var tail := "\"" + rest;
    if s == [] {
      assert Escape(s) + tail == tail;
    } else {
      ReadEscaped(s[1..], rest);
      Associate(EscapeChar(s[0]), Escape(s[1..]), tail);
      ReadChar(s[0], Escape(s[1..]) + tail);
      assert [s[0]] + s[1..] == s;
    }
  }

  /** No two strings have the same escaped form. */
  lemma EscapeInjective(s: string, t: string)
    requires Escape(s) == Escape(t)
    ensures s == t
  {
    ReadEscaped(s, []);
    ReadEscaped(t, []);
  }

  /** The texts jsonEscape can produce: no bare quote or control escape, every backslash starts one of the five
      escapes. */
  predicate WellEscaped(t: string) {
    if t == [] then true
    else if t[0] == '\\' then |t| > 1 && Escaped(t[1]).Some? && WellEscaped(t[2..])
    else t[0] !in ['\"', '\n', '\r', '\t'] && WellEscaped(t[1..])
  }

  lemma {:induction false} EscapeWell(s: string)
    ensures WellEscaped(Escape(s))
  {
    if s != [] {
      EscapeWell(s[1..]);
      var e := EscapeChar(s[0]);
      assert Escape(s)[|e|..] == Escape(s[1..]);
    }
  }

  /** And exactly those: on them, escaping undoes reading. */
  lemma {:induction false} ReadWell(t: string, rest: string)
    requires WellEscaped(t)
    ensures var r := ReadString(t + ("\"" + rest)); r.Some? && Escape(r.value.0) == t && r.value.1 == rest
    decreases |t|
  {
    hide Escape;
    var tail := "\"" + rest;
    if t == [] {
      assert t + tail == tail;
      EscapeNone();
    } else {
      var k := if t[0] == '\\' then 2 else 1;
      ReadWell(t[k..], rest);
      assert (t + tail)[k..] == t[k..] + tail;
      var v := ReadString(t[k..] + tail).value.0;
      var c := if k == 2 then Escaped(t[1]).value else t[0];
      EscapeFirst(c, v);
      assert t[..k] == EscapeChar(c);
      assert t == t[..k] + t[k..];
    }
  }

  lemma EscapeNone()
    ensures Escape("") == ""
  {
  }

  lemma EscapeFirst(c: char, later: string)
    ensures Escape([c] + later) == EscapeChar(c) + Escape(later)
  {
    assert ([c] + later)[1..] == later;
  }

  predicate NoNewline(s: string) {
    forall i :: 0 <= i < |s| ==> s[i] != '\n'
  }

  lemma {:induction false} EscapeNoNewline(s: string)
    ensures NoNewline(Escape(s))
  {
    if s != [] {
      EscapeNoNewline(s[1..]);
    }
  }

  /** jsonEscape. */
  method JsonEscape(text: string) returns (os: string)
    ensures os == Escape(text)
  {
    os := "";
    var i := 0;
    while i < |text|
      invariant i <= |text|
      invariant os + Escape(text[i..]) == Escape(text)
    {
      assert text[i..][1..] == text[i + 1..];
      Associate(os, EscapeChar(text[i]), Escape(text[i + 1..]));
      ghost var before := os;
      match text[i] {
        case '\\' => os := os + "\\\\";
        case '\"' => os := os + "\\\"";
        case '\n' => os := os + "\\n";
        case '\r' => os := os + "\\r";
        case '\t' => os := os + "\\t";
        case _ => os := os + [text[i]];
      }
      assert os == before + EscapeChar(text[i]);
      i := i + 1;
    }
  }

  // ----- members of an object, printed in front of what follows

  function Member(key: string, value: string, rest: string): string {
    "\"" + (key + ("\":\"" + (Escape(value) + ("\"" + rest))))
  }

  function Flag(key: string, value: bool, rest: string): string {
    "\"" + (key + ("\":" + ((if value then "true" else "false") + rest)))
  }

  /** The text behind `word`, if the text begins with it. */
  function Expect(word: string, t: string): Option<string> {
    if word <= t then Some(t[|word|..]) else None
  }

  lemma ExpectFound(word: string, rest: string)
    ensures Expect(word, word + rest) == Some(rest)
  {
    assert (word + rest)[|word|..] == rest;
  }

  function ReadMember(key: string, t: string): (r: Option<(string, string)>)
    ensures r.Some? ==> |r.value.1| < |t|
  {
    var a := Expect("\"", t);
    if a.None? then None else
      var b := Expect(key, a.value);
      if b.None? then None else
        var c := Expect("\":\"", b.value);
        if c.None? then None else ReadString(c.value)
  }

  function ReadFlag(key: string, t: string): (r: Option<(bool, string)>)
    ensures r.Some? ==> |r.value.1| < |t|
  {
    var a := Expect("\"", t);
    if a.None? then None else
      var b := Expect(key, a.value);
      if b.None? then None else
        var c := Expect("\":", b.value);
        if c.None? then None else
          var yes, no := Expect("true", c.value), Expect("false", c.value);
          if yes.Some? then Some((true, yes.value))
          else if no.Some? then Some((false, no.value))
          else None
  }

  lemma MemberRead(key: string, value: string, rest: string)
    ensures ReadMember(key, Member(key, value, rest)) == Some((value, rest))
  {
    var e := Escape(value) + ("\"" + rest);
    ExpectFound("\"", key + ("\":\"" + e));
    ExpectFound(key, "\":\"" + e);
    ExpectFound("\":\"", e);
    ReadEscaped(value, rest);
  }

  lemma FlagRead(key: string, value: bool, rest: string)
    ensures ReadFlag(key, Flag(key, value, rest)) == Some((value, rest))
  {
    var word := if value then "true" else "false";
    ExpectFound("\"", key + ("\":" + (word + rest)));
    ExpectFound(key, "\":" + (word + rest));
    ExpectFound("\":", word + rest);
    ExpectFound(word, rest);
    assert (word + rest)[0] == word[0];
  }

  // ----- one line

  /** Exactly one newline, at the end. */
  predicate IsLine(t: string) {
    t != [] && t[|t| - 1] == '\n' && NoNewline(t[..|t| - 1])
  }

  lemma LinePrefix(a: string, rest: string)
    requires NoNewline(a) && IsLine(rest)
    ensures IsLine(a + rest)
  {
    assert (a + rest)[..|a + rest| - 1] == a + rest[..|rest| - 1];
  }

  lemma MemberLine(key: string, value: string, rest: string)
    requires NoNewline(key) && IsLine(rest)
    ensures IsLine(Member(key, value, rest))
  {
    EscapeNoNewline(value);
    LinePrefix("\"", rest);
    LinePrefix(Escape(value), "\"" + rest);
    LinePrefix("\":\"", Escape(value) + ("\"" + rest));
    LinePrefix(key, "\":\"" + (Escape(value) + ("\"" + rest)));
    LinePrefix("\"", key + ("\":\"" + (Escape(value) + ("\"" + rest))));
  }

  lemma FlagLine(key: string, value: bool, rest: string)
    requires NoNewline(key) && IsLine(rest)
    ensures IsLine(Flag(key, value, rest))
  {
    var word := if value then "true" else "false";
    LinePrefix(word, rest);
    LinePrefix("\":", word + rest);
    LinePrefix(key, "\":" + (word + rest));
    LinePrefix("\"", key + ("\":" + (word + rest)));
  }

  // ----- writing to the output stream

  /** Append a member to the stream; `rest` is what will follow. */
  method WriteMember(os: string, separator: string, key: string, value: string, ghost rest: string) returns (r: string)
    ensures r + rest == os + (separator + Member(key, value, rest))
  {
    var escaped := JsonEscape(value);
    var text := separator + "\"" + key + "\":\"" + escaped + "\"";
    r := os + text;
    assert text + rest == separator + Member(key, value, rest);
  }

  method WriteFlag(os: string, separator: string, key: string, value: bool, ghost rest: string) returns (r: string)
    ensures r + rest == os + (separator + Flag(key, value, rest))
  {
    var word := if value then "true" else "false";
    var text := separator + "\"" + key + "\":" + word;
    r := os + text;
    assert text + rest == separator + Flag(key, value, rest);
  }
}
