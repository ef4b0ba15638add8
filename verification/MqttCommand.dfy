/** parseCommandLine of the MQTT bridge, and the way a command takes from the payload to the control socket. */
module MqttCommand {
  import opened Sequences
  import opened Sockets
  import opened JsonText
  import opened ControlChannel

  // ----- what the string operations mean

  /** `word` occurs in `s` at position `i`. */
  predicate OccursAt(s: string, word: string, i: int) {
    0 <= i && i + |word| <= |s| && s[i..i + |word|] == word
  }

  predicate Contains(s: string, word: string) {
    exists i :: 0 <= i <= |s| && OccursAt(s, word, i)
  }

  /** std::string::find: the first occurrence at or behind `from`, or -1. */
  function Find(s: string, word: string, from: nat): (i: int)
    requires from <= |s|
    ensures i == -1 || (from <= i && OccursAt(s, word, i))
    ensures forall k :: from <= k && (i == -1 || k < i) ==> !OccursAt(s, word, k)
    decreases |s| - from
  {
    if OccursAt(s, word, from) then from
    else if from == |s| then -1
    else Find(s, word, from + 1)
  }

  /** The only answer Find can give. */
  lemma FindIs(s: string, word: string, from: nat, i: int)
    requires from <= |s| && from <= i && OccursAt(s, word, i)
    requires forall k :: from <= k < i ==> !OccursAt(s, word, k)
    ensures Find(s, word, from) == i
  {
  }

  lemma FindContains(s: string, word: string)
    ensures Find(s, word, 0) == -1 <==> !Contains(s, word)
  {
  }

  predicate IsBlank(c: char) { c == ' ' || c == '\t' }

  predicate IsBreak(c: char) { c == '\n' || c == '\r' }

  function TrimEnd(s: string): string {
    if s != [] && IsBreak(s[|s| - 1]) then TrimEnd(s[..|s| - 1]) else s
  }

  function TrimStart(s: string): string {
    if s != [] && IsBlank(s[0]) then TrimStart(s[1..]) else s
  }

  /** The text up to the next quote, or to the end. */
  function UpToQuote(s: string): string {
    if s == [] || s[0] == '\"' then "" else [s[0]] + UpToQuote(s[1..])
  }

  /** The quoted value behind `key`, as the bridge looks for it; empty values do not count. */
  function ValueOf(s: string, key: string): Option<string> {
    var k := Find(s, key, 0);
    if k == -1 then None else
      var colon := Find(s, ":", k);
      if colon == -1 then None else
        var t := TrimStart(s[colon + 1..]);
        if t == [] || t[0] != '\"' then None else
          var v := UpToQuote(t[1..]);
          if v == [] then None else Some(v)
  }

  const CMD := "\"cmd\""
  const SELECTOR := "\"selector\""
  const URL := "\"url\""

  function WithPrefix(prefix: string, v: Option<string>): Option<string> {
    if v.None? then None else Some(prefix + v.value)
  }

  /** What parseCommandLine makes of a payload. */
  function Parse(payload: string): Option<string> {
    var s := TrimStart(TrimEnd(payload));
    if s == "disconnect" then Some("DISCONNECT")
    else if "switch " <= s then Some("SWITCH " + s[|"switch "|..])
    else if "ota " <= s then Some("OTA " + s[|"ota "|..])
    else if Contains(s, CMD) && Contains(s, "disconnect") then Some("DISCONNECT")
    else if Contains(s, CMD) && Contains(s, "switch") then WithPrefix("SWITCH ", ValueOf(s, SELECTOR))
    else if Contains(s, CMD) && Contains(s, "ota") then WithPrefix("OTA ", ValueOf(s, URL))
    else None
  }

  // ----- the code

  method FindWord(s: string, word: string, from: nat) returns (i: int)
    requires from <= |s|
    ensures i == Find(s, word, from)
  {
    var k := from;
    while k <= |s|
      invariant from <= k <= |s| + 1
      invariant forall j :: from <= j < k ==> !OccursAt(s, word, j)
    {
      if k + |word| <= |s| && s[k..k + |word|] == word {
        FindIs(s, word, from, k);
        return k;
      }
      k := k + 1;
    }
    i := -1;
  }

  /** The position of the first character that is not blank. */
  method SkipBlanks(s: string, from: nat) returns (pos: nat)
    requires from <= |s|
    ensures pos <= |s| && s[pos..] == TrimStart(s[from..])
  {
    pos := from;
    while pos < |s| && (s[pos] == ' ' || s[pos] == '\t')
      invariant from <= pos <= |s|
      invariant TrimStart(s[pos..]) == TrimStart(s[from..])
    {
      assert s[pos..][1..] == s[pos + 1..];
      pos := pos + 1;
    }
  }

  /** The characters up to the closing quote; escapes are not handled. */
  method TakeQuoted(s: string, from: nat) returns (sel: string)
    requires from <= |s|
    ensures sel == UpToQuote(s[from..])
  {
    var pos := from;
    sel := "";
    while pos < |s| && s[pos] != '\"'
      invariant from <= pos <= |s|
      invariant sel + UpToQuote(s[pos..]) == UpToQuote(s[from..])
    {
      assert s[pos..][1..] == s[pos + 1..];
      Associate(sel, [s[pos]], UpToQuote(s[pos + 1..]));
      sel := sel + [s[pos]];
      pos := pos + 1;
    }
    assert sel + "" == sel;
  }

  /** The two identical passages that take the quoted value behind a key. */
  method QuotedValue(s: string, key: string) returns (v: Option<string>)
    ensures v == ValueOf(s, key)
  {
    hide TrimStart, UpToQuote;
    var pos := FindWord(s, key, 0);
    if pos == -1 {
      return None;
    }
    pos := FindWord(s, ":", pos);
    if pos == -1 {
      return None;
    }
    pos := SkipBlanks(s, pos + 1);
    if pos >= |s| || s[pos] != '\"' {
      return None;
    }
    assert s[pos..][1..] == s[pos + 1..];
    var sel := TakeQuoted(s, pos + 1);
    if sel == "" {
      return None;
    }
    v := Some(sel);
  }

  method ParseCommandLine(payload: string) returns (cmd: Option<string>)
    ensures cmd == Parse(payload)
  {
    var s := payload;
    while s != [] && (s[|s| - 1] == '\n' || s[|s| - 1] == '\r')
      invariant TrimEnd(s) == TrimEnd(payload)
      decreases |s|
    {
      s := s[..|s| - 1];
    }
    while s != [] && (s[0] == ' ' || s[0] == '\t')
      invariant TrimStart(s) == TrimStart(TrimEnd(payload))
      decreases |s|
    {
      s := s[1..];
    }
    if s == "disconnect" {
      return Some("DISCONNECT");
    }
    if "switch " <= s {
      return Some("SWITCH " + s[|"switch "|..]);
    }
    if "ota " <= s {
      return Some("OTA " + s[|"ota "|..]);
    }
    FindContains(s, CMD);
    FindContains(s, "disconnect");
    FindContains(s, "switch");
    FindContains(s, "ota");
    var c := FindWord(s, CMD, 0);
    var d := FindWord(s, "disconnect", 0);
    if c != -1 && d != -1 {
      return Some("DISCONNECT");
    }
    var w := FindWord(s, "switch", 0);
    if c != -1 && w != -1 {
      var sel := QuotedValue(s, SELECTOR);
      return if sel == None then None else Some("SWITCH " + sel.value);
    }
    var o := FindWord(s, "ota", 0);
    if c != -1 && o != -1 {
      var url := QuotedValue(s, URL);
      return if url == None then None else Some("OTA " + url.value);
    }
    cmd := None;
  }

  // ----- the two forms of a switch command

  predicate EndsInBreak(s: string) { s != [] && IsBreak(s[|s| - 1]) }

  lemma {:induction false} TrimEndKeeps(a: string, b: string)
    requires a != [] && !IsBreak(a[|a| - 1])
    ensures TrimEnd(a + b) == a + TrimEnd(b)
    decreases |b|
  {
    if b == [] {
      assert a + b == a;
    } else if IsBreak(b[|b| - 1]) {
      assert (a + b)[..|a + b| - 1] == a + b[..|b| - 1];
      TrimEndKeeps(a, b[..|b| - 1]);
    }
  }

  lemma {:induction false} TrimEndShort(s: string)
    ensures |TrimEnd(s)| <= |s|
    ensures EndsInBreak(s) ==> |TrimEnd(s)| < |s|
  {
    if EndsInBreak(s) {
      TrimEndShort(s[..|s| - 1]);
    }
  }

  /** The text form reaches the same selector exactly when it does not end in a line break. */
  lemma TextForm(sel: string)
    ensures Parse("switch " + sel) == Some("SWITCH " + sel) <==> !EndsInBreak(sel)
  {
    var word := "switch ";
    var t := word + TrimEnd(sel);
    TrimEndKeeps(word, sel);
    TrimEndShort(sel);
    assert TrimStart(t) == t && word <= t && t[|word|..] == TrimEnd(sel);
    assert t != "disconnect" by { assert t[0] == 's'; }
    assert Parse(word + sel) == Some("SWITCH " + TrimEnd(sel));
    assert ("SWITCH " + TrimEnd(sel))[7..] == TrimEnd(sel) && ("SWITCH " + sel)[7..] == sel;
  }

  const JSON_OPEN := "{" + CMD + ":\"" + "switch" + "\"," + SELECTOR + ":\""
  const JSON_CLOSE := "\"}"

  function Json(sel: string): string { JSON_OPEN + (sel + JSON_CLOSE) }

  predicate NoQuote(s: string) {
    forall i :: 0 <= i < |s| ==> s[i] != '\"'
  }

  /** What is read is the value exactly when the value has no quote. */
  lemma {:induction false} UpToQuoteStops(s: string, rest: string)
    requires rest != [] && rest[0] == '\"'
    ensures UpToQuote(s + rest) == s <==> NoQuote(s)
    ensures UpToQuote(s + rest) <= s
  {
    if s == [] {
      assert s + rest == rest;
    } else {
      assert (s + rest)[1..] == s[1..] + rest;
      UpToQuoteStops(s[1..], rest);
      assert NoQuote(s) <==> s[0] != '\"' && NoQuote(s[1..]) by {
        assert forall i :: 0 < i < |s| ==> s[i] == s[1..][i - 1];
        assert forall i :: 0 <= i < |s| - 1 ==> s[1..][i] == s[i + 1];
      }
      if s[0] != '\"' {
        var u := UpToQuote(s[1..] + rest);
        assert ([s[0]] + u)[1..] == u && [s[0]] + s[1..] == s;
      }
    }
  }

  /** The quotes in the fixed part, and the letters behind the first of them. */
  lemma OpenQuotes(k: int)
    requires 0 <= k < |JSON_OPEN|
    ensures |JSON_OPEN| == 28
    ensures JSON_OPEN[k] == '\"' <==> k in {1, 5, 7, 14, 16, 25, 27}
    ensures JSON_OPEN[k] == ':' <==> k in {6, 26}
    ensures JSON_OPEN[2] == 'c' && JSON_OPEN[6] == ':' && JSON_OPEN[9] == 'w' && JSON_OPEN[15] == ','
  {
  }

  /** Where the first key and the colon behind it are. */
  lemma SelectorPlace(sel: string)
    ensures Find(Json(sel), SELECTOR, 0) == 16
    ensures Find(Json(sel), ":", 16) == 26
    ensures Json(sel)[27..] == "\"" + (sel + JSON_CLOSE)
  {
    var s := Json(sel);
    assert |JSON_OPEN| == 28 && s[..28] == JSON_OPEN;
    assert s[16..26] == JSON_OPEN[16..26] == SELECTOR;
    forall k | 0 <= k < 16 ensures !OccursAt(s, SELECTOR, k) {
      OpenQuotes(k);
      assert s[k] == JSON_OPEN[k] && s[k + 1] == JSON_OPEN[k + 1] && s[k + 2] == JSON_OPEN[k + 2];
      assert s[k..k + 10][0] == s[k] && s[k..k + 10][1] == s[k + 1] && s[k..k + 10][2] == s[k + 2];
    }
    FindIs(s, SELECTOR, 0, 16);
    forall k | 16 <= k < 26 ensures !OccursAt(s, ":", k) {
      OpenQuotes(k);
      assert s[k..k + 1][0] == s[k] == JSON_OPEN[k];
    }
    OpenQuotes(26);
    assert s[26..27] == [s[26]] == ":";
    FindIs(s, ":", 16, 26);
  }

  lemma JsonValue(sel: string)
    ensures ValueOf(Json(sel), SELECTOR) == Some(sel) <==> NoQuote(sel) && sel != []
  {
    SelectorPlace(sel);
    UpToQuoteStops(sel, JSON_CLOSE);
    var t := "\"" + (sel + JSON_CLOSE);
    assert TrimStart(t) == t && t[1..] == sel + JSON_CLOSE;
  }

  /** A word without quotes occurs in the whole text only where it occurs in the selector, or in the fixed part. */
  lemma DisconnectOnlyInside(sel: string)
    ensures Contains(Json(sel), "disconnect") <==> Contains(sel, "disconnect")
  {
    var s, word := Json(sel), "disconnect";
    if Contains(sel, word) {
      var i :| 0 <= i <= |sel| && OccursAt(sel, word, i);
      assert s[28 + i..28 + i + |word|] == sel[i..i + |word|];
      assert OccursAt(s, word, 28 + i);
    }
    if Contains(s, word) {
      var i :| 0 <= i <= |s| && OccursAt(s, word, i);
      InsideOnly(sel, i);
      assert sel[i - 28..i - 28 + |word|] == s[i..i + |word|];
      assert OccursAt(sel, word, i - 28);
    }
  }

  lemma InsideOnly(sel: string, i: int)
    requires OccursAt(Json(sel), "disconnect", i)
    ensures 28 <= i && i + 10 <= 28 + |sel|
  {
    var s, word := Json(sel), "disconnect";
    OpenQuotes(0);
    assert |s| == 30 + |sel|;
    assert s[28 + |sel|] == '\"';
    assert forall k :: 0 <= k < 28 ==> s[k] == JSON_OPEN[k];
    OpenQuotes(5);
    OpenQuotes(14);
    OpenQuotes(16);
    OpenQuotes(25);
    OpenQuotes(27);
    forall k | i <= k < i + 10 ensures s[k] != '\"' {
      assert s[i..i + 10][k - i] == s[k];
      assert word[k - i] != '\"';
    }
  }

  lemma FixedWords(sel: string)
    ensures Contains(Json(sel), CMD) && Contains(Json(sel), "switch")
  {
    var s := Json(sel);
    assert |JSON_OPEN| == 28;
    assert s[1..6] == JSON_OPEN[1..6] == CMD;
    assert OccursAt(s, CMD, 1);
    assert s[8..14] == JSON_OPEN[8..14] == "switch";
    assert OccursAt(s, "switch", 8);
  }

  /** The JSON form reaches the same selector exactly when the selector is not empty, has no quote and does not
      contain `disconnect`; one that does disconnects instead. */
  lemma JsonForm(sel: string)
    ensures Parse(Json(sel)) == Some("SWITCH " + sel) <==>
            sel != [] && NoQuote(sel) && !Contains(sel, "disconnect")
    ensures Contains(sel, "disconnect") ==> Parse(Json(sel)) == Some("DISCONNECT")
  {
    var s := Json(sel);
    assert s[0] == '{' && s[|s| - 1] == '}';
    assert TrimEnd(s) == s && TrimStart(s) == s;
    assert forall i :: 0 <= i < 28 ==> s[i] == JSON_OPEN[i];
    FixedWords(sel);
    DisconnectOnlyInside(sel);
    JsonValue(sel);
    var v := ValueOf(s, SELECTOR);
    if v.Some? {
      assert ("SWITCH " + v.value)[7..] == v.value && ("SWITCH " + sel)[7..] == sel;
    }
    assert "DISCONNECT"[0] == 'D' && ("SWITCH " + sel)[0] == 'S';
  }

  // ----- the quoted value behind a key, without its search

  /** `s` holds `v` behind `key`: the first place where the key stands, a colon, blanks, and the value up to a quote. */
  ghost predicate HoldsValue(s: string, key: string, v: string,
                             before: string, between: string, blanks: string, rest: string)
  {
    && s == before + (key + (between + (":" + (blanks + ("\"" + (v + rest))))))
    && (forall k :: 0 <= k < |before| ==> !OccursAt(s, key, k))
    && ':' !in between && (forall i :: 0 <= i < |blanks| ==> IsBlank(blanks[i]))
    && v != [] && NoQuote(v) && (rest == [] || rest[0] == '\"')
  }

  lemma {:induction false} TrimStartBlanks(blanks: string, t: string)
    requires forall i :: 0 <= i < |blanks| ==> IsBlank(blanks[i])
    ensures TrimStart(blanks + t) == TrimStart(t)
  {
    if blanks == [] {
      assert blanks + t == t;
    } else {
      assert (blanks + t)[1..] == blanks[1..] + t;
      TrimStartBlanks(blanks[1..], t);
    }
  }

  lemma {:induction false} TrimStartParts(t: string) returns (blanks: string)
    ensures t == blanks + TrimStart(t) && forall i :: 0 <= i < |blanks| ==> IsBlank(blanks[i])
  {
    blanks := "";
    if t != [] && IsBlank(t[0]) {
      var more := TrimStartParts(t[1..]);
      blanks := [t[0]] + more;
      assert t == [t[0]] + t[1..];
    }
  }

  lemma {:induction false} UpToQuoteParts(t: string)
    ensures UpToQuote(t) <= t && NoQuote(UpToQuote(t))
    ensures var rest := t[|UpToQuote(t)|..]; rest == [] || rest[0] == '\"'
  {
    if t != [] && t[0] != '\"' {
      UpToQuoteParts(t[1..]);
      var u := UpToQuote(t[1..]);
      assert forall i :: 0 < i < |u| + 1 ==> ([t[0]] + u)[i] == u[i - 1];
    }
  }

  /** The value is found however it is laid out. */
  lemma ValueFound(s: string, key: string, v: string, before: string, between: string, blanks: string, rest: string)
    requires ':' !in key && HoldsValue(s, key, v, before, between, blanks, rest)
    ensures ValueOf(s, key) == Some(v)
  {
    hide TrimStart, UpToQuote, NoQuote, IsBlank, Find;
    var q := "\"" + (v + rest);
    KeyPlace(s, key, before, between, blanks + q);
    TrimStartBlanks(blanks, q);
    TrimStartQuote(v + rest);
    UpToQuoteEnds(v, rest);
  }

  /** Where the key and the colon behind it are. */
  lemma KeyPlace(s: string, key: string, before: string, between: string, tail: string)
    requires s == before + (key + (between + (":" + tail))) && ':' !in key && ':' !in between
    requires forall k :: 0 <= k < |before| ==> !OccursAt(s, key, k)
    ensures Find(s, key, 0) == |before|
    ensures Find(s, ":", |before|) == |before + key + between| && s[|before + key + between| + 1..] == tail
  {
    var k, colon, word := |before|, |before + key + between|, key + between;
    assert s == before + (word + (":" + tail));
    assert s[k..k + |key|] == key;
    FindIs(s, key, 0, k);
    forall i | k <= i < colon ensures !OccursAt(s, ":", i) {
      assert s[i] == word[i - k] && word[i - k] != ':';
      assert s[i..i + 1][0] == s[i];
    }
    assert s[colon..] == ":" + tail;
    assert s[colon..colon + 1] == ":";
    FindIs(s, ":", k, colon);
  }

  lemma TrimStartQuote(t: string)
    ensures TrimStart("\"" + t) == "\"" + t && ("\"" + t)[1..] == t
  {
  }

  lemma UpToQuoteEnds(v: string, rest: string)
    requires NoQuote(v) && (rest == [] || rest[0] == '\"')
    ensures UpToQuote(v + rest) == v
  {
    if rest == [] {
      assert v + rest == v;
      UpToQuoteAll(v);
    } else {
      UpToQuoteStops(v, rest);
    }
  }

  lemma {:induction false} UpToQuoteAll(v: string)
    requires NoQuote(v)
    ensures UpToQuote(v) == v
  {
    if v != [] {
      UpToQuoteAll(v[1..]);
    }
  }

  /** And nothing else is. */
  lemma ValueParts(s: string, key: string) returns (before: string, between: string, blanks: string, rest: string)
    requires ':' !in key && key != [] && ValueOf(s, key).Some?
    ensures HoldsValue(s, key, ValueOf(s, key).value, before, between, blanks, rest)
  {
    hide TrimStart, UpToQuote, NoQuote, IsBlank;
    var k := Find(s, key, 0);
    var colon := Find(s, ":", k);
    var t := s[colon + 1..];
    hide Find;
    ColonBehind(s, key, k, colon);
    before, between := s[..k], s[k + |key|..colon];
    blanks := TrimStartParts(t);
    var q := TrimStart(t);
    var v := UpToQuote(q[1..]);
    UpToQuoteParts(q[1..]);
    rest := q[1..][|v|..];
    QuoteFirst(q, v, rest);
    Reassemble(s, k, key, colon, before, between, blanks, v, rest);
    hide OccursAt;
    assert forall i :: 0 <= i < |before| ==> !OccursAt(s, key, i);
  }

  lemma QuoteFirst(q: string, v: string, rest: string)
    requires q != [] && q[0] == '\"' && v <= q[1..] && rest == q[1..][|v|..]
    ensures q == "\"" + (v + rest)
  {
  }

  lemma ColonBehind(s: string, key: string, k: nat, colon: nat)
    requires ':' !in key && OccursAt(s, key, k) && k <= |s| && Find(s, ":", k) == colon
    ensures k + |key| <= colon < |s| && s[colon] == ':' && ':' !in s[k + |key|..colon]
  {
    assert s[colon..colon + 1][0] == ':';
    forall i | k <= i < k + |key| ensures s[i] != ':' {
      assert s[k..k + |key|][i - k] == key[i - k];
    }
    forall i | k <= i < colon ensures s[i] != ':' {
      assert !OccursAt(s, ":", i);
      assert s[i..i + 1] == [s[i]];
    }
  }

  lemma Reassemble(s: string, k: nat, key: string, colon: nat, before: string, between: string, blanks: string,
                   v: string, rest: string)
    requires k + |key| <= colon < |s| && before == s[..k] && s[k..k + |key|] == key
    requires between == s[k + |key|..colon] && s[colon] == ':' && s[colon + 1..] == blanks + ("\"" + (v + rest))
    ensures s == before + (key + (between + (":" + (blanks + ("\"" + (v + rest))))))
  {
    var tail := blanks + ("\"" + (v + rest));
    assert s[colon..] == ":" + tail;
    assert s[k + |key|..] == between + s[colon..];
    assert s[k..] == key + s[k + |key|..];
    assert s == before + s[k..];
  }

  // ----- every command, form by form

  /** A payload without blanks in front and line breaks behind. */
  predicate Core(s: string) { s == [] || (!IsBlank(s[0]) && !IsBreak(s[|s| - 1])) }

  /** Blanks in front and line breaks behind do not matter. */
  lemma {:induction false} TrimAround(a: string, t: string, b: string)
    requires forall i :: 0 <= i < |a| ==> IsBlank(a[i])
    requires forall i :: 0 <= i < |b| ==> IsBreak(b[i])
    ensures Parse(a + t + b) == Parse(t)
  {
    TrimEndBreaks(a + t, b);
    TrimEndBehind(a, t);
    TrimStartBlanks(a, TrimEnd(t));
  }

  lemma {:induction false} TrimEndBreaks(t: string, b: string)
    requires forall i :: 0 <= i < |b| ==> IsBreak(b[i])
    ensures TrimEnd(t + b) == TrimEnd(t)
    decreases |b|
  {
    if b == [] {
      assert t + b == t;
    } else {
      assert (t + b)[..|t + b| - 1] == t + b[..|b| - 1];
      TrimEndBreaks(t, b[..|b| - 1]);
    }
  }

  lemma {:induction false} TrimEndBehind(a: string, t: string)
    requires forall i :: 0 <= i < |a| ==> IsBlank(a[i])
    ensures TrimEnd(a + t) == a + TrimEnd(t)
    decreases |t|
  {
    if t == [] {
      assert a + t == a;
    } else if IsBreak(t[|t| - 1]) {
      assert (a + t)[..|a + t| - 1] == a + t[..|t| - 1];
      TrimEndBehind(a, t[..|t| - 1]);
    }
  }

  /** A payload that is neither a plain `disconnect` nor a text command. */
  predicate JsonLike(s: string) {
    s != "disconnect" && !("switch " <= s) && !("ota " <= s) && Contains(s, "\"cmd\"")
  }

  /** Exactly which payloads disconnect, which switch and to what, and which start an update and from where. */
  lemma ParseExact(s: string, v: string)
    requires Core(s)
    ensures Parse(s) == Some("DISCONNECT") <==> s == "disconnect" || (JsonLike(s) && Contains(s, "disconnect"))
    ensures Parse(s) == Some("SWITCH " + v) <==>
              || s == "switch " + v
              || (JsonLike(s) && !Contains(s, "disconnect") && Contains(s, "switch")
                  && ValueOf(s, "\"selector\"") == Some(v))
    ensures Parse(s) == Some("OTA " + v) <==>
              || s == "ota " + v
              || (JsonLike(s) && !Contains(s, "disconnect") && !Contains(s, "switch") && Contains(s, "ota")
                  && ValueOf(s, "\"url\"") == Some(v))
  {
    hide Contains, ValueOf;
    assert TrimStart(TrimEnd(s)) == s;
    Prefixed("switch ", s, v);
    Prefixed("ota ", s, v);
    var p := Parse(s);
    if p.Some? {
      Prefixed("SWITCH ", p.value, v);
      Prefixed("OTA ", p.value, v);
      assert "DISCONNECT"[0] == 'D' && ("SWITCH " + v)[0] == 'S' && ("OTA " + v)[0] == 'O';
    }
    assert "disconnect"[0] == 'd' && ("switch " + v)[0] == 's' && ("ota " + v)[0] == 'o';
  }

  lemma Prefixed(prefix: string, s: string, v: string)
    ensures s == prefix + v <==> prefix <= s && s[|prefix|..] == v
  {
  }

  /** The text form of an update reaches the same address exactly when that does not end in a line break. */
  lemma OtaText(url: string)
    ensures Parse("ota " + url) == Some("OTA " + url) <==> !EndsInBreak(url)
  {
    var word := "ota ";
    var t := word + TrimEnd(url);
    TrimEndKeeps(word, url);
    TrimEndShort(url);
    assert TrimStart(t) == t && word <= t && t[|word|..] == TrimEnd(url);
    assert t[0] == 'o';
    assert Parse(word + url) == Some("OTA " + TrimEnd(url));
    assert ("OTA " + TrimEnd(url))[4..] == TrimEnd(url) && ("OTA " + url)[4..] == url;
  }

  const OTA_OPEN := "{\"cmd\":\"ota\",\"url\":\""

  function OtaJson(url: string): string { OTA_OPEN + (url + JSON_CLOSE) }

  lemma OtaQuotes(k: int)
    requires 0 <= k < |OTA_OPEN|
    ensures |OTA_OPEN| == 20
    ensures OTA_OPEN[k] == '\"' <==> k in {1, 5, 7, 11, 13, 17, 19}
    ensures OTA_OPEN[k] == ':' <==> k in {6, 18}
    ensures OTA_OPEN[2] == 'c' && OTA_OPEN[8] == 'o' && OTA_OPEN[6] == ':' && OTA_OPEN[12] == ','
  {
  }

  /** A longer word without quotes occurs in the text only where it occurs in the address. */
  lemma OnlyInUrl(url: string, word: string)
    requires |word| >= 4 && NoQuote(word)
    ensures Contains(OtaJson(url), word) <==> Contains(url, word)
  {
    var s := OtaJson(url);
    UrlPlace(url);
    if Contains(url, word) {
      var i :| 0 <= i <= |url| && OccursAt(url, word, i);
      assert s[20 + i..20 + i + |word|] == s[20..20 + |url|][i..i + |word|];
      assert OccursAt(s, word, 20 + i);
    }
    if Contains(s, word) {
      var i :| 0 <= i <= |s| && OccursAt(s, word, i);
      NoQuoteWithin(s, word, i);
      assert s[i..i + |word|] == s[20..20 + |url|][i - 20..i - 20 + |word|];
      assert OccursAt(url, word, i - 20);
    }
  }

  /** The address, and the quotes around it and in front of it. */
  lemma UrlPlace(url: string)
    ensures var s := OtaJson(url);
            && |s| == |url| + 22 && s[20..20 + |url|] == url && s[20 + |url|] == '\"'
            && s[1] == s[5] == s[7] == s[11] == s[13] == s[17] == s[19] == '\"'
  {
    OtaQuotes(0);
    var s := OtaJson(url);
    assert forall k :: 0 <= k < 20 ==> s[k] == OTA_OPEN[k];
    OtaQuotes(1); OtaQuotes(5); OtaQuotes(7); OtaQuotes(11); OtaQuotes(13); OtaQuotes(17); OtaQuotes(19);
  }

  lemma NoQuoteWithin(s: string, word: string, i: nat)
    requires OccursAt(s, word, i) && NoQuote(word)
    ensures forall k :: i <= k < i + |word| ==> s[k] != '\"'
  {
    forall k | i <= k < i + |word| ensures s[k] != '\"' {
      assert s[i..i + |word|][k - i] == s[k];
    }
  }

  /** The address behind its key, exactly when it has no quote and is not empty. */
  lemma OtaValue(url: string)
    ensures ValueOf(OtaJson(url), URL) == Some(url) <==> NoQuote(url) && url != []
  {
    var s := OtaJson(url);
    OtaQuotes(0);
    assert s[..20] == OTA_OPEN;
    assert s[13..18] == OTA_OPEN[13..18] == URL;
    forall k | 0 <= k < 13 ensures !OccursAt(s, URL, k) {
      OtaQuotes(k);
      assert s[k] == OTA_OPEN[k] && s[k + 1] == OTA_OPEN[k + 1];
      assert s[k..k + 5][0] == s[k] && s[k..k + 5][1] == s[k + 1];
    }
    FindIs(s, URL, 0, 13);
    forall k | 13 <= k < 18 ensures !OccursAt(s, ":", k) {
      OtaQuotes(k);
      assert s[k..k + 1][0] == s[k] == OTA_OPEN[k];
    }
    OtaQuotes(18);
    assert s[18..19] == [s[18]] == ":";
    FindIs(s, ":", 13, 18);
    var t := "\"" + (url + JSON_CLOSE);
    assert s[19..] == t && TrimStart(t) == t && t[1..] == url + JSON_CLOSE;
    UpToQuoteStops(url, JSON_CLOSE);
  }

  /** The JSON form of an update reaches the same address exactly when that is not empty, has no quote and contains
      neither of the other two commands' names. */
  lemma OtaForm(url: string)
    ensures Parse(OtaJson(url)) == Some("OTA " + url) <==>
            url != [] && NoQuote(url) && !Contains(url, "disconnect") && !Contains(url, "switch")
  {
    var s := OtaJson(url);
    OtaQuotes(0);
    assert s[0] == '{' && s[|s| - 1] == '}';
    assert s[1..6] == OTA_OPEN[1..6] == "\"cmd\"";
    assert OccursAt(s, "\"cmd\"", 1);
    assert s[8..11] == OTA_OPEN[8..11] == "ota";
    assert OccursAt(s, "ota", 8);
    OnlyInUrl(url, "disconnect");
    OnlyInUrl(url, "switch");
    OtaValue(url);
    ParseExact(s, url);
  }

  /** Both forms of `disconnect`. */
  lemma DisconnectForms()
    ensures Parse("disconnect") == Parse("{\"cmd\":\"disconnect\"}") == Some("DISCONNECT")
  {
    var s := "{\"cmd\":\"disconnect\"}";
    assert s[1..6] == "\"cmd\"" && OccursAt(s, "\"cmd\"", 1);
    assert s[8..18] == "disconnect" && OccursAt(s, "disconnect", 8);
    ParseExact(s, "");
    ParseExact("disconnect", "");
  }

  // ----- from the payload to the branch of handleCommand

  predicate Deliverable(sel: string) {
    && sel != [] && NoNewline(sel) && NoQuote(sel) && sel[|sel| - 1] != '\r'
    && !Contains(sel, "disconnect") && |SWITCH + sel| <= 4096
  }

  /** Both forms parse to the same line, and nothing on the way to the dispatch changes it. */
  lemma SwitchLine(sel: string)
    requires Deliverable(sel)
    ensures Parse("switch " + sel) == Parse(Json(sel)) == Some(SWITCH + sel)
    ensures NoNewline(SWITCH + sel) && TrimCr(SWITCH + sel) == SWITCH + sel
    ensures Dispatch(SWITCH + sel) == Switch(sel) && !("OTA " <= SWITCH + sel)
  {
    hide Parse;
    TextForm(sel);
    JsonForm(sel);
    assert forall i :: 0 <= i < |SWITCH| ==> SWITCH[i] != '\n';
    assert (SWITCH + sel)[0] == 'S';
  }

  lemma PlainLine()
    ensures NoNewline("DISCONNECT") && TrimCr("DISCONNECT") == "DISCONNECT" && Dispatch("DISCONNECT") == Disconnect
    ensures !("OTA " <= "DISCONNECT")
  {
    assert "DISCONNECT"[0] == 'D';
  }

  /** onMessage for anything but an update: parse, send the line over the control socket, and what the server
      makes of it, with the pieces in which it arrives left open. */
  method Deliver(payload: string, piece: nat -> nat) returns (command: Option<Command>)
    ensures forall sel :: Deliverable(sel) && (payload == "switch " + sel || payload == Json(sel))
                          ==> command == Some(Switch(sel))
    ensures payload == "disconnect" || payload == "{\"cmd\":\"disconnect\"}" ==> command == Some(Disconnect)
    ensures command.None? <==> Parse(payload).None? || "OTA " <= Parse(payload).value
  {
    hide Parse, Find;
    DisconnectForms();
    PlainLine();
    var cmd := ParseCommandLine(payload);
    if cmd == None || "OTA " <= cmd.value {
      forall sel | Deliverable(sel) && (payload == "switch " + sel || payload == Json(sel)) ensures false {
        SwitchLine(sel);
      }
      return None;
    }
    var fd := new Source(Request(cmd.value), piece, _ => false);
    var line := ServerReadLine(fd);
    command := Some(Dispatch(line));
    forall sel | Deliverable(sel) && (payload == "switch " + sel || payload == Json(sel))
      ensures command == Some(Switch(sel))
    {
      SwitchLine(sel);
    }
  }
}
