/** The environment parsing loop of UeventMonitor::monitorLoop. */
module UeventParse {

  const NUL := '\0'

  /** strlen / the C string at the front of `s`. */
  function CString(s: string): (r: string)
    ensures r <= s
    ensures |r| < |s| ==> s[|r|] == NUL
  {
    if s == [] || s[0] == NUL then [] else [s[0]] + CString(s[1..])
  }

  /** strchr: the place of the first `c`, or the length. */
  function Place(s: string, c: char): (k: nat)
    ensures k <= |s|
    ensures k < |s| ==> s[k] == c
    ensures forall i :: 0 <= i < k ==> s[i] != c
  {
    if s == [] || s[0] == c then 0
    else
      var k := Place(s[1..], c);
      assert forall i :: 0 < i < k + 1 ==> s[i] == s[1..][i - 1];
      k + 1
  }

  /** std::map::emplace: a key that is there keeps its value. */
  function Emplace(m: map<string, string>, k: string, v: string): map<string, string> {
    if k in m then m else m[k := v]
  }

  function Bind(m: map<string, string>, record: string): map<string, string> {
    var k := Place(record, '=');
    if 0 < k < |record| then Emplace(m, record[..k], record[k + 1..]) else m
  }

  /** What stands past the terminator of the C string at the front. */
  function After(msg: string): (r: string)
    ensures msg != [] ==> |r| < |msg|
  {
    var len := |CString(msg)|;
    if len < |msg| then msg[len + 1..] else []
  }

  function ParseFrom(m: map<string, string>, msg: string): map<string, string>
    decreases |msg|
  {
    if msg == [] then m else ParseFrom(Bind(m, CString(msg)), After(msg))
  }

  // ----- what the loop recovers

  datatype Binding = Binding(key: string, value: string)

  predicate Clean(s: string) { forall i :: 0 <= i < |s| ==> s[i] != NUL }

  /** What the kernel can send: keys are not empty and hold neither NUL nor `=`, values hold no NUL. */
  predicate Sendable(b: Binding) {
    b.key != [] && Clean(b.key) && '=' !in b.key && Clean(b.value)
  }

  function Print(bs: seq<Binding>): string {
    if bs == [] then [] else (bs[0].key + "=" + bs[0].value) + ([NUL] + Print(bs[1..]))
  }

  /** The first binding of a key, if there is one. */
  function Lookup(bs: seq<Binding>, key: string): seq<string> {
    if bs == [] then [] else if bs[0].key == key then [bs[0].value] else Lookup(bs[1..], key)
  }

  /** `env` says exactly what `m` says, and where `m` is silent what `bs` says first. */
  ghost predicate Extends(env: map<string, string>, m: map<string, string>, bs: seq<Binding>) {
    forall k :: (k in env <==> k in m || Lookup(bs, k) != [])
                && (k in m ==> env[k] == m[k])
                && (k !in m && k in env ==> [env[k]] == Lookup(bs, k))
  }

  lemma {:induction false} CStringIs(w: string, rest: string)
    requires Clean(w) && (rest == [] || rest[0] == NUL)
    ensures CString(w + rest) == w
  {
    if w == [] {
      assert w + rest == rest;
    } else {
      assert (w + rest)[1..] == w[1..] + rest;
      CStringIs(w[1..], rest);
    }
  }

  lemma BindIs(m: map<string, string>, b: Binding)
    requires Sendable(b)
    ensures Bind(m, b.key + "=" + b.value) == Emplace(m, b.key, b.value)
  {
    var record := b.key + "=" + b.value;
    var k := Place(record, '=');
    assert record[|b.key|] == '=';
    assert forall i :: 0 <= i < |b.key| ==> record[i] == b.key[i] && b.key[i] in b.key;
    assert k == |b.key|;
    assert record[..k] == b.key && record[k + 1..] == b.value;
  }

  lemma AfterIs(w: string, rest: string)
    requires Clean(w)
    ensures CString(w + ([NUL] + rest)) == w && After(w + ([NUL] + rest)) == rest
  {
    hide CString;
    CStringIs(w, [NUL] + rest);
    assert (w + ([NUL] + rest))[|w| + 1..] == rest;
  }

  /** One turn of the loop: the text up to the terminator is bound, the rest is read after it. */
  lemma StepOver(m: map<string, string>, w: string, rest: string)
    requires Clean(w)
    ensures ParseFrom(m, w + ([NUL] + rest)) == ParseFrom(Bind(m, w), rest)
  {
    hide Bind, CString, After;
    AfterIs(w, rest);
  }

  /** One record: what follows it is read with the record's key settled. */
  lemma ReadOne(m: map<string, string>, b: Binding, rest: string)
    requires Sendable(b)
    ensures ParseFrom(m, (b.key + "=" + b.value) + ([NUL] + rest))
         == ParseFrom(Emplace(m, b.key, b.value), rest)
  {
    hide ParseFrom, Bind, Emplace;
    var record := b.key + "=" + b.value;
    assert Clean(record);
    StepOver(m, record, rest);
    BindIs(m, b);
  }

  lemma EmplaceExtends(env: map<string, string>, m: map<string, string>, b: Binding, bs: seq<Binding>)
    requires Extends(env, Emplace(m, b.key, b.value), bs)
    ensures Extends(env, m, [b] + bs)
  {
    forall k
      ensures Lookup([b] + bs, k) == if b.key == k then [b.value] else Lookup(bs, k)
    {
      assert ([b] + bs)[1..] == bs;
    }
  }

  /** Parsing a printed environment yields exactly its keys, each with its first value. */
  lemma {:induction false} FirstWins(m: map<string, string>, bs: seq<Binding>)
    requires forall i :: 0 <= i < |bs| ==> Sendable(bs[i])
    ensures Extends(ParseFrom(m, Print(bs)), m, bs)
    decreases |bs|
  {
    if bs != [] {
      var b := bs[0];
      ReadOne(m, b, Print(bs[1..]));
      FirstWins(Emplace(m, b.key, b.value), bs[1..]);
      EmplaceExtends(ParseFrom(m, Print(bs)), m, b, bs[1..]);
      assert [b] + bs[1..] == bs;
    }
  }

  /** A header without `=`, as the kernel puts in front, changes nothing, and neither does a record without a key. */
  lemma HeaderIgnored(m: map<string, string>, header: string, rest: string)
    requires Clean(header) && ('=' !in header || header[0] == '=')
    ensures ParseFrom(m, header + ([NUL] + rest)) == ParseFrom(m, rest)
  {
    StepOver(m, header, rest);
    assert Place(header, '=') == if '=' in header then 0 else |header|;
  }

  /** strlen, from `at` in the message. */
  method StrLen(msg: string, at: nat) returns (len: nat)
    requires at <= |msg|
    ensures at + len <= |msg| && msg[at..at + len] == CString(msg[at..])
  {
    hide CString;
    len := 0;
    while at + len < |msg| && msg[at + len] != NUL
      invariant at + len <= |msg|
      invariant forall i :: at <= i < at + len ==> msg[i] != NUL
    {
      len := len + 1;
    }
    ghost var text, after := msg[at..at + len], msg[at + len..];
    assert msg[at..] == text + after;
    CStringIs(text, after);
  }

  /** strchr, as an offset; the length stands for NULL. */
  method StrChr(text: string, c: char) returns (k: nat)
    ensures k == Place(text, c)
  {
    k := 0;
    while k < |text| && text[k] != c
      invariant k <= |text|
      invariant forall i :: 0 <= i < k ==> text[i] != c
    {
      k := k + 1;
    }
  }

  /** What is left to read at `current`, which ends one past the terminator. */
  function Left(msg: string, current: nat): string {
    if current <= |msg| then msg[current..] else []
  }

  /** The loop, with `current` moving over the message. */
  method ParseEnv(msg: string) returns (envMap: map<string, string>)
    ensures envMap == ParseFrom(map[], msg)
  {
    hide CString, Place, ParseFrom, After;
    envMap := map[];
    var current := 0;
    assert Left(msg, 0) == msg;
    while current < |msg|
      invariant ParseFrom(envMap, Left(msg, current)) == ParseFrom(map[], msg)
      decreases |msg| - current
    {
      ghost var was := envMap;
      var len := StrLen(msg, current);
      var text := msg[current..current + len];
      var split := StrChr(text, '=');
      if split < |text| && split > 0 {
        var envName, envValue := text[..split], text[split + 1..];
        if envName !in envMap {
          envMap := envMap[envName := envValue];
        }
      }
      assert envMap == Bind(was, text);
      Advance(was, msg, current, len);
      current := current + len + 1;
    }
    assert Left(msg, current) == [];
    NothingLeft(envMap);
  }

  lemma NothingLeft(m: map<string, string>)
    ensures ParseFrom(m, []) == m
  {
  }

  /** The pointer past the terminator leaves what the specification reads next. */
  lemma Advance(m: map<string, string>, msg: string, current: nat, len: nat)
    requires current < |msg| && current + len <= |msg| && msg[current..current + len] == CString(msg[current..])
    ensures ParseFrom(m, Left(msg, current))
         == ParseFrom(Bind(m, msg[current..current + len]), Left(msg, current + len + 1))
  {
    hide Bind, CString;
    assert Left(msg, current + len + 1) == After(msg[current..]) by {
      hide ParseFrom;
      assert |CString(msg[current..])| == len;
      if current + len < |msg| {
        assert msg[current..][len + 1..] == msg[current + len + 1..];
      }
    }
  }

  /** A whole uevent message: header, then records. The map has exactly the keys sent, first value each. */
  lemma MessageRecovered(header: string, bs: seq<Binding>, key: string)
    requires Clean(header) && '=' !in header
    requires forall i :: 0 <= i < |bs| ==> Sendable(bs[i])
    ensures var env := ParseFrom(map[], header + ([NUL] + Print(bs)));
            Lookup(bs, key) == if key in env then [env[key]] else []
  {
    HeaderIgnored(map[], header, Print(bs));
    FirstWins(map[], bs);
  }
}
