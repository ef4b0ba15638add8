/** The boot text cmdline.txt: set_cmdline_root and get_root_dev, on the text, with the shell's word splitting. */
module Cmdline {
  import opened Sequences

  const ROOT := "root="

  /** The characters of the shell's default IFS. */
  predicate IsSpace(c: char) { c == ' ' || c == '\t' || c == '\n' }

  /** The longest beginning of `s` without white space. */
  function FirstWord(s: string): (w: string)
    ensures w <= s
  {
    if s == [] || IsSpace(s[0]) then [] else [s[0]] + FirstWord(s[1..])
  }

  /** Word splitting of an unquoted expansion (no glob characters). */
  function Words(s: string): seq<string>
    decreases |s|
  {
    if s == [] then []
    else if IsSpace(s[0]) then Words(s[1..])
    else [FirstWord(s)] + Words(s[|FirstWord(s)|..])
  }

  predicate IsWord(w: string) {
    w != [] && forall i :: 0 <= i < |w| ==> !IsSpace(w[i])
  }

  predicate AreWords(ws: seq<string>) {
    forall i :: 0 <= i < |ws| ==> IsWord(ws[i])
  }

  predicate NoSpace(r: string) {
    forall i :: 0 <= i < |r| ==> !IsSpace(r[i])
  }

  predicate IsRoot(w: string) { ROOT <= w }

  function Replaced(w: string, root: string): string {
    if IsRoot(w) then ROOT + root else w
  }

  /** What the loop of set_cmdline_root does to the list of tokens. */
  function Rewrite(ws: seq<string>, root: string): seq<string> {
    if ws == [] then [] else [Replaced(ws[0], root)] + Rewrite(ws[1..], root)
  }

  /** `for t in ...; new="$new $t"`. */
  function Spaced(ws: seq<string>): string {
    if ws == [] then [] else " " + ws[0] + Spaced(ws[1..])
  }

  function Trimmed(s: string): string {
    if s != [] && s[0] == ' ' then s[1..] else s
  }

  function SetRoot(text: string, root: string): string {
    Trimmed(Spaced(Rewrite(Words(text), root))) + "\n"
  }

  /** get_root_dev: the value of the first root= token. */
  function RootOf(ws: seq<string>): Option<string> {
    if ws == [] then None
    else if IsRoot(ws[0]) then Some(ws[0][|ROOT|..])
    else RootOf(ws[1..])
  }

  function GetRoot(text: string): Option<string> { RootOf(Words(text)) }

  // ----- splitting undoes printing

  lemma {:induction false} FirstWordIs(w: string, rest: string)
    requires NoSpace(w) && (rest == [] || IsSpace(rest[0]))
    ensures FirstWord(w + rest) == w
  {
    if w == [] {
      assert w + rest == rest;
    } else {
      assert (w + rest)[1..] == w[1..] + rest;
      FirstWordIs(w[1..], rest);
    }
  }

  lemma WordThen(w: string, rest: string)
    requires IsWord(w) && (rest == [] || IsSpace(rest[0]))
    ensures Words(w + rest) == [w] + Words(rest)
  {
    FirstWordIs(w, rest);
    assert (w + rest)[|w|..] == rest;
    assert (w + rest)[0] == w[0];
  }

  lemma SkipSpace(c: char, rest: string)
    requires IsSpace(c)
    ensures Words([c] + rest) == Words(rest)
  {
    assert ([c] + rest)[1..] == rest;
  }

  lemma NoWords()
    ensures Words("") == []
  {
  }

  lemma {:induction false} SpacedWords(ws: seq<string>)
    requires AreWords(ws)
    ensures Words(Spaced(ws) + "\n") == ws
  {
    hide Words;
    if ws == [] {
      assert Spaced(ws) + "\n" == ['\n'] + "";
      SkipSpace('\n', "");
      NoWords();
    } else {
      var rest := Spaced(ws[1..]) + "\n";
      SpacedWords(ws[1..]);
      assert rest[0] == if |ws| > 1 then ' ' else '\n';
      WordThen(ws[0], rest);
      SkipSpace(' ', ws[0] + rest);
      assert Spaced(ws) + "\n" == [' '] + (ws[0] + rest);
    }
  }

  lemma TrimmedWords(ws: seq<string>)
    requires AreWords(ws)
    ensures Words(Trimmed(Spaced(ws)) + "\n") == ws
  {
    SpacedWords(ws);
    var s := Spaced(ws);
    if ws != [] {
      assert (s + "\n")[1..] == s[1..] + "\n";
    }
  }

  lemma {:induction false} FirstWordClean(s: string)
    requires s != [] && !IsSpace(s[0])
    ensures IsWord(FirstWord(s))
  {
    if |s| > 1 && !IsSpace(s[1]) {
      assert s[1..][0] == s[1];
      FirstWordClean(s[1..]);
    }
  }

  lemma {:induction false} WordsClean(s: string)
    ensures AreWords(Words(s))
    decreases |s|
  {
    if s != [] {
      if IsSpace(s[0]) {
        WordsClean(s[1..]);
      } else {
        FirstWordClean(s);
        WordsClean(s[|FirstWord(s)|..]);
      }
    }
  }

  // ----- splitting, without its definition

  /** A word is one token; white space splits, and is no part of any token. */
  lemma OneWord(w: string)
    requires IsWord(w)
    ensures Words(w) == [w]
  {
    WordThen(w, "");
    assert w + "" == w;
  }

  lemma {:induction false} FirstWordAhead(a: string, c: char, b: string)
    requires IsSpace(c)
    ensures FirstWord(a + [c] + b) == FirstWord(a)
  {
    if a != [] && !IsSpace(a[0]) {
      assert (a + [c] + b)[1..] == a[1..] + [c] + b;
      FirstWordAhead(a[1..], c, b);
    }
  }

  lemma {:induction false} WordsSplit(a: string, c: char, b: string)
    requires IsSpace(c)
    ensures Words(a + [c] + b) == Words(a) + Words(b)
    decreases |a|
  {
    var s := a + [c] + b;
    if a == [] {
      assert s == [c] + b;
      SkipSpace(c, b);
    } else if IsSpace(a[0]) {
      assert s[1..] == a[1..] + [c] + b;
      WordsSplit(a[1..], c, b);
    } else {
      var w := FirstWord(a);
      FirstWordAhead(a, c, b);
      assert s[|w|..] == a[|w|..] + [c] + b;
      WordsSplit(a[|w|..], c, b);
    }
  }

  // ----- one line

  /** Single blanks between the tokens, and no other white space up to the line break: so no blank in front and none
      behind. */
  predicate Lined(s: string) {
    && s != [] && s[|s| - 1] == '\n'
    && forall i :: 0 <= i < |s| - 1 && IsSpace(s[i]) ==> s[i] == ' ' && !IsSpace(s[i + 1])
  }

  /** One line: its only line break is at the end, there is no tab, no blank at the beginning or the end of the line
      and no two blanks in a row. */
  predicate OneLine(text: string) {
    && text != [] && text[|text| - 1] == '\n'
    && (forall i :: 0 <= i < |text| - 1 ==> text[i] != '\n' && text[i] != '\t')
    && text[0] != ' ' && (|text| > 1 ==> text[|text| - 2] != ' ')
    && forall i :: 0 <= i < |text| - 1 ==> !(text[i] == ' ' && text[i + 1] == ' ')
  }

  lemma OneLineIs(text: string)
    ensures OneLine(text) <==> Lined(text) && text[0] != ' '
  {
  }

  lemma LinedWord(w: string, rest: string)
    requires NoSpace(w) && Lined(rest)
    ensures Lined(w + rest)
  {
    var s := w + rest;
    forall i | 0 <= i < |s| - 1 && IsSpace(s[i]) ensures s[i] == ' ' && !IsSpace(s[i + 1]) {
      assert i >= |w| && s[i] == rest[i - |w|] && s[i + 1] == rest[i + 1 - |w|];
    }
  }

  lemma {:induction false} SpacedLined(ws: seq<string>)
    requires AreWords(ws)
    ensures var s := Spaced(ws) + "\n"; Lined(s) && s[0] == (if ws == [] then '\n' else ' ')
  {
    if ws != [] {
      var rest := Spaced(ws[1..]) + "\n";
      SpacedLined(ws[1..]);
      LinedWord(ws[0], rest);
      assert Spaced(ws) + "\n" == [' '] + (ws[0] + rest);
    }
  }

  lemma LinedRest(s: string, n: nat)
    requires Lined(s) && n < |s|
    ensures Lined(s[n..])
  {
  }

  lemma SpacedFirst(w: string, ws: seq<string>)
    ensures Spaced([w] + ws) == " " + w + Spaced(ws)
  {
  }

  /** A blank, a word, and the rest, which begins with white space. */
  lemma LinedParts(s: string) returns (w: string, rest: string)
    requires Lined(s) && IsSpace(s[0]) && |s| > 1
    ensures s == " " + (w + rest) && IsWord(w) && Lined(rest) && IsSpace(rest[0])
  {
    var t := s[1..];
    w := FirstWord(t);
    rest := t[|w|..];
    LinedRest(s, 1);
    FirstWordEnds(t);
    FirstWordClean(t);
    LinedRest(t, |w|);
    assert t == w + rest;
  }

  lemma {:induction false} LinedSpaced(s: string)
    requires Lined(s) && IsSpace(s[0])
    ensures s == Spaced(Words(s)) + "\n"
    decreases |s|
  {
    hide Words, Spaced, Lined, IsWord, IsSpace;
    if |s| > 1 {
      var w, rest := LinedParts(s);
      LinedSpaced(rest);
      BlankFirst(w, rest);
      SpacedFirst(w, Words(rest));
      Regroup(" ", w, Spaced(Words(rest)), "\n");
    } else {
      LinedEmpty();
      assert s == "\n" by { LinedEnd(s); }
    }
  }

  lemma BlankFirst(w: string, rest: string)
    requires IsWord(w) && rest != [] && IsSpace(rest[0])
    ensures Words(" " + (w + rest)) == [w] + Words(rest)
  {
    SkipSpace(' ', w + rest);
    WordThen(w, rest);
  }

  lemma LinedEnd(s: string)
    requires Lined(s) && |s| <= 1
    ensures s == "\n"
  {
  }

  lemma Regroup(a: string, b: string, c: string, d: string)
    ensures a + (b + (c + d)) == (a + b + c) + d
  {
  }

  lemma LinedEmpty()
    ensures Spaced(Words("\n")) == ""
  {
    NoWords();
    assert "\n" == ['\n'] + "";
    SkipSpace('\n', "");
  }

  lemma {:induction false} FirstWordEnds(s: string)
    requires s != [] && IsSpace(s[|s| - 1])
    ensures |FirstWord(s)| < |s| && IsSpace(s[|FirstWord(s)|])
  {
    if !IsSpace(s[0]) {
      FirstWordEnds(s[1..]);
    }
  }

  /** There is only one line with given tokens. */
  lemma OneLineUnique(a: string, b: string)
    requires OneLine(a) && OneLine(b) && Words(a) == Words(b)
    ensures a == b
  {
    WholeLine(a);
    WholeLine(b);
  }

  lemma WholeLine(a: string)
    requires OneLine(a)
    ensures a == Trimmed(Spaced(Words(a))) + "\n"
  {
    OneLineIs(a);
    if |a| == 1 {
      LinedSpaced(a);
    } else {
      var s := [' '] + a;
      assert Lined(s) by {
        assert forall i :: 0 < i < |s| ==> s[i] == a[i - 1];
      }
      LinedSpaced(s);
      SkipSpace(' ', a);
      var t := Spaced(Words(a));
      assert t == s[..|a|];
      assert t[1..] == a[..|a| - 1];
    }
  }

  // ----- what set_cmdline_root does to the tokens

  lemma {:induction false} RewriteAt(ws: seq<string>, root: string)
    ensures |Rewrite(ws, root)| == |ws|
    ensures forall i :: 0 <= i < |ws| ==> Rewrite(ws, root)[i] == Replaced(ws[i], root)
  {
    if ws != [] {
      RewriteAt(ws[1..], root);
    }
  }

  lemma RewriteClean(ws: seq<string>, root: string)
    requires AreWords(ws) && NoSpace(root)
    ensures AreWords(Rewrite(ws, root))
  {
    RewriteAt(ws, root);
    forall i | 0 <= i < |ws| ensures IsWord(Rewrite(ws, root)[i]) {
      assert IsWord(ws[i]);
      if IsRoot(ws[i]) {
        var w := ROOT + root;
        forall k | 0 <= k < |w| ensures !IsSpace(w[k]) {}
      }
    }
  }

  /** The tokens afterwards are the tokens before, in order, with every root= token and no other replaced
      (`rootfstype=` and `rootwait` are others). */
  lemma SetRootTokens(text: string, root: string)
    requires NoSpace(root)
    ensures var before, after := Words(text), Words(SetRoot(text, root));
            |after| == |before| && forall i :: 0 <= i < |before| ==>
              after[i] == if IsRoot(before[i]) then ROOT + root else before[i]
    ensures Words(SetRoot(text, root)) == Rewrite(Words(text), root)
  {
    WordsClean(text);
    RewriteClean(Words(text), root);
    TrimmedWords(Rewrite(Words(text), root));
    RewriteAt(Words(text), root);
  }

  /** And the text is one line; the tokens and this decide every character of it. */
  lemma SetRootLine(text: string, root: string)
    requires NoSpace(root)
    ensures OneLine(SetRoot(text, root))
    ensures forall t :: OneLine(t) && Words(t) == Words(SetRoot(text, root)) ==> t == SetRoot(text, root)
  {
    var ws, r := Rewrite(Words(text), root), SetRoot(text, root);
    WordsClean(text);
    RewriteClean(Words(text), root);
    SpacedLined(ws);
    var s := Spaced(ws) + "\n";
    if ws != [] {
      assert r == s[1..];
      assert IsWord(ws[0]) && s[1] == ws[0][0];
    }
    assert Lined(r) by {
      assert forall i :: 0 <= i < |r| ==> r[i] == s[i + (|s| - |r|)];
    }
    OneLineIs(r);
    forall t | OneLine(t) && Words(t) == Words(r) ensures t == r {
      OneLineUnique(t, r);
    }
  }

  lemma {:induction false} RewriteTwice(ws: seq<string>, a: string, b: string)
    ensures Rewrite(Rewrite(ws, a), b) == Rewrite(ws, b)
  {
    if ws != [] {
      RewriteTwice(ws[1..], a, b);
      assert Rewrite(ws, a)[1..] == Rewrite(ws[1..], a);
    }
  }

  /** The last root written wins, as a text; so writing the same root again changes nothing. */
  lemma SetRootTwice(text: string, a: string, b: string)
    requires NoSpace(a)
    ensures SetRoot(SetRoot(text, a), b) == SetRoot(text, b)
  {
    SetRootTokens(text, a);
    RewriteTwice(Words(text), a, b);
  }

  lemma {:induction false} RootOfRewrite(ws: seq<string>, root: string)
    ensures RootOf(Rewrite(ws, root)) == if RootOf(ws).Some? then Some(root) else None
    ensures RootOf(ws).Some? <==> exists i :: 0 <= i < |ws| && IsRoot(ws[i])
  {
    if ws != [] {
      RootOfRewrite(ws[1..], root);
      assert Rewrite(ws, root)[1..] == Rewrite(ws[1..], root);
      if IsRoot(ws[0]) {
        assert (ROOT + root)[|ROOT|..] == root;
      }
      assert forall i :: 0 < i < |ws| ==> ws[i] == ws[1..][i - 1];
      assert forall i :: 0 <= i < |ws| - 1 ==> ws[1..][i] == ws[i + 1];
    }
  }

  /** get_root_dev finds the first root= token. */
  lemma {:induction false} FirstRoot(ws: seq<string>, k: nat)
    requires k < |ws| && "root=" <= ws[k] && forall i :: 0 <= i < k ==> !("root=" <= ws[i])
    ensures RootOf(ws) == Some(ws[k][5..])
  {
    if k > 0 {
      FirstRoot(ws[1..], k - 1);
    }
  }

  /** Reading back: the new root whenever there was a root= token, and nothing otherwise. */
  lemma GetAfterSet(text: string, root: string)
    requires NoSpace(root)
    ensures GetRoot(SetRoot(text, root)) == if GetRoot(text).Some? then Some(root) else None
  {
    SetRootTokens(text, root);
    RootOfRewrite(Words(text), root);
  }

  /** Exactly when a switch followed by a rollback restores the token list: when every root= token named the slot
      that is rolled back to. */
  lemma RollbackRestores(text: string, target: string, previous: string)
    requires NoSpace(target) && NoSpace(previous)
    ensures Words(SetRoot(SetRoot(text, target), previous)) == Words(text)
            <==> forall i :: 0 <= i < |Words(text)| && IsRoot(Words(text)[i]) ==> Words(text)[i] == ROOT + previous
  {
    SetRootTwice(text, target, previous);
    SetRootTokens(text, previous);
    var before, after := Words(text), Words(SetRoot(text, previous));
    if forall i :: 0 <= i < |before| && IsRoot(before[i]) ==> before[i] == ROOT + previous {
      assert forall i :: 0 <= i < |before| ==> after[i] == before[i];
    }
  }

  // ----- the scripts' loops

  /** set_cmdline_root: what is written to the file, from what was read. */
  method SetCmdlineRoot(cur: string, targetRoot: string) returns (text: string)
    ensures text == SetRoot(cur, targetRoot)
  {
    var tokens := Words(cur);
    var new_, i := "", 0;
    while i < |tokens|
      invariant i <= |tokens|
      invariant new_ + Spaced(Rewrite(tokens[i..], targetRoot)) == Spaced(Rewrite(tokens, targetRoot))
    {
      ghost var before := new_;
      assert tokens[i..][1..] == tokens[i + 1..];
      var t := tokens[i];
      if "root=" <= t {
        new_ := new_ + " " + ("root=" + targetRoot);
      } else {
        new_ := new_ + " " + t;
      }
      SpacedStep(before, tokens[i..], targetRoot);
      i := i + 1;
    }
    assert new_ + [] == new_;
    if new_ != [] && new_[0] == ' ' {
      new_ := new_[1..];
    }
    text := new_ + "\n";
  }

  lemma SpacedStep(before: string, ws: seq<string>, root: string)
    requires ws != []
    ensures (before + " " + Replaced(ws[0], root)) + Spaced(Rewrite(ws[1..], root)) == before + Spaced(Rewrite(ws, root))
  {
    var r := Rewrite(ws, root);
    assert r[1..] == Rewrite(ws[1..], root);
    assert Spaced(r) == " " + r[0] + Spaced(r[1..]);
  }

  /** get_root_dev; None is the non-zero exit. */
  method GetRootDev(procCmdline: string) returns (dev: Option<string>)
    ensures dev == GetRoot(procCmdline)
  {
    var tokens := Words(procCmdline);
    var i := 0;
    while i < |tokens|
      invariant i <= |tokens|
      invariant RootOf(tokens[i..]) == RootOf(tokens)
    {
      assert tokens[i..][1..] == tokens[i + 1..];
      if "root=" <= tokens[i] {
        return Some(tokens[i][5..]);
      }
      i := i + 1;
    }
    dev := None;
  }
}
