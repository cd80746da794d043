/** The tokenizer of the shell (`get_command_tokens`, src/main.rs:119-127):
    trim the line, split it on runs of whitespace, and trim every token once
    more. */
module Tokenizer {

  /** Rust's `char::is_whitespace`: the Unicode `White_Space` property. */
  predicate IsWhitespace(c: char) {
    || ('\U{0009}' <= c <= '\U{000D}')
    || c == '\U{0020}'
    || c == '\U{0085}'
    || c == '\U{00A0}'
    || c == '\U{1680}'
    || ('\U{2000}' <= c <= '\U{200A}')
    || c == '\U{2028}'
    || c == '\U{2029}'
    || c == '\U{202F}'
    || c == '\U{205F}'
    || c == '\U{3000}'
  }

  predicate NoWhitespace(s: string) {
    forall i :: 0 <= i < |s| ==> !IsWhitespace(s[i])
  }

  predicate AllWhitespace(s: string) {
    forall i :: 0 <= i < |s| ==> IsWhitespace(s[i])
  }

  /** A word as the shell sees it: at least one character, none of them whitespace. */
  predicate IsWord(w: string) {
    |w| > 0 && NoWhitespace(w)
  }

  predicate AllWords(ws: seq<string>) {
    forall i :: 0 <= i < |ws| ==> IsWord(ws[i])
  }

  /** The characters of `s` that are not whitespace, in order. */
  function Visible(s: string): string {
    if |s| == 0 then ""
    else if IsWhitespace(s[0]) then Visible(s[1..])
    else [s[0]] + Visible(s[1..])
  }

  function WhitespaceCount(s: string): nat {
    if |s| == 0 then 0
    else (if IsWhitespace(s[0]) then 1 else 0) + WhitespaceCount(s[1..])
  }

  function Concat(ws: seq<string>): string {
    if |ws| == 0 then "" else ws[0] + Concat(ws[1..])
  }

  /** The words separated by single spaces. */
  function JoinWords(ws: seq<string>): string {
    if |ws| == 0 then ""
    else if |ws| == 1 then ws[0]
    else ws[0] + " " + JoinWords(ws[1..])
  }

  /** `str::trim_start`: drop the leading whitespace. */
  function TrimStart(s: string): (r: string)
    ensures |r| <= |s| && r == s[|s| - |r|..]
    ensures AllWhitespace(s[..|s| - |r|])
    ensures |r| > 0 ==> !IsWhitespace(r[0])
  {
    if |s| > 0 && IsWhitespace(s[0]) then TrimStart(s[1..]) else s
  }

  /** `str::trim_end`: drop the trailing whitespace. */
  function TrimEnd(s: string): (r: string)
    ensures |r| <= |s| && r == s[..|r|]
    ensures AllWhitespace(s[|r|..])
    ensures |r| > 0 ==> !IsWhitespace(r[|r| - 1])
  {
    if |s| > 0 && IsWhitespace(s[|s| - 1]) then TrimEnd(s[..|s| - 1]) else s
  }

  /** `str::trim`: drop whitespace at both ends. */
  function Trim(s: string): (r: string)
    ensures |r| > 0 ==> !IsWhitespace(r[0]) && !IsWhitespace(r[|r| - 1])
    ensures Visible(r) == Visible(s)
    ensures exists i :: TrimmedAt(s, r, i)
  {
    TrimIsSlice(s);
    TrimEndVisible(TrimStart(s));
    TrimStartVisible(s);
    TrimEnd(TrimStart(s))
  }

  /** `str::split(char::is_whitespace)`: cut at every whitespace character,
      keeping the (possibly empty) pieces in between. */
  function Split(s: string): (r: seq<string>)
    ensures |r| == WhitespaceCount(s) + 1
    ensures forall i :: 0 <= i < |r| ==> NoWhitespace(r[i])
    ensures Concat(r) == Visible(s)
  {
    if |s| == 0 then [""]
    else
      var rest := Split(s[1..]);
      if IsWhitespace(s[0]) then [""] + rest
      else
        assert Concat(rest) == rest[0] + Concat(rest[1..]);
        [[s[0]] + rest[0]] + rest[1..]
  }

  /** Keep only the non-empty pieces (`.filter(|s| !s.is_empty())`). */
  function DropEmpty(ps: seq<string>): (r: seq<string>)
    ensures |r| <= |ps|
    ensures forall i :: 0 <= i < |r| ==> |r[i]| > 0
    ensures forall i :: 0 <= i < |r| ==> r[i] in ps
    ensures Concat(r) == Concat(ps)
  {
    if |ps| == 0 then []
    else if |ps[0]| == 0 then DropEmpty(ps[1..])
    else [ps[0]] + DropEmpty(ps[1..])
  }

  /** `str::split_whitespace`. */
  function SplitWhitespace(s: string): (r: seq<string>)
    ensures AllWords(r)
    ensures Concat(r) == Visible(s)
  {
    var r := DropEmpty(Split(s));
    assert forall i :: 0 <= i < |r| ==> r[i] in Split(s);
    r
  }

  /** The loop at src/main.rs:122-124: trim every token in place. */
  function TrimEach(ts: seq<string>): (r: seq<string>)
    ensures |r| == |ts|
    ensures forall i :: 0 <= i < |ts| ==> r[i] == Trim(ts[i])
  {
    if |ts| == 0 then []
    else
      var rest := TrimEach(ts[1..]);
      assert forall i :: 1 <= i < |ts| ==> rest[i - 1] == Trim(ts[i]);
      [Trim(ts[0])] + rest
  }

  /** `get_command_tokens`: the words of the line, in order. */
  function GetCommandTokens(line: string): (r: seq<string>)
    ensures AllWords(r)
    ensures r == [] <==> AllWhitespace(line)
    ensures Concat(r) == Visible(line)
  {
    var ws := SplitWhitespace(Trim(line));
    RetrimIsIdentity(ws);
    VisibleEmpty(line);
    ConcatEmpty(ws);
    TrimEach(ws)
  }

  // ---------------------------------------------------------------------
  // Helper facts

  lemma {:induction false} VisibleAppend(a: string, b: string)
    ensures Visible(a + b) == Visible(a) + Visible(b)
    decreases |a|
  {
    if |a| > 0 {
      assert (a + b)[1..] == a[1..] + b;
      VisibleAppend(a[1..], b);
    } else {
      assert a + b == b;
    }
  }

  lemma {:induction false} VisibleOfWhitespace(s: string)
    requires AllWhitespace(s)
    ensures Visible(s) == ""
    decreases |s|
  {
    if |s| > 0 {
      VisibleOfWhitespace(s[1..]);
    }
  }

  lemma {:induction false} VisibleOfWord(s: string)
    requires NoWhitespace(s)
    ensures Visible(s) == s
    decreases |s|
  {
    if |s| > 0 {
      VisibleOfWord(s[1..]);
    }
  }

  /** A string has no visible character exactly when it is all whitespace. */
  lemma {:induction false} VisibleEmpty(s: string)
    ensures Visible(s) == "" <==> AllWhitespace(s)
    decreases |s|
  {
    if |s| > 0 {
      VisibleEmpty(s[1..]);
      if IsWhitespace(s[0]) {
        if AllWhitespace(s[1..]) {
          assert forall i :: 0 <= i < |s| ==> IsWhitespace(s[i]) by {
            forall i | 0 < i < |s| ensures IsWhitespace(s[i]) {
              assert s[i] == s[1..][i - 1];
            }
          }
        } else {
          var j :| 0 <= j < |s[1..]| && !IsWhitespace(s[1..][j]);
          assert !IsWhitespace(s[j + 1]);
        }
      }
    }
  }

  /** `r` is the slice of `s` starting at `i`, and everything of `s` before
      and after it is whitespace. */
  predicate TrimmedAt(s: string, r: string, i: nat) {
    && i + |r| <= |s| && r == s[i..i + |r|]
    && AllWhitespace(s[..i]) && AllWhitespace(s[i + |r|..])
  }

  /** Trimming removes whitespace at the two ends and nothing else. */
  lemma TrimIsSlice(s: string)
    ensures TrimmedAt(s, TrimEnd(TrimStart(s)), |s| - |TrimStart(s)|)
  {
    var a := TrimStart(s);
    var r := TrimEnd(a);
    SliceOfSuffix(s, |s| - |a|, a, r);
  }

  /** A whitespace-bounded prefix of a suffix behind whitespace is a trimmed
      slice. */
  lemma SliceOfSuffix(s: string, i: nat, a: string, r: string)
    requires i <= |s| && a == s[i..] && AllWhitespace(s[..i])
    requires |r| <= |a| && r == a[..|r|] && AllWhitespace(a[|r|..])
    ensures TrimmedAt(s, r, i)
  {
    assert s[i + |r|..] == a[|r|..];
  }

  /** Dropping a whitespace prefix keeps the visible characters. */
  lemma VisibleDropWhitespace(s: string, k: nat)
    requires k <= |s| && AllWhitespace(s[..k])
    ensures Visible(s[k..]) == Visible(s)
  {
    assert s == s[..k] + s[k..];
    VisibleAppend(s[..k], s[k..]);
    VisibleOfWhitespace(s[..k]);
  }

  lemma TrimStartVisible(s: string)
    ensures Visible(TrimStart(s)) == Visible(s)
  {
    VisibleDropWhitespace(s, |s| - |TrimStart(s)|);
  }

  lemma {:induction false} TrimEndVisible(s: string)
    ensures Visible(TrimEnd(s)) == Visible(s)
  {
    var r := TrimEnd(s);
    assert s == r + s[|r|..];
    VisibleAppend(r, s[|r|..]);
    VisibleOfWhitespace(s[|r|..]);
  }

  lemma {:induction false} ConcatEmpty(ws: seq<string>)
    requires AllWords(ws)
    ensures Concat(ws) == "" <==> ws == []
  {
    if |ws| > 0 {
      assert |Concat(ws)| >= |ws[0]| > 0;
    }
  }

  /** A word has nothing to trim. */
  lemma WordTrimmed(w: string)
    requires NoWhitespace(w)
    ensures Trim(w) == w
  {
    assert TrimStart(w) == w;
    assert TrimEnd(w) == w;
  }

  /** The per-token re-trim loop (src/main.rs:122-124) changes nothing: the
      tokens `split_whitespace` returns have no whitespace to trim. */
  lemma RetrimIsIdentity(ws: seq<string>)
    requires AllWords(ws)
    ensures TrimEach(ws) == ws
  {
  }

  // ---------------------------------------------------------------------
  // Trimming before splitting is redundant

  lemma {:induction false} DropEmptyAppendEmpty(ps: seq<string>)
    ensures DropEmpty(ps + [""]) == DropEmpty(ps)
    decreases |ps|
  {
    if |ps| == 0 {
      assert DropEmpty([""]) == DropEmpty([""][1..]);
    } else {
      assert (ps + [""])[1..] == ps[1..] + [""];
      DropEmptyAppendEmpty(ps[1..]);
    }
  }

  lemma {:induction false} SplitAppendWhitespace(s: string, c: char)
    requires IsWhitespace(c)
    ensures Split(s + [c]) == Split(s) + [""]
    decreases |s|
  {
    if |s| == 0 {
      assert [c][1..] == "";
    } else {
      assert (s + [c])[1..] == s[1..] + [c];
      SplitAppendWhitespace(s[1..], c);
    }
  }

  lemma SplitWhitespaceSkipsLeading(s: string)
    requires |s| > 0 && IsWhitespace(s[0])
    ensures SplitWhitespace(s) == SplitWhitespace(s[1..])
  {
    assert Split(s) == [""] + Split(s[1..]);
    assert ([""] + Split(s[1..]))[1..] == Split(s[1..]);
  }

  lemma SplitWhitespaceSkipsTrailing(s: string)
    requires |s| > 0 && IsWhitespace(s[|s| - 1])
    ensures SplitWhitespace(s) == SplitWhitespace(s[..|s| - 1])
  {
    assert s == s[..|s| - 1] + [s[|s| - 1]];
    SplitAppendWhitespace(s[..|s| - 1], s[|s| - 1]);
    DropEmptyAppendEmpty(Split(s[..|s| - 1]));
  }

  lemma {:induction false} TrimStartKeepsWords(s: string)
    ensures SplitWhitespace(TrimStart(s)) == SplitWhitespace(s)
    decreases |s|
  {
    if |s| > 0 && IsWhitespace(s[0]) {
      SplitWhitespaceSkipsLeading(s);
      TrimStartKeepsWords(s[1..]);
    }
  }

  lemma {:induction false} TrimEndKeepsWords(s: string)
    ensures SplitWhitespace(TrimEnd(s)) == SplitWhitespace(s)
    decreases |s|
  {
    if |s| > 0 && IsWhitespace(s[|s| - 1]) {
      SplitWhitespaceSkipsTrailing(s);
      TrimEndKeepsWords(s[..|s| - 1]);
    }
  }

  /** The `trim()` before `split_whitespace()` (src/main.rs:120) does not
      change the words: the tokens are those of the raw line. */
  lemma TrimKeepsWords(s: string)
    ensures SplitWhitespace(Trim(s)) == SplitWhitespace(s)
  {
    TrimEndKeepsWords(TrimStart(s));
    TrimStartKeepsWords(s);
  }

  /** The tokens are exactly the words of the line, trimmed once. */
  lemma TokensAreWords(line: string)
    ensures GetCommandTokens(line) == SplitWhitespace(line)
  {
    TrimKeepsWords(line);
    RetrimIsIdentity(SplitWhitespace(Trim(line)));
  }

  // ---------------------------------------------------------------------
  // Whitespace normalisation, defined character by character

  /** The line with leading and trailing whitespace removed and every inner
      run of whitespace replaced by one space: each visible character is kept,
      and after the last character of a word one space is emitted exactly when
      another visible character follows. */
  function Collapse(s: string): string {
    if |s| == 0 then ""
    else if IsWhitespace(s[0]) then Collapse(s[1..])
    else if |s| > 1 && !IsWhitespace(s[1]) then [s[0]] + Collapse(s[1..])
    else
      var rest := Collapse(s[1..]);
      if rest == "" then [s[0]] else [s[0], ' '] + rest
  }

  lemma {:induction false} JoinWordsEmpty(ws: seq<string>)
    requires AllWords(ws)
    ensures JoinWords(ws) == "" <==> ws == []
  {
    if |ws| > 1 {
      assert |JoinWords(ws)| >= |ws[0]|;
    }
  }

  /** Joining the tokens with single spaces gives the whitespace-normalised
      line. */
  lemma {:induction false} JoinNormalises(line: string)
    ensures JoinWords(GetCommandTokens(line)) == Collapse(line)
  {
    TokensAreWords(line);
    JoinSplitCollapse(line);
  }

  /** How the words of a line starting with a visible character relate to
      the words of the line without it. */
  lemma WordsAfterVisible(s: string)
    requires |s| > 0 && !IsWhitespace(s[0])
    ensures var rs := Split(s[1..]);
      && SplitWhitespace(s) == [[s[0]] + rs[0]] + DropEmpty(rs[1..])
      && SplitWhitespace(s[1..]) == (if rs[0] == "" then [] else [rs[0]]) + DropEmpty(rs[1..])
      && (rs[0] == "" <==> |s| == 1 || IsWhitespace(s[1]))
  {
    var rs := Split(s[1..]);
    assert rs == [rs[0]] + rs[1..];
    if |s| > 1 {
      assert s[1..][1..] == s[2..];
    }
  }

  lemma {:induction false} JoinSplitCollapse(s: string)
    ensures JoinWords(SplitWhitespace(s)) == Collapse(s)
    decreases |s|
  {
    if |s| == 0 {
    } else if IsWhitespace(s[0]) {
      SplitWhitespaceSkipsLeading(s);
      JoinSplitCollapse(s[1..]);
    } else {
      JoinSplitCollapse(s[1..]);
      JoinSplitVisible(s);
    }
  }

  /** The step of `JoinSplitCollapse` for a line starting with a visible
      character, given the result for the rest of the line. */
  lemma JoinSplitVisible(s: string)
    requires |s| > 0 && !IsWhitespace(s[0])
    requires JoinWords(SplitWhitespace(s[1..])) == Collapse(s[1..])
    ensures JoinWords(SplitWhitespace(s)) == Collapse(s)
  {
    if |s| > 1 && !IsWhitespace(s[1]) {
      JoinSplitInsideWord(s);
    } else {
      JoinSplitWordEnd(s);
    }
  }

  /** `JoinSplitVisible` when the next character continues the word. */
  lemma JoinSplitInsideWord(s: string)
    requires |s| > 1 && !IsWhitespace(s[0]) && !IsWhitespace(s[1])
    requires JoinWords(SplitWhitespace(s[1..])) == Collapse(s[1..])
    ensures JoinWords(SplitWhitespace(s)) == Collapse(s)
  {
    WordsAfterVisible(s);
    var rs := Split(s[1..]);
    var w := rs[0];
    var t := DropEmpty(rs[1..]);
    assert SplitWhitespace(s[1..]) == [w] + t;
    JoinCons([s[0]], w, t);
    assert Collapse(s) == [s[0]] + Collapse(s[1..]);
  }

  /** `JoinSplitVisible` when the word ends at the first character. */
  lemma JoinSplitWordEnd(s: string)
    requires |s| > 0 && !IsWhitespace(s[0]) && (|s| == 1 || IsWhitespace(s[1]))
    requires JoinWords(SplitWhitespace(s[1..])) == Collapse(s[1..])
    ensures JoinWords(SplitWhitespace(s)) == Collapse(s)
  {
    WordsAfterVisible(s);
    var rs := Split(s[1..]);
    var t := DropEmpty(rs[1..]);
    var rest := Collapse(s[1..]);
    assert AllWords(t) by {
      assert t == SplitWhitespace(s)[1..];
    }
    assert SplitWhitespace(s[1..]) == t;
    assert SplitWhitespace(s) == [[s[0]]] + t by {
      assert [s[0]] + rs[0] == [s[0]];
    }
    JoinWordsEmpty(t);
    JoinWordAlone([s[0]], t);
    SpaceAfter(s[0], rest);
  }

  lemma SpaceAfter(c: char, r: string)
    ensures [c] + " " + r == [c, ' '] + r
  {
    assert [c] + " " == [c, ' '];
  }

  /** Joining a word in front of the rest: the word alone when nothing
      follows, and the word, a space and the rest otherwise. */
  lemma JoinWordAlone(c: string, t: seq<string>)
    ensures JoinWords([c] + t) == if t == [] then c else c + " " + JoinWords(t)
  {
    if t != [] {
      assert ([c] + t)[1..] == t;
    }
  }

  /** Prepending characters to the first word prepends them to the join. */
  lemma JoinCons(c: string, w: string, t: seq<string>)
    ensures JoinWords([c + w] + t) == c + JoinWords([w] + t)
  {
    if |t| == 0 {
    } else {
      assert ([c + w] + t)[1..] == t;
      assert ([w] + t)[1..] == t;
    }
  }

  // ---------------------------------------------------------------------
  // Splitting undoes joining

  lemma {:induction false} SplitWord(w: string)
    requires NoWhitespace(w)
    ensures Split(w) == [w]
    decreases |w|
  {
    if |w| > 0 {
      SplitWord(w[1..]);
      assert [w[0]] + w[1..] == w;
    }
  }

  lemma {:induction false} SplitWordThenSeparator(w: string, c: char, x: string)
    requires NoWhitespace(w) && IsWhitespace(c)
    ensures Split(w + [c] + x) == [w] + Split(x)
    decreases |w|
  {
    if |w| == 0 {
      assert w + [c] + x == [c] + x;
      assert ([c] + x)[1..] == x;
    } else {
      assert (w + [c] + x)[1..] == w[1..] + [c] + x;
      SplitWordThenSeparator(w[1..], c, x);
      assert [w[0]] + w[1..] == w;
    }
  }

  /** Tokenizing words joined with single spaces gives back the words. */
  lemma {:induction false} SplitJoinRoundTrip(ws: seq<string>)
    requires AllWords(ws)
    ensures SplitWhitespace(JoinWords(ws)) == ws
    decreases |ws|
  {
    if |ws| == 0 {
    } else if |ws| == 1 {
      SplitWord(ws[0]);
    } else {
      var x := JoinWords(ws[1..]);
      assert JoinWords(ws) == ws[0] + [' '] + x;
      SplitWordThenSeparator(ws[0], ' ', x);
      SplitJoinRoundTrip(ws[1..]);
      assert ([ws[0]] + Split(x))[1..] == Split(x);
      assert ws == [ws[0]] + ws[1..];
    }
  }

  /** `get_command_tokens` inverts joining with single spaces. */
  lemma JoinRoundTrip(ws: seq<string>)
    requires AllWords(ws)
    ensures GetCommandTokens(JoinWords(ws)) == ws
  {
    TokensAreWords(JoinWords(ws));
    SplitJoinRoundTrip(ws);
  }
}
