/**
 The few JavaScript string operations the route loader relies on:
 `substr(-n)`, `slice(0, -n)`, `toLowerCase` (ASCII letters only) and
 underscore.string's `_.words`.
 */
module JsString {

  /** A character that JavaScript's `\s` class and `String.prototype.trim` count as white space. */
  predicate IsSpace(c: char) {
    || c == ' ' || c == '\t' || c == '\n' || c == '\r'
    || c == '\U{000B}' || c == '\U{000C}' || c == '\U{00A0}' || c == '\U{1680}'
    || ('\U{2000}' <= c <= '\U{200A}')
    || c == '\U{2028}' || c == '\U{2029}' || c == '\U{202F}' || c == '\U{205F}'
    || c == '\U{3000}' || c == '\U{FEFF}'
  }

  predicate NoSpace(s: string) {
    forall i :: 0 <= i < |s| ==> !IsSpace(s[i])
  }

  predicate IsBlank(s: string) {
    forall i :: 0 <= i < |s| ==> IsSpace(s[i])
  }

  function LowerChar(c: char): char {
    if 'A' <= c <= 'Z' then (c as int + 32) as char else c
  }

  /** `s.toLowerCase()`, restricted to the ASCII letters. */
  function Lower(s: string): (r: string)
    ensures |r| == |s|
    ensures forall i :: 0 <= i < |s| ==> r[i] == LowerChar(s[i])
  {
    seq(|s|, i requires 0 <= i < |s| => LowerChar(s[i]))
  }

  predicate IsLowerCase(s: string) {
    forall i :: 0 <= i < |s| ==> LowerChar(s[i]) == s[i]
  }

  lemma LowerIsLowerCase(s: string)
    ensures IsLowerCase(Lower(s))
    ensures IsLowerCase(s) ==> Lower(s) == s
  {
  }

  lemma LowerKeepsNoSpace(s: string)
    requires NoSpace(s)
    ensures NoSpace(Lower(s))
  {
  }

  predicate EndsWith(s: string, suffix: string) {
    |suffix| <= |s| && s[|s| - |suffix|..] == suffix
  }

  /** `s.substr(-n)`: the last n characters, or the whole of s when it is shorter. */
  function TailOf(s: string, n: nat): (r: string)
    ensures |r| == if |s| >= n then n else |s|
    ensures r == s[|s| - |r|..]
  {
    if |s| >= n then s[|s| - n..] else s
  }

  /** `s.slice(0, -n)` for a positive n: all but the last n characters, "" when s is no longer than n. */
  function DropLast(s: string, n: nat): (r: string)
    requires n > 0
    ensures |r| == if |s| > n then |s| - n else 0
    ensures r == s[..|r|]
  {
    if |s| > n then s[..|s| - n] else ""
  }

  /** Comparing `substr(-|suffix|)` with a suffix is the same as asking whether s ends with it. */
  lemma TailOfMatches(s: string, suffix: string)
    ensures TailOf(s, |suffix|) == suffix <==> EndsWith(s, suffix)
  {
  }

  /** What is left of s after its leading white space. */
  function SkipSpace(s: string): (r: string)
    ensures |r| <= |s| && r == s[|s| - |r|..]
    ensures r == [] || !IsSpace(r[0])
    ensures IsBlank(s[..|s| - |r|])
    decreases |s|
  {
    if s != [] && IsSpace(s[0]) then
      var r := SkipSpace(s[1..]);
      assert s[..|s| - |r|] == [s[0]] + s[1..][..|s[1..]| - |r|];
      r
    else s
  }

  /** The length of the leading run of non-space characters of s. */
  function TokenLength(s: string): (n: nat)
    ensures n <= |s|
    ensures NoSpace(s[..n])
    ensures n < |s| ==> IsSpace(s[n])
    decreases |s|
  {
    if s != [] && !IsSpace(s[0]) then
      var n := TokenLength(s[1..]);
      assert s[..n + 1] == [s[0]] + s[1..][..n];
      n + 1
    else 0
  }

  /**
   underscore.string's `_.words(s)` with the default delimiter: [] for a
   blank string, otherwise `trim(s).split(/\s+/)`, which is the list of the
   maximal runs of non-space characters of s.
   */
  function Words(s: string): (ws: seq<string>)
    ensures forall i :: 0 <= i < |ws| ==> ws[i] != [] && NoSpace(ws[i])
    decreases |s|
  {
    var t := SkipSpace(s);
    if t == [] then []
    else
      var n := TokenLength(t);
      assert n > 0 by {
        assert !IsSpace(t[0]);
      }
      var ws := Words(t[n..]);
      assert NoSpace(t[..n]);
      [t[..n]] + ws
  }

  /** `_.words` finds no word exactly in a blank string. */
  lemma WordsEmpty(s: string)
    ensures Words(s) == [] <==> IsBlank(s)
  {
    var t := SkipSpace(s);
    if t == [] {
      assert s[..|s| - |t|] == s;
    } else {
      assert t[0] == s[|s| - |t|];
    }
  }

  lemma {:induction false} TokenLengthOf(a: string, rest: string)
    requires NoSpace(a)
    requires rest == [] || IsSpace(rest[0])
    ensures TokenLength(a + rest) == |a|
    decreases |a|
  {
    if a != [] {
      assert (a + rest)[1..] == a[1..] + rest;
      TokenLengthOf(a[1..], rest);
    } else {
      assert a + rest == rest;
    }
  }

  /** Leading white space does not change where `SkipSpace` stops. */
  lemma {:induction false} SkipBlank(sep: string, s: string)
    requires IsBlank(sep)
    ensures SkipSpace(sep + s) == SkipSpace(s)
    decreases |sep|
  {
    if sep == [] {
      assert sep + s == s;
    } else {
      assert (sep + s)[0] == sep[0];
      assert (sep + s)[1..] == sep[1..] + s;
      SkipBlank(sep[1..], s);
    }
  }

  /** `_.words` ignores leading white space. */
  lemma WordsAfterBlank(sep: string, s: string)
    requires IsBlank(sep)
    ensures Words(sep + s) == Words(s)
  {
    SkipBlank(sep, s);
  }

  /** A string that starts with a word splits into that word and the words of what follows it. */
  lemma WordsUnfold(s: string)
    requires s != [] && !IsSpace(s[0])
    ensures Words(s) == [s[..TokenLength(s)]] + Words(s[TokenLength(s)..])
  {
    assert SkipSpace(s) == s;
  }

  /** The first word of a string that starts with a word is its leading run of non-space characters. */
  lemma WordsFirst(s: string)
    requires s != [] && !IsSpace(s[0])
    ensures Words(s) != [] && Words(s)[0] == s[..TokenLength(s)]
  {
    WordsUnfold(s);
  }

  /** A string that starts with a whole word has that word as its first word. */
  lemma WordsHead(a: string, rest: string)
    requires a != [] && NoSpace(a)
    requires rest == [] || IsSpace(rest[0])
    ensures Words(a + rest) != [] && Words(a + rest)[0] == a
  {
    var s := a + rest;
    assert s[0] == a[0];
    TokenLengthOf(a, rest);
    WordsFirst(s);
    assert s[..|a|] == a;
  }

  /** A word followed by a run of white space and more text splits off as the first word. */
  lemma WordsCons(a: string, sep: string, rest: string)
    requires a != [] && NoSpace(a)
    requires sep != [] && IsBlank(sep)
    ensures Words(a + sep + rest) == [a] + Words(rest)
  {
    var s := a + (sep + rest);
    assert a + sep + rest == s;
    assert s[0] == a[0];
    assert (sep + rest)[0] == sep[0];
    TokenLengthOf(a, sep + rest);
    WordsUnfold(s);
    assert s[..|a|] == a;
    assert s[|a|..] == sep + rest;
    WordsAfterBlank(sep, rest);
  }

  /** A single word, with white space or nothing after it, splits to itself. */
  lemma WordsSingle(b: string, trail: string)
    requires b != [] && NoSpace(b)
    requires IsBlank(trail)
    ensures Words(b + trail) == [b]
  {
    if trail == [] {
      assert b + trail == b;
      assert SkipSpace(b) == b;
      TokenLengthOf(b, []);
      assert b + [] == b;
      assert b[..|b|] == b;
      assert Words(b[|b|..]) == [];
    } else {
      WordsCons(b, trail, []);
      assert b + trail + [] == b + trail;
      WordsEmpty([]);
    }
  }

  /**
   A word, white space, a second word, and then nothing or text starting
   with white space: the first two words are those two.
   */
  lemma WordsOfPair(a: string, sep: string, b: string, rest: string)
    requires a != [] && NoSpace(a)
    requires sep != [] && IsBlank(sep)
    requires b != [] && NoSpace(b)
    requires rest == [] || IsSpace(rest[0])
    ensures |Words(a + sep + b + rest)| >= 2
    ensures Words(a + sep + b + rest)[0] == a && Words(a + sep + b + rest)[1] == b
  {
    var tail := b + rest;
    assert a + sep + b + rest == a + sep + tail;
    WordsCons(a, sep, tail);
    WordsHead(b, rest);
  }

}
