/**
 * Python's `str.split()` (no separator) and `sep.join(list)`, the two string
 * primitives the summarizer's text shaping is built on. Strings are `seq<char>`.
 */
module Strings {

  /** The characters Python's `str.isspace` accepts, which `str.split()` splits on. */
  const SPACES: set<char> := {
    '\t', '\n', '\U{0b}', '\U{0c}', '\r', '\U{1c}', '\U{1d}', '\U{1e}', '\U{1f}', ' ',
    '\U{85}', '\U{a0}', '\U{1680}',
    '\U{2000}', '\U{2001}', '\U{2002}', '\U{2003}', '\U{2004}', '\U{2005}',
    '\U{2006}', '\U{2007}', '\U{2008}', '\U{2009}', '\U{200a}',
    '\U{2028}', '\U{2029}', '\U{202f}', '\U{205f}', '\U{3000}'
  }

  /** `c.isspace()`. */
  predicate IsSpace(c: char) {
    c in SPACES
  }

  /**
   * Among ASCII characters `isspace` holds exactly of `\t`, `\n`, `\v`, `\f`,
   * `\r`, the four separators U+001C..U+001F and the space; no character above
   * U+3000 is whitespace.
   */
  lemma IsSpaceAscii(c: char)
    ensures c < '\U{80}' ==> (IsSpace(c) <==> '\t' <= c <= '\r' || '\U{1c}' <= c <= ' ')
    ensures '\U{3000}' < c ==> !IsSpace(c)
  {
  }

  /** True when `w` is a word: non-empty and free of whitespace. */
  predicate IsWord(w: string) {
    w != [] && forall i :: 0 <= i < |w| ==> !IsSpace(w[i])
  }

  /**
   * `s.split()`: the maximal runs of non-whitespace characters of `s`, in order.
   * Defined by consuming `s` from its end: a whitespace character ends nothing new,
   * a non-whitespace character either extends the last word (when its left
   * neighbour is non-whitespace too) or opens a new one.
   */
  function Split(s: string): (ws: seq<string>)
    ensures s != [] && !IsSpace(s[|s| - 1]) ==> ws != [] && ws[|ws| - 1] != []
    decreases |s|
  {
    if s == [] then []
    else
      var init, c := s[..|s| - 1], s[|s| - 1];
      var ws := Split(init);
      if IsSpace(c) then ws
      else if init != [] && !IsSpace(init[|init| - 1]) then ws[..|ws| - 1] + [ws[|ws| - 1] + [c]]
      else ws + [[c]]
  }

  /** `len(s.split())`. */
  function WordCount(s: string): (n: nat)
    ensures n <= |s|
  {
    SplitLength(s);
    |Split(s)|
  }

  /** `str.split()` finds at most one word per character. */
  lemma {:induction false} SplitLength(s: string)
    ensures |Split(s)| <= |s|
  {
    if s != [] {
      SplitLength(s[..|s| - 1]);
    }
  }

  /** Position `i` of `s` starts a word: it is non-whitespace and follows whitespace or the start. */
  predicate StartsWord(s: string, i: int)
    requires 0 <= i < |s|
  {
    !IsSpace(s[i]) && (i == 0 || IsSpace(s[i - 1]))
  }

  /** The number of word starts among the first `n` positions of `s`. */
  function WordStarts(s: string, n: nat): nat
    requires n <= |s|
  {
    if n == 0 then 0 else WordStarts(s, n - 1) + (if StartsWord(s, n - 1) then 1 else 0)
  }

  /** `s` with every whitespace character removed. */
  function NonSpace(s: string): string {
    if s == [] then [] else NonSpace(s[..|s| - 1]) + (if IsSpace(s[|s| - 1]) then [] else [s[|s| - 1]])
  }

  /** The concatenation of a list of strings, `"".join(ws)`. */
  function Concat(ws: seq<string>): string {
    if ws == [] then [] else Concat(ws[..|ws| - 1]) + ws[|ws| - 1]
  }

  /** `sep.join(ws)`. */
  function Join(ws: seq<string>, sep: string): (r: string)
    ensures ws != [] ==> |ws[0]| <= |r| && r[..|ws[0]|] == ws[0]
  {
    if ws == [] then []
    else if |ws| == 1 then ws[0]
    else Join(ws[..|ws| - 1], sep) + sep + ws[|ws| - 1]
  }

  /** `s.startswith(p)`: `s` agrees with `p` on every position of `p`. */
  predicate StartsWith(s: string, p: string)
    ensures StartsWith(s, p) <==> |p| <= |s| && forall i :: 0 <= i < |p| ==> s[i] == p[i]
  {
    |p| <= |s| && s[..|p|] == p
  }

  /** Every token `split()` returns is a word: non-empty and without whitespace. */
  lemma {:induction false} SplitYieldsWords(s: string)
    ensures forall k :: 0 <= k < |Split(s)| ==> IsWord(Split(s)[k])
    decreases |s|
  {
    if s != [] {
      var init, c := s[..|s| - 1], s[|s| - 1];
      SplitYieldsWords(init);
      var ws := Split(init);
      if !IsSpace(c) && init != [] && !IsSpace(init[|init| - 1]) {
        var last := ws[|ws| - 1] + [c];
        assert IsWord(last) by {
          assert forall i :: 0 <= i < |last| - 1 ==> last[i] == ws[|ws| - 1][i];
        }
      }
    }
  }

  /** `split()` loses only whitespace: gluing its tokens together gives `s` without its whitespace. */
  lemma {:induction false} SplitKeepsContent(s: string)
    ensures Concat(Split(s)) == NonSpace(s)
    decreases |s|
  {
    if s != [] {
      var init, c := s[..|s| - 1], s[|s| - 1];
      SplitKeepsContent(init);
      var ws := Split(init);
      if !IsSpace(c) && init != [] && !IsSpace(init[|init| - 1]) {
        var front := ws[..|ws| - 1];
        assert ws[..|ws| - 1] + [ws[|ws| - 1] + [c]] == front + [ws[|ws| - 1] + [c]];
        assert (front + [ws[|ws| - 1] + [c]])[..|front|] == front;
        assert ws[..|ws| - 1] == front;
        assert Concat(ws) == Concat(front) + ws[|ws| - 1];
      } else if !IsSpace(c) {
        assert (ws + [[c]])[..|ws|] == ws;
      }
    }
  }

  /** `len(s.split())` is the number of positions at which a word starts. */
  lemma {:induction false} WordCountIsWordStarts(s: string)
    ensures WordCount(s) == WordStarts(s, |s|)
    decreases |s|
  {
    if s != [] {
      var init := s[..|s| - 1];
      WordCountIsWordStarts(init);
      WordStartsPrefix(s, init, |init|);
    }
  }

  /** Word starts below `n` depend only on the first `n` characters. */
  lemma {:induction false} WordStartsPrefix(s: string, t: string, n: nat)
    requires n <= |s| && n <= |t| && s[..n] == t[..n]
    ensures WordStarts(s, n) == WordStarts(t, n)
  {
    if n > 0 {
      assert s[n - 1] == s[..n][n - 1] && t[n - 1] == t[..n][n - 1];
      assert n >= 2 ==> s[n - 2] == s[..n][n - 2] && t[n - 2] == t[..n][n - 2];
      assert s[..n - 1] == s[..n][..n - 1];
      assert t[..n - 1] == t[..n][..n - 1];
      WordStartsPrefix(s, t, n - 1);
    }
  }

  /** Appending whitespace adds no word. */
  lemma SplitSnocSpace(s: string, c: char)
    requires IsSpace(c)
    ensures Split(s + [c]) == Split(s)
  {
    assert (s + [c])[..|s|] == s;
  }

  /** Appending a non-whitespace character right after one extends the last word. */
  lemma SplitSnocExtend(s: string, c: char)
    requires !IsSpace(c) && s != [] && !IsSpace(s[|s| - 1])
    ensures Split(s) != []
    ensures Split(s + [c]) == Split(s)[..|Split(s)| - 1] + [Split(s)[|Split(s)| - 1] + [c]]
  {
    assert (s + [c])[..|s|] == s;
  }

  /** Appending a non-whitespace character at the start or after whitespace opens a new word. */
  lemma SplitSnocNew(s: string, c: char)
    requires !IsSpace(c) && (s == [] || IsSpace(s[|s| - 1]))
    ensures Split(s + [c]) == Split(s) + [[c]]
  {
    assert (s + [c])[..|s|] == s;
  }

  /** Splitting after a whitespace character: the words on each side stay apart. */
  lemma {:induction false} SplitAfterSpace(a: string, b: string)
    requires a != [] && IsSpace(a[|a| - 1])
    ensures Split(a + b) == Split(a) + Split(b)
    decreases |b|
  {
    if b == [] {
      assert a + b == a;
    } else {
      var b', c := b[..|b| - 1], b[|b| - 1];
      SplitAfterSpace(a, b');
      assert b == b' + [c];
      assert a + b == (a + b') + [c];
      SplitAfterSpaceStep(a, b', c);
    }
  }

  /** The inductive step of SplitAfterSpace: appending one character on the right. */
  lemma SplitAfterSpaceStep(a: string, b': string, c: char)
    requires a != [] && IsSpace(a[|a| - 1])
    requires Split(a + b') == Split(a) + Split(b')
    ensures Split((a + b') + [c]) == Split(a) + Split(b' + [c])
  {
    if b' == [] {
      assert a + b' == a && b' + [c] == [c];
      SplitOfOne(c);
      if IsSpace(c) {
        SplitSnocSpace(a, c);
      } else {
        SplitSnocNew(a, c);
      }
    } else {
      var ab := a + b';
      assert ab[|ab| - 1] == b'[|b'| - 1];
      if IsSpace(c) {
        SplitSnocSpace(ab, c);
        SplitSnocSpace(b', c);
      } else if IsSpace(b'[|b'| - 1]) {
        SplitSnocNew(ab, c);
        SplitSnocNew(b', c);
      } else {
        SplitSnocExtend(ab, c);
        SplitSnocExtend(b', c);
        ExtendLastWord(Split(a), Split(b'), c);
      }
    }
  }

  /** A single character is one word, or none when it is whitespace. */
  lemma SplitOfOne(c: char)
    ensures Split([c]) == if IsSpace(c) then [] else [[c]]
  {
    assert [c][..0] == [];
  }

  /** Extending the last word of `sa + sb` extends the last word of `sb` when `sb` is non-empty. */
  lemma ExtendLastWord(sa: seq<string>, sb: seq<string>, c: char)
    requires sb != []
    ensures (sa + sb)[..|sa + sb| - 1] + [(sa + sb)[|sa + sb| - 1] + [c]]
         == sa + (sb[..|sb| - 1] + [sb[|sb| - 1] + [c]])
  {
    assert (sa + sb)[..|sa + sb| - 1] == sa + sb[..|sb| - 1];
  }

  /** The text `" ".join(c)` has as many words as the sentences of `c` together. */
  lemma {:induction false} JoinedWordCount(c: seq<string>)
    ensures WordCount(Join(c, " ")) == SumWords(c)
    decreases |c|
  {
    if |c| >= 2 {
      var init := c[..|c| - 1];
      JoinedWordCount(init);
      var left := Join(init, " ") + " ";
      assert left[..|left| - 1] == Join(init, " ");
      assert Split(left) == Split(Join(init, " "));
      SplitAfterSpace(left, c[|c| - 1]);
      assert Join(c, " ") == left + c[|c| - 1];
      assert init[..|init| - 1] == c[..|c| - 2];
    } else if |c| == 1 {
      assert c[..0] == [];
    }
  }

  /** `sum(len(s.split()) for s in c)`: the words of a list of sentences. */
  function SumWords(c: seq<string>): (n: nat)
    ensures c != [] ==> WordCount(c[0]) <= n && WordCount(c[|c| - 1]) <= n
  {
    if c == [] then 0 else SumWords(c[..|c| - 1]) + WordCount(c[|c| - 1])
  }

  /** Every element of `m + sep.join(ws)` with `sep == m` stands behind its own marker. */
  function Marked(ws: seq<string>, m: string): string {
    if ws == [] then [] else Marked(ws[..|ws| - 1], m) + m + ws[|ws| - 1]
  }

  /** `m + m.join(ws)` is each element of a non-empty `ws` preceded by `m`. */
  lemma {:induction false} JoinBehindMarker(ws: seq<string>, m: string)
    requires ws != []
    ensures m + Join(ws, m) == Marked(ws, m)
    decreases |ws|
  {
    var init, last := ws[..|ws| - 1], ws[|ws| - 1];
    assert Marked(ws, m) == Marked(init, m) + m + last;
    if |ws| == 1 {
      assert Marked(init, m) == [] && Join(ws, m) == last by {
        assert init == [];
      }
    } else {
      var j := Join(init, m);
      assert Join(ws, m) == j + m + last;
      assert m + j == Marked(init, m) by {
        JoinBehindMarker(init, m);
      }
      assert m + (j + m + last) == (m + j) + m + last;
    }
  }

  /** The number of occurrences of `c` in `s`. */
  function CountChar(s: string, c: char): nat {
    if s == [] then 0 else CountChar(s[..|s| - 1], c) + (if s[|s| - 1] == c then 1 else 0)
  }

  lemma {:induction false} CountCharAppend(a: string, b: string, c: char)
    ensures CountChar(a + b, c) == CountChar(a, c) + CountChar(b, c)
    decreases |b|
  {
    if b == [] {
      assert a + b == a;
    } else {
      CountCharAppend(a, b[..|b| - 1], c);
      assert (a + b)[..|a + b| - 1] == a + b[..|b| - 1];
    }
  }

  /**
   * When the marker holds one line break and the elements hold none, `Marked(ws, m)`
   * holds exactly one line break per element, so each element is on its own line.
   */
  lemma {:induction false} MarkedLineCount(ws: seq<string>, m: string)
    requires CountChar(m, '\n') == 1
    requires forall i :: 0 <= i < |ws| ==> CountChar(ws[i], '\n') == 0
    ensures CountChar(Marked(ws, m), '\n') == |ws|
    decreases |ws|
  {
    if ws != [] {
      var init := ws[..|ws| - 1];
      assert forall i :: 0 <= i < |init| ==> init[i] == ws[i];
      MarkedLineCount(init, m);
      CountCharAppend(Marked(init, m) + m, ws[|ws| - 1], '\n');
      CountCharAppend(Marked(init, m), m, '\n');
    }
  }
}
