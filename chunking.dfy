/**
 * `sentence_chunking`: one pass over the sentences of a text that groups them
 * into windows. The open window is closed when the next sentence would push
 * `word_count` over `max_words`, and the next window is reseeded with
 * `chunk[-overlap:]` of the closed one (the last `overlap` sentences for
 * `overlap >= 1`, the whole window for `overlap = 0`). Windows can therefore
 * exceed `max_words`: see `WholeCarryOverflows` and `OversizeWindowIsSeed`.
 *
 * The loop itself is the method `SentenceChunking`, written over lists as
 * summarizer.py writes it. Its specification `Run` follows the same loop over
 * positions: a window is a `Span` of the input, so that the properties of the
 * windows (contiguity, order, overlap, coverage) are statements about indices.
 */
module Chunking {
  import opened Strings

  function Min(a: int, b: int): int {
    if a <= b then a else b
  }

  /** Python's normalisation of the start `i` of a slice `x[i:]` of a list of length `len`. */
  function SliceStart(len: nat, i: int): (k: nat)
    ensures k <= len
    ensures i >= 0 ==> k == Min(i, len)
    ensures i < 0 ==> k == len - Min(-i, len)
  {
    if i < 0 then (if len + i < 0 then 0 else len + i)
    else if i > len then len else i
  }

  /**
   * `chunk[-overlap:]`: the sentences carried from a closed chunk into the next one.
   * They are always a suffix of the closed chunk; `overlap = 0` carries all of it.
   */
  function CarryOver(chunk: seq<string>, overlap: int): (carry: seq<string>)
    ensures |carry| <= |chunk| && carry == chunk[|chunk| - |carry|..]
    ensures overlap >= 1 ==> |carry| == Min(overlap, |chunk|)
    ensures overlap == 0 ==> carry == chunk
    ensures overlap < 0 ==> |carry| == |chunk| - Min(-overlap, |chunk|)
  {
    chunk[SliceStart(|chunk|, -overlap)..]
  }

  /** The sentences `ss[lo..hi]` of one window, by position in the input. */
  datatype Span = Span(lo: nat, hi: nat)

  /**
   * The loop state after the first `n` sentences: the windows already emitted,
   * the position where the open chunk starts (it runs up to `n`), and `word_count`.
   */
  datatype Acc = Acc(closed: seq<Span>, lo: nat, count: int)

  /** Where the chunk opened after closing `sp` starts: the start of its carried sentences. */
  function NextLo(sp: Span, overlap: int): nat
    requires sp.lo <= sp.hi
  {
    sp.lo + SliceStart(sp.hi - sp.lo, -overlap)
  }

  /** All spans lie inside the first `n` positions and are well formed. */
  predicate SpansWithin(sp: seq<Span>, n: nat) {
    forall k :: 0 <= k < |sp| ==> sp[k].lo <= sp[k].hi <= n
  }

  /**
   * One pass of the loop body on sentence `i` from state `a`: when the sentence
   * would push `word_count` over `max_words`, the open chunk is closed and the
   * next one starts with its carried sentences, whose words are counted afresh;
   * then the sentence joins the open chunk.
   */
  function Step(ss: seq<string>, maxWords: int, overlap: int, a: Acc, i: nat): (a': Acc)
    requires a.lo <= i < |ss|
    ensures a'.lo <= i
  {
    var w := WordCount(ss[i]);
    if a.count + w > maxWords then
      var lo := NextLo(Span(a.lo, i), overlap);
      Acc(a.closed + [Span(a.lo, i)], lo, SumWords(ss[lo..i]) + w)
    else
      Acc(a.closed, a.lo, a.count + w)
  }

  /** The state of the chunking loop after the first `n` sentences of `ss`. */
  function Run(ss: seq<string>, maxWords: int, overlap: int, n: nat): (a: Acc)
    requires n <= |ss|
    ensures a.lo <= n && (n > 0 ==> a.lo < n)
    ensures |a.closed| <= n
    ensures forall k :: 0 <= k < |a.closed| ==> a.closed[k].lo <= a.closed[k].hi < n
  {
    if n == 0 then Acc([], 0, 0)
    else Step(ss, maxWords, overlap, Run(ss, maxWords, overlap, n - 1), n - 1)
  }

  /** The windows `sentence_chunking` emits, as spans: the closed ones, then the last chunk if non-empty. */
  function Spans(ss: seq<string>, maxWords: int, overlap: int): (sp: seq<Span>)
    ensures SpansWithin(sp, |ss|)
  {
    var a := Run(ss, maxWords, overlap, |ss|);
    if a.lo < |ss| then a.closed + [Span(a.lo, |ss|)] else a.closed
  }

  /** The windows as lists of sentences. */
  function Windows(ss: seq<string>, maxWords: int, overlap: int): (ws: seq<seq<string>>)
    ensures |ws| == |Spans(ss, maxWords, overlap)|
  {
    var sp := Spans(ss, maxWords, overlap);
    seq(|sp|, k requires 0 <= k < |sp| => ss[sp[k].lo..sp[k].hi])
  }

  /** The text of the windows given by `sp`, each joined with single spaces. */
  function JoinSpans(ss: seq<string>, sp: seq<Span>): (r: seq<string>)
    requires SpansWithin(sp, |ss|)
    ensures |r| == |sp|
  {
    seq(|sp|, k requires 0 <= k < |sp| => Join(ss[sp[k].lo..sp[k].hi], " "))
  }

  /** What `sentence_chunking` returns for the sentences `ss`. */
  function Chunks(ss: seq<string>, maxWords: int, overlap: int): (r: seq<string>)
    ensures |r| == |Windows(ss, maxWords, overlap)|
  {
    JoinSpans(ss, Spans(ss, maxWords, overlap))
  }

  /** Emitting one more window appends its joined text. */
  lemma JoinSpansSnoc(ss: seq<string>, sp: seq<Span>, last: Span)
    requires SpansWithin(sp, |ss|) && last.lo <= last.hi <= |ss|
    ensures SpansWithin(sp + [last], |ss|)
    ensures JoinSpans(ss, sp + [last]) == JoinSpans(ss, sp) + [Join(ss[last.lo..last.hi], " ")]
  {
    assert forall k :: 0 <= k < |sp| ==> (sp + [last])[k] == sp[k];
  }

  /** `sum(len(s.split()) for s in chunk)`, as the loop it is. */
  method CountWords(chunk: seq<string>) returns (total: nat)
    ensures total == SumWords(chunk)
  {
    total := 0;
    for j := 0 to |chunk|
      invariant total == SumWords(chunk[..j])
    {
      assert chunk[..j + 1][..j] == chunk[..j];
      total := total + WordCount(chunk[j]);
    }
    assert chunk[..|chunk|] == chunk;
  }

  lemma SliceOfSlice<T>(s: seq<T>, lo: nat, k: nat, hi: nat)
    requires lo + k <= hi <= |s|
    ensures s[lo..hi][k..] == s[lo + k..hi]
  {
  }

  lemma SliceSplit<T>(s: seq<T>, lo: nat, mid: nat, hi: nat)
    requires lo <= mid <= hi <= |s|
    ensures s[lo..hi] == s[lo..mid] + s[mid..hi]
  {
  }

  lemma SliceSnoc<T>(s: seq<T>, lo: nat, i: nat)
    requires lo <= i < |s|
    ensures s[lo..i + 1] == s[lo..i] + [s[i]]
  {
  }

  /** One iteration that closes the open chunk `ss[a.lo..i]`, on lists. */
  lemma CloseStep(ss: seq<string>, maxWords: int, overlap: int, a: Acc, i: nat)
    requires a.lo <= i < |ss| && SpansWithin(a.closed, |ss|)
    requires a.count + WordCount(ss[i]) > maxWords
    ensures var a' := Step(ss, maxWords, overlap, a, i);
      && CarryOver(ss[a.lo..i], overlap) + [ss[i]] == ss[a'.lo..i + 1]
      && a'.count == SumWords(CarryOver(ss[a.lo..i], overlap)) + WordCount(ss[i])
      && JoinSpans(ss, a'.closed) == JoinSpans(ss, a.closed) + [Join(ss[a.lo..i], " ")]
  {
    var chunk, k := ss[a.lo..i], SliceStart(i - a.lo, -overlap);
    var lo := a.lo + k;
    assert lo == NextLo(Span(a.lo, i), overlap);
    assert Step(ss, maxWords, overlap, a, i) == Acc(a.closed + [Span(a.lo, i)], lo, SumWords(ss[lo..i]) + WordCount(ss[i]));
    assert CarryOver(chunk, overlap) == chunk[k..];
    SliceOfSlice(ss, a.lo, k, i);
    assert CarryOver(chunk, overlap) == ss[lo..i];
    SliceSnoc(ss, lo, i);
    JoinSpansSnoc(ss, a.closed, Span(a.lo, i));
  }

  /** One iteration that only appends to the open chunk `ss[a.lo..i]`. */
  lemma KeepStep(ss: seq<string>, maxWords: int, overlap: int, a: Acc, i: nat)
    requires a.lo <= i < |ss|
    requires a.count + WordCount(ss[i]) <= maxWords
    ensures Step(ss, maxWords, overlap, a, i) == Acc(a.closed, a.lo, a.count + WordCount(ss[i]))
    ensures ss[a.lo..i] + [ss[i]] == ss[a.lo..i + 1]
  {
    SliceSnoc(ss, a.lo, i);
  }

  /** The loop's variables after `i` passes: the open chunk, its word count and the chunks emitted. */
  predicate LoopState(ss: seq<string>, maxWords: int, overlap: int, i: nat, chunk: seq<string>, count: int, chunks: seq<string>)
    requires i <= |ss|
  {
    var a := Run(ss, maxWords, overlap, i);
    chunk == ss[a.lo..i] && count == a.count && chunks == JoinSpans(ss, a.closed)
  }

  /** The loop's variables at the end, on which `sentence_chunking` returns. */
  lemma FinishIteration(ss: seq<string>, maxWords: int, overlap: int, chunk: seq<string>, count: int, chunks: seq<string>)
    requires LoopState(ss, maxWords, overlap, |ss|, chunk, count, chunks)
    ensures chunk != [] ==> Chunks(ss, maxWords, overlap) == chunks + [Join(chunk, " ")]
    ensures chunk == [] ==> Chunks(ss, maxWords, overlap) == chunks
  {
    FinishStep(ss, maxWords, overlap);
  }

  /** A pass that closes the open chunk, on the loop's own variables. */
  lemma CloseIteration(ss: seq<string>, maxWords: int, overlap: int, i: nat, chunk: seq<string>, count: int, chunks: seq<string>)
    requires i < |ss| && LoopState(ss, maxWords, overlap, i, chunk, count, chunks)
    requires count + WordCount(ss[i]) > maxWords
    ensures var carried := CarryOver(chunk, overlap);
      LoopState(ss, maxWords, overlap, i + 1, carried + [ss[i]], SumWords(carried) + WordCount(ss[i]), chunks + [Join(chunk, " ")])
  {
    var a := Run(ss, maxWords, overlap, i);
    assert Run(ss, maxWords, overlap, i + 1) == Step(ss, maxWords, overlap, a, i);
    CloseStep(ss, maxWords, overlap, a, i);
  }

  /** A pass that only appends to the open chunk, on the loop's own variables. */
  lemma KeepIteration(ss: seq<string>, maxWords: int, overlap: int, i: nat, chunk: seq<string>, count: int, chunks: seq<string>)
    requires i < |ss| && LoopState(ss, maxWords, overlap, i, chunk, count, chunks)
    requires count + WordCount(ss[i]) <= maxWords
    ensures LoopState(ss, maxWords, overlap, i + 1, chunk + [ss[i]], count + WordCount(ss[i]), chunks)
  {
    var a := Run(ss, maxWords, overlap, i);
    assert Run(ss, maxWords, overlap, i + 1) == Step(ss, maxWords, overlap, a, i);
    KeepStep(ss, maxWords, overlap, a, i);
  }

  /** The chunk left open at the end, emitted when non-empty. */
  lemma FinishStep(ss: seq<string>, maxWords: int, overlap: int)
    ensures var a := Run(ss, maxWords, overlap, |ss|);
      && (a.lo < |ss| ==> Chunks(ss, maxWords, overlap) == JoinSpans(ss, a.closed) + [Join(ss[a.lo..|ss|], " ")])
      && (a.lo == |ss| ==> Chunks(ss, maxWords, overlap) == JoinSpans(ss, a.closed))
  {
    var a := Run(ss, maxWords, overlap, |ss|);
    if a.lo < |ss| {
      JoinSpansSnoc(ss, a.closed, Span(a.lo, |ss|));
    }
  }

  /** One pass of the loop of `sentence_chunking`, over the sentence `ss[i]`. */
  method Pass(ss: seq<string>, maxWords: int, overlap: int, i: nat, chunk: seq<string>, wordCount: int, chunks: seq<string>)
    returns (chunk': seq<string>, wordCount': int, chunks': seq<string>)
    requires i < |ss| && LoopState(ss, maxWords, overlap, i, chunk, wordCount, chunks)
    ensures LoopState(ss, maxWords, overlap, i + 1, chunk', wordCount', chunks')
  {
    chunk', wordCount', chunks' := chunk, wordCount, chunks;
    var words := WordCount(ss[i]);
    if wordCount + words > maxWords {
      CloseIteration(ss, maxWords, overlap, i, chunk, wordCount, chunks);
      chunks' := chunks + [Join(chunk, " ")];
      chunk' := CarryOver(chunk, overlap);
      wordCount' := CountWords(chunk');
    } else {
      KeepIteration(ss, maxWords, overlap, i, chunk, wordCount, chunks);
    }
    chunk' := chunk' + [ss[i]];
    wordCount' := wordCount' + words;
  }

  /**
   * `sentence_chunking(text, max_words, overlap)` on the sentences `sentences`
   * that `sent_tokenize(text)` yields.
   */
  method SentenceChunking(sentences: seq<string>, maxWords: int, overlap: int) returns (chunks: seq<string>)
    ensures chunks == Chunks(sentences, maxWords, overlap)
  {
    chunks := [];
    var chunk: seq<string> := [];
    var wordCount := 0;
    for i := 0 to |sentences|
      invariant LoopState(sentences, maxWords, overlap, i, chunk, wordCount, chunks)
    {
      chunk, wordCount, chunks := Pass(sentences, maxWords, overlap, i, chunk, wordCount, chunks);
    }
    FinishIteration(sentences, maxWords, overlap, chunk, wordCount, chunks);
    if chunk != [] {
      chunks := chunks + [Join(chunk, " ")];
    }
  }

  // ---------------------------------------------------------------------------
  // What the loop keeps true, on positions
  // ---------------------------------------------------------------------------

  lemma SumWordsSnoc(ss: seq<string>, lo: nat, i: nat)
    requires lo <= i < |ss|
    ensures SumWords(ss[lo..i + 1]) == SumWords(ss[lo..i]) + WordCount(ss[i])
  {
    assert ss[lo..i + 1][..i - lo] == ss[lo..i];
  }

  /** A step keeps `word_count` equal to the words of the open chunk. */
  lemma StepCounts(ss: seq<string>, maxWords: int, overlap: int, a: Acc, i: nat)
    requires a.lo <= i < |ss| && a.count == SumWords(ss[a.lo..i])
    ensures var a' := Step(ss, maxWords, overlap, a, i); a'.count == SumWords(ss[a'.lo..i + 1])
  {
    SumWordsSnoc(ss, Step(ss, maxWords, overlap, a, i).lo, i);
  }

  /** `word_count` is always the number of words of the sentences in the open chunk. */
  lemma {:induction false} WordCountInvariant(ss: seq<string>, maxWords: int, overlap: int, n: nat)
    requires n <= |ss|
    ensures Run(ss, maxWords, overlap, n).count == SumWords(ss[Run(ss, maxWords, overlap, n).lo..n])
  {
    if n > 0 {
      WordCountInvariant(ss, maxWords, overlap, n - 1);
      StepCounts(ss, maxWords, overlap, Run(ss, maxWords, overlap, n - 1), n - 1);
    }
  }

  /**
   * Consecutive windows `s` and `t`: the carried sentences of `t` start where
   * `chunk[-overlap:]` cuts `s`, and `t` ends strictly later than `s`.
   */
  predicate Linked(s: Span, t: Span, overlap: int) {
    s.lo <= s.hi && t.lo == NextLo(s, overlap) && s.hi < t.hi
  }

  /** Every window is linked to the next one. */
  predicate Chained(sp: seq<Span>, overlap: int) {
    forall k :: 0 <= k < |sp| - 1 ==> Linked(sp[k], sp[k + 1], overlap)
  }

  lemma ChainedSnoc(sp: seq<Span>, t: Span, overlap: int)
    requires Chained(sp, overlap) && (sp != [] ==> Linked(sp[|sp| - 1], t, overlap))
    ensures Chained(sp + [t], overlap)
  {
    var sp' := sp + [t];
    forall k | 0 <= k < |sp'| - 1 ensures Linked(sp'[k], sp'[k + 1], overlap) {
      assert sp'[k] == sp[k];
      if k + 1 < |sp| {
        assert sp'[k + 1] == sp[k + 1];
      }
    }
  }

  /**
   * The loop state after `n` sentences is chained: the windows start at 0, each
   * is linked to the next, and the open chunk starts where the last window's
   * carried sentences do.
   */
  predicate ChainState(a: Acc, n: nat, overlap: int) {
    && Chained(a.closed, overlap)
    && (a.closed == [] ==> a.lo == 0)
    && (a.closed != [] ==>
          var last := a.closed[|a.closed| - 1];
          a.closed[0].lo == 0 && last.lo <= last.hi < n && a.lo == NextLo(last, overlap))
  }

  lemma StepChained(ss: seq<string>, maxWords: int, overlap: int, a: Acc, i: nat)
    requires a.lo <= i < |ss| && ChainState(a, i, overlap)
    ensures ChainState(Step(ss, maxWords, overlap, a, i), i + 1, overlap)
  {
    var a' := Step(ss, maxWords, overlap, a, i);
    if a'.closed != a.closed {
      ChainedSnoc(a.closed, Span(a.lo, i), overlap);
      assert a'.closed[0] == (a.closed + [Span(a.lo, i)])[0];
    }
  }

  lemma {:induction false} RunChained(ss: seq<string>, maxWords: int, overlap: int, n: nat)
    requires n <= |ss|
    ensures ChainState(Run(ss, maxWords, overlap, n), n, overlap)
  {
    if n > 0 {
      RunChained(ss, maxWords, overlap, n - 1);
      StepChained(ss, maxWords, overlap, Run(ss, maxWords, overlap, n - 1), n - 1);
    }
  }

  /** Windows once emitted stay emitted: the closed spans of a prefix are a prefix of the later ones. */
  lemma {:induction false} RunClosedGrows(ss: seq<string>, maxWords: int, overlap: int, n: nat, n': nat)
    requires n <= n' <= |ss|
    ensures Run(ss, maxWords, overlap, n).closed <= Run(ss, maxWords, overlap, n').closed
    decreases n' - n
  {
    if n < n' {
      var a := Run(ss, maxWords, overlap, n' - 1);
      var c, c' := Run(ss, maxWords, overlap, n).closed, Run(ss, maxWords, overlap, n').closed;
      assert c <= a.closed by {
        RunClosedGrows(ss, maxWords, overlap, n, n' - 1);
      }
      assert a.closed <= c' by {
        assert Run(ss, maxWords, overlap, n') == Step(ss, maxWords, overlap, a, n' - 1);
        StepClosedGrows(ss, maxWords, overlap, a, n' - 1);
      }
      PrefixTrans(c, a.closed, c');
    }
  }

  lemma PrefixTrans<T>(a: seq<T>, b: seq<T>, c: seq<T>)
    requires a <= b && b <= c
    ensures a <= c
  {
    assert b[..|a|] == a && c[..|b|] == b;
    assert c[..|b|][..|a|] == c[..|a|];
  }

  /** A step never changes the windows already emitted. */
  lemma StepClosedGrows(ss: seq<string>, maxWords: int, overlap: int, a: Acc, i: nat)
    requires a.lo <= i < |ss|
    ensures a.closed <= Step(ss, maxWords, overlap, a, i).closed
  {
  }

  /** Each window in `c`, followed by the next sentence, is over `max_words`. */
  predicate WereFull(ss: seq<string>, c: seq<Span>, maxWords: int)
    requires forall k :: 0 <= k < |c| ==> c[k].lo <= c[k].hi < |ss|
  {
    forall k :: 0 <= k < |c| ==> SumWords(ss[c[k].lo..c[k].hi]) + WordCount(ss[c[k].hi]) > maxWords
  }

  lemma StepWereFull(ss: seq<string>, maxWords: int, overlap: int, a: Acc, i: nat)
    requires a.lo <= i < |ss| && a.count == SumWords(ss[a.lo..i])
    requires forall k :: 0 <= k < |a.closed| ==> a.closed[k].lo <= a.closed[k].hi < i
    requires WereFull(ss, a.closed, maxWords)
    ensures var c := Step(ss, maxWords, overlap, a, i).closed;
      (forall k :: 0 <= k < |c| ==> c[k].lo <= c[k].hi < |ss|) && WereFull(ss, c, maxWords)
  {
    var c := Step(ss, maxWords, overlap, a, i).closed;
    if c != a.closed {
      assert forall k :: 0 <= k < |a.closed| ==> c[k] == a.closed[k];
    }
  }

  /** Every closed chunk was closed because its next sentence would have pushed it over `max_words`. */
  lemma {:induction false} RunClosedWereFull(ss: seq<string>, maxWords: int, overlap: int, n: nat)
    requires n <= |ss|
    ensures WereFull(ss, Run(ss, maxWords, overlap, n).closed, maxWords)
  {
    if n > 0 {
      RunClosedWereFull(ss, maxWords, overlap, n - 1);
      WordCountInvariant(ss, maxWords, overlap, n - 1);
      StepWereFull(ss, maxWords, overlap, Run(ss, maxWords, overlap, n - 1), n - 1);
    }
  }

  /**
   * Window `k` of `sp` is within `max_words`, or it is only the sentences carried
   * into it plus one new sentence (for the first window: at most one sentence).
   */
  predicate FitsOrSeed(ss: seq<string>, sp: seq<Span>, k: nat, maxWords: int)
    requires SpansWithin(sp, |ss|) && k < |sp|
  {
    || SumWords(ss[sp[k].lo..sp[k].hi]) <= maxWords
    || (k == 0 && sp[0].hi - sp[0].lo <= 1)
    || (k > 0 && sp[k].hi == sp[k - 1].hi + 1)
  }

  /** The open chunk is within `max_words`, or it is its seed: carried sentences plus one. */
  predicate OpenFitsOrSeed(a: Acc, n: nat, maxWords: int) {
    || a.count <= maxWords
    || (a.closed == [] && n <= a.lo + 1)
    || (a.closed != [] && n == a.closed[|a.closed| - 1].hi + 1)
  }

  /** Every window of the state, and its open chunk, fits or is a seed. */
  predicate AllFitOrSeed(ss: seq<string>, a: Acc, n: nat, maxWords: int) {
    && SpansWithin(a.closed, |ss|)
    && OpenFitsOrSeed(a, n, maxWords)
    && forall k :: 0 <= k < |a.closed| ==> FitsOrSeed(ss, a.closed, k, maxWords)
  }

  lemma StepFitsOrSeed(ss: seq<string>, maxWords: int, overlap: int, a: Acc, i: nat)
    requires a.lo <= i < |ss| && a.count == SumWords(ss[a.lo..i])
    requires forall k :: 0 <= k < |a.closed| ==> a.closed[k].lo <= a.closed[k].hi < i
    requires AllFitOrSeed(ss, a, i, maxWords)
    ensures AllFitOrSeed(ss, Step(ss, maxWords, overlap, a, i), i + 1, maxWords)
  {
    var a' := Step(ss, maxWords, overlap, a, i);
    if a'.closed != a.closed {
      var c := a'.closed;
      assert c == a.closed + [Span(a.lo, i)];
      forall k | 0 <= k < |c| ensures FitsOrSeed(ss, c, k, maxWords) {
        if k < |a.closed| {
          assert c[k] == a.closed[k];
          assert k > 0 ==> c[k - 1] == a.closed[k - 1];
          assert FitsOrSeed(ss, a.closed, k, maxWords);
        } else if k > 0 {
          assert c[k - 1] == a.closed[k - 1];
        }
      }
    }
  }

  lemma {:induction false} RunFitsOrSeed(ss: seq<string>, maxWords: int, overlap: int, n: nat)
    requires n <= |ss|
    ensures AllFitOrSeed(ss, Run(ss, maxWords, overlap, n), n, maxWords)
  {
    if n > 0 {
      RunFitsOrSeed(ss, maxWords, overlap, n - 1);
      WordCountInvariant(ss, maxWords, overlap, n - 1);
      StepFitsOrSeed(ss, maxWords, overlap, Run(ss, maxWords, overlap, n - 1), n - 1);
    }
  }

  // ---------------------------------------------------------------------------
  // The emitted windows
  // ---------------------------------------------------------------------------

  /** The windows in terms of the final loop state: every closed chunk, then the open one if non-empty. */
  lemma SpansFromRun(ss: seq<string>, maxWords: int, overlap: int)
    ensures var a, sp := Run(ss, maxWords, overlap, |ss|), Spans(ss, maxWords, overlap);
      && (ss == [] ==> sp == [])
      && (ss != [] ==> sp == a.closed + [Span(a.lo, |ss|)] && a.lo < |ss|)
  {
  }

  /** The spans of the windows: from position 0 to the end, each one chained to the next. */
  lemma SpansChained(ss: seq<string>, maxWords: int, overlap: int)
    ensures var sp := Spans(ss, maxWords, overlap);
      && Chained(sp, overlap)
      && (sp == [] <==> ss == [])
      && (sp != [] ==> sp[0].lo == 0 && sp[|sp| - 1].hi == |ss| && sp[|sp| - 1].lo < |ss|)
  {
    var a, sp := Run(ss, maxWords, overlap, |ss|), Spans(ss, maxWords, overlap);
    RunChained(ss, maxWords, overlap, |ss|);
    SpansFromRun(ss, maxWords, overlap);
    if ss != [] {
      assert forall k :: 0 <= k < |a.closed| ==> sp[k] == a.closed[k];
    }
  }

  /** The sentences of a window, read through its span. */
  lemma WindowAt(ss: seq<string>, maxWords: int, overlap: int, k: nat)
    requires k < |Spans(ss, maxWords, overlap)|
    ensures var sp := Spans(ss, maxWords, overlap);
      && Windows(ss, maxWords, overlap)[k] == ss[sp[k].lo..sp[k].hi]
      && Chunks(ss, maxWords, overlap)[k] == Join(Windows(ss, maxWords, overlap)[k], " ")
  {
  }

  // ---------------------------------------------------------------------------
  // Properties of `sentence_chunking`
  // ---------------------------------------------------------------------------

  /**
   * No sentences, no chunks. Otherwise there is at least one chunk, and the last
   * one is the accumulator left open when the loop ends, which is never empty.
   */
  lemma FinalChunkIsOpenChunk(ss: seq<string>, maxWords: int, overlap: int)
    ensures ss == [] <==> Chunks(ss, maxWords, overlap) == []
    ensures ss != [] ==>
      var ws, lo := Windows(ss, maxWords, overlap), Run(ss, maxWords, overlap, |ss|).lo;
      && ws[|ws| - 1] == ss[lo..]
      && ws[|ws| - 1] != []
      && Chunks(ss, maxWords, overlap)[|ws| - 1] == Join(ss[lo..], " ")
  {
    SpansFromRun(ss, maxWords, overlap);
  }

  /**
   * The overlap between consecutive windows: window `k + 1` is `chunk[-overlap:]`
   * of window `k` followed by the input sentences after window `k`, up to its own end.
   */
  lemma WindowsOverlap(ss: seq<string>, maxWords: int, overlap: int)
    ensures var ws, sp := Windows(ss, maxWords, overlap), Spans(ss, maxWords, overlap);
      forall k :: 0 <= k < |ws| - 1 ==>
        sp[k].hi < sp[k + 1].hi && ws[k + 1] == CarryOver(ws[k], overlap) + ss[sp[k].hi..sp[k + 1].hi]
  {
    var ws, sp := Windows(ss, maxWords, overlap), Spans(ss, maxWords, overlap);
    forall k | 0 <= k < |ws| - 1
      ensures sp[k].hi < sp[k + 1].hi && ws[k + 1] == CarryOver(ws[k], overlap) + ss[sp[k].hi..sp[k + 1].hi]
    {
      WindowOverlapAt(ss, maxWords, overlap, k);
    }
  }

  /** WindowsOverlap for one pair of consecutive windows. */
  lemma WindowOverlapAt(ss: seq<string>, maxWords: int, overlap: int, k: nat)
    requires k + 1 < |Spans(ss, maxWords, overlap)|
    ensures var ws, sp := Windows(ss, maxWords, overlap), Spans(ss, maxWords, overlap);
      sp[k].hi < sp[k + 1].hi && ws[k + 1] == CarryOver(ws[k], overlap) + ss[sp[k].hi..sp[k + 1].hi]
  {
    var ws, sp := Windows(ss, maxWords, overlap), Spans(ss, maxWords, overlap);
    var cut := SliceStart(sp[k].hi - sp[k].lo, -overlap);
    var lo' := sp[k].lo + cut;
    assert sp[k].lo <= sp[k].hi < sp[k + 1].hi && sp[k + 1].lo == lo' by {
      SpansChained(ss, maxWords, overlap);
      assert Linked(sp[k], sp[k + 1], overlap);
    }
    var hi, hi' := sp[k].hi, sp[k + 1].hi;
    assert ws[k] == ss[sp[k].lo..hi] && ws[k + 1] == ss[lo'..hi'];
    assert CarryOver(ws[k], overlap) == ss[lo'..hi] by {
      assert CarryOver(ws[k], overlap) == ws[k][cut..];
      SliceOfSlice(ss, sp[k].lo, cut, hi);
    }
    assert ss[lo'..hi'] == ss[lo'..hi] + ss[hi..hi'] by {
      SliceSplit(ss, lo', hi, hi');
    }
  }

  /** Chained spans from 0 to `n` leave no position below `n` uncovered. */
  lemma {:induction false} ChainCovers(sp: seq<Span>, overlap: int, n: nat, i: nat)
    requires Chained(sp, overlap) && sp != [] && sp[0].lo == 0 && sp[|sp| - 1].hi == n && i < n
    ensures exists k :: 0 <= k < |sp| && sp[k].lo <= i < sp[k].hi
    decreases |sp|
  {
    var last := |sp| - 1;
    if last == 0 {
      assert sp[0].lo <= i < sp[0].hi;
    } else if sp[last - 1].hi <= i {
      assert sp[last].lo <= sp[last - 1].hi;
      assert sp[last].lo <= i < sp[last].hi;
    } else {
      var init := sp[..last];
      assert forall k :: 0 <= k < |init| ==> init[k] == sp[k];
      assert Chained(init, overlap);
      ChainCovers(init, overlap, sp[last - 1].hi, i);
      var k :| 0 <= k < |init| && init[k].lo <= i < init[k].hi;
      assert sp[k].lo <= i < sp[k].hi;
    }
  }

  /** Every input sentence lands in some window, at its own position there. */
  lemma Coverage(ss: seq<string>, maxWords: int, overlap: int, i: nat)
    requires i < |ss|
    ensures exists k ::
              && 0 <= k < |Spans(ss, maxWords, overlap)|
              && Spans(ss, maxWords, overlap)[k].lo <= i < Spans(ss, maxWords, overlap)[k].hi
              && Windows(ss, maxWords, overlap)[k][i - Spans(ss, maxWords, overlap)[k].lo] == ss[i]
  {
    var sp := Spans(ss, maxWords, overlap);
    SpansChained(ss, maxWords, overlap);
    ChainCovers(sp, overlap, |ss|, i);
    var k :| 0 <= k < |sp| && sp[k].lo <= i < sp[k].hi;
    assert Windows(ss, maxWords, overlap)[k][i - sp[k].lo] == ss[i];
  }

  /** In chained spans the ends climb by at least one per window. */
  lemma {:induction false} ChainEndsClimb(sp: seq<Span>, overlap: int, k: nat)
    requires Chained(sp, overlap) && k < |sp|
    ensures sp[k].hi >= sp[0].hi + k
  {
    if k > 0 {
      ChainEndsClimb(sp, overlap, k - 1);
    }
  }

  /**
   * At most one chunk per sentence plus the last one; the bound is reached only
   * when the first window holds no sentences.
   */
  lemma ChunkCountBound(ss: seq<string>, maxWords: int, overlap: int)
    ensures |Chunks(ss, maxWords, overlap)| <= |ss| + 1
    ensures |Chunks(ss, maxWords, overlap)| == |ss| + 1 ==> Windows(ss, maxWords, overlap)[0] == []
  {
    var sp := Spans(ss, maxWords, overlap);
    SpansChained(ss, maxWords, overlap);
    if sp != [] {
      ChainEndsClimb(sp, overlap, |sp| - 1);
    }
  }

  /**
   * A window of no sentences is emitted exactly when the first sentence alone has
   * more than `max_words` words; it is then the first window, and that sentence
   * opens the next one.
   */
  lemma EmptyWindowIff(ss: seq<string>, maxWords: int, overlap: int)
    ensures var ws := Windows(ss, maxWords, overlap);
      (exists k :: 0 <= k < |ws| && ws[k] == []) <==> (ss != [] && WordCount(ss[0]) > maxWords)
    ensures ss != [] && WordCount(ss[0]) > maxWords ==>
      var ws := Windows(ss, maxWords, overlap);
      |ws| >= 2 && ws[0] == [] && ws[1] != [] && ws[1][0] == ss[0]
  {
    var ws := Windows(ss, maxWords, overlap);
    if k :| 0 <= k < |ws| && ws[k] == [] {
      EmptyWindowIsFirst(ss, maxWords, overlap, k);
    }
    if ss != [] && WordCount(ss[0]) > maxWords {
      OversizeFirstSentence(ss, maxWords, overlap);
    }
  }

  /** Only the first window can hold no sentences, and only when the first sentence is over `max_words`. */
  lemma EmptyWindowIsFirst(ss: seq<string>, maxWords: int, overlap: int, k: nat)
    requires k < |Windows(ss, maxWords, overlap)| && Windows(ss, maxWords, overlap)[k] == []
    ensures k == 0 && ss != [] && WordCount(ss[0]) > maxWords
  {
    var ws, sp := Windows(ss, maxWords, overlap), Spans(ss, maxWords, overlap);
    SpansChained(ss, maxWords, overlap);
    forall j | 0 < j < |sp| ensures sp[j].lo < sp[j].hi {
      assert Linked(sp[j - 1], sp[j], overlap);
    }
    assert sp[k].lo == sp[k].hi;
    ClosedWindowFullAt(ss, maxWords, overlap, 0);
    assert ws[0] == [];
  }

  /** A first sentence over `max_words` closes a first window of no sentences and opens the second. */
  lemma OversizeFirstSentence(ss: seq<string>, maxWords: int, overlap: int)
    requires ss != [] && WordCount(ss[0]) > maxWords
    ensures var ws := Windows(ss, maxWords, overlap);
      |ws| >= 2 && ws[0] == [] && ws[1] != [] && ws[1][0] == ss[0]
  {
    var ws, sp := Windows(ss, maxWords, overlap), Spans(ss, maxWords, overlap);
    assert |sp| >= 2 && sp[0] == Span(0, 0) by {
      var a := Run(ss, maxWords, overlap, |ss|);
      SpansFromRun(ss, maxWords, overlap);
      assert Run(ss, maxWords, overlap, 1).closed == [Span(0, 0)];
      RunClosedGrows(ss, maxWords, overlap, 1, |ss|);
      assert sp[0] == a.closed[0];
    }
    assert sp[1].lo == 0 && 0 < sp[1].hi by {
      SpansChained(ss, maxWords, overlap);
      assert Linked(sp[0], sp[1], overlap);
    }
    assert ws[0] == ss[0..0] && ws[1] == ss[0..sp[1].hi];
  }

  /** Every chunk but the last was closed because the next sentence would push it over `max_words`. */
  lemma ClosedWindowsFull(ss: seq<string>, maxWords: int, overlap: int)
    ensures var ws, sp := Windows(ss, maxWords, overlap), Spans(ss, maxWords, overlap);
      forall k :: 0 <= k < |ws| - 1 ==>
        sp[k].hi < |ss| && SumWords(ws[k]) + WordCount(ss[sp[k].hi]) > maxWords
  {
    var ws, sp := Windows(ss, maxWords, overlap), Spans(ss, maxWords, overlap);
    forall k | 0 <= k < |ws| - 1
      ensures sp[k].hi < |ss| && SumWords(ws[k]) + WordCount(ss[sp[k].hi]) > maxWords
    {
      ClosedWindowFullAt(ss, maxWords, overlap, k);
    }
  }

  /** ClosedWindowsFull for one window. */
  lemma ClosedWindowFullAt(ss: seq<string>, maxWords: int, overlap: int, k: nat)
    requires k + 1 < |Spans(ss, maxWords, overlap)|
    ensures var ws, sp := Windows(ss, maxWords, overlap), Spans(ss, maxWords, overlap);
      sp[k].hi < |ss| && SumWords(ws[k]) + WordCount(ss[sp[k].hi]) > maxWords
  {
    var a, sp := Run(ss, maxWords, overlap, |ss|), Spans(ss, maxWords, overlap);
    SpansFromRun(ss, maxWords, overlap);
    RunClosedWereFull(ss, maxWords, overlap, |ss|);
    assert sp[k] == a.closed[k];
  }

  /**
   * The only chunks over `max_words` are seeds: the first one holding at most one
   * sentence, or one that holds the sentences carried into it plus exactly one more.
   */
  lemma OversizeWindowIsSeed(ss: seq<string>, maxWords: int, overlap: int)
    ensures var ws, sp := Windows(ss, maxWords, overlap), Spans(ss, maxWords, overlap);
      forall k :: 0 <= k < |ws| ==>
        || SumWords(ws[k]) <= maxWords
        || (k == 0 && |ws[0]| <= 1)
        || (k > 0 && sp[k].hi == sp[k - 1].hi + 1)
  {
    var a, sp := Run(ss, maxWords, overlap, |ss|), Spans(ss, maxWords, overlap);
    SpansFromRun(ss, maxWords, overlap);
    RunFitsOrSeed(ss, maxWords, overlap, |ss|);
    WordCountInvariant(ss, maxWords, overlap, |ss|);
    var ws := Windows(ss, maxWords, overlap);
    forall k | 0 <= k < |sp|
      ensures || SumWords(ws[k]) <= maxWords
              || (k == 0 && |ws[0]| <= 1)
              || (k > 0 && sp[k].hi == sp[k - 1].hi + 1)
    {
      assert ws[k] == ss[sp[k].lo..sp[k].hi];
      if k < |a.closed| {
        assert sp[k] == a.closed[k];
        assert k > 0 ==> sp[k - 1] == a.closed[k - 1];
        assert FitsOrSeed(ss, a.closed, k, maxWords);
      } else {
        assert k > 0 ==> sp[k - 1] == a.closed[k - 1];
      }
    }
  }

  /** The text of each chunk has exactly as many words as its sentences together. */
  lemma ChunkWordCount(ss: seq<string>, maxWords: int, overlap: int)
    ensures var ws, cs := Windows(ss, maxWords, overlap), Chunks(ss, maxWords, overlap);
      forall k :: 0 <= k < |cs| ==> WordCount(cs[k]) == SumWords(ws[k])
  {
    var ws, cs := Windows(ss, maxWords, overlap), Chunks(ss, maxWords, overlap);
    forall k | 0 <= k < |cs| ensures WordCount(cs[k]) == SumWords(ws[k]) {
      JoinedWordCount(ws[k]);
    }
  }

  /** The words of two lists of sentences add up. */
  lemma {:induction false} SumWordsAppend(a: seq<string>, b: seq<string>)
    ensures SumWords(a + b) == SumWords(a) + SumWords(b)
    decreases |b|
  {
    if b == [] {
      assert a + b == a;
    } else {
      var b' := b[..|b| - 1];
      SumWordsAppend(a, b');
      assert (a + b)[..|a + b| - 1] == a + b';
    }
  }

  /** A list of sentences has at least the words of its first sentence. */
  lemma SumWordsFirst(b: seq<string>)
    requires b != []
    ensures SumWords(b) >= WordCount(b[0])
  {
    SumWordsAppend([b[0]], b[1..]);
    assert [b[0]] + b[1..] == b;
    assert [b[0]][..0] == [];
  }

  /**
   * Windows are not bounded by `max_words`: whenever `chunk[-overlap:]` carries a
   * closed chunk over whole (always for `overlap = 0`, and for the default
   * `overlap = 50` whenever it has at most 50 sentences), the next chunk extends
   * it and already holds more than `max_words` words.
   */
  lemma WholeCarryOverflows(ss: seq<string>, maxWords: int, overlap: int)
    ensures var ws := Windows(ss, maxWords, overlap);
      forall k :: 0 <= k < |ws| - 1 && CarryOver(ws[k], overlap) == ws[k] ==>
        ws[k] < ws[k + 1] && SumWords(ws[k + 1]) > maxWords
  {
    var ws := Windows(ss, maxWords, overlap);
    forall k | 0 <= k < |ws| - 1 && CarryOver(ws[k], overlap) == ws[k]
      ensures ws[k] < ws[k + 1] && SumWords(ws[k + 1]) > maxWords
    {
      WholeCarryAt(ss, maxWords, overlap, k);
    }
  }

  /** WholeCarryOverflows for one closed window. */
  lemma WholeCarryAt(ss: seq<string>, maxWords: int, overlap: int, k: nat)
    requires k + 1 < |Windows(ss, maxWords, overlap)|
    requires var ws := Windows(ss, maxWords, overlap); CarryOver(ws[k], overlap) == ws[k]
    ensures var ws := Windows(ss, maxWords, overlap);
      ws[k] < ws[k + 1] && SumWords(ws[k + 1]) > maxWords
  {
    var ws, sp := Windows(ss, maxWords, overlap), Spans(ss, maxWords, overlap);
    var next := sp[k].hi;
    assert next < sp[k + 1].hi && ws[k + 1] == ws[k] + ss[next..sp[k + 1].hi] by {
      WindowOverlapAt(ss, maxWords, overlap, k);
    }
    assert SumWords(ws[k]) + WordCount(ss[next]) > maxWords by {
      ClosedWindowFullAt(ss, maxWords, overlap, k);
    }
    ExtendedOverflows(ws[k], ss[next..sp[k + 1].hi], ss[next], maxWords);
  }

  /** A list of sentences that was full before `next` stays over the limit once extended by `next` and more. */
  lemma ExtendedOverflows(w: seq<string>, rest: seq<string>, next: string, maxWords: int)
    requires rest != [] && rest[0] == next && SumWords(w) + WordCount(next) > maxWords
    ensures w < w + rest && SumWords(w + rest) > maxWords
  {
    assert (w + rest)[..|w|] == w;
    SumWordsAppend(w, rest);
    SumWordsFirst(rest);
  }
}
