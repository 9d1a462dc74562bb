/**
 * The page layout loop of `save_summary_as_pdf`: the already wrapped lines are
 * drawn top-down at `x = 50` from `y = 800` in steps of 15, and a new page is
 * started when `y` has dropped below 50. The canvas is replaced by the list of
 * calls the loop makes on it.
 */
module PdfLayout {

  /** A call on the canvas: `showPage()` or `drawString(x, y, line)`. */
  datatype Event = NewPage | Draw(x: int, y: int, line: string)

  const X_MARGIN := 50
  const TOP := 800
  const BOTTOM := 50
  const LINE_STEP := 15
  /** Lines from `TOP` down to `BOTTOM` in steps of `LINE_STEP`: 800, 785, ..., 50. */
  const LINES_PER_PAGE := 51

  /** The height at which line `i` (from 0) is drawn: its place on its page. */
  function LineY(i: nat): int {
    TOP - LINE_STEP * (i % LINES_PER_PAGE)
  }

  /** A new page is started just before line `i`. */
  predicate BreaksBefore(i: nat) {
    i > 0 && i % LINES_PER_PAGE == 0
  }

  /**
   * The canvas calls for `lines`, built recursively one line at a time; `LayoutAt`
   * gives the place of every line in closed form.
   */
  function Layout(lines: seq<string>): (events: seq<Event>)
    ensures |lines| <= |events| <= 2 * |lines|
  {
    if lines == [] then []
    else
      var i := |lines| - 1;
      Layout(lines[..i]) + (if BreaksBefore(i) then [NewPage] else []) + [Draw(X_MARGIN, LineY(i), lines[i])]
  }

  /** How many lines are already on the current page when line `i` comes up (51 means full). */
  function Filled(i: nat): nat {
    if i == 0 then 0 else (i - 1) % LINES_PER_PAGE + 1
  }

  /** A page is full after 51 lines; otherwise the fill is the line's place on its page. */
  lemma FilledFacts(i: nat)
    ensures Filled(i) == LINES_PER_PAGE <==> BreaksBefore(i)
    ensures Filled(i) < LINES_PER_PAGE ==> Filled(i) == i % LINES_PER_PAGE
    ensures Filled(i + 1) == i % LINES_PER_PAGE + 1
  {
  }

  /** The `for line in lines` loop of `save_summary_as_pdf`. */
  method Paginate(lines: seq<string>) returns (events: seq<Event>)
    ensures events == Layout(lines)
  {
    events := [];
    var y := TOP;
    for i := 0 to |lines|
      invariant events == Layout(lines[..i])
      invariant y == TOP - LINE_STEP * Filled(i)
    {
      FilledFacts(i);
      if y < BOTTOM {
        events := events + [NewPage];
        y := TOP;
      }
      assert y == LineY(i);
      events := events + [Draw(X_MARGIN, y, lines[i])];
      y := y - LINE_STEP;
      assert lines[..i + 1][..i] == lines[..i];
    }
    assert lines[..|lines|] == lines;
  }

  /** The number of new pages started for `n` lines. */
  function PageBreaks(n: nat): nat {
    if n == 0 then 0 else (n - 1) / LINES_PER_PAGE
  }

  /** Where the `drawString` call for line `i` stands among the events. */
  function DrawIndex(i: nat): nat {
    i + i / LINES_PER_PAGE
  }

  /** Where the events of line `n` start: after the lines before it and their page breaks. */
  lemma DrawIndexFacts(n: nat)
    ensures n > 0 ==> DrawIndex(n) == n + PageBreaks(n) + (if BreaksBefore(n) then 1 else 0)
    ensures n > 0 && !BreaksBefore(n) ==> DrawIndex(n - 1) + 1 == DrawIndex(n)
    ensures n > 0 && BreaksBefore(n) ==> DrawIndex(n - 1) + 2 == DrawIndex(n)
    ensures PageBreaks(n + 1) == PageBreaks(n) + (if BreaksBefore(n) then 1 else 0)
  {
  }

  /** The layout starts with the layout of every shorter prefix. */
  lemma LayoutSnoc(lines: seq<string>)
    requires lines != []
    ensures var n := |lines| - 1;
      Layout(lines) == Layout(lines[..n]) + (if BreaksBefore(n) then [NewPage] else []) + [Draw(X_MARGIN, LineY(n), lines[n])]
  {
  }

  /** One event per line, plus one per page break. */
  lemma {:induction false} LayoutLength(lines: seq<string>)
    ensures |Layout(lines)| == |lines| + PageBreaks(|lines|)
  {
    if lines != [] {
      var n := |lines| - 1;
      LayoutLength(lines[..n]);
      DrawIndexFacts(n);
    }
  }

  /** The events of line `i`: its `drawString` call, preceded by a new page exactly when `BreaksBefore(i)`. */
  lemma {:induction false} LayoutAt(lines: seq<string>, i: nat)
    requires i < |lines|
    ensures DrawIndex(i) < |Layout(lines)|
    ensures Layout(lines)[DrawIndex(i)] == Draw(X_MARGIN, LineY(i), lines[i])
    ensures BreaksBefore(i) <==> i > 0 && Layout(lines)[DrawIndex(i) - 1] == NewPage
  {
    var n := |lines| - 1;
    if i < n {
      LayoutAt(lines[..n], i);
      LayoutKeepsPrefix(lines, i);
    } else {
      if n > 0 && !BreaksBefore(n) {
        LayoutAt(lines[..n], n - 1);
      }
      LayoutAtLast(lines);
    }
  }

  /** The events of an earlier line stay where they were when a line is added. */
  lemma LayoutKeepsPrefix(lines: seq<string>, i: nat)
    requires i < |lines| - 1
    requires var init := lines[..|lines| - 1];
      && DrawIndex(i) < |Layout(init)|
      && Layout(init)[DrawIndex(i)] == Draw(X_MARGIN, LineY(i), init[i])
      && (BreaksBefore(i) <==> i > 0 && Layout(init)[DrawIndex(i) - 1] == NewPage)
    ensures DrawIndex(i) < |Layout(lines)|
    ensures Layout(lines)[DrawIndex(i)] == Draw(X_MARGIN, LineY(i), lines[i])
    ensures BreaksBefore(i) <==> i > 0 && Layout(lines)[DrawIndex(i) - 1] == NewPage
  {
    var init := lines[..|lines| - 1];
    LayoutSnoc(lines);
    assert init[i] == lines[i];
    assert Layout(lines)[..|Layout(init)|] == Layout(init);
  }

  /** The events of the last line, given those of the line before it when no page break separates them. */
  lemma LayoutAtLast(lines: seq<string>)
    requires lines != []
    requires var n := |lines| - 1;
      n > 0 && !BreaksBefore(n) ==>
        && DrawIndex(n - 1) < |Layout(lines[..n])|
        && Layout(lines[..n])[DrawIndex(n - 1)] == Draw(X_MARGIN, LineY(n - 1), lines[..n][n - 1])
    ensures var n := |lines| - 1;
      && DrawIndex(n) < |Layout(lines)|
      && Layout(lines)[DrawIndex(n)] == Draw(X_MARGIN, LineY(n), lines[n])
      && (BreaksBefore(n) <==> n > 0 && Layout(lines)[DrawIndex(n) - 1] == NewPage)
  {
    var n := |lines| - 1;
    LayoutSnoc(lines);
    LayoutLength(lines[..n]);
    DrawIndexFacts(n);
  }

  /**
   * The layout, event by event: line `i` is drawn at `(50, LineY(i))` as event
   * `DrawIndex(i)`, a new page comes right before it exactly when `BreaksBefore(i)`,
   * and there is no other event.
   */
  lemma LayoutEvents(lines: seq<string>)
    ensures |Layout(lines)| == |lines| + PageBreaks(|lines|)
    ensures forall i :: 0 <= i < |lines| ==>
      && DrawIndex(i) < |Layout(lines)|
      && Layout(lines)[DrawIndex(i)] == Draw(X_MARGIN, LineY(i), lines[i])
      && (BreaksBefore(i) <==> i > 0 && Layout(lines)[DrawIndex(i) - 1] == NewPage)
  {
    LayoutLength(lines);
    forall i | 0 <= i < |lines|
      ensures && DrawIndex(i) < |Layout(lines)|
              && Layout(lines)[DrawIndex(i)] == Draw(X_MARGIN, LineY(i), lines[i])
              && (BreaksBefore(i) <==> i > 0 && Layout(lines)[DrawIndex(i) - 1] == NewPage)
    {
      LayoutAt(lines, i);
    }
  }

  /** Every line is drawn at the left margin and between the bottom and top margins. */
  lemma DrawsWithinMargins(lines: seq<string>)
    ensures forall e :: e in Layout(lines) && e.Draw? ==> e.x == X_MARGIN && BOTTOM <= e.y <= TOP
  {
    LayoutEvents(lines);
    forall e | e in Layout(lines) && e.Draw?
      ensures e.x == X_MARGIN && BOTTOM <= e.y <= TOP
    {
      DrawnEventIsALine(lines, e);
    }
  }

  /** Every `drawString` call draws one of the lines, at the height of its place. */
  lemma {:induction false} DrawnEventIsALine(lines: seq<string>, e: Event)
    requires e in Layout(lines) && e.Draw?
    ensures exists i :: 0 <= i < |lines| && e == Draw(X_MARGIN, LineY(i), lines[i])
  {
    var n := |lines| - 1;
    var init := lines[..n];
    if e in Layout(init) {
      DrawnEventIsALine(init, e);
      var i :| 0 <= i < |init| && e == Draw(X_MARGIN, LineY(i), init[i]);
      assert init[i] == lines[i];
    } else {
      assert e == Draw(X_MARGIN, LineY(n), lines[n]);
    }
  }
}
