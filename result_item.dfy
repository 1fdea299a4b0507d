// The search-result card: its own `Highlight`, which builds the pattern
// `(t0|t1|...)` from `query.split(' ')` without escaping and marks a piece
// equal to the whole query or to one of its terms; and the choice between
// the summary and the 500-character body preview.
module ResultItem {
  import opened Common
  import opened Text
  import opened Highlighting

  /**
   * The terms of `query.split(' ')` are non-empty and hold no regular
   * expression metacharacter, so that the unescaped pattern reads as the
   * terms themselves, each matched literally.
   */
  predicate PlainTerms(query: string)
  {
    var terms := SplitOn(query, ' ');
    forall k :: 0 <= k < |terms| ==> terms[k] != [] && forall i :: 0 <= i < |terms[k]| ==> !IsMeta(terms[k][i])
  }

  lemma {:induction false} EscapeAllPlain(ts: seq<string>)
    requires forall k :: 0 <= k < |ts| ==> forall i :: 0 <= i < |ts[k]| ==> !IsMeta(ts[k][i])
    ensures EscapeAll(ts) == ts
  {
    if ts != [] {
      EscapePlain(ts[0]);
      EscapeAllPlain(ts[1..]);
    }
  }

  /** The alternatives of `new RegExp('(' + query.split(' ').join('|') + ')', 'gi')`: the terms. */
  function Pattern(query: string): (alts: seq<string>)
    requires PlainTerms(query)
    ensures alts == SplitOn(query, ' ')
  {
    var terms := SplitOn(query, ' ');
    EscapeAllPlain(terms);
    EscapedAlternation(terms);
    ReadAlternatives(Join(terms, "|")).value
  }

  /** A piece is highlighted when it equals the whole query or one of its terms, up to case. */
  predicate Marked(query: string, piece: string)
  {
    Lower(piece) == Lower(query) || IsTermText(SplitOn(query, ' '), piece)
  }

  /** `Highlight({ text, query })`: the text alone for an absent or empty query; nothing for an absent or empty text. */
  function HighlightRuns(text: Option<string>, query: Option<string>): seq<Run>
    requires Truthy(query) && Truthy(text) ==> PlainTerms(query.value)
  {
    if !Truthy(query) || !Truthy(text) then
      if Truthy(text) then [Run(text.value, false)] else []
    else
      var pieces := Split(Pattern(query.value), text.value);
      seq(|pieces|, k requires 0 <= k < |pieces| => Run(pieces[k], Marked(query.value, pieces[k])))
  }

  /** A stretch in which no term occurs cannot equal the whole query, which starts with its first term. */
  lemma GapNotWholeQuery(query: string, s: string, from: nat, gap: string)
    requires PlainTerms(query)
    requires GapAt(SplitOn(query, ' '), s, from, gap)
    ensures Lower(gap) != Lower(query)
  {
    var terms := SplitOn(query, ' ');
    if Lower(gap) == Lower(query) {
      var t0 := terms[0];
      JoinHead(terms, [' ']);
      assert |gap| == |query| >= |t0| > 0;
      LowerSlice(gap, 0, |t0|);
      LowerSlice(query, 0, |t0|);
      assert s[from..from + |t0|] == gap[0..|t0|];
      assert OccursAt(t0, s, from);
      FirstOccurringSpec(terms, s, from);
    }
  }

  /**
   * The runs give back the text; without a query nothing is marked; with
   * one, the runs are in turn text in which no term occurs and term
   * occurrences, and a run is marked exactly when it is an occurrence.
   */
  lemma HighlightRunsSpec(text: Option<string>, query: Option<string>)
    requires Truthy(query) && Truthy(text) ==> PlainTerms(query.value)
    ensures var r := HighlightRuns(text, query);
      && (Truthy(text) ==> Concat(RunTexts(r)) == text.value)
      && (!Truthy(text) ==> r == [])
      && (!Truthy(query) ==> forall k :: 0 <= k < |r| ==> !r[k].marked)
      && (Truthy(query) && Truthy(text) ==>
            && Alternates(SplitOn(query.value, ' '), text.value, 0, RunTexts(r))
            && forall k :: 0 <= k < |r| ==> (r[k].marked <==> k % 2 == 1))
  {
    var r := HighlightRuns(text, query);
    if Truthy(text) && !Truthy(query) {
      assert Concat(RunTexts(r)) == text.value + Concat([]);
    } else if Truthy(text) {
      var q, s := query.value, text.value;
      var terms := SplitOn(q, ' ');
      var pieces := Split(terms, s);
      assert RunTexts(r) == pieces;
      SplitConcat(terms, s);
      SplitAlternates(terms, s);
      AlternatesMarksMatches(terms, s, 0, pieces);
      AlternatesGapsNotQuery(q, s, 0, pieces);
      forall k | 0 <= k < |r| ensures r[k].marked <==> k % 2 == 1 {
        assert IsTermText(terms, pieces[k]) <==> k % 2 == 1;
      }
    }
  }

  /** No gap of an alternation equals the whole query. */
  lemma {:induction false} AlternatesGapsNotQuery(query: string, s: string, from: nat, pieces: seq<string>)
    requires PlainTerms(query)
    requires Alternates(SplitOn(query, ' '), s, from, pieces)
    ensures forall k :: 0 <= k < |pieces| && k % 2 == 0 ==> Lower(pieces[k]) != Lower(query)
    decreases |pieces|
  {
    GapNotWholeQuery(query, s, from, pieces[0]);
    if |pieces| > 1 {
      var rest := pieces[2..];
      AlternatesGapsNotQuery(query, s, from + |pieces[0]| + |pieces[1]|, rest);
      forall k | 2 <= k < |pieces| && k % 2 == 0 ensures Lower(pieces[k]) != Lower(query) {
        assert pieces[k] == rest[k - 2];
      }
    }
  }

  /**
   * What the card's body shows: the highlighted summary; the highlighted
   * start of the body and whether `'...'` follows; or nothing, because
   * `result.Body.substring` throws a `TypeError` when the row has no `Body`.
   */
  datatype BodyView = SummaryView(runs: seq<Run>) | BodyPreview(runs: seq<Run>, ellipsis: bool) | BodyMissing

  /** The body of the card: the summary when `showSummary` is set and there is one, else the first 500 characters of `Body`. */
  function ResultBody(result: Record, query: Option<string>, showSummary: bool): (v: BodyView)
    requires Truthy(query) ==> PlainTerms(query.value)
    ensures v.BodyPreview? ==> Get(result, "Body").Some? && (v.ellipsis <==> |Get(result, "Body").value| > 500)
  {
    var summary := Get(result, "summary");
    if showSummary && Truthy(summary) then SummaryView(HighlightRuns(summary, query))
    else if Get(result, "Body").None? then BodyMissing
    else
      var body := Get(result, "Body").value;
      var shown := if |body| > 500 then body[..500] else body;
      BodyPreview(HighlightRuns(Some(shown), query), |body| > 500)
  }

  /**
   * The summary is shown exactly when asked for and present; otherwise the
   * card fails exactly when the row has no `Body`, and the body preview
   * reads as the body cut at 500 characters with `'...'`.
   */
  lemma ResultBodySpec(result: Record, query: Option<string>, showSummary: bool)
    requires Truthy(query) ==> PlainTerms(query.value)
    ensures var v := ResultBody(result, query, showSummary);
      && (v.SummaryView? <==> showSummary && Truthy(Get(result, "summary")))
      && (v.BodyMissing? <==> !(showSummary && Truthy(Get(result, "summary"))) && Get(result, "Body").None?)
      && (v.SummaryView? ==> Concat(RunTexts(v.runs)) == Get(result, "summary").value)
      && (v.BodyPreview? ==>
            Concat(RunTexts(v.runs)) + (if v.ellipsis then "..." else "") == Preview(Get(result, "Body").value, 500))
  {
    var v := ResultBody(result, query, showSummary);
    if v.SummaryView? {
      HighlightRunsSpec(Get(result, "summary"), query);
    } else if v.BodyPreview? {
      var body := Get(result, "Body").value;
      var shown := if |body| > 500 then body[..500] else body;
      HighlightRunsSpec(Some(shown), query);
    }
  }

  /**
   * A row of `/api/search` carries `text`, not `Body`: unless its summary is
   * shown, the card for it cannot render.
   */
  lemma SearchRowFails(query: Option<string>)
    requires Truthy(query) ==> PlainTerms(query.value)
    ensures var row := [Field("md5", Some("d41d8cd9")), Field("text", Some("Hello")), Field("filename", Some("a.pdf")),
                        Field("date", Some("2020-01-01")), Field("summary", None)];
      ResultBody(row, query, true) == BodyMissing
  {
  }
}
