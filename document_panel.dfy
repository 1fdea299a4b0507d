// The text processing of the document panel: `processTextWithLinks`, which
// cuts a text into plain parts and URL parts with the global regular
// expression `/(<https?:\/\/[^\s>]+>|https?:\/\/[^\s<>]+)/g`; the link target
// `cleanUrl`; the term highlighter `highlightText`; the `Highlight` component
// that puts them together; and the `'N/A'` branch of `formatDate`.
//
// The regular expression is not interpreted: its two alternatives are
// written out as a scanner (MatchLen) and, independently, as the shapes of
// the strings they accept (UrlShape), and the two are proved to agree.
module DocumentPanel {
  import opened Common
  import opened Text
  import opened Highlighting

  /** One element of the `parts` list: `{ type: 'text', content }` or `{ type: 'url', content }`. */
  datatype Part = TextPart(content: string) | UrlPart(content: string)

  // ---------------------------------------------------------------------
  // The two alternatives of the URL pattern, as a scanner.

  /** `https?:\/\/` at position `i`: the length of the scheme found there, 0 if none. */
  function SchemeLen(t: string, i: nat): (n: nat)
    ensures n == 0 || n == 7 || n == 8
    ensures n > 0 ==> i + n <= |t|
  {
    if i + 7 <= |t| && t[i] == 'h' && t[i + 1] == 't' && t[i + 2] == 't' && t[i + 3] == 'p' then
      if t[i + 4] == ':' && t[i + 5] == '/' && t[i + 6] == '/' then 7
      else if i + 8 <= |t| && t[i + 4] == 's' && t[i + 5] == ':' && t[i + 6] == '/' && t[i + 7] == '/' then 8
      else 0
    else 0
  }

  /** The scheme found is exactly the text there. */
  lemma SchemeLenSpec(t: string, i: nat)
    ensures SchemeLen(t, i) == 8 <==> i + 8 <= |t| && t[i..i + 8] == "https://"
    ensures SchemeLen(t, i) == 7 <==> i + 7 <= |t| && t[i..i + 7] == "http://"
  {
    if i + 8 <= |t| && t[i..i + 8] == "https://" {
      assert t[i..i + 8][4] == 's';
    }
  }

  /** A character of `[^\s>]` (inside `<...>`), or of `[^\s<>]` (a bare URL) when `bare`. */
  predicate InRun(c: char, bare: bool)
  {
    !IsJsSpace(c) && c != '>' && (bare ==> c != '<')
  }

  /** The greedy `[^\s>]+` / `[^\s<>]+` from position `i`: the length of the longest run there. */
  function RunLen(t: string, i: nat, bare: bool): (n: nat)
    requires i <= |t|
    ensures i + n <= |t|
    decreases |t| - i
  {
    if i < |t| && InRun(t[i], bare) then 1 + RunLen(t, i + 1, bare) else 0
  }

  /** The run found holds only run characters and stops at the end of the text or at a character outside it. */
  lemma {:induction false} RunLenSpec(t: string, i: nat, bare: bool)
    requires i <= |t|
    ensures forall k :: i <= k < i + RunLen(t, i, bare) ==> InRun(t[k], bare)
    ensures i + RunLen(t, i, bare) < |t| ==> !InRun(t[i + RunLen(t, i, bare)], bare)
    decreases |t| - i
  {
    if i < |t| && InRun(t[i], bare) {
      RunLenSpec(t, i + 1, bare);
    }
  }

  /** The first alternative `<https?:\/\/[^\s>]+>` anchored at `i`: the length it matches, 0 if it fails. */
  function BracketMatch(t: string, i: nat): (n: nat)
    requires i <= |t|
    ensures i + n <= |t|
  {
    if i < |t| && t[i] == '<' then
      var s := SchemeLen(t, i + 1);
      if s == 0 then 0
      else
        var r := RunLen(t, i + 1 + s, false);
        var close := i + 1 + s + r;
        if r > 0 && close < |t| && t[close] == '>' then close + 1 - i else 0
    else 0
  }

  /** The second alternative `https?:\/\/[^\s<>]+` anchored at `i`: the length it matches, 0 if it fails. */
  function BareMatch(t: string, i: nat): (n: nat)
    requires i <= |t|
    ensures i + n <= |t|
  {
    var s := SchemeLen(t, i);
    if s == 0 then 0
    else
      var r := RunLen(t, i + s, true);
      if r > 0 then s + r else 0
  }

  /** The whole pattern anchored at `i`, the first alternative tried first: the length matched, 0 if none. */
  function MatchLen(t: string, i: nat): (n: nat)
    requires i <= |t|
    ensures i + n <= |t|
  {
    var b := BracketMatch(t, i);
    if b > 0 then b else BareMatch(t, i)
  }

  /** A match of the pattern: where it starts, `match.index`, and the length of `match[0]`. */
  datatype Match = Match(index: nat, length: nat)
  {
    function End(): nat
    {
      index + length
    }
  }

  /** `urlRegex.exec(text)` with `lastIndex == from`: the leftmost match at or after `from`, None when there is none. */
  function Exec(t: string, from: nat): (r: Option<Match>)
    requires from <= |t|
    ensures r.Some? ==> from <= r.value.index && 0 < r.value.length && r.value.End() <= |t|
    decreases |t| - from, 1
  {
    if from == |t| then None else Attempt(t, from)
  }

  /** The pattern tried at `from`: the match there, or, when it fails there, `exec` from the next position. */
  function Attempt(t: string, from: nat): (r: Option<Match>)
    requires from < |t|
    ensures r.Some? ==> from <= r.value.index && 0 < r.value.length && r.value.End() <= |t|
    decreases |t| - from, 0
  {
    var n := MatchLen(t, from);
    if n > 0 then Some(Match(from, n)) else Exec(t, from + 1)
  }

  /** The match found is what the pattern matches at its position. */
  lemma {:induction false} ExecFound(t: string, from: nat)
    requires from <= |t| && Exec(t, from).Some?
    ensures MatchLen(t, Exec(t, from).value.index) == Exec(t, from).value.length
    decreases |t| - from
  {
    assert Exec(t, from) == Attempt(t, from);
    if MatchLen(t, from) == 0 {
      ExecFound(t, from + 1);
    }
  }

  /** The match found is the leftmost one: the pattern matches nowhere between `from` and it, nor anywhere when none is found. */
  lemma {:induction false} ExecLeftmost(t: string, from: nat, x: nat)
    requires from <= x < |t|
    requires Exec(t, from).Some? ==> x < Exec(t, from).value.index
    ensures MatchLen(t, x) == 0
    decreases x - from
  {
    assert Exec(t, from) == Attempt(t, from);
    if from < x {
      ExecLeftmost(t, from + 1, x);
    }
  }

  // ---------------------------------------------------------------------
  // What the two alternatives accept, stated on the matched string alone.

  /** Every character of `u` from position `lo` on may stand in the run. */
  predicate AllInRun(u: string, lo: nat, bare: bool)
  {
    forall k :: lo <= k < |u| ==> InRun(u[k], bare)
  }

  /**
   * `https?:\/\/` followed by a non-empty run. The run's characters are
   * checked from position 7 on: for `https://` that position holds the last
   * `/` of the scheme, which is a run character anyway.
   */
  predicate SchemeThenRun(u: string, bare: bool)
  {
    && |u| > 7
    && (u[..7] == "http://" || (|u| > 8 && u[..8] == "https://"))
    && AllInRun(u, 7, bare)
  }

  /** What the first alternative accepts: `<`, scheme, a run without white space or `>`, then `>`. */
  predicate BracketForm(u: string)
  {
    |u| >= 2 && u[0] == '<' && u[|u| - 1] == '>' && SchemeThenRun(u[1..|u| - 1], false)
  }

  /** What the second alternative accepts: scheme, then a run without white space, `<` or `>`. */
  predicate BareForm(u: string)
  {
    SchemeThenRun(u, true)
  }

  predicate UrlShape(u: string)
  {
    BracketForm(u) || BareForm(u)
  }

  /**
   * The text of length `n` at `i` is the match the pattern takes at `i`: it
   * has one of the two shapes, and a bare URL cannot be extended (the greedy
   * run stops at the end of the text, at white space, `<` or `>`).
   */
  ghost predicate TakenAt(t: string, i: nat, n: nat)
  {
    && i + n <= |t|
    && UrlShape(t[i..i + n])
    && (BareForm(t[i..i + n]) ==> i + n == |t| || !InRun(t[i + n], true))
  }

  /** The `n` characters at position `x` of `t` are URL-shaped. */
  predicate UrlAt(t: string, x: nat, n: nat)
  {
    x + n <= |t| && UrlShape(t[x..x + n])
  }

  /** No URL-shaped text starts at any position of `[lo, hi)`. */
  ghost predicate NoUrlIn(t: string, lo: nat, hi: nat)
  {
    forall x: nat, n: nat :: lo <= x < hi ==> !UrlAt(t, x, n)
  }

  /** What the scanner matches has the shape of its alternative, and a bare match is maximal. */
  lemma MatchLenSound(t: string, i: nat)
    requires i <= |t| && MatchLen(t, i) > 0
    ensures TakenAt(t, i, MatchLen(t, i))
  {
    if BracketMatch(t, i) > 0 {
      BracketMatchSound(t, i);
      var u := t[i..i + MatchLen(t, i)];
      assert !BareForm(u) by { assert u[..7][0] == u[0]; }
    } else {
      BareMatchSound(t, i);
    }
  }

  lemma BracketMatchSound(t: string, i: nat)
    requires i <= |t| && BracketMatch(t, i) > 0
    ensures BracketForm(t[i..i + BracketMatch(t, i)])
  {
    var n := BracketMatch(t, i);
    var s := SchemeLen(t, i + 1);
    RunLenSpec(t, i + 1 + s, false);
    SchemeRunAt(t, i + 1, i + n - 1, false);
    SliceOfSlice(t, i, i + n, 1, n - 1);
  }

  lemma BareMatchSound(t: string, i: nat)
    requires i <= |t| && BracketMatch(t, i) == 0 && BareMatch(t, i) > 0
    ensures var n := BareMatch(t, i); BareForm(t[i..i + n]) && (i + n == |t| || !InRun(t[i + n], true))
  {
    var s := SchemeLen(t, i);
    RunLenSpec(t, i + s, true);
    SchemeRunAt(t, i, i + BareMatch(t, i), true);
  }

  /** A scheme at `j` followed by run characters up to `end` has the shape of a scheme and a run. */
  lemma SchemeRunAt(t: string, j: nat, end: nat, bare: bool)
    requires SchemeLen(t, j) > 0 && j + SchemeLen(t, j) < end <= |t|
    requires forall k :: j + SchemeLen(t, j) <= k < end ==> InRun(t[k], bare)
    ensures SchemeThenRun(t[j..end], bare)
  {
    var s := SchemeLen(t, j);
    var u := t[j..end];
    SchemeLenSpec(t, j);
    SliceOfSlice(t, j, end, 0, s);
    forall k | 7 <= k < |u| ensures InRun(u[k], bare) {
      if k < s {
        assert k == 7 && u[k] == "https://"[7];
      } else {
        assert u[k] == t[j + k];
      }
    }
    if s == 8 {
      assert u[..8] == "https://";
    } else {
      assert u[..7] == "http://";
    }
  }

  /** A slice of a slice is a slice. */
  lemma SliceOfSlice<T>(s: seq<T>, a: nat, b: nat, c: nat, d: nat)
    requires a <= b <= |s| && c <= d <= b - a
    ensures s[a..b][c..d] == s[a + c..a + d]
  {
    var x := s[a..b];
    assert forall k :: 0 <= k < d - c ==> x[c..d][k] == x[c + k] == s[a + c + k];
  }

  /** A scheme at the start of `u` is found by SchemeLen, and the run after it spans the rest of `u`. */
  lemma SchemeOfShape(t: string, i: nat, u: string, bare: bool)
    requires i + |u| <= |t| && t[i..i + |u|] == u && SchemeThenRun(u, bare)
    ensures SchemeLen(t, i) > 0 && SchemeLen(t, i) < |u|
    ensures forall k :: i + SchemeLen(t, i) <= k < i + |u| ==> InRun(t[k], bare)
  {
    if u[..7] == "http://" {
      assert t[i..i + 7] == u[..7];
      SchemeLenSpec(t, i);
    } else {
      assert t[i..i + 8] == u[..8];
      SchemeLenSpec(t, i);
    }
    forall k | i + SchemeLen(t, i) <= k < i + |u| ensures InRun(t[k], bare) {
      assert t[k] == u[k - i];
    }
  }

  /** Wherever URL-shaped text starts, the scanner matches. */
  lemma MatchLenComplete(t: string, i: nat, n: nat)
    requires i + n <= |t| && UrlShape(t[i..i + n])
    ensures MatchLen(t, i) > 0
  {
    var u := t[i..i + n];
    if BracketForm(u) {
      BracketFormMatches(t, i, n);
    } else {
      SchemeOfShape(t, i, u, true);
      var s := SchemeLen(t, i);
      assert t[i + s] == u[s];
      RunLenSpec(t, i + s, true);
      assert RunLen(t, i + s, true) > 0;
      if BracketMatch(t, i) == 0 {
        assert BareMatch(t, i) > 0;
      }
    }
  }

  /** Where the scanner finds no match before `hi`, no URL-shaped text starts before `hi`. */
  lemma NoMatchNoUrl(t: string, lo: nat, hi: nat)
    requires lo <= hi <= |t|
    requires Exec(t, lo).Some? ==> hi <= Exec(t, lo).value.index
    ensures NoUrlIn(t, lo, hi)
  {
    forall x: nat, n: nat | lo <= x < hi
      ensures !UrlAt(t, x, n)
    {
      ExecLeftmost(t, lo, x);
      if UrlAt(t, x, n) {
        MatchLenComplete(t, x, n);
      }
    }
  }

  /**
   * Conversely, a text the pattern may take at `i` is exactly what the
   * scanner matches there; so at any position the pattern takes at most one
   * text.
   */
  lemma TakenIsMatch(t: string, i: nat, n: nat)
    requires TakenAt(t, i, n)
    ensures MatchLen(t, i) == n
  {
    if BracketForm(t[i..i + n]) {
      BracketFormMatches(t, i, n);
    } else {
      BareFormMatches(t, i, n);
    }
  }

  lemma BracketFormMatches(t: string, i: nat, n: nat)
    requires i + n <= |t| && BracketForm(t[i..i + n])
    ensures BracketMatch(t, i) == n
  {
    var u := t[i..i + n];
    var inner := u[1..|u| - 1];
    assert |inner| == n - 2;
    assert forall k :: 0 <= k < |inner| ==> inner[k] == t[i + 1 + k];
    assert t[i + 1..i + 1 + |inner|] == inner;
    SchemeOfShape(t, i + 1, inner, false);
    var s := SchemeLen(t, i + 1);
    assert t[i + n - 1] == u[|u| - 1];
    RunLenSpec(t, i + 1 + s, false);
    assert RunLen(t, i + 1 + s, false) == n - 2 - s;
  }

  lemma BareFormMatches(t: string, i: nat, n: nat)
    requires i + n <= |t| && BareForm(t[i..i + n]) && (i + n == |t| || !InRun(t[i + n], true))
    ensures MatchLen(t, i) == n
  {
    var u := t[i..i + n];
    SchemeOfShape(t, i, u, true);
    var s := SchemeLen(t, i);
    RunLenSpec(t, i + s, true);
    assert RunLen(t, i + s, true) == n - s;
    assert BracketMatch(t, i) == 0 by {
      assert t[i] == u[..7][0] == 'h';
    }
  }

  // ---------------------------------------------------------------------
  // processTextWithLinks

  /** The text part for `t[from..i]`, or none when that text is empty. */
  function TextBefore(t: string, from: nat, i: nat): seq<Part>
    requires from <= i <= |t|
  {
    if from < i then [TextPart(t[from..i])] else []
  }

  /** The parts made from `t[from..]`, as the loop of `processTextWithLinks` makes them from `lastIndex == from`. */
  function LinkifyFrom(t: string, from: nat): seq<Part>
    requires from <= |t|
    decreases |t| - from
  {
    match Exec(t, from)
    case None => TextBefore(t, from, |t|)
    case Some(m) => TextBefore(t, from, m.index) + [UrlPart(t[m.index..m.End()])] + LinkifyFrom(t, m.End())
  }

  /** What `processTextWithLinks(text)` returns; no parts at all exactly for an absent or empty text. */
  function Linkify(text: Option<string>): (parts: seq<Part>)
    ensures parts == [] <==> !Truthy(text)
  {
    if Truthy(text) then LinkifyFrom(text.value, 0) else []
  }

  /** `processTextWithLinks`: the `exec` loop, pushing a text part for each gap and a URL part for each match. */
  method ProcessTextWithLinks(text: Option<string>) returns (parts: seq<Part>)
    ensures parts == Linkify(text)
  {
    if !Truthy(text) {
      return [];
    }
    var t := text.value;
    parts := [];
    var lastIndex := 0;
    var m := Exec(t, lastIndex);
    ghost var result := Linkify(text);
    ScannedIsLinkify(t, 0, []);
    assert [] + LinkifyFrom(t, 0) == result;
    while m.Some?
      invariant lastIndex <= |t|
      invariant m == Exec(t, lastIndex)
      invariant Scanned(t, lastIndex, parts) == result
      decreases |t| - lastIndex
    {
      var index, len := m.value.index, m.value.length;
      ScannedMatch(t, lastIndex, parts, index, len);
      if index > lastIndex {
        parts := parts + [TextPart(t[lastIndex..index])];
      }
      parts := parts + [UrlPart(t[index..index + len])];
      lastIndex := index + len;
      m := Exec(t, lastIndex);
    }
    ScannedNoMatch(t, lastIndex, parts);
    if lastIndex < |t| {
      parts := parts + [TextPart(t[lastIndex..])];
    }
  }

  /** One turn of the loop: push the text before the match, if any, then the match. */
  lemma ScannedMatch(t: string, from: nat, done: seq<Part>, index: nat, len: nat)
    requires from <= |t| && Exec(t, from) == Some(Match(index, len))
    ensures index + len <= |t|
    ensures Scanned(t, from, done) ==
            Scanned(t, index + len, (if index > from then done + [TextPart(t[from..index])] else done) + [UrlPart(t[index..index + len])])
  {
    assert Scanned(t, from, done) == Scanned(t, index + len, done + TextBefore(t, from, index) + [UrlPart(t[index..index + len])]);
    assert (if index > from then done + [TextPart(t[from..index])] else done) == done + TextBefore(t, from, index);
  }

  /** After the loop: push the rest of the text, if any. */
  lemma ScannedNoMatch(t: string, from: nat, done: seq<Part>)
    requires from <= |t| && Exec(t, from).None?
    ensures Scanned(t, from, done) == if from < |t| then done + [TextPart(t[from..])] else done
  {
    assert t[from..] == t[from..|t|];
  }

  /** What the loop returns once it has scanned up to `from` and pushed `done`. */
  function Scanned(t: string, from: nat, done: seq<Part>): seq<Part>
    requires from <= |t|
    decreases |t| - from
  {
    match Exec(t, from)
    case None => done + TextBefore(t, from, |t|)
    case Some(m) => Scanned(t, m.End(), done + TextBefore(t, from, m.index) + [UrlPart(t[m.index..m.End()])])
  }

  /** Scanning the rest of the text appends the parts LinkifyFrom makes of it. */
  lemma {:induction false} ScannedIsLinkify(t: string, from: nat, done: seq<Part>)
    requires from <= |t|
    ensures Scanned(t, from, done) == done + LinkifyFrom(t, from)
    decreases |t| - from
  {
    match Exec(t, from)
    case None =>
    case Some(m) =>
      var gap, url := TextBefore(t, from, m.index), [UrlPart(t[m.index..m.End()])];
      ScannedIsLinkify(t, m.End(), done + gap + url);
      AppendAssoc4(done, gap, url, LinkifyFrom(t, m.End()));
  }

  // ---------------------------------------------------------------------
  // What the parts are, stated without the scanner.

  function Contents(parts: seq<Part>): (r: seq<string>)
    ensures |r| == |parts|
  {
    seq(|parts|, k requires 0 <= k < |parts| => parts[k].content)
  }

  /**
   * `parts` cut `t[from..]` as the URL pattern does: in order, each part is
   * the text at its position; a URL part is what the pattern takes there; a
   * text part is non-empty, no URL-shaped text starts inside it, and it is
   * followed by a URL part or by nothing.
   */
  ghost predicate Segments(t: string, from: nat, parts: seq<Part>)
    decreases |parts|
  {
    if parts == [] then from == |t|
    else
      var c := parts[0].content;
      && from + |c| <= |t|
      && t[from..from + |c|] == c
      && (parts[0].TextPart? ==> TextSegment(t, from, c, parts[1..]))
      && (parts[0].UrlPart? ==> TakenAt(t, from, |c|))
      && Segments(t, from + |c|, parts[1..])
  }

  ghost predicate TextSegment(t: string, from: nat, c: string, rest: seq<Part>)
  {
    c != [] && NoUrlIn(t, from, from + |c|) && (rest != [] ==> rest[0].UrlPart?)
  }

  /** The scanner's parts are such a cut. */
  lemma {:induction false} LinkifyFromSegments(t: string, from: nat)
    requires from <= |t|
    ensures Segments(t, from, LinkifyFrom(t, from))
    decreases |t| - from
  {
    match Exec(t, from)
    case None =>
      NoMatchNoUrl(t, from, |t|);
      SegmentsLastGap(t, from);
    case Some(m) =>
      ExecTaken(t, from);
      NoMatchNoUrl(t, from, m.index);
      LinkifyFromSegments(t, m.End());
      SegmentsGapUrl(t, from, m, LinkifyFrom(t, m.End()));
  }

  /** The text after the last match is a cut of the rest of `t`. */
  lemma SegmentsLastGap(t: string, from: nat)
    requires from <= |t| && NoUrlIn(t, from, |t|)
    ensures Segments(t, from, TextBefore(t, from, |t|))
  {
    if from < |t| {
      SegmentsText(t, from, |t|, []);
      assert [TextPart(t[from..|t|])] + [] == TextBefore(t, from, |t|);
    }
  }

  /** The gap before a match, the match, then a cut of the rest: a cut. */
  lemma SegmentsGapUrl(t: string, from: nat, m: Match, rest: seq<Part>)
    requires from <= m.index && m.End() <= |t|
    requires TakenAt(t, m.index, m.length) && NoUrlIn(t, from, m.index) && Segments(t, m.End(), rest)
    ensures Segments(t, from, TextBefore(t, from, m.index) + [UrlPart(t[m.index..m.End()])] + rest)
  {
    var i, e := m.index, m.End();
    var url := [UrlPart(t[i..e])];
    SegmentsUrl(t, i, e, rest);
    GapThenTail(t, from, i, url + rest);
    AppendAssoc(TextBefore(t, from, i), url, rest);
  }

  /** The gap before position `i`, if any, then a cut starting with a URL part: a cut. */
  lemma GapThenTail(t: string, from: nat, i: nat, tail: seq<Part>)
    requires from <= i <= |t| && NoUrlIn(t, from, i)
    requires tail != [] && tail[0].UrlPart? && Segments(t, i, tail)
    ensures Segments(t, from, TextBefore(t, from, i) + tail)
  {
    if from < i {
      SegmentsText(t, from, i, tail);
    } else {
      assert TextBefore(t, from, i) + tail == tail;
    }
  }

  /** The match `exec` finds is a text the pattern takes there. */
  lemma ExecTaken(t: string, from: nat)
    requires from <= |t| && Exec(t, from).Some?
    ensures TakenAt(t, Exec(t, from).value.index, Exec(t, from).value.length)
  {
    ExecFound(t, from);
    MatchLenSound(t, Exec(t, from).value.index);
  }

  /** The text the pattern takes at `i`, then a cut from where it ends: a cut. */
  lemma SegmentsUrl(t: string, i: nat, e: nat, rest: seq<Part>)
    requires i <= e <= |t| && TakenAt(t, i, e - i) && Segments(t, e, rest)
    ensures Segments(t, i, [UrlPart(t[i..e])] + rest)
  {
    SegmentsCons(t, i, e, UrlPart(t[i..e]), rest);
  }

  /** A non-empty gap without URL-shaped text, then a cut that is empty or starts with a URL part: a cut. */
  lemma SegmentsText(t: string, from: nat, e: nat, rest: seq<Part>)
    requires from < e <= |t| && NoUrlIn(t, from, e)
    requires (rest != [] ==> rest[0].UrlPart?) && Segments(t, e, rest)
    ensures Segments(t, from, [TextPart(t[from..e])] + rest)
  {
    SegmentsCons(t, from, e, TextPart(t[from..e]), rest);
  }

  /** A cut that starts with the part covering `t[from..e]`, in terms of that part and the cut from `e`. */
  lemma SegmentsCons(t: string, from: nat, e: nat, p: Part, rest: seq<Part>)
    requires from <= e <= |t| && p.content == t[from..e]
    ensures Segments(t, from, [p] + rest) <==>
      && (p.TextPart? ==> TextSegment(t, from, p.content, rest))
      && (p.UrlPart? ==> TakenAt(t, from, e - from))
      && Segments(t, e, rest)
  {
    assert |p.content| == e - from;
    assert ([p] + rest)[0] == p && ([p] + rest)[1..] == rest;
  }

  /** There is only one such cut: the scanner's parts are the only parts that fit the description. */
  lemma {:induction false} SegmentsUnique(t: string, from: nat, a: seq<Part>, b: seq<Part>)
    ensures Segments(t, from, a) && Segments(t, from, b) ==> a == b
    decreases |a|
  {
    if Segments(t, from, a) && Segments(t, from, b) {
      SegmentsEnd(t, from, a);
      SegmentsEnd(t, from, b);
      if a != [] {
        HeadsAgree(t, from, a, b);
        SegmentsUnique(t, from + |a[0].content|, a[1..], b[1..]);
        HeadTail(a, b);
      }
    }
  }

  /** A cut is empty exactly at the end of `t`: every part covers some text. */
  lemma SegmentsEnd(t: string, from: nat, a: seq<Part>)
    requires Segments(t, from, a)
    ensures a == [] <==> from == |t|
  {
    if a != [] && a[0].UrlPart? {
      assert UrlShape(t[from..from + |a[0].content|]);
    }
  }

  lemma HeadTail<T>(a: seq<T>, b: seq<T>)
    requires a != [] && b != [] && a[0] == b[0] && a[1..] == b[1..]
    ensures a == b
  {
    assert a == [a[0]] + a[1..];
  }

  /** Two cuts from the same position start with the same part. */
  lemma HeadsAgree(t: string, from: nat, a: seq<Part>, b: seq<Part>)
    requires a != [] && b != [] && Segments(t, from, a) && Segments(t, from, b)
    ensures a[0] == b[0]
  {
    var ca, cb := a[0].content, b[0].content;
    HeadKinds(t, from, a, b);
    if a[0].UrlPart? {
      TakenIsMatch(t, from, |ca|);
      TakenIsMatch(t, from, |cb|);
    } else {
      TextLengthsAgree(t, from, a, b);
    }
    assert ca == t[from..from + |ca|] && cb == t[from..from + |cb|];
  }

  /** Two cuts from the same position start with parts of the same kind. */
  lemma HeadKinds(t: string, from: nat, a: seq<Part>, b: seq<Part>)
    requires a != [] && b != [] && Segments(t, from, a) && Segments(t, from, b)
    ensures a[0].UrlPart? <==> b[0].UrlPart?
  {
    if a[0].UrlPart? {
      UrlHeadNotText(t, from, a, b);
    }
    if b[0].UrlPart? {
      UrlHeadNotText(t, from, b, a);
    }
  }

  /** A URL the pattern takes at `from` cannot lie at the start of a text part. */
  lemma UrlHeadNotText(t: string, from: nat, a: seq<Part>, b: seq<Part>)
    requires a != [] && b != [] && Segments(t, from, a) && Segments(t, from, b)
    requires a[0].UrlPart?
    ensures b[0].UrlPart?
  {
    assert UrlAt(t, from, |a[0].content|);
  }

  /** Two text parts cut at the same position end at the same place: each ends where a URL starts or at the end. */
  lemma TextLengthsAgree(t: string, from: nat, a: seq<Part>, b: seq<Part>)
    requires a != [] && b != [] && a[0].TextPart? && b[0].TextPart?
    requires Segments(t, from, a) && Segments(t, from, b)
    ensures |a[0].content| == |b[0].content|
  {
    var la, lb := |a[0].content|, |b[0].content|;
    if la < lb {
      TextEndsAtUrl(t, from, a);
    } else if lb < la {
      TextEndsAtUrl(t, from, b);
    }
  }

  /** Where a text part ends before the end of `t`, the URL part after it starts. */
  lemma TextEndsAtUrl(t: string, from: nat, a: seq<Part>)
    requires a != [] && a[0].TextPart? && Segments(t, from, a)
    ensures from + |a[0].content| < |t| ==> |a| > 1 && UrlAt(t, from + |a[0].content|, |a[1].content|)
  {
    var e := from + |a[0].content|;
    if e < |t| {
      assert a[1..] != [];
      assert a[1..][0] == a[1];
    }
  }

  // ---------------------------------------------------------------------
  // What follows for the parts of any text.

  /** Each part is as the design describes it: a text part is non-empty and followed by a URL part or nothing; a URL part has one of the two shapes. */
  predicate WellFormed(parts: seq<Part>)
  {
    forall k :: 0 <= k < |parts| ==> PartFits(parts, k)
  }

  predicate PartFits(parts: seq<Part>, k: nat)
    requires k < |parts|
  {
    && (parts[k].TextPart? ==> parts[k].content != [] && (k + 1 < |parts| ==> parts[k + 1].UrlPart?))
    && (parts[k].UrlPart? ==> UrlShape(parts[k].content))
  }

  /** A cut of `t[from..]` concatenates back to it. */
  lemma {:induction false} SegmentsConcat(t: string, from: nat, parts: seq<Part>)
    requires Segments(t, from, parts)
    ensures from <= |t| && Concat(Contents(parts)) == t[from..]
    decreases |parts|
  {
    if parts != [] {
      var c := parts[0].content;
      SegmentsConcat(t, from + |c|, parts[1..]);
      assert Contents(parts)[1..] == Contents(parts[1..]);
      assert t[from..] == t[from..from + |c|] + t[from + |c|..];
    }
  }

  /** A cut is well formed. */
  lemma {:induction false} SegmentsWellFormed(t: string, from: nat, parts: seq<Part>)
    requires Segments(t, from, parts)
    ensures WellFormed(parts)
    decreases |parts|
  {
    if parts != [] {
      var c := parts[0].content;
      var rest := parts[1..];
      SegmentsWellFormed(t, from + |c|, rest);
      forall k | 0 <= k < |parts| ensures PartFits(parts, k) {
        if k > 0 {
          assert PartFits(rest, k - 1);
          assert parts[k] == rest[k - 1];
          assert k + 1 < |parts| ==> parts[k + 1] == rest[k];
        } else if rest != [] {
          assert parts[1] == rest[0];
        }
      }
    }
  }

  /**
   * `processTextWithLinks` reproduces its input: the contents of the parts,
   * in order, are the text; no text part is empty; two text parts are never
   * adjacent; and every URL part is `<http(s)://X>` or `http(s)://Y`.
   */
  lemma LinkifyParts(text: Option<string>)
    ensures Truthy(text) ==> Concat(Contents(Linkify(text))) == text.value
    ensures WellFormed(Linkify(text))
  {
    if Truthy(text) {
      LinkifyFromSegments(text.value, 0);
      SegmentsConcat(text.value, 0, Linkify(text));
      SegmentsWellFormed(text.value, 0, Linkify(text));
    }
  }

  /**
   * The parts of a text are characterized without the scanner: they are
   * the one cut of the text into non-empty plain stretches in which no URL
   * shape starts, and URLs as the pattern takes them (a bracketed URL, else
   * the longest bare URL).
   */
  lemma LinkifyCharacterized(t: string, parts: seq<Part>)
    ensures Segments(t, 0, parts) <==> parts == Linkify(Some(t))
  {
    LinkifyFromSegments(t, 0);
    if Segments(t, 0, parts) {
      SegmentsUnique(t, 0, parts, LinkifyFrom(t, 0));
    }
  }

  /** The pattern can only match where `<` or `h` stands. */
  lemma MatchNeedsStart(t: string, i: nat)
    requires i < |t| && t[i] != '<' && t[i] != 'h'
    ensures MatchLen(t, i) == 0
  {
  }

  const Example := "See <https://x.com/a b> now"

  lemma ExampleRunInside()
    ensures RunLen(Example, 13, false) == 7
  {
    var t := Example;
    assert RunLen(t, 20, false) == 0;
    assert RunLen(t, 18, false) == 2;
    assert RunLen(t, 16, false) == 4;
    assert RunLen(t, 14, false) == 6;
  }

  lemma ExampleRunBare()
    ensures RunLen(Example, 13, true) == 7
  {
    var t := Example;
    assert RunLen(t, 20, true) == 0;
    assert RunLen(t, 18, true) == 2;
    assert RunLen(t, 16, true) == 4;
    assert RunLen(t, 14, true) == 6;
  }

  /** At the `<` the first alternative fails at the space, and the second cannot start. */
  lemma ExampleNoBracket()
    ensures MatchLen(Example, 4) == 0
  {
    ExampleRunInside();
    assert SchemeLen(Example, 5) == 8;
    assert Example[20] == ' ';
  }

  lemma ExampleBare()
    ensures MatchLen(Example, 5) == 15
  {
    ExampleRunBare();
    assert SchemeLen(Example, 5) == 8;
  }

  lemma ExampleFirstMatch()
    ensures Exec(Example, 0) == Some(Match(5, 15))
  {
    var t := Example;
    MatchNeedsStart(t, 3);
    MatchNeedsStart(t, 2);
    MatchNeedsStart(t, 1);
    MatchNeedsStart(t, 0);
    ExampleBare();
    ExampleNoBracket();
    assert Exec(t, 5) == Some(Match(5, 15));
  }

  lemma ExampleNoMoreMatches()
    ensures Exec(Example, 20) == None
  {
    var t := Example;
    assert Exec(t, 27) == None;
    MatchNeedsStart(t, 26);
    MatchNeedsStart(t, 25);
    MatchNeedsStart(t, 24);
    MatchNeedsStart(t, 23);
    MatchNeedsStart(t, 22);
    MatchNeedsStart(t, 21);
    MatchNeedsStart(t, 20);
  }

  lemma ExampleSlices()
    ensures Example[0..5] == "See <" && Example[5..20] == "https://x.com/a" && Example[20..27] == " b> now"
  {
    assert Example == "See <" + "https://x.com/a" + " b> now";
  }

  /** One step of LinkifyFrom, for a match found. */
  lemma LinkifyFromMatch(t: string, from: nat, m: Match)
    requires from <= |t| && Exec(t, from) == Some(m)
    ensures LinkifyFrom(t, from) == TextBefore(t, from, m.index) + [UrlPart(t[m.index..m.End()])] + LinkifyFrom(t, m.End())
  {
  }

  /**
   * A bracketed URL with white space inside is not taken as bracketed: the
   * first alternative fails at the space, and the bare URL after the `<` is
   * taken instead, up to the space.
   */
  lemma LinkifyExample()
    ensures Linkify(Some(Example)) == [TextPart("See <"), UrlPart("https://x.com/a"), TextPart(" b> now")]
  {
    ExampleFirstMatch();
    LinkifyFromMatch(Example, 0, Match(5, 15));
    ExampleNoMoreMatches();
    assert LinkifyFrom(Example, 20) == [TextPart(Example[20..27])];
    ExampleSlices();
  }

  // ---------------------------------------------------------------------
  // LinkifiedUrl: the link target.

  /** `url.replace(/^<|>$/g, '')`: a `<` at the start and a `>` at the end are removed, each when present. */
  function StripAngles(url: string): (r: string)
    ensures url == Opening(url) + r + Closing(url)
  {
    var a := if url != [] && url[0] == '<' then url[1..] else url;
    if a != [] && a[|a| - 1] == '>' then a[..|a| - 1] else a
  }

  /** What `^<` removes: one `<`, or nothing. */
  function Opening(url: string): string
  {
    if url != [] && url[0] == '<' then "<" else ""
  }

  /** What `>$` removes: one `>` after the opening, or nothing. */
  function Closing(url: string): string
  {
    if |url| > |Opening(url)| && url[|url| - 1] == '>' then ">" else ""
  }

  /** `cleanUrl`, the `href` and `title` of the link. */
  function CleanUrl(url: string): (clean: string)
    ensures clean != [] ==> !IsJsSpace(clean[0]) && !IsJsSpace(clean[|clean| - 1])
    ensures clean == [] <==> forall i :: 0 <= i < |StripAngles(url)| ==> IsJsSpace(StripAngles(url)[i])
  {
    Trim(StripAngles(url))
  }

  /** The URL a part of the given shape stands for: without its angle brackets when bracketed. */
  function UrlTarget(u: string): string
    requires UrlShape(u)
  {
    if BracketForm(u) then u[1..|u| - 1] else u
  }

  /** The link target of a URL part is the URL without its angle brackets, starting with its scheme. */
  lemma CleanUrlOfShape(u: string)
    requires UrlShape(u)
    ensures CleanUrl(u) == UrlTarget(u)
    ensures UrlTarget(u)[..7] == "http://" || UrlTarget(u)[..8] == "https://"
  {
    var v := UrlTarget(u);
    assert SchemeThenRun(v, !BracketForm(u));
    assert v[0] == v[..7][0] == 'h';
    assert !IsJsSpace(v[|v| - 1]);
    if BracketForm(u) {
      assert u[1..][..|u| - 2] == v;
      assert StripAngles(u) == v;
    } else {
      assert u[|u| - 1] != '>';
      assert StripAngles(u) == v;
    }
    TrimUnchanged(v);
  }

  // ---------------------------------------------------------------------
  // highlightText and Highlight.

  /** `query.split(' ').filter(q => q.length > 0)`: the terms are non-empty and hold no space. */
  function QueryTerms(query: string): (terms: seq<string>)
    ensures forall k :: 0 <= k < |terms| ==> terms[k] != [] && ' ' !in terms[k]
  {
    var pieces := SplitOn(query, ' ');
    var terms := NonEmpty(pieces);
    assert forall k :: 0 <= k < |terms| ==> terms[k] in pieces;
    terms
  }

  /**
   * The alternatives of `new RegExp('(' + escaped terms joined by '|' + ')', 'gi')`:
   * the escaping makes each term an alternative of its own, read literally;
   * with no terms the pattern is `()`, whose one alternative is empty.
   */
  function TermPattern(terms: seq<string>): (alts: seq<string>)
    ensures alts == (if terms == [] then [[]] else terms)
  {
    EscapedAlternation(terms);
    ReadAlternatives(Join(EscapeAll(terms), "|")).value
  }

  /** `highlightText(str)`: `str.split(regex)`, each piece marked when it equals a term up to case. */
  function HighlightText(str: string, query: string): seq<Run>
  {
    var terms := QueryTerms(query);
    var pieces := Split(TermPattern(terms), str);
    seq(|pieces|, k requires 0 <= k < |pieces| => Run(pieces[k], IsTermText(terms, pieces[k])))
  }

  /**
   * The runs of `highlightText` give back the string; with terms, they are
   * in turn text in which no term occurs and the occurrence the pattern
   * takes (leftmost, then the earliest term in the query), and a run is
   * marked exactly when it is such an occurrence; with no terms nothing is
   * marked.
   */
  lemma HighlightTextSpec(str: string, query: string)
    ensures Concat(RunTexts(HighlightText(str, query))) == str
    ensures QueryTerms(query) != [] ==> Alternates(QueryTerms(query), str, 0, RunTexts(HighlightText(str, query)))
    ensures QueryTerms(query) != [] ==> forall k :: 0 <= k < |HighlightText(str, query)| ==>
      (HighlightText(str, query)[k].marked <==> k % 2 == 1)
    ensures QueryTerms(query) == [] ==> forall k :: 0 <= k < |HighlightText(str, query)| ==> !HighlightText(str, query)[k].marked
  {
    var terms := QueryTerms(query);
    var runs := HighlightText(str, query);
    var pieces := Split(TermPattern(terms), str);
    assert RunTexts(runs) == pieces;
    SplitConcat(TermPattern(terms), str);
    if terms != [] {
      SplitAlternates(terms, str);
      AlternatesMarksMatches(terms, str, 0, pieces);
    }
  }

  /** What the `Highlight` component renders for one part: a `[link]` anchor, or a span of runs. */
  datatype Element = Link(href: string) | Span(runs: seq<Run>)

  function Render(part: Part, query: Option<string>): (e: Element)
    ensures e.Link? <==> part.UrlPart?
    ensures e.Link? ==> e.href == CleanUrl(part.content)
    ensures e.Span? && !Truthy(query) ==> e.runs == [Run(part.content, false)]
  {
    match part
    case UrlPart(u) => Link(CleanUrl(u))
    case TextPart(c) => if Truthy(query) then Span(HighlightText(c, query.value)) else Span([Run(c, false)])
  }

  /** The `Highlight` component: one element per part of `processTextWithLinks(text)`; nothing for an absent or empty text. */
  function Highlight(text: Option<string>, query: Option<string>): seq<Element>
  {
    var parts := Linkify(text);
    seq(|parts|, k requires 0 <= k < |parts| => Render(parts[k], query))
  }

  /**
   * What the element `e` shows for `part`: a URL part becomes a link to the
   * URL without its angle brackets, a text part a span of runs that spell it
   * out in full, none of them marked when there is no query.
   */
  predicate Shows(part: Part, e: Element, query: Option<string>)
  {
    && (e.Link? <==> part.UrlPart?)
    && (e.Link? ==> UrlShape(part.content) && e.href == UrlTarget(part.content))
    && (e.Span? ==> Concat(RunTexts(e.runs)) == part.content)
    && (e.Span? && !Truthy(query) ==> forall j :: 0 <= j < |e.runs| ==> !e.runs[j].marked)
  }

  /** `Highlight` renders one element for each part of the text, showing that part. */
  lemma HighlightSpec(text: Option<string>, query: Option<string>)
    ensures var parts, r := Linkify(text), Highlight(text, query);
      |r| == |parts| && forall k :: 0 <= k < |r| ==> Shows(parts[k], r[k], query)
  {
    var parts := Linkify(text);
    LinkifyParts(text);
    forall k | 0 <= k < |parts|
      ensures Shows(parts[k], Render(parts[k], query), query)
    {
      assert PartFits(parts, k);
      RenderPart(parts[k], query);
    }
  }

  /** What `Render` shows for one well-formed part. */
  lemma RenderPart(part: Part, query: Option<string>)
    requires part.UrlPart? ==> UrlShape(part.content)
    ensures Shows(part, Render(part, query), query)
  {
    if part.UrlPart? {
      CleanUrlOfShape(part.content);
    } else if Truthy(query) {
      HighlightTextSpec(part.content, query.value);
    } else {
      assert Concat(RunTexts([Run(part.content, false)])) == part.content + Concat([]);
    }
  }

  // ---------------------------------------------------------------------
  // formatDate

  /**
   * `formatDate(dateVal)`: `'N/A'` for a missing or empty date; otherwise
   * the locale rendering of `new Date(dateVal)`, given as `localeDate`, or
   * the value itself when that throws (None).
   */
  function FormatDate(dateVal: Option<string>, localeDate: string -> Option<string>): (r: string)
    ensures !Truthy(dateVal) ==> r == "N/A"
    ensures Truthy(dateVal) && localeDate(dateVal.value).Some? ==> r == localeDate(dateVal.value).value
    ensures Truthy(dateVal) && localeDate(dateVal.value).None? ==> r == dateVal.value
  {
    if !Truthy(dateVal) then "N/A"
    else
      match localeDate(dateVal.value)
      case Some(d) => d
      case None => dateVal.value
  }
}
