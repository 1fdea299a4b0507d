// What both highlighters share: `str.split(/(t0|t1|...)/gi)`, the split of
// a string around a case-insensitive alternation of literal terms with the
// matched pieces kept, as ECMAScript's `RegExp.prototype[Symbol.split]`
// performs it; and how a pattern built by joining terms with `|` reads back
// as its list of alternatives.
module Highlighting {
  import opened Common
  import opened Text

  /** One piece of a highlighted string and whether it is shown highlighted. */
  datatype Run = Run(text: string, marked: bool)

  function RunTexts(runs: seq<Run>): (r: seq<string>)
    ensures |r| == |runs|
  {
    seq(|runs|, k requires 0 <= k < |runs| => runs[k].text)
  }

  /** Alternative `alt` matches at position `q` of `s` under the `i` flag (ASCII case folding). */
  predicate OccursAt(alt: string, s: string, q: nat)
  {
    q + |alt| <= |s| && Lower(s[q..q + |alt|]) == Lower(alt)
  }

  /** The alternative a regular expression `(a0|a1|...)` takes at position `q`: the first one in the pattern that matches there. */
  function FirstOccurring(alts: seq<string>, s: string, q: nat): (r: Option<nat>)
    ensures r.Some? ==> r.value < |alts| && q + |alts[r.value]| <= |s|
  {
    if alts == [] then None
    else if OccursAt(alts[0], s, q) then Some(0)
    else
      match FirstOccurring(alts[1..], s, q)
      case None => None
      case Some(j) => Some(j + 1)
  }

  /** The alternative taken matches, and none before it does; when none is taken, none matches. */
  lemma {:induction false} FirstOccurringSpec(alts: seq<string>, s: string, q: nat)
    ensures var r := FirstOccurring(alts, s, q);
      && (r.Some? ==> OccursAt(alts[r.value], s, q) && forall i :: 0 <= i < r.value ==> !OccursAt(alts[i], s, q))
      && (r.None? ==> forall j :: 0 <= j < |alts| ==> !OccursAt(alts[j], s, q))
  {
    if alts != [] && !OccursAt(alts[0], s, q) {
      FirstOccurringSpec(alts[1..], s, q);
      var r := FirstOccurring(alts[1..], s, q);
      if r.None? {
        forall j | 0 <= j < |alts| ensures !OccursAt(alts[j], s, q) {
          if j > 0 { assert alts[j] == alts[1..][j - 1]; }
        }
      } else {
        forall i | 0 <= i < r.value + 1 ensures !OccursAt(alts[i], s, q) {
          if i > 0 { assert alts[i] == alts[1..][i - 1]; }
        }
      }
    }
  }

  /**
   * The loop of `RegExp.prototype[Symbol.split]`: `p` is where the current
   * piece starts, `q` the position being tried. A match that ends where the
   * current piece starts is skipped; any other match closes the piece and is
   * kept as a piece of its own (the captured group).
   */
  function SplitFrom(alts: seq<string>, s: string, p: nat, q: nat): seq<string>
    requires p <= q <= |s|
    decreases |s| - q, q - p
  {
    if q == |s| then [s[p..]]
    else
      match FirstOccurring(alts, s, q)
      case None => SplitFrom(alts, s, p, q + 1)
      case Some(j) =>
        var e := q + |alts[j]|;
        if e == p then SplitFrom(alts, s, p, q + 1)
        else [s[p..q], s[q..e]] + SplitFrom(alts, s, e, e)
  }

  /** `s.split(new RegExp('(' + alternatives + ')', 'gi'))`. */
  function Split(alts: seq<string>, s: string): seq<string>
  {
    if |s| == 0 then
      if FirstOccurring(alts, s, 0).Some? then [] else [s]
    else SplitFrom(alts, s, 0, 0)
  }

  /** Where no alternative matches, the split moves on to the next position. */
  lemma SplitFromSkip(alts: seq<string>, s: string, p: nat, q: nat)
    requires p <= q < |s| && FirstOccurring(alts, s, q).None?
    ensures SplitFrom(alts, s, p, q) == SplitFrom(alts, s, p, q + 1)
  {
  }

  /** A match that does not end where the piece starts closes the piece and is kept. */
  lemma SplitFromMatch(alts: seq<string>, s: string, p: nat, q: nat, j: nat, e: nat)
    requires p <= q < |s| && FirstOccurring(alts, s, q) == Some(j)
    requires e == q + |alts[j]| && e != p
    ensures e <= |s| && SplitFrom(alts, s, p, q) == [s[p..q], s[q..e]] + SplitFrom(alts, s, e, e)
  {
  }

  lemma {:induction false} SplitFromConcat(alts: seq<string>, s: string, p: nat, q: nat)
    requires p <= q <= |s|
    ensures Concat(SplitFrom(alts, s, p, q)) == s[p..]
    decreases |s| - q, q - p
  {
    if q == |s| {
      assert Concat([s[p..]]) == s[p..] + Concat([]);
    } else {
      var r := FirstOccurring(alts, s, q);
      if r.None? {
        SplitFromSkip(alts, s, p, q);
        SplitFromConcat(alts, s, p, q + 1);
      } else if q + |alts[r.value]| == p {
        SplitFromConcat(alts, s, p, q + 1);
      } else {
        var e := q + |alts[r.value]|;
        SplitFromMatch(alts, s, p, q, r.value, e);
        SplitFromConcat(alts, s, e, e);
        PiecesConcat(s, p, q, e, SplitFrom(alts, s, e, e));
      }
    }
  }

  /** A gap, a match and the pieces of the rest concatenate back to the text from the gap on. */
  lemma PiecesConcat(s: string, p: nat, q: nat, e: nat, rest: seq<string>)
    requires p <= q <= e <= |s| && Concat(rest) == s[e..]
    ensures Concat([s[p..q], s[q..e]] + rest) == s[p..]
  {
    ConcatAppend([s[p..q], s[q..e]], rest);
    assert Concat([s[p..q], s[q..e]]) == s[p..q] + (s[q..e] + Concat([]));
    assert s[p..] == s[p..q] + s[q..e] + s[e..];
  }

  /** Splitting loses no character: the pieces concatenate back to the input. */
  lemma SplitConcat(alts: seq<string>, s: string)
    ensures Concat(Split(alts, s)) == s
  {
    if |s| == 0 {
      assert Concat([s]) == s + Concat([]);
    } else {
      SplitFromConcat(alts, s, 0, 0);
    }
  }

  predicate AllNonEmpty(alts: seq<string>)
  {
    forall j :: 0 <= j < |alts| ==> alts[j] != []
  }

  /** No alternative matches at any position of `s` in `[lo, hi)`. */
  predicate NoOccurrence(alts: seq<string>, s: string, lo: nat, hi: nat)
  {
    forall x: nat :: lo <= x < hi ==> FirstOccurring(alts, s, x).None?
  }

  /**
   * The declarative reading of a split, from position `from` of `s`: the
   * pieces are gaps and matches in turn, starting and ending with a gap; they
   * tile `s[from..]`; no alternative matches at any position inside a gap;
   * and every match is what the first matching alternative covers where it
   * starts.
   */
  ghost predicate Alternates(alts: seq<string>, s: string, from: nat, pieces: seq<string>)
    decreases |pieces|
  {
    && |pieces| % 2 == 1
    && GapAt(alts, s, from, pieces[0])
    && (|pieces| == 1 ==> from + |pieces[0]| == |s|)
    && (|pieces| > 1 ==>
          && MatchAt(alts, s, from + |pieces[0]|, pieces[1])
          && Alternates(alts, s, from + |pieces[0]| + |pieces[1]|, pieces[2..]))
  }

  /** `gap` is the text of `s` at `from`, and no alternative matches at any of its positions. */
  predicate GapAt(alts: seq<string>, s: string, from: nat, gap: string)
  {
    from + |gap| <= |s| && s[from..from + |gap|] == gap && NoOccurrence(alts, s, from, from + |gap|)
  }

  /** `piece` is what the first alternative matching at `m` covers. */
  predicate MatchAt(alts: seq<string>, s: string, m: nat, piece: string)
  {
    match FirstOccurring(alts, s, m)
    case None => false
    case Some(j) => m + |alts[j]| <= |s| && piece == s[m..m + |alts[j]|]
  }

  /** A gap that runs to the end of `s` is an alternation on its own. */
  lemma AlternatesLast(alts: seq<string>, s: string, from: nat)
    requires from <= |s|
    requires NoOccurrence(alts, s, from, |s|)
    ensures Alternates(alts, s, from, [s[from..]])
  {
  }

  /** A gap, then the first match right after it, then an alternation, is an alternation. */
  lemma AlternatesCons(alts: seq<string>, s: string, from: nat, m: nat, j: nat, rest: seq<string>)
    requires from <= m && j < |alts| && m + |alts[j]| <= |s|
    requires NoOccurrence(alts, s, from, m)
    requires FirstOccurring(alts, s, m) == Some(j)
    requires Alternates(alts, s, m + |alts[j]|, rest)
    ensures Alternates(alts, s, from, [s[from..m], s[m..m + |alts[j]|]] + rest)
  {
    var pieces := [s[from..m], s[m..m + |alts[j]|]] + rest;
    assert pieces[2..] == rest;
  }

  lemma {:induction false} SplitFromAlternates(alts: seq<string>, s: string, p: nat, q: nat)
    requires AllNonEmpty(alts)
    requires p <= q <= |s|
    requires NoOccurrence(alts, s, p, q)
    ensures Alternates(alts, s, p, SplitFrom(alts, s, p, q))
    decreases |s| - q, q - p
  {
    if q < |s| {
      var r := FirstOccurring(alts, s, q);
      if r.None? {
        SkipStep(alts, s, p, q);
        SplitFromAlternates(alts, s, p, q + 1);
      } else {
        var e := q + |alts[r.value]|;
        assert e != p by { assert alts[r.value] != []; }
        SplitFromAlternates(alts, s, e, e);
        MatchStep(alts, s, p, q, r.value, e);
      }
    } else {
      AlternatesLast(alts, s, p);
    }
  }

  /** Where no alternative matches, the gap grows by one position and the split is unchanged. */
  lemma SkipStep(alts: seq<string>, s: string, p: nat, q: nat)
    requires p <= q < |s| && FirstOccurring(alts, s, q).None?
    requires NoOccurrence(alts, s, p, q)
    ensures NoOccurrence(alts, s, p, q + 1)
    ensures SplitFrom(alts, s, p, q) == SplitFrom(alts, s, p, q + 1)
  {
    SplitFromSkip(alts, s, p, q);
  }

  /** A match after a gap followed by the alternation of the rest is the alternation from the gap. */
  lemma MatchStep(alts: seq<string>, s: string, p: nat, q: nat, j: nat, e: nat)
    requires p <= q < |s| && FirstOccurring(alts, s, q) == Some(j)
    requires e == q + |alts[j]| && e != p
    requires NoOccurrence(alts, s, p, q)
    requires e <= |s| && Alternates(alts, s, e, SplitFrom(alts, s, e, e))
    ensures Alternates(alts, s, p, SplitFrom(alts, s, p, q))
  {
    SplitFromMatch(alts, s, p, q, j, e);
    AlternatesCons(alts, s, p, q, j, SplitFrom(alts, s, e, e));
  }

  /** With non-empty alternatives, the split is exactly the alternation of gaps and first matches. */
  lemma SplitAlternates(alts: seq<string>, s: string)
    requires AllNonEmpty(alts)
    ensures Alternates(alts, s, 0, Split(alts, s))
  {
    if |s| == 0 {
      assert NoOccurrence(alts, s, 0, 0);
    } else {
      SplitFromAlternates(alts, s, 0, 0);
    }
  }

  /** The piece's lower-case form equals some alternative's lower-case form. */
  predicate IsTermText(alts: seq<string>, piece: string)
  {
    exists j :: 0 <= j < |alts| && Lower(alts[j]) == Lower(piece)
  }

  /**
   * In an alternation of gaps and matches, a piece equals some alternative
   * (ignoring ASCII case) exactly when it is a match, that is, at an odd
   * index: a gap equal to an alternative would contain a match at its start.
   */
  lemma {:induction false} AlternatesMarksMatches(alts: seq<string>, s: string, from: nat, pieces: seq<string>)
    requires AllNonEmpty(alts)
    ensures Alternates(alts, s, from, pieces) ==>
      forall k :: 0 <= k < |pieces| ==> (IsTermText(alts, pieces[k]) <==> k % 2 == 1)
    decreases |pieces|
  {
    if Alternates(alts, s, from, pieces) {
      GapIsNoTerm(alts, s, from, pieces[0]);
      if |pieces| > 1 {
        var m := from + |pieces[0]|;
        MatchIsTerm(alts, s, m, pieces[1]);
        var rest := pieces[2..];
        AlternatesMarksMatches(alts, s, m + |pieces[1]|, rest);
        forall k | 2 <= k < |pieces|
          ensures IsTermText(alts, pieces[k]) <==> k % 2 == 1
        {
          assert pieces[k] == rest[k - 2];
        }
      }
    }
  }

  lemma MatchIsTerm(alts: seq<string>, s: string, m: nat, piece: string)
    requires MatchAt(alts, s, m, piece)
    ensures IsTermText(alts, piece)
  {
    var j := FirstOccurring(alts, s, m).value;
    FirstOccurringSpec(alts, s, m);
    assert Lower(alts[j]) == Lower(piece);
  }

  lemma GapIsNoTerm(alts: seq<string>, s: string, from: nat, gap: string)
    requires AllNonEmpty(alts)
    requires from + |gap| <= |s| && s[from..from + |gap|] == gap
    requires NoOccurrence(alts, s, from, from + |gap|)
    ensures !IsTermText(alts, gap)
  {
    forall j | 0 <= j < |alts|
      ensures Lower(alts[j]) != Lower(gap)
    {
      if |alts[j]| == |gap| {
        assert from < from + |gap|;
        assert FirstOccurring(alts, s, from).None?;
        FirstOccurringSpec(alts, s, from);
        assert !OccursAt(alts[j], s, from);
      }
    }
  }

  // ---------------------------------------------------------------------
  // Reading a pattern back as its alternatives.

  /** The characters that `q.replace(/[.*+?^${}()|[\]\\]/g, '\\$&')` escapes. */
  predicate IsMeta(c: char)
  {
    c in ".*+?^${}()|[]\\"
  }

  /** A term with a backslash put before each metacharacter. */
  function Escape(t: string): (r: string)
    ensures |r| >= |t|
  {
    if t == [] then []
    else (if IsMeta(t[0]) then ['\\', t[0]] else [t[0]]) + Escape(t[1..])
  }

  function EscapeAll(ts: seq<string>): (r: seq<string>)
    ensures |r| == |ts|
  {
    if ts == [] then [] else [Escape(ts[0])] + EscapeAll(ts[1..])
  }

  /**
   * How a regular-expression body made of ordinary characters, `\`-escaped
   * metacharacters and `|` separators reads: the list of literal
   * alternatives; None for any other construct (an unescaped metacharacter).
   * `cur` is the alternative being read, `done` those already closed.
   */
  function ReadFrom(p: string, cur: string, done: seq<string>): Option<seq<string>>
    decreases |p|
  {
    if p == [] then Some(done + [cur])
    else if p[0] == '\\' then
      if |p| >= 2 && IsMeta(p[1]) then ReadFrom(p[2..], cur + [p[1]], done) else None
    else if p[0] == '|' then ReadFrom(p[1..], [], done + [cur])
    else if IsMeta(p[0]) then None
    else ReadFrom(p[1..], cur + [p[0]], done)
  }

  function ReadAlternatives(p: string): Option<seq<string>>
  {
    ReadFrom(p, [], [])
  }

  lemma {:induction false} ReadEscaped(t: string, rest: string, cur: string, done: seq<string>)
    ensures ReadFrom(Escape(t) + rest, cur, done) == ReadFrom(rest, cur + t, done)
  {
    if t == [] {
      assert Escape(t) + rest == rest;
      assert cur + t == cur;
    } else {
      var head := if IsMeta(t[0]) then ['\\', t[0]] else [t[0]];
      assert Escape(t) + rest == head + (Escape(t[1..]) + rest);
      ReadEscaped(t[1..], rest, cur + [t[0]], done);
      assert cur + [t[0]] + t[1..] == cur + t;
      if IsMeta(t[0]) {
        assert (head + (Escape(t[1..]) + rest))[2..] == Escape(t[1..]) + rest;
      } else {
        assert (head + (Escape(t[1..]) + rest))[1..] == Escape(t[1..]) + rest;
      }
    }
  }

  lemma {:induction false} ReadJoinedFrom(ts: seq<string>, done: seq<string>)
    requires |ts| >= 1
    ensures ReadFrom(Join(EscapeAll(ts), "|"), [], done) == Some(done + ts)
  {
    var es := EscapeAll(ts);
    if |ts| == 1 {
      assert es == [Escape(ts[0])];
      ReadEscaped(ts[0], [], [], done);
      assert Escape(ts[0]) + [] == Escape(ts[0]);
      assert [] + ts[0] == ts[0];
      assert ts == [ts[0]];
    } else {
      assert es[1..] == EscapeAll(ts[1..]);
      var tail := Join(es[1..], "|");
      assert Join(es, "|") == Escape(ts[0]) + ("|" + tail);
      ReadEscaped(ts[0], "|" + tail, [], done);
      assert [] + ts[0] == ts[0];
      assert ("|" + tail)[1..] == tail;
      ReadJoinedFrom(ts[1..], done + [ts[0]]);
      assert done + [ts[0]] + ts[1..] == done + ts;
    }
  }

  /**
   * Escaping every term and joining them with `|` gives a pattern that reads
   * back as exactly those terms, each matched literally; with no terms at all
   * the pattern is empty and reads as the one empty alternative.
   */
  lemma EscapedAlternation(ts: seq<string>)
    ensures ReadAlternatives(Join(EscapeAll(ts), "|")) == Some(if ts == [] then [[]] else ts)
  {
    if ts == [] {
      assert EscapeAll(ts) == [];
      assert Join(EscapeAll(ts), "|") == [];
      var none: seq<string> := [];
      assert ReadFrom([], [], none) == Some(none + [[]]);
      assert none + [[]] == [[]];
    } else {
      ReadJoinedFrom(ts, []);
      assert [] + ts == ts;
    }
  }

  /** Escaping changes nothing in a term without metacharacters. */
  lemma {:induction false} EscapePlain(t: string)
    requires forall i :: 0 <= i < |t| ==> !IsMeta(t[i])
    ensures Escape(t) == t
  {
    if t != [] {
      EscapePlain(t[1..]);
    }
  }
}
