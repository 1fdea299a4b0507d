// The string operations of JavaScript and Python that the components use,
// written out over `seq<char>`: white space as each language defines it,
// ASCII case folding, `join`, `split(' ')`, `trim()`, `includes`,
// Python's `str.split()` and the `substring(0, n)` previews.
module Text {

  /** White space for JavaScript's `\s` and `String.prototype.trim` (WhiteSpace and LineTerminator). */
  predicate IsJsSpace(c: char)
  {
    ('\t' <= c <= '\r') || c == ' ' || c == '\U{A0}' || c == '\U{1680}' ||
    ('\U{2000}' <= c <= '\U{200A}') || c == '\U{2028}' || c == '\U{2029}' ||
    c == '\U{202F}' || c == '\U{205F}' || c == '\U{3000}' || c == '\U{FEFF}'
  }

  /** White space for Python's `str.split()` with no separator (`str.isspace`). */
  predicate IsPySpace(c: char)
  {
    ('\t' <= c <= '\r') || ('\U{1C}' <= c <= '\U{1F}') || c == ' ' || c == '\U{85}' ||
    c == '\U{A0}' || c == '\U{1680}' || ('\U{2000}' <= c <= '\U{200A}') ||
    c == '\U{2028}' || c == '\U{2029}' || c == '\U{202F}' || c == '\U{205F}' || c == '\U{3000}'
  }

  function LowerChar(c: char): char
  {
    if 'A' <= c <= 'Z' then (c as int + 32) as char else c
  }

  /** `toLowerCase()`, folding ASCII letters only. */
  function Lower(s: string): string
  {
    seq(|s|, i requires 0 <= i < |s| => LowerChar(s[i]))
  }

  lemma LowerAppend(a: string, b: string)
    ensures Lower(a + b) == Lower(a) + Lower(b)
  {
    assert forall i :: 0 <= i < |a + b| ==> Lower(a + b)[i] == (Lower(a) + Lower(b))[i];
  }

  /** Lower-casing commutes with taking a slice. */
  lemma LowerSlice(s: string, i: nat, j: nat)
    requires i <= j <= |s|
    ensures Lower(s[i..j]) == Lower(s)[i..j]
  {
  }

  /** `ss.join(sep)`. */
  function Join(ss: seq<string>, sep: string): string
  {
    if |ss| == 0 then ""
    else if |ss| == 1 then ss[0]
    else ss[0] + sep + Join(ss[1..], sep)
  }

  /** A join starts with its first piece. */
  lemma JoinHead(ss: seq<string>, sep: string)
    requires |ss| >= 1
    ensures |ss[0]| <= |Join(ss, sep)| && Join(ss, sep)[..|ss[0]|] == ss[0]
  {
    if |ss| > 1 {
      assert Join(ss, sep) == ss[0] + (sep + Join(ss[1..], sep));
    }
  }

  /** The concatenation of all the pieces, in order. */
  function Concat(ss: seq<string>): string
  {
    if ss == [] then "" else ss[0] + Concat(ss[1..])
  }

  lemma ConcatAppend(a: seq<string>, b: seq<string>)
    ensures Concat(a + b) == Concat(a) + Concat(b)
  {
    if a != [] {
      assert (a + b)[1..] == a[1..] + b;
      ConcatAppend(a[1..], b);
    } else {
      assert a + b == b;
    }
  }

  /** `s.split(c)` for a one-character separator: the pieces between the occurrences of `c`. */
  function SplitOn(s: string, c: char): (r: seq<string>)
    ensures |r| >= 1
    ensures Join(r, [c]) == s
    ensures forall k :: 0 <= k < |r| ==> c !in r[k]
  {
    if s == [] then [[]]
    else
      var rest := SplitOn(s[1..], c);
      if s[0] == c then
        assert ([[]] + rest)[1..] == rest;
        [[]] + rest
      else
        var r := [[s[0]] + rest[0]] + rest[1..];
        assert |rest| > 1 ==> Join(rest, [c]) == rest[0] + [c] + Join(rest[1..], [c]);
        assert r[1..] == rest[1..];
        r
  }

  /** Splitting a string made of two halves around one separator splits each half. */
  lemma {:induction false} SplitOnAround(a: string, b: string, c: char)
    ensures SplitOn(a + [c] + b, c) == SplitOn(a, c) + SplitOn(b, c)
  {
    if a == [] {
      assert a + [c] + b == [c] + b;
      assert ([c] + b)[1..] == b;
    } else {
      SplitOnAround(a[1..], b, c);
      assert a == [a[0]] + a[1..];
      assert a + [c] + b == [a[0]] + (a[1..] + [c] + b);
      SplitOnCons(a[0], a[1..] + [c] + b, c);
      SplitOnCons(a[0], a[1..], c);
      ConsPieces(a[0], c, SplitOn(a[1..], c), SplitOn(b, c));
    }
  }

  /** `SplitOn` on a string with a first character, in terms of the split of the rest. */
  lemma SplitOnCons(x: char, t: string, c: char)
    ensures SplitOn([x] + t, c) ==
      if x == c then [[]] + SplitOn(t, c) else [[x] + SplitOn(t, c)[0]] + SplitOn(t, c)[1..]
  {
    assert ([x] + t)[1..] == t;
  }

  /** Prefixing a character to the pieces of a split commutes with appending more pieces. */
  lemma ConsPieces(x: char, c: char, rt: seq<string>, rb: seq<string>)
    requires |rt| >= 1
    ensures (if x == c then [[]] + (rt + rb) else [[x] + (rt + rb)[0]] + (rt + rb)[1..]) ==
            (if x == c then [[]] + rt else [[x] + rt[0]] + rt[1..]) + rb
  {
    if x != c {
      assert (rt + rb)[0] == rt[0] && (rt + rb)[1..] == rt[1..] + rb;
    }
  }

  /** `.filter(t => t.length > 0)`. */
  function NonEmpty(ss: seq<string>): (r: seq<string>)
    ensures forall k :: 0 <= k < |r| ==> r[k] != []
    ensures forall x :: x in r <==> x in ss && x != []
  {
    if ss == [] then []
    else if ss[0] == [] then NonEmpty(ss[1..])
    else [ss[0]] + NonEmpty(ss[1..])
  }

  lemma {:induction false} NonEmptyAppend(a: seq<string>, b: seq<string>)
    ensures NonEmpty(a + b) == NonEmpty(a) + NonEmpty(b)
  {
    if a != [] {
      assert (a + b)[1..] == a[1..] + b;
      NonEmptyAppend(a[1..], b);
    } else {
      assert a + b == b;
    }
  }

  function TrimStart(s: string): (r: string)
    ensures |r| <= |s| && r == s[|s| - |r|..]
    ensures r != [] ==> !IsJsSpace(r[0])
    ensures forall i :: 0 <= i < |s| - |r| ==> IsJsSpace(s[i])
  {
    if s != [] && IsJsSpace(s[0]) then TrimStart(s[1..]) else s
  }

  function TrimEnd(s: string): (r: string)
    ensures |r| <= |s| && r == s[..|r|]
    ensures r != [] ==> !IsJsSpace(r[|r| - 1])
    ensures forall i :: |r| <= i < |s| ==> IsJsSpace(s[i])
  {
    if s != [] && IsJsSpace(s[|s| - 1]) then TrimEnd(s[..|s| - 1]) else s
  }

  /** `s.trim()`: `s` without its leading and trailing white space. */
  function Trim(s: string): (r: string)
    ensures r == [] <==> forall i :: 0 <= i < |s| ==> IsJsSpace(s[i])
    ensures r != [] ==> !IsJsSpace(r[0]) && !IsJsSpace(r[|r| - 1])
  {
    var t := TrimStart(s);
    var r := TrimEnd(t);
    r
  }

  /** Trimming leaves a string alone when it neither starts nor ends with white space. */
  lemma TrimUnchanged(s: string)
    requires s != [] ==> !IsJsSpace(s[0]) && !IsJsSpace(s[|s| - 1])
    ensures Trim(s) == s
  {
    assert TrimStart(s) == s;
  }

  predicate IsPrefixAt(needle: string, hay: string, i: nat)
  {
    i + |needle| <= |hay| && hay[i..i + |needle|] == needle
  }

  /** `hay.includes(needle)`. */
  predicate Contains(hay: string, needle: string)
  {
    exists i: nat :: i + |needle| <= |hay| && IsPrefixAt(needle, hay, i)
  }

  /** The length of the leading run of characters that are not Python white space. */
  function WordLength(s: string): (n: nat)
    ensures n <= |s|
    ensures forall i :: 0 <= i < n ==> !IsPySpace(s[i])
    ensures n < |s| ==> IsPySpace(s[n])
  {
    if s == [] || IsPySpace(s[0]) then 0 else 1 + WordLength(s[1..])
  }

  /** Python's `s.split()`: the maximal runs of non-white-space characters, in order. */
  function PySplit(s: string): (words: seq<string>)
    ensures forall k :: 0 <= k < |words| ==> words[k] != []
    ensures forall k, i :: 0 <= k < |words| && 0 <= i < |words[k]| ==> !IsPySpace(words[k][i])
    ensures words == [] <==> forall i :: 0 <= i < |s| ==> IsPySpace(s[i])
    decreases |s|
  {
    if s == [] then []
    else if IsPySpace(s[0]) then
      var rest := PySplit(s[1..]);
      assert (forall i :: 0 <= i < |s| ==> IsPySpace(s[i])) <==>
             (forall i :: 0 <= i < |s| - 1 ==> IsPySpace(s[1..][i]));
      rest
    else
      var n := WordLength(s);
      [s[..n]] + PySplit(s[n..])
  }

  predicate AllPySpace(g: string)
  {
    forall i :: 0 <= i < |g| ==> IsPySpace(g[i])
  }

  /** `gaps[0] + words[0] + gaps[1] + ... + words[n-1] + gaps[n]`. */
  function Interleave(gaps: seq<string>, words: seq<string>): string
    requires |gaps| == |words| + 1
  {
    if words == [] then gaps[0] else gaps[0] + words[0] + Interleave(gaps[1..], words[1..])
  }

  /**
   * `s` is `words` separated by runs of white space, with white space
   * allowed, not required, before the first word and after the last.
   * With words that are non-empty and hold no white space, this fixes the
   * words as the maximal runs of non-white-space characters of `s`.
   */
  predicate Rebuilds(s: string, words: seq<string>, gaps: seq<string>)
  {
    && |gaps| == |words| + 1
    && (forall k :: 0 <= k < |gaps| ==> AllPySpace(gaps[k]))
    && (forall k :: 0 < k < |words| ==> gaps[k] != [])
    && Interleave(gaps, words) == s
  }

  /** The words of `s.split()`, put back between white-space runs, give back `s`. */
  lemma {:induction false} PySplitRebuilds(s: string)
    ensures exists gaps :: Rebuilds(s, PySplit(s), gaps)
    decreases |s|
  {
    if s == [] {
      assert PySplit(s) == [];
      assert Rebuilds(s, [], [""]);
    } else if IsPySpace(s[0]) {
      PySplitRebuilds(s[1..]);
      SpaceRebuilds(s);
    } else {
      PySplitRebuilds(s[WordLength(s)..]);
      WordRebuilds(s);
    }
  }

  lemma SpaceRebuilds(s: string)
    requires s != [] && IsPySpace(s[0])
    requires exists gaps :: Rebuilds(s[1..], PySplit(s[1..]), gaps)
    ensures exists gaps :: Rebuilds(s, PySplit(s), gaps)
  {
    var gaps :| Rebuilds(s[1..], PySplit(s[1..]), gaps);
    LeadingSpace(s, PySplit(s[1..]), gaps);
    assert Rebuilds(s, PySplit(s), [[s[0]] + gaps[0]] + gaps[1..]);
  }

  lemma WordRebuilds(s: string)
    requires s != [] && !IsPySpace(s[0])
    requires exists gaps :: Rebuilds(s[WordLength(s)..], PySplit(s[WordLength(s)..]), gaps)
    ensures exists gaps :: Rebuilds(s, PySplit(s), gaps)
  {
    var n := WordLength(s);
    var words := PySplit(s[n..]);
    var gaps :| Rebuilds(s[n..], words, gaps);
    LeadingWord(s, n, words, gaps);
    assert PySplit(s) == [s[..n]] + words;
  }

  lemma LeadingSpace(s: string, words: seq<string>, gaps: seq<string>)
    requires s != [] && IsPySpace(s[0]) && Rebuilds(s[1..], words, gaps)
    ensures Rebuilds(s, words, [[s[0]] + gaps[0]] + gaps[1..])
  {
    var gaps' := [[s[0]] + gaps[0]] + gaps[1..];
    assert gaps'[1..] == gaps[1..];
    assert s == [s[0]] + s[1..];
    if words != [] {
      assert Interleave(gaps', words) == [s[0]] + gaps[0] + words[0] + Interleave(gaps[1..], words[1..]);
    }
  }

  lemma LeadingWord(s: string, n: nat, words: seq<string>, gaps: seq<string>)
    requires 0 < n <= |s| && forall i :: 0 <= i < n ==> !IsPySpace(s[i])
    requires n < |s| ==> IsPySpace(s[n])
    requires forall k :: 0 <= k < |words| ==> words[k] != [] && !IsPySpace(words[k][0])
    requires Rebuilds(s[n..], words, gaps)
    ensures Rebuilds(s, [s[..n]] + words, [""] + gaps)
  {
    var t := s[n..];
    var gaps', words' := [""] + gaps, [s[..n]] + words;
    assert gaps'[1..] == gaps && words'[1..] == words;
    assert s == s[..n] + t;
    if words != [] {
      assert t == gaps[0] + words[0] + Interleave(gaps[1..], words[1..]);
    }
  }

  /** `s.substring(0, limit)` followed by `'...'` exactly when `s` is longer than `limit`. */
  function Preview(s: string, limit: nat): (r: string)
    ensures |s| <= limit ==> r == s
    ensures |s| > limit ==> |r| == limit + 3 && r[..limit] == s[..limit] && r[limit..] == "..."
  {
    if |s| > limit then s[..limit] + "..." else s
  }
}
