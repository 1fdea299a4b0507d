// The document table: `filteredDocuments`, which keeps, in order, the
// documents that pass the category filter, the subcategory filter and every
// term of the query; what the list shows (the filtered note); and the
// summary cell that the bookmark table shares.
module DocumentList {
  import opened Common
  import opened Text

  /** The props that decide which documents are kept. */
  datatype Criteria = Criteria(query: Option<string>, category: Option<string>, subcategory: Option<string>)

  /** `query && query.trim()`: a query that is present and not blank. */
  predicate HasQuery(c: Criteria)
  {
    Truthy(c.query) && Trim(c.query.value) != []
  }

  /** `query.toLowerCase().split(' ').filter(t => t.length > 0)`. */
  function SearchTerms(query: string): seq<string>
  {
    NonEmpty(SplitOn(Lower(query), ' '))
  }

  /** `[doc.filename || '', doc.text || '', doc.summary || ''].join(' ').toLowerCase()`. */
  function Searchable(doc: Record): string
  {
    Lower(Join([OrEmpty(Get(doc, "filename")), OrEmpty(Get(doc, "text")), OrEmpty(Get(doc, "summary"))], " "))
  }

  /** `searchTerms.every(term => searchableText.includes(term))`. */
  predicate AllTermsIn(terms: seq<string>, text: string)
  {
    forall k :: 0 <= k < |terms| ==> Contains(text, terms[k])
  }

  /** The callback of `documents.filter`. */
  predicate Keep(doc: Record, c: Criteria)
  {
    if Truthy(c.category) && Get(doc, "category") != c.category then false
    else if Truthy(c.subcategory) && Get(doc, "subcategory") != c.subcategory then false
    else if HasQuery(c) then AllTermsIn(SearchTerms(c.query.value), Searchable(doc))
    else true
  }

  /** `documents.filter(...)`: the documents kept, each one that passes and only those. */
  function Filter(docs: seq<Record>, c: Criteria): (r: seq<Record>)
    ensures |r| <= |docs|
    ensures forall d :: d in r <==> d in docs && Keep(d, c)
  {
    if docs == [] then []
    else if Keep(docs[0], c) then [docs[0]] + Filter(docs[1..], c)
    else Filter(docs[1..], c)
  }

  /** `filteredDocuments`: no documents when `documents` is absent. */
  function FilteredDocuments(documents: Option<seq<Record>>, c: Criteria): (r: seq<Record>)
    ensures documents.None? ==> r == []
    ensures documents.Some? ==> |r| <= |documents.value|
  {
    match documents
    case None => []
    case Some(docs) => Filter(docs, c)
  }

  /** The kept documents keep their order: the result is a subsequence of the input. */
  lemma {:induction false} FilterSubsequence(docs: seq<Record>, c: Criteria)
    ensures IsSubsequence(Filter(docs, c), docs)
  {
    if docs != [] {
      FilterSubsequence(docs[1..], c);
      var rest := Filter(docs[1..], c);
      if Keep(docs[0], c) {
        assert ([docs[0]] + rest)[1..] == rest;
      } else if rest != [] {
        SubsequenceSkip(rest, docs);
      }
    }
  }

  /** A subsequence of the tail is a subsequence of the whole. */
  lemma {:induction false} SubsequenceSkip<T>(a: seq<T>, b: seq<T>)
    requires b != [] && IsSubsequence(a, b[1..])
    ensures IsSubsequence(a, b)
    decreases |b|, |a|, 1
  {
    if a != [] && a[0] == b[0] {
      SubsequenceTail(a, b[1..]);
    }
  }

  /** Dropping the first element keeps a subsequence a subsequence. */
  lemma {:induction false} SubsequenceTail<T>(a: seq<T>, b: seq<T>)
    requires a != [] && IsSubsequence(a, b)
    ensures IsSubsequence(a[1..], b)
    decreases |b| + 1, |a|, 0
  {
    if a[0] == b[0] {
      SubsequenceSkip(a[1..], b);
    } else {
      SubsequenceTail(a, b[1..]);
      SubsequenceSkip(a[1..], b);
    }
  }

  /** Filtering the filtered list again with the same props changes nothing. */
  lemma {:induction false} FilterIdempotent(docs: seq<Record>, c: Criteria)
    ensures Filter(Filter(docs, c), c) == Filter(docs, c)
  {
    if docs != [] {
      FilterIdempotent(docs[1..], c);
      if Keep(docs[0], c) {
        assert ([docs[0]] + Filter(docs[1..], c))[1..] == Filter(docs[1..], c);
      }
    }
  }

  /** Stricter props keep a subsequence of what looser ones keep. */
  lemma {:induction false} FilterNarrows(docs: seq<Record>, loose: Criteria, strict: Criteria)
    requires forall d :: Keep(d, strict) ==> Keep(d, loose)
    ensures IsSubsequence(Filter(docs, strict), Filter(docs, loose))
  {
    if docs != [] {
      FilterNarrows(docs[1..], loose, strict);
      var a, b := Filter(docs[1..], strict), Filter(docs[1..], loose);
      if Keep(docs[0], strict) {
        assert ([docs[0]] + a)[1..] == a && ([docs[0]] + b)[1..] == b;
      } else if Keep(docs[0], loose) {
        if a != [] {
          SubsequenceSkip(a, [docs[0]] + b);
        }
      }
    }
  }

  /** A blank query (white space only) imposes no condition. */
  lemma BlankQueryIgnored(doc: Record, c: Criteria)
    requires Truthy(c.query) && forall i :: 0 <= i < |c.query.value| ==> IsJsSpace(c.query.value[i])
    ensures Keep(doc, c) == Keep(doc, c.(query := None))
  {
  }

  /** The terms of `q + ' ' + w` are those of `q`, then those of `w`. */
  lemma SearchTermsAppend(q: string, w: string)
    ensures SearchTerms(q + " " + w) == SearchTerms(q) + SearchTerms(w)
  {
    LowerAppend(q + " ", w);
    LowerAppend(q, " ");
    assert Lower(" ") == " ";
    SplitOnAround(Lower(q), Lower(w), ' ');
    NonEmptyAppend(SplitOn(Lower(q), ' '), SplitOn(Lower(w), ' '));
  }

  /** A query with a non-blank start stays non-blank when a term is added. */
  lemma HasQueryAppend(q: string, w: string)
    requires Trim(q) != []
    ensures Trim(q + " " + w) != []
  {
    var i :| 0 <= i < |q| && !IsJsSpace(q[i]);
    assert (q + " " + w)[i] == q[i];
  }

  lemma AllTermsInPrefix(t: seq<string>, u: seq<string>, text: string)
    requires AllTermsIn(t + u, text)
    ensures AllTermsIn(t, text)
  {
    forall k | 0 <= k < |t| ensures Contains(text, t[k]) {
      assert (t + u)[k] == t[k];
    }
  }

  /** Adding a term to the query never lets in a document that was left out before. */
  lemma AddedTermNarrows(doc: Record, c: Criteria, w: string)
    requires Truthy(c.query)
    ensures Keep(doc, c.(query := Some(c.query.value + " " + w))) ==> Keep(doc, c)
  {
    var q := c.query.value;
    var c' := c.(query := Some(q + " " + w));
    if HasQuery(c) {
      HasQueryAppend(q, w);
      SearchTermsAppend(q, w);
      if Keep(doc, c') {
        AllTermsInPrefix(SearchTerms(q), SearchTerms(w), Searchable(doc));
      }
    }
  }

  /** Setting a filter that was not set never lets in a document that was left out before. */
  lemma AddedFilterNarrows(doc: Record, c: Criteria, category: string, subcategory: string)
    ensures !Truthy(c.category) ==> (Keep(doc, c.(category := Some(category))) ==> Keep(doc, c))
    ensures !Truthy(c.subcategory) ==> (Keep(doc, c.(subcategory := Some(subcategory))) ==> Keep(doc, c))
  {
  }

  /** The summary cell: the first 150 characters and `'...'` when the summary is longer, or `'—'` when there is none. */
  function SummaryCell(doc: Record): (cell: string)
    ensures Truthy(Get(doc, "summary")) ==> cell == Preview(Get(doc, "summary").value, 150)
    ensures !Truthy(Get(doc, "summary")) ==> cell == "—"
  {
    var summary := Get(doc, "summary");
    if Truthy(summary) then Preview(summary.value, 150) else "—"
  }

  /** One row of the table: file name, category badge (when there is one) and summary cell. */
  datatype Row = Row(filename: Option<string>, category: Option<string>, summary: string)

  /** The row of a document: its file name, its category only when non-empty, and its summary cell. */
  function RowOf(doc: Record): (row: Row)
    ensures row.filename == Get(doc, "filename")
    ensures row.category.Some? <==> Truthy(Get(doc, "category"))
    ensures row.category.Some? ==> row.category == Get(doc, "category")
    ensures row.summary == SummaryCell(doc)
  {
    Row(Get(doc, "filename"), if Truthy(Get(doc, "category")) then Get(doc, "category") else None, SummaryCell(doc))
  }

  /** What the component renders. `filteredFrom` is the total shown in the filtered note, when the note is shown. */
  datatype View =
    | Spinner
    | NoDocuments
    | NoResults
    | Table(count: nat, filteredFrom: Option<nat>, rows: seq<Row>)

  function Render(documents: Option<seq<Record>>, loading: bool, c: Criteria): View
  {
    if loading then Spinner
    else if documents.None? || documents.value == [] then NoDocuments
    else
      var kept := Filter(documents.value, c);
      if kept == [] then NoResults
      else
        var anySet := Truthy(c.query) || Truthy(c.category) || Truthy(c.subcategory);
        Table(|kept|, if anySet && |kept| != |documents.value| then Some(|documents.value|) else None,
              seq(|kept|, k requires 0 <= k < |kept| => RowOf(kept[k])))
  }

  /**
   * The spinner while loading; the no-documents message when nothing was
   * loaded; the no-results message when the filter keeps nothing; otherwise
   * a table that lists the kept documents in order, whose filtered note
   * shows the total exactly when some filter or query is set and the
   * filter dropped documents.
   */
  lemma RenderSpec(documents: Option<seq<Record>>, loading: bool, c: Criteria)
    ensures var v := Render(documents, loading, c);
      && (v.Spinner? <==> loading)
      && (v.NoDocuments? <==> !loading && (documents.None? || documents.value == []))
      && (v.NoResults? <==> !loading && documents.Some? && documents.value != [] && FilteredDocuments(documents, c) == [])
      && (v.Table? ==>
        && documents.Some?
        && 0 < v.count == |FilteredDocuments(documents, c)| && |v.rows| == v.count
        && (forall k :: 0 <= k < v.count ==> v.rows[k] == RowOf(FilteredDocuments(documents, c)[k]))
        && (v.filteredFrom.Some? <==>
              (Truthy(c.query) || Truthy(c.category) || Truthy(c.subcategory)) && v.count < |documents.value|)
        && (v.filteredFrom.Some? ==> v.filteredFrom.value == |documents.value|))
  {
  }
}
