# Document search: a verified model of its text, list and query logic

The document-search application has a React front end and a Python back end
that searches BigQuery tables of documents and e-mails. This project models,
in Dafny, the logic of that application that computes on strings and lists.
It proves what that logic promises.

- **`DocumentPanel`**: the document viewer's text rendering.
  - The URL scanner `processTextWithLinks` cuts a text into text parts and
    URL parts. The pattern is `<https?://…>` or a bare `https?://…`. It is
    written as a hand-coded scanner, and the loop is an imperative method.
  - `cleanUrl` turns a URL part into a link target.
  - `highlightText` splits a text part around the escaped,
    case-insensitive alternation of the query terms and marks the matches.
  - `Highlight` puts the two together, and `formatDate` handles a missing
    date.
- **`Highlighting`**: JavaScript's `String.prototype.split` around a
  capturing alternation of literal terms, matched case-insensitively. At
  each position the first alternative that matches wins. Also the regular
  expression escaping of the terms, with a reader that shows the escaped
  alternation reads back as the terms.
- **`ResultItem`**: the search-result card. Its `Highlight` builds the
  pattern from `query.split(' ')` without escaping, and marks a piece
  equal to the whole query or to one term. The card shows either the
  summary or a 500-character body preview; a row without `Body` makes
  `result.Body.substring` throw, and the card fails to render.
- **`DocumentList`**: the document filter (category, subcategory, every
  query term in the searchable text), the list view and its "filtered"
  note, and the 150-character summary cell.
- **`Csv`**: the CSV export that both the bookmark list and the result list
  use. It has `escapeCsvValue`, the header from the first record's keys,
  and one line per record from that record's own values. The module also
  holds a reader that follows section 2 of RFC 4180 (with LF line breaks),
  against which the export is proved to read back.
- **`BookmarkList`**, **`ResultList`**: the bookmark view, the
  distinct-sender and distinct-recipient counts, and the export of the
  results.
- **`Sidebar`**: the filter-state update `handleChange`, the mapping
  between the "all" option and `null`, the option lists, and the date
  checkbox.
- **`Backend`** (`backend/main.py`):
  - the configuration lookup (`load_dataset_tables`, `get_table_config`);
  - the password check;
  - the SQL `WHERE` clause and parameter list that `search_emails` builds.
    The builder loop is imperative, and the plan of the query is a pure
    function of the request.
- **`Text`**, **`Common`**: the JavaScript and Python string operations
  used above, as they behave, plus optional values, records and
  truthiness. The operations are `toLowerCase` (ASCII), `split(' ')`,
  `filter`, `trim`, Python's `split()`, `join` and `substring`.

A record is an ordered list of key and optional-string pairs, in the
record's own key order. Every value the source reads from outside is a
parameter of the model:
- environment and secrets values;
- the parsed `DATASET_TABLES` JSON;
- the summary-table probe;
- today's date;
- the locale date formatter.

## Model

| member | source | states |
|---|---|---|
| Common.OrEmpty | frontend/src/components/DocumentList.jsx:26-28 | `x \|\| ''` is the value when it is truthy and the empty string otherwise |
| Common.Get | frontend/src/components/DocumentList.jsx:13 | a property read finds a field with that key, and gives nothing when no field has the key |
| Text.SplitOn | frontend/src/components/DocumentList.jsx:24 | `split(' ')` gives at least one piece; joining the pieces with the separator gives back the string; no piece holds the separator |
| Text.SplitOnAround | frontend/src/components/DocumentList.jsx:24 | splitting `a + ' ' + b` gives the pieces of `a` followed by the pieces of `b` |
| Text.NonEmpty | frontend/src/components/DocumentList.jsx:24 | `filter(t => t.length > 0)` keeps exactly the non-empty pieces |
| Text.NonEmptyAppend | frontend/src/components/DocumentList.jsx:24 | the filter distributes over concatenation |
| Text.TrimStart | frontend/src/components/DocumentList.jsx:23 | the result is a suffix of the input that does not start with white space, and only white space was removed |
| Text.TrimEnd | frontend/src/components/DocumentList.jsx:23 | the result is a prefix of the input that does not end with white space, and only white space was removed |
| Text.Trim | frontend/src/components/DocumentList.jsx:23 | `trim()` is empty exactly when the string is all white space |
| Text.TrimUnchanged | frontend/src/components/DocumentList.jsx:23 | a string without white space at either end is its own trim |
| Text.WordLength | backend/main.py:287 | the length of the leading word: no white space inside it, white space or the end after it |
| Text.PySplit | backend/main.py:287 | `str.split()` gives non-empty words without white space, and no words exactly when the string is all white space |
| Text.PySplitRebuilds | backend/main.py:287 | the words, put back with runs of white space between them (non-empty between two words, possibly empty before the first and after the last), give back the string; so the words are the maximal runs without white space, in order |
| Text.Preview | frontend/src/components/ResultItem.jsx:42-43 | a string within the limit is shown whole; a longer one shows its first `limit` characters followed by `...` |
| Highlighting.FirstOccurring | frontend/src/components/DocumentPanel.jsx:65 | the chosen alternative fits in the string at that position |
| Highlighting.FirstOccurringSpec | frontend/src/components/DocumentPanel.jsx:65 | the alternation matches at a position with its first alternative that occurs there (ignoring ASCII case), or not at all if none occurs |
| Highlighting.SplitFromConcat | frontend/src/components/DocumentPanel.jsx:66 | the pieces of the split from any point concatenate to the rest of the string |
| Highlighting.SplitConcat | frontend/src/components/DocumentPanel.jsx:66 | `str.split(regex)` with a capturing group concatenates back to `str` |
| Highlighting.Split | frontend/src/components/DocumentPanel.jsx:66 | `str.split(regex)` with a capturing group: the pieces outside and inside the matches in turn; what they promise is proved in `Highlighting.SplitConcat` and `Highlighting.SplitAlternates` |
| Highlighting.AlternatesLast | frontend/src/components/DocumentPanel.jsx:66 | a stretch to the end where no alternative occurs is a split on its own |
| Highlighting.AlternatesCons | frontend/src/components/DocumentPanel.jsx:66 | a gap without occurrences, then the first match, then a split of the rest, is a split |
| Highlighting.SplitFromAlternates | frontend/src/components/DocumentPanel.jsx:66 | the split from a point alternates gaps without occurrences and leftmost first-alternative matches |
| Highlighting.SplitAlternates | frontend/src/components/DocumentPanel.jsx:66 | with non-empty terms, the pieces are in turn a gap in which no term occurs and the match of the first term occurring at the next position, ending with a gap |
| Highlighting.AlternatesMarksMatches | frontend/src/components/DocumentPanel.jsx:69 | in such a split, a piece equals some term (ignoring case) exactly when it is a match (odd index) |
| Highlighting.MatchIsTerm | frontend/src/components/DocumentPanel.jsx:69 | a matched piece equals its term up to case |
| Highlighting.GapIsNoTerm | frontend/src/components/DocumentPanel.jsx:69 | a gap in which no term occurs equals no term, even up to case |
| Highlighting.Escape | frontend/src/components/DocumentPanel.jsx:65 | escaping never shortens a term |
| Highlighting.EscapeAll | frontend/src/components/DocumentPanel.jsx:65 | one escaped term per term |
| Highlighting.ReadEscaped | frontend/src/components/DocumentPanel.jsx:65 | the reader reads an escaped term back as the term, whatever follows |
| Highlighting.ReadJoinedFrom | frontend/src/components/DocumentPanel.jsx:65 | the escaped terms joined by `\|` read back as the terms |
| Highlighting.EscapedAlternation | frontend/src/components/DocumentPanel.jsx:65 | the pattern built from escaped terms has exactly the terms as its alternatives (one empty alternative when there are none) |
| Highlighting.EscapePlain | frontend/src/components/DocumentPanel.jsx:65 | a term without metacharacters is its own escape |
| DocumentPanel.SchemeLen | frontend/src/components/DocumentPanel.jsx:25 | `https?://` has length 0, 7 or 8, and fits in the text |
| DocumentPanel.SchemeLenSpec | frontend/src/components/DocumentPanel.jsx:25 | length 8 exactly at `https://`, length 7 exactly at `http://` |
| DocumentPanel.RunLen | frontend/src/components/DocumentPanel.jsx:25 | the run of `[^\s>]` or `[^\s<>]` stays within the text |
| DocumentPanel.RunLenSpec | frontend/src/components/DocumentPanel.jsx:25 | the run is maximal: every character inside it belongs to the class, and the one after it does not |
| DocumentPanel.BracketMatch | frontend/src/components/DocumentPanel.jsx:25 | the bracketed alternative's match stays within the text |
| DocumentPanel.BareMatch | frontend/src/components/DocumentPanel.jsx:25 | the bare alternative's match stays within the text |
| DocumentPanel.MatchLen | frontend/src/components/DocumentPanel.jsx:25 | the pattern's match at a position stays within the text |
| DocumentPanel.Exec | frontend/src/components/DocumentPanel.jsx:31 | `exec` from `lastIndex` finds a non-empty match at or after it, within the text |
| DocumentPanel.Attempt | frontend/src/components/DocumentPanel.jsx:31 | trying one position and then the rest finds a non-empty match at or after it |
| DocumentPanel.ExecFound | frontend/src/components/DocumentPanel.jsx:31 | the match found is the pattern's match at its index |
| DocumentPanel.ExecLeftmost | frontend/src/components/DocumentPanel.jsx:31 | nothing matches between `lastIndex` and the match found: it is the leftmost |
| DocumentPanel.MatchLenSound | frontend/src/components/DocumentPanel.jsx:25 | whatever the pattern takes is a URL of one of the two shapes, taken as the pattern takes it |
| DocumentPanel.BracketMatchSound | frontend/src/components/DocumentPanel.jsx:25 | the bracketed alternative takes `<http(s)://X>` with `X` non-empty and free of white space and `>` |
| DocumentPanel.BareMatchSound | frontend/src/components/DocumentPanel.jsx:25 | the bare alternative, tried when the bracketed one fails, takes `http(s)://Y` with `Y` a maximal non-empty run free of white space, `<` and `>` |
| DocumentPanel.SchemeOfShape | frontend/src/components/DocumentPanel.jsx:25 | text of a URL shape starts with a scheme followed by characters of the run class |
| DocumentPanel.MatchLenComplete | frontend/src/components/DocumentPanel.jsx:25 | the pattern matches wherever a URL shape starts |
| DocumentPanel.NoMatchNoUrl | frontend/src/components/DocumentPanel.jsx:31-37 | no URL shape starts between `lastIndex` and the next match |
| DocumentPanel.TakenIsMatch | frontend/src/components/DocumentPanel.jsx:25 | a URL as the pattern takes it is exactly the pattern's match there |
| DocumentPanel.BracketFormMatches | frontend/src/components/DocumentPanel.jsx:25 | a bracketed URL is what the bracketed alternative takes |
| DocumentPanel.BareFormMatches | frontend/src/components/DocumentPanel.jsx:25 | a maximal bare URL is what the pattern takes |
| DocumentPanel.MatchNeedsStart | frontend/src/components/DocumentPanel.jsx:25 | the pattern matches only where `<` or `h` stands |
| DocumentPanel.Linkify | frontend/src/components/DocumentPanel.jsx:22-44 | the parts are empty exactly when the text is absent or empty |
| DocumentPanel.ProcessTextWithLinks | frontend/src/components/DocumentPanel.jsx:22-44 | the `while (exec)` loop that pushes the text before each match, then the match, then the tail, yields the scanner's parts |
| DocumentPanel.ScannedMatch | frontend/src/components/DocumentPanel.jsx:32-36 | one turn of the loop with a match pushes the text before it (if any) and the URL, and moves `lastIndex` past the match |
| DocumentPanel.ScannedNoMatch | frontend/src/components/DocumentPanel.jsx:39-41 | when `exec` finds nothing, the tail is pushed if non-empty |
| DocumentPanel.ScannedIsLinkify | frontend/src/components/DocumentPanel.jsx:31-41 | the loop from any state appends exactly the scanner's parts from `lastIndex` |
| DocumentPanel.LinkifyFromMatch | frontend/src/components/DocumentPanel.jsx:31-37 | the parts from a point are the text before the next match, the match, then the parts after it |
| DocumentPanel.ExecTaken | frontend/src/components/DocumentPanel.jsx:31-35 | a match found by `exec` is a URL as the pattern takes it |
| DocumentPanel.LinkifyFromSegments | frontend/src/components/DocumentPanel.jsx:31-41 | the scanner's parts are a cut of the text: each part is the text at its position; a URL part is what the pattern takes there; a text part is non-empty, holds the start of no URL and is followed by a URL part or nothing |
| DocumentPanel.SegmentsUnique | frontend/src/components/DocumentPanel.jsx:25-41 | there is only one such cut from a position |
| DocumentPanel.SegmentsEnd | frontend/src/components/DocumentPanel.jsx:39 | a cut is empty exactly at the end of the text |
| DocumentPanel.HeadsAgree | frontend/src/components/DocumentPanel.jsx:25 | two cuts from the same position start with the same part |
| DocumentPanel.HeadKinds | frontend/src/components/DocumentPanel.jsx:25 | two cuts from the same position start with parts of the same kind |
| DocumentPanel.UrlHeadNotText | frontend/src/components/DocumentPanel.jsx:25 | where a URL starts, no text part can start |
| DocumentPanel.TextLengthsAgree | frontend/src/components/DocumentPanel.jsx:32-33 | two text parts at the same position have the same length: both end at the next URL |
| DocumentPanel.TextEndsAtUrl | frontend/src/components/DocumentPanel.jsx:32-35 | a text part that does not reach the end is followed by a URL that starts where it ends |
| DocumentPanel.SegmentsConcat | frontend/src/components/DocumentPanel.jsx:31-41 | the contents of a cut concatenate to the rest of the text |
| DocumentPanel.SegmentsWellFormed | frontend/src/components/DocumentPanel.jsx:32-41 | in a cut, no text part is empty and no two text parts are adjacent |
| DocumentPanel.LinkifyParts | frontend/src/components/DocumentPanel.jsx:31-41 | the parts' contents reproduce the text exactly; no text part is empty; a URL part separates any two text parts |
| DocumentPanel.LinkifyCharacterized | frontend/src/components/DocumentPanel.jsx:22-44 | a list of parts is a cut of the text if and only if it is the scanner's result |
| DocumentPanel.ExampleRunInside | frontend/src/components/DocumentPanel.jsx:25 | in `See <https://x.com/a b> now` the run after the scheme stops at the space |
| DocumentPanel.ExampleRunBare | frontend/src/components/DocumentPanel.jsx:25 | the bare run after the scheme also stops at the space |
| DocumentPanel.ExampleNoBracket | frontend/src/components/DocumentPanel.jsx:25 | the bracketed alternative fails at `<`, and nothing matches there |
| DocumentPanel.ExampleBare | frontend/src/components/DocumentPanel.jsx:25 | the bare URL `https://x.com/a` is taken at position 5 |
| DocumentPanel.ExampleFirstMatch | frontend/src/components/DocumentPanel.jsx:31 | the first `exec` finds index 5, length 15 |
| DocumentPanel.ExampleNoMoreMatches | frontend/src/components/DocumentPanel.jsx:31 | the next `exec` finds nothing |
| DocumentPanel.ExampleSlices | frontend/src/components/DocumentPanel.jsx:33-40 | the slices are `See <`, `https://x.com/a` and ` b> now` |
| DocumentPanel.LinkifyExample | frontend/src/components/DocumentPanel.jsx:22-44 | the parts are text `See <`, URL `https://x.com/a`, text ` b> now` |
| DocumentPanel.StripAngles | frontend/src/components/DocumentPanel.jsx:6 | `replace(/^<\|>$/g, '')` removes at most one leading `<` and one trailing `>`, and nothing else |
| DocumentPanel.CleanUrl | frontend/src/components/DocumentPanel.jsx:6 | `cleanUrl` has no white space at either end, and is empty exactly when what is left after removing the angle brackets is all white space |
| DocumentPanel.CleanUrlOfShape | frontend/src/components/DocumentPanel.jsx:6 | the link target of a URL part is the URL without its angle brackets, starting with `http://` or `https://` |
| DocumentPanel.QueryTerms | frontend/src/components/DocumentPanel.jsx:64 | the terms are non-empty and hold no space |
| DocumentPanel.TermPattern | frontend/src/components/DocumentPanel.jsx:65 | the alternatives are the terms, or one empty alternative when there are no terms |
| DocumentPanel.HighlightText | frontend/src/components/DocumentPanel.jsx:63-74 | `highlightText(str)`: the pieces of `str.split(regex)`, each marked when it equals a term up to case; what this promises is proved in `DocumentPanel.HighlightTextSpec` |
| DocumentPanel.HighlightTextSpec | frontend/src/components/DocumentPanel.jsx:63-74 | the runs concatenate to the part; with terms, they alternate gaps in which no term occurs and first-term matches, and a run is marked exactly when it is a match; without terms nothing is marked |
| DocumentPanel.Render | frontend/src/components/DocumentPanel.jsx:78-82 | a link exactly for a URL part, to its cleaned target; without a query, a text part is one unmarked run of its content |
| DocumentPanel.Highlight | frontend/src/components/DocumentPanel.jsx:46-85 | one element per part of `processTextWithLinks(text)`; what this promises is proved in `DocumentPanel.HighlightSpec` |
| DocumentPanel.HighlightSpec | frontend/src/components/DocumentPanel.jsx:46-85 | one element per part: a URL part becomes a link to its cleaned target, a text part becomes runs that concatenate to it, and nothing is marked without a query |
| DocumentPanel.RenderPart | frontend/src/components/DocumentPanel.jsx:78-82 | a URL part becomes a link to its cleaned target; a text part becomes runs that concatenate to it, none marked without a query |
| DocumentPanel.FormatDate | frontend/src/components/DocumentPanel.jsx:93-101 | `N/A` for a missing or empty date; otherwise the formatter's result (`Invalid Date` for an unparseable date); the value itself only if the formatter throws |
| ResultItem.EscapeAllPlain | frontend/src/components/ResultItem.jsx:6 | terms without metacharacters are unchanged by escaping, so the unescaped pattern reads the same |
| ResultItem.Pattern | frontend/src/components/ResultItem.jsx:6 | the alternatives of the pattern are exactly `query.split(' ')` |
| ResultItem.GapNotWholeQuery | frontend/src/components/ResultItem.jsx:10 | a gap cannot equal the whole query up to case, since the query starts with its first term |
| ResultItem.HighlightRunsSpec | frontend/src/components/ResultItem.jsx:3-15 | no runs for an empty text; one unmarked run for an empty query; otherwise the runs concatenate to the text, alternate gaps and matches, and a run is marked exactly when it is a match |
| ResultItem.AlternatesGapsNotQuery | frontend/src/components/ResultItem.jsx:10 | no gap equals the whole query up to case |
| ResultItem.HighlightRuns | frontend/src/components/ResultItem.jsx:3-15 | the runs of the card's `Highlight`; what they promise is proved in `ResultItem.HighlightRunsSpec` |
| ResultItem.ResultBody | frontend/src/components/ResultItem.jsx:36-45 | a body preview only for a row that has `Body`, with `...` exactly when the body is longer than 500 characters |
| ResultItem.ResultBodySpec | frontend/src/components/ResultItem.jsx:36-45 | the summary is shown exactly when `showSummary` is set and the summary is non-empty; otherwise the card fails (`TypeError`) exactly when the row has no `Body`, and shows the body's 500-character preview, with `...` exactly when it is longer |
| ResultItem.SearchRowFails | frontend/src/components/ResultItem.jsx:37-43 | a row shaped like those of `/api/search` (`text`, no `Body`) with a null summary makes the card fail even with summaries shown |
| DocumentList.Keep | frontend/src/components/DocumentList.jsx:11-36 | the callback of `documents.filter`: the category, subcategory and query tests in turn; what it promises is proved in `DocumentList.Filter`, `DocumentList.AddedTermNarrows` and `DocumentList.AddedFilterNarrows` |
| DocumentList.Filter | frontend/src/components/DocumentList.jsx:11-36 | a document is in the result exactly when it is in the input and passes the category, subcategory and query tests |
| DocumentList.FilteredDocuments | frontend/src/components/DocumentList.jsx:8-10 | absent documents give an empty list; otherwise no more documents than given |
| DocumentList.FilterSubsequence | frontend/src/components/DocumentList.jsx:11 | the result is an order-preserving subsequence of the documents |
| DocumentList.FilterIdempotent | frontend/src/components/DocumentList.jsx:11-36 | filtering the result again with the same criteria changes nothing |
| DocumentList.FilterNarrows | frontend/src/components/DocumentList.jsx:11-36 | stricter criteria keep a subsequence of what looser criteria keep |
| DocumentList.BlankQueryIgnored | frontend/src/components/DocumentList.jsx:23 | a query of white space only imposes no text condition |
| DocumentList.SearchTermsAppend | frontend/src/components/DocumentList.jsx:24 | the terms of `q + ' ' + w` are the terms of `q` followed by those of `w` |
| DocumentList.HasQueryAppend | frontend/src/components/DocumentList.jsx:23 | adding a word keeps a non-blank query non-blank |
| DocumentList.AllTermsInPrefix | frontend/src/components/DocumentList.jsx:32 | if every term of a longer list is in the text, so is every term of its prefix |
| DocumentList.AddedTermNarrows | frontend/src/components/DocumentList.jsx:23-32 | adding a term to the query never lets a new document through |
| DocumentList.AddedFilterNarrows | frontend/src/components/DocumentList.jsx:13-20 | setting a category or subcategory filter never lets a new document through |
| DocumentList.SummaryCell | frontend/src/components/DocumentList.jsx:84-88 | the first 150 characters of a non-empty summary, with `...` exactly when it is longer; `—` otherwise |
| DocumentList.RowOf | frontend/src/components/DocumentList.jsx:69-89 | a row shows the file name, the category badge exactly when the category is non-empty, and the summary cell |
| DocumentList.Render | frontend/src/components/DocumentList.jsx:39-91 | what the list renders; what this promises is proved in `DocumentList.RenderSpec` |
| DocumentList.RenderSpec | frontend/src/components/DocumentList.jsx:39-91 | the spinner exactly while loading; the no-documents message exactly when nothing is loaded; the no-results message exactly when the filter keeps nothing; otherwise the table lists the filtered documents in order with their count, and the "filtered" note shows the total exactly when a filter or query is set and the count differs from the total |
| Csv.EscapeValue | frontend/src/components/BookmarkList.jsx:11-18 | null becomes empty; a value without `,`, `"` or newline is unchanged; any other value is wrapped in quotes |
| Csv.EscapeRow | frontend/src/components/BookmarkList.jsx:23 | `Object.values(row).map(escapeCsvValue)`: one cell per value; that the cells read back as the values, in order, is proved in `Csv.CsvRoundTrip` |
| Csv.CsvText | frontend/src/components/BookmarkList.jsx:20-24 | the header line, then one line per record; what this promises is proved in `Csv.HeaderFirst` and `Csv.CsvRoundTrip` |
| Csv.HeaderFirst | frontend/src/components/BookmarkList.jsx:20-24 | the CSV starts with the first record's keys joined by `,` |
| Csv.Export | frontend/src/components/BookmarkList.jsx:7-24 | no CSV for absent or empty bookmarks; otherwise one that starts with the header |
| Csv.ParsePlain | frontend/src/components/BookmarkList.jsx:17 | an unquoted value reads back as its own characters |
| Csv.ParseQuotedBody | frontend/src/components/BookmarkList.jsx:15 | the body with every `"` doubled reads back, inside quotes, as the original text |
| Csv.ParseField | frontend/src/components/BookmarkList.jsx:11-18 | an escaped value without carriage return reads back as the value, and null as an empty field |
| Csv.ParseRow | frontend/src/components/BookmarkList.jsx:23 | a row of escaped values joined by `,` reads back as one record of those values |
| Csv.ParseLines | frontend/src/components/BookmarkList.jsx:21-24 | rows joined by newlines read back as their records, in order |
| Csv.HeaderRow | frontend/src/components/BookmarkList.jsx:20 | keys without special characters written unescaped read like escaped values |
| Csv.CsvLines | frontend/src/components/BookmarkList.jsx:20-24 | the CSV is the header line followed by one line per record |
| Csv.CsvRoundTrip | frontend/src/components/BookmarkList.jsx:20-24 | read by section 2 of RFC 4180, the CSV gives the first record's keys, then each record's own values in its own key order, with nulls as empty fields |
| Csv.CarriageReturnUnquoted | frontend/src/components/BookmarkList.jsx:14 | a value holding `\r` is left unquoted, and an RFC 4180 reader rejects it |
| BookmarkList.Render | frontend/src/components/BookmarkList.jsx:35-91 | the empty notice for absent or no bookmarks; otherwise the count and one row per bookmark in order, whose remove control passes `md5` and whose summary cell is the 150-character preview |
| ResultList.Column | frontend/src/components/ResultList.jsx:9-10 | `results.map(r => r.key)`: one value per result, in order |
| ResultList.DistinctBounds | frontend/src/components/ResultList.jsx:9-10 | the number of distinct values is at most the number of values, and at least one for a non-empty list |
| ResultList.RenderStats | frontend/src/components/ResultList.jsx:5-10 | no results exactly for an absent or empty list; otherwise the total is the result count and both distinct counts lie between 1 and it |
| ResultList.HandleExport | frontend/src/components/ResultList.jsx:15-31 | the CSV starts with the first result's keys |
| ResultList.ExportReadsBack | frontend/src/components/ResultList.jsx:27-31 | the CSV reads back as `results.length + 1` records: the header, then each result's values |
| Sidebar.HandleChange | frontend/src/components/Sidebar.jsx:25-32 | `next` equals the filters except at `key`, which holds `value`; `onSearch(next)` is called exactly for a category key when `onSearch` is a function |
| Sidebar.HandleChangeSame | frontend/src/components/Sidebar.jsx:27 | setting a key to its current value leaves the filters as they were |
| Sidebar.HandleChangeUndo | frontend/src/components/Sidebar.jsx:27 | setting a key back to its old value restores the filters |
| Sidebar.Selection | frontend/src/components/Sidebar.jsx:76 | the "all" label is stored as `null`; any other option is stored as it is |
| Sidebar.Displayed | frontend/src/components/Sidebar.jsx:75 | the select shows the stored value, or the "all" label when it is null or empty |
| Sidebar.SelectDisplayed | frontend/src/components/Sidebar.jsx:75-76 | selecting what is shown stores the value that was there |
| Sidebar.DisplaySelected | frontend/src/components/Sidebar.jsx:75-76 | what is selected is what is shown afterwards |
| Sidebar.Options | frontend/src/components/Sidebar.jsx:16-17 | the "all" label, then the server's list, with a missing list treated as empty |
| Sidebar.ShownIffListed | frontend/src/components/Sidebar.jsx:71 | a select is shown exactly when the server listed something |
| Sidebar.DateToggle | frontend/src/components/Sidebar.jsx:105-111 | checking sets both dates to today; unchecking sets both to null; other fields are unchanged |
| Sidebar.DateToggleShows | frontend/src/components/Sidebar.jsx:104-111 | the box shows checked exactly after it was checked |
| Backend.Setting | backend/main.py:43-45 | the environment value when it is truthy, otherwise the secrets value |
| Backend.AppPassword | backend/main.py:45 | the environment value, else the secrets value, else `password123` |
| Backend.CheckAuth | backend/main.py:136-139 | authenticated exactly when the password equals the configured one; otherwise HTTP 401 |
| Backend.LegacyTables | backend/main.py:62-73 | a truthy `TABLE` gives exactly one entry `default` with that table as label and table and `SUMMARY` as summary; otherwise no entries |
| Backend.LoadDatasetTables | backend/main.py:51-73 | the parsed `DATASET_TABLES` when it is set and parses, otherwise the legacy entries |
| Backend.FindById | backend/main.py:82-85 | the index of the first entry with that id, or none when no entry has it |
| Backend.GetTableConfig | backend/main.py:77-89 | `(None, None)` without entries; the table and summary of the first entry with the given id; otherwise those of the first entry |
| Backend.LegacyConfig | backend/main.py:62-89 | with only the legacy settings, any id gives `TABLE` and `SUMMARY` |
| Backend.NatString | backend/main.py:291 | the decimal form of `i` has at least one digit, two from 10 on |
| Backend.NatStringInjective | backend/main.py:291 | distinct indices give distinct `keyword_i` names |
| Backend.SearchFields | backend/main.py:280-285 | `filename` for "Filename", `text` for "Text", both otherwise; at least one field |
| Backend.KeywordCondition | backend/main.py:290-293 | one keyword's condition is a non-empty parenthesised `OR` of its fields |
| Backend.KeywordConditions | backend/main.py:289-293 | one condition per keyword |
| Backend.KeywordParams | backend/main.py:294 | one parameter per keyword |
| Backend.DateFromParam | backend/main.py:299-301 | a `date_from` parameter exactly when the date is set |
| Backend.DateToParam | backend/main.py:303-305 | a `date_to` parameter exactly when the date is set |
| Backend.CategoryParam | backend/main.py:307-309 | a `category` parameter exactly when the filter is truthy |
| Backend.SubcategoryParam | backend/main.py:311-313 | a `subcategory` parameter exactly when the filter is truthy and the summary table is joined |
| Backend.QueryParams | backend/main.py:287-294 | the `k`-th keyword parameter is named `keyword_k` |
| Backend.KeywordSearch | backend/main.py:287-296 | the loop over `enumerate(keywords)` gives the keyword conditions joined by ` AND ` and one parameter per keyword, in order |
| Backend.AddDateFilters | backend/main.py:299-305 | the date conditions and parameters are appended to those so far |
| Backend.AddCategoryFilters | backend/main.py:307-313 | the category and subcategory conditions and parameters are appended to those so far |
| Backend.BuildWhere | backend/main.py:261-357 | the conditions and parameters appended step by step give the clause (the ` AND `-join, or `1=1` for none) and the parameter list ending with `limit` |
| Backend.Conditions | backend/main.py:279-313 | `where_conditions`: the keyword condition of a truthy query, then the filter conditions; what they promise is proved in `Backend.WhereClauseShape` and `Backend.ClauseIndependentOfValues` |
| Backend.WhereClause | backend/main.py:315 | the conditions joined by ` AND `, or `1=1` without conditions; what this promises is proved in `Backend.WhereClauseShape` |
| Backend.Params | backend/main.py:287-357 | `query_params`: keywords, filters, then the limit; what this promises is proved in `Backend.LimitLast`, `Backend.TailParamNames` and `Backend.ParamNamesDistinct` |
| Backend.PlanSearch | backend/main.py:255-315 | HTTP 400 without a table; otherwise that table, joined with the summary table exactly when one is configured and found, with the clause as written: non-empty for a query with keywords or no query; for a query of white space only, empty without filters and opening with ` AND ` with them |
| Backend.FixedPlanSearch | backend/main.py:255-315 | the same outcome, table, join and parameters as `Backend.PlanSearch`, with the corrected clause: never empty, equal to the clause as written for a query with keywords or no query, and that of the request without a query for a blank one |
| Backend.WhereClauseShape | backend/main.py:279-315 | the clause as written is non-empty unless the query is blank; for a blank query it is empty exactly when no filter is set, and otherwise opens with ` AND ` |
| Backend.LimitLast | backend/main.py:357 | `limit` is always the last parameter |
| Backend.TailParamNames | backend/main.py:299-357 | after the keywords come `date_from`, `date_to`, `category`, `subcategory` (each when present) and `limit`, in that order |
| Backend.KeywordNamesDistinct | backend/main.py:294 | keyword parameter names are pairwise distinct |
| Backend.ParamNamesDistinct | backend/main.py:289-357 | no parameter name occurs twice |
| Backend.ClauseIndependentOfValues | backend/main.py:289-315 | requests that differ only in their values give the same clause and the same parameter names: user values reach the query only as parameters |
| Backend.SubcategoryNeedsSummary | backend/main.py:311-313 | the subcategory is filtered on exactly when it is set and the summary table is joined |
| Backend.BlankQueryEmptyCondition | backend/main.py:279-296 | as written, the query `" "` contributes one empty condition, and the clause is empty |
| Backend.FixedConditionsNonEmpty | backend/main.py:279-315 | with the keyword condition only for a query that has keywords, no condition is empty and neither is the clause |
| Backend.FilterConditionsNonEmpty | backend/main.py:299-313 | no filter condition is empty |
| Backend.KeywordClauseNonEmpty | backend/main.py:289-296 | the keyword clause of at least one keyword is non-empty |
| Backend.FixedAgrees | backend/main.py:279-315 | the corrected clause equals the clause as written whenever the query has keywords |
| Backend.FixedBlankQuery | backend/main.py:279-315 | for a query without keywords, the corrected clause is the clause of the request without a query |

## Left out

- Backend I/O is not modelled: the BigQuery client and query execution, FastAPI routing and CORS, reading the environment, secrets and TOML, JSON parsing, and row-to-dict and date serialisation. Their results are parameters (`env`, `secret`, `parse`, `summaryExists`), and the SQL text around the `WHERE` clause is not modelled.
- The network fetches (`handleSearch`, `fetchCategories`) are not modelled. The category lists they deliver are parameters of `Sidebar.Options`.
- Browser downloads are not modelled (Blob, object URLs, anchor clicks, and a file name with today's date). The model stops at the CSV text. Today's date is a parameter of `Sidebar.DateToggle`.
- DocumentPanel.FormatDate: `new Date(…).toLocaleDateString()` depends on JavaScript's date parser and the locale, so it is a parameter. Its result (`Invalid Date` for an unparseable date) is what the function returns; the value itself is returned only if the formatter throws. Only the branching around it is modelled.
- The minimum and maximum date in the result statistics are not modelled: they depend on JavaScript date conversion.
- The JavaScript regular expression engine is not modelled. Only its behaviour on the fixed patterns is modelled:
  - the URL pattern, as a hand-coded scanner;
  - the alternation of literal terms, matched at each position with the first alternative that occurs (ignoring case);
  - the escaping.
- Text.Preview: lengths and cuts count Unicode code points, not UTF-16 code units as JavaScript's `length` and `substring` do. For text outside the Basic Multilingual Plane the cut falls elsewhere, and `substring` may split a surrogate pair; the same holds for `DocumentList.SummaryCell` and `ResultItem.ResultBody`.
- ResultItem.HighlightRunsSpec and ResultItem.ResultBodySpec require query terms that are non-empty and free of metacharacters. For other queries (a double space, a term with `(`) the unescaped pattern means something else or throws, and this is not modelled.
- Text.Lower: `toLowerCase` is modelled as ASCII lower-casing; Unicode case mapping is not modelled.
- Record values are optional strings. `String(val)` on numbers or objects is not modelled. JavaScript's `undefined` and `null` are both `None`, so a `Set` that holds both counts them once in `ResultList.DistinctBounds`.
- Backend.GetTableConfig: a table entry without an `id` or `table` key (a `KeyError` in Python) is modelled as a missing value. A `DATASET_TABLES` value that parses to something other than a list of entries is not modelled.
- Not modelled: `CaseList`, `PasswordScreen`, `App` and `main.jsx`, which are rendering, session storage and bootstrapping. Also the limit slider, the search-type radio buttons and the i18n strings.
- Pagination and the bookmark store are not modelled. No modelled file implements them: the components only call callbacks that are passed to them.

## Findings

| source | as written | input that shows it | evidently intended | confidence | as-written member | corrected member |
|---|---|---|---|---|---|---|
| backend/main.py:279-315 | a truthy query adds the ` AND `-join of its keyword conditions, even when `split()` yields no keywords | query `" "`: one empty condition, so the clause is empty and the statement reads `WHERE` followed by nothing | no keyword condition for a query without keywords, so that the clause is never empty | not executed | Backend.BlankQueryEmptyCondition | Backend.FixedConditionsNonEmpty |

`Backend.PlanSearch` keeps the clause as written, and `Backend.WhereClauseShape` shows the blank-query case: the clause is empty, or opens with ` AND ` when a filter is set. The corrected clause, `FixedWhereClause`, is the clause of `Backend.FixedPlanSearch`. `Backend.FixedAgrees` proves that it equals the clause as written whenever the query has keywords. `Backend.BuildWhere` keeps the builder as written.

Two other places where the code decides:
- The URL example follows the code: in `See <https://x.com/a b> now`, the bracketed alternative fails at the space and the bare one takes `https://x.com/a` (`DocumentPanel.LinkifyExample`).
- Each CSV data row uses that record's own `Object.values`, in its own key order, not the header's order (`Csv.CsvRoundTrip`).
