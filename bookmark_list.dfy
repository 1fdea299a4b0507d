// The bookmark list: a table of the bookmarked documents with a remove
// control per row. Its `handleExport` is `Csv.Export` over the bookmarks.
module BookmarkList {
  import opened Common
  import opened Text
  import DocumentList

  /** One table row: the key the remove control passes back, the file name, the category badge, the summary cell. */
  datatype BookmarkRow = BookmarkRow(removeKey: Option<string>, filename: Option<string>, category: Option<string>, summary: string)

  function RowOf(doc: Record): BookmarkRow
  {
    BookmarkRow(Get(doc, "md5"), Get(doc, "filename"),
                if Truthy(Get(doc, "category")) then Get(doc, "category") else None,
                DocumentList.SummaryCell(doc))
  }

  datatype View = Empty | Listing(count: nat, rows: seq<BookmarkRow>)

  /**
   * The empty notice for absent or empty bookmarks; otherwise the count and
   * one row per bookmark in order, whose remove control passes the
   * bookmark's `md5` and whose summary cell is the 150-character preview.
   */
  function Render(bookmarks: Option<seq<Record>>): (v: View)
    ensures v.Empty? <==> bookmarks.None? || bookmarks.value == []
    ensures v.Listing? ==> v.count == |bookmarks.value| == |v.rows|
    ensures v.Listing? ==> forall k :: 0 <= k < v.count ==>
              v.rows[k].removeKey == Get(bookmarks.value[k], "md5") &&
              v.rows[k].filename == Get(bookmarks.value[k], "filename") &&
              (Truthy(Get(bookmarks.value[k], "summary")) ==> v.rows[k].summary == Preview(Get(bookmarks.value[k], "summary").value, 150))
  {
    if bookmarks.None? || bookmarks.value == [] then Empty
    else
      var docs := bookmarks.value;
      Listing(|docs|, seq(|docs|, k requires 0 <= k < |docs| => RowOf(docs[k])))
  }
}
