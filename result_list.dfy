// The result list: the summary statistics over the search results and the
// CSV export of the results.
module ResultList {
  import opened Common
  import Csv

  /** `results.map(r => r[key])`. */
  function Column(results: seq<Record>, key: string): (col: seq<Option<string>>)
    ensures |col| == |results|
    ensures forall k :: 0 <= k < |results| ==> col[k] == Get(results[k], key)
  {
    seq(|results|, k requires 0 <= k < |results| => Get(results[k], key))
  }

  /** `new Set(values).size`. */
  function DistinctCount(values: seq<Option<string>>): nat
  {
    |set x | x in values|
  }

  /** A non-empty list holds at least one and at most as many distinct values as entries. */
  lemma {:induction false} DistinctBounds(values: seq<Option<string>>)
    ensures DistinctCount(values) <= |values|
    ensures values != [] ==> 1 <= DistinctCount(values)
  {
    if values != [] {
      var rest := values[1..];
      DistinctBounds(rest);
      assert (set x | x in values) == (set x | x in rest) + {values[0]} by {
        assert values == [values[0]] + rest;
      }
      assert values[0] in (set x | x in values);
    }
  }

  /** The statistics boxes. */
  datatype Stats = Stats(total: nat, uniqueSenders: nat, uniqueRecipients: nat)

  datatype View = NoResults | Listing(stats: Stats, results: seq<Record>)

  /** The notice for absent or empty results, otherwise the statistics and the results in order. */
  function Render(results: Option<seq<Record>>): View
  {
    if results.None? || results.value == [] then NoResults
    else
      var rs := results.value;
      Listing(Stats(|rs|, DistinctCount(Column(rs, "sender")), DistinctCount(Column(rs, "recipient"))), rs)
  }

  /**
   * Absent or empty results show the notice; otherwise the total is the
   * number of results and each distinct count lies between one and the total.
   */
  lemma RenderStats(results: Option<seq<Record>>)
    ensures Render(results).NoResults? <==> results.None? || results.value == []
    ensures Render(results).Listing? ==>
      var s := Render(results).stats;
      && s.total == |results.value|
      && 1 <= s.uniqueSenders <= s.total
      && 1 <= s.uniqueRecipients <= s.total
  {
    if results.Some? && results.value != [] {
      DistinctBounds(Column(results.value, "sender"));
      DistinctBounds(Column(results.value, "recipient"));
    }
  }

  /** `handleExport`, reachable only once results are shown, that is, when there is at least one. */
  function HandleExport(results: seq<Record>): (csv: string)
    requires |results| > 0
    ensures Csv.StartsWithHeader(csv, results[0])
  {
    Csv.HeaderFirst(results);
    Csv.CsvText(results)
  }

  /** The exported file reads back as `results.length + 1` records: the header, then the results in order. */
  lemma ExportReadsBack(results: seq<Record>)
    requires |results| > 0
    requires forall k :: 0 <= k < |results| ==> |results[k]| >= 1
    requires forall i :: 0 <= i < |results[0]| ==> Csv.PlainKey(results[0][i].key)
    requires forall k, i :: 0 <= k < |results| && 0 <= i < |results[k]| ==> Csv.NoCarriageReturn(results[k][i].value)
    ensures var parsed := Csv.ParseCsv(HandleExport(results));
      && parsed.Some?
      && |parsed.value| == |results| + 1
      && parsed.value[0] == Keys(results[0])
      && forall k :: 0 <= k < |results| ==> parsed.value[k + 1] == Csv.Strings(Values(results[k]))
  {
    Csv.CsvRoundTrip(results);
  }
}
