// The search filter panel: the filter-state update `handleChange`, the
// category and subcategory drop-downs with their "all" entry, and the
// date-range check box.
module Sidebar {
  import opened Common

  /** A filter value: null, a string, an integer (the result limit) or a boolean (show summaries). */
  datatype Value = Null | Str(s: string) | Int(n: int) | Bool(b: bool)

  /** The filter object, by key. */
  type Filters = map<string, Value>

  /** What one call hands on: `next` goes to `setFilters`; `searched` is what `onSearch` receives, if it is called. */
  datatype Change = Change(next: Filters, searched: Option<Filters>)

  /** The keys whose change starts a new search. */
  predicate TriggersSearch(key: string)
  {
    key == "category_filter" || key == "subcategory_filter"
  }

  /**
   * `handleChange(key, value)`: the next filters equal the current ones
   * except at `key`, which now holds `value`; they are searched with exactly
   * when the key is a category key and `onSearch` is a function.
   */
  function HandleChange(filters: Filters, key: string, value: Value, hasOnSearch: bool): (c: Change)
    ensures c.next.Keys == filters.Keys + {key}
    ensures c.next[key] == value
    ensures forall k :: k in filters && k != key ==> c.next[k] == filters[k]
    ensures c.searched.Some? <==> TriggersSearch(key) && hasOnSearch
    ensures c.searched.Some? ==> c.searched.value == c.next
  {
    var next := filters[key := value];
    Change(next, if TriggersSearch(key) && hasOnSearch then Some(next) else None)
  }

  /** Setting a key to the value it already holds leaves the filters as they are. */
  lemma HandleChangeSame(filters: Filters, key: string, hasOnSearch: bool)
    requires key in filters
    ensures HandleChange(filters, key, filters[key], hasOnSearch).next == filters
  {
    var next := HandleChange(filters, key, filters[key], hasOnSearch).next;
    assert forall k :: k in next <==> k in filters;
  }

  /** Changing a key and then changing it back restores the filters. */
  lemma HandleChangeUndo(filters: Filters, key: string, value: Value, hasOnSearch: bool)
    requires key in filters
    ensures var once := HandleChange(filters, key, value, hasOnSearch).next;
            HandleChange(once, key, filters[key], hasOnSearch).next == filters
  {
    var once := HandleChange(filters, key, value, hasOnSearch).next;
    var twice := HandleChange(once, key, filters[key], hasOnSearch).next;
    assert forall k :: k in twice <==> k in filters;
  }

  /** The value stored for a chosen drop-down entry: null for the "all" entry, the entry itself otherwise. */
  function Selection(chosen: string, allLabel: string): (v: Value)
    ensures v == Null <==> chosen == allLabel
    ensures v != Null ==> v == Str(chosen)
  {
    if chosen == allLabel then Null else Str(chosen)
  }

  /** The entry a drop-down shows: `filters.category_filter || allLabel`, for a key that holds null or a string. */
  function Displayed(current: Value, allLabel: string): (shown: string)
    requires current.Null? || current.Str?
    ensures current.Str? && current.s != "" ==> shown == current.s
    ensures current.Null? || current == Str("") ==> shown == allLabel
  {
    if current.Str? && current.s != "" then current.s else allLabel
  }

  /** Choosing the entry a drop-down shows stores back what was there, unless that was the empty string or a value equal to the label. */
  lemma SelectDisplayed(current: Value, allLabel: string)
    requires current.Null? || (current.Str? && current.s != "" && current.s != allLabel)
    ensures Selection(Displayed(current, allLabel), allLabel) == current
  {
  }

  /** A drop-down then shows the entry chosen. */
  lemma DisplaySelected(chosen: string, allLabel: string)
    requires chosen != ""
    ensures Displayed(Selection(chosen, allLabel), allLabel) == chosen
  {
  }

  /** `[allLabel, ...(list || [])]`. */
  function Options(allLabel: string, list: Option<seq<string>>): (options: seq<string>)
    ensures |options| >= 1 && options[0] == allLabel
    ensures list.None? ==> options == [allLabel]
    ensures list.Some? ==> options[1..] == list.value
  {
    [allLabel] + (if list.Some? then list.value else [])
  }

  /** `options.length > 1`: whether the drop-down is shown. */
  predicate Shown(options: seq<string>)
  {
    |options| > 1
  }

  /** A drop-down is shown exactly when the server sent a non-empty list. */
  lemma ShownIffListed(allLabel: string, list: Option<seq<string>>)
    ensures Shown(Options(allLabel, list)) <==> list.Some? && list.value != []
  {
  }

  /** Checking the date box fills both dates with `today`; unchecking clears both. Nothing else changes. */
  function DateToggle(filters: Filters, checked: bool, today: string): (next: Filters)
    ensures next.Keys == filters.Keys + {"date_from", "date_to"}
    ensures next["date_from"] == next["date_to"] == (if checked then Str(today) else Null)
    ensures forall k :: k in filters && k != "date_from" && k != "date_to" ==> next[k] == filters[k]
  {
    var day := if checked then Str(today) else Null;
    filters["date_from" := day]["date_to" := day]
  }

  /** `!!filters.date_from`: the box is checked when a start date is set. */
  predicate DateChecked(filters: Filters)
  {
    "date_from" in filters && filters["date_from"].Str? && filters["date_from"].s != ""
  }

  /** After a toggle the box shows the state chosen (`today` is never empty). */
  lemma DateToggleShows(filters: Filters, checked: bool, today: string)
    requires today != ""
    ensures DateChecked(DateToggle(filters, checked, today)) == checked
  {
  }
}
