// The back end's configuration lookups and the parameterised WHERE clause of
// the search endpoint: which dataset table a request reads, the password
// check, and the SQL conditions and query parameters built from a search
// request.
module Backend {
  import opened Common
  import opened Text

  // ---------------------------------------------------------------------
  // Configuration.

  /** One entry of the dataset table list: `{"id", "label", "table", "summary"}` (the label as `title`), JSON null or a missing key as None. */
  datatype TableEntry = TableEntry(id: Option<string>, title: Option<string>, table: Option<string>, summary: Option<string>)

  /** `os.getenv(NAME) or secrets.get(NAME)`: the environment value when truthy, else the secrets value. */
  function Setting(env: Option<string>, secret: Option<string>): (r: Option<string>)
    ensures Truthy(env) ==> r == env
    ensures !Truthy(env) ==> r == secret
  {
    Or(env, secret)
  }

  /** `APP_PASSWORD`: the environment value when truthy, else the secrets value when the key is present, else `"password123"`. */
  function AppPassword(env: Option<string>, secret: Option<string>): (password: string)
    ensures Truthy(env) ==> password == env.value
    ensures !Truthy(env) && secret.Some? ==> password == secret.value
    ensures !Truthy(env) && secret.None? ==> password == "password123"
  {
    if Truthy(env) then env.value else if secret.Some? then secret.value else "password123"
  }

  datatype AuthOutcome = Authenticated | Unauthorized(status: nat)

  /** `check_auth`: authenticated exactly when the password matches; otherwise HTTP 401. */
  function CheckAuth(password: string, appPassword: string): (r: AuthOutcome)
    ensures r.Authenticated? <==> password == appPassword
    ensures r.Unauthorized? ==> r.status == 401
  {
    if password == appPassword then Authenticated else Unauthorized(401)
  }

  /** The legacy single-table configuration: one entry `default` when `TABLE` is set, none otherwise. */
  function LegacyTables(table: Option<string>, summary: Option<string>): (tables: seq<TableEntry>)
    ensures Truthy(table) ==> tables == [TableEntry(Some("default"), table, table, summary)]
    ensures !Truthy(table) ==> tables == []
  {
    if Truthy(table) then [TableEntry(Some("default"), table, table, summary)] else []
  }

  /**
   * `load_dataset_tables`: the parsed `DATASET_TABLES` list when that
   * setting is present and parses; otherwise the legacy configuration.
   * `parse` stands for `json.loads` (None when it raises).
   */
  function LoadDatasetTables(tablesJson: Option<string>, parse: string -> Option<seq<TableEntry>>,
                             table: Option<string>, summary: Option<string>): (tables: seq<TableEntry>)
    ensures Truthy(tablesJson) && parse(tablesJson.value).Some? ==> tables == parse(tablesJson.value).value
    ensures !(Truthy(tablesJson) && parse(tablesJson.value).Some?) ==> tables == LegacyTables(table, summary)
  {
    if Truthy(tablesJson) && parse(tablesJson.value).Some? then parse(tablesJson.value).value
    else LegacyTables(table, summary)
  }

  /** The first entry whose id is `id`. */
  function FindById(tables: seq<TableEntry>, id: string): (r: Option<nat>)
    ensures r.Some? ==> r.value < |tables| && tables[r.value].id == Some(id)
    ensures r.Some? ==> forall j :: 0 <= j < r.value ==> tables[j].id != Some(id)
    ensures r.None? ==> forall j :: 0 <= j < |tables| ==> tables[j].id != Some(id)
  {
    if tables == [] then None
    else if tables[0].id == Some(id) then Some(0)
    else
      var rest := FindById(tables[1..], id);
      if rest.Some? then Some(rest.value + 1) else None
  }

  /**
   * `get_table_config`: the table and summary table of the first entry
   * with the requested id; with no id or no such entry, those of the first
   * entry; `(None, None)` when nothing is configured.
   */
  function GetTableConfig(tables: seq<TableEntry>, tableId: Option<string>): (r: (Option<string>, Option<string>))
    ensures tables == [] ==> r == (None, None)
    ensures tables != [] && Truthy(tableId) && FindById(tables, tableId.value).Some? ==>
              var e := tables[FindById(tables, tableId.value).value]; r == (e.table, e.summary)
    ensures tables != [] && !(Truthy(tableId) && FindById(tables, tableId.value).Some?) ==>
              r == (tables[0].table, tables[0].summary)
  {
    if tables == [] then (None, None)
    else
      var found := if Truthy(tableId) then FindById(tables, tableId.value) else None;
      var e := if found.Some? then tables[found.value] else tables[0];
      (e.table, e.summary)
  }

  /** The legacy configuration serves every request from its one table. */
  lemma LegacyConfig(table: Option<string>, summary: Option<string>, tableId: Option<string>)
    requires Truthy(table)
    ensures GetTableConfig(LegacyTables(table, summary), tableId) == (table, summary)
  {
  }

  // ---------------------------------------------------------------------
  // Building the search query.

  /** The search request, as far as it shapes the query. A date is kept as its ISO text; a present date is always truthy. */
  datatype Request = Request(query: Option<string>, limit: int, searchType: string,
                             dateFrom: Option<string>, dateTo: Option<string>,
                             category: Option<string>, subcategory: Option<string>)

  datatype ParamValue = StringValue(s: string) | IntValue(n: int) | DateValue(d: string)

  /** `bigquery.ScalarQueryParameter(name, type, value)`. */
  datatype Param = Param(name: string, kind: string, value: ParamValue)

  function Digit(d: nat): char
    requires d < 10
  {
    ('0' as int + d) as char
  }

  /** `str(n)` for a natural number. */
  function NatString(n: nat): (s: string)
    ensures |s| >= 1
    ensures n >= 10 ==> |s| >= 2
    decreases n
  {
    if n < 10 then [Digit(n)] else NatString(n / 10) + [Digit(n % 10)]
  }

  /** Different numbers are written differently, so the keyword parameters have different names. */
  lemma {:induction false} NatStringInjective(a: nat, b: nat)
    requires NatString(a) == NatString(b)
    ensures a == b
    decreases a
  {
    if a >= 10 && b >= 10 {
      var sa, sb := NatString(a), NatString(b);
      assert sa[|sa| - 1] == Digit(a % 10) && sb[|sb| - 1] == Digit(b % 10);
      assert sa[..|sa| - 1] == NatString(a / 10) && sb[..|sb| - 1] == NatString(b / 10);
      NatStringInjective(a / 10, b / 10);
    } else if a < 10 && b < 10 {
      assert NatString(a)[0] == Digit(a);
    }
  }

  /** The column prefix: `e.` when the summary table is joined in. */
  function Prefix(summaryAvailable: bool): string
  {
    if summaryAvailable then "e." else ""
  }

  /** The columns searched for the search type: file name, text, or both. */
  function SearchFields(prefix: string, searchType: string): (fields: seq<string>)
    ensures |fields| >= 1
  {
    if searchType == "Filename" then [prefix + "filename"]
    else if searchType == "Text" then [prefix + "text"]
    else [prefix + "filename", prefix + "text"]
  }

  function KeywordName(i: nat): string
  {
    "keyword_" + NatString(i)
  }

  /** `(LOWER(f1) LIKE LOWER(@keyword_i) OR ...)` over the searched fields. */
  function KeywordCondition(fields: seq<string>, i: nat): (cond: string)
    ensures |cond| >= 1 && cond[0] == '('
  {
    var likes := seq(|fields|, j requires 0 <= j < |fields| => "LOWER(" + fields[j] + ") LIKE LOWER(@" + KeywordName(i) + ")");
    "(" + Join(likes, " OR ") + ")"
  }

  function KeywordParam(i: nat, keyword: string): Param
  {
    Param(KeywordName(i), "STRING", StringValue("%" + keyword + "%"))
  }

  /** The conditions of the first `n` keywords. */
  function KeywordConditions(fields: seq<string>, n: nat): (conds: seq<string>)
    ensures |conds| == n
  {
    seq(n, i requires 0 <= i < n => KeywordCondition(fields, i))
  }

  /** The parameters of the keywords, numbered in order. */
  function KeywordParams(keywords: seq<string>): (params: seq<Param>)
    ensures |params| == |keywords|
  {
    seq(|keywords|, i requires 0 <= i < |keywords| => KeywordParam(i, keywords[i]))
  }

  function When<T>(b: bool, x: T): (r: seq<T>)
    ensures b ==> r == [x]
    ensures !b ==> r == []
  {
    if b then [x] else []
  }

  /** The condition of the keyword search, as written: present whenever the query is truthy. */
  function QueryConditions(r: Request, prefix: string): seq<string>
  {
    if Truthy(r.query) then [Join(KeywordConditions(SearchFields(prefix, r.searchType), |PySplit(r.query.value)|), " AND ")] else []
  }

  /** The date conditions. */
  function DateConditions(r: Request, prefix: string): seq<string>
  {
    When(r.dateFrom.Some?, "DATE(" + prefix + "mtime) >= @date_from") +
    When(r.dateTo.Some?, "DATE(" + prefix + "mtime) <= @date_to")
  }

  /** The category conditions: the subcategory only with the summary table joined. */
  function CategoryConditions(r: Request, summaryAvailable: bool): seq<string>
  {
    When(Truthy(r.category), Prefix(summaryAvailable) + "category = @category") +
    When(Truthy(r.subcategory) && summaryAvailable, "s.subcategory = @subcategory")
  }

  function FilterConditions(r: Request, summaryAvailable: bool): seq<string>
  {
    DateConditions(r, Prefix(summaryAvailable)) + CategoryConditions(r, summaryAvailable)
  }

  /** `where_conditions` of `search_emails`. */
  function Conditions(r: Request, summaryAvailable: bool): seq<string>
  {
    QueryConditions(r, Prefix(summaryAvailable)) + FilterConditions(r, summaryAvailable)
  }

  /** The clause: the conditions joined by ` AND `, or `1=1` when there are none. */
  function WhereClause(r: Request, summaryAvailable: bool): string
  {
    var conds := Conditions(r, summaryAvailable);
    if conds != [] then Join(conds, " AND ") else "1=1"
  }

  function DateFromParam(r: Request): (ps: seq<Param>)
    ensures Names(ps) == When(r.dateFrom.Some?, "date_from")
  {
    if r.dateFrom.Some? then [Param("date_from", "DATE", DateValue(r.dateFrom.value))] else []
  }

  function DateToParam(r: Request): (ps: seq<Param>)
    ensures Names(ps) == When(r.dateTo.Some?, "date_to")
  {
    if r.dateTo.Some? then [Param("date_to", "DATE", DateValue(r.dateTo.value))] else []
  }

  function CategoryParam(r: Request): (ps: seq<Param>)
    ensures Names(ps) == When(Truthy(r.category), "category")
  {
    if Truthy(r.category) then [Param("category", "STRING", StringValue(r.category.value))] else []
  }

  function SubcategoryParam(r: Request, summaryAvailable: bool): (ps: seq<Param>)
    ensures Names(ps) == When(Truthy(r.subcategory) && summaryAvailable, "subcategory")
  {
    if Truthy(r.subcategory) && summaryAvailable then [Param("subcategory", "STRING", StringValue(r.subcategory.value))] else []
  }

  function DateParams(r: Request): seq<Param>
  {
    DateFromParam(r) + DateToParam(r)
  }

  function CategoryParams(r: Request, summaryAvailable: bool): seq<Param>
  {
    CategoryParam(r) + SubcategoryParam(r, summaryAvailable)
  }

  function FilterParams(r: Request, summaryAvailable: bool): seq<Param>
  {
    DateParams(r) + CategoryParams(r, summaryAvailable)
  }

  /** The keyword parameters, when the query is truthy. */
  function QueryParams(r: Request): (ps: seq<Param>)
    ensures forall k :: 0 <= k < |ps| ==> ps[k].name == KeywordName(k)
  {
    if Truthy(r.query) then KeywordParams(PySplit(r.query.value)) else []
  }

  /** The filter parameters, then the limit. */
  function TailParams(r: Request, summaryAvailable: bool): seq<Param>
  {
    FilterParams(r, summaryAvailable) + [Param("limit", "INT64", IntValue(r.limit))]
  }

  /** `query_params` of `search_emails`: keywords, filters, then the limit. */
  function Params(r: Request, summaryAvailable: bool): seq<Param>
  {
    QueryParams(r) + TailParams(r, summaryAvailable)
  }

  /** The `for i, keyword in enumerate(keywords)` loop: the keyword conditions joined by ` AND `, and one parameter per keyword. */
  method KeywordSearch(fields: seq<string>, keywords: seq<string>) returns (condition: string, params: seq<Param>)
    ensures condition == Join(KeywordConditions(fields, |keywords|), " AND ")
    ensures params == KeywordParams(keywords)
  {
    var keywordConditions: seq<string> := [];
    params := [];
    var i := 0;
    while i < |keywords|
      invariant 0 <= i <= |keywords|
      invariant keywordConditions == KeywordConditions(fields, i)
      invariant params == KeywordParams(keywords[..i])
    {
      keywordConditions := keywordConditions + [KeywordCondition(fields, i)];
      params := params + [KeywordParam(i, keywords[i])];
      i := i + 1;
    }
    assert keywords[..i] == keywords;
    condition := Join(keywordConditions, " AND ");
  }

  /** The date conditions and parameters appended, `date_from` first. */
  method AddDateFilters(r: Request, prefix: string, conditions0: seq<string>, params0: seq<Param>)
    returns (conditions: seq<string>, params: seq<Param>)
    ensures conditions == conditions0 + DateConditions(r, prefix)
    ensures params == params0 + DateParams(r)
  {
    conditions, params := conditions0, params0;
    if r.dateFrom.Some? {
      conditions := conditions + ["DATE(" + prefix + "mtime) >= @date_from"];
      params := params + [Param("date_from", "DATE", DateValue(r.dateFrom.value))];
    }
    if r.dateTo.Some? {
      conditions := conditions + ["DATE(" + prefix + "mtime) <= @date_to"];
      params := params + [Param("date_to", "DATE", DateValue(r.dateTo.value))];
    }
  }

  /** The category conditions and parameters appended, the subcategory only with the summary table joined. */
  method AddCategoryFilters(r: Request, summaryAvailable: bool, conditions0: seq<string>, params0: seq<Param>)
    returns (conditions: seq<string>, params: seq<Param>)
    ensures conditions == conditions0 + CategoryConditions(r, summaryAvailable)
    ensures params == params0 + CategoryParams(r, summaryAvailable)
  {
    conditions, params := conditions0, params0;
    if Truthy(r.category) {
      conditions := conditions + [Prefix(summaryAvailable) + "category = @category"];
      params := params + [Param("category", "STRING", StringValue(r.category.value))];
    }
    if Truthy(r.subcategory) && summaryAvailable {
      conditions := conditions + ["s.subcategory = @subcategory"];
      params := params + [Param("subcategory", "STRING", StringValue(r.subcategory.value))];
    }
  }

  /**
   * The WHERE clause and parameter list of `search_emails`, built as the
   * source builds them: one condition and one parameter per keyword, then
   * the filters, then the limit.
   */
  method BuildWhere(r: Request, summaryAvailable: bool) returns (clause: string, params: seq<Param>)
    ensures clause == WhereClause(r, summaryAvailable)
    ensures params == Params(r, summaryAvailable)
  {
    var prefix := Prefix(summaryAvailable);
    var conditions: seq<string> := [];
    params := [];
    if Truthy(r.query) {
      var condition;
      condition, params := KeywordSearch(SearchFields(prefix, r.searchType), PySplit(r.query.value));
      conditions := [condition];
    }
    var queryConditions, queryParams := conditions, params;
    assert queryParams == QueryParams(r);
    conditions, params := AddDateFilters(r, prefix, conditions, params);
    conditions, params := AddCategoryFilters(r, summaryAvailable, conditions, params);
    assert queryConditions == QueryConditions(r, prefix);
    AppendAssoc(queryConditions, DateConditions(r, prefix), CategoryConditions(r, summaryAvailable));
    AppendAssoc(queryParams, DateParams(r), CategoryParams(r, summaryAvailable));
    AppendAssoc(queryParams, FilterParams(r, summaryAvailable), [Param("limit", "INT64", IntValue(r.limit))]);
    assert conditions == Conditions(r, summaryAvailable);
    clause := if conditions != [] then Join(conditions, " AND ") else "1=1";
    params := params + [Param("limit", "INT64", IntValue(r.limit))];
  }

  /** What `search_emails` goes on to run: HTTP 400 without a table, otherwise the table, whether the summary table is joined, and the clause and parameters. */
  datatype SearchPlan = NoTable(status: nat) | Plan(table: string, joinSummary: bool, clause: string, params: seq<Param>)

  /**
   * The table of the requested dataset; the summary table is joined when it
   * is configured and `summaryExists` (the `client.get_table` probe) finds it.
   * The clause is the one built as written: it is never empty for a query
   * with keywords or no query at all, but a query of white space only leaves
   * it empty, or opening with ` AND ` when a filter is set.
   */
  function PlanSearch(tables: seq<TableEntry>, tableId: Option<string>, r: Request, summaryExists: string -> bool): (p: SearchPlan)
    ensures var (table, summary) := GetTableConfig(tables, tableId);
      && (p.NoTable? <==> !Truthy(table))
      && (p.NoTable? ==> p.status == 400)
      && (p.Plan? ==> p.table == table.value)
      && (p.Plan? ==> (p.joinSummary <==> Truthy(summary) && summaryExists(summary.value)))
      && (p.Plan? ==> p.params == Params(r, p.joinSummary))
      && (p.Plan? && (Truthy(r.query) ==> PySplit(r.query.value) != []) ==> p.clause != "")
      && (p.Plan? && Truthy(r.query) && PySplit(r.query.value) == [] ==>
            (p.clause == "" <==> FilterConditions(r, p.joinSummary) == []) &&
            (p.clause != "" ==> |p.clause| >= 5 && p.clause[..5] == " AND "))
  {
    var (table, summary) := GetTableConfig(tables, tableId);
    if !Truthy(table) then NoTable(400)
    else
      var joined := Truthy(summary) && summaryExists(summary.value);
      WhereClauseShape(r, joined);
      Plan(table.value, joined, WhereClause(r, joined), Params(r, joined))
  }

  /** The plan with the corrected clause: the same table, join and parameters, and a clause that is never empty. */
  function FixedPlanSearch(tables: seq<TableEntry>, tableId: Option<string>, r: Request, summaryExists: string -> bool): (p: SearchPlan)
    ensures var q := PlanSearch(tables, tableId, r, summaryExists);
      && (p.NoTable? <==> q.NoTable?) && (p.NoTable? ==> p == q)
      && (p.Plan? ==> p.table == q.table && p.joinSummary == q.joinSummary && p.params == q.params && p.clause != "")
      && (p.Plan? && (Truthy(r.query) ==> PySplit(r.query.value) != []) ==> p.clause == q.clause)
      && (p.Plan? && Truthy(r.query) && PySplit(r.query.value) == [] ==> p.clause == WhereClause(r.(query := None), p.joinSummary))
  {
    match PlanSearch(tables, tableId, r, summaryExists)
    case NoTable(status) => NoTable(status)
    case Plan(table, joined, _, params) =>
      FixedConditionsNonEmpty(r, joined);
      Plan(table, joined, FixedWhereClause(r, joined), params)
  }

  // ---------------------------------------------------------------------
  // Properties of the query.

  /** The limit is always the last parameter. */
  lemma LimitLast(r: Request, summaryAvailable: bool)
    ensures var ps := Params(r, summaryAvailable);
      |ps| >= 1 && ps[|ps| - 1] == Param("limit", "INT64", IntValue(r.limit))
  {
  }

  /** The parameter names, in order. */
  function Names(ps: seq<Param>): (ns: seq<string>)
    ensures |ns| == |ps| && forall k :: 0 <= k < |ps| ==> ns[k] == ps[k].name
  {
    seq(|ps|, k requires 0 <= k < |ps| => ps[k].name)
  }

  lemma NamesAppend(a: seq<Param>, b: seq<Param>)
    ensures Names(a + b) == Names(a) + Names(b)
  {
  }

  lemma NamesWhen(b: bool, p: Param)
    ensures Names(When(b, p)) == When(b, p.name)
  {
  }

  /** The names of the filter and limit parameters, which depend on which filters are set and nothing else. */
  function TailNames(dateFrom: bool, dateTo: bool, category: bool, subcategory: bool): seq<string>
  {
    When(dateFrom, "date_from") + When(dateTo, "date_to") + When(category, "category") + When(subcategory, "subcategory") + ["limit"]
  }

  lemma TailParamNames(r: Request, summaryAvailable: bool)
    ensures Names(TailParams(r, summaryAvailable)) ==
            TailNames(r.dateFrom.Some?, r.dateTo.Some?, Truthy(r.category), Truthy(r.subcategory) && summaryAvailable)
  {
    var p1, p2, p3, p4 := DateFromParam(r), DateToParam(r), CategoryParam(r), SubcategoryParam(r, summaryAvailable);
    var limit := [Param("limit", "INT64", IntValue(r.limit))];
    NamesAppend((p1 + p2) + (p3 + p4), limit);
    NamesAppend(p1 + p2, p3 + p4);
    NamesAppend(p1, p2);
    NamesAppend(p3, p4);
  }

  /** The rank of a filter or limit parameter name in the order the source adds them. */
  function TailRank(name: string): int
  {
    if name == "date_from" then 0 else if name == "date_to" then 1 else if name == "category" then 2
    else if name == "subcategory" then 3 else if name == "limit" then 4 else -1
  }

  /** Names of filter or limit parameters, in strictly increasing rank below `bound`. */
  predicate Ranked(ns: seq<string>, bound: int)
  {
    && (forall i :: 0 <= i < |ns| ==> 0 <= TailRank(ns[i]) < bound)
    && (forall i, j :: 0 <= i < j < |ns| ==> TailRank(ns[i]) < TailRank(ns[j]))
  }

  lemma RankedAppend(ns: seq<string>, b: bool, name: string)
    requires TailRank(name) >= 0 && Ranked(ns, TailRank(name))
    ensures Ranked(ns + When(b, name), TailRank(name) + 1)
  {
  }

  lemma TailRanksIncrease(dateFrom: bool, dateTo: bool, category: bool, subcategory: bool)
    ensures Ranked(TailNames(dateFrom, dateTo, category, subcategory), 5)
  {
    var n4 := When(dateFrom, "date_from") + When(dateTo, "date_to") + When(category, "category") + When(subcategory, "subcategory");
    RankedUpToSubcategory(dateFrom, dateTo, category, subcategory);
    assert TailRank("limit") == 4;
    RankedAppend(n4, true, "limit");
  }

  lemma RankedUpToDateTo(dateFrom: bool, dateTo: bool)
    ensures Ranked(When(dateFrom, "date_from") + When(dateTo, "date_to"), 2)
  {
    var w1 := When(dateFrom, "date_from");
    assert TailRank("date_from") == 0 && TailRank("date_to") == 1;
    RankedAppend([], dateFrom, "date_from");
    assert [] + w1 == w1;
    RankedAppend(w1, dateTo, "date_to");
  }

  lemma RankedUpToCategory(dateFrom: bool, dateTo: bool, category: bool)
    ensures Ranked(When(dateFrom, "date_from") + When(dateTo, "date_to") + When(category, "category"), 3)
  {
    RankedUpToDateTo(dateFrom, dateTo);
    assert TailRank("category") == 2;
    RankedAppend(When(dateFrom, "date_from") + When(dateTo, "date_to"), category, "category");
  }

  lemma RankedUpToSubcategory(dateFrom: bool, dateTo: bool, category: bool, subcategory: bool)
    ensures Ranked(When(dateFrom, "date_from") + When(dateTo, "date_to") + When(category, "category") + When(subcategory, "subcategory"), 4)
  {
    RankedUpToCategory(dateFrom, dateTo, category);
    assert TailRank("subcategory") == 3;
    RankedAppend(When(dateFrom, "date_from") + When(dateTo, "date_to") + When(category, "category"), subcategory, "subcategory");
  }

  /** A filter or limit name is never a keyword parameter's name. */
  lemma RankedNotKeyword(name: string, i: nat)
    requires TailRank(name) >= 0
    ensures name != KeywordName(i)
  {
    assert KeywordName(i)[0] == 'k';
  }

  lemma KeywordNamesDistinct(i: nat, j: nat)
    requires i != j
    ensures KeywordName(i) != KeywordName(j)
  {
    if KeywordName(i) == KeywordName(j) {
      assert KeywordName(i)[8..] == NatString(i) && KeywordName(j)[8..] == NatString(j);
      NatStringInjective(i, j);
    }
  }

  /** No two query parameters share a name: each `@name` in the clause is bound once. */
  lemma ParamNamesDistinct(r: Request, summaryAvailable: bool)
    ensures var ns := Names(Params(r, summaryAvailable));
      forall i, j :: 0 <= i < j < |ns| ==> ns[i] != ns[j]
  {
    var ks, rest := Names(QueryParams(r)), Names(TailParams(r, summaryAvailable));
    NamesAppend(QueryParams(r), TailParams(r, summaryAvailable));
    TailParamNames(r, summaryAvailable);
    TailRanksIncrease(r.dateFrom.Some?, r.dateTo.Some?, Truthy(r.category), Truthy(r.subcategory) && summaryAvailable);
    var ns := ks + rest;
    forall i, j | 0 <= i < j < |ns| ensures ns[i] != ns[j] {
      if j < |ks| {
        KeywordNamesDistinct(i, j);
      } else if i < |ks| {
        assert ns[i] == KeywordName(i) && ns[j] == rest[j - |ks|];
        RankedNotKeyword(rest[j - |ks|], i);
      } else {
        assert ns[i] == rest[i - |ks|] && ns[j] == rest[j - |ks|];
      }
    }
  }

  /** Two requests that differ only in their values: same flags, search type and number of keywords. */
  predicate SameShape(r1: Request, r2: Request)
  {
    && Truthy(r1.query) == Truthy(r2.query)
    && (Truthy(r1.query) ==> |PySplit(r1.query.value)| == |PySplit(r2.query.value)|)
    && r1.searchType == r2.searchType
    && r1.dateFrom.Some? == r2.dateFrom.Some?
    && r1.dateTo.Some? == r2.dateTo.Some?
    && Truthy(r1.category) == Truthy(r2.category)
    && Truthy(r1.subcategory) == Truthy(r2.subcategory)
  }

  /**
   * User values never reach the SQL text: requests of the same shape give
   * the same clause and the same parameter names, in the same order.
   */
  lemma ClauseIndependentOfValues(r1: Request, r2: Request, summaryAvailable: bool)
    requires SameShape(r1, r2)
    ensures WhereClause(r1, summaryAvailable) == WhereClause(r2, summaryAvailable)
    ensures Names(Params(r1, summaryAvailable)) == Names(Params(r2, summaryAvailable))
  {
    SameShapeConditions(r1, r2, summaryAvailable);
    NamesAppend(QueryParams(r1), TailParams(r1, summaryAvailable));
    NamesAppend(QueryParams(r2), TailParams(r2, summaryAvailable));
    TailParamNames(r1, summaryAvailable);
    TailParamNames(r2, summaryAvailable);
    SameShapeQueryNames(r1, r2);
  }

  lemma SameShapeConditions(r1: Request, r2: Request, summaryAvailable: bool)
    requires SameShape(r1, r2)
    ensures Conditions(r1, summaryAvailable) == Conditions(r2, summaryAvailable)
  {
  }

  lemma SameShapeQueryNames(r1: Request, r2: Request)
    requires SameShape(r1, r2)
    ensures Names(QueryParams(r1)) == Names(QueryParams(r2))
  {
  }

  /** The subcategory is filtered on exactly when it is set and the summary table is joined in. */
  lemma SubcategoryNeedsSummary(r: Request, summaryAvailable: bool)
    ensures "subcategory" in Names(Params(r, summaryAvailable)) <==> Truthy(r.subcategory) && summaryAvailable
  {
    var ks, rest := Names(QueryParams(r)), Names(TailParams(r, summaryAvailable));
    NamesAppend(QueryParams(r), TailParams(r, summaryAvailable));
    TailParamNames(r, summaryAvailable);
    SubcategoryInTail(r.dateFrom.Some?, r.dateTo.Some?, Truthy(r.category), Truthy(r.subcategory) && summaryAvailable);
    forall k | 0 <= k < |ks| ensures ks[k] != "subcategory" {
      RankedNotKeyword("subcategory", k);
    }
    assert "subcategory" in ks + rest <==> "subcategory" in rest;
  }

  lemma SubcategoryInTail(dateFrom: bool, dateTo: bool, category: bool, subcategory: bool)
    ensures "subcategory" in TailNames(dateFrom, dateTo, category, subcategory) <==> subcategory
  {
    var ns := TailNames(dateFrom, dateTo, category, subcategory);
    TailRanksIncrease(dateFrom, dateTo, category, subcategory);
    assert TailRank("subcategory") == 3;
    if subcategory {
      assert ns[|ns| - 2] == "subcategory";
    } else {
      assert ns == When(dateFrom, "date_from") + When(dateTo, "date_to") + When(category, "category") + ["limit"];
    }
  }

  // ---------------------------------------------------------------------
  // A blank query.

  /**
   * As written, a query of white space only is truthy, so it contributes
   * a condition, but it has no keywords, so that condition is empty: the
   * clause becomes the empty string and the statement reads `WHERE` with
   * nothing after it.
   */
  lemma BlankQueryEmptyCondition()
    ensures var r := Request(Some(" "), 100, "All fields", None, None, None, None);
      Conditions(r, false) == [""] && WhereClause(r, false) == ""
  {
    var r := Request(Some(" "), 100, "All fields", None, None, None, None);
    assert PySplit(" ") == [];
    assert KeywordConditions(SearchFields("", "All fields"), 0) == [];
  }

  /** The keyword condition as evidently intended: only when the query has keywords. */
  function FixedQueryConditions(r: Request, prefix: string): seq<string>
  {
    if Truthy(r.query) && PySplit(r.query.value) != [] then
      [Join(KeywordConditions(SearchFields(prefix, r.searchType), |PySplit(r.query.value)|), " AND ")]
    else []
  }

  function FixedConditions(r: Request, summaryAvailable: bool): seq<string>
  {
    FixedQueryConditions(r, Prefix(summaryAvailable)) + FilterConditions(r, summaryAvailable)
  }

  function FixedWhereClause(r: Request, summaryAvailable: bool): string
  {
    var conds := FixedConditions(r, summaryAvailable);
    if conds != [] then Join(conds, " AND ") else "1=1"
  }

  /** With the correction no condition is empty, so the clause is never empty. */
  lemma FixedConditionsNonEmpty(r: Request, summaryAvailable: bool)
    ensures forall k :: 0 <= k < |FixedConditions(r, summaryAvailable)| ==> FixedConditions(r, summaryAvailable)[k] != ""
    ensures FixedWhereClause(r, summaryAvailable) != ""
  {
    var conds := FixedConditions(r, summaryAvailable);
    var qs := FixedQueryConditions(r, Prefix(summaryAvailable));
    if qs != [] {
      KeywordClauseNonEmpty(SearchFields(Prefix(summaryAvailable), r.searchType), |PySplit(r.query.value)|);
    }
    FilterConditionsNonEmpty(r, summaryAvailable);
    assert conds == qs + FilterConditions(r, summaryAvailable);
    if conds != [] {
      JoinHead(conds, " AND ");
    }
  }

  lemma FilterConditionsNonEmpty(r: Request, summaryAvailable: bool)
    ensures forall k :: 0 <= k < |FilterConditions(r, summaryAvailable)| ==> FilterConditions(r, summaryAvailable)[k] != ""
  {
    var prefix := Prefix(summaryAvailable);
    var ds, cs := DateConditions(r, prefix), CategoryConditions(r, summaryAvailable);
    assert forall k :: 0 <= k < |ds| ==> ds[k] != "";
    assert forall k :: 0 <= k < |cs| ==> cs[k] != "";
  }

  /** The keyword clause of at least one keyword opens with the first keyword's `(`. */
  lemma KeywordClauseNonEmpty(fields: seq<string>, n: nat)
    requires n >= 1
    ensures Join(KeywordConditions(fields, n), " AND ") != ""
  {
    var kcs := KeywordConditions(fields, n);
    JoinHead(kcs, " AND ");
    assert kcs[0] != "";
  }

  /** The correction changes nothing for a query with keywords or no query at all. */
  lemma FixedAgrees(r: Request, summaryAvailable: bool)
    requires Truthy(r.query) ==> PySplit(r.query.value) != []
    ensures FixedWhereClause(r, summaryAvailable) == WhereClause(r, summaryAvailable)
  {
  }

  /** With the correction a blank query is treated as no query. */
  lemma FixedBlankQuery(r: Request, summaryAvailable: bool)
    requires Truthy(r.query) && PySplit(r.query.value) == []
    ensures FixedWhereClause(r, summaryAvailable) == WhereClause(r.(query := None), summaryAvailable)
  {
  }

  /** The clause as written: never empty unless the query is blank; then empty without filters and opening with ` AND ` with them. */
  lemma WhereClauseShape(r: Request, summaryAvailable: bool)
    ensures (Truthy(r.query) ==> PySplit(r.query.value) != []) ==> WhereClause(r, summaryAvailable) != ""
    ensures Truthy(r.query) && PySplit(r.query.value) == [] ==>
      var w := WhereClause(r, summaryAvailable);
      (w == "" <==> FilterConditions(r, summaryAvailable) == []) && (w != "" ==> |w| >= 5 && w[..5] == " AND ")
  {
    if Truthy(r.query) && PySplit(r.query.value) == [] {
      var fs := FilterConditions(r, summaryAvailable);
      assert KeywordConditions(SearchFields(Prefix(summaryAvailable), r.searchType), 0) == [];
      assert Conditions(r, summaryAvailable) == [""] + fs;
      if fs != [] {
        assert WhereClause(r, summaryAvailable) == "" + " AND " + Join(fs, " AND ");
      }
    } else {
      FixedAgrees(r, summaryAvailable);
      FixedConditionsNonEmpty(r, summaryAvailable);
    }
  }
}
