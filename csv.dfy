// The CSV export shared, line for line, by the bookmark list and the result
// list: `escapeCsvValue`, the header of the first record's keys and one row
// of escaped values per record, joined by LF. Beside it, a reader for the
// grammar of RFC 4180, section 2 (with LF as the record separator, the line
// break the export writes), against which the export is proved to read back.
module Csv {
  import opened Common
  import opened Text

  /** `str.includes(',') || str.includes('"') || str.includes('\n')`. */
  predicate NeedsQuotes(s: string)
  {
    ',' in s || '"' in s || '\n' in s
  }

  /** `str.replace(/"/g, '""')`. */
  function DoubleQuotes(s: string): (r: string)
    ensures |r| >= |s|
  {
    if s == [] then []
    else (if s[0] == '"' then "\"\"" else [s[0]]) + DoubleQuotes(s[1..])
  }

  /** `escapeCsvValue(val)`: empty for null, quoted with inner quotes doubled when needed, otherwise the value itself. */
  function EscapeValue(val: Option<string>): (r: string)
    ensures val.None? ==> r == ""
    ensures val.Some? && !NeedsQuotes(val.value) ==> r == val.value
    ensures val.Some? && NeedsQuotes(val.value) ==> |r| >= |val.value| + 2 && r[0] == '"' && r[|r| - 1] == '"'
  {
    match val
    case None => ""
    case Some(s) => if NeedsQuotes(s) then "\"" + DoubleQuotes(s) + "\"" else s
  }

  /** `values.map(escapeCsvValue)`: each value escaped, in place. */
  function EscapeRow(vals: seq<Option<string>>): (r: seq<string>)
    ensures |r| == |vals|
  {
    seq(|vals|, i requires 0 <= i < |vals| => EscapeValue(vals[i]))
  }

  /** `values.map(escapeCsvValue).join(',')`. */
  function RowText(vals: seq<Option<string>>): string
  {
    Join(EscapeRow(vals), ",")
  }

  /** The CSV text of `rows`: `Object.keys(rows[0]).join(',')`, then each row's own `Object.values`, escaped, joined by `\n`. */
  function CsvText(rows: seq<Record>): string
    requires |rows| > 0
  {
    Join([Join(Keys(rows[0]), ",")] + seq(|rows|, k requires 0 <= k < |rows| => RowText(Values(rows[k]))), "\n")
  }

  /** The text opens with the unescaped header: `rec`'s keys joined by commas. */
  predicate StartsWithHeader(text: string, rec: Record)
  {
    var header := Join(Keys(rec), ",");
    |header| <= |text| && text[..|header|] == header
  }

  lemma HeaderFirst(rows: seq<Record>)
    requires |rows| > 0
    ensures StartsWithHeader(CsvText(rows), rows[0])
  {
    JoinHead([Join(Keys(rows[0]), ",")] + seq(|rows|, k requires 0 <= k < |rows| => RowText(Values(rows[k]))), "\n");
  }

  /** `handleExport`: nothing for absent or empty input, otherwise the CSV text. */
  function Export(rows: Option<seq<Record>>): (csv: Option<string>)
    ensures csv.Some? <==> rows.Some? && rows.value != []
    ensures csv.Some? ==> StartsWithHeader(csv.value, rows.value[0])
  {
    if rows.None? || rows.value == [] then None
    else
      HeaderFirst(rows.value);
      Some(CsvText(rows.value))
  }

  // ---------------------------------------------------------------------
  // Reading CSV back.

  /** Where the reader is: at the start of a field, inside an unquoted field, inside quotes, or just after a quote inside quotes. */
  datatype State = FieldStart | Unquoted | InQuotes | QuoteInQuotes

  /**
   * The records of `s` under RFC 4180's grammar with LF between records: an
   * unquoted field holds no `,`, `"`, LF or CR; a quoted field holds
   * anything, with `""` standing for `"`. `cur` is the field being read,
   * `fields` the record so far, `records` those already closed. None when
   * `s` does not follow the grammar.
   */
  function Parse(s: string, st: State, cur: string, fields: seq<string>, records: seq<seq<string>>): Option<seq<seq<string>>>
    decreases |s|
  {
    if s == [] then
      if st == InQuotes then None else Some(records + [fields + [cur]])
    else
      var c, rest := s[0], s[1..];
      if st == InQuotes then
        if c == '"' then Parse(rest, QuoteInQuotes, cur, fields, records)
        else Parse(rest, InQuotes, cur + [c], fields, records)
      else if st == QuoteInQuotes && c == '"' then Parse(rest, InQuotes, cur + [c], fields, records)
      else if st == FieldStart && c == '"' then Parse(rest, InQuotes, cur, fields, records)
      else if c == ',' then Parse(rest, FieldStart, [], fields + [cur], records)
      else if c == '\n' then Parse(rest, FieldStart, [], [], records + [fields + [cur]])
      else if st == QuoteInQuotes || c == '"' || c == '\r' then None
      else Parse(rest, Unquoted, cur + [c], fields, records)
  }

  function ParseCsv(s: string): Option<seq<seq<string>>>
  {
    Parse(s, FieldStart, [], [], [])
  }

  /** A character that may stand in an unquoted field. */
  predicate Plain(c: char)
  {
    c != ',' && c != '"' && c != '\n' && c != '\r'
  }

  predicate NoCarriageReturn(val: Option<string>)
  {
    val.Some? ==> '\r' !in val.value
  }

  /** Reading plain characters in an unquoted field appends them to it. */
  lemma {:induction false} ParsePlain(v: string, rest: string, st: State, cur: string, fields: seq<string>, records: seq<seq<string>>)
    requires st == FieldStart || st == Unquoted
    requires forall i :: 0 <= i < |v| ==> Plain(v[i])
    ensures Parse(v + rest, st, cur, fields, records) == Parse(rest, if v == [] then st else Unquoted, cur + v, fields, records)
  {
    if v == [] {
      assert v + rest == rest && cur + v == cur;
    } else {
      assert (v + rest)[0] == v[0] && (v + rest)[1..] == v[1..] + rest;
      ParsePlain(v[1..], rest, Unquoted, cur + [v[0]], fields, records);
      assert cur + [v[0]] + v[1..] == cur + v;
    }
  }

  /** Reading a doubled-quote body inside quotes appends the original text to the field. */
  lemma {:induction false} ParseQuotedBody(v: string, rest: string, cur: string, fields: seq<string>, records: seq<seq<string>>)
    ensures Parse(DoubleQuotes(v) + rest, InQuotes, cur, fields, records) == Parse(rest, InQuotes, cur + v, fields, records)
  {
    if v == [] {
      assert DoubleQuotes(v) + rest == rest && cur + v == cur;
    } else {
      ParseQuotedBody(v[1..], rest, cur + [v[0]], fields, records);
      assert cur + [v[0]] + v[1..] == cur + v;
      QuotedStep(v[0], DoubleQuotes(v[1..]) + rest, cur, fields, records);
      DoubleQuotesCons(v, rest);
    }
  }

  /** Doubling the quotes of a non-empty text, then more text: the first character's doubling comes first. */
  lemma DoubleQuotesCons(v: string, rest: string)
    requires v != []
    ensures DoubleQuotes(v) + rest == (if v[0] == '"' then "\"\"" else [v[0]]) + (DoubleQuotes(v[1..]) + rest)
  {
  }

  /** Inside quotes, a character's doubling is read back as that character. */
  lemma QuotedStep(c: char, tail: string, cur: string, fields: seq<string>, records: seq<seq<string>>)
    ensures Parse((if c == '"' then "\"\"" else [c]) + tail, InQuotes, cur, fields, records) ==
            Parse(tail, InQuotes, cur + [c], fields, records)
  {
    if c == '"' {
      assert ("\"\"" + tail)[1..] == ['"'] + tail;
      assert (['"'] + tail)[1..] == tail;
    } else {
      assert ([c] + tail)[1..] == tail;
    }
  }

  /** What may follow a field: the end of the text, a comma or a line break. */
  predicate FieldEnd(rest: string)
  {
    rest == [] || rest[0] == ',' || rest[0] == '\n'
  }

  /** An escaped value reads back as the value (an empty field for null). */
  lemma ParseField(val: Option<string>, rest: string, fields: seq<string>, records: seq<seq<string>>)
    requires NoCarriageReturn(val) && FieldEnd(rest)
    ensures Parse(EscapeValue(val) + rest, FieldStart, [], fields, records) == Parse(rest, Unquoted, OrEmpty(val), fields, records)
  {
    if val.Some? && NeedsQuotes(val.value) {
      ParseQuotedField(val.value, rest, fields, records);
    } else {
      ParseUnquotedField(OrEmpty(val), rest, fields, records);
    }
  }

  /** A value that needs quotes, quoted and with its quotes doubled, reads back as the value. */
  lemma ParseQuotedField(v: string, rest: string, fields: seq<string>, records: seq<seq<string>>)
    requires NeedsQuotes(v) && NoCarriageReturn(Some(v)) && FieldEnd(rest)
    ensures Parse(EscapeValue(Some(v)) + rest, FieldStart, [], fields, records) == Parse(rest, Unquoted, v, fields, records)
  {
    assert EscapeValue(Some(v)) + rest == ['"'] + (DoubleQuotes(v) + (['"'] + rest));
    OpenQuote(DoubleQuotes(v) + (['"'] + rest), fields, records);
    ParseQuotedBody(v, ['"'] + rest, [], fields, records);
    CloseQuote(rest, [] + v, fields, records);
    assert [] + v == v;
  }

  /** A value that needs no quotes is written as it is and reads back as itself. */
  lemma ParseUnquotedField(v: string, rest: string, fields: seq<string>, records: seq<seq<string>>)
    requires !NeedsQuotes(v) && '\r' !in v && FieldEnd(rest)
    ensures Parse(v + rest, FieldStart, [], fields, records) == Parse(rest, Unquoted, v, fields, records)
  {
    assert forall i :: 0 <= i < |v| ==> v[i] in v;
    ParsePlain(v, rest, FieldStart, [], fields, records);
    assert [] + v == v;
  }

  /** A quote at the start of a field opens a quoted field. */
  lemma OpenQuote(body: string, fields: seq<string>, records: seq<seq<string>>)
    ensures Parse(['"'] + body, FieldStart, [], fields, records) == Parse(body, InQuotes, [], fields, records)
  {
    assert (['"'] + body)[1..] == body;
  }

  /** A quote followed by the end of the field closes a quoted field, which then ends as an unquoted one would. */
  lemma CloseQuote(rest: string, cur: string, fields: seq<string>, records: seq<seq<string>>)
    requires FieldEnd(rest)
    ensures Parse(['"'] + rest, InQuotes, cur, fields, records) == Parse(rest, Unquoted, cur, fields, records)
  {
    assert (['"'] + rest)[1..] == rest;
  }

  /** The values as the reader gives them back: null and missing values as empty fields. */
  function Strings(vals: seq<Option<string>>): (r: seq<string>)
    ensures |r| == |vals|
  {
    seq(|vals|, i requires 0 <= i < |vals| => OrEmpty(vals[i]))
  }

  /** After a record: the end of the text, or the next record after the line break. */
  function AfterRecord(rest: string, fields: seq<string>, records: seq<seq<string>>): Option<seq<seq<string>>>
  {
    if rest == [] then Some(records + [fields]) else Parse(rest[1..], FieldStart, [], [], records + [fields])
  }

  /** A row of escaped values reads back as its values. */
  lemma {:induction false} ParseRow(vals: seq<Option<string>>, rest: string, fields: seq<string>, records: seq<seq<string>>)
    requires |vals| >= 1 && forall i :: 0 <= i < |vals| ==> NoCarriageReturn(vals[i])
    requires rest == [] || rest[0] == '\n'
    ensures Parse(RowText(vals) + rest, FieldStart, [], fields, records) == AfterRecord(rest, fields + Strings(vals), records)
  {
    var v := vals[0];
    var escaped := EscapeRow(vals);
    if |vals| == 1 {
      ParseField(v, rest, fields, records);
      assert Strings(vals) == [OrEmpty(v)];
    } else {
      var more := vals[1..];
      var tail := RowText(more) + rest;
      assert EscapeRow(vals)[1..] == EscapeRow(more);
      assert RowText(vals) + rest == EscapeValue(v) + ([','] + tail);
      ParseField(v, [','] + tail, fields, records);
      assert ([','] + tail)[1..] == tail;
      ParseRow(more, rest, fields + [OrEmpty(v)], records);
      assert Strings(vals) == [OrEmpty(v)] + Strings(more);
      assert fields + [OrEmpty(v)] + Strings(more) == fields + Strings(vals);
    }
  }

  /** Rows joined by line breaks read back as the rows. */
  lemma {:induction false} ParseLines(lines: seq<seq<Option<string>>>, records: seq<seq<string>>)
    requires |lines| >= 1
    requires forall k :: 0 <= k < |lines| ==> |lines[k]| >= 1
    requires forall k, i :: 0 <= k < |lines| && 0 <= i < |lines[k]| ==> NoCarriageReturn(lines[k][i])
    ensures Parse(Join(RowTexts(lines), "\n"), FieldStart, [], [], records) == Some(records + Decoded(lines))
  {
    var first := lines[0];
    if |lines| == 1 {
      assert Join(RowTexts(lines), "\n") == RowText(first) + [];
      ParseRow(first, [], [], records);
      assert [] + Strings(first) == Strings(first);
      assert Decoded(lines) == [Strings(first)];
    } else {
      var more := lines[1..];
      var tail := Join(RowTexts(more), "\n");
      JoinLines(lines);
      ParseRow(first, ['\n'] + tail, [], records);
      assert (['\n'] + tail)[1..] == tail;
      assert [] + Strings(first) == Strings(first);
      ParseLines(more, records + [Strings(first)]);
      DecodedCons(lines);
      AppendAssoc(records, [Strings(first)], Decoded(more));
    }
  }

  lemma JoinLines(lines: seq<seq<Option<string>>>)
    requires |lines| >= 2
    ensures Join(RowTexts(lines), "\n") == RowText(lines[0]) + (['\n'] + Join(RowTexts(lines[1..]), "\n"))
  {
    assert RowTexts(lines)[1..] == RowTexts(lines[1..]);
  }

  lemma DecodedCons(lines: seq<seq<Option<string>>>)
    requires |lines| >= 1
    ensures Decoded(lines) == [Strings(lines[0])] + Decoded(lines[1..])
  {
  }

  function RowTexts(lines: seq<seq<Option<string>>>): (r: seq<string>)
    ensures |r| == |lines|
  {
    seq(|lines|, k requires 0 <= k < |lines| => RowText(lines[k]))
  }

  /** Each row as the reader gives it back. */
  function Decoded(lines: seq<seq<Option<string>>>): (r: seq<seq<string>>)
    ensures |r| == |lines|
  {
    seq(|lines|, k requires 0 <= k < |lines| => Strings(lines[k]))
  }

  /** A header key is written without escaping: it reads back only when it holds no special character. */
  predicate PlainKey(key: string)
  {
    forall i :: 0 <= i < |key| ==> Plain(key[i])
  }

  function KeysAsValues(keys: seq<string>): (r: seq<Option<string>>)
    ensures |r| == |keys|
  {
    seq(|keys|, i requires 0 <= i < |keys| => Some(keys[i]))
  }

  /** `Object.values` of each row, in order. */
  function RowValues(rows: seq<Record>): (r: seq<seq<Option<string>>>)
    ensures |r| == |rows|
  {
    seq(|rows|, k requires 0 <= k < |rows| => Values(rows[k]))
  }

  /** Plain header keys are written as they are: the header line is the row of the keys. */
  lemma HeaderRow(keys: seq<string>)
    requires forall i :: 0 <= i < |keys| ==> PlainKey(keys[i])
    ensures RowText(KeysAsValues(keys)) == Join(keys, ",")
  {
    forall i | 0 <= i < |keys| ensures EscapeValue(Some(keys[i])) == keys[i] {
      assert PlainKey(keys[i]);
      assert !NeedsQuotes(keys[i]) by {
        assert forall j :: 0 <= j < |keys[i]| ==> Plain(keys[i][j]);
      }
    }
    assert EscapeRow(KeysAsValues(keys)) == keys;
  }

  /** The CSV text is the rows, header first, joined by line breaks. */
  lemma CsvLines(rows: seq<Record>)
    requires |rows| > 0
    requires forall i :: 0 <= i < |rows[0]| ==> PlainKey(rows[0][i].key)
    ensures CsvText(rows) == Join(RowTexts([KeysAsValues(Keys(rows[0]))] + RowValues(rows)), "\n")
  {
    var keys := Keys(rows[0]);
    HeaderRow(keys);
    var lines := [KeysAsValues(keys)] + RowValues(rows);
    var texts := seq(|rows|, k requires 0 <= k < |rows| => RowText(Values(rows[k])));
    assert forall k :: 0 <= k < |rows| ==> RowTexts(lines)[k + 1] == texts[k];
    assert RowTexts(lines) == [Join(keys, ",")] + texts;
  }

  /**
   * The export reads back under RFC 4180: the first record is the header of
   * the first row's keys, then one record per row, in order, holding that
   * row's own values in its own key order (null as empty). This needs
   * header keys without special characters, values without CR, and rows
   * with at least one field.
   */
  lemma CsvRoundTrip(rows: seq<Record>)
    requires |rows| > 0
    requires forall k :: 0 <= k < |rows| ==> |rows[k]| >= 1
    requires forall i :: 0 <= i < |rows[0]| ==> PlainKey(rows[0][i].key)
    requires forall k, i :: 0 <= k < |rows| && 0 <= i < |rows[k]| ==> NoCarriageReturn(rows[k][i].value)
    ensures ParseCsv(CsvText(rows)) == Some([Keys(rows[0])] + Decoded(RowValues(rows)))
  {
    var keys := Keys(rows[0]);
    var lines := [KeysAsValues(keys)] + RowValues(rows);
    CsvLines(rows);
    ParseLines(lines, []);
    assert [] + Decoded(lines) == Decoded(lines);
    DecodedCons(lines);
    assert lines[1..] == RowValues(rows);
    assert Strings(KeysAsValues(keys)) == keys;
  }

  /** A CR alone does not cause quoting, and the unquoted CR does not read back under RFC 4180. */
  lemma CarriageReturnUnquoted()
    ensures EscapeValue(Some("a\rb")) == "a\rb"
    ensures ParseCsv("a\rb").None?
  {
    assert !NeedsQuotes("a\rb");
  }
}
