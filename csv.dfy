/** The CSV serialiser of worker/worker.js (`convertToCSV`) and a reader for the text it writes.
    The reader accepts the all-quoted subset of the quoting in RFC 4180, section 2, rules 5 to
    7 (every cell in double quotes, a quote inside a cell written twice; unquoted cells are
    refused), with the header row read unquoted as the serialiser writes it; it is the partner
    the round-trip lemmas are stated against. */
module Csv {
  import opened Wrappers

  /** A field value as the program holds it: a string, or None for null and undefined. */
  type Value = Option<string>

  /** One named field of a record. */
  datatype Field = Field(key: string, value: Value)

  /** A record: its fields in insertion order, which is the order of both `Object.keys` and
      `Object.values`. */
  type Record = seq<Field>

  function Keys(r: Record): seq<string> {
    seq(|r|, i requires 0 <= i < |r| => r[i].key)
  }

  function Values(r: Record): seq<Value> {
    seq(|r|, i requires 0 <= i < |r| => r[i].value)
  }

  /** `parts.join(sep)`: nothing for no parts, otherwise the parts with one separator between
      neighbours and none at either end. */
  function Join(sep: char, parts: seq<string>): string {
    if |parts| == 0 then []
    else if |parts| == 1 then parts[0]
    else parts[0] + [sep] + Join(sep, parts[1..])
  }

  /** `s.replace(/"/g, '""')`: every double quote written twice. */
  function Escape(s: string): string {
    if s == [] then []
    else (if s[0] == '"' then ['"', '"'] else [s[0]]) + Escape(s[1..])
  }

  /** Writing every doubled quote back as a single quote; every other character is kept. */
  function Unescape(s: string): string {
    if s == [] then []
    else if |s| >= 2 && s[0] == '"' && s[1] == '"' then ['"'] + Unescape(s[2..])
    else [s[0]] + Unescape(s[1..])
  }

  /** One cell: `String(v ?? '')` with its quotes doubled, wrapped in quotes. Taking off the
      outer quotes and collapsing the doubled quotes gives the value back; null and undefined
      come back as the empty string. */
  function Cell(v: Value): (c: string)
    ensures |c| >= 2 && c[0] == '"' && c[|c| - 1] == '"'
    ensures Unescape(c[1..|c| - 1]) == v.GetOr("")
  {
    var c := ['"'] + Escape(v.GetOr("")) + ['"'];
    assert c[1..|c| - 1] == Escape(v.GetOr(""));
    UnescapeEscape(v.GetOr(""));
    c
  }

  function Quote(vals: seq<Value>): seq<string> {
    seq(|vals|, i requires 0 <= i < |vals| => Cell(vals[i]))
  }

  /** The strings a reader gets back for the values: null and undefined read as ''. */
  function Texts(vals: seq<Value>): seq<string> {
    seq(|vals|, i requires 0 <= i < |vals| => vals[i].GetOr(""))
  }

  /** The header line: the record's field names joined by commas, not quoted. */
  function Header(r: Record): string {
    Join(',', Keys(r))
  }

  /** The line of one record: its quoted values joined by commas. */
  function Row(r: Record): string {
    Join(',', Quote(Values(r)))
  }

  function Lines(arr: seq<Record>): seq<string> {
    seq(|arr|, i requires 0 <= i < |arr| => Row(arr[i]))
  }

  /** `convertToCSV(arr)`: the empty string for no records; otherwise the header taken from the
      first record, then one line per record in order, joined by newlines with no newline at
      the end. Later records are not checked against the first record's field names. */
  function ConvertToCsv(arr: seq<Record>): string {
    if |arr| == 0 then "" else Join('\n', [Header(arr[0])] + Lines(arr))
  }

  // ---------------------------------------------------------------------------------------
  // The reader

  /** What a reader gets from a CSV text: the header's names and each row's cell strings. */
  datatype Table = Table(header: seq<string>, rows: seq<seq<string>>)

  /** Splits `s` at its first `sep`: the text before it and, when there is one, the text after. */
  function SplitFirst(sep: char, s: string): (r: (string, Option<string>))
    ensures r.1.Some? ==> |r.1.value| < |s|
  {
    if s == [] then ([], None)
    else if s[0] == sep then ([], Some(s[1..]))
    else
      var (h, t) := SplitFirst(sep, s[1..]);
      ([s[0]] + h, t)
  }

  /** `s.split(sep)`: the pieces between separators; the empty string gives one empty piece. */
  function SplitOn(sep: char, s: string): (parts: seq<string>)
    ensures |parts| > 0
    decreases |s|
  {
    var (h, t) := SplitFirst(sep, s);
    match t
    case None => [h]
    case Some(rest) => [h] + SplitOn(sep, rest)
  }

  /** Reads the inside of a quoted cell, starting just after its opening quote: the content with
      every doubled quote read as one quote, and the text after the closing quote. None when the
      closing quote is missing. */
  function ReadQuoted(s: string): (r: Option<(string, string)>)
    ensures r.Some? ==> |r.value.1| < |s|
  {
    if s == [] then None
    else if s[0] == '"' then
      if |s| >= 2 && s[1] == '"' then
        match ReadQuoted(s[2..])
        case None => None
        case Some((c, rest)) => Some((['"'] + c, rest))
      else Some(([], s[1..]))
    else
      match ReadQuoted(s[1..])
      case None => None
      case Some((c, rest)) => Some(([s[0]] + c, rest))
  }

  /** Reads one quoted cell at the start of `s`. */
  function ReadCell(s: string): (r: Option<(string, string)>)
    ensures r.Some? ==> |r.value.1| < |s|
  {
    if s != [] && s[0] == '"' then ReadQuoted(s[1..]) else None
  }

  /** Reads the comma-separated quoted cells of one row, and the text after the row. */
  function ReadCells(s: string): (r: Option<(seq<string>, string)>)
    ensures r.Some? ==> |r.value.1| < |s|
    decreases |s|
  {
    match ReadCell(s)
    case None => None
    case Some((c, rest)) =>
      if rest != [] && rest[0] == ',' then
        match ReadCells(rest[1..])
        case None => None
        case Some((cs, rest')) => Some(([c] + cs, rest'))
      else Some(([c], rest))
  }

  /** Reads newline-separated rows of quoted cells up to the end of `s`. */
  function ReadRows(s: string): Option<seq<seq<string>>>
    decreases |s|
  {
    match ReadCells(s)
    case None => None
    case Some((cells, rest)) =>
      if rest == [] then Some([cells])
      else if rest[0] == '\n' then
        match ReadRows(rest[1..])
        case None => None
        case Some(rows) => Some([cells] + rows)
      else None
  }

  /** Reads a CSV text: an unquoted header line of comma-separated names, then rows of quoted
      cells. The empty text is the table with no header and no rows. */
  function ReadCsv(text: string): Option<Table> {
    if text == [] then Some(Table([], []))
    else
      var (head, body) := SplitFirst('\n', text);
      match body
      case None => Some(Table(SplitOn(',', head), []))
      case Some(b) =>
        match ReadRows(b)
        case None => None
        case Some(rows) => Some(Table(SplitOn(',', head), rows))
  }

  // ---------------------------------------------------------------------------------------
  // Properties

  /** Collapsing doubled quotes undoes the escaping. */
  lemma {:induction false} UnescapeEscape(s: string)
    ensures Unescape(Escape(s)) == s
  {
    if s != [] {
      UnescapeEscape(s[1..]);
      var e := Escape(s[1..]);
      if s[0] == '"' {
        assert Escape(s) == ['"', '"'] + e;
        assert (['"', '"'] + e)[2..] == e;
      } else {
        assert Escape(s) == [s[0]] + e;
        assert ([s[0]] + e)[1..] == e;
      }
    }
  }

  /** Escaping adds no character other than the double quote and drops none. */
  lemma {:induction false} EscapeKeeps(s: string, c: char)
    requires c != '"'
    ensures c in Escape(s) <==> c in s
  {
    if s != [] {
      EscapeKeeps(s[1..], c);
      assert s == [s[0]] + s[1..];
    }
  }

  /** A character that is neither the separator nor in any part is not in the joined text. */
  lemma {:induction false} JoinExcludes(sep: char, parts: seq<string>, c: char)
    requires c != sep
    requires forall i :: 0 <= i < |parts| ==> c !in parts[i]
    ensures c !in Join(sep, parts)
  {
    if |parts| > 1 {
      JoinExcludes(sep, parts[1..], c);
    }
  }

  lemma {:induction false} SplitFirstAt(sep: char, a: string, b: string)
    requires sep !in a
    ensures SplitFirst(sep, a + [sep] + b) == (a, Some(b))
  {
    if a == [] {
      assert a + [sep] + b == [sep] + b;
    } else {
      SplitFirstAt(sep, a[1..], b);
      assert (a + [sep] + b)[1..] == a[1..] + [sep] + b;
      assert [a[0]] + a[1..] == a;
    }
  }

  lemma {:induction false} SplitFirstNone(sep: char, a: string)
    requires sep !in a
    ensures SplitFirst(sep, a) == (a, None)
  {
    if a != [] {
      SplitFirstNone(sep, a[1..]);
      assert [a[0]] + a[1..] == a;
    }
  }

  /** Splitting a join gives the parts back when no part holds the separator. */
  lemma {:induction false} SplitOnJoin(sep: char, parts: seq<string>)
    requires |parts| > 0
    requires forall i :: 0 <= i < |parts| ==> sep !in parts[i]
    ensures SplitOn(sep, Join(sep, parts)) == parts
  {
    if |parts| == 1 {
      SplitFirstNone(sep, parts[0]);
    } else {
      SplitFirstAt(sep, parts[0], Join(sep, parts[1..]));
      SplitOnJoin(sep, parts[1..]);
      assert parts == [parts[0]] + parts[1..];
    }
  }

  /** A quoted cell followed by anything but a quote reads back as the value's text. */
  lemma {:induction false} ReadQuotedEscape(v: string, rest: string)
    requires rest == [] || rest[0] != '"'
    ensures ReadQuoted(Escape(v) + ['"'] + rest) == Some((v, rest))
  {
    var s := Escape(v) + ['"'] + rest;
    if v == [] {
      assert s == ['"'] + rest;
      assert s[1..] == rest;
    } else {
      ReadQuotedEscape(v[1..], rest);
      var tail := Escape(v[1..]) + ['"'] + rest;
      if v[0] == '"' {
        assert s == ['"', '"'] + tail;
        assert s[2..] == tail;
      } else {
        assert s == [v[0]] + tail;
        assert s[1..] == tail;
      }
      assert [v[0]] + v[1..] == v;
    }
  }

  lemma ReadCellOf(v: Value, rest: string)
    requires rest == [] || rest[0] != '"'
    ensures ReadCell(Cell(v) + rest) == Some((v.GetOr(""), rest))
  {
    var x := v.GetOr("");
    var e := Escape(x);
    var s := Cell(v) + rest;
    CellShape(v);
    assert s == ['"'] + (e + ['"'] + rest);
    assert s[1..] == e + ['"'] + rest;
    ReadQuotedEscape(x, rest);
  }

  lemma CellShape(v: Value)
    ensures Cell(v) == ['"'] + Escape(v.GetOr("")) + ['"']
  {
  }

  lemma ReadCellsLast(v: Value, rest: string)
    requires rest == [] || (rest[0] != ',' && rest[0] != '"')
    ensures ReadCells(Cell(v) + rest) == Some(([v.GetOr("")], rest))
  {
    ReadCellOf(v, rest);
  }

  lemma ReadCellsNext(v: Value, tail: string, cells: seq<string>, rest: string)
    requires ReadCells(tail) == Some((cells, rest))
    ensures ReadCells(Cell(v) + [','] + tail) == Some(([v.GetOr("")] + cells, rest))
  {
    var after := [','] + tail;
    ReadCellOf(v, after);
    assert Cell(v) + [','] + tail == Cell(v) + after;
    assert after[1..] == tail;
  }

  /** A row of quoted cells reads back as the values' texts, and the reader stops at the text
      that follows the row. */
  lemma {:induction false} ReadCellsOfRow(vals: seq<Value>, rest: string)
    requires |vals| > 0
    requires rest == [] || (rest[0] != ',' && rest[0] != '"')
    ensures ReadCells(Join(',', Quote(vals)) + rest) == Some((Texts(vals), rest))
  {
    var q := Quote(vals);
    QuoteTexts(vals);
    if |vals| == 1 {
      assert q == [Cell(vals[0])] && Texts(vals[1..]) == [];
      assert Texts(vals) == [vals[0].GetOr("")];
      assert Join(',', q) == Cell(vals[0]);
      ReadCellsLast(vals[0], rest);
    } else {
      var tail := Join(',', Quote(vals[1..]));
      assert Join(',', q) == Cell(vals[0]) + [','] + tail;
      assert Join(',', q) + rest == Cell(vals[0]) + [','] + (tail + rest);
      ReadCellsOfRow(vals[1..], rest);
      ReadCellsNext(vals[0], tail + rest, Texts(vals[1..]), rest);
    }
  }

  lemma QuoteTexts(vals: seq<Value>)
    requires |vals| > 0
    ensures Quote(vals) == [Cell(vals[0])] + Quote(vals[1..])
    ensures Texts(vals) == [vals[0].GetOr("")] + Texts(vals[1..])
  {
  }

  /** The texts a reader gets back for one record. */
  function RecordTexts(r: Record): seq<string> {
    Texts(Values(r))
  }

  /** The texts a reader gets back for each record, in order. */
  function RowTexts(arr: seq<Record>): seq<seq<string>> {
    seq(|arr|, i requires 0 <= i < |arr| => RecordTexts(arr[i]))
  }

  /** Newline-joined record lines read back as the records' texts, one row per record. */
  lemma {:induction false} ReadRowsOfLines(arr: seq<Record>)
    requires |arr| > 0
    requires forall i :: 0 <= i < |arr| ==> |arr[i]| > 0
    ensures ReadRows(Join('\n', Lines(arr))) == Some(RowTexts(arr))
  {
    var ls := Lines(arr);
    LinesRowTexts(arr);
    if |arr| == 1 {
      assert ls == [Row(arr[0])] && RowTexts(arr[1..]) == [];
      assert RowTexts(arr) == [RecordTexts(arr[0])];
      assert Join('\n', ls) == Row(arr[0]) == Row(arr[0]) + [];
      ReadCellsOfRow(Values(arr[0]), []);
    } else {
      var tail := Join('\n', Lines(arr[1..]));
      var after := ['\n'] + tail;
      assert Join('\n', ls) == Row(arr[0]) + after;
      ReadCellsOfRow(Values(arr[0]), after);
      assert after[1..] == tail;
      ReadRowsOfLines(arr[1..]);
    }
  }

  lemma LinesRowTexts(arr: seq<Record>)
    requires |arr| > 0
    ensures Lines(arr) == [Row(arr[0])] + Lines(arr[1..])
    ensures RowTexts(arr) == [RecordTexts(arr[0])] + RowTexts(arr[1..])
  {
  }

  /** `convertToCSV` returns the empty string exactly for the empty array: any record gives at
      least the newline between the header and its line. */
  lemma ConvertToCsvEmpty(arr: seq<Record>)
    ensures ConvertToCsv(arr) == "" <==> arr == []
  {
    if arr != [] {
      var parts := [Header(arr[0])] + Lines(arr);
      assert |parts| >= 2 && parts[1..] == Lines(arr);
      assert ConvertToCsv(arr) == Header(arr[0]) + ['\n'] + Join('\n', Lines(arr));
    }
  }

  /** The records the round trip applies to: every record has at least one field, and the
      header's names hold no comma and no newline (the header is not quoted). */
  predicate Readable(arr: seq<Record>) {
    && (forall i :: 0 <= i < |arr| ==> |arr[i]| > 0)
    && (|arr| > 0 ==> forall j :: 0 <= j < |arr[0]| ==> ',' !in arr[0][j].key && '\n' !in arr[0][j].key)
  }

  /** Reading what `convertToCSV` wrote gives back the first record's field names and, for each
      record in order, its values as strings (null and undefined as ''). */
  lemma ConvertToCsvRoundTrip(arr: seq<Record>)
    requires Readable(arr)
    ensures ReadCsv(ConvertToCsv(arr)) == Some(Table(
      if arr == [] then [] else Keys(arr[0]),
      RowTexts(arr)))
  {
    if arr != [] {
      var h := Header(arr[0]);
      var body := Join('\n', Lines(arr));
      assert ([h] + Lines(arr))[1..] == Lines(arr);
      assert ConvertToCsv(arr) == h + ['\n'] + body;
      var keys := Keys(arr[0]);
      assert forall j :: 0 <= j < |keys| ==> ',' !in keys[j] && '\n' !in keys[j];
      JoinExcludes(',', keys, '\n');
      SplitFirstAt('\n', h, body);
      assert SplitFirst('\n', ConvertToCsv(arr)) == (h, Some(body));
      ReadRowsOfLines(arr);
      SplitOnJoin(',', keys);
    } else {
      assert RowTexts(arr) == [];
    }
  }

  /** When no field name and no value holds a newline, the text has exactly one line for the
      header and one per record, in order. */
  lemma ConvertToCsvLines(arr: seq<Record>)
    requires |arr| > 0
    requires forall j :: 0 <= j < |arr[0]| ==> '\n' !in arr[0][j].key
    requires forall i, j :: 0 <= i < |arr| && 0 <= j < |arr[i]| ==> '\n' !in arr[i][j].value.GetOr("")
    ensures SplitOn('\n', ConvertToCsv(arr)) == [Header(arr[0])] + Lines(arr)
    ensures |SplitOn('\n', ConvertToCsv(arr))| == |arr| + 1
  {
    JoinExcludes(',', Keys(arr[0]), '\n');
    forall i | 0 <= i < |arr|
      ensures '\n' !in Row(arr[i])
    {
      forall j | 0 <= j < |arr[i]|
        ensures '\n' !in Quote(Values(arr[i]))[j]
      {
        EscapeKeeps(arr[i][j].value.GetOr(""), '\n');
      }
      JoinExcludes(',', Quote(Values(arr[i])), '\n');
    }
    SplitOnJoin('\n', [Header(arr[0])] + Lines(arr));
  }
}
