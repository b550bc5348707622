/**
 * The CSV export of form submissions: the column set is the three fixed
 * leading columns, every data key seen in any submission (in order of first
 * appearance) and seven fixed trailing columns; every submission becomes one
 * row of the same width; every cell is written in double quotes with inner
 * quotes doubled, and the lines are joined with '\n'. The database query,
 * `Date.toISOString` and `JSON.stringify` are not part of this model: the
 * time stamp and the JSON text of an object value are given as text.
 */
module CsvExport {
  import opened Text
  import opened Seqs

  /** A stored data value: `null`, an object (kept as its JSON text) or a scalar (kept as `String(value)`). */
  datatype DataValue = NullValue | ObjectValue(json: string) | ScalarValue(text: string)

  /** One stored submission; `data` lists the entries of the data object in key order. */
  datatype Submission = Submission(
    id: string, formName: string, createdAt: string,
    data: seq<(string, DataValue)>,
    ipAddress: Option<string>, userAgent: Option<string>, referer: Option<string>,
    webhookSent: bool, webhookError: Option<string>,
    emailSent: bool, emailError: Option<string>)

  /** 404 when there is nothing to export, else the file's text. */
  datatype Response = NotFound | CsvFile(content: string)

  const Leading: seq<string> := ["Submission ID", "Form Name", "Submitted At"]
  const Trailing: seq<string> := ["IP Address", "User Agent", "Referer", "Webhook Sent", "Webhook Error", "Email Sent", "Email Error"]

  // ---------------------------------------------------------------------
  // The column set
  // ---------------------------------------------------------------------

  /** `Object.keys(data)` */
  function EntryKeys(data: seq<(string, DataValue)>): (ks: seq<string>)
    ensures |ks| == |data|
    ensures forall j :: 0 <= j < |data| ==> ks[j] == data[j].0
  {
    seq(|data|, j requires 0 <= j < |data| => data[j].0)
  }

  /** The `fieldKeys` set after visiting every submission in order. */
  function FieldKeys(subs: seq<Submission>): seq<string>
  {
    if subs == [] then []
    else InsertAll(FieldKeys(subs[..|subs| - 1]), EntryKeys(subs[|subs| - 1].data))
  }

  /** The column keys are distinct, and a key is a column exactly when some submission's data has it. */
  lemma {:induction false} FieldKeysCharacterised(subs: seq<Submission>)
    ensures NoDuplicates(FieldKeys(subs))
    ensures forall k :: k in FieldKeys(subs) <==>
      exists i, j :: 0 <= i < |subs| && 0 <= j < |subs[i].data| && subs[i].data[j].0 == k
  {
    if subs != [] {
      var init := subs[..|subs| - 1];
      var last := subs[|subs| - 1];
      FieldKeysCharacterised(init);
      InsertAllMembers(FieldKeys(init), EntryKeys(last.data));
      forall k
        ensures k in FieldKeys(subs) <==>
          exists i, j :: 0 <= i < |subs| && 0 <= j < |subs[i].data| && subs[i].data[j].0 == k
      {
        if k in FieldKeys(subs) {
          if k in EntryKeys(last.data) {
            var j :| 0 <= j < |last.data| && EntryKeys(last.data)[j] == k;
            assert subs[|subs| - 1].data[j].0 == k;
          } else {
            var i, j :| 0 <= i < |init| && 0 <= j < |init[i].data| && init[i].data[j].0 == k;
            assert subs[i].data[j].0 == k;
          }
        }
        if exists i, j :: 0 <= i < |subs| && 0 <= j < |subs[i].data| && subs[i].data[j].0 == k {
          var i, j :| 0 <= i < |subs| && 0 <= j < |subs[i].data| && subs[i].data[j].0 == k;
          if i < |init| {
            assert init[i].data[j].0 == k;
          } else {
            assert EntryKeys(last.data)[j] == k;
          }
        }
      }
    }
  }

  /** The loop that fills `fieldKeys`, one data key at a time. */
  method CollectFieldKeys(subs: seq<Submission>) returns (keys: seq<string>)
    ensures keys == FieldKeys(subs)
  {
    keys := [];
    for i := 0 to |subs|
      invariant keys == FieldKeys(subs[..i])
    {
      var data := subs[i].data;
      ghost var start := keys;
      for j := 0 to |data|
        invariant keys == InsertAll(start, EntryKeys(data)[..j])
      {
        assert EntryKeys(data)[..j + 1][..j] == EntryKeys(data)[..j];
        if data[j].0 !in keys {
          keys := keys + [data[j].0];
        }
      }
      assert EntryKeys(data)[..|data|] == EntryKeys(data);
      assert subs[..i + 1][..i] == subs[..i];
    }
    assert subs[..|subs|] == subs;
  }

  // ---------------------------------------------------------------------
  // The table
  // ---------------------------------------------------------------------

  /** The header cells. */
  function Header(keys: seq<string>): (h: seq<string>)
    ensures |h| == 10 + |keys|
    ensures h[..3] == Leading && h[3..3 + |keys|] == keys && h[3 + |keys|..] == Trailing
  {
    Leading + keys + Trailing
  }

  /** The value stored under a key, if any (the first entry with that key). */
  function Lookup(data: seq<(string, DataValue)>, key: string): (r: Option<DataValue>)
    ensures r.Some? <==> exists j :: 0 <= j < |data| && data[j].0 == key
  {
    if data == [] then None
    else if data[0].0 == key then Some(data[0].1)
    else Lookup(data[1..], key)
  }

  /** A data cell: nothing or `null` is empty, an object is its JSON, anything else its text. */
  function CellText(v: Option<DataValue>): (cell: string)
    ensures (v.None? || v.value.NullValue?) ==> cell == ""
    ensures v.Some? && v.value.ObjectValue? ==> cell == v.value.json
    ensures v.Some? && v.value.ScalarValue? ==> cell == v.value.text
  {
    match v
    case None => ""
    case Some(NullValue) => ""
    case Some(ObjectValue(json)) => json
    case Some(ScalarValue(text)) => text
  }

  /**
   * The cell of a column is read from the submission's entry for that key: a
   * missing key and a stored `null` both give the empty cell, an object its
   * JSON text and any other value its text.
   */
  lemma {:induction false} CellOfStoredValue(data: seq<(string, DataValue)>, key: string, i: nat)
    requires i < |data| && data[i].0 == key
    requires forall j :: 0 <= j < i ==> data[j].0 != key
    ensures CellText(Lookup(data, key)) ==
      match data[i].1
      case NullValue => ""
      case ObjectValue(json) => json
      case ScalarValue(text) => text
  {
    if i > 0 {
      CellOfStoredValue(data[1..], key, i - 1);
    }
  }

  /** A key that no entry has gives the empty cell. */
  lemma CellOfMissingKey(data: seq<(string, DataValue)>, key: string)
    requires forall j :: 0 <= j < |data| ==> data[j].0 != key
    ensures CellText(Lookup(data, key)) == ""
  {
  }

  /** `value || ''` */
  function OrEmpty(s: Option<string>): string
  {
    if s.Some? then s.value else ""
  }

  function YesNo(b: bool): string
  {
    if b then "Yes" else "No"
  }

  /** The data cells of one submission, one per column key. */
  function DataCells(data: seq<(string, DataValue)>, keys: seq<string>): (cells: seq<string>)
    ensures |cells| == |keys|
    ensures forall j :: 0 <= j < |keys| ==> cells[j] == CellText(Lookup(data, keys[j]))
  {
    seq(|keys|, j requires 0 <= j < |keys| => CellText(Lookup(data, keys[j])))
  }

  /** One submission's row, aligned with `Header(keys)`. */
  function Row(sub: Submission, keys: seq<string>): (row: seq<string>)
    ensures |row| == |Header(keys)|
    ensures row[..3] == [sub.id, sub.formName, sub.createdAt]
    ensures forall j :: 0 <= j < |keys| ==> row[3 + j] == CellText(Lookup(sub.data, keys[j]))
    ensures row[3 + |keys|..] == [
      OrEmpty(sub.ipAddress), OrEmpty(sub.userAgent), OrEmpty(sub.referer),
      YesNo(sub.webhookSent), OrEmpty(sub.webhookError), YesNo(sub.emailSent), OrEmpty(sub.emailError)]
  {
    var lead := [sub.id, sub.formName, sub.createdAt];
    var cells := DataCells(sub.data, keys);
    var trail := [
      OrEmpty(sub.ipAddress), OrEmpty(sub.userAgent), OrEmpty(sub.referer),
      YesNo(sub.webhookSent), OrEmpty(sub.webhookError), YesNo(sub.emailSent), OrEmpty(sub.emailError)];
    assert (lead + cells + trail)[3 + |keys|..] == trail;
    lead + cells + trail
  }

  /** The rows of all submissions, in order. */
  function Rows(subs: seq<Submission>, keys: seq<string>): (rows: seq<seq<string>>)
    ensures |rows| == |subs|
    ensures forall i :: 0 <= i < |subs| ==> rows[i] == Row(subs[i], keys)
  {
    seq(|subs|, i requires 0 <= i < |subs| => Row(subs[i], keys))
  }

  /** The whole table: the header followed by one row per submission. */
  function Table(subs: seq<Submission>): (t: seq<seq<string>>)
    ensures |t| == |subs| + 1 && t[0] == Header(FieldKeys(subs)) && t[1..] == Rows(subs, FieldKeys(subs))
  {
    [Header(FieldKeys(subs))] + Rows(subs, FieldKeys(subs))
  }

  /** Every line of the table is as wide as the header. */
  lemma TableIsRectangular(subs: seq<Submission>)
    ensures forall i :: 0 <= i < |Table(subs)| ==> |Table(subs)[i]| == |Table(subs)[0]|
  {
  }

  // ---------------------------------------------------------------------
  // Quoting and the file text
  // ---------------------------------------------------------------------

  /** `replace(/"/g, '""')` */
  function Escape(s: string): (r: string)
    ensures |r| >= |s|
    ensures '"' !in s ==> r == s
  {
    if s == [] then []
    else (if s[0] == '"' then "\"\"" else [s[0]]) + Escape(s[1..])
  }

  /** A quoted cell. */
  function Quote(s: string): (q: string)
    ensures |q| >= 2 && q[0] == '"' && q[|q| - 1] == '"'
  {
    "\"" + Escape(s) + "\""
  }

  function QuoteAll(cells: seq<string>): (qs: seq<string>)
    ensures |qs| == |cells|
    ensures forall k :: 0 <= k < |cells| ==> qs[k] == Quote(cells[k])
  {
    if cells == [] then [] else [Quote(cells[0])] + QuoteAll(cells[1..])
  }

  /** One CSV line: the quoted cells joined with ','. */
  function Line(cells: seq<string>): string
  {
    Join(QuoteAll(cells), ',')
  }

  function Lines(table: seq<seq<string>>): (ls: seq<string>)
    ensures |ls| == |table|
  {
    if table == [] then [] else [Line(table[0])] + Lines(table[1..])
  }

  /** The file text: the lines joined with '\n'. */
  function Document(table: seq<seq<string>>): string
  {
    Join(Lines(table), '\n')
  }

  /** The header line as the export writes it: each name in quotes, but inner quotes are not doubled. */
  function HeaderLineAsWritten(header: seq<string>): string
  {
    Join(RawQuoteAll(header), ',')
  }

  function RawQuoteAll(cells: seq<string>): (qs: seq<string>)
    ensures |qs| == |cells|
    ensures forall k :: 0 <= k < |cells| ==> qs[k] == "\"" + cells[k] + "\""
  {
    if cells == [] then [] else ["\"" + cells[0] + "\""] + RawQuoteAll(cells[1..])
  }

  /** Without any '"' in the column names the header line as written is the properly quoted one. */
  lemma {:induction false} HeaderAsWrittenAgrees(header: seq<string>)
    requires forall i :: 0 <= i < |header| ==> '"' !in header[i]
    ensures HeaderLineAsWritten(header) == Line(header)
  {
    RawQuoteAgrees(header);
  }

  lemma {:induction false} RawQuoteAgrees(cells: seq<string>)
    requires forall i :: 0 <= i < |cells| ==> '"' !in cells[i]
    ensures RawQuoteAll(cells) == QuoteAll(cells)
  {
    if cells != [] {
      RawQuoteAgrees(cells[1..]);
    }
  }

  // ---------------------------------------------------------------------
  // Reading the file back
  // ---------------------------------------------------------------------

  /** Reads the rest of a quoted cell after its opening quote: `""` is one quote, a lone `"` ends the cell. */
  function ParseQuoted(t: string, acc: string): (r: Option<(string, string)>)
    ensures r.Some? ==> |r.value.1| < |t|
    decreases |t|
  {
    if t == [] then None
    else if t[0] == '"' then
      if |t| > 1 && t[1] == '"' then ParseQuoted(t[2..], acc + ['"'])
      else Some((acc, t[1..]))
    else ParseQuoted(t[1..], acc + [t[0]])
  }

  /** Reads one quoted cell, giving its text and what follows it. */
  function ParseCell(t: string): (r: Option<(string, string)>)
    ensures r.Some? ==> |r.value.1| < |t|
  {
    if t != [] && t[0] == '"' then ParseQuoted(t[1..], []) else None
  }

  /** Reads ','-separated quoted cells up to the end of a line. */
  function ParseRow(t: string): (r: Option<(seq<string>, string)>)
    ensures r.Some? ==> |r.value.1| < |t|
    decreases |t|
  {
    match ParseCell(t)
    case None => None
    case Some((cell, rest)) =>
      if rest != [] && rest[0] == ',' then
        match ParseRow(rest[1..])
        case None => None
        case Some((cells, after)) => Some(([cell] + cells, after))
      else Some(([cell], rest))
  }

  /** Reads '\n'-separated lines of quoted cells. */
  function ParseCsv(t: string): Option<seq<seq<string>>>
    decreases |t|
  {
    match ParseRow(t)
    case None => None
    case Some((row, rest)) =>
      if rest == [] then Some([row])
      else if rest[0] == '\n' then
        match ParseCsv(rest[1..])
        case None => None
        case Some(more) => Some([row] + more)
      else None
  }

  lemma {:induction false} ParseEscaped(s: string, acc: string, rest: string)
    requires rest == [] || rest[0] != '"'
    ensures ParseQuoted(Escape(s) + "\"" + rest, acc) == Some((acc + s, rest))
    decreases |s|
  {
    if s == [] {
      var t := Escape(s) + "\"" + rest;
      assert t == "\"" + rest;
      assert t[1..] == rest;
      assert acc + s == acc;
    } else {
      ParseEscaped(s[1..], acc + [s[0]], rest);
      ParseEscapedStep(s, acc, rest);
      ShiftHead(acc, s);
    }
  }

  /** Reading an escaped first character moves it to the text read so far. */
  lemma {:induction false} ParseEscapedStep(s: string, acc: string, rest: string)
    requires s != []
    ensures ParseQuoted(Escape(s) + "\"" + rest, acc) == ParseQuoted(Escape(s[1..]) + "\"" + rest, acc + [s[0]])
  {
    var head := if s[0] == '"' then "\"\"" else [s[0]];
    var tail := Escape(s[1..]) + "\"" + rest;
    var t := Escape(s) + "\"" + rest;
    assert Escape(s) == head + Escape(s[1..]);
    RegroupAppend(head, Escape(s[1..]), "\"", rest);
    assert t == head + tail;
    AppendHalves(head, tail);
    if s[0] == '"' {
      assert t[0] == '"' && t[1] == '"' && t[2..] == tail;
      assert ParseQuoted(t, acc) == ParseQuoted(tail, acc + ['"']);
    } else {
      assert t[0] == s[0] && t[1..] == tail;
      assert ParseQuoted(t, acc) == ParseQuoted(tail, acc + [s[0]]);
    }
  }

  /** A quoted cell reads back as its text. */
  lemma {:induction false} ParseQuotedCell(s: string, rest: string)
    requires rest == [] || rest[0] != '"'
    ensures ParseCell(Quote(s) + rest) == Some((s, rest))
  {
    ParseEscaped(s, [], rest);
    var t := Quote(s) + rest;
    assert t[0] == '"';
    assert t[1..] == Escape(s) + "\"" + rest;
    assert [] + s == s;
  }

  /** A line reads back as its cells. */
  lemma {:induction false} ParseLine(cells: seq<string>, rest: string)
    requires |cells| >= 1
    requires rest == [] || (rest[0] != '"' && rest[0] != ',')
    ensures ParseRow(Line(cells) + rest) == Some((cells, rest))
    decreases |cells|
  {
    if |cells| == 1 {
      ParseOneCellLine(cells, rest);
    } else {
      ParseLine(cells[1..], rest);
      ParseLineStep(cells, rest);
    }
  }

  /** A line of several cells reads back as its cells once the line of the others does. */
  lemma {:induction false} ParseLineStep(cells: seq<string>, rest: string)
    requires |cells| >= 2
    requires ParseRow(Line(cells[1..]) + rest) == Some((cells[1..], rest))
    ensures ParseRow(Line(cells) + rest) == Some((cells, rest))
  {
    var q := Quote(cells[0]);
    var tail := Line(cells[1..]) + rest;
    var t := Line(cells) + rest;
    LineConsText(cells, rest);
    ParseQuotedCell(cells[0], "," + tail);
    ParseRowAfterComma(t, cells[0], tail, cells[1..], rest);
    assert [cells[0]] + cells[1..] == cells;
  }

  /** A line of one cell reads back as that cell. */
  lemma {:induction false} ParseOneCellLine(cells: seq<string>, rest: string)
    requires |cells| == 1
    requires rest == [] || (rest[0] != '"' && rest[0] != ',')
    ensures ParseRow(Line(cells) + rest) == Some((cells, rest))
  {
    var qs := QuoteAll(cells);
    assert qs == [Quote(cells[0])];
    assert Line(cells) == Quote(cells[0]);
    ParseQuotedCell(cells[0], rest);
    assert [cells[0]] == cells;
  }

  /** A line of several cells is the first one quoted, a ',' and the line of the others. */
  lemma {:induction false} LineCons(cells: seq<string>)
    requires |cells| >= 2
    ensures Line(cells) == Quote(cells[0]) + "," + Line(cells[1..])
  {
    var qs := QuoteAll(cells);
    var more := QuoteAll(cells[1..]);
    assert qs == [Quote(cells[0])] + more;
    assert qs[0] == Quote(cells[0]) && qs[1..] == more && |qs| >= 2;
    assert Join(qs, ',') == qs[0] + [','] + Join(qs[1..], ',');
  }

  /** The text of a line of several cells and what follows it, split after the first cell. */
  lemma {:induction false} LineConsText(cells: seq<string>, rest: string)
    requires |cells| >= 2
    ensures Line(cells) + rest == Quote(cells[0]) + ("," + (Line(cells[1..]) + rest))
  {
    LineCons(cells);
    RegroupAppend(Quote(cells[0]), ",", Line(cells[1..]), rest);
  }

  /** A cell followed by ',' and a row reads as one longer row. */
  lemma ParseRowAfterComma(t: string, cell: string, tail: string, cells: seq<string>, rest: string)
    requires ParseCell(t) == Some((cell, "," + tail))
    requires ParseRow(tail) == Some((cells, rest))
    ensures ParseRow(t) == Some(([cell] + cells, rest))
  {
    assert ("," + tail)[1..] == tail;
  }

  /** The text of a table whose lines all have cells reads back as the table. */
  lemma {:induction false} ParseDocument(table: seq<seq<string>>)
    requires |table| >= 1
    requires forall i :: 0 <= i < |table| ==> |table[i]| >= 1
    ensures ParseCsv(Document(table)) == Some(table)
    decreases |table|
  {
    var ls := Lines(table);
    if |table| == 1 {
      assert ls == [Line(table[0])];
      assert Document(table) == Line(table[0]) + [];
      ParseLine(table[0], []);
      assert [table[0]] == table;
    } else {
      assert ls[1..] == Lines(table[1..]);
      var tail := Document(table[1..]);
      var after := "\n" + tail;
      assert Document(table) == Line(table[0]) + after;
      ParseLine(table[0], after);
      ParseDocument(table[1..]);
      assert after[1..] == tail;
      assert ParseCsv(Line(table[0]) + after) == Some([table[0]] + table[1..]);
      assert [table[0]] + table[1..] == table;
    }
  }

  /** A header name holding a quote, written as the export does, reads back cut short at the quote. */
  lemma RawHeaderCellMisreads()
    ensures ParseCell("\"" + "a\"b" + "\"") == Some(("a", "b\""))
    ensures ParseCell(Quote("a\"b")) == Some(("a\"b", ""))
  {
    assert "\"" + "a\"b" + "\"" == "\"a\"b\"";
    assert ParseQuoted("\"b\"", "a") == Some(("a", "b\""));
    var t := "a\"b\"";
    assert t[1..] == "\"b\"" && [] + [t[0]] == "a";
    ParseQuotedCell("a\"b", []);
    assert Quote("a\"b") + [] == Quote("a\"b");
  }

  // ---------------------------------------------------------------------
  // The endpoint
  // ---------------------------------------------------------------------

  /** The text of the exported file, with every cell (header names included) properly quoted. */
  function ExportText(subs: seq<Submission>): string
  {
    Document(Table(subs))
  }

  /** The exported file reads back as exactly the header and the rows. */
  lemma ExportRoundTrip(subs: seq<Submission>)
    ensures ParseCsv(ExportText(subs)) == Some(Table(subs))
  {
    var t := Table(subs);
    assert forall i :: 0 <= i < |t| ==> |t[i]| >= 1 by {
      TableIsRectangular(subs);
    }
    ParseDocument(t);
  }

  /** GET: 404 without submissions; otherwise the CSV text of the table. */
  method Export(subs: seq<Submission>) returns (response: Response)
    ensures subs == [] <==> response == NotFound
    ensures subs != [] ==> response == CsvFile(ExportText(subs))
  {
    if |subs| == 0 {
      return NotFound;
    }
    var keys := CollectFieldKeys(subs);
    var header := Leading + keys + Trailing;
    var lines := [Line(header)];
    for i := 0 to |subs|
      invariant lines == Lines([header] + Rows(subs[..i], keys))
    {
      LinesStep(header, subs, keys, i);
      lines := lines + [Line(Row(subs[i], keys))];
    }
    assert subs[..|subs|] == subs;
    return CsvFile(Join(lines, '\n'));
  }

  lemma LinesStep(header: seq<string>, subs: seq<Submission>, keys: seq<string>, i: nat)
    requires i < |subs|
    ensures Lines([header] + Rows(subs[..i + 1], keys)) == Lines([header] + Rows(subs[..i], keys)) + [Line(Row(subs[i], keys))]
  {
    assert Rows(subs[..i + 1], keys) == Rows(subs[..i], keys) + [Row(subs[i], keys)];
    LinesAppend([header] + Rows(subs[..i], keys), Row(subs[i], keys));
    assert [header] + Rows(subs[..i + 1], keys) == [header] + Rows(subs[..i], keys) + [Row(subs[i], keys)];
  }

  lemma {:induction false} LinesAppend(table: seq<seq<string>>, row: seq<string>)
    ensures Lines(table + [row]) == Lines(table) + [Line(row)]
  {
    if table != [] {
      LinesAppend(table[1..], row);
      assert (table + [row])[1..] == table[1..] + [row];
    }
  }
}
