/** CSV export with a byte-order mark, formula neutralising and RFC 4180 quoting, and a reader for it. */
module Csv {
  import opened Prelude

  const UTF8_BOM := "\U{FEFF}"

  /** A number arrives as the text JavaScript prints for it, which needs no quoting. */
  type Numeral = s: string | s != "" && forall c | c in s :: IsNumeralChar(c) witness "0"

  predicate IsNumeralChar(c: char) {
    '0' <= c <= '9' || 'a' <= c <= 'z' || 'A' <= c <= 'Z' || c in {'+', '-', '.'}
  }

  datatype CsvValue = Absent | Num(numeral: Numeral) | Text(text: string)

  predicate IsFormulaLead(c: char) {
    c in {'=', '+', '-', '@', '\t', '\r'}
  }

  predicate LeadsFormula(s: string) {
    s != "" && IsFormulaLead(s[0])
  }

  predicate IsSpecial(c: char) {
    c in {'"', ',', '\n', '\r'}
  }

  predicate NeedsQuoting(s: string) {
    exists c | c in s :: IsSpecial(c)
  }

  /** Text made inert: a leading apostrophe in front of anything a spreadsheet would run. */
  function Neutralised(s: string): string {
    if LeadsFormula(s) then "'" + s else s
  }

  function DoubleQuotes(s: string): string {
    if s == "" then "" else (if s[0] == '"' then "\"\"" else [s[0]]) + DoubleQuotes(s[1..])
  }

  function Quoted(s: string): string {
    "\"" + DoubleQuotes(s) + "\""
  }

  function Cell(v: CsvValue): string {
    match v
    case Absent => ""
    case Num(numeral) => numeral
    case Text(text) =>
      var safe := Neutralised(text);
      if LeadsFormula(text) || NeedsQuoting(safe) then Quoted(safe) else safe
  }

  function Join(parts: seq<string>, separator: string): string {
    if parts == [] then ""
    else if |parts| == 1 then parts[0]
    else parts[0] + separator + Join(parts[1..], separator)
  }

  function Cells(row: seq<CsvValue>): (r: seq<string>)
    ensures |r| == |row|
  {
    seq(|row|, i requires 0 <= i < |row| => Cell(row[i]))
  }

  function Line(row: seq<CsvValue>): string {
    Join(Cells(row), ",")
  }

  function Texts(header: seq<string>): seq<CsvValue> {
    seq(|header|, i requires 0 <= i < |header| => Text(header[i]))
  }

  function Lines(table: seq<seq<CsvValue>>): seq<string> {
    seq(|table|, i requires 0 <= i < |table| => Line(table[i]))
  }

  function ToCsv(header: seq<string>, rows: seq<seq<CsvValue>>): string {
    UTF8_BOM + Join(Lines([Texts(header)] + rows), "\n") + "\n"
  }

  // ---- A reader after RFC 4180 section 2, records ending in LF ----

  /** One field off the front: its text, and what is left, starting with the separator that ended it. */
  function ReadPlain(s: string): (string, string) {
    if s == "" || s[0] in {',', '\n'} then ("", s)
    else var (field, rest) := ReadPlain(s[1..]); ([s[0]] + field, rest)
  }

  /** The inside of a quoted field: doubled quotes stand for one, a single quote ends it. */
  function ReadQuoted(s: string): Option<(string, string)> {
    if s == "" then None
    else if s[0] != '"' then
      match ReadQuoted(s[1..])
      case None => None
      case Some((field, rest)) => Some(([s[0]] + field, rest))
    else if |s| >= 2 && s[1] == '"' then
      match ReadQuoted(s[2..])
      case None => None
      case Some((field, rest)) => Some((['"'] + field, rest))
    else Some(("", s[1..]))
  }

  function ReadField(s: string): (r: Option<(string, string)>)
    ensures r.Some? ==> |r.value.1| <= |s|
  {
    if s != "" && s[0] == '"' then ReadQuotedShorter(s[1..]); ReadQuoted(s[1..])
    else ReadPlainShorter(s); Some(ReadPlain(s))
  }

  lemma {:induction false} ReadQuotedShorter(s: string)
    ensures ReadQuoted(s).Some? ==> |ReadQuoted(s).value.1| <= |s|
  {
    if s != "" {
      ReadQuotedShorter(s[1..]);
      if |s| >= 2 {
        ReadQuotedShorter(s[2..]);
      }
    }
  }

  lemma {:induction false} ReadPlainShorter(s: string)
    ensures |ReadPlain(s).1| <= |s|
  {
    if s != "" {
      ReadPlainShorter(s[1..]);
    }
  }

  /** The fields of one record, up to and past its LF. */
  function ReadRecord(s: string): Option<(seq<string>, string)>
    decreases |s|
  {
    match ReadField(s)
    case None => None
    case Some((field, rest)) =>
      if rest == "" then None
      else if rest[0] == '\n' then Some(([field], rest[1..]))
      else if rest[0] != ',' then None
      else
        match ReadRecord(rest[1..])
        case None => None
        case Some((fields, more)) => Some(([field] + fields, more))
  }

  lemma {:induction false} ReadRecordShorter(s: string)
    ensures ReadRecord(s).Some? ==> |ReadRecord(s).value.1| < |s|
    decreases |s|
  {
    var field := ReadField(s);
    if field.Some? && field.value.1 != "" && field.value.1[0] == ',' {
      ReadRecordShorter(field.value.1[1..]);
    }
  }

  function ReadRecords(s: string): Option<seq<seq<string>>>
    decreases |s|
  {
    if s == "" then Some([])
    else
      match ReadRecord(s)
      case None => None
      case Some((fields, rest)) =>
        ReadRecordShorter(s);
        match ReadRecords(rest)
        case None => None
        case Some(records) => Some([fields] + records)
  }

  function ReadCsv(s: string): Option<seq<seq<string>>> {
    if s == "" || [s[0]] != UTF8_BOM then None else ReadRecords(s[1..])
  }

  /** What a reader is meant to see of a value. */
  function Shown(v: CsvValue): string {
    match v
    case Absent => ""
    case Num(numeral) => numeral
    case Text(text) => Neutralised(text)
  }

  function ShownRow(row: seq<CsvValue>): (r: seq<string>)
    ensures |r| == |row|
  {
    seq(|row|, i requires 0 <= i < |row| => Shown(row[i]))
  }

  function ShownTable(table: seq<seq<CsvValue>>): (r: seq<seq<string>>)
    ensures |r| == |table|
  {
    seq(|table|, i requires 0 <= i < |table| => ShownRow(table[i]))
  }

  predicate StartsWithSeparator(s: string) {
    s != "" && (s[0] == ',' || s[0] == '\n')
  }

  lemma {:induction false} PlainReadsBack(s: string, rest: string)
    requires StartsWithSeparator(rest) && !NeedsQuoting(s)
    ensures ReadPlain(s + rest) == (s, rest)
  {
    if s == "" {
      assert s + rest == rest;
    } else {
      assert s[0] in s && !IsSpecial(s[0]);
      assert (s + rest)[1..] == s[1..] + rest;
      PlainReadsBack(s[1..], rest);
      assert s == [s[0]] + s[1..];
    }
  }

  lemma {:induction false} QuotedReadsBack(s: string, rest: string)
    requires StartsWithSeparator(rest)
    ensures ReadQuoted(DoubleQuotes(s) + "\"" + rest) == Some((s, rest))
  {
    var all := DoubleQuotes(s) + "\"" + rest;
    if s == "" {
      assert all == "\"" + rest && all[1..] == rest;
    } else {
      QuotedReadsBack(s[1..], rest);
      var tail := DoubleQuotes(s[1..]) + "\"" + rest;
      if s[0] == '"' {
        assert all == "\"\"" + tail && all[2..] == tail;
      } else {
        assert all == [s[0]] + tail && all[1..] == tail;
      }
      assert s == [s[0]] + s[1..];
    }
  }

  lemma NumeralsNeedNoQuoting(s: Numeral)
    ensures !NeedsQuoting(s) && s[0] != '"'
  {
    assert forall c | IsNumeralChar(c) :: !IsSpecial(c);
    assert s[0] in s;
  }

  lemma PlainFieldReadsBack(s: string, rest: string)
    requires StartsWithSeparator(rest) && !NeedsQuoting(s)
    ensures ReadField(s + rest) == Some((s, rest))
  {
    PlainReadsBack(s, rest);
    if s == "" {
      assert s + rest == rest;
    } else {
      assert s[0] in s && (s + rest)[0] == s[0];
    }
  }

  lemma QuotedFieldReadsBack(s: string, rest: string)
    requires StartsWithSeparator(rest)
    ensures ReadField(Quoted(s) + rest) == Some((s, rest))
  {
    QuotedReadsBack(s, rest);
    assert (Quoted(s) + rest)[1..] == DoubleQuotes(s) + "\"" + rest;
  }

  /** Whatever was printed into a cell, the reader gets what it is meant to show. */
  lemma CellReadsBack(v: CsvValue, rest: string)
    requires StartsWithSeparator(rest)
    ensures ReadField(Cell(v) + rest) == Some((Shown(v), rest))
  {
    match v {
      case Absent =>
        PlainFieldReadsBack("", rest);
      case Num(numeral) =>
        NumeralsNeedNoQuoting(numeral);
        PlainFieldReadsBack(numeral, rest);
      case Text(text) =>
        var safe := Neutralised(text);
        if LeadsFormula(text) || NeedsQuoting(safe) {
          QuotedFieldReadsBack(safe, rest);
        } else {
          PlainFieldReadsBack(safe, rest);
        }
    }
  }

  /** A field, its comma and a readable remainder make a record one field longer. */
  lemma FieldJoinsRecord(cell: string, tail: string, text: string, fields: seq<string>, rest: string)
    requires ReadField(cell + ("," + tail)) == Some((text, "," + tail))
    requires ReadRecord(tail) == Some((fields, rest))
    ensures ReadRecord(cell + ("," + tail)) == Some(([text] + fields, rest))
  {
    assert ("," + tail)[1..] == tail;
  }

  lemma LastFieldEndsRecord(cell: string, text: string, rest: string)
    requires ReadField(cell + ("\n" + rest)) == Some((text, "\n" + rest))
    ensures ReadRecord(cell + ("\n" + rest)) == Some(([text], rest))
  {
    assert ("\n" + rest)[1..] == rest;
  }

  lemma LineOfOne(cell: CsvValue, rest: string)
    ensures Line([cell]) + "\n" + rest == Cell(cell) + ("\n" + rest)
  {
  }

  lemma LineOfMore(row: seq<CsvValue>, rest: string)
    requires |row| > 1
    ensures Line(row) + "\n" + rest == Cell(row[0]) + ("," + (Line(row[1..]) + "\n" + rest))
  {
    assert Cells(row)[1..] == Cells(row[1..]);
  }

  lemma ShownRowStep(row: seq<CsvValue>)
    requires row != []
    ensures ShownRow(row) == [Shown(row[0])] + ShownRow(row[1..])
  {
  }

  lemma {:induction false} RowReadsBack(row: seq<CsvValue>, rest: string)
    requires row != []
    ensures ReadRecord(Line(row) + "\n" + rest) == Some((ShownRow(row), rest))
    decreases |row|
  {
    var cell, text := Cell(row[0]), Shown(row[0]);
    ShownRowStep(row);
    if |row| == 1 {
      assert row == [row[0]];
      LineOfOne(row[0], rest);
      CellReadsBack(row[0], "\n" + rest);
      LastFieldEndsRecord(cell, text, rest);
      assert ShownRow(row[1..]) == [];
      assert [text] + [] == [text];
    } else {
      var tail := Line(row[1..]) + "\n" + rest;
      LineOfMore(row, rest);
      CellReadsBack(row[0], "," + tail);
      RowReadsBack(row[1..], rest);
      FieldJoinsRecord(cell, tail, text, ShownRow(row[1..]), rest);
    }
  }

  function Ended(table: seq<seq<CsvValue>>): string {
    Join(Lines(table), "\n") + "\n"
  }

  lemma EndedStep(table: seq<seq<CsvValue>>)
    requires |table| > 1
    ensures Ended(table) == Line(table[0]) + "\n" + Ended(table[1..])
  {
    assert Lines(table)[1..] == Lines(table[1..]);
    assert Lines(table)[0] == Line(table[0]);
  }

  lemma {:induction false} TableReadsBack(table: seq<seq<CsvValue>>)
    requires table != [] && forall row | row in table :: row != []
    ensures ReadRecords(Ended(table)) == Some(ShownTable(table))
    decreases |table|
  {
    assert table[0] in table;
    if |table| == 1 {
      RowReadsBack(table[0], "");
      assert Ended(table) == Line(table[0]) + "\n" + "";
      assert ReadRecords("") == Some([]);
      assert ShownTable(table) == [ShownRow(table[0])] + [];
    } else {
      EndedStep(table);
      assert forall row | row in table[1..] :: row in table;
      TableReadsBack(table[1..]);
      RowReadsBack(table[0], Ended(table[1..]));
      assert ShownTable(table) == [ShownRow(table[0])] + ShownTable(table[1..]);
    }
  }

  /** An export with no columns on a line prints the same line as one empty column. */
  function Widened(table: seq<seq<CsvValue>>): (r: seq<seq<CsvValue>>)
    ensures |r| == |table|
  {
    seq(|table|, i requires 0 <= i < |table| => if table[i] == [] then [Absent] else table[i])
  }

  lemma WidenedPrintsTheSame(table: seq<seq<CsvValue>>)
    ensures Lines(Widened(table)) == Lines(table)
  {
    forall i | 0 <= i < |table| ensures Line(Widened(table)[i]) == Line(table[i]) {
      assert Line([Absent]) == "" == Line([]);
    }
  }

  lemma ExportReadsAsWidened(table: seq<seq<CsvValue>>)
    requires table != []
    ensures ReadRecords(Ended(table)) == Some(ShownTable(Widened(table)))
  {
    WidenedPrintsTheSame(table);
    forall row | row in Widened(table) ensures row != [] {
    }
    TableReadsBack(Widened(table));
  }

  /**
   * The export reads back, cell for cell, as the table it was made from - for
   * every header and rows, exactly when each of them has at least one column.
   */
  lemma ExportReadsBack(header: seq<string>, rows: seq<seq<CsvValue>>)
    ensures var table := [Texts(header)] + rows;
            ReadCsv(ToCsv(header, rows)) == Some(ShownTable(table))
            <==> header != [] && forall row | row in rows :: row != []
  {
    var table := [Texts(header)] + rows;
    var csv := ToCsv(header, rows);
    ExportReadsAsWidened(table);
    assert csv == UTF8_BOM + Ended(table);
    assert [csv[0]] == UTF8_BOM && csv[1..] == Ended(table);
    assert ReadCsv(csv) == Some(ShownTable(Widened(table)));
    if header != [] && forall row | row in rows :: row != [] {
      forall i | 0 <= i < |table| ensures table[i] != [] {
        if i > 0 {
          assert table[i] == rows[i - 1] && rows[i - 1] in rows;
        }
      }
      assert Widened(table) == table;
    } else {
      var i := NarrowLine(header, rows);
      assert |ShownTable(table)[i]| == 0 && |ShownTable(Widened(table))[i]| == 1;
    }
  }

  lemma NarrowLine(header: seq<string>, rows: seq<seq<CsvValue>>) returns (i: nat)
    requires header == [] || exists row | row in rows :: row == []
    ensures var table := [Texts(header)] + rows; i < |table| && table[i] == []
  {
    if header == [] {
      i := 0;
    } else {
      var j :| 0 <= j < |rows| && rows[j] == [];
      i := j + 1;
    }
  }

  /** What a spreadsheet would run: text led by one of these six characters. */
  predicate WouldRun(text: string) {
    text != "" && var c := text[0];
    c == '=' || c == '+' || c == '-' || c == '@' || c == '\t' || c == '\r'
  }

  /**
   * No text cell, read back, is one that would run: that text gains an
   * apostrophe, and other text is read back as it was.
   */
  lemma TextIsInert(text: string)
    ensures Shown(Text(text)) == if WouldRun(text) then "'" + text else text
    ensures !WouldRun(Shown(Text(text)))
  {
  }

  /** Numbers and missing values are exempt, a negative number too. */
  lemma NumbersStayNumbers(numeral: Numeral)
    ensures Shown(Num(numeral)) == Cell(Num(numeral)) == numeral
    ensures Shown(Absent) == Cell(Absent) == ""
  {
  }

  /** Text is quoted exactly when it would run or holds a quote, a comma or a line break. */
  lemma QuotedExactlyWhenNeeded(text: string)
    ensures Cell(Text(text)) != "" && Cell(Text(text))[0] == '"' <==>
            WouldRun(text) || '"' in text || ',' in text || '\n' in text || '\r' in text
    ensures Cell(Text(text)) == "" || Cell(Text(text))[0] != '"' ==> Cell(Text(text)) == text
  {
    if text != "" {
      assert text[0] in text;
    }
    assert NeedsQuoting(text) <==> '"' in text || ',' in text || '\n' in text || '\r' in text;
  }

  /** Every export opens with the byte-order mark and ends with a line feed. */
  lemma ExportIsMarked(header: seq<string>, rows: seq<seq<CsvValue>>)
    ensures var csv := ToCsv(header, rows); |csv| >= 2 && csv[0] == '\U{FEFF}' && csv[|csv| - 1] == '\n'
  {
  }
}
