/** The audit-log CSV export, read back by a parser for section 2 of RFC 4180. */
module AuditCsv {
  import opened Prelude

  const ROW_CAP := 20_000

  datatype LogEntry = LogEntry(
    timestamp: string, category: string, severity: string, action: string, actor: string,
    targetType: Option<string>, targetName: Option<string>, targetId: Option<string>, message: string)

  const HEADER: seq<string> :=
    ["Timestamp", "Category", "Severity", "Action", "Actor", "Target Type", "Target Name", "Target ID", "Message"]

  function OrEmpty(s: Option<string>): string { if s.Some? then s.value else "" }

  function FieldsOf(e: LogEntry): (r: seq<string>)
    ensures |r| == 9
  {
    [e.timestamp, e.category, e.severity, e.action, e.actor,
     OrEmpty(e.targetType), OrEmpty(e.targetName), OrEmpty(e.targetId), e.message]
  }

  predicate IsSpecial(c: char) { c == '"' || c == ',' || c == '\n' || c == '\r' }

  predicate NeedsQuotes(s: string) { exists i :: 0 <= i < |s| && IsSpecial(s[i]) }

  /** `replace(/"/g, '""')` */
  function Doubled(s: string): string {
    if s == "" then "" else (if s[0] == '"' then ['"', '"'] else [s[0]]) + Doubled(s[1..])
  }

  function CsvEscape(s: string): string {
    if NeedsQuotes(s) then ['"'] + Doubled(s) + ['"'] else s
  }

  /** `fields.map(csvEscape).join(",")` */
  function Line(fields: seq<string>): string
    requires fields != []
  {
    if |fields| == 1 then CsvEscape(fields[0]) else CsvEscape(fields[0]) + [','] + Line(fields[1..])
  }

  /** `rows.map(line).join("\r\n")` */
  function Document(rows: seq<seq<string>>): string
    requires rows != [] && forall i :: 0 <= i < |rows| ==> rows[i] != []
  {
    if |rows| == 1 then Line(rows[0]) else Line(rows[0]) + ['\r', '\n'] + Document(rows[1..])
  }

  function EntryRows(entries: seq<LogEntry>): (r: seq<seq<string>>)
    ensures |r| == |entries| && forall i :: 0 <= i < |r| ==> |r[i]| == 9
  {
    seq(|entries|, i requires 0 <= i < |entries| => FieldsOf(entries[i]))
  }

  /** All rows of the export: the header, then the entries. */
  function Rows(entries: seq<LogEntry>): (r: seq<seq<string>>)
    ensures |r| == |entries| + 1 && forall i :: 0 <= i < |r| ==> |r[i]| == 9
  {
    [HEADER] + EntryRows(entries)
  }

  datatype Export = TooMany(total: nat) | Csv(text: string)

  /** `matching` is every entry the filters select, oldest first. */
  method ExportAuditLogsCsv(matching: seq<LogEntry>, dateFrom: bool, dateTo: bool) returns (r: Export)
    ensures r.TooMany? <==> |matching| > 20_000 && !dateFrom && !dateTo
    ensures r.Csv? ==> r.text == Document(Rows(matching[..Min(20_000, |matching|)]))
  {
    if |matching| > ROW_CAP && !dateFrom && !dateTo {
      return TooMany(|matching|);
    }
    HeaderIsPlain();
    var text := AppendLines(HEADER, JoinPlain(HEADER), matching[..Min(ROW_CAP, |matching|)]);
    return Csv(text);
  }

  method AppendLines(ghost header: seq<string>, first: string, entries: seq<LogEntry>) returns (text: string)
    requires |header| == 9 && first == Line(header)
    ensures text == Document([header] + EntryRows(entries))
  {
    text := first;
    for i := 0 to |entries|
      invariant text == Document([header] + EntryRows(entries[..i]))
    {
      DocumentGrows(header, entries, i);
      text := text + ['\r', '\n'] + Line(FieldsOf(entries[i]));
    }
    assert entries[..|entries|] == entries;
  }

  lemma DocumentGrows(header: seq<string>, entries: seq<LogEntry>, i: nat)
    requires |header| == 9 && i < |entries|
    ensures Document([header] + EntryRows(entries[..i + 1]))
         == Document([header] + EntryRows(entries[..i])) + ['\r', '\n'] + Line(FieldsOf(entries[i]))
  {
    var row := FieldsOf(entries[i]);
    DocumentSnoc([header] + EntryRows(entries[..i]), row);
    assert EntryRows(entries[..i + 1]) == EntryRows(entries[..i]) + [row];
    assert [header] + EntryRows(entries[..i + 1]) == [header] + EntryRows(entries[..i]) + [row];
  }

  /** The header is joined without escaping; it needs none. */
  function JoinPlain(fields: seq<string>): string
    requires fields != []
  {
    if |fields| == 1 then fields[0] else fields[0] + [','] + JoinPlain(fields[1..])
  }

  lemma {:induction false} PlainLine(fields: seq<string>)
    requires fields != [] && forall i :: 0 <= i < |fields| ==> !NeedsQuotes(fields[i])
    ensures Line(fields) == JoinPlain(fields)
  {
    if |fields| > 1 { PlainLine(fields[1..]); }
  }

  lemma HeaderIsPlain()
    ensures Line(HEADER) == JoinPlain(HEADER)
  {
    PlainLine(HEADER);
  }

  lemma DocumentCons(first: seq<string>, rows: seq<seq<string>>)
    requires rows != [] && first != [] && forall i :: 0 <= i < |rows| ==> rows[i] != []
    ensures Document([first] + rows) == Line(first) + ['\r', '\n'] + Document(rows)
  {
    assert ([first] + rows)[1..] == rows;
  }

  lemma {:induction false} DocumentSnoc(rows: seq<seq<string>>, row: seq<string>)
    requires rows != [] && row != [] && forall i :: 0 <= i < |rows| ==> rows[i] != []
    ensures Document(rows + [row]) == Document(rows) + ['\r', '\n'] + Line(row)
  {
    if |rows| == 1 {
      assert (rows + [row])[1..] == [row];
    } else {
      var rest := rows[1..];
      DocumentSnoc(rest, row);
      DocumentCons(rows[0], rest + [row]);
      FirstAndRest(rows);
      Assoc([rows[0]], rest, [row]);
      var start := Line(rows[0]) + ['\r', '\n'];
      Assoc(start, Document(rest) + ['\r', '\n'], Line(row));
      Assoc(start, Document(rest), ['\r', '\n']);
    }
  }

  lemma FirstAndRest<T>(s: seq<T>)
    requires s != []
    ensures s == [s[0]] + s[1..]
  {
  }

  // ---- RFC 4180, section 2 ----

  datatype Parsed<T> = Bad | Good(value: T, rest: string)

  function PlainField(s: string): (r: Parsed<string>)
    ensures r.Good? && |r.rest| <= |s|
  {
    if s == "" || IsSpecial(s[0]) then Good("", s)
    else
      var tail := PlainField(s[1..]);
      Good([s[0]] + tail.value, tail.rest)
  }

  /** After the opening quote. */
  function QuotedField(s: string): (r: Parsed<string>)
    ensures r.Good? ==> |r.rest| < |s|
    decreases |s|
  {
    if s == "" then Bad
    else if s[0] != '"' then
      match QuotedField(s[1..])
      case Bad => Bad
      case Good(value, rest) => Good([s[0]] + value, rest)
    else if |s| > 1 && s[1] == '"' then
      match QuotedField(s[2..])
      case Bad => Bad
      case Good(value, rest) => Good(['"'] + value, rest)
    else Good("", s[1..])
  }

  function Field(s: string): (r: Parsed<string>)
    ensures r.Good? ==> |r.rest| <= |s|
  {
    if s != "" && s[0] == '"' then QuotedField(s[1..]) else PlainField(s)
  }

  function ParseRecord(s: string): (r: Parsed<seq<string>>)
    ensures r.Good? ==> |r.rest| <= |s| && r.value != []
    decreases |s|
  {
    match Field(s)
    case Bad => Bad
    case Good(field, rest) =>
      if rest != "" && rest[0] == ',' then
        match ParseRecord(rest[1..])
        case Bad => Bad
        case Good(fields, more) => Good([field] + fields, more)
      else Good([field], rest)
  }

  /** Records separated by CRLF, the last one with or without a line break. */
  function ParseFile(s: string): Option<seq<seq<string>>>
    decreases |s|
  {
    match ParseRecord(s)
    case Bad => None
    case Good(record, rest) =>
      if rest == "" || rest == ['\r', '\n'] then Some([record])
      else if |rest| > 2 && rest[0] == '\r' && rest[1] == '\n' then
        match ParseFile(rest[2..])
        case None => None
        case Some(records) => Some([record] + records)
      else None
  }

  // ---- round trip ----

  predicate EndsField(rest: string) { rest == "" || rest[0] == ',' || rest[0] == '\r' }

  lemma {:induction false} QuotedRoundTrip(s: string, rest: string)
    requires rest == "" || rest[0] != '"'
    ensures QuotedField(Doubled(s) + ['"'] + rest) == Good(s, rest)
    decreases |s|
  {
    if s == "" {
      assert Doubled(s) + ['"'] + rest == ['"'] + rest;
    } else {
      QuotedRoundTrip(s[1..], rest);
      OneMoreQuoted(s[0], s[1..], Doubled(s[1..]) + ['"'] + rest, rest);
      assert [s[0]] + s[1..] == s;
      Assoc(if s[0] == '"' then ['"', '"'] else [s[0]], Doubled(s[1..]), ['"']);
      Assoc(if s[0] == '"' then ['"', '"'] else [s[0]], Doubled(s[1..]) + ['"'], rest);
    }
  }

  lemma OneMoreQuoted(c: char, s: string, tail: string, rest: string)
    requires QuotedField(tail) == Good(s, rest)
    ensures QuotedField((if c == '"' then ['"', '"'] else [c]) + tail) == Good([c] + s, rest)
  {
    if c == '"' {
      assert (['"', '"'] + tail)[2..] == tail;
    } else {
      assert ([c] + tail)[1..] == tail;
    }
  }

  lemma {:induction false} PlainRoundTrip(s: string, rest: string)
    requires !NeedsQuotes(s) && EndsField(rest)
    ensures PlainField(s + rest) == Good(s, rest)
    decreases |s|
  {
    if s == "" {
      assert s + rest == rest;
    } else {
      assert !IsSpecial(s[0]);
      assert forall i :: 0 <= i < |s| - 1 ==> s[1..][i] == s[i + 1];
      PlainRoundTrip(s[1..], rest);
      assert (s + rest)[1..] == s[1..] + rest;
      assert s == [s[0]] + s[1..];
    }
  }

  lemma EscapedFieldRoundTrip(s: string, rest: string)
    requires EndsField(rest)
    ensures Field(['"'] + Doubled(s) + ['"'] + rest) == Good(s, rest)
  {
    var body := Doubled(s) + ['"'] + rest;
    QuotedRoundTrip(s, rest);
    assert ['"'] + Doubled(s) + ['"'] + rest == ['"'] + body;
    assert (['"'] + body)[1..] == body;
  }

  lemma BareFieldRoundTrip(s: string, rest: string)
    requires EndsField(rest) && !NeedsQuotes(s)
    ensures Field(s + rest) == Good(s, rest)
  {
    PlainRoundTrip(s, rest);
    assert s != "" ==> (s + rest)[0] == s[0] && !IsSpecial(s[0]);
    assert s == "" ==> s + rest == rest;
  }

  lemma FieldRoundTrip(s: string, rest: string)
    requires EndsField(rest)
    ensures Field(CsvEscape(s) + rest) == Good(s, rest)
  {
    if NeedsQuotes(s) {
      EscapedFieldRoundTrip(s, rest);
    } else {
      BareFieldRoundTrip(s, rest);
    }
  }

  /** One field, a comma, and a record that reads back, read back together. */
  lemma RecordCons(text: string, field: string, more: string, fields: seq<string>, rest: string)
    requires Field(text + [','] + more) == Good(field, [','] + more)
    requires ParseRecord(more) == Good(fields, rest)
    ensures ParseRecord(text + [','] + more) == Good([field] + fields, rest)
  {
    assert ([','] + more)[1..] == more;
  }

  lemma LineStep(fields: seq<string>, rest: string)
    requires |fields| > 1
    ensures Line(fields) + rest == CsvEscape(fields[0]) + [','] + (Line(fields[1..]) + rest)
  {
    Assoc(CsvEscape(fields[0]) + [','], Line(fields[1..]), rest);
  }

  lemma FieldThenComma(field: string, more: string)
    ensures Field(CsvEscape(field) + [','] + more) == Good(field, [','] + more)
  {
    FieldRoundTrip(field, [','] + more);
    assert CsvEscape(field) + ([','] + more) == CsvEscape(field) + [','] + more;
  }

  lemma {:induction false} LineRoundTrip(fields: seq<string>, rest: string)
    requires fields != [] && (rest == "" || rest[0] == '\r')
    ensures ParseRecord(Line(fields) + rest) == Good(fields, rest)
    decreases |fields|
  {
    if |fields| == 1 {
      FieldRoundTrip(fields[0], rest);
      assert fields == [fields[0]];
    } else {
      var more := Line(fields[1..]) + rest;
      LineRoundTrip(fields[1..], rest);
      FieldThenComma(fields[0], more);
      RecordCons(CsvEscape(fields[0]), fields[0], more, fields[1..], rest);
      LineStep(fields, rest);
      assert fields == [fields[0]] + fields[1..];
    }
  }

  lemma LineNotEmpty(fields: seq<string>)
    requires |fields| >= 2
    ensures Line(fields) != ""
  {
  }

  /** One record, a line break, and a file that reads back, read back together. */
  lemma FileCons(text: string, record: seq<string>, more: string, records: seq<seq<string>>)
    requires ParseRecord(text) == Good(record, ['\r', '\n'] + more) && more != ""
    requires ParseFile(more) == Some(records)
    ensures ParseFile(text) == Some([record] + records)
  {
    assert (['\r', '\n'] + more)[2..] == more;
  }

  lemma DocumentNotEmpty(rows: seq<seq<string>>)
    requires rows != [] && forall i :: 0 <= i < |rows| ==> |rows[i]| >= 2
    ensures Document(rows) != ""
  {
    LineNotEmpty(rows[0]);
  }

  lemma FirstRecord(rows: seq<seq<string>>)
    requires |rows| > 1 && forall i :: 0 <= i < |rows| ==> rows[i] != []
    ensures ParseRecord(Document(rows)) == Good(rows[0], ['\r', '\n'] + Document(rows[1..]))
  {
    LineRoundTrip(rows[0], ['\r', '\n'] + Document(rows[1..]));
    Assoc(Line(rows[0]), ['\r', '\n'], Document(rows[1..]));
  }

  lemma {:induction false} DocumentRoundTrip(rows: seq<seq<string>>)
    requires rows != [] && forall i :: 0 <= i < |rows| ==> |rows[i]| >= 2
    ensures ParseFile(Document(rows)) == Some(rows)
    decreases |rows|
  {
    if |rows| == 1 {
      LineRoundTrip(rows[0], "");
      assert Line(rows[0]) + "" == Line(rows[0]);
      assert rows == [rows[0]];
    } else {
      DocumentRoundTrip(rows[1..]);
      DocumentNotEmpty(rows[1..]);
      FirstRecord(rows);
      FileCons(Document(rows), rows[0], Document(rows[1..]), rows[1..]);
      FirstAndRest(rows);
    }
  }

  /** Whatever characters the log holds, reading the export back gives the header and exactly the
      field values written. */
  lemma ExportRoundTrip(entries: seq<LogEntry>)
    ensures ParseFile(Document(Rows(entries))) == Some(Rows(entries))
  {
    DocumentRoundTrip(Rows(entries));
  }

  /** And each value stands in the column of its header. */
  lemma ColumnsMatch(entries: seq<LogEntry>, i: nat, c: nat)
    requires i < |entries| && c < 9
    ensures var read := ParseFile(Document(Rows(entries)));
            && read.Some? && |read.value| == |entries| + 1 && |read.value[0]| == 9 && |read.value[i + 1]| == 9
            && read.value[0] == ["Timestamp", "Category", "Severity", "Action", "Actor",
                                 "Target Type", "Target Name", "Target ID", "Message"]
            && ColumnHolds(read.value[0][c], read.value[i + 1][c], entries[i])
  {
    ExportRoundTrip(entries);
    ColumnOf(entries[i], c);
  }

  lemma ColumnOf(e: LogEntry, c: nat)
    requires c < 9
    ensures ColumnHolds(HEADER[c], FieldsOf(e)[c], e)
  {
    HeadersDiffer();
  }

  ghost predicate ColumnHolds(header: string, value: string, e: LogEntry) {
    && (header == "Timestamp" ==> value == e.timestamp)
    && (header == "Category" ==> value == e.category)
    && (header == "Severity" ==> value == e.severity)
    && (header == "Action" ==> value == e.action)
    && (header == "Actor" ==> value == e.actor)
    && (header == "Target Type" ==> value == (match e.targetType case None => "" case Some(x) => x))
    && (header == "Target Name" ==> value == (match e.targetName case None => "" case Some(x) => x))
    && (header == "Target ID" ==> value == (match e.targetId case None => "" case Some(x) => x))
    && (header == "Message" ==> value == e.message)
  }

  lemma HeadersDiffer()
    ensures forall c, d :: 0 <= c < d < 9 ==> HEADER[c] != HEADER[d]
  {
    assert |"Timestamp"| == 9 && |"Category"| == 8 && |"Severity"| == 8 && |"Action"| == 6 && |"Actor"| == 5;
    assert |"Target Type"| == 11 && |"Target Name"| == 11 && |"Target ID"| == 9 && |"Message"| == 7;
    assert "Timestamp"[1] == 'i' && "Target ID"[1] == 'a';
    assert "Category"[0] == 'C' && "Severity"[0] == 'S';
    assert "Target Type"[7] == 'T' && "Target Name"[7] == 'N';
  }
}
