/**
 The export of suspicious-activity reports as CSV, and a reader for it: quoting as in section 2 of
 RFC 4180, with a bare line feed as the record break. The reader is the reference; the printer is the
 service's.
 */
module SarCsv {
  import opened Wrappers
  import opened Text

  const COMMA := ','
  const QUOTE := '"'
  const NEWLINE := '\n'

  // ---------------------------------------------------------------------------------------------
  // The printer
  // ---------------------------------------------------------------------------------------------

  predicate NeedsQuotes(text: string) {
    COMMA in text || QUOTE in text || NEWLINE in text
  }

  /** `replace(/"/g, '""')` */
  function DoubleQuotes(text: string): string {
    if text == "" then ""
    else (if text[0] == QUOTE then [QUOTE, QUOTE] else [text[0]]) + DoubleQuotes(text[1..])
  }

  function EscapeCsv(text: string): string {
    if NeedsQuotes(text) then [QUOTE] + DoubleQuotes(text) + [QUOTE] else text
  }

  function Escaped(fields: seq<string>): seq<string> {
    seq(|fields|, i requires 0 <= i < |fields| => EscapeCsv(fields[i]))
  }

  function Line(fields: seq<string>): string {
    Join(Escaped(fields), COMMA)
  }

  function Lines(rows: seq<seq<string>>): seq<string> {
    seq(|rows|, i requires 0 <= i < |rows| => Line(rows[i]))
  }

  const HEADERS := ["id", "userId", "transactionId", "risk_reason", "risk_score",
                    "timestamp", "status", "device_context", "report_payload"]

  /** A report as listed; numbers, dates and JSON documents as the texts they print to. */
  datatype Report = Report(
    id: string,
    userId: string,
    transactionId: Option<string>,
    riskReason: string,
    riskScore: string,
    timestamp: string,
    status: string,
    deviceContext: Option<string>,
    reportPayload: Option<string>)

  function FieldTexts(r: Report): seq<string> {
    [r.id, r.userId, r.transactionId.GetOr(""), r.riskReason, r.riskScore,
     r.timestamp, r.status, r.deviceContext.GetOr("{}"), r.reportPayload.GetOr("{}")]
  }

  function Rows(reports: seq<Report>): seq<seq<string>> {
    seq(|reports|, i requires 0 <= i < |reports| => FieldTexts(reports[i]))
  }

  /** The header is joined as it stands; only the rows are escaped. */
  function ExportSarReportsCsv(reports: seq<Report>): string {
    Join([Join(HEADERS, COMMA)] + Lines(Rows(reports)), NEWLINE)
  }

  // ---------------------------------------------------------------------------------------------
  // The reader
  // ---------------------------------------------------------------------------------------------

  /** Reads the rest of a quoted field: its text, and what follows the closing quote. */
  function ReadQuoted(s: string): Option<(string, string)> {
    if s == "" then None
    else if s[0] != QUOTE then
      match ReadQuoted(s[1..])
      case None => None
      case Some((text, rest)) => Some(([s[0]] + text, rest))
    else if |s| >= 2 && s[1] == QUOTE then
      match ReadQuoted(s[2..])
      case None => None
      case Some((text, rest)) => Some(([QUOTE] + text, rest))
    else Some(("", s[1..]))
  }

  function ReadPlain(s: string): (string, string) {
    if s == "" || s[0] == COMMA || s[0] == NEWLINE then ("", s)
    else
      var (text, rest) := ReadPlain(s[1..]);
      ([s[0]] + text, rest)
  }

  function ReadField(s: string): Option<(string, string)> {
    if s != "" && s[0] == QUOTE then ReadQuoted(s[1..]) else Some(ReadPlain(s))
  }

  lemma ReadQuotedShrinks(s: string)
    ensures ReadQuoted(s).Some? ==> |ReadQuoted(s).value.1| < |s|
  {
  }

  lemma ReadPlainShrinks(s: string)
    ensures |ReadPlain(s).1| <= |s|
  {
  }

  /** All records of a text; `None` if a quoted field is not closed or is followed by stray text. */
  function Decode(s: string): Option<seq<seq<string>>>
    decreases |s|
  {
    if s != "" && s[0] == QUOTE then ReadQuotedShrinks(s[1..]); DecodeAfter(s, ReadField(s))
    else ReadPlainShrinks(s); DecodeAfter(s, ReadField(s))
  }

  /** Continues after a field: the next field of the record, the next record, or the end. */
  function DecodeAfter(s: string, field: Option<(string, string)>): Option<seq<seq<string>>>
    requires field.Some? ==> |field.value.1| <= |s|
    decreases |s|, 0
  {
    match field
    case None => None
    case Some((text, rest)) =>
      if rest == "" then Some([[text]])
      else if rest[0] == COMMA then
        match Decode(rest[1..])
        case None => None
        case Some(records) => if records == [] then None else Some([[text] + records[0]] + records[1..])
      else if rest[0] == NEWLINE then
        match Decode(rest[1..])
        case None => None
        case Some(records) => Some([[text]] + records)
      else None
  }

  // ---------------------------------------------------------------------------------------------
  // Round trip
  // ---------------------------------------------------------------------------------------------

  /** The text after a field: the end, or a separator. */
  predicate AtBreak(rest: string) {
    rest == "" || rest[0] == COMMA || rest[0] == NEWLINE
  }

  lemma {:induction false} ReadDoubled(text: string, rest: string)
    requires AtBreak(rest)
    ensures ReadQuoted(DoubleQuotes(text) + [QUOTE] + rest) == Some((text, rest))
    decreases |text|
  {
    var s := DoubleQuotes(text) + [QUOTE] + rest;
    if text == "" {
      assert s == [QUOTE] + rest;
      assert s[1..] == rest;
    } else {
      ReadDoubled(text[1..], rest);
      var tail := DoubleQuotes(text[1..]) + [QUOTE] + rest;
      if text[0] == QUOTE {
        assert s == [QUOTE, QUOTE] + tail;
        assert s[2..] == tail;
      } else {
        assert s == [text[0]] + tail;
        assert s[1..] == tail;
      }
      assert [text[0]] + text[1..] == text;
    }
  }

  lemma {:induction false} ReadUnquoted(text: string, rest: string)
    requires !NeedsQuotes(text) && AtBreak(rest)
    ensures ReadPlain(text + rest) == (text, rest)
    decreases |text|
  {
    if text == "" {
      assert text + rest == rest;
    } else {
      assert !NeedsQuotes(text[1..]);
      ReadUnquoted(text[1..], rest);
      assert (text + rest)[1..] == text[1..] + rest;
      assert [text[0]] + text[1..] == text;
    }
  }

  lemma ReadQuotedField(text: string, rest: string)
    requires AtBreak(rest)
    ensures ReadField([QUOTE] + DoubleQuotes(text) + [QUOTE] + rest) == Some((text, rest))
  {
    var s := [QUOTE] + DoubleQuotes(text) + [QUOTE] + rest;
    var inner := DoubleQuotes(text) + [QUOTE] + rest;
    assert s == [QUOTE] + inner;
    assert s[1..] == inner;
    ReadDoubled(text, rest);
  }

  lemma ReadPlainField(text: string, rest: string)
    requires !NeedsQuotes(text) && AtBreak(rest)
    ensures ReadField(text + rest) == Some((text, rest))
  {
    var s := text + rest;
    if s != "" {
      assert s[0] == if text == "" then rest[0] else text[0];
    }
    ReadUnquoted(text, rest);
  }

  /** Reading an escaped field gives the field back and stops where it ended. */
  lemma ReadEscaped(text: string, rest: string)
    requires AtBreak(rest)
    ensures ReadField(EscapeCsv(text) + rest) == Some((text, rest))
  {
    if NeedsQuotes(text) {
      ReadQuotedField(text, rest);
    } else {
      ReadPlainField(text, rest);
    }
  }

  /** A text whose decoding starts a fresh record: the end of the document, or a break and more records. */
  ghost predicate Continues(rest: string, more: seq<seq<string>>) {
    if rest == "" then more == [] else rest[0] == NEWLINE && Decode(rest[1..]) == Some(more)
  }

  /** The last field of a record. */
  lemma DecodeLast(s: string, text: string, rest: string, more: seq<seq<string>>)
    requires ReadField(s) == Some((text, rest)) && Continues(rest, more)
    ensures Decode(s) == Some([[text]] + more)
  {
    assert [[text]] + [] == [[text]];
  }

  /** A field with others of its record after it. */
  lemma DecodeMore(s: string, text: string, rest: string, record: seq<string>, more: seq<seq<string>>)
    requires ReadField(s) == Some((text, [COMMA] + rest)) && Decode(rest) == Some([record] + more)
    ensures Decode(s) == Some([[text] + record] + more)
  {
    assert ([COMMA] + rest)[1..] == rest;
    assert ([record] + more)[1..] == more;
  }

  lemma LineOfMore(fields: seq<string>)
    requires |fields| > 1
    ensures Line(fields) == EscapeCsv(fields[0]) + [COMMA] + Line(fields[1..])
  {
    assert Escaped(fields)[1..] == Escaped(fields[1..]);
  }

  lemma {:induction false} DecodeLine(fields: seq<string>, rest: string, more: seq<seq<string>>)
    requires fields != [] && Continues(rest, more)
    ensures Decode(Line(fields) + rest) == Some([fields] + more)
    decreases |fields|
  {
    var first := EscapeCsv(fields[0]);
    if |fields| == 1 {
      assert Line(fields) == first;
      ReadEscaped(fields[0], rest);
      DecodeLast(first + rest, fields[0], rest, more);
      assert [fields[0]] == fields;
    } else {
      var tail := fields[1..];
      DecodeLine(tail, rest, more);
      LineOfMore(fields);
      var after := Line(tail) + rest;
      assert Line(fields) + rest == first + ([COMMA] + after);
      ReadEscaped(fields[0], [COMMA] + after);
      DecodeMore(first + ([COMMA] + after), fields[0], after, tail, more);
      assert [fields[0]] + tail == fields;
    }
  }

  lemma JoinedLines(rows: seq<seq<string>>)
    requires |rows| > 1
    ensures Join(Lines(rows), NEWLINE) == Line(rows[0]) + ([NEWLINE] + Join(Lines(rows[1..]), NEWLINE))
  {
    assert Lines(rows)[1..] == Lines(rows[1..]);
  }

  lemma {:induction false} DecodeLines(rows: seq<seq<string>>)
    requires rows != [] && forall i :: 0 <= i < |rows| ==> rows[i] != []
    ensures Decode(Join(Lines(rows), NEWLINE)) == Some(rows)
    decreases |rows|
  {
    var first := Line(rows[0]);
    if |rows| == 1 {
      assert Lines(rows) == [first];
      assert first + "" == first;
      DecodeLine(rows[0], "", []);
      assert [rows[0]] + [] == rows;
    } else {
      var tail := rows[1..];
      DecodeLines(tail);
      var below := Join(Lines(tail), NEWLINE);
      JoinedLines(rows);
      assert ([NEWLINE] + below)[1..] == below;
      DecodeLine(rows[0], [NEWLINE] + below, tail);
      assert [rows[0]] + tail == rows;
    }
  }

  /** `!NeedsQuotes`, character by character. */
  predicate Plain(text: string) {
    forall i :: 0 <= i < |text| ==> text[i] != COMMA && text[i] != QUOTE && text[i] != NEWLINE
  }

  lemma PlainIsNotEscaped(texts: seq<string>)
    requires forall i :: 0 <= i < |texts| ==> Plain(texts[i])
    ensures Escaped(texts) == texts
  {
  }

  lemma HeaderLine(header: seq<string>)
    requires forall i :: 0 <= i < |header| ==> Plain(header[i])
    ensures Line(header) == Join(header, COMMA)
  {
    PlainIsNotEscaped(header);
  }

  lemma LinesBelow(header: seq<string>, rows: seq<seq<string>>)
    ensures Lines([header] + rows) == [Line(header)] + Lines(rows)
  {
  }

  lemma TableText(header: seq<string>, rows: seq<seq<string>>)
    requires forall i :: 0 <= i < |header| ==> Plain(header[i])
    ensures Join([Join(header, COMMA)] + Lines(rows), NEWLINE) == Join(Lines([header] + rows), NEWLINE)
  {
    HeaderLine(header);
    LinesBelow(header, rows);
  }

  lemma DecodeTable(text: string, table: seq<seq<string>>)
    requires text == Join(Lines(table), NEWLINE)
    requires table != [] && forall i :: 0 <= i < |table| ==> table[i] != []
    ensures Decode(text) == Some(table)
  {
    DecodeLines(table);
  }

  /** A header that needs no quotes and escaped rows below it decode to themselves. */
  lemma TableRoundTrip(header: seq<string>, rows: seq<seq<string>>)
    requires header != [] && forall i :: 0 <= i < |header| ==> Plain(header[i])
    requires forall i :: 0 <= i < |rows| ==> rows[i] != []
    ensures Decode(Join([Join(header, COMMA)] + Lines(rows), NEWLINE)) == Some([header] + rows)
  {
    TableText(header, rows);
    DecodeTable(Join([Join(header, COMMA)] + Lines(rows), NEWLINE), [header] + rows);
  }

  lemma HeadersArePlain()
    ensures forall i :: 0 <= i < |HEADERS| ==> Plain(HEADERS[i])
  {
  }

  /** Decoding the export gives exactly the header and every row's field texts, whatever they contain. */
  lemma ExportRoundTrip(reports: seq<Report>)
    ensures Decode(ExportSarReportsCsv(reports)) == Some([HEADERS] + Rows(reports))
  {
    HeadersArePlain();
    TableRoundTrip(HEADERS, Rows(reports));
  }

  /** So exports of different tables never print alike. */
  lemma ExportIsInjective(a: seq<Report>, b: seq<Report>)
    requires ExportSarReportsCsv(a) == ExportSarReportsCsv(b)
    ensures Rows(a) == Rows(b)
  {
    ExportRoundTrip(a);
    ExportRoundTrip(b);
    assert ([HEADERS] + Rows(a))[1..] == Rows(a);
    assert ([HEADERS] + Rows(b))[1..] == Rows(b);
  }

  /** Two reports that agree column by column, an absent entry counting as its stand-in text. */
  predicate SameReport(a: Report, b: Report) {
    && a.id == b.id && a.userId == b.userId
    && a.transactionId.GetOr("") == b.transactionId.GetOr("")
    && a.riskReason == b.riskReason && a.riskScore == b.riskScore
    && a.timestamp == b.timestamp && a.status == b.status
    && a.deviceContext.GetOr("{}") == b.deviceContext.GetOr("{}")
    && a.reportPayload.GetOr("{}") == b.reportPayload.GetOr("{}")
  }

  lemma SameTexts(a: Report, b: Report)
    ensures FieldTexts(a) == FieldTexts(b) <==> SameReport(a, b)
  {
    var x, y := FieldTexts(a), FieldTexts(b);
    assert x == y ==> x[0] == y[0] && x[1] == y[1] && x[2] == y[2] && x[3] == y[3] && x[4] == y[4]
                      && x[5] == y[5] && x[6] == y[6] && x[7] == y[7] && x[8] == y[8];
  }

  /** Two lists of reports print alike exactly if they agree report by report and column by column. */
  lemma SameExportIff(a: seq<Report>, b: seq<Report>)
    ensures ExportSarReportsCsv(a) == ExportSarReportsCsv(b)
            <==> |a| == |b| && forall i :: 0 <= i < |a| ==> SameReport(a[i], b[i])
  {
    forall i | 0 <= i < |a| && i < |b| ensures Rows(a)[i] == Rows(b)[i] <==> SameReport(a[i], b[i]) {
      SameTexts(a[i], b[i]);
    }
    assert Rows(a) == Rows(b) <==> |a| == |b| && forall i :: 0 <= i < |a| ==> Rows(a)[i] == Rows(b)[i];
    if ExportSarReportsCsv(a) == ExportSarReportsCsv(b) {
      ExportIsInjective(a, b);
    }
  }

  /** The row has, under each header, the field of that name. */
  ghost predicate HoldsFields(head: seq<string>, row: seq<string>, r: Report) {
    && |head| == |row| == 9
    && head[0] == "id" && row[0] == r.id
    && head[1] == "userId" && row[1] == r.userId
    && head[2] == "transactionId" && row[2] == (if r.transactionId.Some? then r.transactionId.value else "")
    && head[3] == "risk_reason" && row[3] == r.riskReason
    && head[4] == "risk_score" && row[4] == r.riskScore
    && head[5] == "timestamp" && row[5] == r.timestamp
    && head[6] == "status" && row[6] == r.status
    && head[7] == "device_context" && row[7] == (if r.deviceContext.Some? then r.deviceContext.value else "{}")
    && head[8] == "report_payload" && row[8] == (if r.reportPayload.Some? then r.reportPayload.value else "{}")
  }

  lemma FieldsUnderHeaders(r: Report)
    ensures HoldsFields(HEADERS, FieldTexts(r), r)
  {
  }

  lemma ReportsBelowHeader(reports: seq<Report>, i: nat)
    requires i < |reports|
    ensures var table := [HEADERS] + Rows(reports);
            |table| == |reports| + 1 && table[0] == HEADERS && table[i + 1] == FieldTexts(reports[i])
  {
  }

  /** Below the header of a decoded export come the reports in order, each field under its name. */
  lemma ColumnsHoldFields(reports: seq<Report>, i: nat)
    requires i < |reports|
    ensures var table := Decode(ExportSarReportsCsv(reports));
            && table.Some? && |table.value| == |reports| + 1
            && HoldsFields(table.value[0], table.value[i + 1], reports[i])
  {
    ExportRoundTrip(reports);
    ReportsBelowHeader(reports, i);
    FieldsUnderHeaders(reports[i]);
  }
}
