/** CSV output of backend/src/orchestration/tools/sheetOutput.ts and a reader for section 2 of
    RFC 4180, with CRLF as a separator between records. */
module Csv {
  import opened Sequences
  import opened Text

  const LF: CodeUnit := 10
  const CR: CodeUnit := 13
  const QUOTE: CodeUnit := 34
  const COMMA: CodeUnit := 44

  /** A cell; a number is held by the text `String` gives it. */
  datatype Cell = Null | Text(s: Str) | Number(shown: Str)

  type Row = map<Str, Cell>

  datatype Table = Table(headers: seq<Str>, rows: seq<Row>, title: Option<Str>)

  // ---------- writing ----------

  /** `String(value)`, a null cell being empty. */
  function Shown(c: Cell): Str {
    match c case Null => [] case Text(s) => s case Number(s) => s
  }

  predicate NeedsQuotes(s: Str) {
    COMMA in s || QUOTE in s || LF in s || CR in s
  }

  function DoubleQuotes(s: Str): Str {
    if s == [] then []
    else (if s[0] == QUOTE then [QUOTE, QUOTE] else [s[0]]) + DoubleQuotes(s[1..])
  }

  function EscapeText(s: Str): Str {
    if NeedsQuotes(s) then [QUOTE] + (DoubleQuotes(s) + [QUOTE]) else s
  }

  /** `escapeCsvCell`. */
  function EscapeCsvCell(c: Cell): Str {
    if c.Null? then [] else EscapeText(Shown(c))
  }

  /** Every ordinary object inherits a property of this name (section 20.1.3 and annex B.2.2 of
      ECMA-262, 2021 edition). */
  predicate IsInherited(h: Str) {
    h in {
      Lit("constructor"), Lit("__proto__"), Lit("hasOwnProperty"), Lit("isPrototypeOf"), Lit("propertyIsEnumerable"),
      Lit("toLocaleString"), Lit("toString"), Lit("valueOf"), Lit("__defineGetter__"), Lit("__defineSetter__"),
      Lit("__lookupGetter__"), Lit("__lookupSetter__")}
  }

  /** The text `String` gives the property; all but one are functions of their own name, the
      constructor being called `Object`. */
  function InheritedText(h: Str): (t: Str)
    requires IsInherited(h)
    ensures t != []
  {
    if h == Lit("constructor") then Lit("function Object() { [native code] }")
    else if h == Lit("__proto__") then Lit("[object Object]")
    else Lit("function ") + h + Lit("() { [native code] }")
  }

  /** `row[h] ?? null`. A row is an ordinary object: a header it has no cell for may still name a
      property it inherits. */
  function CellAt(row: Row, h: Str): Cell {
    if h in row then row[h] else if IsInherited(h) then Text(InheritedText(h)) else Null
  }

  /** `buildCsvRow`. */
  function BuildCsvRow(row: Row, headers: seq<Str>): Str {
    Join(Map(headers, h => EscapeCsvCell(CellAt(row, h))), [COMMA])
  }

  /** The texts of a row's cells in column order. */
  function RowTexts(row: Row, headers: seq<Str>): seq<Str> {
    Map(headers, h => Shown(CellAt(row, h)))
  }

  /** What the file says: the headers and then the text of every cell. */
  function Records(table: Table): seq<seq<Str>> {
    [table.headers]
    + seq(|table.rows|, i requires 0 <= i < |table.rows| => RowTexts(table.rows[i], table.headers))
  }

  // ---------- reading, as section 2 of RFC 4180 has it ----------

  predicate Special(c: CodeUnit) {
    c == 44 || c == 34 || c == 10 || c == 13
  }

  /** An unquoted field: everything up to the next special character. */
  function ReadBare(t: Str): (r: (Str, Str))
    ensures |r.1| <= |t|
  {
    if t == [] || Special(t[0]) then ([], t)
    else
      var (s, rest) := ReadBare(t[1..]);
      ([t[0]] + s, rest)
  }

  /** A quoted field from just after its opening quote; two quotes stand for one. */
  function ReadQuoted(t: Str): (r: Option<(Str, Str)>)
    ensures r.Some? ==> |r.value.1| < |t|
    decreases |t|
  {
    if t == [] then None
    else if t[0] == 34 then
      if |t| > 1 && t[1] == 34 then Prepend(34, ReadQuoted(t[2..]))
      else Some(([], t[1..]))
    else Prepend(t[0], ReadQuoted(t[1..]))
  }

  function Prepend(c: CodeUnit, r: Option<(Str, Str)>): Option<(Str, Str)> {
    match r
    case None => None
    case Some((s, rest)) => Some(([c] + s, rest))
  }

  function ReadField(t: Str): (r: Option<(Str, Str)>)
    ensures r.Some? ==> |r.value.1| <= |t|
  {
    if t != [] && t[0] == 34 then ReadQuoted(t[1..]) else Some(ReadBare(t))
  }

  /** Fields separated by commas, and what follows them. */
  function ReadRecord(t: Str): (r: Option<(seq<Str>, Str)>)
    ensures r.Some? ==> |r.value.1| <= |t|
    decreases |t|
  {
    match ReadField(t)
    case None => None
    case Some((s, rest)) =>
      if rest != [] && rest[0] == 44 then
        match ReadRecord(rest[1..])
        case None => None
        case Some((more, after)) => Some(([s] + more, after))
      else Some(([s], rest))
  }

  /** Records separated by CRLF; `None` is malformed input. */
  function ReadCsv(t: Str): Option<seq<seq<Str>>>
    decreases |t|
  {
    match ReadRecord(t)
    case None => None
    case Some((fields, rest)) =>
      if rest == [] then Some([fields])
      else if |rest| >= 2 && rest[0] == 13 && rest[1] == 10 then
        match ReadCsv(rest[2..])
        case None => None
        case Some(more) => Some([fields] + more)
      else None
  }

  // ---------- reading what was written ----------

  /** What can follow a field. */
  predicate Ends(rest: Str) {
    rest == [] || rest[0] == COMMA || rest[0] == CR
  }

  lemma {:induction false} ReadBareText(s: Str, rest: Str)
    requires !NeedsQuotes(s) && Ends(rest)
    ensures ReadBare(s + rest) == (s, rest)
  {
    if s == [] {
      assert s + rest == rest;
    } else {
      DropWithin(s, rest, 1);
      assert s == [s[0]] + s[1..];
      ReadBareText(s[1..], rest);
    }
  }

  lemma {:induction false} ReadQuotedText(s: Str, rest: Str)
    requires Ends(rest)
    ensures ReadQuoted(DoubleQuotes(s) + ([QUOTE] + rest)) == Some((s, rest))
  {
    var tail := [QUOTE] + rest;
    if s == [] {
      assert [] + tail == tail && tail[1..] == rest;
    } else {
      var head := if s[0] == QUOTE then [QUOTE, QUOTE] else [s[0]];
      ReadQuotedText(s[1..], rest);
      Associate(head, DoubleQuotes(s[1..]), tail);
      DropBeyond(head, DoubleQuotes(s[1..]) + tail, 0);
      assert [s[0]] + s[1..] == s;
    }
  }

  lemma ReadEscaped(s: Str, rest: Str)
    requires Ends(rest)
    ensures ReadField(EscapeText(s) + rest) == Some((s, rest))
  {
    hide ReadBare, ReadQuoted, DoubleQuotes;
    if NeedsQuotes(s) {
      Associate([QUOTE], DoubleQuotes(s) + [QUOTE], rest);
      Associate(DoubleQuotes(s), [QUOTE], rest);
      ReadQuotedText(s, rest);
      DropBeyond([QUOTE], DoubleQuotes(s) + ([QUOTE] + rest), 0);
    } else {
      ReadBareText(s, rest);
      if s == [] { assert s + rest == rest; }
    }
  }

  function Escaped(fields: seq<Str>): seq<Str> {
    Map(fields, EscapeText)
  }

  lemma EscapedTail(fields: seq<Str>)
    requires fields != []
    ensures Escaped(fields)[0] == EscapeText(fields[0]) && Escaped(fields)[1..] == Escaped(fields[1..])
  {
  }

  lemma {:induction false} ReadJoinedRecord(fields: seq<Str>, rest: Str)
    requires fields != [] && (rest == [] || rest[0] == CR)
    ensures ReadRecord(Join(Escaped(fields), [COMMA]) + rest) == Some((fields, rest))
    decreases |fields|
  {
    hide ReadField, EscapeText, Escaped;
    EscapedTail(fields);
    EscapedLength(fields);
    if |fields| == 1 {
      ReadEscaped(fields[0], rest);
      assert fields == [fields[0]];
    } else {
      var first, more := EscapeText(fields[0]), Join(Escaped(fields[1..]), [COMMA]);
      Associate(first, [COMMA] + more, rest);
      Associate([COMMA], more, rest);
      DropBeyond([COMMA], more + rest, 0);
      ReadEscaped(fields[0], [COMMA] + (more + rest));
      ReadJoinedRecord(fields[1..], rest);
      assert [fields[0]] + fields[1..] == fields;
    }
  }

  lemma EscapedLength(fields: seq<Str>)
    ensures |Escaped(fields)| == |fields|
  {
  }

  function Lines(records: seq<seq<Str>>): (r: seq<Str>)
    ensures |r| == |records| && forall i :: 0 <= i < |records| ==> r[i] == Join(Escaped(records[i]), [COMMA])
  {
    seq(|records|, i requires 0 <= i < |records| => Join(Escaped(records[i]), [COMMA]))
  }

  /** Any records with at least one field each come back from their text. */
  lemma {:induction false} ReadWritten(records: seq<seq<Str>>)
    requires records != [] && forall i :: 0 <= i < |records| ==> records[i] != []
    ensures ReadCsv(Join(Lines(records), [CR, LF])) == Some(records)
    decreases |records|
  {
    hide ReadRecord, Escaped;
    var line := Join(Escaped(records[0]), [COMMA]);
    assert Lines(records)[1..] == Lines(records[1..]);
    if |records| == 1 {
      ReadJoinedRecord(records[0], []);
      assert line + [] == line && records == [records[0]];
    } else {
      var more := Join(Lines(records[1..]), [CR, LF]);
      ReadJoinedRecord(records[0], [CR, LF] + more);
      ReadWritten(records[1..]);
      DropBeyond([CR, LF], more, 0);
      assert [records[0]] + records[1..] == records;
    }
  }

  // ---------- the payload ----------

  function PayloadLines(table: Table): seq<Str> {
    [Join(Map(table.headers, EscapeText), [COMMA])]
    + seq(|table.rows|, i requires 0 <= i < |table.rows| => BuildCsvRow(table.rows[i], table.headers))
  }

  lemma RowIsItsTexts(row: Row, headers: seq<Str>)
    ensures Map(headers, h => EscapeCsvCell(CellAt(row, h))) == Escaped(RowTexts(row, headers))
  {
    hide EscapeText, CellAt;
    EscapeOfNothing();
  }

  lemma EscapeOfNothing()
    ensures EscapeText([]) == []
  {
  }

  lemma PayloadIsRecords(table: Table)
    ensures PayloadLines(table) == Lines(Records(table))
  {
    hide EscapeText, EscapeCsvCell, CellAt, Join;
    var a, b := PayloadLines(table), Lines(Records(table));
    forall i | 0 <= i < |a| ensures a[i] == b[i] {
      if i > 0 { RowIsItsTexts(table.rows[i-1], table.headers); }
    }
  }

  lemma PayloadIsRead(table: Table)
    ensures table.headers != [] ==> ReadCsv(Join(PayloadLines(table), [CR, LF])) == Some(Records(table))
  {
    hide ReadCsv, Join, RowTexts;
    if table.headers != [] {
      PayloadIsRecords(table);
      RecordsHaveFields(table);
      ReadWritten(Records(table));
    }
  }

  /** `buildCsvPayload`: a reader of the text finds the headers and every cell's text in order,
      whatever commas, quotes and line breaks they hold. */
  method BuildCsvPayload(table: Table) returns (csv: Str)
    ensures csv == Join(PayloadLines(table), [CR, LF])
    ensures table.headers != [] ==> ReadCsv(csv) == Some(Records(table))
  {
    hide ReadCsv, EscapeText, BuildCsvRow, RowTexts, Join;
    var lines := [Join(Map(table.headers, EscapeText), [COMMA])];
    for i := 0 to |table.rows|
      invariant lines == PayloadLines(table)[..i+1]
    {
      lines := lines + [BuildCsvRow(table.rows[i], table.headers)];
    }
    csv := Join(lines, [CR, LF]);
    assert lines == PayloadLines(table);
    PayloadIsRead(table);
  }

  lemma RecordsHaveFields(table: Table)
    requires table.headers != []
    ensures forall i :: 0 <= i < |Records(table)| ==> Records(table)[i] != []
  {
  }

  /** The names an ordinary object inherits. */
  predicate ObjectHas(h: Str) {
    || h == Lit("constructor") || h == Lit("__proto__") || h == Lit("hasOwnProperty") || h == Lit("isPrototypeOf")
    || h == Lit("propertyIsEnumerable") || h == Lit("toLocaleString") || h == Lit("toString") || h == Lit("valueOf")
    || h == Lit("__defineGetter__") || h == Lit("__defineSetter__")
    || h == Lit("__lookupGetter__") || h == Lit("__lookupSetter__")
  }

  lemma InheritedIff(h: Str)
    ensures IsInherited(h) <==> ObjectHas(h)
  {
    hide Lit;
  }

  /** What the file shows: a text cell as it is, a number as JavaScript shows it, a null cell as nothing, and a missing cell as
      nothing exactly if its header names none of the twelve properties every object inherits. */
  lemma EmptyCells(table: Table, i: nat, j: nat)
    requires i < |table.rows| && j < |table.headers|
    ensures var row, h, file := table.rows[i], table.headers[j], ReadCsv(Join(PayloadLines(table), [CR, LF]));
      && file.Some? && i + 1 < |file.value| && j < |file.value[i+1]|
      && (h in row && row[h].Text? ==> file.value[i+1][j] == row[h].s)
      && (h in row && row[h].Number? ==> file.value[i+1][j] == row[h].shown)
      && (h in row && row[h] == Null ==> file.value[i+1][j] == [])
      && (h !in row ==> (file.value[i+1][j] == [] <==> !ObjectHas(h)))
  {
    hide ReadCsv, Join, PayloadLines, IsInherited, ObjectHas, InheritedText;
    PayloadIsRead(table);
    InheritedIff(table.headers[j]);
  }

  /** What it shows under the others: the text of the inherited property. */
  lemma InheritedCells(table: Table, i: nat, j: nat)
    requires i < |table.rows| && j < |table.headers| && table.headers[j] !in table.rows[i] && ObjectHas(table.headers[j])
    ensures var h, file := table.headers[j], ReadCsv(Join(PayloadLines(table), [CR, LF]));
      && file.Some? && i + 1 < |file.value| && j < |file.value[i+1]|
      && file.value[i+1][j] ==
         if h == Lit("constructor") then Lit("function Object() { [native code] }")
         else if h == Lit("__proto__") then Lit("[object Object]")
         else Lit("function ") + h + Lit("() { [native code] }")
  {
    hide ReadCsv, Join, PayloadLines, IsInherited, ObjectHas, Lit;
    PayloadIsRead(table);
    InheritedIff(table.headers[j]);
  }

  /** A row with no cell under the header `constructor` shows the function every object inherits
      by that name. */
  lemma ConstructorColumn()
    ensures ReadCsv(Join(PayloadLines(Table([Lit("constructor")], [map[]], None)), [CR, LF]))
      == Some([[Lit("constructor")], [Lit("function Object() { [native code] }")]])
  {
    hide Lit, ReadCsv, Join, PayloadLines;
    var h := Lit("constructor");
    assert IsInherited(h);
    var table := Table([h], [map[]], None);
    PayloadIsRead(table);
    assert RowTexts(map[], [h]) == [InheritedText(h)];
    assert Records(table) == [[h], [InheritedText(h)]];
  }

  // ---------- validation ----------

  datatype Fault = NoHeaders | BlankHeader | DuplicateHeader(h: Str) | NoRows | BlankTitle

  predicate ValidTable(table: Table) {
    && table.headers != [] && table.rows != []
    && (forall i :: 0 <= i < |table.headers| ==> !AllSpace(table.headers[i]))
    && (forall i, j :: 0 <= i < j < |table.headers| ==> table.headers[i] != table.headers[j])
    && (table.title.Some? ==> !AllSpace(table.title.value))
  }

  /** The i-th header is one the loop stops at. */
  predicate Faulty(headers: seq<Str>, i: nat)
    requires i < |headers|
  {
    AllSpace(headers[i]) || headers[i] in headers[..i]
  }

  lemma FaultyMeansInvalid(table: Table, i: nat)
    requires i < |table.headers| && Faulty(table.headers, i)
    ensures !ValidTable(table)
  {
    hide AllSpace;
    if table.headers[i] in table.headers[..i] {
      var j :| 0 <= j < i && table.headers[..i][j] == table.headers[i];
      assert table.headers[j] == table.headers[i];
    }
  }

  lemma FaultlessMeansDistinct(headers: seq<Str>)
    requires forall j :: 0 <= j < |headers| ==> !Faulty(headers, j)
    ensures forall i, j :: 0 <= i < j < |headers| ==> headers[i] != headers[j]
    ensures forall i :: 0 <= i < |headers| ==> !AllSpace(headers[i])
  {
    hide AllSpace;
    forall i, j | 0 <= i < j < |headers| ensures headers[i] != headers[j] {
      assert !Faulty(headers, j);
      assert headers[i] == headers[..j][i];
    }
    forall i | 0 <= i < |headers| ensures !AllSpace(headers[i]) {
      assert !Faulty(headers, i);
    }
  }

  /** `validateSheetTable`: no fault exactly for a valid table; a fault in the headers is the
      first one. */
  method ValidateSheetTable(table: Table) returns (fault: Option<Fault>)
    ensures fault.None? <==> ValidTable(table)
    ensures fault == Some(NoHeaders) <==> table.headers == []
    ensures fault.Some? && (fault.value.BlankHeader? || fault.value.DuplicateHeader?) ==>
      exists i :: 0 <= i < |table.headers| && Faulty(table.headers, i) && (forall j :: 0 <= j < i ==> !Faulty(table.headers, j))
        && fault.value == if AllSpace(table.headers[i]) then BlankHeader else DuplicateHeader(table.headers[i])
    ensures fault == Some(NoRows) ==> table.rows == []
    ensures fault == Some(BlankTitle) ==> table.title.Some? && AllSpace(table.title.value)
  {
    hide Trim, AllSpace;
    if |table.headers| == 0 {
      return Some(NoHeaders);
    }
    var seen: set<Str> := {};
    for i := 0 to |table.headers|
      invariant seen == set h | h in table.headers[..i]
      invariant forall j :: 0 <= j < i ==> !Faulty(table.headers, j)
    {
      var h := table.headers[i];
      TrimIsEmptyIff(h);
      if Trim(h) == [] {
        FaultyMeansInvalid(table, i);
        return Some(BlankHeader);
      }
      if h in seen {
        FaultyMeansInvalid(table, i);
        return Some(DuplicateHeader(h));
      }
      seen := seen + {h};
      assert table.headers[..i+1] == table.headers[..i] + [h];
    }
    FaultlessMeansDistinct(table.headers);
    if |table.rows| == 0 {
      return Some(NoRows);
    }
    if table.title.Some? { TrimIsEmptyIff(table.title.value); }
    if table.title.Some? && Trim(table.title.value) == [] {
      return Some(BlankTitle);
    }
    fault := None;
  }

  datatype Output = Sheet(csv: Str, rowCount: nat, columnCount: nat, title: Option<Str>) | Refused(fault: Fault)

  /** `buildSheetOutput`. */
  method BuildSheetOutput(table: Table) returns (output: Output)
    ensures output.Sheet? <==> ValidTable(table)
    ensures output.Sheet? ==> ReadCsv(output.csv) == Some(Records(table))
    ensures output.Sheet? ==> output.rowCount == |table.rows| && output.columnCount == |table.headers|
    ensures output.Sheet? ==> output.title == (if table.title.Some? then Some(Trim(table.title.value)) else None)
  {
    hide ReadCsv, Records;
    var fault := ValidateSheetTable(table);
    if fault.Some? {
      return Refused(fault.value);
    }
    var csv := BuildCsvPayload(table);
    output := Sheet(csv, |table.rows|, |table.headers|,
                    if table.title.Some? then Some(Trim(table.title.value)) else None);
  }
}
