/** The order-independent dataset fingerprint: rendered rows, sorted, written as CSV (RFC 4180, section 2)
    after the column names. SHA-256 is taken as injective, so the bytes stand for the digest. */
module Fingerprint {
  import opened Frames
  import opened Strings

  type Line = seq<string>

  // --- the row order of sort_values --------------------------------------------------------------

  predicate TextLeq(a: string, b: string) {
    a == [] || (b != [] && (a[0] < b[0] || (a[0] == b[0] && TextLeq(a[1..], b[1..]))))
  }

  /** The order of texts: one is the beginning of the other, or smaller at the first character that differs. */
  lemma {:induction false} TextLeqIff(a: string, b: string)
    ensures TextLeq(a, b) <==> a <= b || exists k: nat :: FirstDifference(a, b, k) && a[k] < b[k]
  {
    if a != [] && b != [] && a[0] == b[0] {
      TextLeqIff(a[1..], b[1..]);
      assert a == [a[0]] + a[1..] && b == [b[0]] + b[1..];
      FirstDifferenceLater(a, b);
    } else if a != [] && b != [] {
      DifferentFirst(a, b);
    }
  }

  ghost predicate FirstDifference<T>(a: seq<T>, b: seq<T>, k: nat) {
    k < |a| && k < |b| && a[..k] == b[..k] && a[k] != b[k]
  }

  lemma DifferentFirst<T>(a: seq<T>, b: seq<T>)
    requires a != [] && b != [] && a[0] != b[0]
    ensures !(a <= b) && forall k: nat :: FirstDifference(a, b, k) <==> k == 0
  {
    forall k: nat | 0 < k < |a| && k < |b| ensures a[..k] != b[..k] {
      assert a[..k][0] != b[..k][0];
    }
  }

  lemma FirstDifferenceLater<T>(a: seq<T>, b: seq<T>)
    requires a != [] && b != [] && a[0] == b[0]
    ensures forall k: nat :: FirstDifference(a[1..], b[1..], k) <==> FirstDifference(a, b, k + 1)
    ensures !FirstDifference(a, b, 0)
  {
    forall k: nat ensures FirstDifference(a[1..], b[1..], k) <==> FirstDifference(a, b, k + 1) {
      if k < |a| - 1 && k < |b| - 1 {
        assert a[..k + 1] == [a[0]] + a[1..][..k] && b[..k + 1] == [b[0]] + b[1..][..k];
      }
    }
  }

  /** Column by column, left to right. */
  predicate LineLeq(a: Line, b: Line) {
    a == [] || (b != [] && if a[0] == b[0] then LineLeq(a[1..], b[1..]) else TextLeq(a[0], b[0]))
  }

  lemma {:induction false} TextOrder(a: string, b: string, c: string)
    ensures TextLeq(a, b) || TextLeq(b, a)
    ensures TextLeq(a, b) && TextLeq(b, a) ==> a == b
    ensures TextLeq(a, b) && TextLeq(b, c) ==> TextLeq(a, c)
  {
    if a != [] && b != [] {
      TextOrder(a[1..], b[1..], if c == [] then [] else c[1..]);
      assert a == [a[0]] + a[1..] && b == [b[0]] + b[1..];
    }
  }

  lemma {:induction false} LineOrder(a: Line, b: Line, c: Line)
    ensures LineLeq(a, b) || LineLeq(b, a)
    ensures LineLeq(a, b) && LineLeq(b, a) ==> a == b
    ensures LineLeq(a, b) && LineLeq(b, c) ==> LineLeq(a, c)
  {
    if a != [] && b != [] {
      TextOrder(a[0], b[0], if c == [] then "" else c[0]);
      if c != [] { TextOrder(b[0], c[0], a[0]); }
      LineOrder(a[1..], b[1..], if c == [] then [] else c[1..]);
      assert a == [a[0]] + a[1..] && b == [b[0]] + b[1..];
    }
  }

  function Insert(line: Line, sorted: seq<Line>): seq<Line> {
    if sorted == [] then [line]
    else if LineLeq(line, sorted[0]) then [line] + sorted
    else [sorted[0]] + Insert(line, sorted[1..])
  }

  function Sort(lines: seq<Line>): seq<Line> {
    if lines == [] then [] else Insert(lines[0], Sort(lines[1..]))
  }

  ghost predicate Sorted(lines: seq<Line>) {
    forall i, j | 0 <= i < j < |lines| :: LineLeq(lines[i], lines[j])
  }

  lemma {:induction false} InsertAdds(line: Line, sorted: seq<Line>)
    ensures multiset(Insert(line, sorted)) == multiset(sorted) + multiset{line}
  {
    if sorted != [] {
      assert sorted == [sorted[0]] + sorted[1..];
      if !LineLeq(line, sorted[0]) {
        InsertAdds(line, sorted[1..]);
      }
    }
  }

  lemma {:induction false} InsertSorts(line: Line, sorted: seq<Line>)
    requires Sorted(sorted)
    ensures Sorted(Insert(line, sorted))
  {
    hide LineLeq;
    if sorted != [] {
      if LineLeq(line, sorted[0]) {
        forall j | 0 <= j < |sorted| ensures LineLeq(line, sorted[j]) {
          LineOrder(line, sorted[0], sorted[j]);
        }
      } else {
        InsertSorts(line, sorted[1..]);
        InsertAdds(line, sorted[1..]);
        var rest := Insert(line, sorted[1..]);
        forall j | 0 <= j < |rest| ensures LineLeq(sorted[0], rest[j]) {
          assert rest[j] in multiset(rest);
          LineOrder(line, sorted[0], line);
          if rest[j] != line { assert rest[j] in sorted[1..]; }
        }
      }
    }
  }

  lemma {:induction false} SortSorts(lines: seq<Line>)
    ensures Sorted(Sort(lines)) && multiset(Sort(lines)) == multiset(lines)
  {
    if lines != [] {
      SortSorts(lines[1..]);
      InsertSorts(lines[0], Sort(lines[1..]));
      InsertAdds(lines[0], Sort(lines[1..]));
      assert lines == [lines[0]] + lines[1..];
    }
  }

  lemma SortedHeadsAgree(a: seq<Line>, b: seq<Line>)
    requires Sorted(a) && Sorted(b) && multiset(a) == multiset(b) && a != [] && b != []
    ensures a[0] == b[0]
  {
    assert a[0] in multiset(b) && b[0] in multiset(a);
    var i :| 0 <= i < |b| && b[i] == a[0];
    var j :| 0 <= j < |a| && a[j] == b[0];
    LineOrder(a[0], b[0], a[0]);
    assert i == 0 || LineLeq(b[0], b[i]);
    assert j == 0 || LineLeq(a[0], a[j]);
  }

  lemma DropHead(a: seq<Line>)
    requires a != [] && Sorted(a)
    ensures Sorted(a[1..]) && multiset(a[1..]) == multiset(a) - multiset{a[0]}
  {
    hide LineLeq;
    assert a == [a[0]] + a[1..];
  }

  lemma {:induction false} SortedIsCanonical(a: seq<Line>, b: seq<Line>)
    requires Sorted(a) && Sorted(b) && multiset(a) == multiset(b)
    ensures a == b
  {
    assert |a| == |multiset(a)| == |multiset(b)| == |b|;
    if a != [] {
      SortedHeadsAgree(a, b);
      hide Sorted;
      DropHead(a);
      DropHead(b);
      SortedIsCanonical(a[1..], b[1..]);
      assert a == [a[0]] + a[1..] && b == [b[0]] + b[1..];
    }
  }

  /** The order of rows: by the first column in which they differ. */
  lemma {:induction false} LineLeqIff(a: Line, b: Line)
    ensures LineLeq(a, b) <==> a <= b || exists k: nat :: FirstDifference(a, b, k) && TextLeq(a[k], b[k])
  {
    hide TextLeq;
    if a != [] && b != [] && a[0] == b[0] {
      LineLeqIff(a[1..], b[1..]);
      assert a == [a[0]] + a[1..] && b == [b[0]] + b[1..];
      FirstDifferenceLater(a, b);
    } else if a != [] && b != [] {
      DifferentFirst(a, b);
    }
  }

  // --- CSV ---------------------------------------------------------------------------------------

  predicate IsSpecial(c: char) { c == ',' || c == '"' || c == '\n' || c == '\r' }

  predicate NeedsQuotes(field: string) {
    exists i | 0 <= i < |field| :: IsSpecial(field[i])
  }

  function Escape(field: string): string {
    if field == [] then []
    else (if field[0] == '"' then "\"\"" else [field[0]]) + Escape(field[1..])
  }

  function EncodeField(field: string, alone: bool): string {
    if NeedsQuotes(field) || (alone && field == "") then "\"" + Escape(field) + "\"" else field
  }

  /** A field is written as it is unless it holds a comma, a quote or a line end; then it is put in quotes, its
      own quotes doubled. */
  lemma FieldIsWritten(field: string)
    ensures var plain := forall c | c in field :: c !in ",\"\n\r";
            EncodeField(field, false) == if plain then field else "\"" + Escape(field) + "\""
    ensures Escape("") == ""
    ensures forall c :: Escape([c] + field) == (if c == '"' then "\"\"" else [c]) + Escape(field)
  {
    forall c ensures Escape([c] + field) == (if c == '"' then "\"\"" else [c]) + Escape(field) {
      assert ([c] + field)[1..] == field;
    }
    if i :| 0 <= i < |field| && IsSpecial(field[i]) {
      assert field[i] in field && field[i] in ",\"\n\r";
    }
  }

  function EncodeFields(fields: Line): string
    requires fields != []
  {
    if |fields| == 1 then EncodeField(fields[0], false) + "\n"
    else EncodeField(fields[0], false) + "," + EncodeFields(fields[1..])
  }

  /** A line; a single empty field is quoted so that the line is not blank. */
  function EncodeLine(fields: Line): string
    requires fields != []
  {
    if fields == [""] then "\"\"\n" else EncodeFields(fields)
  }

  predicate NoEmptyLine(lines: seq<Line>) {
    forall i | 0 <= i < |lines| :: lines[i] != []
  }

  function Encode(lines: seq<Line>): string
    requires NoEmptyLine(lines)
  {
    if lines == [] then "" else EncodeLine(lines[0]) + Encode(lines[1..])
  }

  datatype Parsed<+T> = Parsed(value: T, rest: string)

  /** The rest of a quoted field, after its opening quote. */
  function ParseQuoted(text: string): (parsed: Parsed<string>)
    ensures |parsed.rest| <= |text|
  {
    if text == "" then Parsed("", "")
    else if text[0] != '"' then
      var tail := ParseQuoted(text[1..]);
      Parsed([text[0]] + tail.value, tail.rest)
    else if |text| > 1 && text[1] == '"' then
      var tail := ParseQuoted(text[2..]);
      Parsed("\"" + tail.value, tail.rest)
    else Parsed("", text[1..])
  }

  function ParsePlain(text: string): (parsed: Parsed<string>)
    ensures |parsed.rest| <= |text|
  {
    if text == "" || text[0] == ',' || text[0] == '\n' then Parsed("", text)
    else
      var tail := ParsePlain(text[1..]);
      Parsed([text[0]] + tail.value, tail.rest)
  }

  function ParseField(text: string): (parsed: Parsed<string>)
    ensures |parsed.rest| <= |text|
  {
    if text != "" && text[0] == '"' then ParseQuoted(text[1..]) else ParsePlain(text)
  }

  function ParseLine(text: string): (parsed: Parsed<Line>)
    ensures text != "" ==> |parsed.rest| < |text|
    decreases |text|
  {
    var field := ParseField(text);
    if field.rest == "" then Parsed([field.value], "")
    else if field.rest[0] != ',' then Parsed([field.value], field.rest[1..])
    else
      var tail := ParseLine(field.rest[1..]);
      Parsed([field.value] + tail.value, tail.rest)
  }

  function Parse(text: string): seq<Line>
    decreases |text|
  {
    if text == "" then [] else [ParseLine(text).value] + Parse(ParseLine(text).rest)
  }

  lemma {:induction false} ParseEscaped(field: string, rest: string)
    requires rest == "" || rest[0] != '"'
    ensures ParseQuoted(Escape(field) + "\"" + rest) == Parsed(field, rest)
  {
    var text := Escape(field) + "\"" + rest;
    if field == "" {
      assert text == "\"" + rest && text[1..] == rest;
    } else {
      ParseEscaped(field[1..], rest);
      var tail := Escape(field[1..]) + "\"" + rest;
      if field[0] == '"' {
        assert text == "\"\"" + tail && text[2..] == tail;
      } else {
        assert text == [field[0]] + tail && text[1..] == tail;
      }
      assert field == [field[0]] + field[1..];
    }
  }

  lemma {:induction false} ParsePlainField(field: string, rest: string)
    requires !NeedsQuotes(field)
    requires rest == "" || rest[0] == ',' || rest[0] == '\n'
    ensures ParsePlain(field + rest) == Parsed(field, rest)
  {
    if field == "" {
      assert field + rest == rest;
    } else {
      assert !IsSpecial(field[0]);
      assert forall i | 0 <= i < |field[1..]| :: field[1..][i] == field[i + 1];
      ParsePlainField(field[1..], rest);
      assert (field + rest)[1..] == field[1..] + rest;
      assert field == [field[0]] + field[1..];
    }
  }

  lemma ParseEncodedField(field: string, alone: bool, rest: string)
    requires rest != "" && (rest[0] == ',' || rest[0] == '\n')
    ensures ParseField(EncodeField(field, alone) + rest) == Parsed(field, rest)
  {
    var text := EncodeField(field, alone) + rest;
    if NeedsQuotes(field) || (alone && field == "") {
      var inner := Escape(field) + "\"" + rest;
      assert text == "\"" + inner && text[1..] == inner;
      ParseEscaped(field, rest);
    } else {
      ParsePlainField(field, rest);
      assert field == "" || !IsSpecial(field[0]);
      assert text == field + rest && text[0] == if field == "" then rest[0] else field[0];
    }
  }

  lemma ParseLastField(field: string, rest: string)
    ensures ParseLine(EncodeField(field, false) + "\n" + rest) == Parsed([field], rest)
  {
    hide EncodeField, ParseField;
    var after := "\n" + rest;
    assert EncodeField(field, false) + "\n" + rest == EncodeField(field, false) + after;
    ParseEncodedField(field, false, after);
    assert after[1..] == rest && after[0] == '\n';
  }

  lemma ParseNextField(field: string, tail: string)
    requires tail != ""
    ensures ParseLine(EncodeField(field, false) + "," + tail)
         == Parsed([field] + ParseLine(tail).value, ParseLine(tail).rest)
  {
    hide EncodeField, ParseField;
    var after := "," + tail;
    assert EncodeField(field, false) + "," + tail == EncodeField(field, false) + after;
    ParseEncodedField(field, false, after);
    assert after[1..] == tail && after[0] == ',';
  }

  lemma {:induction false} ParseEncodedFields(fields: Line, rest: string)
    requires fields != []
    ensures EncodeFields(fields) != "" && ParseLine(EncodeFields(fields) + rest) == Parsed(fields, rest)
    decreases |fields|
  {
    hide EncodeField, ParseLine;
    if |fields| == 1 {
      ParseLastField(fields[0], rest);
      assert fields == [fields[0]];
    } else {
      var tail := EncodeFields(fields[1..]) + rest;
      ParseEncodedFields(fields[1..], rest);
      ParseNextField(fields[0], tail);
      assert EncodeFields(fields) + rest == EncodeField(fields[0], false) + "," + tail;
      assert fields == [fields[0]] + fields[1..];
    }
  }

  lemma ParseEncodedLine(fields: Line, rest: string)
    requires fields != []
    ensures EncodeLine(fields) != "" && ParseLine(EncodeLine(fields) + rest) == Parsed(fields, rest)
  {
    if fields == [""] {
      assert EncodeLine(fields) + rest == EncodeField("", true) + ("\n" + rest);
      ParseEncodedField("", true, "\n" + rest);
      assert ("\n" + rest)[1..] == rest;
    } else {
      ParseEncodedFields(fields, rest);
    }
  }

  /** CSV round trip: parsing what was written gives the lines back. */
  lemma {:induction false} CsvRoundTrip(lines: seq<Line>)
    requires NoEmptyLine(lines)
    ensures Parse(Encode(lines)) == lines
  {
    if lines != [] {
      ParseEncodedLine(lines[0], Encode(lines[1..]));
      CsvRoundTrip(lines[1..]);
      assert lines == [lines[0]] + lines[1..];
    }
  }

  // --- the fingerprint ---------------------------------------------------------------------------

  /** A record has exactly the frame's columns. */
  predicate HasColumns(record: Record, columns: seq<string>) {
    record.Keys == set c | c in columns
  }

  /** The text of a cell in a column. */
  type Rendering = (string, Cell) -> string

  function RenderRow(record: Record, columns: seq<string>, render: Rendering): Line {
    seq(|columns|, i requires 0 <= i < |columns| => render(columns[i], Get(record, columns[i])))
  }

  function Render(rows: seq<Record>, columns: seq<string>, render: Rendering): seq<Line> {
    seq(|rows|, i requires 0 <= i < |rows| => RenderRow(rows[i], columns, render))
  }

  function JoinNames(columns: seq<string>): string {
    if columns == [] then ""
    else if |columns| == 1 then columns[0]
    else columns[0] + "\U{1f}" + JoinNames(columns[1..])
  }

  lemma SortedLinesAreLines(lines: seq<Line>)
    ensures NoEmptyLine(lines) ==> NoEmptyLine(Sort(lines))
  {
    SortSorts(lines);
    forall i | 0 <= i < |Sort(lines)| ensures Sort(lines)[i] in lines {
      assert Sort(lines)[i] in multiset(Sort(lines));
    }
  }

  /** The bytes dataset_fingerprint hashes. */
  function CanonicalBytes(rows: seq<Record>, columns: seq<string>, render: Rendering): string
    requires columns != []
  {
    var lines := Render(rows, columns, render);
    SortedLinesAreLines(lines);
    JoinNames(columns) + Encode(Sort(lines))
  }

  /** Different cells of one column in these rows have different texts. */
  ghost predicate TellsApart(render: Rendering, columns: seq<string>, rows: seq<Record>) {
    forall r, s, c | r in rows && s in rows && c in columns && render(c, Get(r, c)) == render(c, Get(s, c)) ::
      Get(r, c) == Get(s, c)
  }

  lemma RenderRowIsInjective(rows: seq<Record>, a: Record, b: Record, columns: seq<string>, render: Rendering)
    requires TellsApart(render, columns, rows) && a in rows && b in rows
    requires HasColumns(a, columns) && HasColumns(b, columns)
    requires RenderRow(a, columns, render) == RenderRow(b, columns, render)
    ensures a == b
  {
    forall c | c in a.Keys ensures c in b.Keys && a[c] == b[c] {
      var i :| 0 <= i < |columns| && columns[i] == c;
      assert RenderRow(a, columns, render)[i] == RenderRow(b, columns, render)[i];
      assert Get(a, c) == Get(b, c);
    }
  }

  lemma {:induction false} RenderCounts(rows: seq<Record>, all: seq<Record>, record: Record, columns: seq<string>,
                                        render: Rendering)
    requires TellsApart(render, columns, all) && record in all
    requires forall r | r in all :: HasColumns(r, columns)
    requires forall r | r in rows :: r in all
    ensures multiset(Render(rows, columns, render))[RenderRow(record, columns, render)] == multiset(rows)[record]
  {
    hide TellsApart, HasColumns;
    if rows == [] {
    } else {
      RenderCounts(rows[1..], all, record, columns, render);
      assert rows == [rows[0]] + rows[1..];
      assert Render(rows, columns, render)
          == [RenderRow(rows[0], columns, render)] + Render(rows[1..], columns, render);
      if RenderRow(rows[0], columns, render) == RenderRow(record, columns, render) {
        RenderRowIsInjective(all, rows[0], record, columns, render);
      }
    }
  }

  /** Equal rendered datasets up to order, equal bytes; and equal bytes only then. */
  lemma SameBytesIffSameLines(a: seq<Record>, b: seq<Record>, columns: seq<string>, render: Rendering)
    requires columns != []
    ensures CanonicalBytes(a, columns, render) == CanonicalBytes(b, columns, render)
       <==> multiset(Render(a, columns, render)) == multiset(Render(b, columns, render))
  {
    var x, y := Render(a, columns, render), Render(b, columns, render);
    SortSorts(x);
    SortSorts(y);
    if multiset(x) == multiset(y) {
      SortedIsCanonical(Sort(x), Sort(y));
    }
    if CanonicalBytes(a, columns, render) == CanonicalBytes(b, columns, render) {
      SortedLinesAreLines(x);
      SortedLinesAreLines(y);
      SameSuffix(JoinNames(columns), Encode(Sort(x)), Encode(Sort(y)));
      CsvRoundTrip(Sort(x));
      CsvRoundTrip(Sort(y));
    }
  }

  /** Taking a row out takes its line out. */
  lemma TakeOut(rows: seq<Record>, i: nat, columns: seq<string>, render: Rendering)
    requires i < |rows|
    ensures var rest := rows[..i] + rows[i + 1..];
            && multiset(rows) == multiset(rest) + multiset{rows[i]}
            && multiset(Render(rows, columns, render))
               == multiset(Render(rest, columns, render)) + multiset{RenderRow(rows[i], columns, render)}
  {
    hide RenderRow;
    var front, back := rows[..i], rows[i + 1..];
    var f, b := Render(front, columns, render), Render(back, columns, render);
    assert rows == front + [rows[i]] + back;
    assert Render(rows, columns, render) == f + [RenderRow(rows[i], columns, render)] + b;
    assert Render(front + back, columns, render) == f + b;
  }

  /** Reordering rows reorders their lines, whatever the rendering. */
  lemma {:induction false} SameRowsSameLines(a: seq<Record>, b: seq<Record>, columns: seq<string>, render: Rendering)
    requires multiset(a) == multiset(b)
    ensures multiset(Render(a, columns, render)) == multiset(Render(b, columns, render))
    decreases |a|
  {
    hide Render, RenderRow;
    assert |a| == |multiset(a)| == |multiset(b)| == |b|;
    if a != [] {
      assert a[0] in multiset(b);
      var i :| 0 <= i < |b| && b[i] == a[0];
      var x, y := a[..0] + a[1..], b[..i] + b[i + 1..];
      TakeOut(a, 0, columns, render);
      TakeOut(b, i, columns, render);
      SameParts(multiset(x), multiset(y), a[0]);
      SameRowsSameLines(x, y, columns, render);
    } else {
      assert b == [];
    }
  }

  lemma SameParts(x: multiset<Record>, y: multiset<Record>, row: Record)
    requires x + multiset{row} == y + multiset{row}
    ensures x == y
  {
    assert x == (x + multiset{row}) - multiset{row};
    assert y == (y + multiset{row}) - multiset{row};
  }

  /** Canonicity: where different cells of a column have different texts, two datasets have the same
      fingerprint exactly when they hold the same rows, each as often, in whatever order. */
  lemma FingerprintIsCanonical(a: seq<Record>, b: seq<Record>, columns: seq<string>, render: Rendering)
    requires columns != [] && TellsApart(render, columns, a + b)
    requires forall r | r in a + b :: HasColumns(r, columns)
    ensures CanonicalBytes(a, columns, render) == CanonicalBytes(b, columns, render) <==> multiset(a) == multiset(b)
  {
    SameBytesIffSameLines(a, b, columns, render);
    hide CanonicalBytes, TellsApart, HasColumns, Render;
    if multiset(a) == multiset(b) {
      SameRowsSameLines(a, b, columns, render);
    }
    if multiset(Render(a, columns, render)) == multiset(Render(b, columns, render)) {
      forall r ensures multiset(a)[r] == multiset(b)[r] {
        if r in a + b {
          RenderCounts(a, a + b, r, columns, render);
          RenderCounts(b, a + b, r, columns, render);
        }
      }
    }
  }

  // --- the column names in the fingerprint -------------------------------------------------------

  const NAME_SEPARATOR: char := '\U{1f}'

  ghost predicate PlainNames(columns: seq<string>) {
    columns != [] && forall c | c in columns :: '\U{1f}' !in c
  }

  /** Names without the separator can be told from their join. */
  lemma {:induction false} JoinTellsNames(a: seq<string>, b: seq<string>)
    requires PlainNames(a) && PlainNames(b) && JoinNames(a) == JoinNames(b)
    ensures a == b
  {
    JoinStarts(a);
    JoinStarts(b);
    FirstNotLonger(a, b);
    FirstNotLonger(b, a);
    assert a[0] == JoinNames(a)[..|a[0]|] == b[0];
    if |a| > 1 {
      SameSuffix(a[0] + [NAME_SEPARATOR], JoinNames(a[1..]), JoinNames(b[1..]));
      assert PlainNames(a[1..]) && PlainNames(b[1..]);
      JoinTellsNames(a[1..], b[1..]);
    }
    assert a == [a[0]] + a[1..] && b == [b[0]] + b[1..];
  }

  lemma FirstNotLonger(a: seq<string>, b: seq<string>)
    requires PlainNames(a) && PlainNames(b) && JoinNames(a) == JoinNames(b)
    ensures |b[0]| <= |a[0]|
  {
    JoinStarts(a);
    JoinStarts(b);
    assert b[0] in b;
    assert forall i | 0 <= i < |b[0]| :: JoinNames(b)[i] == b[0][i] && b[0][i] != NAME_SEPARATOR;
    assert |a| > 1 ==> JoinNames(a)[|a[0]|] == NAME_SEPARATOR;
  }

  lemma JoinStarts(columns: seq<string>)
    requires PlainNames(columns)
    ensures var text := JoinNames(columns);
            && columns[0] <= text
            && (|columns| == 1 <==> |text| == |columns[0]|)
            && (|columns| > 1 ==> text == columns[0] + [NAME_SEPARATOR] + JoinNames(columns[1..]))
  {
    assert columns[0] in columns;
  }

  /** The column names are part of the fingerprint: the same lines under other names have another one. */
  lemma OtherNamesOtherFingerprint(a: seq<Record>, b: seq<Record>, columns: seq<string>, others: seq<string>,
                                   render: Rendering)
    requires PlainNames(columns) && PlainNames(others)
    requires multiset(Render(a, columns, render)) == multiset(Render(b, others, render))
    ensures CanonicalBytes(a, columns, render) == CanonicalBytes(b, others, render) ==> columns == others
  {
    var x, y := Render(a, columns, render), Render(b, others, render);
    SortSorts(x);
    SortSorts(y);
    SortedIsCanonical(Sort(x), Sort(y));
    SortedLinesAreLines(x);
    SortedLinesAreLines(y);
    if CanonicalBytes(a, columns, render) == CanonicalBytes(b, others, render) {
      SamePrefix(JoinNames(columns), JoinNames(others), Encode(Sort(x)));
      JoinTellsNames(columns, others);
    }
  }

  lemma SamePrefix(a: string, b: string, suffix: string)
    requires a + suffix == b + suffix
    ensures a == b
  {
    assert |a| == |b|;
    assert a == (a + suffix)[..|a|] == b;
  }
}
