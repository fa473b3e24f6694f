/** Schema-driven coercion: numeric converters, and the per-cell error collection of coerce_frame. */
module Coercion {
  import opened Frames

  /** A converter's answer: a value, a ValueError with its text, or an exception coerce_frame does not catch. */
  datatype Conversion = Converted(cell: Cell) | Rejected(reason: string) | Crash

  // --- missing values ----------------------------------------------------------------------------

  predicate IsSpace(c: char) {
    || '\U{9}' <= c <= '\U{d}' || '\U{1c}' <= c <= ' ' || c == '\U{85}' || c == '\U{a0}' || c == '\U{1680}'
    || '\U{2000}' <= c <= '\U{200a}' || c == '\U{2028}' || c == '\U{2029}' || c == '\U{202f}'
    || c == '\U{205f}' || c == '\U{3000}'
  }

  predicate IsMissing(cell: Cell) {
    cell.Null? || (cell.Text? && forall i | 0 <= i < |cell.text| :: IsSpace(cell.text[i]))
  }

  /** str.strip() */
  function Strip(text: string): string {
    if text == "" then ""
    else if IsSpace(text[0]) then Strip(text[1..])
    else if IsSpace(text[|text| - 1]) then Strip(text[..|text| - 1])
    else text
  }

  /** None, or a text of which strip() leaves nothing. */
  predicate IsBlank(cell: Cell) {
    match cell
    case Null => true
    case Text(text) => Strip(text) == ""
    case _ => false
  }

  lemma {:induction false} StrippedToNothing(text: string)
    ensures Strip(text) == "" <==> forall i | 0 <= i < |text| :: IsSpace(text[i])
  {
    if text != "" {
      if IsSpace(text[0]) {
        StrippedToNothing(text[1..]);
        assert forall i | 1 <= i < |text| :: text[i] == text[1..][i - 1];
      } else if IsSpace(text[|text| - 1]) {
        StrippedToNothing(text[..|text| - 1]);
        assert text[..|text| - 1][0] == text[0];
      }
    }
  }

  lemma MissingIffBlank(cell: Cell)
    ensures IsMissing(cell) <==> IsBlank(cell)
  {
    if cell.Text? { StrippedToNothing(cell.text); }
  }

  /** A text of ASCII characters is blank exactly when it consists of spaces, tabs, line ends and the other
      control characters Python takes for space. */
  lemma AsciiBlankIff(text: string)
    requires forall i | 0 <= i < |text| :: text[i] < '\U{80}'
    ensures IsBlank(Cell.Text(text)) <==>
            forall i | 0 <= i < |text| :: text[i] in " \t\n\r\U{b}\U{c}\U{1c}\U{1d}\U{1e}\U{1f}"
  {
    StrippedToNothing(text);
    forall i | 0 <= i < |text|
      ensures IsSpace(text[i]) <==> text[i] in " \t\n\r\U{b}\U{c}\U{1c}\U{1d}\U{1e}\U{1f}"
    {
      AsciiSpaces(text[i]);
    }
  }

  lemma AsciiSpaces(c: char)
    requires c < '\U{80}'
    ensures IsSpace(c) <==> c in " \t\n\r\U{b}\U{c}\U{1c}\U{1d}\U{1e}\U{1f}"
  {
  }

  // --- exact decimals ----------------------------------------------------------------------------

  function Pow10(n: nat): nat
    ensures Pow10(n) > 0
  {
    if n == 0 then 1 else 10 * Pow10(n - 1)
  }

  /** Python's default decimal context: quantize fails for longer coefficients. */
  const CONTEXT_PRECISION: nat := 28

  function Abs(n: int): nat { if n < 0 then -n else n }

  /** ROUND_HALF_EVEN to an integer. */
  function HalfEven(y: real): int {
    var below := y.Floor;
    var part := y - below as real;
    if part < 0.5 then below
    else if part > 0.5 then below + 1
    else if below % 2 == 0 then below else below + 1
  }

  /** The nearest integer, the even one of two equally near ones. */
  predicate IsHalfEven(y: real, n: int) {
    && -0.5 <= y - n as real <= 0.5
    && (y - n as real == 0.5 || y - n as real == -0.5 ==> n % 2 == 0)
  }

  lemma HalfEvenIsNearest(y: real, n: int)
    ensures HalfEven(y) == n <==> IsHalfEven(y, n)
  {
    var below := y.Floor;
    assert below as real <= y < below as real + 1.0;
    if IsHalfEven(y, n) {
      assert n == below || n == below + 1;
    }
  }

  /** Number of decimal digits of a coefficient. */
  function Digits(n: nat): nat {
    if n < 10 then 1 else 1 + Digits(n / 10)
  }

  lemma {:induction false} DigitsBound(n: nat, k: nat)
    requires k >= 1
    ensures Digits(n) <= k <==> n < Pow10(k)
  {
    if n < 10 {
      PowersGrow(1, k);
    } else if k == 1 {
    } else {
      DigitsBound(n / 10, k - 1);
    }
  }

  lemma {:induction false} PowersGrow(a: nat, b: nat)
    requires a <= b
    ensures Pow10(a) <= Pow10(b)
  {
    if a < b { PowersGrow(a, b - 1); }
  }

  /** The value in units of the last of `scale` places, and the value of so many units. */
  function Units(value: real, scale: nat): real {
    value * Pow10(scale) as real
  }

  function OfUnits(coefficient: int, scale: nat): real {
    coefficient as real / Pow10(scale) as real
  }

  lemma UnitsOfUnits(coefficient: int, scale: nat)
    ensures Units(OfUnits(coefficient, scale), scale) == coefficient as real
  {
    var d := Pow10(scale) as real;
    assert coefficient as real / d * d == coefficient as real;
  }

  /** Decimal(P, S): quantize to S places, then refuse coefficients whose leading digit lies too high. */
  function ToDecimal(value: real, precision: nat, scale: nat): Conversion
    requires scale <= precision
  {
    var coefficient := HalfEven(Units(value, scale));
    var adjusted := Digits(Abs(coefficient)) - 1 - scale;
    if Digits(Abs(coefficient)) > CONTEXT_PRECISION then Crash
    else if adjusted + 1 > precision - scale && coefficient != 0 then Rejected("too many digits")
    else Converted(Number(OfUnits(coefficient, scale)))
  }

  /** A number fits Decimal(P, S) exactly when its half-even rounding to S places is n / 10^S with
      |n| < 10^P. The accepted value is then that quotient; a coefficient beyond the context precision
      is an exception instead, even where the column could hold it. */
  lemma DecimalAcceptance(value: real, precision: nat, scale: nat, n: int)
    requires precision >= 1 && scale <= precision
    requires IsHalfEven(Units(value, scale), n)
    ensures ToDecimal(value, precision, scale) ==
            if Abs(n) >= Pow10(28) then Crash
            else if Abs(n) >= Pow10(precision) then Rejected("too many digits")
            else Converted(Number(OfUnits(n, scale)))
  {
    HalfEvenIsNearest(Units(value, scale), n);
    DigitsBound(Abs(n), CONTEXT_PRECISION);
    DigitsBound(Abs(n), precision);
    PowersGrow(0, precision);
  }

  /** The accepted value is within half a unit of the last place, and coercing it again keeps it. */
  lemma DecimalIsCloseAndStable(value: real, precision: nat, scale: nat)
    requires scale <= precision && ToDecimal(value, precision, scale).Converted?
    ensures var result := ToDecimal(value, precision, scale).cell.value;
            && -0.5 <= Units(value, scale) - Units(result, scale) <= 0.5
            && ToDecimal(result, precision, scale) == ToDecimal(value, precision, scale)
  {
    var n := HalfEven(Units(value, scale));
    HalfEvenIsNearest(Units(value, scale), n);
    UnitsOfUnits(n, scale);
    HalfEvenIsNearest(n as real, n);
  }

  // --- coerce_frame ------------------------------------------------------------------------------

  datatype ColumnSpec = ColumnSpec(name: string, nullable: bool, convert: Cell -> Conversion)

  function Coerce(spec: ColumnSpec, raw: Cell): Conversion {
    if IsMissing(raw) then (if spec.nullable then Converted(Null) else Rejected("missing value"))
    else spec.convert(raw)
  }

  function CellOf(conversion: Conversion): Cell {
    if conversion.Converted? then conversion.cell else Null
  }

  /** The messages the first columns leave against a row, in column order. */
  function ColumnErrors(row: Record, specs: seq<ColumnSpec>): seq<string> {
    if specs == [] then []
    else
      var spec := specs[|specs| - 1];
      var conversion := Coerce(spec, Get(row, spec.name));
      ColumnErrors(row, specs[..|specs| - 1])
      + if conversion.Rejected? then [spec.name + ": " + conversion.reason] else []
  }

  /** Error lists by row position; positions without errors have no entry. */
  type RowErrors = map<nat, seq<string>>

  function ErrorsAt(errors: RowErrors, position: nat): seq<string> {
    if position in errors then errors[position] else []
  }

  /** Rows before upTo carry the messages of `next` columns, the others those of `done` columns. */
  ghost predicate RecordsErrors(errors: RowErrors, rows: seq<Record>, done: seq<ColumnSpec>, next: seq<ColumnSpec>,
        upTo: nat)
  {
    && (forall p | p in errors :: p < |rows| && errors[p] != [])
    && (forall p: nat | p < upTo && p < |rows| :: ErrorsAt(errors, p) == ColumnErrors(rows[p], next))
    && (forall p: nat | upTo <= p < |rows| :: ErrorsAt(errors, p) == ColumnErrors(rows[p], done))
  }

  function AddMessages(errors: RowErrors, position: nat, messages: seq<string>): RowErrors {
    if messages == [] then errors else errors[position := ErrorsAt(errors, position) + messages]
  }

  lemma NextRow(errors: RowErrors, rows: seq<Record>, done: seq<ColumnSpec>, next: seq<ColumnSpec>, position: nat,
        messages: seq<string>)
    requires position < |rows| && RecordsErrors(errors, rows, done, next, position)
    requires ColumnErrors(rows[position], next) == ColumnErrors(rows[position], done) + messages
    ensures RecordsErrors(AddMessages(errors, position, messages), rows, done, next, position + 1)
  {
    hide ColumnErrors;
  }

  datatype Coerced = Coerced(rows: seq<Record>, errors: RowErrors)

  /** The converted row: destination columns only, null where conversion failed. */
  function CoerceRow(row: Record, specs: seq<ColumnSpec>): Record {
    if specs == [] then map[]
    else
      var spec := specs[|specs| - 1];
      CoerceRow(row, specs[..|specs| - 1])[spec.name := CellOf(Coerce(spec, Get(row, spec.name)))]
  }

  lemma NextColumn(row: Record, specs: seq<ColumnSpec>, k: nat)
    requires k < |specs|
    ensures var conversion := Coerce(specs[k], Get(row, specs[k].name));
            && CoerceRow(row, specs[..k + 1]) == CoerceRow(row, specs[..k])[specs[k].name := CellOf(conversion)]
            && ColumnErrors(row, specs[..k + 1]) == ColumnErrors(row, specs[..k])
               + if conversion.Rejected? then [specs[k].name + ": " + conversion.reason] else []
  {
    assert specs[..k + 1][..k] == specs[..k] && specs[..k + 1][k] == specs[k];
  }

  // --- messages by column ------------------------------------------------------------------------

  /** Some message of the row starts with "column:". */
  predicate Mentions(messages: seq<string>, column: string) {
    exists i | 0 <= i < |messages| :: column + ":" <= messages[i]
  }

  /** The column a message is about: its text up to the first ':'. */
  function ColumnOf(message: string): string {
    if message == "" || message[0] == ':' then "" else [message[0]] + ColumnOf(message[1..])
  }

  lemma {:induction false} ColumnOfPrefix(column: string, message: string)
    requires ':' !in column && column + ":" <= message
    ensures ColumnOf(message) == column
  {
    var prefix := column + ":";
    if column == "" {
      assert message[0] == prefix[0] == ':';
    } else {
      assert message[0] == prefix[0] == column[0];
      assert column[1..] + ":" == prefix[1..];
      ColumnOfPrefix(column[1..], message[1..]);
    }
  }

  predicate DistinctNames(specs: seq<ColumnSpec>) {
    && (forall i, j | 0 <= i < j < |specs| :: specs[i].name != specs[j].name)
    && (forall i | 0 <= i < |specs| :: ':' !in specs[i].name)
  }

  lemma MessageMentions(column: string, problem: string, other: string)
    requires ':' !in column && ':' !in other && column != other
    ensures !Mentions([column + ": " + problem], other)
  {
    var message := column + ": " + problem;
    assert message == (column + ":") + (" " + problem);
    ColumnOfPrefix(column, message);
    if other + ":" <= message {
      ColumnOfPrefix(other, message);
    }
  }

  /** The messages about a column, in their order. */
  function About(messages: seq<string>, column: string): seq<string> {
    if messages == [] then []
    else
      var last := messages[|messages| - 1];
      About(messages[..|messages| - 1], column) + if column + ":" <= last then [last] else []
  }

  lemma AboutOneMore(messages: seq<string>, message: string, column: string)
    ensures About(messages + [message], column)
         == About(messages, column) + if column + ":" <= message then [message] else []
  {
    assert (messages + [message])[..|messages|] == messages;
  }

  /** What becomes of one cell. A blank one is null in the result and reported exactly when its column is not
      nullable; any other one gets its converter's value, or is null and reported with the converter's reason.
      Nothing else is said about the column. */
  ghost predicate IsHandled(row: Record, spec: ColumnSpec, converted: Record, messages: seq<string>) {
    var raw := if spec.name in row then row[spec.name] else Null;
    && spec.name in converted
    && if IsBlank(raw) then
         && converted[spec.name] == Null
         && About(messages, spec.name) == if spec.nullable then [] else [spec.name + ": missing value"]
       else
         match spec.convert(raw)
         case Converted(cell) => converted[spec.name] == cell && About(messages, spec.name) == []
         case Rejected(reason) =>
           converted[spec.name] == Null && About(messages, spec.name) == [spec.name + ": " + reason]
         case Crash => false
  }

  /** The converter of some column raises an exception of another kind on a cell that is not blank. */
  predicate CrashesAt(row: Record, spec: ColumnSpec) {
    var raw := if spec.name in row then row[spec.name] else Null;
    !IsBlank(raw) && spec.convert(raw).Crash?
  }

  lemma CrashIffCrashesAt(row: Record, spec: ColumnSpec)
    ensures Coerce(spec, Get(row, spec.name)).Crash? <==> CrashesAt(row, spec)
  {
    MissingIffBlank(Get(row, spec.name));
  }

  lemma MessagePrefix(column: string, reason: string)
    ensures column + ":" <= column + ": " + reason
  {
    assert column + ": " + reason == (column + ":") + (" " + reason);
  }

  /** Columns with other names leave no message about this one. */
  lemma {:induction false} OthersSayNothing(row: Record, specs: seq<ColumnSpec>, n: nat, column: string)
    requires DistinctNames(specs) && n <= |specs| && ':' !in column
    requires forall i | 0 <= i < n :: specs[i].name != column
    ensures About(ColumnErrors(row, specs[..n]), column) == []
  {
    if n > 0 {
      OthersSayNothing(row, specs, n - 1, column);
      NextColumn(row, specs, n - 1);
      hide ColumnErrors, Coerce;
      var before := ColumnErrors(row, specs[..n - 1]);
      var conversion := Coerce(specs[n - 1], Get(row, specs[n - 1].name));
      if conversion.Rejected? {
        var message := specs[n - 1].name + ": " + conversion.reason;
        AboutOneMore(before, message, column);
        MessageMentions(specs[n - 1].name, conversion.reason, column);
        assert [message][0] == message;
      } else {
        assert before + [] == before;
      }
    }
  }

  /** What is said about column i is its own message. */
  lemma {:induction false} AboutColumn(row: Record, specs: seq<ColumnSpec>, n: nat, i: nat)
    requires DistinctNames(specs) && i < n <= |specs|
    ensures var conversion := Coerce(specs[i], Get(row, specs[i].name));
            About(ColumnErrors(row, specs[..n]), specs[i].name)
            == if conversion.Rejected? then [specs[i].name + ": " + conversion.reason] else []
  {
    NextColumn(row, specs, n - 1);
    hide ColumnErrors, Coerce;
    var column := specs[i].name;
    var before := ColumnErrors(row, specs[..n - 1]);
    var conversion := Coerce(specs[n - 1], Get(row, specs[n - 1].name));
    if i < n - 1 {
      AboutColumn(row, specs, n - 1, i);
    } else {
      OthersSayNothing(row, specs, n - 1, column);
    }
    if conversion.Rejected? {
      var message := specs[n - 1].name + ": " + conversion.reason;
      AboutOneMore(before, message, column);
      if i < n - 1 {
        MessageMentions(specs[n - 1].name, conversion.reason, column);
        assert [message][0] == message;
      } else {
        MessagePrefix(column, conversion.reason);
      }
    } else {
      assert before + [] == before;
    }
  }

  lemma {:induction false} ConvertedCell(row: Record, specs: seq<ColumnSpec>, n: nat, i: nat)
    requires DistinctNames(specs) && i < n <= |specs|
    ensures var converted := CoerceRow(row, specs[..n]);
            && specs[i].name in converted
            && converted[specs[i].name] == CellOf(Coerce(specs[i], Get(row, specs[i].name)))
  {
    NextColumn(row, specs, n - 1);
    hide CoerceRow, ColumnErrors, Coerce;
    if i < n - 1 {
      assert specs[i].name != specs[n - 1].name;
      ConvertedCell(row, specs, n - 1, i);
    }
  }

  lemma OneCellIsHandled(row: Record, spec: ColumnSpec, converted: Record, messages: seq<string>)
    requires var conversion := Coerce(spec, Get(row, spec.name));
             && !conversion.Crash? && spec.name in converted && converted[spec.name] == CellOf(conversion)
             && About(messages, spec.name)
                == if conversion.Rejected? then [spec.name + ": " + conversion.reason] else []
    ensures IsHandled(row, spec, converted, messages)
  {
    MissingIffBlank(Get(row, spec.name));
    hide About, IsBlank, IsMissing;
    assert spec.name + ": " + "missing value" == spec.name + ": missing value";
  }

  /** Coercion of a row, cell by cell. */
  lemma CellsAreHandled(row: Record, specs: seq<ColumnSpec>, i: nat)
    requires DistinctNames(specs) && i < |specs| && !Coerce(specs[i], Get(row, specs[i].name)).Crash?
    ensures IsHandled(row, specs[i], CoerceRow(row, specs), ColumnErrors(row, specs))
  {
    assert specs[..|specs|] == specs;
    hide About, ColumnErrors, CoerceRow, Coerce, IsHandled;
    AboutColumn(row, specs, |specs|, i);
    ConvertedCell(row, specs, |specs|, i);
    OneCellIsHandled(row, specs[i], CoerceRow(row, specs), ColumnErrors(row, specs));
  }

  // --- coerce_frame, column by column --------------------------------------------------------------

  /** One column: convert its cells, reporting those that fail against their rows. */
  method CoerceColumn(rows: seq<Record>, specs: seq<ColumnSpec>, k: nat, earlier: RowErrors, partial: seq<Record>)
    returns (crashed: bool, errors: RowErrors, converted: seq<Record>)
    requires k < |specs| && |partial| == |rows| && RecordsErrors(earlier, rows, specs[..k], specs[..k + 1], 0)
    requires forall p: nat | p < |rows| :: partial[p] == CoerceRow(rows[p], specs[..k])
    ensures crashed <==> exists p: nat | p < |rows| :: Coerce(specs[k], Get(rows[p], specs[k].name)).Crash?
    ensures !crashed ==>
              && |converted| == |rows| && RecordsErrors(errors, rows, specs[..k], specs[..k + 1], |rows|)
              && forall p: nat | p < |rows| :: converted[p] == CoerceRow(rows[p], specs[..k + 1])
  {
    hide Coerce, ColumnErrors, CoerceRow, RecordsErrors;
    var spec := specs[k];
    crashed, errors, converted := false, earlier, [];
    for position := 0 to |rows|
      invariant |converted| == position
      invariant forall p: nat | p < position :: converted[p] == CoerceRow(rows[p], specs[..k + 1])
      invariant RecordsErrors(errors, rows, specs[..k], specs[..k + 1], position)
      invariant forall p: nat | p < position :: !Coerce(spec, Get(rows[p], spec.name)).Crash?
    {
      NextColumn(rows[position], specs, k);
      var conversion := Coerce(spec, Get(rows[position], spec.name));
      if conversion.Crash? {
        crashed := true;
        return;
      }
      var messages := if conversion.Rejected? then [spec.name + ": " + conversion.reason] else [];
      NextRow(errors, rows, specs[..k], specs[..k + 1], position, messages);
      errors := AddMessages(errors, position, messages);
      converted := converted + [partial[position][spec.name := CellOf(conversion)]];
    }
  }

  /** Column by column, every cell is converted or reported against its row; None if a converter crashed. */
  method CoerceFrame(rows: seq<Record>, specs: seq<ColumnSpec>) returns (result: Option<Coerced>)
    ensures result.None? <==> exists p, s | 0 <= p < |rows| && 0 <= s < |specs| :: CrashesAt(rows[p], specs[s])
    ensures result.Some? ==>
              && |result.value.rows| == |rows|
              && (forall p: nat | p < |rows| :: result.value.rows[p] == CoerceRow(rows[p], specs))
              && (forall p | p in result.value.errors :: p < |rows| && result.value.errors[p] != [])
              && (forall p: nat | p < |rows| :: ErrorsAt(result.value.errors, p) == ColumnErrors(rows[p], specs))
    ensures result.Some? && DistinctNames(specs) ==>
              forall p, s | 0 <= p < |rows| && 0 <= s < |specs| ::
                IsHandled(rows[p], specs[s], result.value.rows[p], ErrorsAt(result.value.errors, p))
  {
    var errors: RowErrors := map[];
    var converted: seq<Record> := seq(|rows|, _ => map[]);
    for k := 0 to |specs|
      invariant |converted| == |rows|
      invariant forall p: nat | p < |rows| :: converted[p] == CoerceRow(rows[p], specs[..k])
      invariant forall p | p in errors :: p < |rows| && errors[p] != []
      invariant forall p: nat | p < |rows| :: ErrorsAt(errors, p) == ColumnErrors(rows[p], specs[..k])
      invariant forall p, s | 0 <= p < |rows| && 0 <= s < k :: !Coerce(specs[s], Get(rows[p], specs[s].name)).Crash?
    {
      hide Coerce, CoerceRow, ColumnErrors, ErrorsAt, CrashesAt;
      var crashed;
      crashed, errors, converted := CoerceColumn(rows, specs, k, errors, converted);
      if crashed {
        CrashesAreCrashes(rows, specs);
        return None;
      }
    }
    assert specs[..|specs|] == specs;
    CrashesAreCrashes(rows, specs);
    result := Some(Coerced(converted, errors));
    hide Coerce, CoerceRow, ColumnErrors, ErrorsAt, IsHandled, CrashesAt;
    if DistinctNames(specs) {
      forall p, s | 0 <= p < |rows| && 0 <= s < |specs|
        ensures IsHandled(rows[p], specs[s], converted[p], ErrorsAt(errors, p))
      {
        CellsAreHandled(rows[p], specs, s);
      }
    }
  }

  lemma CrashesAreCrashes(rows: seq<Record>, specs: seq<ColumnSpec>)
    ensures forall p, s | 0 <= p < |rows| && 0 <= s < |specs| ::
              CrashesAt(rows[p], specs[s]) <==> Coerce(specs[s], Get(rows[p], specs[s].name)).Crash?
  {
    forall p, s | 0 <= p < |rows| && 0 <= s < |specs|
      ensures CrashesAt(rows[p], specs[s]) <==> Coerce(specs[s], Get(rows[p], specs[s].name)).Crash?
    {
      CrashIffCrashesAt(rows[p], specs[s]);
    }
  }
}
