/** The quality stage as a whole: coercion, rules, gates and fingerprint of a transformed frame. */
module IngestionService {
  import opened Frames
  import opened Errors
  import opened Coercion
  import opened Quality
  import opened Fingerprint

  /** A transformed frame: its column names and its rows. */
  datatype Frame = Frame(columns: seq<string>, rows: seq<Record>)

  /** The parts of a report's configuration that validation depends on. */
  datatype Schema = Schema(specs: seq<ColumnSpec>, quality: QualityConfig, uniqueKey: seq<string>,
                           text: Text, render: Rendering)
  {
    function Columns(): seq<string> { seq(|specs|, i requires 0 <= i < |specs| => specs[i].name) }

    /** Everything reported against one row. */
    function Messages(row: Record): seq<string> {
      AfterRules(ColumnErrors(row, specs), CoerceRow(row, specs), quality.rules, text)
    }

    /** The rows without messages, coerced, in their order. */
    function Clean(rows: seq<Record>): seq<Record> {
      if rows == [] then []
      else
        var last := rows[|rows| - 1];
        Clean(rows[..|rows| - 1]) + if Messages(last) == [] then [CoerceRow(last, specs)] else []
    }

    /** The rows with messages, as they came, with the messages in an extra column. */
    function Dirty(rows: seq<Record>): seq<Record> {
      if rows == [] then []
      else
        var last := rows[|rows| - 1];
        Dirty(rows[..|rows| - 1]) + if Messages(last) != [] then [WithErrors(last, Messages(last))] else []
    }

    predicate CrashesOn(rows: seq<Record>) {
      exists p, s | 0 <= p < |rows| && 0 <= s < |specs| :: Coerce(specs[s], Get(rows[p], specs[s].name)).Crash?
    }

    /** The column can hold this cell after coercion. */
    ghost predicate CanHold(column: string, cell: Cell) {
      exists i, raw | 0 <= i < |specs| && specs[i].name == column :: Coerce(specs[i], raw) == Converted(cell)
    }

    /** Different cells that one column can hold have different texts. */
    ghost predicate RendersApart() {
      forall column, a, b | CanHold(column, a) && CanHold(column, b) && render(column, a) == render(column, b) ::
        a == b
    }

    predicate LacksColumns(frame: Frame) {
      exists i | 0 <= i < |specs| :: specs[i].name !in frame.columns
    }

    /** Whether the dataset of this frame may be loaded. */
    ghost predicate Accepts(frame: Frame) {
      && !LacksColumns(frame)
      && !CrashesOn(frame.rows)
      && Gate(|Dirty(frame.rows)|, |frame.rows|, quality).None?
      && UniqueKeys(Clean(frame.rows), uniqueKey)
    }
  }

  function Join(messages: seq<string>): string {
    if messages == [] then ""
    else if |messages| == 1 then messages[0]
    else messages[0] + "; " + Join(messages[1..])
  }

  /** The messages one after the other, with "; " in between. */
  lemma {:induction false} JoinOneMore(messages: seq<string>, last: string)
    ensures Join([]) == "" && Join([last]) == last
    ensures messages != [] ==> Join(messages + [last]) == Join(messages) + "; " + last
  {
    if messages != [] {
      var all := messages + [last];
      assert all[0] == messages[0] && all[1..] == messages[1..] + [last];
      JoinOneMore(messages[1..], last);
      if |messages| > 1 {
        assert Join(all) == messages[0] + "; " + (Join(messages[1..]) + "; " + last);
      }
    }
  }

  function WithErrors(row: Record, messages: seq<string>): Record {
    row["_errors" := Cell.Text(Join(messages))]
  }

  datatype PreparedDataset = PreparedDataset(frame: seq<Record>, rejected: seq<Record>, fingerprint: string)

  lemma {:induction false} CleanAndDirtyPartition(schema: Schema, rows: seq<Record>)
    ensures |schema.Clean(rows)| + |schema.Dirty(rows)| == |rows|
  {
    if rows != [] {
      CleanAndDirtyPartition(schema, rows[..|rows| - 1]);
    }
  }

  /** Errors by position agree with what is reported against each row. */
  ghost predicate Reported(errors: RowErrors, rows: seq<Record>, schema: Schema) {
    && (forall p | p in errors :: p < |rows| && errors[p] != [])
    && (forall p: nat | p < |rows| :: ErrorsAt(errors, p) == schema.Messages(rows[p]))
  }

  lemma ReportedAt(errors: RowErrors, rows: seq<Record>, schema: Schema, p: nat)
    requires Reported(errors, rows, schema) && p < |rows|
    ensures p in errors <==> schema.Messages(rows[p]) != []
    ensures p in errors ==> errors[p] == schema.Messages(rows[p])
  {
    assert ErrorsAt(errors, p) == schema.Messages(rows[p]);
  }

  lemma {:induction false} KeptRowsAreClean(errors: RowErrors, rows: seq<Record>, coerced: seq<Record>,
        schema: Schema, n: nat)
    requires Reported(errors, rows, schema) && |coerced| == |rows| && n <= |rows|
    requires forall p: nat | p < |rows| :: coerced[p] == CoerceRow(rows[p], schema.specs)
    ensures forall i | 0 <= i < |KeptPositions(errors, n)| :: KeptPositions(errors, n)[i] < |rows|
    ensures Pick(coerced, KeptPositions(errors, n)) == schema.Clean(rows[..n])
  {
    hide AfterRules, ColumnErrors, CoerceRow, Reported;
    PositionsInOrder(errors, n, false);
    if n > 0 {
      KeptRowsAreClean(errors, rows, coerced, schema, n - 1);
      ReportedAt(errors, rows, schema, n - 1);
      assert rows[..n][..n - 1] == rows[..n - 1];
    }
  }

  /** The given rows with their messages, by position. */
  function RowsWithErrors(rows: seq<Record>, errors: RowErrors, positions: seq<nat>): seq<Record>
    requires forall i | 0 <= i < |positions| :: positions[i] < |rows| && positions[i] in errors
  {
    seq(|positions|, i requires 0 <= i < |positions| => WithErrors(rows[positions[i]], errors[positions[i]]))
  }

  lemma {:induction false} RejectedRowsAreDirty(errors: RowErrors, rows: seq<Record>, schema: Schema, n: nat)
    requires Reported(errors, rows, schema) && n <= |rows|
    ensures forall i | 0 <= i < |RejectedPositions(errors, n)| ::
              RejectedPositions(errors, n)[i] < |rows| && RejectedPositions(errors, n)[i] in errors
    ensures RowsWithErrors(rows, errors, RejectedPositions(errors, n)) == schema.Dirty(rows[..n])
  {
    hide AfterRules, ColumnErrors, CoerceRow, Reported, WithErrors;
    PositionsInOrder(errors, n, true);
    forall i | 0 <= i < |RejectedPositions(errors, n)|
      ensures RejectedPositions(errors, n)[i] < |rows| && RejectedPositions(errors, n)[i] in errors
    {
      assert RejectedPositions(errors, n)[i] in RejectedPositions(errors, n);
    }
    if n > 0 {
      RejectedRowsAreDirty(errors, rows, schema, n - 1);
      ReportedAt(errors, rows, schema, n - 1);
      assert rows[..n][..n - 1] == rows[..n - 1];
    }
  }

  lemma {:induction false} CoercedRowColumns(row: Record, specs: seq<ColumnSpec>)
    ensures forall c :: c in CoerceRow(row, specs) <==> exists i | 0 <= i < |specs| :: specs[i].name == c
  {
    if specs != [] {
      var last := |specs| - 1;
      CoercedRowColumns(row, specs[..last]);
      assert forall i | 0 <= i < last :: specs[..last][i] == specs[i];
    }
  }

  /** Loaded rows have the destination's columns, no more and no fewer. */
  lemma {:induction false} CleanRowsHaveColumns(schema: Schema, rows: seq<Record>)
    ensures forall r | r in schema.Clean(rows) :: HasColumns(r, schema.Columns())
  {
    if rows != [] {
      var last := rows[|rows| - 1];
      CleanRowsHaveColumns(schema, rows[..|rows| - 1]);
      CoercedRowColumns(last, schema.specs);
      var names := schema.Columns();
      forall c ensures c in CoerceRow(last, schema.specs) <==> c in names {
        if i :| 0 <= i < |schema.specs| && schema.specs[i].name == c { assert names[i] == c; }
      }
    }
  }

  /** Where every cell converts, each cell of the coerced row is one its column can hold. */
  lemma {:induction false} CoercedCellsAreHeld(row: Record, schema: Schema, n: nat)
    requires n <= |schema.specs|
    requires forall i | 0 <= i < n :: Coerce(schema.specs[i], Get(row, schema.specs[i].name)).Converted?
    ensures forall c | c in CoerceRow(row, schema.specs[..n]) :: schema.CanHold(c, CoerceRow(row, schema.specs[..n])[c])
  {
    if n > 0 {
      var spec := schema.specs[n - 1];
      CoercedCellsAreHeld(row, schema, n - 1);
      NextColumn(row, schema.specs, n - 1);
      hide CoerceRow, Coerce;
      var conversion := Coerce(spec, Get(row, spec.name));
      assert conversion == Converted(CellOf(conversion));
      assert schema.CanHold(spec.name, CellOf(conversion));
    }
  }

  lemma {:induction false} CleanCellsAreHeld(schema: Schema, rows: seq<Record>)
    requires !schema.CrashesOn(rows)
    ensures forall r, c | r in schema.Clean(rows) && c in r :: schema.CanHold(c, r[c])
  {
    if rows != [] {
      var last := rows[|rows| - 1];
      assert forall p | 0 <= p < |rows| - 1 :: rows[..|rows| - 1][p] == rows[p];
      CleanCellsAreHeld(schema, rows[..|rows| - 1]);
      if schema.Messages(last) == [] {
        CleanIffRulesHold(ColumnErrors(last, schema.specs), CoerceRow(last, schema.specs), schema.quality.rules,
                          schema.text);
        CoercedIffNoErrors(last, schema.specs);
        hide AfterRules, ColumnErrors, CoerceRow, Coerce;
        forall i | 0 <= i < |schema.specs|
          ensures Coerce(schema.specs[i], Get(last, schema.specs[i].name)).Converted?
        {
          assert !Coerce(schema.specs[i], Get(rows[|rows| - 1], schema.specs[i].name)).Crash?;
        }
        CoercedCellsAreHeld(last, schema, |schema.specs|);
        assert schema.specs[..|schema.specs|] == schema.specs;
      }
    }
  }

  /** The dataset is the clean rows, the rejected frame the dirty ones, and validation fails exactly when
      a destination column is missing, a converter crashes, a gate refuses, or clean rows share a natural key. */
  method Validate(source: Frame, schema: Schema) returns (result: Result<PreparedDataset>)
    requires schema.specs != []
    ensures result.Success? <==> schema.Accepts(source)
    ensures result.Success? ==>
              && result.value.frame == schema.Clean(source.rows) && result.value.rejected == schema.Dirty(source.rows)
              && result.value.fingerprint == CanonicalBytes(schema.Clean(source.rows), schema.Columns(), schema.render)
    ensures result.Failure? ==>
              result.error == if schema.LacksColumns(source) then DomainError(Stage.Transform, false)
                              else if schema.CrashesOn(source.rows) then UnexpectedError(false)
                              else DomainError(Stage.Quality, false)
  {
    hide AfterRules, ColumnErrors, CoerceRow, Coerce;
    var rows := source.rows;
    if schema.LacksColumns(source) {
      return Failure(DomainError(Stage.Transform, false));
    }
    var coerced := CoerceFrame(rows, schema.specs);
    CrashesAreCrashes(rows, schema.specs);
    if coerced.None? {
      return Failure(UnexpectedError(false));
    }
    assert !schema.CrashesOn(rows);
    ghost var errors;
    var outcome;
    outcome, errors := Evaluate(coerced.value.rows, coerced.value.errors, schema.quality, schema.uniqueKey,
        schema.text);
    assert Reported(errors, rows, schema);
    assert rows[..|rows|] == rows;
    KeptRowsAreClean(errors, rows, coerced.value.rows, schema, |rows|);
    RejectedRowsAreDirty(errors, rows, schema, |rows|);
    UniqueIffNoTwoAgree(schema.Clean(rows), schema.uniqueKey);
    match outcome
    case Refused(_, _) =>
      result := Failure(DomainError(Stage.Quality, false));
    case Accepted(valid, rejected, rowErrors) =>
      result := Success(PreparedDataset(valid, RowsWithErrors(rows, rowErrors, rejected),
                                        CanonicalBytes(valid, schema.Columns(), schema.render)));
  }
}
