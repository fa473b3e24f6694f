/** What validation decides about rows and frames, said in terms of their cells. */
module Verdicts {
  import opened Frames
  import opened Coercion
  import opened Quality
  import opened IngestionService

  /** The cell of the row becomes this one: a blank cell null, where the column allows it, any other one what its
      converter makes of it. */
  ghost predicate Becomes(row: Record, spec: ColumnSpec, cell: Cell) {
    var raw := if spec.name in row then row[spec.name] else Null;
    if IsBlank(raw) then spec.nullable && cell == Null else spec.convert(raw) == Converted(cell)
  }

  /** The row is kept, as `out`: exactly the destination's columns, each with the cell that became of the row's
      own, and every rule holds. */
  ghost predicate KeptAs(schema: Schema, row: Record, out: Record) {
    && (forall c :: c in out <==> exists i | 0 <= i < |schema.specs| :: schema.specs[i].name == c)
    && (forall i | 0 <= i < |schema.specs| :: Becomes(row, schema.specs[i], out[schema.specs[i].name]))
    && (forall rule | rule in schema.quality.rules ::
          Satisfies(rule, if rule.column in out then out[rule.column] else Null, schema.text))
  }

  ghost predicate IsKept(schema: Schema, row: Record) {
    exists out :: KeptAs(schema, row, out)
  }

  ghost predicate Crashes(schema: Schema, row: Record) {
    exists i | 0 <= i < |schema.specs| :: CrashesAt(row, schema.specs[i])
  }

  lemma BecomesIffConverted(row: Record, spec: ColumnSpec, cell: Cell)
    ensures Becomes(row, spec, cell) <==> Coerce(spec, Get(row, spec.name)) == Converted(cell)
  {
    MissingIffBlank(Get(row, spec.name));
  }

  lemma OnlyWayToBeKept(schema: Schema, row: Record, out: Record)
    requires DistinctNames(schema.specs) && KeptAs(schema, row, out)
    ensures out == CoerceRow(row, schema.specs) && ColumnErrors(row, schema.specs) == []
  {
    var specs := schema.specs;
    forall i | 0 <= i < |specs|
      ensures Coerce(specs[i], Get(row, specs[i].name)) == Converted(out[specs[i].name])
    {
      BecomesIffConverted(row, specs[i], out[specs[i].name]);
    }
    CoercedIffNoErrors(row, specs);
    CoercedRowColumns(row, specs);
    assert specs[..|specs|] == specs;
    hide CoerceRow, Coerce, ColumnErrors, Becomes;
    forall c | c in out ensures c in CoerceRow(row, specs) && out[c] == CoerceRow(row, specs)[c] {
      var i :| 0 <= i < |specs| && specs[i].name == c;
      ConvertedCell(row, specs, |specs|, i);
    }
  }

  lemma NoMessagesMeansKept(schema: Schema, row: Record)
    requires DistinctNames(schema.specs) && !Crashes(schema, row) && schema.Messages(row) == []
    ensures KeptAs(schema, row, CoerceRow(row, schema.specs))
  {
    var specs, out := schema.specs, CoerceRow(row, schema.specs);
    CleanIffRulesHold(ColumnErrors(row, specs), out, schema.quality.rules, schema.text);
    CoercedIffNoErrors(row, specs);
    CoercedRowColumns(row, specs);
    assert specs[..|specs|] == specs;
    hide CoerceRow, Coerce, ColumnErrors, AfterRules, Satisfies, Problem, RuleViolation;
    forall i | 0 <= i < |specs| ensures Becomes(row, specs[i], out[specs[i].name]) {
      ConvertedCell(row, specs, |specs|, i);
      CrashIffCrashesAt(row, specs[i]);
      assert !CrashesAt(row, specs[i]);
      BecomesIffConverted(row, specs[i], out[specs[i].name]);
    }
    forall rule | rule in schema.quality.rules ensures Satisfies(rule, Get(out, rule.column), schema.text) {
      NoViolationIffSatisfied(rule, Get(out, rule.column), schema.text);
    }
  }

  /** A row leaves no message exactly when it is kept, and then as its coerced row. */
  lemma NoMessagesIffKept(schema: Schema, row: Record)
    requires DistinctNames(schema.specs) && !Crashes(schema, row)
    ensures schema.Messages(row) == [] <==> IsKept(schema, row)
    ensures IsKept(schema, row) ==> KeptAs(schema, row, CoerceRow(row, schema.specs))
  {
    if schema.Messages(row) == [] {
      NoMessagesMeansKept(schema, row);
    }
    if out :| KeptAs(schema, row, out) {
      OnlyWayToBeKept(schema, row, out);
      forall rule | rule in schema.quality.rules
        ensures RuleViolation(rule, Get(out, rule.column), schema.text).None?
      {
        NoViolationIffSatisfied(rule, Get(out, rule.column), schema.text);
      }
      CleanIffRulesHold([], out, schema.quality.rules, schema.text);
    }
  }

  /** The positions of the kept rows, or of the others. */
  ghost function PositionsOf(schema: Schema, rows: seq<Record>, kept: bool): seq<nat> {
    if rows == [] then []
    else
      var last := |rows| - 1;
      PositionsOf(schema, rows[..last], kept) + if IsKept(schema, rows[last]) == kept then [last] else []
  }

  lemma {:induction false} PositionsAreThose(schema: Schema, rows: seq<Record>, kept: bool)
    ensures Increasing(PositionsOf(schema, rows, kept))
    ensures forall p: nat ::
              p in PositionsOf(schema, rows, kept) <==> p < |rows| && IsKept(schema, rows[p]) == kept
  {
    hide IsKept;
    if rows != [] {
      var last := |rows| - 1;
      PositionsAreThose(schema, rows[..last], kept);
      assert forall p: nat | p < last :: rows[..last][p] == rows[p];
      var before := PositionsOf(schema, rows[..last], kept);
      forall i | 0 <= i < |before| ensures before[i] < last {
        assert before[i] in before;
      }
    }
  }

  ghost predicate NoneCrashes(schema: Schema, rows: seq<Record>) {
    forall p | 0 <= p < |rows| :: !Crashes(schema, rows[p])
  }

  /** The dataset is the kept rows, in their order, each as it is kept. */
  lemma {:induction false} CleanRowsAreTheKept(schema: Schema, rows: seq<Record>)
    requires DistinctNames(schema.specs) && NoneCrashes(schema, rows)
    ensures var positions := PositionsOf(schema, rows, true);
            && |schema.Clean(rows)| == |positions|
            && forall i | 0 <= i < |positions| ::
                 positions[i] < |rows| && KeptAs(schema, rows[positions[i]], schema.Clean(rows)[i])
  {
    hide IsKept, KeptAs, Crashes, Schema.Messages, CoerceRow;
    if rows != [] {
      var last := |rows| - 1;
      assert NoneCrashes(schema, rows[..last]);
      CleanRowsAreTheKept(schema, rows[..last]);
      PositionsAreThose(schema, rows[..last], true);
      NoMessagesIffKept(schema, rows[last]);
      var before := PositionsOf(schema, rows[..last], true);
      forall i | 0 <= i < |before| ensures before[i] < last && rows[..last][before[i]] == rows[before[i]] {
        assert before[i] in before;
      }
    }
  }

  /** The rejected frame is the other rows, in their order, as they came, with their messages joined. */
  lemma {:induction false} DirtyRowsAreTheOthers(schema: Schema, rows: seq<Record>)
    requires DistinctNames(schema.specs) && NoneCrashes(schema, rows)
    ensures var positions := PositionsOf(schema, rows, false);
            && |schema.Dirty(rows)| == |positions|
            && forall i | 0 <= i < |positions| ::
                 && positions[i] < |rows|
                 && schema.Dirty(rows)[i]
                    == rows[positions[i]]["_errors" := Cell.Text(Join(schema.Messages(rows[positions[i]])))]
  {
    hide IsKept, KeptAs, Crashes, Schema.Messages, CoerceRow, Join;
    if rows != [] {
      var last := |rows| - 1;
      assert NoneCrashes(schema, rows[..last]);
      DirtyRowsAreTheOthers(schema, rows[..last]);
      PositionsAreThose(schema, rows[..last], false);
      NoMessagesIffKept(schema, rows[last]);
      var before := PositionsOf(schema, rows[..last], false);
      forall i | 0 <= i < |before| ensures before[i] < last && rows[..last][before[i]] == rows[before[i]] {
        assert before[i] in before;
      }
    }
  }

  /** A frame is accepted exactly when it has every destination column, no converter crashes, the gates are open
      for the number of rows that are not kept, and no two kept rows agree in every key column. */
  lemma AcceptedIff(schema: Schema, frame: Frame)
    requires DistinctNames(schema.specs) && schema.quality.maxInvalidRatio >= 0.0
    ensures var rows, config := frame.rows, schema.quality;
            var others := |PositionsOf(schema, rows, false)|;
            schema.Accepts(frame) <==>
              && (forall i | 0 <= i < |schema.specs| :: schema.specs[i].name in frame.columns)
              && NoneCrashes(schema, rows)
              && (others == 0 || config.policy != FailOnInvalid)
              && others as real <= config.maxInvalidRatio * |rows| as real
              && |rows| >= config.minRows + others
              && NoTwoAgree(schema.Clean(rows), schema.uniqueKey)
  {
    hide Schema.CrashesOn, NoneCrashes, Gate, PositionsOf, Schema.Clean, Schema.Dirty, UniqueKeys, NoTwoAgree;
    hide Schema.Messages;
    CrashesIff(schema, frame.rows);
    if NoneCrashes(schema, frame.rows) {
      DirtyRowsAreTheOthers(schema, frame.rows);
      CleanAndDirtyPartition(schema, frame.rows);
      GateIsOpenIff(|schema.Dirty(frame.rows)|, |frame.rows|, schema.quality);
      UniqueIffNoTwoAgree(schema.Clean(frame.rows), schema.uniqueKey);
    }
  }

  lemma CrashesIff(schema: Schema, rows: seq<Record>)
    ensures schema.CrashesOn(rows) <==> !NoneCrashes(schema, rows)
  {
    CrashesAreCrashes(rows, schema.specs);
    hide CrashesAt, Coerce;
    if schema.CrashesOn(rows) {
      var p, s :| 0 <= p < |rows| && 0 <= s < |schema.specs|
                  && Coerce(schema.specs[s], Get(rows[p], schema.specs[s].name)).Crash?;
      assert CrashesAt(rows[p], schema.specs[s]);
      assert Crashes(schema, rows[p]);
    } else {
      forall p | 0 <= p < |rows| ensures !Crashes(schema, rows[p]) {
        forall s | 0 <= s < |schema.specs| ensures !CrashesAt(rows[p], schema.specs[s]) {}
      }
    }
  }

  /** The converter makes nulls of blank cells only. */
  ghost predicate GivesNoNull(spec: ColumnSpec) {
    forall raw | !IsBlank(raw) :: spec.convert(raw) != Converted(Null)
  }

  /** No null is loaded into a column that is not nullable. */
  lemma RequiredColumnsHoldNoNull(schema: Schema, rows: seq<Record>, r: Record, i: nat)
    requires DistinctNames(schema.specs) && NoneCrashes(schema, rows) && r in schema.Clean(rows)
    requires i < |schema.specs| && !schema.specs[i].nullable && GivesNoNull(schema.specs[i])
    ensures schema.specs[i].name in r && r[schema.specs[i].name] != Null
  {
    CleanRowsAreTheKept(schema, rows);
    var k :| 0 <= k < |schema.Clean(rows)| && schema.Clean(rows)[k] == r;
    var row := rows[PositionsOf(schema, rows, true)[k]];
    assert KeptAs(schema, row, r);
    assert Becomes(row, schema.specs[i], r[schema.specs[i].name]);
  }

  // --- what is reported about a column -----------------------------------------------------------

  /** The first rule of the column that its value violates. */
  function FirstProblem(rules: seq<Rule>, column: string, cell: Cell, text: Quality.Text): Option<string> {
    if rules == [] then None
    else
      var earlier := FirstProblem(rules[..|rules| - 1], column, cell, text);
      var last := rules[|rules| - 1];
      if earlier.Some? || last.column != column || Satisfies(last, cell, text) then earlier
      else Some(Problem(last, cell, text))
  }

  lemma {:induction false} MentionedIffAbout(messages: seq<string>, column: string)
    ensures Mentions(messages, column) <==> About(messages, column) != []
  {
    if messages != [] {
      var last := |messages| - 1;
      MentionedIffAbout(messages[..last], column);
      assert forall i | 0 <= i < last :: messages[..last][i] == messages[i];
    }
  }

  /** What one more rule adds to what is said about a column. */
  lemma AddedAbout(before: seq<string>, record: Record, rule: Rule, column: string, text: Quality.Text)
    requires ':' !in column && ':' !in rule.column
    ensures About(before + RuleMessages(before, record, rule, text), column) ==
            if rule.column != column || About(before, column) != [] || Satisfies(rule, Get(record, column), text)
            then About(before, column)
            else [column + ": " + Problem(rule, Get(record, column), text)]
  {
    MentionedIffAbout(before, rule.column);
    NoViolationIffSatisfied(rule, Get(record, rule.column), text);
    hide RuleViolation, Satisfies, Problem, Mentions, About;
    var added := RuleMessages(before, record, rule, text);
    if added == [] {
      assert before + added == before;
    } else {
      var problem := Problem(rule, Get(record, rule.column), text);
      AboutOneMore(before, rule.column + ": " + problem, column);
      if rule.column == column {
        MessagePrefix(column, problem);
      } else {
        MessageMentions(rule.column, problem, column);
        OneMention(rule.column + ": " + problem, column);
      }
    }
  }

  /** Of each column at most one message is reported: that of its coercion, else that of the first rule its
      value violates. */
  lemma {:induction false} ReportedAboutColumn(messages: seq<string>, record: Record, rules: seq<Rule>, column: string,
        text: Quality.Text)
    requires ':' !in column && forall rule | rule in rules :: ':' !in rule.column
    ensures About(AfterRules(messages, record, rules, text), column) ==
            if About(messages, column) != [] then About(messages, column)
            else
              match FirstProblem(rules, column, Get(record, column), text)
              case None => []
              case Some(problem) => [column + ": " + problem]
  {
    hide RuleViolation, Satisfies, Problem, Mentions, About, RuleMessages;
    if rules != [] {
      var front, last := rules[..|rules| - 1], rules[|rules| - 1];
      ReportedAboutColumn(messages, record, front, column, text);
      AddedAbout(AfterRules(messages, record, front, text), record, last, column, text);
      NoViolationIffSatisfied(last, Get(record, column), text);
    }
  }

  lemma OneMention(message: string, column: string)
    requires !Mentions([message], column)
    ensures !(column + ":" <= message)
  {
    assert [message][0] == message;
  }
}
