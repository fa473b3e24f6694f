/** Quality rules and gates: which coerced rows are kept, and when the whole dataset is refused. */
module Quality {
  import opened Frames
  import opened Coercion

  datatype Rule = Rule(column: string, notNull: bool, min: Option<real>, max: Option<real>,
                       allowed: Option<seq<string>>, pattern: Option<string>)

  /** Python's str(), the ':g' number format and re.fullmatch. */
  datatype Text = Text(str: Cell -> string, number: real -> string, fullmatch: (string, string) -> bool)

  /** What a rule says about a value; bounds on a non-number are reported as not applicable. */
  function RuleViolation(rule: Rule, cell: Cell, text: Text): Option<string> {
    if IsMissing(cell) then (if rule.notNull then Some("required") else None)
    else if (rule.min.Some? || rule.max.Some?) && !cell.Number? then Some("rule not applicable to value")
    else if rule.min.Some? && cell.value < rule.min.value then Some("below minimum " + text.number(rule.min.value))
    else if rule.max.Some? && cell.value > rule.max.value then Some("above maximum " + text.number(rule.max.value))
    else if rule.allowed.Some? && text.str(cell) !in rule.allowed.value then Some("value not allowed")
    else if rule.pattern.Some? && !text.fullmatch(rule.pattern.value,
        text.str(cell)) then Some("does not match pattern")
    else None
  }

  /** The rule holds of a value: a blank one is not required; any other is a number within the bounds, if there
      are any, and its text is one of the allowed ones and matches the pattern. */
  predicate Satisfies(rule: Rule, cell: Cell, text: Text) {
    if IsBlank(cell) then !rule.notNull
    else
      && (rule.min.Some? ==> cell.Number? && rule.min.value <= cell.value)
      && (rule.max.Some? ==> cell.Number? && cell.value <= rule.max.value)
      && (rule.allowed.Some? ==> text.str(cell) in rule.allowed.value)
      && (rule.pattern.Some? ==> text.fullmatch(rule.pattern.value, text.str(cell)))
  }

  /** What is wrong with a value the rule does not hold of: that it is required, its kind, the bound it is beyond,
      and only within bounds the list or the pattern. */
  function Problem(rule: Rule, cell: Cell, text: Text): string {
    if IsBlank(cell) then "required"
    else if !cell.Number? && (rule.min.Some? || rule.max.Some?) then "rule not applicable to value"
    else if rule.min.Some? && !(rule.min.value <= cell.value) then "below minimum " + text.number(rule.min.value)
    else if rule.max.Some? && !(cell.value <= rule.max.value) then "above maximum " + text.number(rule.max.value)
    else if rule.allowed.Some? && text.str(cell) !in rule.allowed.value then "value not allowed"
    else "does not match pattern"
  }

  lemma NoViolationIffSatisfied(rule: Rule, cell: Cell, text: Text)
    ensures RuleViolation(rule, cell, text) == if Satisfies(rule, cell, text) then None
                                               else Some(Problem(rule, cell, text))
  {
    MissingIffBlank(cell);
  }

  // --- the skipping rule loop, row by row --------------------------------------------------------

  /** A rule is skipped when its column already has a message. */
  function RuleMessages(messages: seq<string>, record: Record, rule: Rule, text: Text): seq<string> {
    if Mentions(messages, rule.column) then []
    else
      match RuleViolation(rule, Get(record, rule.column), text)
      case None => []
      case Some(problem) => [rule.column + ": " + problem]
  }

  /** A row's messages after the rules, starting from its coercion errors. */
  function AfterRules(messages: seq<string>, record: Record, rules: seq<Rule>, text: Text): seq<string> {
    if rules == [] then messages
    else
      var before := AfterRules(messages, record, rules[..|rules| - 1], text);
      before + RuleMessages(before, record, rules[|rules| - 1], text)
  }

  /** Skipping never changes the verdict: a row ends without messages exactly when it coerced cleanly and
      every rule holds on its coerced value. */
  lemma {:induction false} CleanIffRulesHold(messages: seq<string>, record: Record, rules: seq<Rule>, text: Text)
    ensures AfterRules(messages, record, rules, text) == [] <==>
            messages == [] && forall rule | rule in rules :: RuleViolation(rule, Get(record, rule.column), text).None?
  {
    if rules != [] {
      var last := |rules| - 1;
      CleanIffRulesHold(messages, record, rules[..last], text);
      assert rules == rules[..last] + [rules[last]];
    }
  }

  predicate DistinctColumns(messages: seq<string>) {
    forall i, j | 0 <= i < j < |messages| :: ColumnOf(messages[i]) != ColumnOf(messages[j])
  }

  /** Every message is "column: ..." for some column name without ':'. */
  predicate ColumnMessages(messages: seq<string>) {
    forall i | 0 <= i < |messages| :: ColumnOf(messages[i]) + ":" <= messages[i]
  }

  lemma NewColumnStaysDistinct(messages: seq<string>, column: string, problem: string)
    requires ':' !in column && !Mentions(messages, column)
    requires DistinctColumns(messages) && ColumnMessages(messages)
    ensures DistinctColumns(messages + [column + ": " + problem])
        && ColumnMessages(messages + [column + ": " + problem])
  {
    var added := column + ": " + problem;
    assert added == (column + ":") + (" " + problem);
    ColumnOfPrefix(column, added);
  }

  /** Each row carries at most one message per column. */
  lemma {:induction false} OneMessagePerColumn(messages: seq<string>, record: Record, rules: seq<Rule>, text: Text)
    requires DistinctColumns(messages) && ColumnMessages(messages)
    requires forall rule | rule in rules :: ':' !in rule.column
    ensures DistinctColumns(AfterRules(messages, record, rules, text))
    ensures ColumnMessages(AfterRules(messages, record, rules, text))
  {
    if rules != [] {
      var last := |rules| - 1;
      OneMessagePerColumn(messages, record, rules[..last], text);
      var before := AfterRules(messages, record, rules[..last], text);
      var added := RuleMessages(before, record, rules[last], text);
      if added == [] {
        assert before + added == before;
      } else {
        var problem := RuleViolation(rules[last], Get(record, rules[last].column), text).value;
        NewColumnStaysDistinct(before, rules[last].column, problem);
      }
    }
  }

  lemma {:induction false} CoercionMentionsItsColumns(row: Record, specs: seq<ColumnSpec>, other: string)
    requires ':' !in other
    requires forall i | 0 <= i < |specs| :: specs[i].name != other && ':' !in specs[i].name
    ensures !Mentions(ColumnErrors(row, specs), other)
  {
    if specs != [] {
      var last := |specs| - 1;
      CoercionMentionsItsColumns(row, specs[..last], other);
      var conversion := Coerce(specs[last], Get(row, specs[last].name));
      if conversion.Rejected? {
        MessageMentions(specs[last].name, conversion.reason, other);
        var added := [specs[last].name + ": " + conversion.reason];
        assert forall i | 0 <= i < 1 :: !(other + ":" <= added[i]);
      }
    }
  }

  lemma {:induction false} CoercionMessagesAreDistinct(row: Record, specs: seq<ColumnSpec>)
    requires DistinctNames(specs)
    ensures DistinctColumns(ColumnErrors(row, specs)) && ColumnMessages(ColumnErrors(row, specs))
  {
    if specs != [] {
      var last := |specs| - 1;
      var before := ColumnErrors(row, specs[..last]);
      CoercionMessagesAreDistinct(row, specs[..last]);
      CoercionMentionsItsColumns(row, specs[..last], specs[last].name);
      var conversion := Coerce(specs[last], Get(row, specs[last].name));
      if conversion.Rejected? {
        NewColumnStaysDistinct(before, specs[last].name, conversion.reason);
      } else {
        assert before + [] == before;
      }
    }
  }

  lemma {:induction false} CoercedIffNoErrors(row: Record, specs: seq<ColumnSpec>)
    ensures ColumnErrors(row, specs) == [] <==>
            forall i | 0 <= i < |specs| :: !Coerce(specs[i], Get(row, specs[i].name)).Rejected?
  {
    if specs != [] {
      var last := |specs| - 1;
      CoercedIffNoErrors(row, specs[..last]);
      assert forall i | 0 <= i < last :: specs[..last][i] == specs[i];
    }
  }

  /** After coercion and rules a row carries no message exactly when every cell was coerced and every rule holds
      on its converted value; otherwise it carries at most one message per column. */
  lemma RowIsKeptIff(row: Record, specs: seq<ColumnSpec>, rules: seq<Rule>, text: Text)
    requires DistinctNames(specs)
    requires forall rule | rule in rules :: ':' !in rule.column
    ensures var messages := AfterRules(ColumnErrors(row, specs), CoerceRow(row, specs), rules, text);
            && DistinctColumns(messages)
            && (messages == [] <==>
                 && (forall i | 0 <= i < |specs| :: !Coerce(specs[i], Get(row, specs[i].name)).Rejected?)
                 && (forall rule | rule in rules :: Satisfies(rule, Get(CoerceRow(row, specs), rule.column), text)))
  {
    forall rule | rule in rules
      ensures RuleViolation(rule, Get(CoerceRow(row, specs), rule.column), text).None?
          <==> Satisfies(rule, Get(CoerceRow(row, specs), rule.column), text)
    {
      NoViolationIffSatisfied(rule, Get(CoerceRow(row, specs), rule.column), text);
    }
    hide RuleViolation, Satisfies, Problem;
    CoercionMessagesAreDistinct(row, specs);
    CoercedIffNoErrors(row, specs);
    OneMessagePerColumn(ColumnErrors(row, specs), CoerceRow(row, specs), rules, text);
    CleanIffRulesHold(ColumnErrors(row, specs), CoerceRow(row, specs), rules, text);
  }

  // --- positions ---------------------------------------------------------------------------------

  /** The positions below `total` that have errors, or those that have none. */
  function Positions(errors: RowErrors, total: nat, rejected: bool): seq<nat> {
    if total == 0 then []
    else Positions(errors, total - 1, rejected) + if (total - 1 in errors) == rejected then [total - 1] else []
  }

  function KeptPositions(errors: RowErrors, total: nat): seq<nat> { Positions(errors, total, false) }

  function RejectedPositions(errors: RowErrors, total: nat): seq<nat> { Positions(errors, total, true) }

  predicate Increasing(positions: seq<nat>) {
    forall i, j | 0 <= i < j < |positions| :: positions[i] < positions[j]
  }

  lemma {:induction false} PositionsInOrder(errors: RowErrors, total: nat, rejected: bool)
    ensures Increasing(Positions(errors, total, rejected))
    ensures forall i | 0 <= i < |Positions(errors, total, rejected)| :: Positions(errors, total, rejected)[i] < total
    ensures forall p: nat :: p in Positions(errors, total, rejected) <==> p < total && (p in errors) == rejected
  {
    if total > 0 {
      PositionsInOrder(errors, total - 1, rejected);
    }
  }

  /** Kept and rejected positions partition the rows, each list in row order. */
  lemma {:induction false} PositionsPartition(errors: RowErrors, total: nat)
    ensures Increasing(KeptPositions(errors, total)) && Increasing(RejectedPositions(errors, total))
    ensures forall p: nat :: p in KeptPositions(errors, total) <==> p < total && p !in errors
    ensures forall p: nat :: p in RejectedPositions(errors, total) <==> p < total && p in errors
    ensures |KeptPositions(errors, total)| + |RejectedPositions(errors, total)| == total
  {
    PositionsInOrder(errors, total, false);
    PositionsInOrder(errors, total, true);
    if total > 0 {
      PositionsPartition(errors, total - 1);
    }
  }

  function Pick(rows: seq<Record>, positions: seq<nat>): seq<Record>
    requires forall i | 0 <= i < |positions| :: positions[i] < |rows|
  {
    seq(|positions|, i requires 0 <= i < |positions| => rows[positions[i]])
  }

  /** The kept rows, in row order. */
  function KeptRows(rows: seq<Record>, errors: RowErrors): (kept: seq<Record>)
    ensures |kept| == |KeptPositions(errors, |rows|)|
  {
    PositionsInOrder(errors, |rows|, false);
    Pick(rows, KeptPositions(errors, |rows|))
  }

  // --- evaluate ----------------------------------------------------------------------------------

  datatype Policy = FailOnInvalid | Drop | Quarantine

  datatype QualityConfig = QualityConfig(minRows: nat, policy: Policy, maxInvalidRatio: real, rules: seq<Rule>)

  datatype Refusal = InvalidRows | TooManyInvalid | TooFewRows | DuplicateKeys

  datatype Outcome =
    | Accepted(valid: seq<Record>, rejected: seq<nat>, errors: RowErrors)
    | Refused(reason: Refusal, errors: RowErrors)

  function InvalidRatio(rejected: nat, total: nat): real {
    if total == 0 then 0.0 else rejected as real / total as real
  }

  /** The dataset-level gates before the key check, in their order. */
  function Gate(rejected: nat, total: nat, config: QualityConfig): Option<Refusal> {
    if rejected > 0 && config.policy == FailOnInvalid then Some(InvalidRows)
    else if InvalidRatio(rejected, total) > config.maxInvalidRatio then Some(TooManyInvalid)
    else if total - rejected < config.minRows then Some(TooFewRows)
    else None
  }

  /** The gates are open exactly when no row is invalid or the policy tolerates it, the invalid rows are at most
      the allowed share of all, and enough valid rows are left. */
  lemma GateIsOpenIff(rejected: nat, total: nat, config: QualityConfig)
    requires rejected <= total && config.maxInvalidRatio >= 0.0
    ensures Gate(rejected, total, config).None? <==>
              && (rejected == 0 || config.policy != FailOnInvalid)
              && rejected as real <= config.maxInvalidRatio * total as real
              && total >= config.minRows + rejected
  {
    if total > 0 {
      var r, n := rejected as real, total as real;
      assert r / n * n == r;
      if r / n <= config.maxInvalidRatio {
        assert (config.maxInvalidRatio - r / n) * n >= 0.0;
      } else {
        assert (r / n - config.maxInvalidRatio) * n > 0.0;
      }
    }
  }

  /** Which gate refuses: the policy before the share, the share before the size. */
  lemma FirstGateRefuses(rejected: nat, total: nat, config: QualityConfig)
    requires rejected <= total && config.maxInvalidRatio >= 0.0 && Gate(rejected, total, config).Some?
    ensures Gate(rejected, total, config).value ==
            if rejected > 0 && config.policy == FailOnInvalid then InvalidRows
            else if rejected as real > config.maxInvalidRatio * total as real then TooManyInvalid
            else TooFewRows
  {
    if total > 0 {
      GateIsOpenIff(rejected, total, config.(policy := Drop, minRows := 0));
    }
  }

  /** Another row agrees with this one in every key column. */
  predicate SharesKey(rows: seq<Record>, uniqueKey: seq<string>, i: nat)
    requires i < |rows|
  {
    exists j | 0 <= j < |rows| :: j != i && AgreeOn(rows[j], rows[i], uniqueKey)
  }

  /** The errors the rules leave, row by row. */
  ghost predicate RulesApplied(errors: RowErrors, rows: seq<Record>, initial: RowErrors, rules: seq<Rule>, text: Text) {
    && (forall p | p in errors :: p < |rows| && errors[p] != [])
    && (forall p: nat | p < |rows| :: ErrorsAt(errors, p) == AfterRules(ErrorsAt(initial, p), rows[p], rules, text))
  }

  method ApplyRule(rows: seq<Record>, initial: RowErrors, earlier: RowErrors, rules: seq<Rule>, k: nat, text: Text)
    returns (errors: RowErrors)
    requires k < |rules| && RulesApplied(earlier, rows, initial, rules[..k], text)
    ensures RulesApplied(errors, rows, initial, rules[..k + 1], text)
  {
    hide AfterRules, RuleMessages;
    errors := earlier;
    for position := 0 to |rows|
      invariant forall p | p in errors :: p < |rows| && errors[p] != []
      invariant forall p: nat | p < position ::
                  ErrorsAt(errors, p) == AfterRules(ErrorsAt(initial, p), rows[p], rules[..k + 1], text)
      invariant forall p: nat | position <= p < |rows| ::
                  ErrorsAt(errors, p) == AfterRules(ErrorsAt(initial, p), rows[p], rules[..k], text)
    {
      NextRule(ErrorsAt(initial, position), rows[position], rules, k, text);
      errors := AddMessages(errors, position, RuleMessages(ErrorsAt(errors, position), rows[position], rules[k], text));
    }
  }

  lemma NextRule(messages: seq<string>, record: Record, rules: seq<Rule>, k: nat, text: Text)
    requires k < |rules|
    ensures var before := AfterRules(messages, record, rules[..k], text);
            AfterRules(messages, record, rules[..k + 1], text) == before + RuleMessages(before, record, rules[k], text)
  {
    assert rules[..k + 1][..k] == rules[..k] && rules[..k + 1][k] == rules[k];
  }

  /** The kept rows if their natural keys are unique; else the original positions of those that share one. */
  method CheckKeys(rows: seq<Record>, errors: RowErrors, uniqueKey: seq<string>) returns (outcome: Outcome)
    ensures if NoTwoAgree(KeptRows(rows, errors), uniqueKey)
            then outcome == Accepted(KeptRows(rows, errors), RejectedPositions(errors, |rows|), errors)
            else
              && outcome.Refused? && outcome.reason == DuplicateKeys
              && (forall p: nat :: p in outcome.errors <==> DuplicatedAt(rows, errors, uniqueKey, p))
  {
    var valid := KeptRows(rows, errors);
    var positions := KeptPositions(errors, |rows|);
    PositionsInOrder(errors, |rows|, false);
    var duplicated := set i: nat | i < |valid| && SharesKey(valid, uniqueKey, i) :: positions[i];
    forall p: nat ensures p in duplicated <==> DuplicatedAt(rows, errors, uniqueKey, p) {
      if DuplicatedAt(rows, errors, uniqueKey, p) {
        var i := DuplicatedIsPicked(rows, errors, uniqueKey, p);
      }
      if i: nat :| i < |valid| && SharesKey(valid, uniqueKey, i) && positions[i] == p {
        PickedIsDuplicated(rows, errors, uniqueKey, i);
      }
    }
    if duplicated == {} {
      forall i, j | 0 <= i < j < |valid| ensures !AgreeOn(valid[i], valid[j], uniqueKey) {
        assert positions[j] !in duplicated;
      }
      outcome := Accepted(valid, RejectedPositions(errors, |rows|), errors);
    } else {
      var p :| p in duplicated;
      outcome := Refused(DuplicateKeys, map p | p in duplicated :: ["duplicate natural key"]);
    }
  }

  lemma DuplicatedIsPicked(rows: seq<Record>, errors: RowErrors, uniqueKey: seq<string>, p: nat) returns (i: nat)
    requires DuplicatedAt(rows, errors, uniqueKey, p)
    ensures i < |KeptRows(rows, errors)| && KeptPositions(errors, |rows|)[i] == p
    ensures SharesKey(KeptRows(rows, errors), uniqueKey, i)
  {
    var valid, positions := KeptRows(rows, errors), KeptPositions(errors, |rows|);
    PositionsInOrder(errors, |rows|, false);
    hide Positions, AgreeOn;
    var q: nat :| q < |rows| && q !in errors && q != p && AgreeOn(rows[q], rows[p], uniqueKey);
    assert p in positions && q in positions;
    i :| 0 <= i < |positions| && positions[i] == p;
    var j :| 0 <= j < |positions| && positions[j] == q;
    assert valid[i] == rows[p] && valid[j] == rows[q];
  }

  lemma PickedIsDuplicated(rows: seq<Record>, errors: RowErrors, uniqueKey: seq<string>, i: nat)
    requires i < |KeptRows(rows, errors)| && SharesKey(KeptRows(rows, errors), uniqueKey, i)
    ensures DuplicatedAt(rows, errors, uniqueKey, KeptPositions(errors, |rows|)[i])
  {
    var valid, positions := KeptRows(rows, errors), KeptPositions(errors, |rows|);
    PositionsInOrder(errors, |rows|, false);
    hide Positions, AgreeOn;
    var j: nat :| j < |valid| && j != i && AgreeOn(valid[j], valid[i], uniqueKey);
    var p, q := positions[i], positions[j];
    assert p in positions && q in positions;
    assert valid[i] == rows[p] && valid[j] == rows[q];
    assert if i < j then p < q else q < p;
  }

  /** Rules, policy gates and natural-key uniqueness over the coerced rows. */
  method Evaluate(rows: seq<Record>, rowErrors: RowErrors, config: QualityConfig, uniqueKey: seq<string>, text: Text)
    returns (outcome: Outcome, ghost errors: RowErrors)
    requires forall p | p in rowErrors :: p < |rows| && rowErrors[p] != []
    ensures RulesApplied(errors, rows, rowErrors, config.rules, text)
    ensures var gate := Gate(|RejectedPositions(errors, |rows|)|, |rows|, config);
            var kept := KeptRows(rows, errors);
            match gate
            case Some(refusal) => outcome == Refused(refusal, errors)
            case None =>
              if NoTwoAgree(kept, uniqueKey) then outcome == Accepted(kept, RejectedPositions(errors, |rows|), errors)
              else
                && outcome.Refused? && outcome.reason == DuplicateKeys
                && (forall p: nat :: p in outcome.errors <==> DuplicatedAt(rows, errors, uniqueKey, p))
  {
    errors := rowErrors;
    var collected := rowErrors;
    for k := 0 to |config.rules|
      invariant RulesApplied(collected, rows, rowErrors, config.rules[..k], text)
    {
      collected := ApplyRule(rows, rowErrors, collected, config.rules, k, text);
    }
    assert config.rules[..|config.rules|] == config.rules;
    errors := collected;
    var rejected := RejectedPositions(collected, |rows|);
    var gate := Gate(|rejected|, |rows|, config);
    if gate.Some? {
      outcome := Refused(gate.value, collected);
    } else {
      outcome := CheckKeys(rows, collected, uniqueKey);
    }
  }

  /** p is a kept row that agrees with another kept row in every key column. */
  ghost predicate DuplicatedAt(rows: seq<Record>, errors: RowErrors, uniqueKey: seq<string>, p: nat) {
    && p < |rows| && p !in errors
    && exists q: nat | q < |rows| :: q !in errors && q != p && AgreeOn(rows[q], rows[p], uniqueKey)
  }
}
