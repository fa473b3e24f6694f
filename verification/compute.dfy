/** Expressions of the compute transform: the syntax whitelist and the row interpreter. */
module Compute {
  import opened Frames
  import opened Coercion

  // --- parsed expressions, including what the parser later refuses -------------------------------

  datatype BinaryOp = Add | Sub | Mult | Div | Mod | Pow | OtherBinary(name: string)
  datatype CompareOp = Lt | LtE | Gt | GtE | Eq | NotEq | OtherCompare(name: string)
  datatype UnaryOp = USub | UAdd | Not | Invert
  datatype BoolOp = And | Or
  datatype Literal = Numeric(value: real) | Flag(flag: bool) | OtherLiteral(text: string)

  datatype Expr =
    | Constant(literal: Literal)
    | Name(id: string)
    | Unary(unary: UnaryOp, operand: Expr)
    | Binary(binary: BinaryOp, left: Expr, right: Expr)
    | Compare(first: Expr, links: Links)
    | Bool(joint: BoolOp, operands: Exprs)
    | OtherSyntax(kind: string, children: Exprs)

  datatype Exprs = NoExpr | MoreExprs(head: Expr, tail: Exprs)
  /** The rest of a comparison: op, comparator, op, comparator, ... */
  datatype Links = End | Link(op: CompareOp, comparator: Expr, rest: Links)

  /** parse_expression: every node is whitelisted and every constant is a number. (Python's parser never
      builds a comparison without an operator.) */
  predicate Accepted(e: Expr) {
    match e
    case Constant(literal) => literal.Numeric?
    case Name(_) => true
    case Unary(op, operand) => op != Invert && Accepted(operand)
    case Binary(op, left, right) => !op.OtherBinary? && Accepted(left) && Accepted(right)
    case Compare(first, links) => links.Link? && Accepted(first) && LinksAccepted(links)
    case Bool(_, values) => AllAccepted(values)
    case OtherSyntax(_, _) => false
  }

  predicate AllAccepted(es: Exprs) {
    es.NoExpr? || (Accepted(es.head) && AllAccepted(es.tail))
  }

  predicate LinksAccepted(links: Links) {
    links.End? || (!links.op.OtherCompare? && Accepted(links.comparator) && LinksAccepted(links.rest))
  }

  /** ast.walk: the expression and all its sub-expressions. */
  ghost predicate IsPartOf(part: Expr, e: Expr)
    decreases e
  {
    || part == e
    || match e
       case Unary(_, operand) => IsPartOf(part, operand)
       case Binary(_, left, right) => IsPartOf(part, left) || IsPartOf(part, right)
       case Compare(first, links) => IsPartOf(part, first) || IsPartOfLinks(part, links)
       case Bool(_, operands) => IsPartOfSome(part, operands)
       case OtherSyntax(_, children) => IsPartOfSome(part, children)
       case _ => false
  }

  ghost predicate IsPartOfSome(part: Expr, es: Exprs)
    decreases es
  {
    es.MoreExprs? && (IsPartOf(part, es.head) || IsPartOfSome(part, es.tail))
  }

  ghost predicate IsPartOfLinks(part: Expr, links: Links)
    decreases links
  {
    links.Link? && (IsPartOf(part, links.comparator) || IsPartOfLinks(part, links.rest))
  }

  /** One of the allowed kinds of syntax, with allowed operators, and numbers as the only constants. */
  predicate IsAllowed(part: Expr) {
    match part
    case Constant(literal) => literal.Numeric?
    case Name(_) => true
    case Unary(op, _) => op == USub || op == UAdd || op == Not
    case Binary(op, _, _) => op in {Add, Sub, Mult, Div, Mod, Pow}
    case Compare(_, links) => links.Link? && HasAllowedOps(links)
    case Bool(_, _) => true
    case OtherSyntax(_, _) => false
  }

  predicate HasAllowedOps(links: Links) {
    links.End? || (links.op in {Lt, LtE, Gt, GtE, Eq, NotEq} && HasAllowedOps(links.rest))
  }

  ghost predicate AllAllowed(e: Expr) {
    forall part | IsPartOf(part, e) :: IsAllowed(part)
  }

  ghost predicate AllOfThemAllowed(es: Exprs) {
    forall part | IsPartOfSome(part, es) :: IsAllowed(part)
  }

  ghost predicate AllOfLinksAllowed(links: Links) {
    forall part | IsPartOfLinks(part, links) :: IsAllowed(part)
  }

  /** All parts are allowed exactly when the expression is and so are all parts of its operands. */
  lemma AllowedByOperands(e: Expr)
    ensures AllAllowed(e) <==>
            && IsAllowed(e)
            && match e
               case Unary(_, operand) => AllAllowed(operand)
               case Binary(_, left, right) => AllAllowed(left) && AllAllowed(right)
               case Compare(first, links) => AllAllowed(first) && AllOfLinksAllowed(links)
               case Bool(_, operands) => AllOfThemAllowed(operands)
               case OtherSyntax(_, children) => AllOfThemAllowed(children)
               case _ => true
  {
    hide IsAllowed;
    assert IsPartOf(e, e);
    match e
    case Unary(_, operand) =>
      assert forall part | IsPartOf(part, operand) :: IsPartOf(part, e);
    case Binary(_, left, right) =>
      assert forall part | IsPartOf(part, left) || IsPartOf(part, right) :: IsPartOf(part, e);
    case Compare(first, links) =>
      assert forall part | IsPartOf(part, first) || IsPartOfLinks(part, links) :: IsPartOf(part, e);
    case Bool(_, operands) =>
      assert forall part | IsPartOfSome(part, operands) :: IsPartOf(part, e);
    case OtherSyntax(_, children) =>
      assert forall part | IsPartOfSome(part, children) :: IsPartOf(part, e);
    case _ =>
  }

  /** Exactly the expressions all of whose parts are allowed are accepted. */
  lemma {:induction false} AcceptedIffAllPartsAllowed(e: Expr)
    ensures Accepted(e) <==> AllAllowed(e)
    decreases e
  {
    AllowedByOperands(e);
    hide AllAllowed, AllOfThemAllowed, AllOfLinksAllowed;
    match e
    case Unary(_, operand) => AcceptedIffAllPartsAllowed(operand);
    case Binary(_, left, right) =>
      AcceptedIffAllPartsAllowed(left);
      AcceptedIffAllPartsAllowed(right);
    case Compare(first, links) =>
      AcceptedIffAllPartsAllowed(first);
      LinksAcceptedIff(links);
    case Bool(_, operands) => AllAcceptedIff(operands);
    case _ =>
  }

  lemma {:induction false} AllAcceptedIff(es: Exprs)
    ensures AllAccepted(es) <==> AllOfThemAllowed(es)
    decreases es
  {
    if es.MoreExprs? {
      AcceptedIffAllPartsAllowed(es.head);
      AllAcceptedIff(es.tail);
      hide IsAllowed;
      assert forall part :: IsPartOfSome(part, es) <==> IsPartOf(part, es.head) || IsPartOfSome(part, es.tail);
    }
  }

  lemma {:induction false} LinksAcceptedIff(links: Links)
    ensures LinksAccepted(links) <==> HasAllowedOps(links) && AllOfLinksAllowed(links)
    decreases links
  {
    if links.Link? {
      AcceptedIffAllPartsAllowed(links.comparator);
      LinksAcceptedIff(links.rest);
      hide IsAllowed;
      assert forall part ::
          IsPartOfLinks(part, links) <==> IsPartOf(part, links.comparator) || IsPartOfLinks(part, links.rest);
    }
  }

  // --- the interpreter ---------------------------------------------------------------------------

  /** None, a Decimal or a bool. */
  datatype Value = Missing | Num(number: real) | Truth(truth: bool)

  datatype Failure = UnsupportedSyntax | UnknownOperator | UnknownColumn(column: string) | NotANumber(column: string)
                   | BadOperand

  datatype Answer = Ok(value: Value) | Failed(failure: Failure)

  /** Python's Decimal arithmetic on operands that are not None: a value, a decimal error (such as division
      by zero) or a TypeError. */
  datatype Computed = Computed(value: Value) | DecimalError | TypeError

  datatype Arithmetic = Arithmetic(
    binary: (BinaryOp, Value, Value) -> Computed, compare: (CompareOp, Value, Value) -> Option<bool>,
    negate: Value -> Option<Value>, plus: Value -> Option<Value>, truthy: Value -> bool,
    parse: string -> Option<real>)

  type Row = Record

  function NumberIn(cell: Cell, column: string, arithmetic: Arithmetic): Answer {
    if IsMissing(cell) then Ok(Missing)
    else match cell
      case Boolean(flag) => Ok(Num(if flag then 1.0 else 0.0))
      case Number(value) => Ok(Num(value))
      case Text(text) =>
        var parsed := arithmetic.parse(text);
        if parsed.Some? then Ok(Num(parsed.value)) else Failed(NotANumber(column))
      case Null => Ok(Missing)
  }

  function Signed(op: UnaryOp, operand: Value, arithmetic: Arithmetic): Answer {
    if op == Not then Ok(Truth(!arithmetic.truthy(operand)))
    else
      var signed := if op == USub then arithmetic.negate(operand) else arithmetic.plus(operand);
      if signed.Some? then Ok(signed.value) else Failed(BadOperand)
  }

  function Combined(op: BinaryOp, left: Value, right: Value, arithmetic: Arithmetic): Answer {
    if left.Missing? || right.Missing? then Ok(Missing)
    else if op.OtherBinary? then Failed(UnknownOperator)
    else match arithmetic.binary(op, left, right)
      case Computed(value) => Ok(value)
      case DecimalError => Ok(Missing)
      case TypeError => Failed(BadOperand)
  }

  function Interpret(e: Expr, row: Row, arithmetic: Arithmetic): Answer
    decreases e
  {
    match e
    case Constant(literal) => if literal.Numeric? then Ok(Num(literal.value)) else Failed(BadOperand)
    case Name(id) => if id in row then NumberIn(row[id], id, arithmetic) else Failed(UnknownColumn(id))
    case Unary(op, operand) =>
      var answer := Interpret(operand, row, arithmetic);
      if answer.Failed? || answer.value.Missing? then answer else Signed(op, answer.value, arithmetic)
    case Binary(op, left, right) =>
      var l := Interpret(left, row, arithmetic);
      if l.Failed? then l
      else
        var r := Interpret(right, row, arithmetic);
        if r.Failed? then r else Combined(op, l.value, r.value, arithmetic)
    case Compare(first, links) =>
      var left := Interpret(first, row, arithmetic);
      if left.Failed? then left else Chained(left.value, links, row, arithmetic)
    case Bool(op, values) =>
      var each := Each(values, row, arithmetic);
      if each.Stopped? then Failed(each.failure) else Joined(op, each.values, arithmetic)
    case OtherSyntax(_, _) => Failed(UnsupportedSyntax)
  }

  datatype Operands = Evaluated(values: seq<Value>) | Stopped(failure: Failure)

  /** All operands in order; unlike Python's own and/or there is no short circuit. */
  function Each(es: Exprs, row: Row, arithmetic: Arithmetic): Operands
    decreases es
  {
    if es.NoExpr? then Evaluated([])
    else
      var head := Interpret(es.head, row, arithmetic);
      if head.Failed? then Stopped(head.failure)
      else
        var tail := Each(es.tail, row, arithmetic);
        if tail.Stopped? then tail else Evaluated([head.value] + tail.values)
  }

  function Joined(op: BoolOp, values: seq<Value>, arithmetic: Arithmetic): Answer {
    if exists i | 0 <= i < |values| :: values[i].Missing? then Ok(Missing)
    else if op == And then Ok(Truth(forall i | 0 <= i < |values| :: arithmetic.truthy(values[i])))
    else Ok(Truth(exists i | 0 <= i < |values| :: arithmetic.truthy(values[i])))
  }

  /** The comparisons from `left` on; the loop ends at the first null operand or false comparison. */
  function Chained(left: Value, links: Links, row: Row, arithmetic: Arithmetic): Answer
    decreases links
  {
    if links.End? then Ok(Truth(true))
    else
      var right := Interpret(links.comparator, row, arithmetic);
      if right.Failed? then right
      else if left.Missing? || right.value.Missing? then Ok(Missing)
      else if links.op.OtherCompare? then Failed(UnknownOperator)
      else
        var holds := arithmetic.compare(links.op, left, right.value);
        if holds.None? then Failed(BadOperand)
        else if !holds.value then Ok(Truth(false))
        else Chained(right.value, links.rest, row, arithmetic)
  }

  /** The interpreter as it runs: recursive, with a loop over chained comparisons and one over operands. */
  method Evaluate(e: Expr, row: Row, arithmetic: Arithmetic) returns (answer: Answer)
    ensures answer == Interpret(e, row, arithmetic)
    decreases e
  {
    match e
    case Constant(literal) =>
      answer := if literal.Numeric? then Ok(Num(literal.value)) else Failed(BadOperand);
    case Name(id) =>
      answer := if id in row then NumberIn(row[id], id, arithmetic) else Failed(UnknownColumn(id));
    case Unary(op, operand) =>
      answer := Evaluate(operand, row, arithmetic);
      if answer.Ok? && !answer.value.Missing? {
        answer := Signed(op, answer.value, arithmetic);
      }
    case Binary(op, left, right) =>
      answer := Evaluate(left, row, arithmetic);
      if answer.Failed? { return; }
      var l := answer.value;
      answer := Evaluate(right, row, arithmetic);
      if answer.Failed? { return; }
      answer := Combined(op, l, answer.value, arithmetic);
    case Compare(first, links) =>
      answer := Evaluate(first, row, arithmetic);
      if answer.Failed? { return; }
      var left, rest := answer.value, links;
      ghost var whole := Chained(left, links, row, arithmetic);
      while rest.Link?
        invariant rest == links || rest < links
        invariant Chained(left, rest, row, arithmetic) == whole
        decreases rest
      {
        answer := Evaluate(rest.comparator, row, arithmetic);
        if answer.Failed? { return; }
        var right := answer.value;
        if left.Missing? || right.Missing? { return Ok(Missing); }
        if rest.op.OtherCompare? { return Failed(UnknownOperator); }
        var holds := arithmetic.compare(rest.op, left, right);
        if holds.None? { return Failed(BadOperand); }
        if !holds.value { return Ok(Truth(false)); }
        left, rest := right, rest.rest;
      }
      answer := Ok(Truth(true));
    case Bool(op, operands) =>
      var values, rest := [], operands;
      while rest.MoreExprs?
        invariant rest == operands || rest < operands
        invariant var later := Each(rest, row, arithmetic);
                  Each(operands, row, arithmetic) == if later.Stopped? then later else Evaluated(values + later.values)
        decreases rest
      {
        answer := Evaluate(rest.head, row, arithmetic);
        if answer.Failed? { return; }
        assert forall vs: seq<Value> :: values + ([answer.value] + vs) == values + [answer.value] + vs;
        values, rest := values + [answer.value], rest.tail;
      }
      assert values + [] == values;
      answer := Joined(op, values, arithmetic);
    case OtherSyntax(_, _) =>
      answer := Failed(UnsupportedSyntax);
  }

  // --- accepted expressions are supported --------------------------------------------------------

  /** What may still go wrong with an accepted expression: its data. */
  predicate IsDataFailure(failure: Failure, row: Row) {
    match failure
    case UnsupportedSyntax => false
    case UnknownOperator => false
    case UnknownColumn(column) => column !in row
    case NotANumber(column) => column in row && !IsMissing(row[column]) && row[column].Text?
    case BadOperand => true
  }

  /** The interpreter handles every tree the parser accepts: it never meets unsupported syntax. */
  lemma {:induction false} AcceptedIsSupported(e: Expr, row: Row, arithmetic: Arithmetic)
    requires Accepted(e)
    ensures var answer := Interpret(e, row, arithmetic); answer.Failed? ==> IsDataFailure(answer.failure, row)
    decreases e
  {
    match e
    case Unary(_, operand) => AcceptedIsSupported(operand, row, arithmetic);
    case Binary(_, left, right) =>
      AcceptedIsSupported(left, row, arithmetic);
      AcceptedIsSupported(right, row, arithmetic);
    case Compare(first, links) =>
      AcceptedIsSupported(first, row, arithmetic);
      var left := Interpret(first, row, arithmetic);
      if left.Ok? { ChainIsSupported(left.value, links, row, arithmetic); }
    case Bool(_, operands) => EachIsSupported(operands, row, arithmetic);
    case _ =>
  }

  lemma {:induction false} EachIsSupported(es: Exprs, row: Row, arithmetic: Arithmetic)
    requires AllAccepted(es)
    ensures var each := Each(es, row, arithmetic); each.Stopped? ==> IsDataFailure(each.failure, row)
    decreases es
  {
    if es.MoreExprs? {
      AcceptedIsSupported(es.head, row, arithmetic);
      EachIsSupported(es.tail, row, arithmetic);
    }
  }

  lemma {:induction false} ChainIsSupported(left: Value, links: Links, row: Row, arithmetic: Arithmetic)
    requires LinksAccepted(links)
    ensures var answer := Chained(left, links, row, arithmetic); answer.Failed? ==> IsDataFailure(answer.failure, row)
    decreases links
  {
    if links.Link? {
      AcceptedIsSupported(links.comparator, row, arithmetic);
      var right := Interpret(links.comparator, row, arithmetic);
      if right.Ok? { ChainIsSupported(right.value, links.rest, row, arithmetic); }
    }
  }

  // --- nulls -------------------------------------------------------------------------------------

  /** `filled` is `row` with some missing cells replaced. */
  ghost predicate Fills(row: Row, filled: Row) {
    forall c | c in row :: c in filled && (!IsMissing(row[c]) ==> filled[c] == row[c])
  }

  /** Filling in nulls never changes a result that was not null, for any arithmetic. */
  lemma {:induction false} FillingNullsKeepsResults(e: Expr, row: Row, filled: Row, arithmetic: Arithmetic)
    requires Accepted(e) && Fills(row, filled)
    requires Interpret(e, row, arithmetic).Ok? && !Interpret(e, row, arithmetic).value.Missing?
    ensures Interpret(e, filled, arithmetic) == Interpret(e, row, arithmetic)
    decreases e
  {
    match e
    case Unary(_, operand) => FillingNullsKeepsResults(operand, row, filled, arithmetic);
    case Binary(_, left, right) =>
      FillingNullsKeepsResults(left, row, filled, arithmetic);
      FillingNullsKeepsResults(right, row, filled, arithmetic);
    case Compare(first, links) =>
      FillingNullsKeepsResults(first, row, filled, arithmetic);
      FillingNullsKeepsChains(Interpret(first, row, arithmetic).value, links, row, filled, arithmetic);
    case Bool(_, operands) => FillingNullsKeepsEach(operands, row, filled, arithmetic);
    case _ =>
  }

  lemma {:induction false} FillingNullsKeepsEach(es: Exprs, row: Row, filled: Row, arithmetic: Arithmetic)
    requires AllAccepted(es) && Fills(row, filled) && Each(es, row, arithmetic).Evaluated?
    requires forall i | 0 <= i < |Each(es, row, arithmetic).values| :: !Each(es, row, arithmetic).values[i].Missing?
    ensures Each(es, filled, arithmetic) == Each(es, row, arithmetic)
    decreases es
  {
    if es.MoreExprs? {
      var values := Each(es, row, arithmetic).values;
      assert values[0] == Interpret(es.head, row, arithmetic).value;
      assert values[1..] == Each(es.tail, row, arithmetic).values;
      FillingNullsKeepsResults(es.head, row, filled, arithmetic);
      FillingNullsKeepsEach(es.tail, row, filled, arithmetic);
    }
  }

  lemma {:induction false} FillingNullsKeepsChains(left: Value, links: Links, row: Row, filled: Row,
        arithmetic: Arithmetic)
    requires LinksAccepted(links) && Fills(row, filled)
    requires Chained(left, links, row, arithmetic).Ok? && !Chained(left, links, row, arithmetic).value.Missing?
    ensures Chained(left, links, filled, arithmetic) == Chained(left, links, row, arithmetic)
    decreases links
  {
    if links.Link? {
      FillingNullsKeepsResults(links.comparator, row, filled, arithmetic);
      var right := Interpret(links.comparator, row, arithmetic).value;
      if arithmetic.compare(links.op, left, right) == Some(true) {
        FillingNullsKeepsChains(right, links.rest, row, filled, arithmetic);
      }
    }
  }

  /** The columns an expression names. */
  function Names(e: Expr): set<string> {
    match e
    case Name(id) => {id}
    case Unary(_, operand) => Names(operand)
    case Binary(_, left, right) => Names(left) + Names(right)
    case Compare(first, links) => Names(first) + LinkNames(links)
    case Bool(_, operands) => AllNames(operands)
    case OtherSyntax(_, children) => AllNames(children)
    case _ => {}
  }

  function AllNames(es: Exprs): set<string> {
    if es.NoExpr? then {} else Names(es.head) + AllNames(es.tail)
  }

  function LinkNames(links: Links): set<string> {
    if links.End? then {} else Names(links.comparator) + LinkNames(links.rest)
  }

  /** The columns evaluated on every path: of a comparison only the first two operands are. */
  function Forces(e: Expr): set<string> {
    match e
    case Name(id) => {id}
    case Unary(_, operand) => Forces(operand)
    case Binary(_, left, right) => Forces(left) + Forces(right)
    case Compare(first, links) => Forces(first) + if links.Link? then Forces(links.comparator) else {}
    case Bool(_, operands) => AllForce(operands)
    case _ => {}
  }

  function AllForce(es: Exprs): set<string> {
    if es.NoExpr? then {} else Forces(es.head) + AllForce(es.tail)
  }

  ghost predicate IsNull(row: Row, column: string) {
    column in row && IsMissing(row[column])
  }

  /** A null in the column makes the result null, in every row and under every arithmetic. */
  ghost predicate NullDecides(e: Expr, column: string) {
    forall row: Row, arithmetic: Arithmetic | IsNull(row, column) && Interpret(e, row, arithmetic).Ok? ::
      Interpret(e, row, arithmetic).value.Missing?
  }

  /** A null column makes the result null exactly when every path evaluates it. */
  lemma NullDecidesIffForced(e: Expr, column: string)
    requires Accepted(e)
    ensures NullDecides(e, column) <==> column in Forces(e)
  {
    if column in Forces(e) {
      forall row: Row, arithmetic: Arithmetic | IsNull(row, column) && Interpret(e, row, arithmetic).Ok?
        ensures Interpret(e, row, arithmetic).value.Missing?
      {
        ForcedNullGivesNull(e, column, row, arithmetic);
      }
    } else {
      var row: Row := map c | c in Forces(e) + {column} :: if c == column then Null else Number(0.0);
      UnforcedNullIsIgnored(e, column, row);
      assert IsNull(row, column);
    }
  }

  /** "Any null operand gives null" holds of an expression exactly when every column it names is forced. */
  lemma EveryNullDecidesIff(e: Expr)
    requires Accepted(e)
    ensures (forall column | column in Names(e) :: NullDecides(e, column)) <==> Names(e) <= Forces(e)
  {
    forall column ensures NullDecides(e, column) <==> column in Forces(e) {
      NullDecidesIffForced(e, column);
    }
  }

  lemma {:induction false} ForcedNullGivesNull(e: Expr, column: string, row: Row, arithmetic: Arithmetic)
    requires Accepted(e) && column in Forces(e) && IsNull(row, column) && Interpret(e, row, arithmetic).Ok?
    ensures Interpret(e, row, arithmetic).value.Missing?
    decreases e
  {
    match e
    case Unary(_, operand) => ForcedNullGivesNull(operand, column, row, arithmetic);
    case Binary(_, left, right) =>
      if column in Forces(left) {
        ForcedNullGivesNull(left, column, row, arithmetic);
      } else {
        ForcedNullGivesNull(right, column, row, arithmetic);
      }
    case Compare(first, links) =>
      if column in Forces(first) {
        ForcedNullGivesNull(first, column, row, arithmetic);
      } else {
        ForcedNullGivesNull(links.comparator, column, row, arithmetic);
      }
    case Bool(_, operands) => var i := ForcedNullIsAmong(operands, column, row, arithmetic);
    case _ =>
  }

  lemma {:induction false} ForcedNullIsAmong(es: Exprs, column: string, row: Row, arithmetic: Arithmetic)
    returns (i: nat)
    requires AllAccepted(es) && column in AllForce(es) && IsNull(row, column) && Each(es, row, arithmetic).Evaluated?
    ensures i < |Each(es, row, arithmetic).values| && Each(es, row, arithmetic).values[i].Missing?
    decreases es
  {
    if column in Forces(es.head) {
      ForcedNullGivesNull(es.head, column, row, arithmetic);
      i := 0;
    } else {
      var j := ForcedNullIsAmong(es.tail, column, row, arithmetic);
      i := j + 1;
    }
  }

  /** An arithmetic in which every comparison is false, so that no chain gets past its first link. */
  function NothingCompares(): Arithmetic {
    Arithmetic((op, l, r) => Computed(Num(0.0)), (op, l, r) => Some(false), v => Some(Num(0.0)), v => Some(Num(0.0)),
               v => true, text => None)
  }

  /** A null that some path does not evaluate leaves the result there a value. */
  lemma {:induction false} UnforcedNullIsIgnored(e: Expr, column: string, row: Row)
    requires Accepted(e) && column !in Forces(e)
    requires forall c | c in Forces(e) :: c in row && row[c] == Number(0.0)
    ensures var answer := Interpret(e, row, NothingCompares()); answer.Ok? && !answer.value.Missing?
    decreases e
  {
    match e
    case Unary(_, operand) => UnforcedNullIsIgnored(operand, column, row);
    case Binary(_, left, right) =>
      UnforcedNullIsIgnored(left, column, row);
      UnforcedNullIsIgnored(right, column, row);
    case Compare(first, links) =>
      UnforcedNullIsIgnored(first, column, row);
      UnforcedNullIsIgnored(links.comparator, column, row);
    case Bool(_, operands) => UnforcedNullIsNotAmong(operands, column, row);
    case _ =>
  }

  lemma {:induction false} UnforcedNullIsNotAmong(es: Exprs, column: string, row: Row)
    requires AllAccepted(es) && column !in AllForce(es)
    requires forall c | c in AllForce(es) :: c in row && row[c] == Number(0.0)
    ensures var each := Each(es, row, NothingCompares());
            each.Evaluated? && forall i | 0 <= i < |each.values| :: !each.values[i].Missing?
    decreases es
  {
    if es.MoreExprs? {
      UnforcedNullIsIgnored(es.head, column, row);
      UnforcedNullIsNotAmong(es.tail, column, row);
    }
  }

  predicate NoChain(e: Expr) {
    match e
    case Unary(_, operand) => NoChain(operand)
    case Binary(_, left, right) => NoChain(left) && NoChain(right)
    case Compare(first, links) => NoChain(first) && links.Link? && NoChain(links.comparator) && links.rest.End?
    case Bool(_, operands) => NoChains(operands)
    case _ => true
  }

  predicate NoChains(es: Exprs) {
    es.NoExpr? || (NoChain(es.head) && NoChains(es.tail))
  }

  lemma {:induction false} NoChainForcesAll(e: Expr)
    requires Accepted(e) && NoChain(e)
    ensures Names(e) == Forces(e)
    decreases e
  {
    match e
    case Unary(_, operand) => NoChainForcesAll(operand);
    case Binary(_, left, right) =>
      NoChainForcesAll(left);
      NoChainForcesAll(right);
    case Compare(first, links) =>
      NoChainForcesAll(first);
      NoChainForcesAll(links.comparator);
      assert LinkNames(links.rest) == {};
    case Bool(_, operands) => NoChainsForceAll(operands);
    case _ =>
  }

  lemma {:induction false} NoChainsForceAll(es: Exprs)
    requires AllAccepted(es) && NoChains(es)
    ensures AllNames(es) == AllForce(es)
    decreases es
  {
    if es.MoreExprs? {
      NoChainForcesAll(es.head);
      NoChainsForceAll(es.tail);
    }
  }

  /** Without chained comparisons a null in any column the expression names makes the result null. */
  lemma NullIsContagiousWithoutChains(e: Expr, column: string)
    requires Accepted(e) && NoChain(e) && column in Names(e)
    ensures NullDecides(e, column)
  {
    NoChainForcesAll(e);
    EveryNullDecidesIff(e);
  }

  /** A chain may be false before it reaches a null: 1 < 0 < x is False although x is null. */
  lemma ChainBeforeNull(arithmetic: Arithmetic)
    requires arithmetic.compare(Lt, Num(1.0), Num(0.0)) == Some(false)
    ensures var e := Compare(Constant(Numeric(1.0)), Link(Lt, Constant(Numeric(0.0)), Link(Lt, Name("x"), End)));
            var row := map["x" := Null];
            Accepted(e) && "x" in Names(e) && IsNull(row, "x") && Interpret(e, row, arithmetic) == Ok(Truth(false))
  {
    var rest := Link(Lt, Name("x"), End);
    var links := Link(Lt, Constant(Numeric(0.0)), rest);
    var row := map["x" := Null];
    assert LinksAccepted(rest) && "x" in LinkNames(rest) && "x" in LinkNames(links);
    assert Interpret(Constant(Numeric(0.0)), row, arithmetic) == Ok(Num(0.0));
    assert Chained(Num(1.0), links, row, arithmetic) == Ok(Truth(false));
  }

  // --- chained comparisons -----------------------------------------------------------------------

  /** One comparison between neighbours. */
  function Verdict(left: Answer, op: CompareOp, right: Answer, arithmetic: Arithmetic): Answer {
    if left.Failed? then left
    else if right.Failed? then right
    else if left.value.Missing? || right.value.Missing? then Ok(Missing)
    else if op.OtherCompare? then Failed(UnknownOperator)
    else
      var holds := arithmetic.compare(op, left.value, right.value);
      if holds.None? then Failed(BadOperand) else Ok(Truth(holds.value))
  }

  /** Every comparison of neighbours, each made for itself. */
  function Verdicts(left: Answer, links: Links, row: Row, arithmetic: Arithmetic): seq<Answer>
    decreases links
  {
    if links.End? then []
    else
      var right := Interpret(links.comparator, row, arithmetic);
      [Verdict(left, links.op, right, arithmetic)] + Verdicts(right, links.rest, row, arithmetic)
  }

  /** The first verdict that is not True. */
  ghost predicate IsDecisive(verdicts: seq<Answer>, k: nat) {
    && k < |verdicts| && verdicts[k] != Ok(Truth(true))
    && forall i | 0 <= i < k :: verdicts[i] == Ok(Truth(true))
  }

  lemma LaterVerdicts(left: Value, links: Links, row: Row, arithmetic: Arithmetic)
    requires links.Link? && Verdict(Ok(left), links.op, Interpret(links.comparator, row, arithmetic), arithmetic)
        == Ok(Truth(true))
    ensures var right := Interpret(links.comparator, row, arithmetic);
            && right.Ok?
            && Chained(left, links, row, arithmetic) == Chained(right.value, links.rest, row, arithmetic)
            && Verdicts(Ok(left), links, row, arithmetic)
               == [Ok(Truth(true))] + Verdicts(Ok(right.value), links.rest, row, arithmetic)
  {
  }

  lemma DecisiveLater(verdicts: seq<Answer>, later: seq<Answer>, k: nat)
    requires k > 0 && verdicts == [Ok(Truth(true))] + later && IsDecisive(verdicts, k)
    ensures IsDecisive(later, k - 1) && later[k - 1] == verdicts[k]
  {
    assert forall i | 0 <= i < |later| :: later[i] == verdicts[i + 1];
  }

  /** A chained comparison is decided by its first pair of neighbours that does not compare as true. */
  lemma {:induction false} FirstVerdictDecides(left: Value, links: Links, row: Row, arithmetic: Arithmetic, k: nat)
    requires IsDecisive(Verdicts(Ok(left), links, row, arithmetic), k)
    ensures Chained(left, links, row, arithmetic) == Verdicts(Ok(left), links, row, arithmetic)[k]
    decreases links
  {
    if k > 0 {
      assert Verdicts(Ok(left), links, row, arithmetic)[0] == Ok(Truth(true));
      LaterVerdicts(left, links, row, arithmetic);
      var right := Interpret(links.comparator, row, arithmetic).value;
      hide Chained, Verdicts, Verdict, Interpret, IsDecisive;
      DecisiveLater(Verdicts(Ok(left), links, row, arithmetic), Verdicts(Ok(right), links.rest, row, arithmetic), k);
      FirstVerdictDecides(right, links.rest, row, arithmetic, k - 1);
    }
  }

  /** When no pair does, it is true. */
  lemma {:induction false} AllTrueIsTrue(left: Value, links: Links, row: Row, arithmetic: Arithmetic)
    requires forall i | 0 <= i < |Verdicts(Ok(left), links, row, arithmetic)| ::
               Verdicts(Ok(left), links, row, arithmetic)[i] == Ok(Truth(true))
    ensures Chained(left, links, row, arithmetic) == Ok(Truth(true))
    decreases links
  {
    if links.Link? {
      var verdicts := Verdicts(Ok(left), links, row, arithmetic);
      assert verdicts[0] == Ok(Truth(true));
      LaterVerdicts(left, links, row, arithmetic);
      var right := Interpret(links.comparator, row, arithmetic).value;
      hide Chained, Verdicts, Verdict, Interpret;
      var later := Verdicts(Ok(right), links.rest, row, arithmetic);
      assert forall i | 0 <= i < |later| :: later[i] == verdicts[i + 1];
      AllTrueIsTrue(right, links.rest, row, arithmetic);
    }
  }
}
