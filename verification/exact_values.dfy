/** Compute expressions over exact numbers: what the interpreter returns is the mathematical value. */
module ExactValues {
  import opened Frames
  import opened Coercion
  import opened Compute

  // --- the arithmetic of exact numbers -----------------------------------------------------------

  function Power(base: real, n: nat): (power: real)
    ensures base != 0.0 ==> power != 0.0
  {
    if n == 0 then 1.0 else base * Power(base, n - 1)
  }

  /** Toward zero. */
  function Truncated(x: real): int {
    if x >= 0.0 then x.Floor else -(-x).Floor
  }

  /** The whole number next to x on the way to zero. */
  lemma TruncatedIsTowardZero(x: real, n: int)
    ensures Truncated(x) == n <==>
            if x >= 0.0 then n as real <= x < n as real + 1.0 else n as real - 1.0 < x <= n as real
  {
    assert x.Floor as real <= x < x.Floor as real + 1.0;
    assert (-x).Floor as real <= -x < (-x).Floor as real + 1.0;
  }

  /** Powers with a whole exponent; 0 to the 0 is undefined, and all other powers are left to `root`. */
  function Raised(base: real, exponent: real, root: (real, real) -> Option<real>): Option<real> {
    var n := exponent.Floor;
    if exponent != n as real then root(base, exponent)
    else if base != 0.0 || n > 0 then
      Some(if n >= 0 then Power(base, n) else 1.0 / Power(base, -n))
    else if n == 0 then None
    else root(base, exponent)
  }

  /** Whole powers are repeated products, negative ones their inverses. */
  lemma WholePowers(base: real, n: nat, root: (real, real) -> Option<real>)
    requires base != 0.0
    ensures Power(base, 0) == 1.0 && Power(base, n + 1) == base * Power(base, n)
    ensures Raised(base, n as real, root) == Some(Power(base, n))
    ensures var inverse := Raised(base, -(n as real), root);
            inverse.Some? && inverse.value * Power(base, n) == 1.0
  {
    var minus := 0 - n;
    assert (n as real).Floor == n && (minus as real).Floor == minus && minus as real == -(n as real);
    var power := Power(base, n);
    assert 1.0 / power * power == 1.0;
  }

  /** A bool counts as 0 or 1. */
  function NumberOf(value: Value): real {
    match value
    case Num(number) => number
    case Truth(truth) => if truth then 1.0 else 0.0
    case Missing => 0.0
  }

  function Calculated(op: BinaryOp, left: real, right: real, root: (real, real) -> Option<real>): Computed {
    match op
    case Add => Computed(Num(left + right))
    case Sub => Computed(Num(left - right))
    case Mult => Computed(Num(left * right))
    case Div => if right == 0.0 then DecimalError else Computed(Num(left / right))
    case Mod =>
      if right == 0.0 then DecimalError else Computed(Num(left - right * Truncated(left / right) as real))
    case Pow =>
      var power := Raised(left, right, root);
      if power.Some? then Computed(Num(power.value)) else DecimalError
    case OtherBinary(_) => TypeError
  }

  function Compared(op: CompareOp, left: real, right: real): Option<bool> {
    match op
    case Lt => Some(left < right)
    case LtE => Some(left <= right)
    case Gt => Some(left > right)
    case GtE => Some(left >= right)
    case Eq => Some(left == right)
    case NotEq => Some(left != right)
    case OtherCompare(_) => None
  }

  /** Decimal arithmetic without rounding; how texts are read and what irrational powers are stays open. */
  function Exact(parse: string -> Option<real>, root: (real, real) -> Option<real>): Arithmetic {
    Arithmetic((op, l, r) => Calculated(op, NumberOf(l), NumberOf(r), root),
               (op, l, r) => Compared(op, NumberOf(l), NumberOf(r)),
               v => Some(Num(0.0 - NumberOf(v))), v => Some(Num(NumberOf(v))), v => NumberOf(v) != 0.0, parse)
  }

  // --- the mathematical value of an expression ---------------------------------------------------

  /** A number, a truth value, or nothing. */
  datatype Meaning = Unknown | Real(number: real) | Logical(truth: bool) {
    function AsNumber(): real
      requires !Unknown?
    {
      if Real? then number else if truth then 1.0 else 0.0
    }

    predicate AsTruth()
      requires !Unknown?
    {
      if Real? then number != 0.0 else truth
    }
  }

  /** What a cell says: nothing if it is blank, 0 or 1 for a flag, else its number. */
  predicate Says(cell: Cell, meaning: Meaning, parse: string -> Option<real>) {
    if IsBlank(cell) then meaning == Unknown
    else
      match cell
      case Boolean(flag) => meaning == Real(if flag then 1.0 else 0.0)
      case Number(value) => meaning == Real(value)
      case Text(text) => parse(text).Some? && meaning == Real(parse(text).value)
      case Null => false
  }

  type Reading = map<string, Meaning>

  /** The reading gives every named column of the row what its cell says. */
  ghost predicate Reads(row: Row, reading: Reading, names: set<string>, parse: string -> Option<real>) {
    forall c | c in names :: c in row && c in reading && Says(row[c], reading[c], parse)
  }

  function Applied(op: BinaryOp, x: real, y: real, root: (real, real) -> Option<real>): Meaning {
    match op
    case Add => Real(x + y)
    case Sub => Real(x - y)
    case Mult => Real(x * y)
    case Div => if y == 0.0 then Unknown else Real(x / y)
    case Mod => if y == 0.0 then Unknown else Real(x - y * Truncated(x / y) as real)
    case _ =>
      match Raised(x, y, root)
      case Some(power) => Real(power)
      case None => Unknown
  }

  predicate Holds(op: CompareOp, x: real, y: real) {
    match op
    case Lt => x < y
    case LtE => x <= y
    case Gt => y < x
    case GtE => y <= x
    case Eq => x == y
    case _ => x != y
  }

  /** The value of an accepted expression, where the columns mean what the reading says. An unknown operand makes
      the value unknown; a comparison chain is false from its first false link on. */
  function MeaningOf(e: Expr, reading: Reading, root: (real, real) -> Option<real>): Meaning
    requires Accepted(e) && forall c | c in Names(e) :: c in reading
    decreases e
  {
    match e
    case Constant(literal) => Real(literal.value)
    case Name(id) => reading[id]
    case Unary(op, operand) =>
      var x := MeaningOf(operand, reading, root);
      if x.Unknown? then Unknown
      else if op == Not then Logical(!x.AsTruth())
      else if op == USub then Real(-x.AsNumber())
      else Real(x.AsNumber())
    case Binary(op, left, right) =>
      var x, y := MeaningOf(left, reading, root), MeaningOf(right, reading, root);
      if x.Unknown? || y.Unknown? then Unknown else Applied(op, x.AsNumber(), y.AsNumber(), root)
    case Compare(first, links) => ChainMeaning(MeaningOf(first, reading, root), links, reading, root)
    case Bool(And, operands) => Conjunction(operands, reading, root)
    case Bool(Or, operands) => Disjunction(operands, reading, root)
    case _ => Unknown
  }

  function ChainMeaning(x: Meaning, links: Links, reading: Reading, root: (real, real) -> Option<real>): Meaning
    requires LinksAccepted(links) && forall c | c in LinkNames(links) :: c in reading
    decreases links
  {
    if links.End? then Logical(true)
    else
      var y := MeaningOf(links.comparator, reading, root);
      if x.Unknown? || y.Unknown? then Unknown
      else if Holds(links.op, x.AsNumber(), y.AsNumber()) then ChainMeaning(y, links.rest, reading, root)
      else Logical(false)
  }

  function Conjunction(es: Exprs, reading: Reading, root: (real, real) -> Option<real>): (all: Meaning)
    requires AllAccepted(es) && forall c | c in AllNames(es) :: c in reading
    ensures all.Unknown? || all.Logical?
    decreases es
  {
    if es.NoExpr? then Logical(true)
    else
      var x, rest := MeaningOf(es.head, reading, root), Conjunction(es.tail, reading, root);
      if x.Unknown? || rest.Unknown? then Unknown else Logical(x.AsTruth() && rest.truth)
  }

  function Disjunction(es: Exprs, reading: Reading, root: (real, real) -> Option<real>): (some: Meaning)
    requires AllAccepted(es) && forall c | c in AllNames(es) :: c in reading
    ensures some.Unknown? || some.Logical?
    decreases es
  {
    if es.NoExpr? then Logical(false)
    else
      var x, rest := MeaningOf(es.head, reading, root), Disjunction(es.tail, reading, root);
      if x.Unknown? || rest.Unknown? then Unknown else Logical(x.AsTruth() || rest.truth)
  }

  // --- the interpreter computes it ---------------------------------------------------------------

  function ValueOf(meaning: Meaning): Value {
    match meaning
    case Unknown => Missing
    case Real(number) => Num(number)
    case Logical(truth) => Truth(truth)
  }

  lemma NameReads(row: Row, reading: Reading, id: string, parse: string -> Option<real>,
                  root: (real, real) -> Option<real>)
    requires id in row && id in reading && Says(row[id], reading[id], parse)
    ensures NumberIn(row[id], id, Exact(parse, root)) == Ok(ValueOf(reading[id]))
  {
    MissingIffBlank(row[id]);
  }

  lemma SignedMeans(op: UnaryOp, x: Meaning, parse: string -> Option<real>, root: (real, real) -> Option<real>)
    requires !x.Unknown? && op != Invert
    ensures Signed(op, ValueOf(x), Exact(parse, root)) == Ok(ValueOf(
              if op == Not then Logical(!x.AsTruth()) else if op == USub then Real(-x.AsNumber())
              else Real(x.AsNumber())))
  {
  }

  lemma CalculatedMeans(op: BinaryOp, a: real, b: real, root: (real, real) -> Option<real>)
    requires !op.OtherBinary?
    ensures var meaning := Applied(op, a, b, root);
            && !meaning.Logical?
            && Calculated(op, a, b, root) == if meaning.Unknown? then DecimalError else Computed(ValueOf(meaning))
  {
    hide Raised, Truncated;
    match op
    case Pow => var power := Raised(a, b, root);
    case _ =>
  }

  lemma CombinedMeans(op: BinaryOp, x: Meaning, y: Meaning, parse: string -> Option<real>,
                      root: (real, real) -> Option<real>)
    requires !op.OtherBinary?
    ensures Combined(op, ValueOf(x), ValueOf(y), Exact(parse, root)) == Ok(ValueOf(
              if x.Unknown? || y.Unknown? then Unknown else Applied(op, x.AsNumber(), y.AsNumber(), root)))
  {
    if !x.Unknown? && !y.Unknown? {
      CalculatedMeans(op, x.AsNumber(), y.AsNumber(), root);
      hide Calculated, Applied;
      assert NumberOf(ValueOf(x)) == x.AsNumber() && NumberOf(ValueOf(y)) == y.AsNumber();
      assert Exact(parse, root).binary(op, ValueOf(x), ValueOf(y)) == Calculated(op, x.AsNumber(), y.AsNumber(), root);
    }
  }

  lemma ComparedMeans(op: CompareOp, x: Meaning, y: Meaning, parse: string -> Option<real>,
                      root: (real, real) -> Option<real>)
    requires !op.OtherCompare? && !x.Unknown? && !y.Unknown?
    ensures Exact(parse, root).compare(op, ValueOf(x), ValueOf(y)) == Some(Holds(op, x.AsNumber(), y.AsNumber()))
  {
  }

  /** Every accepted expression evaluates to its mathematical value, null where that is unknown, and never fails,
      on rows whose named cells can be read as numbers or are blank. */
  lemma {:induction false} EvaluatesToMeaning(e: Expr, row: Row, reading: Reading, parse: string -> Option<real>,
        root: (real, real) -> Option<real>)
    requires Accepted(e) && Reads(row, reading, Names(e), parse)
    ensures Interpret(e, row, Exact(parse, root)) == Ok(ValueOf(MeaningOf(e, reading, root)))
    decreases e
  {
    hide Exact, Says, Joined, Signed, Combined, NumberIn, Applied, Chained, ChainMeaning, Each;
    match e
    case Constant(_) =>
    case Name(id) => NameReads(row, reading, id, parse, root);
    case Unary(op, operand) =>
      EvaluatesToMeaning(operand, row, reading, parse, root);
      var x := MeaningOf(operand, reading, root);
      if !x.Unknown? { SignedMeans(op, x, parse, root); }
    case Binary(op, left, right) =>
      EvaluatesToMeaning(left, row, reading, parse, root);
      EvaluatesToMeaning(right, row, reading, parse, root);
      CombinedMeans(op, MeaningOf(left, reading, root), MeaningOf(right, reading, root), parse, root);
    case Compare(first, links) =>
      EvaluatesToMeaning(first, row, reading, parse, root);
      ChainsEvaluate(MeaningOf(first, reading, root), links, row, reading, parse, root);
    case Bool(op, operands) => OperandsEvaluate(op, operands, row, reading, parse, root);
  }

  lemma {:induction false} ChainsEvaluate(x: Meaning, links: Links, row: Row, reading: Reading,
        parse: string -> Option<real>, root: (real, real) -> Option<real>)
    requires LinksAccepted(links) && Reads(row, reading, LinkNames(links), parse)
    ensures Chained(ValueOf(x), links, row, Exact(parse, root)) == Ok(ValueOf(ChainMeaning(x, links, reading, root)))
    decreases links
  {
    hide Exact, Says, Interpret, MeaningOf, Holds;
    if links.Link? {
      var y := MeaningOf(links.comparator, reading, root);
      EvaluatesToMeaning(links.comparator, row, reading, parse, root);
      ChainsEvaluate(y, links.rest, row, reading, parse, root);
      if !x.Unknown? && !y.Unknown? { ComparedMeans(links.op, x, y, parse, root); }
    }
  }

  lemma JoinedOneMore(op: BoolOp, head: Value, rest: seq<Value>, arithmetic: Arithmetic)
    ensures Joined(op, [], arithmetic) == Ok(Truth(op == And))
    ensures var later := Joined(op, rest, arithmetic);
            && later.Ok? && (later.value.Missing? || later.value.Truth?)
            && Joined(op, [head] + rest, arithmetic) ==
               if head.Missing? || later.value.Missing? then Ok(Missing)
               else if op == And then Ok(Truth(arithmetic.truthy(head) && later.value.truth))
               else Ok(Truth(arithmetic.truthy(head) || later.value.truth))
  {
    var all := [head] + rest;
    assert all[0] == head && forall i | 0 <= i < |rest| :: all[i + 1] == rest[i];
    assert forall i | 1 <= i < |all| :: all[i] == rest[i - 1];
  }

  lemma {:induction false} OperandsEvaluate(op: BoolOp, es: Exprs, row: Row, reading: Reading,
        parse: string -> Option<real>, root: (real, real) -> Option<real>)
    requires AllAccepted(es) && Reads(row, reading, AllNames(es), parse)
    ensures var each := Each(es, row, Exact(parse, root));
            && each.Evaluated?
            && Joined(op, each.values, Exact(parse, root))
               == Ok(ValueOf(if op == And then Conjunction(es, reading, root) else Disjunction(es, reading, root)))
    decreases es
  {
    JoinedOneMore(op, Missing, [], Exact(parse, root));
    if es.MoreExprs? {
      EvaluatesToMeaning(es.head, row, reading, parse, root);
      OperandsEvaluate(op, es.tail, row, reading, parse, root);
      var head := ValueOf(MeaningOf(es.head, reading, root));
      JoinedOneMore(op, head, Each(es.tail, row, Exact(parse, root)).values, Exact(parse, root));
    }
  }

  // --- when it fails -----------------------------------------------------------------------------

  /** The columns an expression names, in the order in which they are read. */
  function NamesInOrder(e: Expr): seq<string> {
    match e
    case Name(id) => [id]
    case Unary(_, operand) => NamesInOrder(operand)
    case Binary(_, left, right) => NamesInOrder(left) + NamesInOrder(right)
    case Compare(first, links) => NamesInOrder(first) + LinkNamesInOrder(links)
    case Bool(_, operands) => AllNamesInOrder(operands)
    case _ => []
  }

  function LinkNamesInOrder(links: Links): seq<string> {
    if links.End? then [] else NamesInOrder(links.comparator) + LinkNamesInOrder(links.rest)
  }

  function AllNamesInOrder(es: Exprs): seq<string> {
    if es.NoExpr? then [] else NamesInOrder(es.head) + AllNamesInOrder(es.tail)
  }

  /** What is wrong with a named column: the row lacks it, or it holds a text that is no number. */
  function Trouble(row: Row, column: string, parse: string -> Option<real>): Option<Failure> {
    if column !in row then Some(UnknownColumn(column))
    else if !IsBlank(row[column]) && row[column].Text? && parse(row[column].text).None? then Some(NotANumber(column))
    else None
  }

  function FirstTrouble(row: Row, columns: seq<string>, parse: string -> Option<real>): Option<Failure> {
    if columns == [] then None
    else if Trouble(row, columns[0], parse).Some? then Trouble(row, columns[0], parse)
    else FirstTrouble(row, columns[1..], parse)
  }

  lemma {:induction false} TroubleInParts(row: Row, a: seq<string>, b: seq<string>, parse: string -> Option<real>)
    ensures FirstTrouble(row, a + b, parse)
         == if FirstTrouble(row, a, parse).Some? then FirstTrouble(row, a, parse) else FirstTrouble(row, b, parse)
  {
    if a == [] {
      assert a + b == b;
    } else {
      assert (a + b)[1..] == a[1..] + b;
      TroubleInParts(row, a[1..], b, parse);
    }
  }

  lemma NameFailsIffTrouble(row: Row, id: string, parse: string -> Option<real>, root: (real, real) -> Option<real>)
    ensures var answer := Interpret(Name(id), row, Exact(parse, root));
            match Trouble(row, id, parse)
            case Some(failure) => answer == Failed(failure)
            case None => answer.Ok?
  {
    if id in row { MissingIffBlank(row[id]); }
  }

  /** An operation on values that are there does not fail. */
  lemma OperationsSucceed(parse: string -> Option<real>, root: (real, real) -> Option<real>)
    ensures forall op, v: Value | op != Invert :: Signed(op, v, Exact(parse, root)).Ok?
    ensures forall op: BinaryOp, l, r | !op.OtherBinary? :: Combined(op, l, r, Exact(parse, root)).Ok?
    ensures forall op: CompareOp, l, r | !op.OtherCompare? :: Exact(parse, root).compare(op, l, r).Some?
    ensures forall op: BoolOp, values :: Joined(op, values, Exact(parse, root)).Ok?
  {
  }

  /** Without chains an expression fails exactly when it names a column the row lacks or one that holds no number,
      and the first of them is reported. */
  lemma {:induction false} FailsOnFirstTrouble(e: Expr, row: Row, parse: string -> Option<real>,
        root: (real, real) -> Option<real>)
    requires Accepted(e) && NoChain(e)
    ensures var answer := Interpret(e, row, Exact(parse, root));
            match FirstTrouble(row, NamesInOrder(e), parse)
            case Some(failure) => answer == Failed(failure)
            case None => answer.Ok?
    decreases e
  {
    OperationsSucceed(parse, root);
    hide Exact, Signed, Combined, NumberIn, Joined, Trouble;
    match e
    case Constant(_) =>
    case Name(id) =>
      NameFailsIffTrouble(row, id, parse, root);
      assert [id][1..] == [];
    case Unary(_, operand) => FailsOnFirstTrouble(operand, row, parse, root);
    case Binary(_, left, right) =>
      FailsOnFirstTrouble(left, row, parse, root);
      FailsOnFirstTrouble(right, row, parse, root);
      TroubleInParts(row, NamesInOrder(left), NamesInOrder(right), parse);
    case Compare(first, links) =>
      FailsOnFirstTrouble(first, row, parse, root);
      FailsOnFirstTrouble(links.comparator, row, parse, root);
      assert LinkNamesInOrder(links.rest) == [];
      assert LinkNamesInOrder(links) == NamesInOrder(links.comparator);
      assert NamesInOrder(e) == NamesInOrder(first) + NamesInOrder(links.comparator);
      TroubleInParts(row, NamesInOrder(first), NamesInOrder(links.comparator), parse);
      OneComparison(first, links, row, Exact(parse, root));
    case Bool(_, operands) => OperandsFailOnFirstTrouble(operands, row, parse, root);
  }

  lemma OneComparison(first: Expr, links: Links, row: Row, arithmetic: Arithmetic)
    requires links.Link? && links.rest.End? && !links.op.OtherCompare?
    requires forall l, r :: arithmetic.compare(links.op, l, r).Some?
    ensures var answer, l, r := Interpret(Compare(first, links), row, arithmetic), Interpret(first, row, arithmetic),
                                Interpret(links.comparator, row, arithmetic);
            if l.Failed? then answer == l else if r.Failed? then answer == r else answer.Ok?
  {
    var l := Interpret(first, row, arithmetic);
    if l.Ok? {
      assert Interpret(Compare(first, links), row, arithmetic) == Chained(l.value, links, row, arithmetic);
      var r := Interpret(links.comparator, row, arithmetic);
      assert r.Ok? ==> Chained(r.value, links.rest, row, arithmetic) == Ok(Truth(true));
    }
  }

  lemma {:induction false} OperandsFailOnFirstTrouble(es: Exprs, row: Row, parse: string -> Option<real>,
        root: (real, real) -> Option<real>)
    requires AllAccepted(es) && NoChains(es)
    ensures var each := Each(es, row, Exact(parse, root));
            match FirstTrouble(row, AllNamesInOrder(es), parse)
            case Some(failure) => each == Stopped(failure)
            case None => each.Evaluated?
    decreases es
  {
    hide Exact, Trouble, Interpret;
    if es.MoreExprs? {
      FailsOnFirstTrouble(es.head, row, parse, root);
      OperandsFailOnFirstTrouble(es.tail, row, parse, root);
      TroubleInParts(row, NamesInOrder(es.head), AllNamesInOrder(es.tail), parse);
    }
  }
}
