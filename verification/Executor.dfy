/** The executor's own evaluation of WHERE on a decoded record: the reference meaning of a query. */
module Executor {
  import opened Basics
  import opened OqlAst
  import opened JsonGrammar
  import J = JsonPredicates
  import Like = LikeMatching

  /**
   * A value of the executor. JSON numbers are floats and integer literals integers, which print differently;
   * nested objects and arrays are kept as their text.
   */
  datatype GoVal = Nil | Str(s: seq<Byte>) | Int(n: int) | Num(x: real) | Bool(b: bool) | Nested(raw: seq<Byte>)

  /**
   * Library functions that are not part of this model: text encoding, number parsing and printing, the
   * scalar functions and arithmetic on evaluated operands, and the printed form of an expression.
   */
  datatype Formats = Formats(
    encode: string -> seq<Byte>,
    parseFloat: seq<Byte> -> Option<real>,
    showInt: int -> seq<Byte>,
    showNum: real -> seq<Byte>,
    showOther: seq<Byte> -> seq<Byte>,
    rd: J.Readers,
    isScalar: string -> bool,
    scalar: (string, seq<GoVal>) -> GoVal,
    arith: (string, GoVal, GoVal) -> GoVal,
    exprText: Expr -> string)

  const NIL_TEXT: seq<Byte> := [0x3C, 0x6E, 0x69, 0x6C, 0x3E]

  /** fmt's `%v`. */
  function Show(f: Formats, v: GoVal): seq<Byte> {
    match v
    case Nil => NIL_TEXT
    case Str(s) => s
    case Int(n) => f.showInt(n)
    case Num(x) => f.showNum(x)
    case Bool(b) => if b then TRUE_LIT else FALSE_LIT
    case Nested(raw) => f.showOther(raw)
  }

  /** toFloatSafe: strings that parse count as numbers. */
  function Numeric(f: Formats, v: GoVal): Option<real> {
    match v
    case Int(n) => Some(n as real)
    case Num(x) => Some(x)
    case Str(s) => f.parseFloat(s)
    case _ => None
  }

  /** compareValues: nil first, then numbers if both are, then the printed forms. */
  function CompareValues(f: Formats, a: GoVal, b: GoVal): int {
    if a.Nil? && b.Nil? then 0
    else if a.Nil? then -1
    else if b.Nil? then 1
    else if Numeric(f, a).Some? && Numeric(f, b).Some? then J.CompareReal(Numeric(f, a).value, Numeric(f, b).value)
    else J.CompareBytes(Show(f, a), Show(f, b))
  }

  lemma {:induction false} BytesFlip(a: seq<Byte>, b: seq<Byte>)
    ensures J.CompareBytes(a, b) == -J.CompareBytes(b, a)
    decreases |a|
  {
    if a != [] && b != [] {
      BytesFlip(a[1..], b[1..]);
    }
  }

  /** Swapping the operands flips the sign. */
  lemma CompareFlips(f: Formats, a: GoVal, b: GoVal)
    ensures CompareValues(f, a, b) == -CompareValues(f, b, a)
  {
    BytesFlip(Show(f, a), Show(f, b));
  }

  // ----- conditions -----

  /** A record under test, by key. */
  datatype Semantics = Semantics(fmt: Formats, lookup: string -> Option<GoVal>)

  /** What follows the last dot of a qualified name. */
  function AfterLastDot(name: string): Option<string> {
    if name == "" then None
    else if AfterLastDot(name[1..]).Some? then AfterLastDot(name[1..])
    else if name[0] == '.' then Some(name[1..])
    else None
  }

  function OrNil(v: Option<GoVal>): GoVal {
    match v
    case Some(x) => x
    case None => Nil
  }

  /** getFieldValue: the field itself, else the field named by what follows the last dot, else nil. */
  function FieldValue(sem: Semantics, name: string): GoVal {
    if sem.lookup(name).Some? then sem.lookup(name).value
    else
      match AfterLastDot(name)
      case None => Nil
      case Some(short) => OrNil(sem.lookup(short))
  }

  /** evalExpr: conditions, CASE, CAST and subqueries have no value. */
  function EvalExpr(sem: Semantics, e: Expr): GoVal {
    match e
    case Ident(name) =>
      if IsTrueName(name) then Bool(true) else if IsFalseName(name) then Bool(false) else FieldValue(sem, name)
    case Qualified(path) => FieldValue(sem, path)
    case IntLit(n) => Int(n)
    case FloatLit(x) => Num(x)
    case StrLit(s) => Str(sem.fmt.encode(s))
    case Call(func, args) =>
      if sem.fmt.isScalar(func)
      then sem.fmt.scalar(func, seq(|args|, i requires 0 <= i < |args| => EvalExpr(sem, args[i])))
      else OrNil(sem.lookup(sem.fmt.exprText(e)))
    case Infix(l, op, r) => sem.fmt.arith(op, EvalExpr(sem, l), EvalExpr(sem, r))
    case _ => Nil
  }

  predicate EvalComparison(cmp: int, op: string) {
    match op
    case "=" => cmp == 0
    case "!=" => cmp != 0
    case "<>" => cmp != 0
    case "<" => cmp < 0
    case ">" => cmp > 0
    case "<=" => cmp <= 0
    case ">=" => cmp >= 0
    case _ => false
  }

  /** The simplified LIKE on printed, lower-cased operands; a panic is no answer. */
  function LikeAnswer(f: Formats, v: GoVal, pattern: GoVal): Option<bool> {
    Like.ExecutorLike(f.rd.toLower(Show(f, v)), f.rd.toLower(Show(f, pattern)))
  }

  /** evalCondition: fails closed on anything it does not know. */
  predicate EvalCondition(sem: Semantics, e: Expr) {
    match e
    case Infix(l, op, r) =>
      if op == "AND" then EvalCondition(sem, l) && EvalCondition(sem, r)
      else if op == "OR" then EvalCondition(sem, l) || EvalCondition(sem, r)
      else EvalComparison(CompareValues(sem.fmt, EvalExpr(sem, l), EvalExpr(sem, r)), op)
    case Prefix(op, r) => op == "NOT" && !EvalCondition(sem, r)
    case IsNull(x, not) => EvalExpr(sem, x).Nil? != not
    case Between(x, low, high, not) =>
      var v := EvalExpr(sem, x);
      (CompareValues(sem.fmt, v, EvalExpr(sem, low)) >= 0 && CompareValues(sem.fmt, v, EvalExpr(sem, high)) <= 0) != not
    case InList(x, values, not, _) =>
      (exists v :: v in values && CompareValues(sem.fmt, EvalExpr(sem, x), EvalExpr(sem, v)) == 0) != not
    case Like(x, pattern, not, _) => LikeAnswer(sem.fmt, EvalExpr(sem, x), EvalExpr(sem, pattern)) == Some(!not)
    case _ => false
  }
}
