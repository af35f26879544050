/**
 * The generated WHERE against the executor's own evaluation: if the database's elementary tests and native
 * functions mean what the executor's do, the pushed-down query decides as the executor would.
 */
module SqlExecution {
  import opened Basics
  import opened OqlAst
  import opened Executor
  import T = SqlText
  import opened SqlGeneration
  import opened SqlStatement
  import opened SqlTerms
  import opened SqlHaving
  import opened SqlWhole

  // ----- literals -----

  /** A bound argument as the executor's value. */
  function Stored(f: Formats, v: T.Lit): GoVal {
    match v
    case LInt(n) => Int(n)
    case LFloat(x) => Num(x)
    case LStr(s) => Str(f.encode(s))
    case LBool(b) => Bool(b)
    case LNull => Nil
  }

  /** A name that is not TRUE or FALSE: a field to the executor, but a text where a literal is bound. */
  predicate Names(e: Expr) {
    e.Ident? && !IsTrueName(e.name) && !IsFalseName(e.name)
  }

  /**
   * What is bound for an operand is what the executor evaluates it to, exactly when it is no field name, or
   * the field happens to hold its own name as text.
   */
  lemma BoundLiteralIff(sem: Semantics, e: Expr)
    requires LiteralValue(e).Some?
    ensures Stored(sem.fmt, LiteralValue(e).value) == EvalExpr(sem, e)
       <==> (Names(e) ==> FieldValue(sem, e.name) == Str(sem.fmt.encode(e.name)))
  {
    hide Upper, FieldValue;
  }

  // ----- WHERE -----

  /** The elementary tests on a row of native columns, each as the executor answers it; unanswered is unknown. */
  function RowTests(f: Formats, row: string -> GoVal): T.Valuation {
    leaf => RowTest(f, row, leaf)
  }

  function Answer(b: bool): T.Tri {
    if b then T.True else T.False
  }

  function RowTest(f: Formats, row: string -> GoVal, leaf: T.Leaf): T.Tri {
    match leaf
    case Compare(c, op, v) => Answer(EvalComparison(CompareValues(f, row(c), Stored(f, v)), op))
    case NullTest(c, not) => Answer(row(c).Nil? != not)
    case BetweenTest(c, low, high) =>
      Answer(CompareValues(f, row(c), Stored(f, low)) >= 0 && CompareValues(f, row(c), Stored(f, high)) <= 0)
    case InTest(c, vs) => Answer(exists v :: v in vs && CompareValues(f, row(c), Stored(f, v)) == 0)
    case LikeTest(c, v) =>
      match LikeAnswer(f, row(c), Stored(f, v))
      case Some(b) => Answer(b)
      case None => T.Unknown
  }

  /** The record and the row are the same entity: each field with a column has the column's value. */
  ghost predicate SameEntity(cx: Context, sem: Semantics, row: string -> GoVal) {
    forall name: string :: cx.column(name).Some? ==> FieldValue(sem, name) == row(cx.column(name).value)
  }

  /** An operand that names a field, and not TRUE or FALSE. */
  predicate IsField(e: Expr) {
    Names(e) || e.Qualified?
  }

  /** Fields on the left, literals that are no field names on the right, and LIKEs the executor can answer. */
  predicate Comparable(sem: Semantics, e: Expr) {
    match e
    case Infix(l, op, r) =>
      if op == "AND" || op == "OR" then Comparable(sem, l) && Comparable(sem, r) else IsField(l) && !Names(r)
    case Prefix(_, r) => Comparable(sem, r)
    case IsNull(x, _) => IsField(x)
    case Between(x, low, high, _) => IsField(x) && !Names(low) && !Names(high)
    case InList(x, values, _, _) => IsField(x) && forall v :: v in values ==> !Names(v)
    case Like(x, pattern, _, _) =>
      IsField(x) && !Names(pattern) && LikeAnswer(sem.fmt, EvalExpr(sem, x), EvalExpr(sem, pattern)).Some?
    case _ => true
  }

  lemma FieldIsColumn(cx: Context, sem: Semantics, row: string -> GoVal, e: Expr)
    requires SameEntity(cx, sem, row) && IsField(e) && cx.column(ExprToString(cx, e)).Some?
    ensures EvalExpr(sem, e) == row(cx.column(ExprToString(cx, e)).value)
  {
    hide Upper, FieldValue;
  }

  lemma LiteralIsStored(sem: Semantics, e: Expr)
    requires LiteralValue(e).Some? && !Names(e)
    ensures EvalExpr(sem, e) == Stored(sem.fmt, LiteralValue(e).value)
  {
    hide Upper, FieldValue;
  }

  lemma {:induction false} ListIsStored(sem: Semantics, es: seq<Expr>, x: GoVal)
    requires forall v :: v in es ==> LiteralValue(v).Some? && !Names(v)
    ensures (exists v :: v in LitValues(es) && CompareValues(sem.fmt, x, Stored(sem.fmt, v)) == 0)
       <==> (exists v :: v in es && CompareValues(sem.fmt, x, EvalExpr(sem, v)) == 0)
  {
    hide CompareValues, EvalExpr, LiteralValue, Stored, Names;
    if es != [] {
      ListIsStored(sem, es[1..], x);
      assert es == [es[0]] + es[1..];
      LiteralIsStored(sem, es[0]);
      assert LitValues(es) == [LiteralValue(es[0]).value] + LitValues(es[1..]);
    }
  }

  lemma TestMeans(cx: Context, sem: Semantics, row: string -> GoVal, e: Expr)
    requires Accepted(cx, e) && Comparable(sem, e) && SameEntity(cx, sem, row)
    requires e.IsNull? || e.Between? || e.InList? || e.Like? || (e.Infix? && e.op != "AND" && e.op != "OR")
    ensures Meaning(cx, e, RowTests(sem.fmt, row)) == Answer(EvalCondition(sem, e))
  {
    hide CompareValues, EvalExpr, LiteralValue, Stored, Names, IsField, SameEntity, ExprToString, LikeAnswer;
    match e
    case Infix(l, op, r) =>
      FieldIsColumn(cx, sem, row, l);
      LiteralIsStored(sem, r);
    case IsNull(x, _) => FieldIsColumn(cx, sem, row, x);
    case Between(x, low, high, _) =>
      FieldIsColumn(cx, sem, row, x);
      LiteralIsStored(sem, low);
      LiteralIsStored(sem, high);
    case InList(x, values, _, _) =>
      FieldIsColumn(cx, sem, row, x);
      ListIsStored(sem, values, EvalExpr(sem, x));
    case Like(x, pattern, _, _) =>
      FieldIsColumn(cx, sem, row, x);
      LiteralIsStored(sem, pattern);
  }

  /**
   * The meaning of the generated WHERE on a row whose tests answer as the executor's is never unknown, and is
   * the executor's verdict on the record.
   */
  lemma {:induction false} WhereMeansAsExecuted(cx: Context, sem: Semantics, row: string -> GoVal, e: Expr)
    requires Accepted(cx, e) && Comparable(sem, e) && SameEntity(cx, sem, row)
    ensures Meaning(cx, e, RowTests(sem.fmt, row)) == Answer(EvalCondition(sem, e))
  {
    hide SameEntity, RowTests, LiteralValue, ExprToString, IsField, Names;
    match e
    case Infix(l, op, r) =>
      if op == "AND" || op == "OR" {
        WhereMeansAsExecuted(cx, sem, row, l);
        WhereMeansAsExecuted(cx, sem, row, r);
      } else {
        TestMeans(cx, sem, row, e);
      }
    case Prefix(_, r) => WhereMeansAsExecuted(cx, sem, row, r);
    case _ => TestMeans(cx, sem, row, e);
  }

  /** A row passes the statement's condition exactly when it is the tenant's and the executor accepts the record. */
  lemma ConditionSelects(cx: Context, q: Select, tenant: string, sem: Semantics, row: string -> GoVal)
    requires q.where_.Some? && Accepted(cx, q.where_.value) && Comparable(sem, q.where_.value)
    requires SameEntity(cx, sem, row)
    ensures ClauseMeaning(cx, q, tenant, RowTests(sem.fmt, row)) == T.True
       <==> (tenant == "" || CompareValues(sem.fmt, row("tenant_id"), Str(sem.fmt.encode(tenant))) == 0)
            && EvalCondition(sem, q.where_.value)
  {
    hide Accepted, Comparable, SameEntity, EvalCondition, CompareValues, Meaning;
    WhereMeansAsExecuted(cx, sem, row, q.where_.value);
  }

  /**
   * In the generated statement's own text the condition of WHERE, read with the final arguments, is true on
   * a row exactly when it is the tenant's and the executor accepts the record.
   */
  lemma StatementSelectsAsExecuted(cx: Context, table: Option<string>, q: Select, tenant: string, sem: Semantics,
                                   row: string -> GoVal)
    requires Generated(cx, table, q, tenant).Some? && Readable(cx, q)
    requires q.where_.Some? && Comparable(sem, q.where_.value) && SameEntity(cx, sem, row)
    ensures q.where_.Some? ==> Accepted(cx, q.where_.value)
    ensures var out := Generated(cx, table, q, tenant).value;
            exists p, r ::
              && Says(cx, table.value, q, tenant, out, p) && Opens(p.condition, "WHERE")
              && T.ReadCondition(p.condition[1..], out.b.args, RowTests(sem.fmt, row)) == Some(r)
              && (r == T.True <==>
                  (tenant == "" || CompareValues(sem.fmt, row("tenant_id"), Str(sem.fmt.encode(tenant))) == 0)
                  && EvalCondition(sem, q.where_.value))
  {
    hide TranslateClauses, PlainOps, HavingOk, Comparable, SameEntity, EvalCondition, CompareValues, Accepted;
    hide ClauseMeaning;
    hide ListsTerms, GroupStands, HavingStands, OrderStands, LimitStands, RowTests, T.ReadCondition;
    StatementReads(cx, table, q, tenant);
    ConditionSelects(cx, q, tenant, sem, row);
    var out := Generated(cx, table, q, tenant).value;
    var p :| Says(cx, table.value, q, tenant, out, p);
    var r := ClauseMeaning(cx, q, tenant, RowTests(sem.fmt, row));
    assert T.ReadCondition(p.condition[1..], out.b.args, RowTests(sem.fmt, row)) == Some(r);
  }

  // ----- scalars -----

  /** What the database's functions and operators compute. */
  datatype Native = Native(call: (string, seq<GoVal>) -> GoVal, op: (T.SqlTok, GoVal, GoVal) -> GoVal)

  function TermValue(f: Formats, db: Native, row: string -> GoVal, t: Term): GoVal {
    match t
    case TColumn(name) => row(name)
    case TArg(v) => Stored(f, v)
    case TNull => Nil
    case TSymbol(text) => if text == "TRUE" then Bool(true) else if text == "FALSE" then Bool(false) else Nil
    case TCall(g, args) => db.call(g, seq(|args|, i requires 0 <= i < |args| => TermValue(f, db, row, args[i])))
    case TInfix(l, op, r) => db.op(op, TermValue(f, db, row, l), TermValue(f, db, row, r))
  }

  /** The native functions and operators compute what the executor's do. */
  ghost predicate NativeAgrees(cx: Context, f: Formats, db: Native) {
    && (forall func, vs :: f.isScalar(func) && cx.scalarFunction(Upper(func)).Some? ==>
          db.call(cx.scalarFunction(Upper(func)).value, vs) == f.scalar(func, vs))
    && (forall op, a, b :: db.op(OpTok(op), a, b) == f.arith(op, a, b))
  }

  /** Fields, literals, scalar functions and arithmetic; no aggregate, and no column called TRUE or FALSE. */
  predicate Rowwise(cx: Context, f: Formats, e: Expr) {
    match e
    case Call(func, args) =>
      f.isScalar(func) && !IsAggregate(Upper(func)) && forall i :: 0 <= i < |args| ==> Rowwise(cx, f, args[i])
    case Infix(l, _, r) => Rowwise(cx, f, l) && Rowwise(cx, f, r)
    case Ident(name) => IsTrueName(name) || IsFalseName(name) ==> cx.column(name).None?
    case _ => true
  }

  /** The scalar emitted for a row-wise expression has on every row the value the executor gives the expression. */
  lemma {:induction false} ScalarMeansAsExecuted(cx: Context, sem: Semantics, db: Native, row: string -> GoVal, e: Expr)
    requires ScalarOk(cx, e) && Rowwise(cx, sem.fmt, e) && SameEntity(cx, sem, row) && NativeAgrees(cx, sem.fmt, db)
    ensures TermValue(sem.fmt, db, row, Resolved(cx, e)) == EvalExpr(sem, e)
    decreases e
  {
    hide Upper, FieldValue, NativeAgrees, SameEntity;
    var f := sem.fmt;
    match e
    case Call(func, args) =>
      ScalarsMeanAsExecuted(cx, sem, db, row, args);
      var terms := ResolvedAll(cx, args);
      assert seq(|terms|, i requires 0 <= i < |terms| => TermValue(f, db, row, terms[i]))
          == seq(|args|, i requires 0 <= i < |args| => EvalExpr(sem, args[i]));
      CallAgrees(cx, f, db, func, seq(|args|, i requires 0 <= i < |args| => EvalExpr(sem, args[i])));
    case Infix(l, op, r) =>
      ScalarMeansAsExecuted(cx, sem, db, row, l);
      ScalarMeansAsExecuted(cx, sem, db, row, r);
      OpAgrees(cx, f, db, op, EvalExpr(sem, l), EvalExpr(sem, r));
    case Ident(name) =>
      if cx.column(name).Some? {
        ColumnAgrees(cx, sem, row, name);
      }
    case Qualified(path) => ColumnAgrees(cx, sem, row, path);
    case _ =>
  }

  lemma CallAgrees(cx: Context, f: Formats, db: Native, func: string, vs: seq<GoVal>)
    requires NativeAgrees(cx, f, db) && f.isScalar(func) && cx.scalarFunction(Upper(func)).Some?
    ensures db.call(cx.scalarFunction(Upper(func)).value, vs) == f.scalar(func, vs)
  {
  }

  lemma OpAgrees(cx: Context, f: Formats, db: Native, op: string, a: GoVal, b: GoVal)
    requires NativeAgrees(cx, f, db)
    ensures db.op(OpTok(op), a, b) == f.arith(op, a, b)
  {
  }

  lemma ColumnAgrees(cx: Context, sem: Semantics, row: string -> GoVal, name: string)
    requires SameEntity(cx, sem, row) && cx.column(name).Some?
    ensures FieldValue(sem, name) == row(cx.column(name).value)
  {
  }

  lemma {:induction false} ScalarsMeanAsExecuted(cx: Context, sem: Semantics, db: Native, row: string -> GoVal,
                                                 es: seq<Expr>)
    requires forall i :: 0 <= i < |es| ==> ScalarOk(cx, es[i]) && Rowwise(cx, sem.fmt, es[i])
    requires SameEntity(cx, sem, row) && NativeAgrees(cx, sem.fmt, db)
    ensures |ResolvedAll(cx, es)| == |es|
    ensures forall i :: 0 <= i < |es| ==> TermValue(sem.fmt, db, row, ResolvedAll(cx, es)[i]) == EvalExpr(sem, es[i])
    decreases es
  {
    hide ScalarOk, Rowwise, NativeAgrees, SameEntity, TermValue, EvalExpr;
    if es != [] {
      ScalarMeansAsExecuted(cx, sem, db, row, es[0]);
      ScalarsMeanAsExecuted(cx, sem, db, row, es[1..]);
    }
  }

  /** An aggregate is emitted under its own name with its argument, COUNT of nothing or of a star as COUNT(*). */
  lemma AggregateKeepsItsArgument(cx: Context, func: string, args: seq<Expr>)
    requires Upper(func) in {"COUNT", "SUM", "AVG", "MIN", "MAX"} && ScalarOk(cx, Call(func, args))
    ensures var t := Resolved(cx, Call(func, args));
            if Upper(func) == "COUNT" && (args == [] || (|args| == 1 && ExprToString(cx, args[0]) == "*"))
            then t == TCall("COUNT", [TSymbol("*")])
            else args != [] && ScalarOk(cx, args[0]) && t == TCall(Upper(func), [Resolved(cx, args[0])])
  {
    hide Upper;
  }

  // ----- HAVING -----

  /** The comparisons of HAVING as the executor answers them, given what each emitted scalar is worth. */
  function GroupTests(f: Formats, worth: Term -> GoVal): HavingValuation {
    (c: Comparison) => Answer(EvalComparison(CompareValues(f, worth(c.term), Stored(f, c.v)), c.op))
  }

  /** The emitted scalars are worth what the executor makes of them, and no literal is a field's name. */
  predicate HavingComparable(cx: Context, sem: Semantics, worth: Term -> GoVal, e: Expr)
    requires HavingOk(cx, e)
  {
    match e
    case Infix(l, op, r) =>
      if op == "AND" || op == "OR" then HavingComparable(cx, sem, worth, l) && HavingComparable(cx, sem, worth, r)
      else worth(Resolved(cx, l)) == EvalExpr(sem, l) && !Names(r)
    case Prefix(_, r) => HavingComparable(cx, sem, worth, r)
  }

  /** The meaning of the generated HAVING is then the executor's verdict. */
  lemma {:induction false} HavingMeansAsExecuted(cx: Context, sem: Semantics, worth: Term -> GoVal, e: Expr)
    requires HavingOk(cx, e) && HavingComparable(cx, sem, worth, e)
    ensures HavingMeaning(cx, e, GroupTests(sem.fmt, worth)) == Answer(EvalCondition(sem, e))
  {
    hide EvalExpr, LiteralValue, Resolved, ScalarOk, OpTok, CompareValues, Stored, Names;
    match e
    case Infix(l, op, r) =>
      if op == "AND" || op == "OR" {
        HavingMeansAsExecuted(cx, sem, worth, l);
        HavingMeansAsExecuted(cx, sem, worth, r);
      } else {
        LiteralIsStored(sem, r);
      }
    case Prefix(_, r) => HavingMeansAsExecuted(cx, sem, worth, r);
  }
}
