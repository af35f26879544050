/**
 * Splitting a WHERE clause into predicates for the inline filter and a residual for the executor.
 */
module PredicateCompiler {
  import opened Basics
  import opened OqlAst
  import opened Executor
  import opened JsonPredicates

  function MapOp(op: string): Option<PredicateOp> {
    match op
    case "=" => Some(OpEq)
    case "!=" => Some(OpNeq)
    case "<>" => Some(OpNeq)
    case "<" => Some(OpLt)
    case "<=" => Some(OpLte)
    case ">" => Some(OpGt)
    case ">=" => Some(OpGte)
    case _ => None
  }

  function ReverseOp(op: PredicateOp): PredicateOp {
    match op
    case OpLt => OpGt
    case OpLte => OpGte
    case OpGt => OpLt
    case OpGte => OpLte
    case _ => op
  }

  function ExtractFieldName(e: Expr): Option<string> {
    if e.Ident? && !IsTrueName(e.name) && !IsFalseName(e.name) && Upper(e.name) != "NULL" then Some(e.name) else None
  }

  /** The value a literal stands for in a predicate, and the field type it implies; numbers are floats. */
  function ExtractLiteral(f: Formats, e: Expr): Option<(Value, FieldType)> {
    match e
    case StrLit(s) => Some((VString(f.encode(s)), FieldString))
    case IntLit(n) => Some((VFloat(n as real), FieldFloat))
    case FloatLit(x) => Some((VFloat(x), FieldFloat))
    case Ident(name) =>
      if IsTrueName(name) then Some((VBool(true), FieldBool))
      else if IsFalseName(name) then Some((VBool(false), FieldBool))
      else None
    case _ => None
  }

  predicate IsLiteralExpr(e: Expr) {
    e.StrLit? || e.IntLit? || e.FloatLit? || (e.Ident? && (IsTrueName(e.name) || IsFalseName(e.name)))
  }

  lemma LiteralIff(f: Formats, e: Expr)
    ensures ExtractLiteral(f, e).Some? <==> IsLiteralExpr(e)
  {
    hide Upper;
  }

  function CompileInfix(f: Formats, e: Expr): Option<FieldPredicate>
    requires e.Infix?
  {
    var op := MapOp(e.op);
    if op.None? then None
    else if ExtractFieldName(e.left).Some? && ExtractLiteral(f, e.right).Some? then
      var (val, ft) := ExtractLiteral(f, e.right).value;
      Some(MakeFieldPredicate(f.encode(ExtractFieldName(e.left).value), ft, op.value, val))
    else if ExtractFieldName(e.right).Some? && ExtractLiteral(f, e.left).Some? then
      var (val, ft) := ExtractLiteral(f, e.left).value;
      Some(MakeFieldPredicate(f.encode(ExtractFieldName(e.right).value), ft, ReverseOp(op.value), val))
    else None
  }

  function CompileLike(f: Formats, e: Expr): Option<FieldPredicate>
    requires e.Like?
  {
    if e.not || e.hasEscape || ExtractFieldName(e.expr).None? || !e.pattern.StrLit? then None
    else Some(MakeFieldPredicate(f.encode(ExtractFieldName(e.expr).value), FieldString, OpLike,
                                 VString(f.encode(e.pattern.s))))
  }

  predicate AllLiteral(es: seq<Expr>) {
    forall e :: e in es ==> IsLiteralExpr(e)
  }

  function LiteralValues(f: Formats, es: seq<Expr>): seq<Value>
    requires AllLiteral(es)
  {
    if es == [] then []
    else
      assert es[|es| - 1] in es;
      LiteralValues(f, es[..|es| - 1]) + [ExtractLiteral(f, es[|es| - 1]).value.0]
  }

  /** The type of the first value stands for the whole list; the others are not compared with it. */
  function ListType(f: Formats, es: seq<Expr>): FieldType {
    if es == [] || ExtractLiteral(f, es[0]).None? then FieldString else ExtractLiteral(f, es[0]).value.1
  }

  function CompiledIn(f: Formats, e: Expr): Option<FieldPredicate>
    requires e.InList?
  {
    if e.not || e.hasSubquery || ExtractFieldName(e.expr).None? || !AllLiteral(e.values) then None
    else Some(MakeFieldPredicate(f.encode(ExtractFieldName(e.expr).value), ListType(f, e.values), OpIn,
                                 VList(LiteralValues(f, e.values))))
  }

  /** compileIn: every listed value must be a literal; the first one's type is kept. */
  method CompileIn(f: Formats, e: Expr) returns (r: Option<FieldPredicate>)
    requires e.InList?
    ensures r == CompiledIn(f, e)
  {
    hide Upper, ExtractLiteral, IsLiteralExpr, MakeFieldPredicate;
    if e.not || e.hasSubquery {
      return None;
    }
    var name := ExtractFieldName(e.expr);
    if name.None? {
      return None;
    }
    var vals: seq<Value> := [];
    var ft := FieldString;
    for i := 0 to |e.values|
      invariant AllLiteral(e.values[..i]) && vals == LiteralValues(f, e.values[..i]) && ft == ListType(f, e.values[..i])
    {
      var lit := ExtractLiteral(f, e.values[i]);
      LiteralIff(f, e.values[i]);
      assert e.values[..i + 1][..i] == e.values[..i];
      if lit.None? {
        assert e.values[i] in e.values;
        return None;
      }
      if i == 0 {
        ft := lit.value.1;
      }
      vals := vals + [lit.value.0];
    }
    assert e.values[..|e.values|] == e.values;
    return Some(MakeFieldPredicate(f.encode(name.value), ft, OpIn, VList(vals)));
  }

  lemma {:induction false} ListedInOrder(f: Formats, es: seq<Expr>)
    requires AllLiteral(es)
    ensures |LiteralValues(f, es)| == |es|
    ensures forall i :: 0 <= i < |es| ==>
              match es[i]
              case StrLit(s) => LiteralValues(f, es)[i] == VString(f.encode(s))
              case IntLit(n) => LiteralValues(f, es)[i] == VFloat(n as real)
              case FloatLit(x) => LiteralValues(f, es)[i] == VFloat(x)
              case Ident(name) => LiteralValues(f, es)[i] == VBool(IsTrueName(name))
              case _ => false
  {
    hide Upper;
    if es != [] {
      var n := |es| - 1;
      assert es[n] in es;
      ListedInOrder(f, es[..n]);
      assert forall i :: 0 <= i < n ==> es[..n][i] == es[i];
    }
  }

  /** A compiled IN holds its values in order, and has the type of the first: text if there is none. */
  lemma CompiledListMeans(f: Formats, e: Expr)
    requires e.InList? && CompiledIn(f, e).Some?
    ensures AllLiteral(e.values) && ExtractFieldName(e.expr).Some?
    ensures var fp := CompiledIn(f, e).value;
            && fp.op == OpIn && fp.val == VList(LiteralValues(f, e.values))
            && fp.name == f.encode(ExtractFieldName(e.expr).value)
            && (fp.typ == FieldString <==> e.values == [] || e.values[0].StrLit?)
            && (fp.typ == FieldFloat <==> e.values != [] && (e.values[0].IntLit? || e.values[0].FloatLit?))
            && (fp.typ == FieldBool <==> e.values != [] && e.values[0].Ident?)
  {
    hide Upper;
    if e.values != [] {
      assert e.values[0] in e.values;
    }
  }

  function Compiled(f: Formats, e: Expr): Option<FieldPredicate> {
    match e
    case Infix(_, _, _) => CompileInfix(f, e)
    case InList(_, _, _, _) => CompiledIn(f, e)
    case Like(_, _, _, _) => CompileLike(f, e)
    case _ => None
  }

  /** The terms that can be pushed into the tokeniser: a field compared with literals, in either order. */
  predicate Compilable(e: Expr) {
    match e
    case Infix(l, op, r) =>
      && MapOp(op).Some?
      && ((ExtractFieldName(l).Some? && IsLiteralExpr(r)) || (ExtractFieldName(r).Some? && IsLiteralExpr(l)))
    case InList(x, values, not, hasSubquery) => !not && !hasSubquery && ExtractFieldName(x).Some? && AllLiteral(values)
    case Like(x, pattern, not, hasEscape) => !not && !hasEscape && ExtractFieldName(x).Some? && pattern.StrLit?
    case _ => false
  }

  /** compileTerm compiles exactly the terms of those shapes. */
  method CompileTerm(f: Formats, e: Expr) returns (r: Option<FieldPredicate>)
    ensures r == Compiled(f, e) && (r.Some? <==> Compilable(e))
  {
    hide Upper;
    match e
    case Infix(_, _, _) => r := CompileInfix(f, e);
    case InList(_, _, _, _) => r := CompileIn(f, e);
    case Like(_, _, _, _) => r := CompileLike(f, e);
    case _ => r := None;
  }

  lemma CompiledIff(f: Formats, e: Expr)
    ensures Compiled(f, e).Some? <==> Compilable(e)
  {
    hide Upper;
  }

  // ----- splitting and rebuilding -----

  /** flattenAND compares the operator in upper case, which the executor does not. */
  function FlattenAnd(e: Expr): (ts: seq<Expr>)
    ensures |ts| > 0
  {
    if e.Infix? && Upper(e.op) == "AND" then FlattenAnd(e.left) + FlattenAnd(e.right) else [e]
  }

  /** Every AND that gets flattened is spelled "AND". */
  predicate UpperSpine(e: Expr) {
    e.Infix? && Upper(e.op) == "AND" ==> e.op == "AND" && UpperSpine(e.left) && UpperSpine(e.right)
  }

  ghost predicate AllTrue(sem: Semantics, ts: seq<Expr>) {
    forall i :: 0 <= i < |ts| ==> EvalCondition(sem, ts[i])
  }

  lemma AllTrueConcat(sem: Semantics, a: seq<Expr>, b: seq<Expr>)
    ensures AllTrue(sem, a + b) <==> AllTrue(sem, a) && AllTrue(sem, b)
  {
    if AllTrue(sem, a + b) {
      forall i | 0 <= i < |a|
        ensures EvalCondition(sem, a[i])
      {
        assert (a + b)[i] == a[i];
      }
      forall i | 0 <= i < |b|
        ensures EvalCondition(sem, b[i])
      {
        assert (a + b)[|a| + i] == b[i];
      }
    }
  }

  /** With lower-case "and" on the spine the executor rejects every record; the flat terms may still hold. */
  lemma {:induction false} FlattenMeans(sem: Semantics, e: Expr)
    ensures EvalCondition(sem, e) <==> UpperSpine(e) && AllTrue(sem, FlattenAnd(e))
  {
    if e.Infix? && Upper(e.op) == "AND" {
      FlattenMeans(sem, e.left);
      FlattenMeans(sem, e.right);
      AllTrueConcat(sem, FlattenAnd(e.left), FlattenAnd(e.right));
      if e.op != "AND" {
        assert e.op != "OR" by {
          assert Upper("OR") != "AND" by {
            assert |Upper("OR")| == 2;
          }
        }
        NotAComparison(e.op);
      }
    } else {
      assert FlattenAnd(e)[0] == e;
    }
  }

  lemma NotAComparison(op: string)
    requires Upper(op) == "AND"
    ensures op !in {"=", "!=", "<>", "<", ">", "<=", ">="}
  {
  }

  /** rebuildAND: a left-leaning chain spelled "AND". */
  method RebuildAnd(ts: seq<Expr>) returns (r: Option<Expr>)
    ensures r.None? <==> ts == []
    ensures r.Some? ==> forall sem :: EvalCondition(sem, r.value) <==> AllTrue(sem, ts)
  {
    hide EvalCondition;
    if ts == [] {
      return None;
    }
    var e := ts[0];
    assert ts[..1] == [ts[0]];
    for i := 1 to |ts|
      invariant forall sem :: EvalCondition(sem, e) <==> AllTrue(sem, ts[..i])
    {
      ghost var before := e;
      e := Infix(e, "AND", ts[i]);
      assert ts[..i + 1] == ts[..i] + [ts[i]];
      forall sem
        ensures EvalCondition(sem, e) <==> AllTrue(sem, ts[..i + 1])
      {
        AndMeans(sem, before, ts[i]);
        AllTrueConcat(sem, ts[..i], [ts[i]]);
        assert [ts[i]][0] == ts[i];
      }
    }
    assert ts[..|ts|] == ts;
    return Some(e);
  }

  lemma AndMeans(sem: Semantics, a: Expr, b: Expr)
    ensures EvalCondition(sem, Infix(a, "AND", b)) <==> EvalCondition(sem, a) && EvalCondition(sem, b)
  {
  }

  datatype CompileResult = CompileResult(preds: seq<FieldPredicate>, residual: Option<Expr>)

  /** The terms that are pushed down, in order. */
  function Pushed(ts: seq<Expr>): seq<Expr> {
    if ts == [] then [] else Pushed(ts[..|ts| - 1]) + if Compilable(ts[|ts| - 1]) then [ts[|ts| - 1]] else []
  }

  /** The terms that stay with the executor, in order. */
  function Kept(ts: seq<Expr>): seq<Expr> {
    if ts == [] then [] else Kept(ts[..|ts| - 1]) + if Compilable(ts[|ts| - 1]) then [] else [ts[|ts| - 1]]
  }

  ghost predicate EachTrue(P: Expr -> bool, ts: seq<Expr>) {
    forall i :: 0 <= i < |ts| ==> P(ts[i])
  }

  /** Nothing is lost or added: under every meaning of the terms, all hold iff the pushed and the kept ones do. */
  lemma {:induction false} SplitIsAPartition(P: Expr -> bool, ts: seq<Expr>)
    ensures EachTrue(P, ts) <==> EachTrue(P, Pushed(ts)) && EachTrue(P, Kept(ts))
    ensures forall i :: 0 <= i < |Pushed(ts)| ==> Compilable(Pushed(ts)[i])
  {
    if ts != [] {
      var n := |ts| - 1;
      SplitIsAPartition(P, ts[..n]);
      EachTrueSnoc(P, ts[..n], ts[n]);
      EachTrueSnoc(P, Pushed(ts[..n]), ts[n]);
      EachTrueSnoc(P, Kept(ts[..n]), ts[n]);
      assert ts == ts[..n] + [ts[n]];
      assert Pushed(ts[..n]) + [] == Pushed(ts[..n]) && Kept(ts[..n]) + [] == Kept(ts[..n]);
    }
  }

  lemma EachTrueSnoc(P: Expr -> bool, ts: seq<Expr>, t: Expr)
    ensures EachTrue(P, ts + [t]) <==> EachTrue(P, ts) && P(t)
  {
    if EachTrue(P, ts + [t]) {
      assert forall i :: 0 <= i < |ts| ==> ts[i] == (ts + [t])[i];
      assert (ts + [t])[|ts|] == t;
    }
  }

  predicate CompiledFrom(f: Formats, ts: seq<Expr>, preds: seq<FieldPredicate>) {
    |preds| == |ts| && forall i :: 0 <= i < |ts| ==> Compiled(f, ts[i]) == Some(preds[i])
  }

  /** Each pushed term, and nothing else, becomes a predicate, in order; the residual says the rest. */
  method CompilePredicates(f: Formats, where_: Option<Expr>) returns (r: CompileResult)
    ensures where_.None? ==> r == CompileResult([], None)
    ensures where_.Some? ==> CompiledFrom(f, Pushed(FlattenAnd(where_.value)), r.preds)
    ensures where_.Some? ==> (r.residual.None? <==> Kept(FlattenAnd(where_.value)) == [])
    ensures where_.Some? ==> forall sem :: ResidualHolds(sem, r) <==> AllTrue(sem, Kept(FlattenAnd(where_.value)))
  {
    hide EvalCondition, Compiled, Compilable, FlattenAnd;
    if where_.None? {
      return CompileResult([], None);
    }
    var terms := FlattenAnd(where_.value);
    var preds: seq<FieldPredicate> := [];
    var residuals: seq<Expr> := [];
    for i := 0 to |terms|
      invariant CompiledFrom(f, Pushed(terms[..i]), preds) && residuals == Kept(terms[..i])
    {
      var fp := CompileTerm(f, terms[i]);
      assert terms[..i + 1][..i] == terms[..i];
      if fp.Some? {
        preds := preds + [fp.value];
      } else {
        residuals := residuals + [terms[i]];
      }
    }
    assert terms[..|terms|] == terms;
    var residual := RebuildAnd(residuals);
    r := CompileResult(preds, residual);
  }

  ghost predicate ResidualHolds(sem: Semantics, r: CompileResult) {
    r.residual.Some? ==> EvalCondition(sem, r.residual.value)
  }

  lemma {:induction false} PartitionMeans(sem: Semantics, ts: seq<Expr>)
    ensures AllTrue(sem, ts) <==> AllTrue(sem, Pushed(ts)) && AllTrue(sem, Kept(ts))
  {
    hide EvalCondition;
    SplitIsAPartition(t => EvalCondition(sem, t), ts);
  }

  /**
   * The pushed terms and the residual together have WHERE's meaning on a record exactly when every AND
   * is spelled in upper case, or some flattened term fails on the record anyway.
   */
  lemma SplitKeepsMeaningIff(sem: Semantics, e: Expr, r: CompileResult)
    requires ResidualHolds(sem, r) <==> AllTrue(sem, Kept(FlattenAnd(e)))
    ensures (AllTrue(sem, Pushed(FlattenAnd(e))) && ResidualHolds(sem, r) <==> EvalCondition(sem, e))
       <==> UpperSpine(e) || !AllTrue(sem, FlattenAnd(e))
  {
    hide EvalCondition, ResidualHolds, Compilable, UpperSpine;
    FlattenMeans(sem, e);
    PartitionMeans(sem, FlattenAnd(e));
  }

  /** A lower-case "and" of two true terms is dropped by the executor but kept by the split. */
  lemma LowerCaseAndSplitsDifferently(sem: Semantics, a: Expr, b: Expr)
    requires EvalCondition(sem, a) && EvalCondition(sem, b) && !a.Infix? && !b.Infix?
    ensures !EvalCondition(sem, Infix(a, "and", b)) && AllTrue(sem, FlattenAnd(Infix(a, "and", b)))
  {
    assert Upper("and") == "AND" by {
      assert Upper("d") == "D" && Upper("nd") == "ND";
    }
    assert FlattenAnd(Infix(a, "and", b)) == [a, b];
  }
}
