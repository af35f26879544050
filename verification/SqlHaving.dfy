/** Reading the generated HAVING back: comparisons of scalars, connected as in the source. */
module SqlHaving {
  import opened Basics
  import opened OqlAst
  import opened SqlText
  import opened SqlConditions
  import opened SqlGeneration
  import opened SqlReading
  import opened SqlStatement
  import opened SqlTerms

  /** One comparison of a scalar with a bound value. */
  datatype Comparison = Comparison(term: Term, op: string, v: Lit)

  type HavingValuation = Comparison -> Tri

  function ReadComparison(ts: seq<SqlTok>, args: seq<Lit>, val: HavingValuation): Option<Read<Tri>> {
    match ReadTerm(ts, args)
    case None => None
    case Some(t) =>
      if |t.rest| >= 2 && t.rest[0].Sym? && Bound(args, t.rest[1])
      then Some(Read(val(Comparison(t.v, t.rest[0].text, Arg(args, t.rest[1]))), t.rest[2..]))
      else None
  }

  function HavingReader(args: seq<Lit>, val: HavingValuation): TestReader {
    ts => ReadComparison(ts, args, val)
  }

  // ----- the meaning of HAVING and the condition it is emitted as -----

  predicate IsComparison(e: Expr) {
    e.Infix? && e.op != "AND" && e.op != "OR"
  }

  /** The source's truth value, over any valuation of the comparisons. */
  function HavingMeaning(cx: Context, e: Expr, val: HavingValuation): Tri
    requires HavingOk(cx, e)
  {
    match e
    case Infix(l, op, r) =>
      if op == "AND" then TAnd(HavingMeaning(cx, l, val), HavingMeaning(cx, r, val))
      else if op == "OR" then TOr(HavingMeaning(cx, l, val), HavingMeaning(cx, r, val))
      else val(Comparison(Resolved(cx, l), op, LiteralValue(r).value))
    case Prefix(_, r) => TNot(HavingMeaning(cx, r, val))
  }

  /** HAVING conditions the generator accepts, whose comparison operators are no keywords. */
  predicate HavingOk(cx: Context, e: Expr) {
    match e
    case Infix(l, op, r) =>
      if op == "AND" || op == "OR" then HavingOk(cx, l) && HavingOk(cx, r)
      else ScalarOk(cx, l) && LiteralValue(r).Some? && OpTok(op).Sym?
    case Prefix(op, r) => op == "NOT" && HavingOk(cx, r)
    case _ => false
  }

  lemma {:induction false} HavingOkTranslates(cx: Context, e: Expr, b: Binder)
    requires HavingOk(cx, e)
    ensures TranslateHaving(cx, e, b).Some?
  {
    hide Upper, TranslateScalar, ScalarOk;
    match e
    case Infix(l, op, r) =>
      if op == "AND" || op == "OR" {
        HavingOkTranslates(cx, l, b);
        HavingOkTranslates(cx, r, TranslateHaving(cx, l, b).value.b);
      } else {
        ScalarIff(cx, l, b);
      }
    case Prefix(_, r) => HavingOkTranslates(cx, r, b);
  }

  function HavingTree(cx: Context, e: Expr, b: Binder, val: HavingValuation): Cond
    requires HavingOk(cx, e) && TranslateHaving(cx, e, b).Some?
  {
    match e
    case Infix(l, op, r) =>
      if op == "AND" || op == "OR" then
        var left := TranslateHaving(cx, l, b).value;
        var lt, rt := HavingTree(cx, l, b, val), HavingTree(cx, r, left.b, val);
        if op == "AND" then Both(lt, rt) else Either(lt, rt)
      else Test(TranslateHaving(cx, e, b).value.sql, HavingMeaning(cx, e, val))
    case Prefix(_, r) => Not(HavingTree(cx, r, b, val))
  }

  lemma {:induction false} HavingText(cx: Context, e: Expr, b: Binder, val: HavingValuation)
    requires HavingOk(cx, e) && TranslateHaving(cx, e, b).Some?
    ensures Text(HavingTree(cx, e, b, val)) == TranslateHaving(cx, e, b).value.sql
    ensures TruthOf(HavingTree(cx, e, b, val)) == HavingMeaning(cx, e, val)
  {
    hide Upper, LiteralValue, TranslateScalar, Connected, ScalarOk, Resolved;
    match e
    case Infix(l, op, r) =>
      if op == "AND" || op == "OR" {
        var left := TranslateHaving(cx, l, b).value;
        HavingText(cx, l, b, val);
        HavingText(cx, r, left.b, val);
        ConnectedText(op, left, TranslateHaving(cx, r, left.b).value, HavingTree(cx, l, b, val),
                      HavingTree(cx, r, left.b, val));
      }
    case Prefix(_, r) =>
      HavingText(cx, r, b, val);
      NegatedText(TranslateHaving(cx, r, b).value.sql);
  }

  // ----- its comparisons read as comparisons, and nothing else does -----

  /** Everything the clause binds is in the final argument list. */
  ghost predicate HavingBound(cx: Context, e: Expr, b: Binder, args: seq<Lit>) {
    BinderOk(b) && HavingOk(cx, e) && TranslateHaving(cx, e, b).Some? && TranslateHaving(cx, e, b).value.b.args <= args
  }

  lemma HavingHalves(cx: Context, e: Expr, b: Binder, args: seq<Lit>)
    requires HavingBound(cx, e, b, args) && e.Infix? && (e.op == "AND" || e.op == "OR")
    ensures HavingBound(cx, e.left, b, args)
    ensures HavingBound(cx, e.right, TranslateHaving(cx, e.left, b).value.b, args)
  {
    hide Upper, TranslateScalar, ScalarOk, LiteralValue, Numbered;
    var left := TranslateHaving(cx, e.left, b).value;
    HavingInOrder(cx, e.left, b);
    HavingInOrder(cx, e.right, left.b);
  }

  /** A comparison's text: the scalar, the operator and the placeholder. */
  lemma ComparisonParts(cx: Context, e: Expr, b: Binder, args: seq<Lit>)
    requires HavingBound(cx, e, b, args) && IsComparison(e)
    ensures var left := TranslateScalar(cx, e.left, b);
            && left.Some? && Ready(cx, e.left, b, args)
            && TranslateHaving(cx, e, b).value.sql == left.value.sql + [Sym(e.op), Ph(left.value.b.idx + 1)]
            && Bound(args, Ph(left.value.b.idx + 1))
            && Arg(args, Ph(left.value.b.idx + 1)) == LiteralValue(e.right).value
  {
    hide Upper, ScalarOk, LiteralValue, TranslateScalar, InOrder;
    var left := TranslateScalar(cx, e.left, b).value;
    ScalarInOrder(cx, e.left, b);
    InOrderArgs(b, left);
    ArgBound(left.b, LiteralValue(e.right).value, args);
    assert left.b.args <= left.b.args + [LiteralValue(e.right).value];
    assert left.sql + [OpTok(e.op)] + [Ph(left.b.idx + 1)] == left.sql + [Sym(e.op), Ph(left.b.idx + 1)] by {
      PlainOp(e.op);
    }
  }

  lemma PlainOp(op: string)
    requires OpTok(op).Sym?
    ensures OpTok(op) == Sym(op)
  {
  }

  lemma ComparisonReads(cx: Context, e: Expr, b: Binder, args: seq<Lit>, val: HavingValuation)
    requires HavingBound(cx, e, b, args) && IsComparison(e)
    ensures ReadsAs(HavingReader(args, val), TranslateHaving(cx, e, b).value.sql, HavingMeaning(cx, e, val))
  {
    hide Upper, ScalarOk, LiteralValue, TranslateScalar, ReadTerm, Resolved, TranslateHaving;
    ComparisonParts(cx, e, b, args);
    var left := TranslateScalar(cx, e.left, b).value;
    var sql := TranslateHaving(cx, e, b).value.sql;
    forall rest: seq<SqlTok> | Follows(rest)
      ensures ReadComparison(sql + rest, args, val) == Some(Read(HavingMeaning(cx, e, val), rest))
    {
      var tail := [Sym(e.op), Ph(left.b.idx + 1)] + rest;
      ScalarReads(cx, e.left, b, args, tail);
      assert sql + rest == left.sql + tail && tail[2..] == rest;
    }
    assert sql != [] && !sql[0].KNot? by {
      ScalarReads(cx, e.left, b, args, []);
      assert left.sql + [] == left.sql;
      NoTermStartsWithNot(left.sql, args);
    }
  }

  lemma NoTermStartsWithNot(ts: seq<SqlTok>, args: seq<Lit>)
    requires ReadTerm(ts, args).Some?
    ensures ts != [] && !ts[0].KNot?
  {
  }

  /**
   * After an opening parenthesis a condition is not taken for an arithmetic operation, except a lone
   * comparison, and that only up to its own closing parenthesis.
   */
  lemma {:induction false} NoOperation(cx: Context, e: Expr, b: Binder, args: seq<Lit>, val: HavingValuation,
                                       more: seq<SqlTok>)
    requires HavingBound(cx, e, b, args) && more != [] && Follows(more)
    ensures var r := ReadInfix(Text(HavingTree(cx, e, b, val)) + more, args);
            r.None? || (more[0].RP? && r.value.rest == more[1..])
  {
    hide Upper, LiteralValue, TranslateScalar, ScalarOk, Resolved, ReadTerm, ReadInfix;
    match e
    case Infix(l, op, r) =>
      if op == "AND" || op == "OR" {
        HavingHalves(cx, e, b, args);
        var b1 := TranslateHaving(cx, l, b).value.b;
        var lt, rt := Text(HavingTree(cx, l, b, val)), Text(HavingTree(cx, r, b1, val));
        if op == "AND" {
          var tail := [KAnd] + rt + more;
          NoOperation(cx, l, b, args, val, tail);
          assert lt + [KAnd] + rt + more == lt + tail;
        } else {
          var tail := [KOr] + rt + [RP] + more;
          NoOperation(cx, l, b, args, val, tail);
          assert [LP] + (lt + [KOr] + rt) + [RP] + more == [LP] + (lt + tail);
          OpensInfix(lt + tail, args);
          NoFirstTerm([LP] + (lt + tail), args);
        }
      } else {
        ComparisonIsOneOperation(cx, e, b, args, more);
      }
    case Prefix(_, r) =>
      var ts := Text(HavingTree(cx, e, b, val)) + more;
      NotIsNoTerm(ts, args);
      NoFirstTerm(ts, args);
  }

  lemma NoFirstTerm(ts: seq<SqlTok>, args: seq<Lit>)
    requires ReadTerm(ts, args).None?
    ensures ReadInfix(ts, args).None?
  {
  }

  lemma NotIsNoTerm(ts: seq<SqlTok>, args: seq<Lit>)
    requires ts != [] && ts[0].KNot?
    ensures ReadTerm(ts, args).None?
  {
  }

  lemma ComparisonIsOneOperation(cx: Context, e: Expr, b: Binder, args: seq<Lit>, more: seq<SqlTok>)
    requires HavingBound(cx, e, b, args) && IsComparison(e) && more != [] && Follows(more)
    ensures var r := ReadInfix(TranslateHaving(cx, e, b).value.sql + more, args);
            r.None? || (more[0].RP? && r.value.rest == more[1..])
  {
    hide Upper, LiteralValue, TranslateScalar, ScalarOk, Resolved, TranslateHaving, ReadTerm;
    ComparisonParts(cx, e, b, args);
    var left := TranslateScalar(cx, e.left, b).value;
    var ph := Ph(left.b.idx + 1);
    var tail := [Sym(e.op), ph] + more;
    ScalarReads(cx, e.left, b, args, tail);
    assert TranslateHaving(cx, e, b).value.sql + more == left.sql + tail && tail[1..] == [ph] + more;
    PlaceholderReads(ph, more, args);
  }

  lemma PlaceholderReads(ph: SqlTok, more: seq<SqlTok>, args: seq<Lit>)
    requires Bound(args, ph)
    ensures ReadTerm([ph] + more, args) == Some(Read(TArg(Arg(args, ph)), more))
  {
    assert ([ph] + more)[1..] == more;
  }

  /** A parenthesised condition is never a comparison: at most it is a scalar with no comparison after it. */
  lemma ParenIsNoComparison(cx: Context, e: Expr, b: Binder, args: seq<Lit>, val: HavingValuation)
    requires HavingBound(cx, e, b, args)
    ensures NoTest(HavingReader(args, val), Text(HavingTree(cx, e, b, val)))
  {
    hide HavingOk, TranslateHaving, HavingTree, ReadTerm, ReadInfix;
    var ts := Text(HavingTree(cx, e, b, val));
    forall rest: seq<SqlTok> | Follows(rest)
      ensures ReadComparison([LP] + ts + [RP] + rest, args, val) == None
    {
      NoOperation(cx, e, b, args, val, [RP] + rest);
      assert [LP] + ts + [RP] + rest == [LP] + (ts + ([RP] + rest));
      OpensInfix(ts + ([RP] + rest), args);
      assert ([RP] + rest)[1..] == rest;
    }
  }

  /** The same for the inside of a disjunction. */
  lemma EitherIsNoComparison(cx: Context, e: Expr, b: Binder, args: seq<Lit>, val: HavingValuation, right: seq<SqlTok>)
    requires HavingBound(cx, e, b, args)
    ensures NoTest(HavingReader(args, val), Text(HavingTree(cx, e, b, val)) + [KOr] + right)
  {
    hide HavingOk, TranslateHaving, HavingTree, ReadTerm, ReadInfix;
    var ts := Text(HavingTree(cx, e, b, val));
    forall rest: seq<SqlTok> | Follows(rest)
      ensures ReadComparison([LP] + (ts + [KOr] + right) + [RP] + rest, args, val) == None
    {
      var tail := [KOr] + right + [RP] + rest;
      NoOperation(cx, e, b, args, val, tail);
      assert [LP] + (ts + [KOr] + right) + [RP] + rest == [LP] + (ts + tail);
      OpensInfix(ts + tail, args);
    }
  }

  lemma {:induction false} HavingSound(cx: Context, e: Expr, b: Binder, args: seq<Lit>, val: HavingValuation)
    requires HavingBound(cx, e, b, args)
    ensures Sound(HavingReader(args, val), HavingTree(cx, e, b, val))
  {
    hide Upper, LiteralValue, TranslateScalar, ScalarOk, Resolved, ReadsAs, NoTest, HavingReader;
    match e
    case Infix(l, op, r) =>
      if op == "AND" || op == "OR" {
        HavingHalves(cx, e, b, args);
        var b1 := TranslateHaving(cx, l, b).value.b;
        HavingSound(cx, l, b, args, val);
        HavingSound(cx, r, b1, args, val);
        EitherIsNoComparison(cx, l, b, args, val, Text(HavingTree(cx, r, b1, val)));
      } else {
        ComparisonReads(cx, e, b, args, val);
      }
    case Prefix(_, r) =>
      HavingSound(cx, r, b, args, val);
      ParenIsNoComparison(cx, r, b, args, val);
  }

  /**
   * Every accepted HAVING, read as SQL with its arguments bound, has the source's truth value under every
   * valuation of its comparisons, although a parenthesis may open a scalar as well as a condition.
   */
  lemma HavingReadsAsMeant(cx: Context, e: Expr, b: Binder, val: HavingValuation)
    requires BinderOk(b) && HavingOk(cx, e)
    ensures TranslateHaving(cx, e, b).Some?
    ensures var out := TranslateHaving(cx, e, b).value;
            ReadWhole(out.sql, HavingReader(out.b.args, val)) == Some(HavingMeaning(cx, e, val))
  {
    hide ReadWhole, HavingOk, Sound, HavingTree;
    HavingOkTranslates(cx, e, b);
    var out := TranslateHaving(cx, e, b).value;
    HavingText(cx, e, b, val);
    HavingSound(cx, e, b, out.b.args, val);
    WholeReads(HavingReader(out.b.args, val), HavingTree(cx, e, b, val));
  }

  // ----- HAVING inside the statement -----

  /** Where the HAVING condition stands in the statement. */
  lemma HavingParts(q: Select, table: string, tenant: string, c: Clauses)
    returns (front: seq<SqlTok>, tail: seq<SqlTok>)
    requires q.having.Some?
    ensures Assembled(q, table, tenant, c) == front + ([Sym("HAVING")] + c.having.sql) + tail
    ensures front == [SelectKeyword(q.distinct)] + c.columns.sql + [Sym("FROM"), Sym(table)]
              + Headed(HasCondition(q, tenant), "WHERE", c.condition.sql)
              + Headed(q.groupBy != [], "GROUP BY", c.groupBy.sql)
    ensures EndsClause(tail)
  {
    front := [SelectKeyword(q.distinct)] + c.columns.sql + [Sym("FROM"), Sym(table)]
      + Headed(HasCondition(q, tenant), "WHERE", c.condition.sql) + Headed(q.groupBy != [], "GROUP BY", c.groupBy.sql);
    hide Headed, EndsClause;
    var o, l := Headed(q.orderBy != [], "ORDER BY", c.orderBy.sql), Headed(q.top.Some?, "LIMIT", c.limit.sql);
    tail := o + l;
    HeadEnds(q.orderBy != [], "ORDER BY", c.orderBy.sql);
    HeadEnds(q.top.Some?, "LIMIT", c.limit.sql);
    EndsJoin(o, l);
    PresentHead("HAVING", c.having.sql);
    RegroupTwo(front + ([Sym("HAVING")] + c.having.sql), o, l);
  }

  lemma RegroupTwo(p: seq<SqlTok>, o: seq<SqlTok>, l: seq<SqlTok>)
    ensures p + o + l == p + (o + l)
  {
  }

  /**
   * In the statement's own text, with its final arguments, what stands between HAVING and the next clause
   * reads as the source's condition under every valuation.
   */
  lemma StatementHavingReads(cx: Context, table: Option<string>, q: Select, tenant: string)
    requires Generated(cx, table, q, tenant).Some? && q.having.Some? && HavingOk(cx, q.having.value)
    ensures var out, c := Generated(cx, table, q, tenant).value, TranslateClauses(cx, q, tenant).value;
            exists cond, tail ::
              && out.sql == [SelectKeyword(q.distinct)] + c.columns.sql + [Sym("FROM"), Sym(table.value)]
                 + Headed(HasCondition(q, tenant), "WHERE", c.condition.sql)
                 + Headed(q.groupBy != [], "GROUP BY", c.groupBy.sql) + ([Sym("HAVING")] + cond) + tail
              && EndsClause(tail)
              && forall val ::
                   ReadWhole(cond, HavingReader(out.b.args, val)) == Some(HavingMeaning(cx, q.having.value, val))
  {
    hide InOrder, TranslateItems, WhereClause, ReadWhole, HavingOk, LimitClause, Assembled, ClausesInOrder, EndsClause;
    hide TranslateHaving, Headed, HavingTree, Sound;
    var c, e := TranslateClauses(cx, q, tenant).value, q.having.value;
    TranslatedInOrder(cx, q, tenant);
    ArgsPersist(c);
    forall val
      ensures ReadWhole(c.having.sql, HavingReader(c.limit.b.args, val)) == Some(HavingMeaning(cx, e, val))
    {
      HavingText(cx, e, c.groupBy.b, val);
      HavingSound(cx, e, c.groupBy.b, c.limit.b.args, val);
      WholeReads(HavingReader(c.limit.b.args, val), HavingTree(cx, e, c.groupBy.b, val));
    }
    var front, tail := HavingParts(q, table.value, tenant, c);
  }
}
