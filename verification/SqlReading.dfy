/** Reading the generated WHERE back with SQL's precedence gives the source's truth value. */
module SqlReading {
  import opened Basics
  import opened OqlAst
  import opened SqlText
  import opened SqlConditions
  import opened SqlGeneration

  lemma ArgBound(b: Binder, v: Lit, args: seq<Lit>)
    requires BinderOk(b) && b.args + [v] <= args
    ensures Bound(args, Ph(b.idx + 1)) && Arg(args, Ph(b.idx + 1)) == v
  {
  }

  lemma {:induction false} ListReads(vs: seq<Expr>, b: Binder, args: seq<Lit>, rest: seq<SqlTok>)
    requires BinderOk(b) && TranslateValues(vs, b).Some?
    requires TranslateValues(vs, b).value.b.args <= args
    ensures forall v :: v in vs ==> LiteralValue(v).Some?
    ensures ReadList(TranslateValues(vs, b).value.sql + [RP] + rest, args) == Some(Read(LitValues(vs), rest))
  {
    ValuesIff(vs, b);
    var out := TranslateValues(vs, b).value;
    var ts := out.sql + [RP] + rest;
    if vs == [] {
      assert ts == [RP] + rest && ts[1..] == rest;
    } else {
      var v := LiteralValue(vs[0]).value;
      var (b1, ph) := AddArg(b, v);
      ValuesInOrder(vs[1..], b1);
      var more := TranslateValues(vs[1..], b1).value;
      assert b.args + [v] <= args;
      ArgBound(b, v, args);
      ListReads(vs[1..], b1, args, rest);
      if |vs| == 1 {
        assert vs[1..] == [];
        assert ts == [ph, RP] + rest && ts[2..] == rest;
        assert LitValues(vs) == [v] + LitValues(vs[1..]) == [v];
      } else {
        assert ts == [ph, Comma] + (more.sql + [RP] + rest);
        assert ts[2..] == more.sql + [RP] + rest;
      }
    }
  }

  // ----- the condition a WHERE is emitted as -----

  function Negatable(not: bool, test: Cond): Cond {
    if not then Not(test) else test
  }

  /** The tests of a translated WHERE, with their texts and their values, connected as in the source. */
  function WhereTree(cx: Context, e: Expr, b: Binder, val: Valuation): Cond
    requires TranslateWhere(cx, e, b).Some? && Accepted(cx, e)
  {
    match e
    case Infix(l, op, r) =>
      if op == "AND" || op == "OR" then
        var left := TranslateWhere(cx, l, b).value;
        var lt, rt := WhereTree(cx, l, b, val), WhereTree(cx, r, left.b, val);
        if op == "AND" then Both(lt, rt) else Either(lt, rt)
      else Test(TranslateWhere(cx, e, b).value.sql, Meaning(cx, e, val))
    case Prefix(_, r) => Not(WhereTree(cx, r, b, val))
    case IsNull(_, _) => Test(TranslateWhere(cx, e, b).value.sql, Meaning(cx, e, val))
    case Between(x, low, high, not) =>
      var c := cx.column(ExprToString(cx, x)).value;
      Negatable(not, Test([Col(c), KBetween, Ph(b.idx + 1), KAnd, Ph(b.idx + 2)],
                          val(BetweenTest(c, LiteralValue(low).value, LiteralValue(high).value))))
    case InList(x, values, not, _) =>
      var c := cx.column(ExprToString(cx, x)).value;
      Negatable(not,
        Test([Col(c), KIn, LP] + TranslateValues(values, b).value.sql + [RP], val(InTest(c, LitValues(values)))))
    case Like(x, pattern, not, _) =>
      var c := cx.column(ExprToString(cx, x)).value;
      Negatable(not, Test([Col(c), KLike, Ph(b.idx + 1)], val(LikeTest(c, LiteralValue(pattern).value))))
  }

  /** The emitted text is that condition's, and the condition has the source's truth value. */
  lemma {:induction false} WhereText(cx: Context, e: Expr, b: Binder, val: Valuation)
    requires TranslateWhere(cx, e, b).Some? && Accepted(cx, e)
    ensures Text(WhereTree(cx, e, b, val)) == TranslateWhere(cx, e, b).value.sql
    ensures TruthOf(WhereTree(cx, e, b, val)) == Meaning(cx, e, val)
  {
    hide Upper, LiteralValue, Connected;
    match e
    case Infix(l, op, r) =>
      if op == "AND" || op == "OR" {
        var left := TranslateWhere(cx, l, b).value;
        WhereText(cx, l, b, val);
        WhereText(cx, r, left.b, val);
        ConnectedText(op, left, TranslateWhere(cx, r, left.b).value, WhereTree(cx, l, b, val),
                      WhereTree(cx, r, left.b, val));
      }
    case Prefix(_, r) =>
      WhereText(cx, r, b, val);
      NegatedText(TranslateWhere(cx, r, b).value.sql);
    case IsNull(_, _) =>
    case Between(_, _, _, not) =>
      NegatableText(not, if not then WhereTree(cx, e, b, val).c else WhereTree(cx, e, b, val));
    case InList(_, _, not, _) =>
      NegatableText(not, if not then WhereTree(cx, e, b, val).c else WhereTree(cx, e, b, val));
    case Like(_, _, not, _) => NegatableText(not, if not then WhereTree(cx, e, b, val).c else WhereTree(cx, e, b, val));
  }

  lemma ConnectedText(op: string, left: Emitted, right: Emitted, l: Cond, r: Cond)
    requires Text(l) == left.sql && Text(r) == right.sql
    ensures Text(if op == "AND" then Both(l, r) else Either(l, r)) == Connected(op, left, right).sql
  {
    assert [LP] + (left.sql + [KOr] + right.sql) + [RP] == [LP] + left.sql + [KOr] + right.sql + [RP];
  }

  lemma NegatableText(not: bool, test: Cond)
    ensures Text(Negatable(not, test)) == MaybeNot(not, Text(test))
    ensures TruthOf(Negatable(not, test)) == TMaybeNot(not, TruthOf(test))
  {
    NegatedText(Text(test));
  }

  lemma NegatedText(ts: seq<SqlTok>)
    ensures [KNot, LP] + ts + [RP] == [KNot] + ([LP] + ts + [RP])
  {
  }

  // ----- its tests read as tests -----

  /** Everything the translator was asked to do has been bound by the time the text is read. */
  ghost predicate Bindable(cx: Context, e: Expr, b: Binder, args: seq<Lit>) {
    && BinderOk(b) && Accepted(cx, e) && PlainOps(e)
    && TranslateWhere(cx, e, b).Some? && TranslateWhere(cx, e, b).value.b.args <= args
  }

  lemma ParenIsNoTest(args: seq<Lit>, val: Valuation, ts: seq<SqlTok>)
    ensures NoTest(WhereReader(args, val), ts)
  {
  }

  lemma ColumnTestReads(cx: Context, e: Expr, b: Binder, args: seq<Lit>, val: Valuation)
    requires Bindable(cx, e, b, args) && (e.IsNull? || (e.Infix? && e.op != "AND" && e.op != "OR"))
    ensures ReadsAs(WhereReader(args, val), TranslateWhere(cx, e, b).value.sql, Meaning(cx, e, val))
  {
    hide Upper;
    var sql := TranslateWhere(cx, e, b).value.sql;
    forall rest: seq<SqlTok> | Follows(rest)
      ensures ReadTest(sql + rest, args, val) == Some(Read(Meaning(cx, e, val), rest))
    {
      var ts := sql + rest;
      if e.Infix? {
        ArgBound(b, LiteralValue(e.right).value, args);
      }
      assert ts[|sql|..] == rest;
    }
  }

  lemma BetweenReads(c: string, lo: Lit, hi: Lit, b: Binder, args: seq<Lit>, val: Valuation)
    requires BinderOk(b) && b.args + [lo] + [hi] <= args
    ensures ReadsAs(WhereReader(args, val), [Col(c), KBetween, Ph(b.idx + 1), KAnd, Ph(b.idx + 2)],
                    val(BetweenTest(c, lo, hi)))
  {
    var sql := [Col(c), KBetween, Ph(b.idx + 1), KAnd, Ph(b.idx + 2)];
    assert b.args + [lo] <= b.args + [lo] + [hi];
    ArgBound(b, lo, args);
    ArgBound(Binder(b.args + [lo], b.idx + 1), hi, args);
    forall rest: seq<SqlTok> | Follows(rest)
      ensures ReadTest(sql + rest, args, val) == Some(Read(val(BetweenTest(c, lo, hi)), rest))
    {
      assert (sql + rest)[5..] == rest;
    }
  }

  lemma LikeReads(c: string, v: Lit, b: Binder, args: seq<Lit>, val: Valuation)
    requires BinderOk(b) && b.args + [v] <= args
    ensures ReadsAs(WhereReader(args, val), [Col(c), KLike, Ph(b.idx + 1)], val(LikeTest(c, v)))
  {
    ArgBound(b, v, args);
    forall rest: seq<SqlTok> | Follows(rest)
      ensures ReadTest([Col(c), KLike, Ph(b.idx + 1)] + rest, args, val) == Some(Read(val(LikeTest(c, v)), rest))
    {
      assert ([Col(c), KLike, Ph(b.idx + 1)] + rest)[3..] == rest;
    }
  }

  lemma InReads(c: string, vs: seq<Expr>, b: Binder, args: seq<Lit>, val: Valuation)
    requires BinderOk(b) && TranslateValues(vs, b).Some? && TranslateValues(vs, b).value.b.args <= args
    requires forall v :: v in vs ==> LiteralValue(v).Some?
    ensures ReadsAs(WhereReader(args, val), [Col(c), KIn, LP] + TranslateValues(vs, b).value.sql + [RP],
                    val(InTest(c, LitValues(vs))))
  {
    hide ReadList;
    var list := TranslateValues(vs, b).value.sql;
    var sql := [Col(c), KIn, LP] + list + [RP];
    forall rest: seq<SqlTok> | Follows(rest)
      ensures ReadTest(sql + rest, args, val) == Some(Read(val(InTest(c, LitValues(vs))), rest))
    {
      ListReads(vs, b, args, rest);
      assert (sql + rest)[3..] == list + [RP] + rest;
    }
  }

  lemma NegatableSound(leaf: TestReader, not: bool, ts: seq<SqlTok>, v: Tri)
    requires ReadsAs(leaf, ts, v) && NoTest(leaf, ts)
    ensures Sound(leaf, Negatable(not, Test(ts, v)))
  {
  }

  /** The two halves of a connective: the right one is bound after the left one. */
  lemma Halves(cx: Context, e: Expr, b: Binder, args: seq<Lit>)
    requires Bindable(cx, e, b, args) && e.Infix? && (e.op == "AND" || e.op == "OR")
    ensures Bindable(cx, e.left, b, args)
    ensures Bindable(cx, e.right, TranslateWhere(cx, e.left, b).value.b, args)
  {
    hide PlainOps, Accepted, Upper;
    var left := TranslateWhere(cx, e.left, b).value;
    WhereInOrder(cx, e.left, b);
    WhereInOrder(cx, e.right, left.b);
    assert PlainOps(e.left) && PlainOps(e.right) by {
      PlainHalves(e);
    }
    assert Accepted(cx, e.left) && Accepted(cx, e.right) by {
      TranslatesIff(cx, e.left, b);
      TranslatesIff(cx, e.right, left.b);
    }
  }

  lemma PlainHalves(e: Expr)
    requires PlainOps(e) && e.Infix? && (e.op == "AND" || e.op == "OR")
    ensures PlainOps(e.left) && PlainOps(e.right)
  {
  }

  lemma {:induction false} WhereSound(cx: Context, e: Expr, b: Binder, args: seq<Lit>, val: Valuation)
    requires Bindable(cx, e, b, args)
    ensures Sound(WhereReader(args, val), WhereTree(cx, e, b, val))
  {
    hide Upper, LiteralValue, ReadsAs, NoTest, WhereReader;
    match e
    case Infix(l, op, r) =>
      if op == "AND" || op == "OR" {
        Halves(cx, e, b, args);
        var b1 := TranslateWhere(cx, l, b).value.b;
        WhereSound(cx, l, b, args, val);
        WhereSound(cx, r, b1, args, val);
        ParenIsNoTest(args, val, Text(WhereTree(cx, l, b, val)) + [KOr] + Text(WhereTree(cx, r, b1, val)));
      } else {
        ColumnTestReads(cx, e, b, args, val);
      }
    case Prefix(_, r) =>
      WhereSound(cx, r, b, args, val);
      ParenIsNoTest(args, val, Text(WhereTree(cx, r, b, val)));
    case IsNull(_, _) => ColumnTestReads(cx, e, b, args, val);
    case _ => TestSound(cx, e, b, args, val);
  }

  lemma TestSound(cx: Context, e: Expr, b: Binder, args: seq<Lit>, val: Valuation)
    requires Bindable(cx, e, b, args) && (e.Between? || e.InList? || e.Like?)
    ensures Sound(WhereReader(args, val), WhereTree(cx, e, b, val))
  {
    hide Upper, LiteralValue, ReadsAs, NoTest, WhereReader, Sound, Negatable;
    var c := cx.column(ExprToString(cx, e.expr)).value;
    match e
    case Between(_, low, high, not) =>
      var lo, hi, ts := LiteralValue(low).value, LiteralValue(high).value,
        [Col(c), KBetween, Ph(b.idx + 1), KAnd, Ph(b.idx + 2)];
      BetweenReads(c, lo, hi, b, args, val);
      ParenIsNoTest(args, val, ts);
      NegatableSound(WhereReader(args, val), not, ts, val(BetweenTest(c, lo, hi)));
    case InList(_, values, not, _) =>
      var ts := [Col(c), KIn, LP] + TranslateValues(values, b).value.sql + [RP];
      InReads(c, values, b, args, val);
      ParenIsNoTest(args, val, ts);
      NegatableSound(WhereReader(args, val), not, ts, val(InTest(c, LitValues(values))));
    case Like(_, pattern, not, _) =>
      var v, ts := LiteralValue(pattern).value, [Col(c), KLike, Ph(b.idx + 1)];
      LikeReads(c, v, b, args, val);
      ParenIsNoTest(args, val, ts);
      NegatableSound(WhereReader(args, val), not, ts, val(LikeTest(c, v)));
  }

  // ----- main results -----

  /**
   * Every accepted WHERE, read as SQL with its arguments bound, has the source's truth value under
   * every valuation of its elementary tests, unknown included.
   */
  lemma WhereReadsAsMeant(cx: Context, e: Expr, b: Binder, val: Valuation)
    requires BinderOk(b) && Accepted(cx, e) && PlainOps(e)
    ensures TranslateWhere(cx, e, b).Some?
    ensures var out := TranslateWhere(cx, e, b).value;
            ReadCondition(out.sql, out.b.args, val) == Some(Meaning(cx, e, val))
  {
    hide ReadWhole, PlainOps, Accepted, Sound, WhereTree;
    TranslatesIff(cx, e, b);
    var out := TranslateWhere(cx, e, b).value;
    WhereText(cx, e, b, val);
    WhereSound(cx, e, b, out.b.args, val);
    WholeReads(WhereReader(out.b.args, val), WhereTree(cx, e, b, val));
  }

  /**
   * A comparison, of whatever column and literal and whatever was bound before it, reads back as itself
   * under every valuation exactly when its operator is not spelled like an SQL keyword: "and" ends the
   * comparison early, and an infix LIKE reads as a pattern test.
   */
  lemma ComparisonReadsIff(cx: Context, e: Expr, b: Binder)
    requires BinderOk(b) && Accepted(cx, e) && e.Infix? && e.op != "AND" && e.op != "OR"
    ensures TranslateWhere(cx, e, b).Some?
    ensures var out := TranslateWhere(cx, e, b).value;
            (forall val :: ReadCondition(out.sql, out.b.args, val) == Some(Meaning(cx, e, val))) <==> OpTok(e.op).Sym?
  {
    hide Upper, LiteralValue, ReadWhole, ReadTest;
    TranslatesIff(cx, e, b);
    var out := TranslateWhere(cx, e, b).value;
    if OpTok(e.op).Sym? {
      forall val ensures ReadCondition(out.sql, out.b.args, val) == Some(Meaning(cx, e, val)) {
        WhereReadsAsMeant(cx, e, b, val);
      }
    } else {
      var c, v := cx.column(ExprToString(cx, e.left)).value, LiteralValue(e.right).value;
      var val := (leaf: Leaf) => if leaf.LikeTest? then True else False;
      assert out.sql == [Col(c), OpTok(e.op), Ph(b.idx + 1)];
      ArgBound(b, v, out.b.args);
      KeywordReadsOtherwise(c, OpTok(e.op), b.idx, v, out.b.args, val);
      assert Meaning(cx, e, val) == False;
    }
  }

  lemma KeywordReadsOtherwise(c: string, op: SqlTok, n: nat, v: Lit, args: seq<Lit>, val: Valuation)
    requires op.KAnd? || op.KOr? || op.KNot? || op.KBetween? || op.KIn? || op.KLike? || op.KIs?
    requires Bound(args, Ph(n + 1)) && Arg(args, Ph(n + 1)) == v
    ensures ReadCondition([Col(c), op, Ph(n + 1)], args, val) == if op.KLike? then Some(val(LikeTest(c, v))) else None
  {
    var ts, leaf := [Col(c), op, Ph(n + 1)], WhereReader(args, val);
    if op.KLike? {
      assert ReadsAs(leaf, ts, val(LikeTest(c, v))) by {
        forall rest: seq<SqlTok> | Follows(rest)
          ensures ReadTest(ts + rest, args, val) == Some(Read(val(LikeTest(c, v)), rest))
        {
          assert (ts + rest)[3..] == rest;
        }
      }
      WholeReads(leaf, Test(ts, val(LikeTest(c, v))));
    } else {
      assert ReadTest(ts, args, val) == None;
      assert ReadNot(ts, leaf) == None;
      assert ReadAnd(ts, leaf) == None;
    }
  }
}
