/** Translating a query on an adapted entity into SQL text with positional placeholders. */
module SqlGeneration {
  import opened Basics
  import opened OqlAst
  import opened SqlText

  /**
   * What the store and the dialect tell the generator: native column names, the renaming of scalar
   * functions (as SQLiteDialect does), and the printed form of expressions other than names.
   */
  datatype Context = Context(
    column: string -> Option<string>,
    scalarFunction: string -> Option<string>,
    print_: Expr -> string)

  function ExprToString(cx: Context, e: Expr): string {
    match e
    case Ident(name) => name
    case Qualified(path) => path
    case _ => cx.print_(e)
  }

  /** The shared argument list and its counter. */
  datatype Binder = Binder(args: seq<Lit>, idx: nat)

  function AddArg(b: Binder, v: Lit): (Binder, SqlTok) {
    (Binder(b.args + [v], b.idx + 1), Ph(b.idx + 1))
  }

  datatype Emitted = Emitted(sql: seq<SqlTok>, b: Binder)

  /** literalValueFromExpr: an identifier that is not TRUE or FALSE is taken as a string. */
  function LiteralValue(e: Expr): Option<Lit> {
    match e
    case IntLit(n) => Some(LInt(n))
    case FloatLit(x) => Some(LFloat(x))
    case StrLit(s) => Some(LStr(s))
    case NullLit => Some(LNull)
    case Ident(name) =>
      Some(if IsTrueName(name) then LBool(true) else if IsFalseName(name) then LBool(false) else LStr(name))
    case _ => None
  }

  /** A comparison operator is emitted as it is spelled, and SQL keywords are case-insensitive. */
  function OpTok(op: string): SqlTok {
    if Upper(op) == "AND" then KAnd else if Upper(op) == "OR" then KOr else if Upper(op) == "NOT" then KNot
    else if Upper(op) == "BETWEEN" then KBetween else if Upper(op) == "IN" then KIn
    else if Upper(op) == "LIKE" then KLike else if Upper(op) == "IS" then KIs else Sym(op)
  }

  function MaybeNot(not: bool, ts: seq<SqlTok>): seq<SqlTok> {
    if not then [KNot, LP] + ts + [RP] else ts
  }

  // ----- WHERE -----

  /** AND is emitted bare, OR in parentheses. */
  function Connected(op: string, left: Emitted, right: Emitted): Emitted {
    Emitted(if op == "AND" then left.sql + [KAnd] + right.sql else [LP] + left.sql + [KOr] + right.sql + [RP], right.b)
  }

  /** The placeholder list of IN: one argument per literal. */
  function TranslateValues(vs: seq<Expr>, b: Binder): Option<Emitted> {
    if vs == [] then Some(Emitted([], b))
    else
      var v := LiteralValue(vs[0]);
      if v.None? then None
      else
        var (b1, ph) := AddArg(b, v.value);
        match TranslateValues(vs[1..], b1)
        case None => None
        case Some(more) => Some(Emitted(if |vs| == 1 then [ph] else [ph, Comma] + more.sql, more.b))
  }

  function TranslateWhere(cx: Context, e: Expr, b: Binder): Option<Emitted> {
    match e
    case Infix(l, op, r) =>
      if op == "AND" || op == "OR" then
        match TranslateWhere(cx, l, b)
        case None => None
        case Some(left) =>
          (match TranslateWhere(cx, r, left.b)
           case None => None
           case Some(right) =>
             Some(Connected(op, left, right)))
      else
        var c, v := cx.column(ExprToString(cx, l)), LiteralValue(r);
        if c.None? || v.None? then None
        else
          var (b1, ph) := AddArg(b, v.value);
          Some(Emitted([Col(c.value), OpTok(op), ph], b1))
    case Prefix(op, r) =>
      if op != "NOT" then None
      else
        (match TranslateWhere(cx, r, b)
         case None => None
         case Some(inner) => Some(Emitted([KNot, LP] + inner.sql + [RP], inner.b)))
    case IsNull(x, not) =>
      var c := cx.column(ExprToString(cx, x));
      if c.None? then None
      else Some(Emitted(if not then [Col(c.value), KIs, KNot, KNull] else [Col(c.value), KIs, KNull], b))
    case Between(x, low, high, not) =>
      var c, lo, hi := cx.column(ExprToString(cx, x)), LiteralValue(low), LiteralValue(high);
      if c.None? || lo.None? || hi.None? then None
      else
        var (b1, p1) := AddArg(b, lo.value);
        var (b2, p2) := AddArg(b1, hi.value);
        Some(Emitted(MaybeNot(not, [Col(c.value), KBetween, p1, KAnd, p2]), b2))
    case InList(x, values, not, _) =>
      var c := cx.column(ExprToString(cx, x));
      if c.None? then None
      else
        (match TranslateValues(values, b)
         case None => None
         case Some(list) => Some(Emitted(MaybeNot(not, [Col(c.value), KIn, LP] + list.sql + [RP]), list.b)))
    case Like(x, pattern, not, _) =>
      var c, v := cx.column(ExprToString(cx, x)), LiteralValue(pattern);
      if c.None? || v.None? then None
      else
        var (b1, ph) := AddArg(b, v.value);
        Some(Emitted(MaybeNot(not, [Col(c.value), KLike, ph]), b1))
    case _ => None
  }

  // ----- the meaning of an accepted WHERE -----

  function LitValues(vs: seq<Expr>): seq<Lit>
    requires forall v :: v in vs ==> LiteralValue(v).Some?
  {
    if vs == [] then [] else [LiteralValue(vs[0]).value] + LitValues(vs[1..])
  }

  function TMaybeNot(not: bool, a: Tri): Tri {
    if not then TNot(a) else a
  }

  /** Accepted by the translator: columns exist and the other operands are literals. */
  predicate Accepted(cx: Context, e: Expr) {
    match e
    case Infix(l, op, r) =>
      if op == "AND" || op == "OR" then Accepted(cx, l) && Accepted(cx, r)
      else cx.column(ExprToString(cx, l)).Some? && LiteralValue(r).Some?
    case Prefix(op, r) => op == "NOT" && Accepted(cx, r)
    case IsNull(x, _) => cx.column(ExprToString(cx, x)).Some?
    case Between(x, low, high, _) =>
      cx.column(ExprToString(cx, x)).Some? && LiteralValue(low).Some? && LiteralValue(high).Some?
    case InList(x, values, _, _) => cx.column(ExprToString(cx, x)).Some? && forall v :: v in values ==>
      LiteralValue(v).Some?
    case Like(x, pattern, _, _) => cx.column(ExprToString(cx, x)).Some? && LiteralValue(pattern).Some?
    case _ => false
  }

  /** The source's truth value, over any valuation of the elementary tests. */
  function Meaning(cx: Context, e: Expr, val: Valuation): Tri
    requires Accepted(cx, e)
  {
    match e
    case Infix(l, op, r) =>
      if op == "AND" then TAnd(Meaning(cx, l, val), Meaning(cx, r, val))
      else if op == "OR" then TOr(Meaning(cx, l, val), Meaning(cx, r, val))
      else val(Compare(cx.column(ExprToString(cx, l)).value, op, LiteralValue(r).value))
    case Prefix(_, r) => TNot(Meaning(cx, r, val))
    case IsNull(x, not) => val(NullTest(cx.column(ExprToString(cx, x)).value, not))
    case Between(x, low, high, not) =>
      TMaybeNot(not,
        val(BetweenTest(cx.column(ExprToString(cx, x)).value, LiteralValue(low).value, LiteralValue(high).value)))
    case InList(x, values, not, _) =>
      TMaybeNot(not, val(InTest(cx.column(ExprToString(cx, x)).value, LitValues(values))))
    case Like(x, pattern, not, _) =>
      TMaybeNot(not, val(LikeTest(cx.column(ExprToString(cx, x)).value, LiteralValue(pattern).value)))
  }

  /** No comparison operator is a differently-cased SQL keyword. */
  predicate PlainOps(e: Expr) {
    match e
    case Infix(l, op, r) => if op == "AND" || op == "OR" then PlainOps(l) && PlainOps(r) else OpTok(op).Sym?
    case Prefix(_, r) => PlainOps(r)
    case _ => true
  }

  predicate BinderOk(b: Binder) {
    b.idx == |b.args|
  }

  /** `b'` continues `b`: arguments are only appended. */
  predicate Extends(b: Binder, b': Binder) {
    BinderOk(b) && BinderOk(b') && b.args <= b'.args
  }

  lemma ExtendsTrans(a: Binder, b: Binder, c: Binder)
    requires Extends(a, b) && Extends(b, c)
    ensures Extends(a, c)
  {
  }

  lemma {:induction false} ValuesIff(vs: seq<Expr>, b: Binder)
    ensures TranslateValues(vs, b).Some? <==> forall v :: v in vs ==> LiteralValue(v).Some?
  {
    if vs != [] {
      ValuesIff(vs[1..], AddArg(b, LNull).0);
      if LiteralValue(vs[0]).Some? {
        ValuesIff(vs[1..], AddArg(b, LiteralValue(vs[0]).value).0);
        assert vs == [vs[0]] + vs[1..];
      } else {
        assert vs[0] in vs;
      }
    }
  }

  /** The translator succeeds exactly on accepted trees, whatever has been bound so far. */
  lemma {:induction false} TranslatesIff(cx: Context, e: Expr, b: Binder)
    ensures TranslateWhere(cx, e, b).Some? <==> Accepted(cx, e)
  {
    match e
    case Infix(l, op, r) =>
      if op == "AND" || op == "OR" {
        TranslatesIff(cx, l, b);
        if Accepted(cx, l) {
          TranslatesIff(cx, r, TranslateWhere(cx, l, b).value.b);
        }
      }
    case Prefix(op, r) => TranslatesIff(cx, r, b);
    case InList(x, values, not, _) => ValuesIff(values, b);
    case _ =>
  }

  // ----- placeholders of WHERE -----

  /** Emitted text and binder agree: placeholders continue the count, arguments are appended. */
  ghost predicate InOrder(b: Binder, out: Emitted) {
    Extends(b, out.b) && Numbered(out.sql, b.idx, out.b.idx)
  }

  lemma {:induction false} ValuesInOrder(vs: seq<Expr>, b: Binder)
    requires BinderOk(b) && TranslateValues(vs, b).Some?
    ensures InOrder(b, TranslateValues(vs, b).value)
  {
    hide Numbered;
    if vs == [] {
      NumberedNone(b.idx);
    } else {
      var (b1, ph) := AddArg(b, LiteralValue(vs[0]).value);
      ValuesInOrder(vs[1..], b1);
      var more := TranslateValues(vs[1..], b1).value;
      NumberedOne(b.idx);
      if |vs| > 1 {
        NumberedPlain(Comma, b1.idx);
        NumberedConcat([ph], [Comma], b.idx, b1.idx, b1.idx);
        NumberedConcat([ph] + [Comma], more.sql, b.idx, b1.idx, more.b.idx);
        assert [ph, Comma] == [ph] + [Comma];
      } else {
        assert vs[1..] == [];
      }
    }
  }

  lemma MaybeNotNumbered(not: bool, ts: seq<SqlTok>, n: nat, m: nat)
    requires Numbered(ts, n, m)
    ensures Numbered(MaybeNot(not, ts), n, m)
  {
    hide Numbered;
    NumberedWrap(LP, ts, RP, n, m);
    NumberedWrap(KNot, [LP] + ts + [RP], RP, n, m);
    assert [KNot, LP] + ts + [RP] == [KNot] + ([LP] + ts + [RP]);
  }

  lemma ColOpPh(c: SqlTok, o: SqlTok, n: nat)
    requires !c.Ph? && !o.Ph?
    ensures Numbered([c, o, Ph(n + 1)], n, n + 1)
  {
    hide Numbered;
    NumberedOne(n);
    NumberedWrap(o, [Ph(n + 1)], c, n, n + 1);
    NumberedWrap(c, [o] + [Ph(n + 1)], c, n, n + 1);
    assert [c, o, Ph(n + 1)] == [c] + ([o] + [Ph(n + 1)]);
  }

  lemma NullTestNumbered(c: string, not: bool, n: nat)
    ensures Numbered(if not then [Col(c), KIs, KNot, KNull] else [Col(c), KIs, KNull], n, n)
  {
    hide Numbered;
    NumberedPlain(KNull, n);
    NumberedWrap(KNot, [KNull], RP, n, n);
    NumberedWrap(KIs, [KNull], RP, n, n);
    NumberedWrap(KIs, [KNot] + [KNull], RP, n, n);
    NumberedWrap(Col(c), [KIs] + [KNull], RP, n, n);
    NumberedWrap(Col(c), [KIs] + ([KNot] + [KNull]), RP, n, n);
    assert [Col(c), KIs, KNull] == [Col(c)] + ([KIs] + [KNull]);
    assert [Col(c), KIs, KNot, KNull] == [Col(c)] + ([KIs] + ([KNot] + [KNull]));
  }

  lemma BetweenNumbered(c: string, n: nat)
    ensures Numbered([Col(c), KBetween, Ph(n + 1), KAnd, Ph(n + 2)], n, n + 2)
  {
    hide Numbered;
    ColOpPh(Col(c), KBetween, n);
    NumberedOne(n + 1);
    NumberedWrap(KAnd, [Ph(n + 2)], RP, n + 1, n + 2);
    NumberedConcat([Col(c), KBetween, Ph(n + 1)], [KAnd] + [Ph(n + 2)], n, n + 1, n + 2);
    assert [Col(c), KBetween, Ph(n + 1), KAnd, Ph(n + 2)] == [Col(c), KBetween, Ph(n + 1)] + ([KAnd] + [Ph(n + 2)]);
  }

  lemma InNumbered(c: string, list: seq<SqlTok>, n: nat, m: nat)
    requires Numbered(list, n, m)
    ensures Numbered([Col(c), KIn, LP] + list + [RP], n, m)
  {
    hide Numbered;
    NumberedWrap(LP, list, RP, n, m);
    NumberedWrap(KIn, [LP] + list + [RP], RP, n, m);
    NumberedWrap(Col(c), [KIn] + ([LP] + list + [RP]), RP, n, m);
    assert [Col(c), KIn, LP] + list + [RP] == [Col(c)] + ([KIn] + ([LP] + list + [RP]));
  }

  /** Everything but the connectives: one test of one column. */
  lemma TestInOrder(cx: Context, e: Expr, b: Binder)
    requires BinderOk(b) && TranslateWhere(cx, e, b).Some?
    requires e.IsNull? || e.Between? || e.InList? || e.Like?
    ensures InOrder(b, TranslateWhere(cx, e, b).value)
  {
    hide Numbered, Accepted, Upper, LiteralValue;
    var out := TranslateWhere(cx, e, b).value;
    var c := cx.column(ExprToString(cx, e.expr)).value;
    match e
    case IsNull(x, not) => NullTestNumbered(c, not, b.idx);
    case Between(x, low, high, not) =>
      BetweenNumbered(c, b.idx);
      MaybeNotNumbered(not, [Col(c), KBetween, Ph(b.idx + 1), KAnd, Ph(b.idx + 2)], b.idx, out.b.idx);
    case InList(x, values, not, _) =>
      ValuesInOrder(values, b);
      var list := TranslateValues(values, b).value;
      InNumbered(c, list.sql, b.idx, list.b.idx);
      MaybeNotNumbered(not, [Col(c), KIn, LP] + list.sql + [RP], b.idx, out.b.idx);
    case Like(x, pattern, not, _) =>
      ColOpPh(Col(c), KLike, b.idx);
      MaybeNotNumbered(not, [Col(c), KLike, Ph(b.idx + 1)], b.idx, out.b.idx);
  }

  lemma ConnectedInOrder(b: Binder, op: string, left: Emitted, right: Emitted)
    requires InOrder(b, left) && InOrder(left.b, right)
    ensures InOrder(b, Connected(op, left, right))
  {
    hide Numbered;
    ExtendsTrans(b, left.b, right.b);
    JoinNumbered(left.sql, KAnd, right.sql, b.idx, left.b.idx, right.b.idx);
    JoinNumbered(left.sql, KOr, right.sql, b.idx, left.b.idx, right.b.idx);
    NumberedWrap(LP, left.sql + [KOr] + right.sql, RP, b.idx, right.b.idx);
    assert [LP] + left.sql + [KOr] + right.sql + [RP] == [LP] + (left.sql + [KOr] + right.sql) + [RP];
  }

  lemma {:induction false} WhereInOrder(cx: Context, e: Expr, b: Binder)
    requires BinderOk(b) && TranslateWhere(cx, e, b).Some?
    ensures InOrder(b, TranslateWhere(cx, e, b).value)
  {
    hide Numbered, Accepted, Upper, LiteralValue, Connected;
    var out := TranslateWhere(cx, e, b).value;
    match e
    case Infix(l, op, r) =>
      if op == "AND" || op == "OR" {
        WhereInOrder(cx, l, b);
        var left := TranslateWhere(cx, l, b).value;
        WhereInOrder(cx, r, left.b);
        ConnectedInOrder(b, op, left, TranslateWhere(cx, r, left.b).value);
      } else {
        ColOpPh(out.sql[0], OpTok(op), b.idx);
      }
    case Prefix(op, r) =>
      WhereInOrder(cx, r, b);
      MaybeNotNumbered(true, TranslateWhere(cx, r, b).value.sql, b.idx, out.b.idx);
    case _ =>
      if e.IsNull? || e.Between? || e.InList? || e.Like? {
        TestInOrder(cx, e, b);
      }
  }

  lemma JoinNumbered(a: seq<SqlTok>, sep: SqlTok, c: seq<SqlTok>, n: nat, k: nat, m: nat)
    requires Numbered(a, n, k) && Numbered(c, k, m) && !sep.Ph?
    ensures Numbered(a + [sep] + c, n, m)
  {
    hide Numbered;
    NumberedWrap(sep, a, sep, n, k);
    NumberedConcat(a + [sep], c, n, k, m);
  }
}
