/** A whole SELECT on an adapted entity: scalars, HAVING, and the statement built clause by clause. */
module SqlStatement {
  import opened Basics
  import opened OqlAst
  import opened SqlText
  import opened SqlGeneration
  import opened SqlConditions
  import opened SqlReading

  datatype OrderItem = OrderItem(expr: Expr, descending: bool)
  datatype Top = Top(count: Expr, percent: bool, withTies: bool)

  datatype Select = Select(
    columns: seq<Expr>,
    distinct: bool,
    where_: Option<Expr>,
    groupBy: seq<Expr>,
    having: Option<Expr>,
    orderBy: seq<OrderItem>,
    top: Option<Top>)

  // ----- scalars -----

  predicate IsAggregate(name: string) {
    name == "COUNT" || name == "SUM" || name == "AVG" || name == "MIN" || name == "MAX"
  }

  predicate IsCountStar(cx: Context, args: seq<Expr>) {
    |args| == 0 || (|args| == 1 && ExprToString(cx, args[0]) == "*")
  }

  function Call1(f: string, arg: Emitted): Emitted {
    Emitted([Sym(f), LP] + arg.sql + [RP], arg.b)
  }

  function Bind(b: Binder, v: Lit): Emitted {
    Emitted([Ph(b.idx + 1)], Binder(b.args + [v], b.idx + 1))
  }

  function TranslateScalar(cx: Context, e: Expr, b: Binder): Option<Emitted>
    decreases e
  {
    match e
    case Call(func, args) =>
      var f := Upper(func);
      if IsAggregate(f) then
        if f == "COUNT" && IsCountStar(cx, args) then Some(Call1(f, Emitted([Sym("*")], b)))
        else if args == [] then None
        else
          (match TranslateScalar(cx, args[0], b)
           case None => None
           case Some(a) => Some(Call1(f, a)))
      else
        (match TranslateArguments(cx, args, b)
         case None => None
         case Some(a) =>
           match cx.scalarFunction(f)
           case None => None
           case Some(native) => Some(Call1(native, a)))
    case Ident(name) =>
      (match cx.column(name)
       case Some(c) => Some(Emitted([Col(c)], b))
       case None => if IsTrueName(name) || IsFalseName(name) then Some(Emitted([Sym(Upper(name))], b)) else None)
    case Qualified(path) =>
      (match cx.column(path)
       case Some(c) => Some(Emitted([Col(c)], b))
       case None => None)
    case IntLit(n) => Some(Bind(b, LInt(n)))
    case FloatLit(x) => Some(Bind(b, LFloat(x)))
    case StrLit(s) => Some(Bind(b, LStr(s)))
    case NullLit => Some(Emitted([KNull], b))
    case Infix(l, op, r) =>
      (match TranslateScalar(cx, l, b)
       case None => None
       case Some(left) =>
         match TranslateScalar(cx, r, left.b)
         case None => None
         case Some(right) => Some(Emitted([LP] + left.sql + [OpTok(op)] + right.sql + [RP], right.b)))
    case _ => None
  }

  /** The arguments of a function, comma-separated, left to right. */
  function TranslateArguments(cx: Context, args: seq<Expr>, b: Binder): Option<Emitted>
    decreases args
  {
    if args == [] then Some(Emitted([], b))
    else
      match TranslateScalar(cx, args[0], b)
      case None => None
      case Some(a) =>
        if |args| == 1 then Some(a)
        else
          match TranslateArguments(cx, args[1..], a.b)
          case None => None
          case Some(more) => Some(Emitted(a.sql + [Comma] + more.sql, more.b))
  }

  /** What a scalar needs of the store and the dialect; no binder in sight. */
  predicate ScalarOk(cx: Context, e: Expr)
    decreases e
  {
    match e
    case Call(func, args) =>
      if IsAggregate(Upper(func)) then
        (Upper(func) == "COUNT" && IsCountStar(cx, args)) || (args != [] && ScalarOk(cx, args[0]))
      else cx.scalarFunction(Upper(func)).Some? && forall i :: 0 <= i < |args| ==> ScalarOk(cx, args[i])
    case Ident(name) => cx.column(name).Some? || IsTrueName(name) || IsFalseName(name)
    case Qualified(path) => cx.column(path).Some?
    case IntLit(_) => true
    case FloatLit(_) => true
    case StrLit(_) => true
    case NullLit => true
    case Infix(l, _, r) => ScalarOk(cx, l) && ScalarOk(cx, r)
    case _ => false
  }

  lemma {:induction false} ArgumentsIff(cx: Context, args: seq<Expr>, b: Binder)
    ensures TranslateArguments(cx, args, b).Some? <==> forall i :: 0 <= i < |args| ==> ScalarOk(cx, args[i])
    decreases args
  {
    hide ScalarOk, TranslateScalar;
    if args != [] {
      ScalarIff(cx, args[0], b);
      if ScalarOk(cx, args[0]) {
        var a := TranslateScalar(cx, args[0], b).value;
        ArgumentsIff(cx, args[1..], a.b);
        assert forall i :: 0 < i < |args| ==> args[i] == args[1..][i - 1];
        assert (forall i :: 0 <= i < |args| ==> ScalarOk(cx, args[i]))
          <==> (forall i :: 0 <= i < |args[1..]| ==> ScalarOk(cx, args[1..][i])) by {
          if forall i :: 0 <= i < |args| ==> ScalarOk(cx, args[i]) {
            forall i | 0 <= i < |args[1..]| ensures ScalarOk(cx, args[1..][i]) {
              assert args[1..][i] == args[i + 1];
            }
          }
        }
      }
    }
  }

  /** A scalar translates or not whatever has been bound before it: a dry run decides it. */
  lemma {:induction false} ScalarIff(cx: Context, e: Expr, b: Binder)
    ensures TranslateScalar(cx, e, b).Some? <==> ScalarOk(cx, e)
    decreases e
  {
    hide Upper;
    match e
    case Call(func, args) =>
      if IsAggregate(Upper(func)) {
        if args != [] {
          ScalarIff(cx, args[0], b);
        }
      } else {
        ArgumentsIff(cx, args, b);
      }
    case Infix(l, op, r) =>
      ScalarIff(cx, l, b);
      if ScalarOk(cx, l) {
        ScalarIff(cx, r, TranslateScalar(cx, l, b).value.b);
      }
    case _ =>
  }

  lemma Call1InOrder(b: Binder, f: string, arg: Emitted)
    requires InOrder(b, arg)
    ensures InOrder(b, Call1(f, arg))
  {
    hide Numbered;
    NumberedWrap(LP, arg.sql, RP, b.idx, arg.b.idx);
    NumberedWrap(Sym(f), [LP] + arg.sql + [RP], RP, b.idx, arg.b.idx);
    assert [Sym(f), LP] + arg.sql + [RP] == [Sym(f)] + ([LP] + arg.sql + [RP]);
  }

  lemma PlainInOrder(b: Binder, t: SqlTok)
    requires BinderOk(b) && !t.Ph?
    ensures InOrder(b, Emitted([t], b))
  {
  }

  lemma BindInOrder(b: Binder, v: Lit)
    requires BinderOk(b)
    ensures InOrder(b, Bind(b, v))
  {
  }

  lemma JoinedInOrder(b: Binder, left: Emitted, sep: SqlTok, right: Emitted)
    requires InOrder(b, left) && InOrder(left.b, right) && !sep.Ph?
    ensures InOrder(b, Emitted(left.sql + [sep] + right.sql, right.b))
    ensures InOrder(b, Emitted([LP] + left.sql + [sep] + right.sql + [RP], right.b))
  {
    hide Numbered;
    ExtendsTrans(b, left.b, right.b);
    JoinNumbered(left.sql, sep, right.sql, b.idx, left.b.idx, right.b.idx);
    NumberedWrap(LP, left.sql + [sep] + right.sql, RP, b.idx, right.b.idx);
    assert [LP] + left.sql + [sep] + right.sql + [RP] == [LP] + (left.sql + [sep] + right.sql) + [RP];
  }

  lemma {:induction false} ArgumentsInOrder(cx: Context, args: seq<Expr>, b: Binder)
    requires BinderOk(b) && TranslateArguments(cx, args, b).Some?
    ensures InOrder(b, TranslateArguments(cx, args, b).value)
    decreases args
  {
    hide Numbered, TranslateScalar;
    if args == [] {
      NumberedNone(b.idx);
    } else {
      ScalarInOrder(cx, args[0], b);
      if |args| > 1 {
        var a := TranslateScalar(cx, args[0], b).value;
        ArgumentsInOrder(cx, args[1..], a.b);
        JoinedInOrder(b, a, Comma, TranslateArguments(cx, args[1..], a.b).value);
      }
    }
  }

  lemma {:induction false} ScalarInOrder(cx: Context, e: Expr, b: Binder)
    requires BinderOk(b) && TranslateScalar(cx, e, b).Some?
    ensures InOrder(b, TranslateScalar(cx, e, b).value)
    decreases e
  {
    hide Numbered, Upper, InOrder, Call1;
    match e
    case Call(func, args) =>
      var f := Upper(func);
      if IsAggregate(f) {
        if f == "COUNT" && IsCountStar(cx, args) {
          PlainInOrder(b, Sym("*"));
          Call1InOrder(b, f, Emitted([Sym("*")], b));
        } else {
          ScalarInOrder(cx, args[0], b);
          Call1InOrder(b, f, TranslateScalar(cx, args[0], b).value);
        }
      } else {
        ArgumentsInOrder(cx, args, b);
        Call1InOrder(b, cx.scalarFunction(f).value, TranslateArguments(cx, args, b).value);
      }
    case Infix(l, op, r) =>
      ScalarInOrder(cx, l, b);
      var left := TranslateScalar(cx, l, b).value;
      InOrderBinder(b, left);
      ScalarInOrder(cx, r, left.b);
      JoinedInOrder(b, left, OpTok(op), TranslateScalar(cx, r, left.b).value);
    case IntLit(n) => BindInOrder(b, LInt(n));
    case FloatLit(x) => BindInOrder(b, LFloat(x));
    case StrLit(s) => BindInOrder(b, LStr(s));
    case Ident(_) => PlainInOrder(b, TranslateScalar(cx, e, b).value.sql[0]);
    case Qualified(_) => PlainInOrder(b, TranslateScalar(cx, e, b).value.sql[0]);
    case NullLit => PlainInOrder(b, KNull);
    case _ =>
  }

  lemma InOrderBinder(b: Binder, out: Emitted)
    requires InOrder(b, out)
    ensures BinderOk(out.b)
  {
  }

  // ----- HAVING -----

  function TranslateHaving(cx: Context, e: Expr, b: Binder): Option<Emitted> {
    match e
    case Infix(l, op, r) =>
      if op == "AND" || op == "OR" then
        match TranslateHaving(cx, l, b)
        case None => None
        case Some(left) =>
          (match TranslateHaving(cx, r, left.b)
           case None => None
           case Some(right) => Some(Connected(op, left, right)))
      else
        (match TranslateScalar(cx, l, b)
         case None => None
         case Some(left) =>
           match LiteralValue(r)
           case None => None
           case Some(v) => Some(Emitted(left.sql + [OpTok(op)] + Bind(left.b, v).sql, Bind(left.b, v).b)))
    case Prefix(op, r) =>
      if op != "NOT" then None
      else
        (match TranslateHaving(cx, r, b)
         case None => None
         case Some(inner) => Some(Emitted(MaybeNot(true, inner.sql), inner.b)))
    case _ => None
  }

  /** isAdaptedHavingPushable, whose left sides are translated in a dry run. */
  predicate HavingPushable(cx: Context, e: Expr) {
    match e
    case Infix(l, op, r) =>
      if op == "AND" || op == "OR" then HavingPushable(cx, l) && HavingPushable(cx, r)
      else DryRun(cx, l) && IsLiteralOrParam(r)
    case Prefix(op, r) => op == "NOT" && HavingPushable(cx, r)
    case _ => false
  }

  lemma {:induction false} HavingIff(cx: Context, e: Expr, b: Binder)
    ensures TranslateHaving(cx, e, b).Some? <==> HavingPushable(cx, e)
  {
    hide Upper, TranslateScalar;
    match e
    case Infix(l, op, r) =>
      if op == "AND" || op == "OR" {
        HavingIff(cx, l, b);
        if HavingPushable(cx, l) {
          HavingIff(cx, r, TranslateHaving(cx, l, b).value.b);
        }
      } else {
        ScalarIff(cx, l, b);
        ScalarIff(cx, l, Binder([], 0));
      }
    case Prefix(op, r) => HavingIff(cx, r, b);
    case _ =>
  }

  lemma {:induction false} HavingInOrder(cx: Context, e: Expr, b: Binder)
    requires BinderOk(b) && TranslateHaving(cx, e, b).Some?
    ensures InOrder(b, TranslateHaving(cx, e, b).value)
  {
    hide Numbered, Upper, InOrder, Connected, TranslateScalar, LiteralValue;
    match e
    case Infix(l, op, r) =>
      if op == "AND" || op == "OR" {
        HavingInOrder(cx, l, b);
        var left := TranslateHaving(cx, l, b).value;
        InOrderBinder(b, left);
        HavingInOrder(cx, r, left.b);
        ConnectedInOrder(b, op, left, TranslateHaving(cx, r, left.b).value);
      } else {
        ScalarInOrder(cx, l, b);
        var left := TranslateScalar(cx, l, b).value;
        InOrderBinder(b, left);
        BindInOrder(left.b, LiteralValue(r).value);
        JoinedInOrder(b, left, OpTok(op), Bind(left.b, LiteralValue(r).value));
      }
    case Prefix(op, r) =>
      HavingInOrder(cx, r, b);
      NegatedInOrder(b, TranslateHaving(cx, r, b).value);
    case _ =>
  }

  lemma NegatedInOrder(b: Binder, inner: Emitted)
    requires InOrder(b, inner)
    ensures InOrder(b, Emitted(MaybeNot(true, inner.sql), inner.b))
  {
    hide Numbered;
    MaybeNotNumbered(true, inner.sql, b.idx, inner.b.idx);
  }

  // ----- the translatability test -----

  /** translateScalarExpr with a throw-away argument sink. */
  predicate DryRun(cx: Context, e: Expr) {
    TranslateScalar(cx, e, Binder([], 0)).Some?
  }

  predicate IsLiteralOrParam(e: Expr) {
    e.IntLit? || e.FloatLit? || e.StrLit? || e.NullLit? || e.Ident?
  }

  predicate IsAdaptedField(cx: Context, e: Expr) {
    match e
    case Ident(name) => cx.column(name).Some?
    case Qualified(path) => cx.column(path).Some?
    case _ => false
  }

  predicate WherePushable(cx: Context, e: Expr) {
    match e
    case Infix(l, op, r) =>
      if op == "AND" || op == "OR" then WherePushable(cx, l) && WherePushable(cx, r)
      else IsAdaptedField(cx, l) && IsLiteralOrParam(r)
    case Prefix(op, r) => op == "NOT" && WherePushable(cx, r)
    case IsNull(x, _) => IsAdaptedField(cx, x)
    case Between(x, low, high, _) => IsAdaptedField(cx, x) && IsLiteralOrParam(low) && IsLiteralOrParam(high)
    case InList(x, values, _, _) => IsAdaptedField(cx, x) && forall v :: v in values ==> IsLiteralOrParam(v)
    case Like(x, pattern, _, _) => IsAdaptedField(cx, x) && IsLiteralOrParam(pattern)
    case _ => false
  }

  predicate FullyTranslatable(cx: Context, q: Select) {
    && (forall i :: 0 <= i < |q.columns| ==> DryRun(cx, q.columns[i]))
    && (q.where_.Some? ==> WherePushable(cx, q.where_.value))
    && (forall i :: 0 <= i < |q.groupBy| ==> DryRun(cx, q.groupBy[i]))
    && (q.having.Some? ==> HavingPushable(cx, q.having.value))
    && (forall i :: 0 <= i < |q.orderBy| ==> DryRun(cx, q.orderBy[i].expr))
  }

  /** A field expression prints as its own name, so what the test admits the translator accepts. */
  lemma {:induction false} PushableIsAccepted(cx: Context, e: Expr)
    requires WherePushable(cx, e)
    ensures Accepted(cx, e)
  {
    hide Upper;
    match e
    case Infix(l, op, r) =>
      if op == "AND" || op == "OR" {
        PushableIsAccepted(cx, l);
        PushableIsAccepted(cx, r);
      }
    case Prefix(op, r) => PushableIsAccepted(cx, r);
    case _ =>
  }

  // ----- the statement -----

  /** A clause item: an expression and what follows it (a sort direction, or nothing). */
  datatype Item = Item(expr: Expr, suffix: seq<SqlTok>)

  function PlainItems(es: seq<Expr>): (r: seq<Item>)
    ensures |r| == |es|
  {
    seq(|es|, i requires 0 <= i < |es| => Item(es[i], []))
  }

  function OrderItems(os: seq<OrderItem>): (r: seq<Item>)
    ensures |r| == |os|
  {
    seq(|os|, i requires 0 <= i < |os| => Item(os[i].expr, [Sym(if os[i].descending then "DESC" else "ASC")]))
  }

  /** The text of a comma-separated clause, item by item. */
  function TranslateItems(cx: Context, items: seq<Item>, b: Binder): Option<Emitted> {
    if items == [] then Some(Emitted([], b))
    else
      var n := |items| - 1;
      match TranslateItems(cx, items[..n], b)
      case None => None
      case Some(before) =>
        match TranslateScalar(cx, items[n].expr, before.b)
        case None => None
        case Some(last) =>
          Some(Emitted((if n == 0 then [] else before.sql + [Comma]) + last.sql + items[n].suffix, last.b))
  }

  predicate PlainSuffix(ts: seq<SqlTok>) {
    forall t :: t in ts ==> !t.Ph?
  }

  lemma {:induction false} SuffixNumbered(ts: seq<SqlTok>, n: nat)
    requires PlainSuffix(ts)
    ensures Numbered(ts, n, n)
  {
    if ts != [] {
      assert ts[0] in ts;
      SuffixNumbered(ts[1..], n);
    }
  }

  /** Text that follows what has been emitted and binds nothing itself. */
  lemma AppendInOrder(b: Binder, out: Emitted, ts: seq<SqlTok>)
    requires InOrder(b, out) && PlainSuffix(ts)
    ensures InOrder(b, Emitted(out.sql + ts, out.b))
    ensures InOrder(b, Emitted(ts + out.sql, out.b))
  {
    hide Numbered;
    SuffixNumbered(ts, out.b.idx);
    NumberedConcat(out.sql, ts, b.idx, out.b.idx, out.b.idx);
    SuffixNumbered(ts, b.idx);
    NumberedConcat(ts, out.sql, b.idx, b.idx, out.b.idx);
  }

  lemma ThenInOrder(b: Binder, left: Emitted, right: Emitted)
    requires InOrder(b, left) && InOrder(left.b, right)
    ensures InOrder(b, Emitted(left.sql + right.sql, right.b))
  {
    hide Numbered;
    ExtendsTrans(b, left.b, right.b);
    NumberedConcat(left.sql, right.sql, b.idx, left.b.idx, right.b.idx);
  }

  lemma {:induction false} ItemsInOrder(cx: Context, items: seq<Item>, b: Binder)
    requires BinderOk(b) && TranslateItems(cx, items, b).Some?
    requires forall i :: 0 <= i < |items| ==> PlainSuffix(items[i].suffix)
    ensures InOrder(b, TranslateItems(cx, items, b).value)
  {
    hide Numbered, InOrder, TranslateScalar, PlainSuffix;
    if items == [] {
      EmptyInOrder(b);
    } else {
      var n := |items| - 1;
      ItemsInOrder(cx, items[..n], b);
      var before := TranslateItems(cx, items[..n], b).value;
      InOrderBinder(b, before);
      ScalarInOrder(cx, items[n].expr, before.b);
      var last := TranslateScalar(cx, items[n].expr, before.b).value;
      if n == 0 {
        assert items[..n] == [];
        AppendInOrder(b, last, items[n].suffix);
        assert [] + last.sql + items[n].suffix == last.sql + items[n].suffix;
      } else {
        JoinedInOrder(b, before, Comma, last);
        AppendInOrder(b, Emitted(before.sql + [Comma] + last.sql, last.b), items[n].suffix);
      }
    }
  }

  lemma EmptyInOrder(b: Binder)
    requires BinderOk(b)
    ensures InOrder(b, Emitted([], b))
  {
  }

  lemma {:induction false} ItemsIff(cx: Context, items: seq<Item>, b: Binder)
    ensures TranslateItems(cx, items, b).Some? <==> forall i :: 0 <= i < |items| ==> DryRun(cx, items[i].expr)
  {
    hide TranslateScalar, ScalarOk;
    if items != [] {
      var n := |items| - 1;
      ItemsIff(cx, items[..n], b);
      ScalarIff(cx, items[n].expr, Binder([], 0));
      if TranslateItems(cx, items[..n], b).Some? {
        ScalarIff(cx, items[n].expr, TranslateItems(cx, items[..n], b).value.b);
        assert forall i :: 0 <= i < n ==> items[..n][i] == items[i];
      } else {
        var i :| 0 <= i < n && !DryRun(cx, items[..n][i].expr);
        assert items[..n][i] == items[i];
      }
    }
  }

  /** evalTopCount. */
  function TopCount(top: Top): Option<int> {
    if top.percent || top.withTies then None
    else match top.count
      case IntLit(n) => Some(n)
      case _ => None
  }

  function SelectKeyword(distinct: bool): SqlTok {
    Sym(if distinct then "SELECT DISTINCT" else "SELECT")
  }

  function TenantFilter(tenant: string, b: Binder): Emitted {
    if tenant == "" then Emitted([], b)
      else Emitted([Col("tenant_id"), Sym("=")] + Bind(b, LStr(tenant)).sql, Bind(b, LStr(tenant)).b)
  }

  /** The tenant filter, if any, AND the parenthesised condition, if any. */
  function WhereClause(cx: Context, where_: Option<Expr>, tenant: string, b: Binder): Option<Emitted> {
    var filter := TenantFilter(tenant, b);
    match where_
    case None => Some(filter)
    case Some(w) =>
      match TranslateWhere(cx, w, filter.b)
      case None => None
      case Some(cond) =>
        Some(Emitted(filter.sql + (if tenant == "" then [] else [KAnd]) + ([LP] + cond.sql + [RP]), cond.b))
  }

  function HavingClause(cx: Context, having: Option<Expr>, b: Binder): Option<Emitted> {
    match having
    case None => Some(Emitted([], b))
    case Some(h) => TranslateHaving(cx, h, b)
  }

  function LimitClause(top: Option<Top>, b: Binder): Option<Emitted> {
    match top
    case None => Some(Emitted([], b))
    case Some(t) =>
      match TopCount(t)
      case None => None
      case Some(n) => Some(Bind(b, LInt(n)))
  }

  function Headed(present: bool, keyword: string, clause: seq<SqlTok>): seq<SqlTok> {
    if present then [Sym(keyword)] + clause else []
  }

  /** The six clauses in the order in which they bind their arguments. */
  datatype Clauses = Clauses(
    columns: Emitted, condition: Emitted, groupBy: Emitted, having: Emitted, orderBy: Emitted, limit: Emitted)

  function TranslateClauses(cx: Context, q: Select, tenant: string): Option<Clauses> {
    match TranslateItems(cx, PlainItems(q.columns), Binder([], 0))
    case None => None
    case Some(cols) =>
      match WhereClause(cx, q.where_, tenant, cols.b)
      case None => None
      case Some(cond) =>
        match TranslateItems(cx, PlainItems(q.groupBy), cond.b)
        case None => None
        case Some(group) =>
          match HavingClause(cx, q.having, group.b)
          case None => None
          case Some(having) =>
            match TranslateItems(cx, OrderItems(q.orderBy), having.b)
            case None => None
            case Some(order) =>
              match LimitClause(q.top, order.b)
              case None => None
              case Some(limit) => Some(Clauses(cols, cond, group, having, order, limit))
  }

  function Assembled(q: Select, table: string, tenant: string, c: Clauses): seq<SqlTok> {
    [SelectKeyword(q.distinct)] + c.columns.sql + [Sym("FROM"), Sym(table)]
    + Headed(tenant != "" || q.where_.Some?, "WHERE", c.condition.sql)
    + Headed(q.groupBy != [], "GROUP BY", c.groupBy.sql)
    + Headed(q.having.Some?, "HAVING", c.having.sql)
    + Headed(q.orderBy != [], "ORDER BY", c.orderBy.sql)
    + Headed(q.top.Some?, "LIMIT", c.limit.sql)
  }

  function Generated(cx: Context, table: Option<string>, q: Select, tenant: string): Option<Emitted> {
    if table.None? then None
    else
      match TranslateClauses(cx, q, tenant)
      case None => None
      case Some(c) => Some(Emitted(Assembled(q, table.value, tenant, c), c.limit.b))
  }

  method EmitItems(cx: Context, items: seq<Item>, b: Binder) returns (r: Option<Emitted>)
    ensures r == TranslateItems(cx, items, b)
  {
    hide TranslateScalar;
    var sql: seq<SqlTok>, b1 := [], b;
    for i := 0 to |items|
      invariant TranslateItems(cx, items[..i], b) == Some(Emitted(sql, b1))
    {
      assert items[..i + 1][..i] == items[..i];
      var part := TranslateScalar(cx, items[i].expr, b1);
      if part.None? {
        ItemsPrefix(cx, items, i + 1, b);
        return None;
      }
      sql := (if i == 0 then [] else sql + [Comma]) + part.value.sql + items[i].suffix;
      b1 := part.value.b;
    }
    assert items[..|items|] == items;
    return Some(Emitted(sql, b1));
  }

  /** One untranslatable item spoils every longer list. */
  lemma {:induction false} ItemsPrefix(cx: Context, items: seq<Item>, k: nat, b: Binder)
    requires k <= |items| && TranslateItems(cx, items[..k], b).None?
    ensures TranslateItems(cx, items, b).None?
  {
    hide TranslateScalar;
    if k == |items| {
      assert items[..k] == items;
    } else {
      var n := |items| - 1;
      assert items[..n][..k] == items[..k];
      ItemsPrefix(cx, items[..n], k, b);
    }
  }

  // ----- when generation succeeds -----

  /** Every clause is translatable, and TOP is absent or a plain integer. */
  predicate Generable(cx: Context, q: Select) {
    && (forall i :: 0 <= i < |q.columns| ==> DryRun(cx, q.columns[i]))
    && (q.where_.Some? ==> Accepted(cx, q.where_.value))
    && (forall i :: 0 <= i < |q.groupBy| ==> DryRun(cx, q.groupBy[i]))
    && (q.having.Some? ==> HavingPushable(cx, q.having.value))
    && (forall i :: 0 <= i < |q.orderBy| ==> DryRun(cx, q.orderBy[i].expr))
    && (q.top.Some? ==> TopCount(q.top.value).Some?)
  }

  /**
   * Generation succeeds exactly when the entity is adapted, every clause is translatable and TOP is
   * absent or a plain integer.
   */
  lemma GeneratesIff(cx: Context, table: Option<string>, q: Select, tenant: string)
    ensures Generated(cx, table, q, tenant).Some? <==> table.Some? && Generable(cx, q)
  {
    hide TranslateItems, TranslateWhere, TranslateHaving, DryRun, Accepted, HavingPushable, Assembled;
    var cols, groups, orders := PlainItems(q.columns), PlainItems(q.groupBy), OrderItems(q.orderBy);
    assert forall i :: 0 <= i < |cols| ==> cols[i].expr == q.columns[i];
    assert forall i :: 0 <= i < |groups| ==> groups[i].expr == q.groupBy[i];
    assert forall i :: 0 <= i < |orders| ==> orders[i].expr == q.orderBy[i].expr;
    forall b
      ensures TranslateItems(cx, cols, b).Some? <==> forall i :: 0 <= i < |cols| ==> DryRun(cx, cols[i].expr)
      ensures TranslateItems(cx, groups, b).Some? <==> forall i :: 0 <= i < |groups| ==> DryRun(cx, groups[i].expr)
      ensures TranslateItems(cx, orders, b).Some? <==> forall i :: 0 <= i < |orders| ==> DryRun(cx, orders[i].expr)
    {
      ItemsIff(cx, cols, b);
      ItemsIff(cx, groups, b);
      ItemsIff(cx, orders, b);
    }
    if q.where_.Some? {
      forall b ensures TranslateWhere(cx, q.where_.value, b).Some? <==> Accepted(cx, q.where_.value) {
        TranslatesIff(cx, q.where_.value, b);
      }
    }
    if q.having.Some? {
      forall b ensures TranslateHaving(cx, q.having.value, b).Some? <==> HavingPushable(cx, q.having.value) {
        HavingIff(cx, q.having.value, b);
      }
    }
  }

  /** The documented guard: a fully translatable statement with an absent or plain integer TOP generates. */
  lemma FullyTranslatableGenerates(cx: Context, table: Option<string>, q: Select, tenant: string)
    requires table.Some? && FullyTranslatable(cx, q)
    requires q.top.Some? ==> !q.top.value.percent && !q.top.value.withTies && q.top.value.count.IntLit?
    ensures Generated(cx, table, q, tenant).Some?
  {
    hide WherePushable, Accepted, HavingPushable, DryRun, Generated;
    if q.where_.Some? {
      PushableIsAccepted(cx, q.where_.value);
    }
    GeneratesIff(cx, table, q, tenant);
  }

  // ----- placeholders of the whole statement -----

  lemma HeadedInOrder(b: Binder, left: Emitted, present: bool, keyword: string, clause: Emitted)
    requires InOrder(b, left) && InOrder(left.b, clause) && (present || clause == Emitted([], left.b))
    ensures InOrder(b, Emitted(left.sql + Headed(present, keyword, clause.sql), clause.b))
  {
    hide InOrder;
    if present {
      AppendInOrder(left.b, clause, [Sym(keyword)]);
      ThenInOrder(b, left, Emitted([Sym(keyword)] + clause.sql, clause.b));
    } else {
      assert left.sql + [] == left.sql;
    }
  }

  lemma FilterInOrder(tenant: string, b: Binder)
    requires BinderOk(b)
    ensures InOrder(b, TenantFilter(tenant, b))
  {
    hide InOrder;
    if tenant == "" {
      EmptyInOrder(b);
    } else {
      BindInOrder(b, LStr(tenant));
      AppendInOrder(b, Bind(b, LStr(tenant)), [Col("tenant_id"), Sym("=")]);
    }
  }

  lemma ConditionInOrder(cx: Context, where_: Option<Expr>, tenant: string, b: Binder)
    requires BinderOk(b) && WhereClause(cx, where_, tenant, b).Some?
    ensures InOrder(b, WhereClause(cx, where_, tenant, b).value)
  {
    hide InOrder, TranslateWhere, TenantFilter;
    var filter := TenantFilter(tenant, b);
    FilterInOrder(tenant, b);
    if where_.Some? {
      InOrderBinder(b, filter);
      WhereInOrder(cx, where_.value, filter.b);
      var cond := TranslateWhere(cx, where_.value, filter.b).value;
      AppendInOrder(filter.b, cond, [LP]);
      AppendInOrder(filter.b, Emitted([LP] + cond.sql, cond.b), [RP]);
      AppendInOrder(b, filter, if tenant == "" then [] else [KAnd]);
      ThenInOrder(b, Emitted(filter.sql + (if tenant == "" then [] else [KAnd]), filter.b),
                  Emitted([LP] + cond.sql + [RP], cond.b));
    }
  }

  /** Every clause continues the numbering of the one before. */
  ghost predicate ClausesInOrder(c: Clauses) {
    && InOrder(Binder([], 0), c.columns) && InOrder(c.columns.b, c.condition) && InOrder(c.condition.b, c.groupBy)
    && InOrder(c.groupBy.b, c.having) && InOrder(c.having.b, c.orderBy) && InOrder(c.orderBy.b, c.limit)
  }

  lemma TranslatedInOrder(cx: Context, q: Select, tenant: string)
    requires TranslateClauses(cx, q, tenant).Some?
    ensures ClausesInOrder(TranslateClauses(cx, q, tenant).value)
  {
    hide InOrder, TranslateItems, TranslateHaving, WhereClause;
    var c := TranslateClauses(cx, q, tenant).value;
    ItemsInOrder(cx, PlainItems(q.columns), Binder([], 0));
    InOrderBinder(Binder([], 0), c.columns);
    ConditionInOrder(cx, q.where_, tenant, c.columns.b);
    InOrderBinder(c.columns.b, c.condition);
    ItemsInOrder(cx, PlainItems(q.groupBy), c.condition.b);
    InOrderBinder(c.condition.b, c.groupBy);
    if q.having.Some? {
      HavingInOrder(cx, q.having.value, c.groupBy.b);
    } else {
      EmptyInOrder(c.groupBy.b);
    }
    InOrderBinder(c.groupBy.b, c.having);
    ItemsInOrder(cx, OrderItems(q.orderBy), c.having.b);
    InOrderBinder(c.having.b, c.orderBy);
    if q.top.Some? {
      BindInOrder(c.orderBy.b, LInt(TopCount(q.top.value).value));
    } else {
      EmptyInOrder(c.orderBy.b);
    }
  }

  /** In the whole statement the k-th placeholder from the left is bound to the k-th argument. */
  lemma StatementPlaceholdersInOrder(cx: Context, table: Option<string>, q: Select, tenant: string)
    requires Generated(cx, table, q, tenant).Some?
    ensures var out := Generated(cx, table, q, tenant).value;
            |Placeholders(out.sql)| == |out.b.args|
            && forall k :: 0 <= k < |out.b.args| ==> Placeholders(out.sql)[k] == k + 1
  {
    assert InOrder(Binder([], 0), Generated(cx, table, q, tenant).value) by {
      StatementInOrder(cx, table, q, tenant);
    }
  }

  lemma StatementIsNumbered(cx: Context, table: Option<string>, q: Select, tenant: string)
    requires Generated(cx, table, q, tenant).Some?
    ensures Numbered(Generated(cx, table, q, tenant).value.sql, 0, |Generated(cx, table, q, tenant).value.b.args|)
  {
    hide Generated, Numbered;
    StatementInOrder(cx, table, q, tenant);
  }

  lemma StatementInOrder(cx: Context, table: Option<string>, q: Select, tenant: string)
    requires Generated(cx, table, q, tenant).Some?
    ensures InOrder(Binder([], 0), Generated(cx, table, q, tenant).value)
  {
    hide InOrder, TranslateItems, TranslateHaving, WhereClause, Headed;
    var z := Binder([], 0);
    var c := TranslateClauses(cx, q, tenant).value;
    TranslatedInOrder(cx, q, tenant);
    AppendInOrder(z, c.columns, [SelectKeyword(q.distinct)]);
    AppendInOrder(z, Emitted([SelectKeyword(q.distinct)] + c.columns.sql, c.columns.b), [Sym("FROM"),
                  Sym(table.value)]);
    var s0 := [SelectKeyword(q.distinct)] + c.columns.sql + [Sym("FROM"), Sym(table.value)];
    AbsentClauses(cx, q, tenant);
    HeadedInOrder(z, Emitted(s0, c.columns.b), tenant != "" || q.where_.Some?, "WHERE", c.condition);
    var s1 := s0 + Headed(tenant != "" || q.where_.Some?, "WHERE", c.condition.sql);
    HeadedInOrder(z, Emitted(s1, c.condition.b), q.groupBy != [], "GROUP BY", c.groupBy);
    var s2 := s1 + Headed(q.groupBy != [], "GROUP BY", c.groupBy.sql);
    HeadedInOrder(z, Emitted(s2, c.groupBy.b), q.having.Some?, "HAVING", c.having);
    var s3 := s2 + Headed(q.having.Some?, "HAVING", c.having.sql);
    HeadedInOrder(z, Emitted(s3, c.having.b), q.orderBy != [], "ORDER BY", c.orderBy);
    var s4 := s3 + Headed(q.orderBy != [], "ORDER BY", c.orderBy.sql);
    HeadedInOrder(z, Emitted(s4, c.orderBy.b), q.top.Some?, "LIMIT", c.limit);
  }

  /** A clause the statement does not have emits nothing. */
  lemma AbsentClauses(cx: Context, q: Select, tenant: string)
    requires TranslateClauses(cx, q, tenant).Some?
    ensures var c := TranslateClauses(cx, q, tenant).value;
            && (tenant == "" && q.where_.None? ==> c.condition == Emitted([], c.columns.b))
            && (q.groupBy == [] ==> c.groupBy == Emitted([], c.condition.b))
            && (q.having.None? ==> c.having == Emitted([], c.groupBy.b))
            && (q.orderBy == [] ==> c.orderBy == Emitted([], c.having.b))
            && (q.top.None? ==> c.limit == Emitted([], c.orderBy.b))
  {
  }

  // ----- the arguments themselves -----

  /** The literals of a scalar from left to right; the argument of COUNT(*) is not emitted. */
  function ScalarLits(cx: Context, e: Expr): seq<Lit>
    decreases e
  {
    match e
    case Call(func, args) =>
      if IsAggregate(Upper(func)) then
        if (Upper(func) == "COUNT" && IsCountStar(cx, args)) || args == [] then [] else ScalarLits(cx, args[0])
      else ArgumentLits(cx, args)
    case IntLit(n) => [LInt(n)]
    case FloatLit(x) => [LFloat(x)]
    case StrLit(s) => [LStr(s)]
    case Infix(l, _, r) => ScalarLits(cx, l) + ScalarLits(cx, r)
    case _ => []
  }

  function ArgumentLits(cx: Context, args: seq<Expr>): seq<Lit>
    decreases args
  {
    if args == [] then [] else ScalarLits(cx, args[0]) + ArgumentLits(cx, args[1..])
  }

  lemma {:induction false} ArgumentsBind(cx: Context, args: seq<Expr>, b: Binder)
    requires TranslateArguments(cx, args, b).Some?
    ensures TranslateArguments(cx, args, b).value.b.args == b.args + ArgumentLits(cx, args)
    decreases args
  {
    hide TranslateScalar, ScalarLits;
    if args != [] {
      ScalarBinds(cx, args[0], b);
      if |args| > 1 {
        ArgumentsBind(cx, args[1..], TranslateScalar(cx, args[0], b).value.b);
      } else {
        assert args[1..] == [];
      }
    }
  }

  lemma {:induction false} ScalarBinds(cx: Context, e: Expr, b: Binder)
    requires TranslateScalar(cx, e, b).Some?
    ensures TranslateScalar(cx, e, b).value.b.args == b.args + ScalarLits(cx, e)
    decreases e
  {
    hide Upper;
    match e
    case Call(func, args) =>
      if !IsAggregate(Upper(func)) {
        ArgumentsBind(cx, args, b);
      } else if !(Upper(func) == "COUNT" && IsCountStar(cx, args)) {
        ScalarBinds(cx, args[0], b);
      }
    case Infix(l, op, r) =>
      ScalarBinds(cx, l, b);
      ScalarBinds(cx, r, TranslateScalar(cx, l, b).value.b);
    case _ =>
  }

  function WhereLits(e: Expr): seq<Lit> {
    match e
    case Infix(l, op, r) =>
      if op == "AND" || op == "OR" then WhereLits(l) + WhereLits(r) else OptLit(r)
    case Prefix(_, r) => WhereLits(r)
    case Between(_, low, high, _) => OptLit(low) + OptLit(high)
    case InList(_, values, _, _) => ValueLits(values)
    case Like(_, pattern, _, _) => OptLit(pattern)
    case _ => []
  }

  function OptLit(e: Expr): seq<Lit> {
    match LiteralValue(e)
    case Some(v) => [v]
    case None => []
  }

  function ValueLits(vs: seq<Expr>): seq<Lit> {
    if vs == [] then [] else OptLit(vs[0]) + ValueLits(vs[1..])
  }

  lemma {:induction false} ValuesBind(vs: seq<Expr>, b: Binder)
    requires TranslateValues(vs, b).Some?
    ensures TranslateValues(vs, b).value.b.args == b.args + ValueLits(vs)
  {
    hide Upper, LiteralValue;
    if vs != [] {
      ValuesBind(vs[1..], AddArg(b, LiteralValue(vs[0]).value).0);
    }
  }

  lemma {:induction false} WhereBinds(cx: Context, e: Expr, b: Binder)
    requires TranslateWhere(cx, e, b).Some?
    ensures TranslateWhere(cx, e, b).value.b.args == b.args + WhereLits(e)
  {
    hide Upper, LiteralValue, MaybeNot;
    match e
    case Infix(l, op, r) =>
      if op == "AND" || op == "OR" {
        WhereBinds(cx, l, b);
        WhereBinds(cx, r, TranslateWhere(cx, l, b).value.b);
      }
    case Prefix(op, r) => WhereBinds(cx, r, b);
    case InList(x, values, not, _) => ValuesBind(values, b);
    case Between(x, low, high, not) => BetweenBinds(cx, e, b);
    case _ =>
  }

  lemma BetweenBinds(cx: Context, e: Expr, b: Binder)
    requires e.Between? && TranslateWhere(cx, e, b).Some?
    ensures TranslateWhere(cx, e, b).value.b.args == b.args + WhereLits(e)
  {
  }

  function HavingLits(cx: Context, e: Expr): seq<Lit> {
    match e
    case Infix(l, op, r) =>
      if op == "AND" || op == "OR" then HavingLits(cx, l) + HavingLits(cx, r) else ScalarLits(cx, l) + OptLit(r)
    case Prefix(_, r) => HavingLits(cx, r)
    case _ => []
  }

  lemma {:induction false} HavingBinds(cx: Context, e: Expr, b: Binder)
    requires TranslateHaving(cx, e, b).Some?
    ensures TranslateHaving(cx, e, b).value.b.args == b.args + HavingLits(cx, e)
  {
    hide Upper, LiteralValue, MaybeNot, TranslateScalar;
    match e
    case Infix(l, op, r) =>
      if op == "AND" || op == "OR" {
        HavingBinds(cx, l, b);
        HavingBinds(cx, r, TranslateHaving(cx, l, b).value.b);
      } else {
        ScalarBinds(cx, l, b);
      }
    case Prefix(op, r) => HavingBinds(cx, r, b);
    case _ =>
  }

  function ItemLits(cx: Context, items: seq<Item>): seq<Lit> {
    if items == [] then []
    else ItemLits(cx, items[..|items| - 1]) + ScalarLits(cx, items[|items| - 1].expr)
  }

  lemma {:induction false} ItemsBind(cx: Context, items: seq<Item>, b: Binder)
    requires TranslateItems(cx, items, b).Some?
    ensures TranslateItems(cx, items, b).value.b.args == b.args + ItemLits(cx, items)
  {
    hide TranslateScalar, ScalarLits;
    if items != [] {
      var n := |items| - 1;
      ItemsBind(cx, items[..n], b);
      ScalarBinds(cx, items[n].expr, TranslateItems(cx, items[..n], b).value.b);
    }
  }

  /** Everything the statement binds, in source order. */
  function StatementLits(cx: Context, q: Select, tenant: string): seq<Lit> {
    ItemLits(cx, PlainItems(q.columns))
    + ConditionLits(q.where_, tenant)
    + ItemLits(cx, PlainItems(q.groupBy))
    + (if q.having.Some? then HavingLits(cx, q.having.value) else [])
    + ItemLits(cx, OrderItems(q.orderBy))
    + (if q.top.Some? && TopCount(q.top.value).Some? then [LInt(TopCount(q.top.value).value)] else [])
  }

  function ConditionLits(where_: Option<Expr>, tenant: string): seq<Lit> {
    (if tenant == "" then [] else [LStr(tenant)]) + (if where_.Some? then WhereLits(where_.value) else [])
  }

  lemma ConditionBinds(cx: Context, where_: Option<Expr>, tenant: string, b: Binder)
    requires WhereClause(cx, where_, tenant, b).Some?
    ensures WhereClause(cx, where_, tenant, b).value.b.args == b.args + ConditionLits(where_, tenant)
  {
    hide TranslateWhere, WhereLits;
    if where_.Some? {
      WhereBinds(cx, where_.value, TenantFilter(tenant, b).b);
    }
  }

  /** The argument list is the statement's literals from left to right: none lost, doubled or swapped. */
  lemma StatementBindsItsLiterals(cx: Context, table: Option<string>, q: Select, tenant: string)
    requires Generated(cx, table, q, tenant).Some?
    ensures Generated(cx, table, q, tenant).value.b.args == StatementLits(cx, q, tenant)
  {
    hide TranslateItems, WhereClause, TranslateHaving, ItemLits, ConditionLits, HavingLits, Assembled;
    var c := TranslateClauses(cx, q, tenant).value;
    ItemsBind(cx, PlainItems(q.columns), Binder([], 0));
    ConditionBinds(cx, q.where_, tenant, c.columns.b);
    ItemsBind(cx, PlainItems(q.groupBy), c.condition.b);
    if q.having.Some? {
      HavingBinds(cx, q.having.value, c.groupBy.b);
    }
    ItemsBind(cx, OrderItems(q.orderBy), c.having.b);
    assert [] + ItemLits(cx, PlainItems(q.columns)) == ItemLits(cx, PlainItems(q.columns));
  }

  // ----- the WHERE clause inside the statement -----

  predicate HasCondition(q: Select, tenant: string) {
    tenant != "" || q.where_.Some?
  }

  /** What the clause should say: the tenant filter, if any, AND the source's condition, if any. */
  function ClauseMeaning(cx: Context, q: Select, tenant: string, val: Valuation): Tri
    requires q.where_.Some? ==> Accepted(cx, q.where_.value)
  {
    var mine := val(Compare("tenant_id", "=", LStr(tenant)));
    if q.where_.None? then mine
    else if tenant == "" then Meaning(cx, q.where_.value, val)
    else TAnd(mine, Meaning(cx, q.where_.value, val))
  }

  /** The keywords that can end a condition. */
  predicate EndsClause(tail: seq<SqlTok>) {
    tail == [] || tail[0] in {Sym("GROUP BY"), Sym("HAVING"), Sym("ORDER BY"), Sym("LIMIT")}
  }

  /**
   * In the statement's own text, with its final arguments, what stands between WHERE and the next clause
   * reads, under every valuation, as the tenant filter AND the source condition: no disjunction in the
   * condition escapes the filter.
   */
  lemma StatementFiltersTenant(cx: Context, table: Option<string>, q: Select, tenant: string)
    requires Generated(cx, table, q, tenant).Some? && HasCondition(q, tenant)
    requires q.where_.Some? ==> PlainOps(q.where_.value)
    ensures q.where_.Some? ==> Accepted(cx, q.where_.value)
    ensures var out := Generated(cx, table, q, tenant).value;
            exists columns, cond, tail ::
              && out.sql == [SelectKeyword(q.distinct)] + columns + [Sym("FROM"), Sym(table.value)]
                 + ([Sym("WHERE")] + cond) + tail
              && EndsClause(tail)
              && forall val :: ReadCondition(cond, out.b.args, val) == Some(ClauseMeaning(cx, q, tenant, val))
  {
    hide InOrder, TranslateItems, WhereClause, ReadCondition, PlainOps, Accepted, ClauseMeaning, LimitClause;
    hide HavingClause, Assembled, ClausesInOrder, EndsClause;
    var c := TranslateClauses(cx, q, tenant).value;
    TranslatedInOrder(cx, q, tenant);
    ArgsPersist(c);
    assert q.where_.Some? ==> Accepted(cx, q.where_.value) by {
      GeneratesIff(cx, table, q, tenant);
    }
    forall val
      ensures ReadCondition(c.condition.sql, c.limit.b.args, val) == Some(ClauseMeaning(cx, q, tenant, val))
    {
      ClauseReads(cx, q, tenant, c.columns.b, c.limit.b.args, val);
    }
    var tail := AssembledParts(q, table.value, tenant, c);
  }

  /** Where the condition stands in the statement. */
  lemma AssembledParts(q: Select, table: string, tenant: string, c: Clauses) returns (tail: seq<SqlTok>)
    requires HasCondition(q, tenant)
    ensures Assembled(q, table, tenant, c)
            == [SelectKeyword(q.distinct)] + c.columns.sql + [Sym("FROM"), Sym(table)]
             + ([Sym("WHERE")] + c.condition.sql) + tail
    ensures EndsClause(tail)
  {
    hide Headed, EndsClause;
    var front := [SelectKeyword(q.distinct)] + c.columns.sql + [Sym("FROM"), Sym(table)];
    var g, h := Headed(q.groupBy != [], "GROUP BY", c.groupBy.sql), Headed(q.having.Some?, "HAVING", c.having.sql);
    var o, l := Headed(q.orderBy != [], "ORDER BY", c.orderBy.sql), Headed(q.top.Some?, "LIMIT", c.limit.sql);
    tail := g + (h + (o + l));
    HeadEnds(q.groupBy != [], "GROUP BY", c.groupBy.sql);
    HeadEnds(q.having.Some?, "HAVING", c.having.sql);
    HeadEnds(q.orderBy != [], "ORDER BY", c.orderBy.sql);
    HeadEnds(q.top.Some?, "LIMIT", c.limit.sql);
    HeadsEnd(g, h, o, l);
    PresentHead("WHERE", c.condition.sql);
    Regroup(front + ([Sym("WHERE")] + c.condition.sql), g, h, o, l);
  }

  lemma Regroup(p: seq<SqlTok>, g: seq<SqlTok>, h: seq<SqlTok>, o: seq<SqlTok>, l: seq<SqlTok>)
    ensures p + g + h + o + l == p + (g + (h + (o + l)))
  {
  }

  lemma HeadEnds(present: bool, keyword: string, clause: seq<SqlTok>)
    requires Sym(keyword) in {Sym("GROUP BY"), Sym("HAVING"), Sym("ORDER BY"), Sym("LIMIT")}
    ensures EndsClause(Headed(present, keyword, clause))
  {
  }

  /** What follows a clause is nothing, or starts with the keyword of a later one. */
  lemma HeadsEnd(g: seq<SqlTok>, h: seq<SqlTok>, o: seq<SqlTok>, l: seq<SqlTok>)
    requires EndsClause(g) && EndsClause(h) && EndsClause(o) && EndsClause(l)
    ensures EndsClause(g + (h + (o + l)))
  {
    hide EndsClause;
    EndsJoin(o, l);
    EndsJoin(h, o + l);
    EndsJoin(g, h + (o + l));
  }

  lemma EndsJoin(a: seq<SqlTok>, b: seq<SqlTok>)
    requires EndsClause(a) && EndsClause(b)
    ensures EndsClause(a + b)
  {
    if a == [] {
      assert a + b == b;
    } else {
      assert (a + b)[0] == a[0];
    }
  }

  lemma PresentHead(keyword: string, clause: seq<SqlTok>)
    ensures Headed(true, keyword, clause) == [Sym(keyword)] + clause
  {
  }

  lemma ArgsPersist(c: Clauses)
    requires ClausesInOrder(c)
    ensures BinderOk(c.columns.b) && c.condition.b.args <= c.limit.b.args
    ensures BinderOk(c.groupBy.b) && c.having.b.args <= c.limit.b.args
  {
  }

  lemma FilterReads(tenant: string, b: Binder, args: seq<Lit>, val: Valuation)
    requires BinderOk(b) && tenant != "" && TenantFilter(tenant, b).b.args <= args
    ensures ReadsAs(WhereReader(args, val), TenantFilter(tenant, b).sql, val(Compare("tenant_id", "=", LStr(tenant))))
  {
    var ts := TenantFilter(tenant, b).sql;
    ArgBound(b, LStr(tenant), args);
    forall rest: seq<SqlTok> | Follows(rest)
      ensures ReadTest(ts + rest, args, val) == Some(Read(val(Compare("tenant_id", "=", LStr(tenant))), rest))
    {
      assert (ts + rest)[3..] == rest;
    }
  }

  lemma ClauseReads(cx: Context, q: Select, tenant: string, b: Binder, args: seq<Lit>, val: Valuation)
    requires BinderOk(b) && HasCondition(q, tenant) && (q.where_.Some? ==> PlainOps(q.where_.value))
    requires WhereClause(cx, q.where_, tenant, b).Some? && WhereClause(cx, q.where_, tenant, b).value.b.args <= args
    ensures q.where_.Some? ==> Accepted(cx, q.where_.value)
    ensures ReadCondition(WhereClause(cx, q.where_, tenant, b).value.sql, args, val)
            == Some(ClauseMeaning(cx, q, tenant, val))
  {
    hide ReadWhole, TranslateWhere, PlainOps, Accepted, Meaning, TenantFilter, WhereReader, ReadsAs, NoTest, WhereTree;
    var filter, leaf := TenantFilter(tenant, b), WhereReader(args, val);
    var mine := Test(filter.sql, val(Compare("tenant_id", "=", LStr(tenant))));
    assert BinderOk(filter.b) && (tenant == "" ==> filter == Emitted([], b)) by {
      FilterInOrder(tenant, b);
      FilterAbsent(tenant, b);
    }
    if q.where_.None? {
      FilterReads(tenant, b, args, val);
      WholeReads(leaf, mine);
    } else {
      var w := q.where_.value;
      TranslatesIff(cx, w, filter.b);
      var cond := TranslateWhere(cx, w, filter.b).value;
      assert filter.b.args <= args by {
        WhereInOrder(cx, w, filter.b);
      }
      WhereText(cx, w, filter.b, val);
      WhereSound(cx, w, filter.b, args, val);
      ParenIsNoTest(args, val, cond.sql);
      var inner := Paren(WhereTree(cx, w, filter.b, val));
      if tenant == "" {
        WholeReads(leaf, inner);
        assert [] + [] + ([LP] + cond.sql + [RP]) == Text(inner);
      } else {
        FilterReads(tenant, b, args, val);
        WholeReads(leaf, Both(mine, inner));
      }
    }
  }

  lemma FilterAbsent(tenant: string, b: Binder)
    ensures tenant == "" ==> TenantFilter(tenant, b) == Emitted([], b)
  {
  }
}
