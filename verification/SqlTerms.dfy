/** Reading the emitted scalars back: each is the source expression with its names resolved and its literals bound. */
module SqlTerms {
  import opened Basics
  import opened OqlAst
  import opened SqlText
  import opened SqlGeneration
  import opened SqlReading
  import opened SqlStatement

  /** What SQL sees: native columns and functions, bound values, and operators as they are spelled. */
  datatype Term =
    | TColumn(name: string)
    | TArg(v: Lit)
    | TNull
    | TSymbol(text: string)
    | TCall(f: string, args: seq<Term>)
    | TInfix(left: Term, op: SqlTok, right: Term)

  function ReadTerm(ts: seq<SqlTok>, args: seq<Lit>): (r: Option<Read<Term>>)
    ensures r.Some? ==> |r.value.rest| < |ts| && !ts[0].RP?
    decreases |ts|, 0
  {
    if |ts| == 0 then None
    else
      match ts[0]
      case Col(c) => Some(Read(TColumn(c), ts[1..]))
      case Ph(_) => if Bound(args, ts[0]) then Some(Read(TArg(Arg(args, ts[0])), ts[1..])) else None
      case KNull => Some(Read(TNull, ts[1..]))
      case Sym(s) =>
        if |ts| > 1 && ts[1].LP? then
          match ReadTerms(ts[2..], args)
          case None => None
          case Some(list) => Some(Read(TCall(s, list.v), list.rest))
        else Some(Read(TSymbol(s), ts[1..]))
      case LP => ReadInfix(ts[1..], args)
      case _ => None
  }

  /** The inside of a parenthesised operation, up to its closing parenthesis. */
  function ReadInfix(ts: seq<SqlTok>, args: seq<Lit>): (r: Option<Read<Term>>)
    ensures r.Some? ==> |r.value.rest| < |ts|
    decreases |ts|, 1
  {
    match ReadTerm(ts, args)
    case None => None
    case Some(l) =>
      if l.rest == [] then None
      else
        match ReadTerm(l.rest[1..], args)
        case None => None
        case Some(r) =>
          if r.rest != [] && r.rest[0].RP? then Some(Read(TInfix(l.v, l.rest[0], r.v), r.rest[1..])) else None
  }

  /** A possibly empty, comma-separated argument list up to the closing parenthesis. */
  function ReadTerms(ts: seq<SqlTok>, args: seq<Lit>): (r: Option<Read<seq<Term>>>)
    ensures r.Some? ==> |r.value.rest| < |ts|
    decreases |ts|, 1
  {
    if ts == [] then None
    else if ts[0].RP? then Some(Read([], ts[1..]))
    else
      match ReadTerm(ts, args)
      case None => None
      case Some(t) =>
        if t.rest == [] then None
        else if t.rest[0].RP? then Some(Read([t.v], t.rest[1..]))
        else if !t.rest[0].Comma? then None
        else
          match ReadTerms(t.rest[1..], args)
          case None => None
          case Some(more) => Some(Read([t.v] + more.v, more.rest))
  }

  /** The source expression with columns and functions by their native names. */
  function Resolved(cx: Context, e: Expr): Term
    requires ScalarOk(cx, e)
    decreases e
  {
    match e
    case Call(func, args) =>
      if !IsAggregate(Upper(func)) then TCall(cx.scalarFunction(Upper(func)).value, ResolvedAll(cx, args))
      else if Upper(func) == "COUNT" && IsCountStar(cx, args) then TCall("COUNT", [TSymbol("*")])
      else TCall(Upper(func), [Resolved(cx, args[0])])
    case Ident(name) => if cx.column(name).Some? then TColumn(cx.column(name).value) else TSymbol(Upper(name))
    case Qualified(path) => TColumn(cx.column(path).value)
    case IntLit(n) => TArg(LInt(n))
    case FloatLit(x) => TArg(LFloat(x))
    case StrLit(s) => TArg(LStr(s))
    case NullLit => TNull
    case Infix(l, op, r) => TInfix(Resolved(cx, l), OpTok(op), Resolved(cx, r))
  }

  function ResolvedAll(cx: Context, es: seq<Expr>): seq<Term>
    requires forall i :: 0 <= i < |es| ==> ScalarOk(cx, es[i])
    decreases es
  {
    if es == [] then [] else [Resolved(cx, es[0])] + ResolvedAll(cx, es[1..])
  }

  /** What may follow a scalar: anything but an opening parenthesis, which would make a name a call. */
  predicate Closed(rest: seq<SqlTok>) {
    rest == [] || !rest[0].LP?
  }

  lemma CallReads(f: string, inner: seq<SqlTok>, args: seq<Lit>, list: seq<Term>, rest: seq<SqlTok>)
    requires ReadTerms(inner + [RP] + rest, args) == Some(Read(list, rest))
    ensures ReadTerm([Sym(f), LP] + inner + [RP] + rest, args) == Some(Read(TCall(f, list), rest))
  {
    assert ([Sym(f), LP] + inner + [RP] + rest)[2..] == inner + [RP] + rest;
  }

  lemma OneArgumentReads(inner: seq<SqlTok>, args: seq<Lit>, t: Term, rest: seq<SqlTok>)
    requires ReadTerm(inner + ([RP] + rest), args) == Some(Read(t, [RP] + rest))
    ensures ReadTerms(inner + [RP] + rest, args) == Some(Read([t], rest))
  {
    hide ReadTerm;
    assert inner + [RP] + rest == inner + ([RP] + rest);
    assert ([RP] + rest)[1..] == rest;
  }

  lemma CommaReads(first: seq<SqlTok>, more: seq<SqlTok>, args: seq<Lit>, t: Term, list: seq<Term>, rest: seq<SqlTok>)
    requires ReadTerm(first + ([Comma] + more), args) == Some(Read(t, [Comma] + more))
    requires ReadTerms(more, args) == Some(Read(list, rest))
    ensures ReadTerms(first + ([Comma] + more), args) == Some(Read([t] + list, rest))
  {
    hide ReadTerm;
    assert ([Comma] + more)[1..] == more;
  }

  lemma NoArgumentsRead(args: seq<Lit>, rest: seq<SqlTok>)
    ensures ReadTerms([] + [RP] + rest, args) == Some(Read([], rest))
  {
    assert ([] + [RP] + rest)[1..] == rest;
  }

  lemma OpensInfix(tail: seq<SqlTok>, args: seq<Lit>)
    ensures ReadTerm([LP] + tail, args) == ReadInfix(tail, args)
  {
    hide ReadInfix, ReadTerms;
    assert ([LP] + tail)[1..] == tail;
  }

  lemma InfixReads(l: seq<SqlTok>, op: SqlTok, r: seq<SqlTok>, args: seq<Lit>, t: Term, u: Term, rest: seq<SqlTok>)
    requires ReadTerm(l + ([op] + r + [RP] + rest), args) == Some(Read(t, [op] + r + [RP] + rest))
    requires ReadTerm(r + ([RP] + rest), args) == Some(Read(u, [RP] + rest))
    ensures ReadTerm([LP] + l + [op] + r + [RP] + rest, args) == Some(Read(TInfix(t, op, u), rest))
  {
    hide ReadTerm;
    var tail := l + ([op] + r + [RP] + rest);
    OpensInfix(tail, args);
    assert [LP] + l + [op] + r + [RP] + rest == [LP] + tail;
    assert ([op] + r + [RP] + rest)[1..] == r + ([RP] + rest);
    assert ([RP] + rest)[1..] == rest;
  }

  lemma LiteralReads(b: Binder, v: Lit, args: seq<Lit>, rest: seq<SqlTok>)
    requires BinderOk(b) && Bind(b, v).b.args <= args
    ensures ReadTerm(Bind(b, v).sql + rest, args) == Some(Read(TArg(v), rest))
  {
    ArgBound(b, v, args);
    assert ([Ph(b.idx + 1)] + rest)[1..] == rest;
  }

  lemma StarReads(args: seq<Lit>, rest: seq<SqlTok>)
    ensures ReadTerms([Sym("*")] + [RP] + rest, args) == Some(Read([TSymbol("*")], rest))
  {
    assert ([Sym("*")] + ([RP] + rest))[1..] == [RP] + rest;
    OneArgumentReads([Sym("*")], args, TSymbol("*"), rest);
  }

  /** Everything the scalar binds is in the final argument list. */
  ghost predicate Ready(cx: Context, e: Expr, b: Binder, args: seq<Lit>) {
    BinderOk(b) && ScalarOk(cx, e) && TranslateScalar(cx, e, b).Some? && TranslateScalar(cx, e, b).value.b.args <= args
  }

  lemma {:induction false} CallTermReads(cx: Context, e: Expr, b: Binder, args: seq<Lit>, rest: seq<SqlTok>)
    requires Ready(cx, e, b, args) && e.Call?
    ensures ReadTerm(TranslateScalar(cx, e, b).value.sql + rest, args) == Some(Read(Resolved(cx, e), rest))
    decreases e, 0
  {
    hide ReadTerm, ReadTerms, Upper;
    var f := Upper(e.func);
    if !IsAggregate(f) {
      var list := TranslateArguments(cx, e.args, b).value;
      ArgumentsRead(cx, e.args, b, args, rest);
      CallReads(cx.scalarFunction(f).value, list.sql, args, ResolvedAll(cx, e.args), rest);
    } else if f == "COUNT" && IsCountStar(cx, e.args) {
      StarReads(args, rest);
      CallReads(f, [Sym("*")], args, [TSymbol("*")], rest);
    } else {
      var a := e.args[0];
      ScalarReads(cx, a, b, args, [RP] + rest);
      OneArgumentReads(TranslateScalar(cx, a, b).value.sql, args, Resolved(cx, a), rest);
      CallReads(f, TranslateScalar(cx, a, b).value.sql, args, [Resolved(cx, a)], rest);
    }
  }

  /** Every translated scalar, followed by anything but an opening parenthesis, reads back as what it means. */
  lemma {:induction false} ScalarReads(cx: Context, e: Expr, b: Binder, args: seq<Lit>, rest: seq<SqlTok>)
    requires Ready(cx, e, b, args) && Closed(rest)
    ensures ReadTerm(TranslateScalar(cx, e, b).value.sql + rest, args) == Some(Read(Resolved(cx, e), rest))
    decreases e, 1
  {
    hide Upper;
    match e
    case Call(_, _) => CallTermReads(cx, e, b, args, rest);
    case IntLit(n) => LiteralReads(b, LInt(n), args, rest);
    case FloatLit(x) => LiteralReads(b, LFloat(x), args, rest);
    case StrLit(s) => LiteralReads(b, LStr(s), args, rest);
    case Infix(l, op, r) => InfixTermReads(cx, e, b, args, rest);
    case Ident(name) => assert (TranslateScalar(cx, e, b).value.sql + rest)[1..] == rest;
    case Qualified(path) => assert (TranslateScalar(cx, e, b).value.sql + rest)[1..] == rest;
    case NullLit => assert ([KNull] + rest)[1..] == rest;
  }

  lemma {:induction false} InfixTermReads(cx: Context, e: Expr, b: Binder, args: seq<Lit>, rest: seq<SqlTok>)
    requires Ready(cx, e, b, args) && e.Infix?
    ensures ReadTerm(TranslateScalar(cx, e, b).value.sql + rest, args) == Some(Read(Resolved(cx, e), rest))
    decreases e, 0
  {
    hide ReadTerm, Upper, InOrder;
    var left := TranslateScalar(cx, e.left, b).value;
    ScalarInOrder(cx, e.left, b);
    InOrderBinder(b, left);
    ScalarInOrder(cx, e.right, left.b);
    var right := TranslateScalar(cx, e.right, left.b).value;
    InOrderArgs(left.b, right);
    OpIsNoParenthesis(e.op);
    ScalarReads(cx, e.left, b, args, [OpTok(e.op)] + right.sql + [RP] + rest);
    ScalarReads(cx, e.right, left.b, args, [RP] + rest);
    InfixReads(left.sql, OpTok(e.op), right.sql, args, Resolved(cx, e.left), Resolved(cx, e.right), rest);
  }

  lemma OpIsNoParenthesis(op: string)
    ensures !OpTok(op).LP?
  {
  }

  lemma InOrderArgs(b: Binder, out: Emitted)
    requires InOrder(b, out)
    ensures BinderOk(out.b) && b.args <= out.b.args
  {
  }

  lemma {:induction false} ArgumentsRead(cx: Context, es: seq<Expr>, b: Binder, args: seq<Lit>, rest: seq<SqlTok>)
    requires BinderOk(b) && (forall i :: 0 <= i < |es| ==> ScalarOk(cx, es[i]))
    requires TranslateArguments(cx, es, b).Some? && TranslateArguments(cx, es, b).value.b.args <= args
    ensures ReadTerms(TranslateArguments(cx, es, b).value.sql + [RP] + rest, args)
            == Some(Read(ResolvedAll(cx, es), rest))
    decreases es
  {
    hide ReadTerm, ReadTerms, TranslateScalar, InOrder, ScalarOk;
    var sql := TranslateArguments(cx, es, b).value.sql;
    if es == [] {
      NoArgumentsRead(args, rest);
    } else {
      var a := TranslateScalar(cx, es[0], b).value;
      ScalarInOrder(cx, es[0], b);
      InOrderArgs(b, a);
      if |es| == 1 {
        ScalarReads(cx, es[0], b, args, [RP] + rest);
        OneArgumentReads(a.sql, args, Resolved(cx, es[0]), rest);
        assert sql == a.sql;
        assert ResolvedAll(cx, es) == [Resolved(cx, es[0])] + ResolvedAll(cx, es[1..]) == [Resolved(cx, es[0])];
      } else {
        var more := TranslateArguments(cx, es[1..], a.b).value;
        ArgumentsInOrder(cx, es[1..], a.b);
        InOrderArgs(a.b, more);
        var tail := more.sql + [RP] + rest;
        ScalarReads(cx, es[0], b, args, [Comma] + tail);
        ArgumentsRead(cx, es[1..], a.b, args, rest);
        CommaReads(a.sql, tail, args, Resolved(cx, es[0]), ResolvedAll(cx, es[1..]), rest);
        assert sql + [RP] + rest == a.sql + ([Comma] + tail);
      }
    }
  }

  /** So the k-th SELECT column of a generated statement is the k-th source column; the same holds for each clause. */
  lemma ItemReads(cx: Context, items: seq<Item>, b: Binder, args: seq<Lit>, rest: seq<SqlTok>)
    requires BinderOk(b) && items != [] && Closed(rest)
    requires TranslateItems(cx, items, b).Some? && TranslateItems(cx, items, b).value.b.args <= args
    requires forall i :: 0 <= i < |items| ==> PlainSuffix(items[i].suffix)
    ensures var n := |items| - 1;
            var before := TranslateItems(cx, items[..n], b).value;
            var lead := if n == 0 then [] else before.sql + [Comma];
            && TranslateItems(cx, items[..n], b).Some? && ScalarOk(cx, items[n].expr)
            && exists text :: TranslateItems(cx, items, b).value.sql == lead + text + items[n].suffix
                 && ReadTerm(text + rest, args) == Some(Read(Resolved(cx, items[n].expr), rest))
  {
    hide ReadTerm, InOrder, TranslateScalar, Numbered, PlainSuffix;
    var n := |items| - 1;
    var before := TranslateItems(cx, items[..n], b).value;
    ItemsInOrder(cx, items[..n], b);
    InOrderArgs(b, before);
    ScalarIff(cx, items[n].expr, before.b);
    ScalarReads(cx, items[n].expr, before.b, args, rest);
    var text := TranslateScalar(cx, items[n].expr, before.b).value.sql;
    assert TranslateItems(cx, items, b).value.sql
      == (if n == 0 then [] else before.sql + [Comma]) + text + items[n].suffix;
  }
}
