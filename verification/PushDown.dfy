/**
 * The two halves of a pushed-down WHERE put together: what the inline filter makes of a compiled term,
 * against what the executor makes of the term on the decoded record.
 */
module PushDown {
  import opened Basics
  import opened OqlAst
  import opened JsonGrammar
  import opened JsonPredicates
  import opened JsonFilter
  import opened Executor
  import opened PredicateCompiler
  import Like = LikeMatching

  // ----- the decoded record -----

  function GoOf(input: seq<Byte>, v: Json, rd: Readers): GoVal {
    match KindOf(v)
    case TokString => Str(RawOf(input, v))
    case TokNumber => Num(rd.toFloat(RawOf(input, v)))
    case TokTrue => Bool(true)
    case TokFalse => Bool(false)
    case TokNull => Nil
    case _ => Nested(RawOf(input, v))
  }

  function Looked(input: seq<Byte>, ms: Members, f: Formats, name: string): Option<GoVal> {
    match LastValue(input, ms, f.encode(name))
    case Some(v) => Some(GoOf(input, v, f.rd))
    case None => None
  }

  /** The executor's view of an object: the last occurrence of each field counts. */
  function RecordOf(input: seq<Byte>, ms: Members, f: Formats): Semantics {
    Semantics(f, name => Looked(input, ms, f, name))
  }

  // ----- the executor on a compiled term -----

  /** What a literal is to the executor. */
  function LitGo(f: Formats, e: Expr): GoVal {
    match e
    case StrLit(s) => Str(f.encode(s))
    case IntLit(n) => Int(n)
    case FloatLit(x) => Num(x)
    case Ident(name) => Bool(IsTrueName(name))
    case _ => Nil
  }

  function LitsGo(f: Formats, es: seq<Expr>): (r: seq<GoVal>)
    ensures |r| == |es| && forall i :: 0 <= i < |es| ==> r[i] == LitGo(f, es[i])
  {
    seq(|es|, i requires 0 <= i < |es| => LitGo(f, es[i]))
  }

  predicate FieldFirst(e: Expr)
    requires e.Infix?
  {
    ExtractFieldName(e.left).Some? && IsLiteralExpr(e.right)
  }

  /** The field a compilable term is about. */
  function TermField(e: Expr): string
    requires Compilable(e)
  {
    match e
    case Infix(l, _, r) => if FieldFirst(e) then ExtractFieldName(l).value else ExtractFieldName(r).value
    case InList(x, _, _, _) => ExtractFieldName(x).value
    case Like(x, _, _, _) => ExtractFieldName(x).value
  }

  /** The literals it is compared with. */
  function TermLits(f: Formats, e: Expr): seq<GoVal>
    requires Compilable(e)
  {
    match e
    case Infix(l, _, r) => [LitGo(f, if FieldFirst(e) then r else l)]
    case InList(_, values, _, _) => LitsGo(f, values)
    case Like(_, pattern, _, _) => [LitGo(f, pattern)]
  }

  /** What the executor makes of a field's value, the literals and the predicate's operator. */
  predicate Accepts(f: Formats, op: PredicateOp, lits: seq<GoVal>, v: GoVal) {
    match op
    case OpIn => exists t :: t in lits && CompareValues(f, v, t) == 0
    case OpLike => |lits| == 1 && LikeAnswer(f, v, lits[0]) == Some(true)
    case _ => |lits| == 1 && Ordering(CompareValues(f, v, lits[0]), op)
  }

  lemma LiteralMeans(sem: Semantics, e: Expr)
    requires IsLiteralExpr(e)
    ensures ExtractLiteral(sem.fmt, e).Some? && EvalExpr(sem, e) == LitGo(sem.fmt, e)
  {
  }

  lemma FieldMeans(sem: Semantics, e: Expr)
    requires ExtractFieldName(e).Some?
    ensures EvalExpr(sem, e) == FieldValue(sem, ExtractFieldName(e).value)
  {
  }

  /** Flipping a comparison is right for "literal op field". */
  lemma ReverseMeans(f: Formats, a: GoVal, b: GoVal, op: string)
    requires MapOp(op).Some?
    ensures Ordering(CompareValues(f, b, a), ReverseOp(MapOp(op).value)) <==> EvalComparison(CompareValues(f, a, b), op)
    ensures Ordering(CompareValues(f, a, b), MapOp(op).value) <==> EvalComparison(CompareValues(f, a, b), op)
  {
    CompareFlips(f, a, b);
  }

  lemma InfixAccepts(sem: Semantics, e: Expr)
    requires e.Infix? && Compilable(e)
    ensures CompileInfix(sem.fmt, e).Some?
    ensures var fp := CompileInfix(sem.fmt, e).value;
            EvalCondition(sem, e) <==> Accepts(sem.fmt, fp.op, TermLits(sem.fmt, e), FieldValue(sem, TermField(e)))
  {
    hide EvalExpr, ExtractFieldName, ExtractLiteral, CompareValues, IsLiteralExpr, LitGo;
    CompiledIff(sem.fmt, e);
    if FieldFirst(e) {
      FieldMeans(sem, e.left);
      LiteralMeans(sem, e.right);
    } else {
      FieldMeans(sem, e.right);
      LiteralMeans(sem, e.left);
      LiteralIsNoField(e.left);
    }
    ReverseMeans(sem.fmt, EvalExpr(sem, e.left), EvalExpr(sem, e.right), e.op);
  }

  lemma LiteralIsNoField(e: Expr)
    requires IsLiteralExpr(e)
    ensures ExtractFieldName(e).None?
  {
  }

  lemma ListedAccepts(sem: Semantics, es: seq<Expr>, v: GoVal)
    requires AllLiteral(es)
    ensures (exists t :: t in LitsGo(sem.fmt, es) && CompareValues(sem.fmt, v, t) == 0)
       <==> (exists x :: x in es && CompareValues(sem.fmt, v, EvalExpr(sem, x)) == 0)
  {
    hide CompareValues, EvalExpr, IsLiteralExpr, LitGo;
    var lits := LitsGo(sem.fmt, es);
    forall x | x in es
      ensures EvalExpr(sem, x) == LitGo(sem.fmt, x) && LitGo(sem.fmt, x) in lits
    {
      LiteralMeans(sem, x);
      var i :| 0 <= i < |es| && es[i] == x;
      assert lits[i] == LitGo(sem.fmt, x);
    }
    if t :| t in lits && CompareValues(sem.fmt, v, t) == 0 {
      var i :| 0 <= i < |lits| && lits[i] == t;
      assert es[i] in es;
    }
  }

  /** The executor's verdict on a term is what its operator and literals say of the field's value. */
  lemma TermAccepts(sem: Semantics, e: Expr)
    requires Compilable(e)
    ensures Compiled(sem.fmt, e).Some?
    ensures var fp := Compiled(sem.fmt, e).value;
            && fp.name == sem.fmt.encode(TermField(e))
            && (EvalCondition(sem, e) <==> Accepts(sem.fmt, fp.op, TermLits(sem.fmt, e), FieldValue(sem, TermField(e))))
  {
    hide Upper, CompareValues, LikeAnswer, LitsGo;
    CompiledIff(sem.fmt, e);
    match e
    case Infix(_, _, _) => InfixAccepts(sem, e);
    case InList(x, values, _, _) =>
      FieldMeans(sem, x);
      ListedAccepts(sem, values, FieldValue(sem, TermField(e)));
    case Like(x, pattern, _, _) =>
      FieldMeans(sem, x);
  }

  // ----- the predicate a term becomes -----

  /** The predicate's value for a literal. */
  predicate Stands(lit: GoVal, val: Value) {
    match lit
    case Str(s) => val == VString(s)
    case Int(n) => val == VFloat(n as real)
    case Num(x) => val == VFloat(x)
    case Bool(b) => val == VBool(b)
    case _ => false
  }

  predicate StandAll(lits: seq<GoVal>, vs: seq<Value>) {
    |lits| == |vs| && forall i :: 0 <= i < |lits| ==> Stands(lits[i], vs[i])
  }

  /** A predicate as the compiler makes it of these literals: the value has the predicate's type, or is a list. */
  predicate MadeOf(fp: FieldPredicate, lits: seq<GoVal>) {
    match fp.op
    case OpIn => fp.val.VList? && StandAll(lits, fp.val.vs)
    case OpLike => fp.typ == FieldString && StandAll(lits, [fp.val]) && fp.val.VString?
    case _ =>
      StandAll(lits, [fp.val])
      && ((fp.typ == FieldString && fp.val.VString?)
          || (fp.typ == FieldFloat && fp.val.VFloat?)
          || (fp.typ == FieldBool && fp.val.VBool?))
  }

  lemma LiteralStands(f: Formats, e: Expr)
    requires IsLiteralExpr(e)
    ensures ExtractLiteral(f, e).Some? && Stands(LitGo(f, e), ExtractLiteral(f, e).value.0)
    ensures var (val, ft) := ExtractLiteral(f, e).value;
            && (ft == FieldString ==> val.VString?) && (ft == FieldFloat ==> val.VFloat?)
            && (ft == FieldBool ==> val.VBool?) && ft != FieldInt
  {
  }

  lemma {:induction false} LiteralsStand(f: Formats, es: seq<Expr>)
    requires AllLiteral(es)
    ensures StandAll(LitsGo(f, es), LiteralValues(f, es))
  {
    hide Stands, ExtractLiteral, LitGo, IsLiteralExpr;
    if es != [] {
      var n := |es| - 1;
      assert es[n] in es;
      LiteralsStand(f, es[..n]);
      LiteralStands(f, es[n]);
      assert LitsGo(f, es) == LitsGo(f, es[..n]) + [LitGo(f, es[n])];
    }
  }

  lemma CompiledIsMadeOf(f: Formats, e: Expr)
    requires Compilable(e)
    ensures Compiled(f, e).Some? && MadeOf(Compiled(f, e).value, TermLits(f, e))
    ensures Compiled(f, e).value.typ != FieldInt
    ensures Compiled(f, e).value.atom == MakeAtom(Compiled(f, e).value.name)
  {
    hide Upper, MakeAtom;
    CompiledIff(f, e);
    match e
    case Infix(l, _, r) =>
      if FieldFirst(e) {
        LiteralStands(f, r);
      } else {
        LiteralStands(f, l);
        LiteralIsNoField(l);
      }
    case InList(_, values, _, _) =>
      LiteralsStand(f, values);
      if values != [] {
        assert values[0] in values;
        LiteralStands(f, values[0]);
      }
    case Like(_, _, _, _) =>
  }

  // ----- exactly when filter and executor agree on a term -----

  predicate Typed(typ: FieldType, kind: TokenType) {
    match typ
    case FieldString => kind == TokString
    case FieldInt => kind == TokNumber
    case FieldFloat => kind == TokNumber
    case FieldBool => kind == TokTrue || kind == TokFalse
  }

  /** What the executor accepts of a field that is absent or null: nil is less than anything, and prints as text. */
  predicate NilAccepted(f: Formats, fp: FieldPredicate) {
    || fp.op == OpNeq || fp.op == OpLt || fp.op == OpLte
    || (fp.op == OpLike && fp.val.VString?
        && Like.ExecutorLike(f.rd.toLower(NIL_TEXT), f.rd.toLower(fp.val.s)) == Some(true))
  }

  lemma NilAcceptedIff(f: Formats, fp: FieldPredicate, lits: seq<GoVal>)
    requires MadeOf(fp, lits)
    ensures Accepts(f, fp.op, lits, Nil) <==> NilAccepted(f, fp)
  {
    hide Like.ExecutorLike;
    forall t | t in lits
      ensures !t.Nil?
    {
      var i :| 0 <= i < |lits| && lits[i] == t;
      assert fp.op == OpIn ==> Stands(lits[i], fp.val.vs[i]);
      assert fp.op != OpIn ==> Stands(lits[i], [fp.val][i]);
    }
  }

  predicate IsNumber(t: GoVal) {
    t.Int? || t.Num?
  }

  function NumberOf(t: GoVal): real
    requires IsNumber(t)
  {
    if t.Int? then t.n as real else t.x
  }

  /** A listed number equals `x`. */
  predicate ListedExactly(lits: seq<GoVal>, x: real) {
    exists t :: t in lits && IsNumber(t) && NumberOf(t) == x
  }

  /** A listed value of another family compares equal to the number. */
  predicate ListedForeign(f: Formats, lits: seq<GoVal>, x: real) {
    exists t :: t in lits && !IsNumber(t) && CompareValues(f, Num(x), t) == 0
  }

  /**
   * When the filter's verdict on a value is the executor's. Without the field, with null or with a value of
   * another type the filter says no, so the executor must too. With a number against a number there is
   * nothing to ask. Elsewhere: text that looks like numbers on both sides must compare alike as text and as
   * numbers; booleans have no order; a list is searched for values of the field's own type only, for
   * numbers with a tolerance; and the two LIKE matchers must agree.
   */
  ghost predicate Aligned(f: Formats, fp: FieldPredicate, lits: seq<GoVal>, kind: Option<TokenType>, v: GoVal) {
    if kind.None? || !Typed(fp.typ, kind.value) then
      if v.Nil? then !NilAccepted(f, fp) else !Accepts(f, fp.op, lits, v)
    else
      match v
      case Num(x) =>
        fp.op == OpIn ==> (InNumeric(x, fp.val) <==> ListedExactly(lits, x) || ListedForeign(f, lits, x))
      case Str(s) =>
        (match fp.op
         case OpIn => Accepts(f, fp.op, lits, v) ==> Str(s) in lits
         case OpLike =>
           fp.val.VString? ==>
             Like.ExecutorLike(f.rd.toLower(s), f.rd.toLower(fp.val.s))
             == Some(Like.Matches(f.rd.toLower(s), f.rd.toLower(fp.val.s)))
         case _ =>
           fp.val.VString? && f.parseFloat(s).Some? && f.parseFloat(fp.val.s).Some? ==>
             (Ordering(CompareReal(f.parseFloat(s).value, f.parseFloat(fp.val.s).value), fp.op)
              <==> Ordering(CompareBytes(s, fp.val.s), fp.op)))
      case _ => fp.op == OpEq || fp.op == OpNeq || !Accepts(f, fp.op, lits, v)
  }

  lemma ListedNumberIff(f: Formats, lits: seq<GoVal>, x: real)
    ensures Accepts(f, OpIn, lits, Num(x)) <==> ListedExactly(lits, x) || ListedForeign(f, lits, x)
  {
    if t :| t in lits && CompareValues(f, Num(x), t) == 0 {
      if IsNumber(t) {
        assert NumberOf(t) == x;
      }
    }
    if t :| t in lits && IsNumber(t) && NumberOf(t) == x {
      assert CompareValues(f, Num(x), t) == 0;
    }
  }

  lemma NumberAgrees(f: Formats, fp: FieldPredicate, lits: seq<GoVal>, x: real)
    requires MadeOf(fp, lits) && fp.typ == FieldFloat
    ensures (EvalFloat(fp, x) <==> Accepts(f, fp.op, lits, Num(x))) <==> Aligned(f, fp, lits, Some(TokNumber), Num(x))
  {
    if fp.op == OpIn {
      hide InNumeric, Accepts, ListedExactly, ListedForeign;
      ListedNumberIff(f, lits, x);
    } else {
      assert Stands(lits[0], [fp.val][0]);
    }
  }

  lemma ListedTextIff(lits: seq<GoVal>, vs: seq<Value>, s: seq<Byte>)
    requires StandAll(lits, vs)
    ensures VString(s) in vs <==> Str(s) in lits
  {
    if VString(s) in vs {
      var i :| 0 <= i < |vs| && vs[i] == VString(s);
      assert Stands(lits[i], vs[i]);
      assert lits[i] in lits;
    }
    if Str(s) in lits {
      var i :| 0 <= i < |lits| && lits[i] == Str(s);
      assert Stands(lits[i], vs[i]);
      assert vs[i] in vs;
    }
  }

  lemma StringAgrees(f: Formats, fp: FieldPredicate, lits: seq<GoVal>, s: seq<Byte>)
    requires MadeOf(fp, lits) && fp.typ == FieldString
    ensures (EvalString(fp, s, f.rd) <==> Accepts(f, fp.op, lits, Str(s)))
       <==> Aligned(f, fp, lits, Some(TokString), Str(s))
  {
    hide CompareBytes, Before, Like.Matches, Like.ExecutorLike;
    if fp.op == OpIn {
      hide Stands;
      ListedTextIff(lits, fp.val.vs, s);
      BytesOrder(s, s);
      assert Str(s) in lits ==> CompareValues(f, Str(s), Str(s)) == 0;
    } else {
      assert Stands(lits[0], [fp.val][0]);
      if fp.op == OpLike {
        var text, p := f.rd.toLower(s), f.rd.toLower(fp.val.s);
        Like.ExecutorAnswersIff(text, p);
        Like.PercentAlone(text);
        assert LikeAnswer(f, Str(s), lits[0]) == Like.ExecutorLike(text, p);
        assert Like.ExecutorLike(text, p).None? ==> Like.Matches(text, p);
      }
    }
  }

  lemma BoolAgrees(f: Formats, fp: FieldPredicate, lits: seq<GoVal>, b: bool)
    requires MadeOf(fp, lits) && fp.typ == FieldBool
    ensures (EvalBool(fp, b) <==> Accepts(f, fp.op, lits, Bool(b)))
       <==> Aligned(f, fp, lits, Some(if b then TokTrue else TokFalse), Bool(b))
  {
    hide CompareBytes, Before;
    if fp.op != OpIn {
      assert Stands(lits[0], [fp.val][0]);
      BytesOrder(Show(f, Bool(b)), Show(f, lits[0]));
      assert |TRUE_LIT| != |FALSE_LIT|;
    }
  }

  /** The type of the last occurrence of a field. */
  function LastKind(input: seq<Byte>, ms: Members, name: seq<Byte>): Option<TokenType> {
    match LastValue(input, ms, name)
    case Some(v) => Some(KindOf(v))
    case None => None
  }

  lemma ValueAgrees(f: Formats, fp: FieldPredicate, lits: seq<GoVal>, input: seq<Byte>, v: Json)
    requires MadeOf(fp, lits) && fp.typ != FieldInt
    ensures (EvalToken(fp, KindOf(v), RawOf(input, v), f.rd) <==> Accepts(f, fp.op, lits, GoOf(input, v, f.rd)))
       <==> Aligned(f, fp, lits, Some(KindOf(v)), GoOf(input, v, f.rd))
  {
    hide Accepts, EvalString, EvalFloat, EvalBool, RawOf, MadeOf, NilAccepted;
    if Typed(fp.typ, KindOf(v)) {
      match fp.typ
      case FieldString => StringAgrees(f, fp, lits, RawOf(input, v));
      case FieldFloat => NumberAgrees(f, fp, lits, f.rd.toFloat(RawOf(input, v)));
      case FieldBool => BoolAgrees(f, fp, lits, KindOf(v) == TokTrue);
    } else {
      NilAcceptedIff(f, fp, lits);
    }
  }

  lemma AbsentAgrees(f: Formats, fp: FieldPredicate, lits: seq<GoVal>, v: GoVal)
    requires MadeOf(fp, lits)
    ensures Aligned(f, fp, lits, None, v) <==> !Accepts(f, fp.op, lits, v)
  {
    hide Accepts, MadeOf, NilAccepted;
    NilAcceptedIff(f, fp, lits);
  }

  /** The condition for one term on one object. */
  ghost predicate TermAligned(input: seq<Byte>, ms: Members, f: Formats, e: Expr)
    requires Compiled(f, e).Some? && Compilable(e)
  {
    var fp := Compiled(f, e).value;
    Aligned(f, fp, TermLits(f, e), LastKind(input, ms, fp.name), FieldValue(RecordOf(input, ms, f), TermField(e)))
  }

  /** A compiled term means to the filter what it means to the executor exactly when it is aligned with the object. */
  lemma CompiledAgreesIff(input: seq<Byte>, ms: Members, f: Formats, e: Expr)
    requires Compilable(e)
    ensures Compiled(f, e).Some?
    ensures (Holds(Compiled(f, e).value, input, ms, f.rd) <==> EvalCondition(RecordOf(input, ms, f), e))
       <==> TermAligned(input, ms, f, e)
  {
    hide EvalCondition, Compiled, Compilable, Aligned, EvalToken, Accepts, TermField, TermLits, GoOf, MadeOf;
    var sem := RecordOf(input, ms, f);
    TermAccepts(sem, e);
    CompiledIsMadeOf(f, e);
    var fp, lits := Compiled(f, e).value, TermLits(f, e);
    var last := LastValue(input, ms, fp.name);
    if last.Some? {
      ValueAgrees(f, fp, lits, input, last.value);
    } else {
      AbsentAgrees(f, fp, lits, FieldValue(sem, TermField(e)));
    }
  }

  // ----- where they part -----

  /** `x != 5` on an object without x: the executor accepts, the filter does not. */
  lemma MissingFieldDisagrees(input: seq<Byte>, ms: Members, f: Formats, x: string, n: int)
    requires ExtractFieldName(Ident(x)).Some? && AfterLastDot(x).None? && LastValue(input, ms, f.encode(x)).None?
    ensures var e := Infix(Ident(x), "!=", IntLit(n));
            && Compiled(f, e).Some? && !Holds(Compiled(f, e).value, input, ms, f.rd)
            && EvalCondition(RecordOf(input, ms, f), e)
  {
    hide Upper, MakeAtom;
    assert FieldValue(RecordOf(input, ms, f), x) == Nil;
  }

  /** `x IN ('a', 5)` on an object whose x is the number 5: the list goes by its first value's type. */
  lemma MixedListDisagrees(input: seq<Byte>, ms: Members, f: Formats, x: string, v: Json)
    requires ExtractFieldName(Ident(x)).Some? && LastValue(input, ms, f.encode(x)) == Some(v)
    requires KindOf(v) == TokNumber && f.rd.toFloat(RawOf(input, v)) == 5.0
    ensures var e := InList(Ident(x), [StrLit("a"), IntLit(5)], false, false);
            && Compiled(f, e).Some? && !Holds(Compiled(f, e).value, input, ms, f.rd)
            && EvalCondition(RecordOf(input, ms, f), e)
  {
    hide Upper, MakeAtom;
    var e := InList(Ident(x), [StrLit("a"), IntLit(5)], false, false);
    CompiledIff(f, e);
    assert Compiled(f, e).value.typ == FieldString;
    assert FieldValue(RecordOf(input, ms, f), x) == Num(5.0);
    assert IntLit(5) in e.values && CompareValues(f, Num(5.0), Int(5)) == 0;
  }

  /** `x < '9'` on an object whose x is the text 10: less as text, not less as a number. */
  lemma NumericTextDisagrees(input: seq<Byte>, ms: Members, f: Formats, x: string, v: Json)
    requires ExtractFieldName(Ident(x)).Some? && LastValue(input, ms, f.encode(x)) == Some(v)
    requires KindOf(v) == TokString && RawOf(input, v) == [0x31, 0x30] && f.encode("9") == [0x39]
    requires f.parseFloat([0x31, 0x30]) == Some(10.0) && f.parseFloat([0x39]) == Some(9.0)
    ensures var e := Infix(Ident(x), "<", StrLit("9"));
            && Compiled(f, e).Some? && Holds(Compiled(f, e).value, input, ms, f.rd)
            && !EvalCondition(RecordOf(input, ms, f), e)
  {
    hide Upper, MakeAtom;
    assert FieldValue(RecordOf(input, ms, f), x) == Str([0x31, 0x30]);
    assert CompareBytes([0x31, 0x30], [0x39]) == -1;
  }

  /**
   * `x > 1 AND x < 5` on an object whose x is 3: both compiled terms hold and the executor accepts, yet the
   * two predicates share a slot, so that the filter passes no object at all.
   */
  lemma SharedFieldRejects(input: seq<Byte>, ms: Members, f: Formats, x: string, v: Json)
    requires ExtractFieldName(Ident(x)).Some? && LastValue(input, ms, f.encode(x)) == Some(v)
    requires KindOf(v) == TokNumber && f.rd.toFloat(RawOf(input, v)) == 3.0
    ensures var a, b := Infix(Ident(x), ">", IntLit(1)), Infix(Ident(x), "<", IntLit(5));
            && Compiled(f, a).Some? && Holds(Compiled(f, a).value, input, ms, f.rd)
            && Compiled(f, b).Some? && Holds(Compiled(f, b).value, input, ms, f.rd)
            && EvalCondition(RecordOf(input, ms, f), Infix(a, "AND", b))
            && Pushed(FlattenAnd(Infix(a, "AND", b))) == [a, b]
            && SharesSlot([Compiled(f, a).value, Compiled(f, b).value])
  {
    hide Upper, MakeAtom, Compiled, Holds, EvalCondition, ExtractFieldName, RecordOf;
    var a, b := Infix(Ident(x), ">", IntLit(1)), Infix(Ident(x), "<", IntLit(5));
    NumberTerm(input, ms, f, x, v, ">", 1);
    NumberTerm(input, ms, f, x, v, "<", 5);
    AndMeans(RecordOf(input, ms, f), a, b);
    BothPushed(a, b);
    var preds := [Compiled(f, a).value, Compiled(f, b).value];
    assert preds[0].atom == preds[1].atom;
  }

  /** A field compared with an integer, on an object where it is a number. */
  lemma NumberTerm(input: seq<Byte>, ms: Members, f: Formats, x: string, v: Json, op: string, n: int)
    requires ExtractFieldName(Ident(x)).Some? && LastValue(input, ms, f.encode(x)) == Some(v)
    requires KindOf(v) == TokNumber && op in {"<", ">"}
    ensures var e := Infix(Ident(x), op, IntLit(n));
            && Compilable(e) && Upper(op) != "AND"
            && Compiled(f, e).Some? && Compiled(f, e).value.atom == MakeAtom(f.encode(x))
            && (Holds(Compiled(f, e).value, input, ms, f.rd) <==>
                EvalComparison(CompareReal(f.rd.toFloat(RawOf(input, v)), n as real), op))
            && (EvalCondition(RecordOf(input, ms, f), e) <==>
                EvalComparison(CompareReal(f.rd.toFloat(RawOf(input, v)), n as real), op))
  {
    hide Upper, MakeAtom;
    assert |Upper(op)| == 1;
    assert FieldValue(RecordOf(input, ms, f), x) == Num(f.rd.toFloat(RawOf(input, v)));
  }

  lemma BothPushed(a: Expr, b: Expr)
    requires a.Infix? && b.Infix? && Compilable(a) && Compilable(b) && Upper(a.op) != "AND" && Upper(b.op) != "AND"
    ensures Pushed(FlattenAnd(Infix(a, "AND", b))) == [a, b]
  {
    hide Compilable;
    assert Upper("AND") == "AND" by {
      assert Upper("D") == "D" && Upper("ND") == "ND";
    }
    assert FlattenAnd(Infix(a, "AND", b)) == [a, b];
    assert [a][..0] == [] && Pushed([a]) == Pushed([]) + [a];
    assert [a, b][..1] == [a] && Pushed([a, b]) == Pushed([a]) + [b];
  }
}
