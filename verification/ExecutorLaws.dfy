/** What the executor's comparisons and conditions come to, told without the functions that compute them. */
module ExecutorLaws {
  import opened Basics
  import opened OqlAst
  import opened JsonPredicates
  import opened Executor

  // ----- compareValues -----

  predicate BothNumbers(f: Formats, a: GoVal, b: GoVal) {
    Numeric(f, a).Some? && Numeric(f, b).Some?
  }

  /** Nil comes first; two numbers, or texts that parse as such, compare by value; all else by its printed bytes. */
  lemma CompareMeans(f: Formats, a: GoVal, b: GoVal)
    ensures a.Nil? || b.Nil? ==>
              (CompareValues(f, a, b) < 0 <==> a.Nil? && !b.Nil?) && (CompareValues(f, a, b) == 0 <==> a.Nil? && b.Nil?)
    ensures !a.Nil? && !b.Nil? && BothNumbers(f, a, b) ==>
              var x, y := Numeric(f, a).value, Numeric(f, b).value;
              (CompareValues(f, a, b) < 0 <==> x < y) && (CompareValues(f, a, b) == 0 <==> x == y)
    ensures !a.Nil? && !b.Nil? && !BothNumbers(f, a, b) ==>
              && (CompareValues(f, a, b) < 0 <==> Before(Show(f, a), Show(f, b)))
              && (CompareValues(f, a, b) == 0 <==> Show(f, a) == Show(f, b))
  {
    hide CompareBytes, Before;
    BytesOrder(Show(f, a), Show(f, b));
  }

  /** Values that all count as numbers, or of which none does; nil goes with either. */
  predicate OneFamily(f: Formats, vs: seq<GoVal>) {
    || (forall i :: 0 <= i < |vs| ==> vs[i].Nil? || Numeric(f, vs[i]).Some?)
    || (forall i :: 0 <= i < |vs| ==> vs[i].Nil? || Numeric(f, vs[i]).None?)
  }

  /** Within one family the comparison is transitive, strictly if either step is strict. */
  lemma CompareIsTransitive(f: Formats, a: GoVal, b: GoVal, c: GoVal)
    requires OneFamily(f, [a, b, c]) && CompareValues(f, a, b) <= 0 && CompareValues(f, b, c) <= 0
    ensures CompareValues(f, a, c) <= 0
    ensures CompareValues(f, a, b) < 0 || CompareValues(f, b, c) < 0 ==> CompareValues(f, a, c) < 0
  {
    hide CompareBytes, CompareValues, Before;
    var vs := [a, b, c];
    assert vs[0] == a && vs[1] == b && vs[2] == c;
    CompareMeans(f, a, b);
    CompareMeans(f, b, c);
    CompareMeans(f, a, c);
    if !a.Nil? && !b.Nil? && !c.Nil? {
      if Before(Show(f, a), Show(f, b)) && Before(Show(f, b), Show(f, c)) {
        BeforeTrans(Show(f, a), Show(f, b), Show(f, c));
      }
    }
  }

  /** Across families it is not: "2" is less than "10", which is less than "1a", which is less than "2". */
  lemma MixedTextsCycle(f: Formats)
    requires f.parseFloat([0x32]) == Some(2.0) && f.parseFloat([0x31, 0x30]) == Some(10.0)
    requires f.parseFloat([0x31, 0x61]).None?
    ensures CompareValues(f, Str([0x32]), Str([0x31, 0x30])) < 0
    ensures CompareValues(f, Str([0x31, 0x30]), Str([0x31, 0x61])) < 0
    ensures CompareValues(f, Str([0x31, 0x61]), Str([0x32])) < 0
  {
    assert CompareBytes([0x31, 0x30], [0x31, 0x61]) == CompareBytes([0x30], [0x61]);
  }

  // ----- conditions -----

  /** Each operator by the sign of the comparison; no other operator holds of anything. */
  lemma ComparisonMeans(sem: Semantics, a: Expr, op: string, b: Expr)
    requires op != "AND" && op != "OR"
    ensures var cmp := CompareValues(sem.fmt, EvalExpr(sem, a), EvalExpr(sem, b));
            EvalCondition(sem, Infix(a, op, b)) <==>
              || (op == "<" && cmp < 0) || (op == ">" && cmp > 0) || (op == "=" && cmp == 0)
              || (op == "<=" && !(cmp > 0)) || (op == ">=" && !(cmp < 0)) || (op in {"!=", "<>"} && cmp != 0)
  {
  }

  lemma ConnectivesMean(sem: Semantics, a: Expr, b: Expr)
    ensures EvalCondition(sem, Infix(a, "AND", b)) <==> EvalCondition(sem, a) && EvalCondition(sem, b)
    ensures EvalCondition(sem, Infix(a, "OR", b)) <==> EvalCondition(sem, a) || EvalCondition(sem, b)
    ensures EvalCondition(sem, Prefix("NOT", a)) <==> !EvalCondition(sem, a)
  {
  }

  /** BETWEEN is the AND of its two comparisons. */
  lemma BetweenIsTwoComparisons(sem: Semantics, x: Expr, low: Expr, high: Expr)
    ensures EvalCondition(sem, Between(x, low, high, false))
       <==> EvalCondition(sem, Infix(Infix(x, ">=", low), "AND", Infix(x, "<=", high)))
    ensures EvalCondition(sem, Between(x, low, high, true))
       <==> EvalCondition(sem, Prefix("NOT", Between(x, low, high, false)))
  {
    hide CompareValues, EvalExpr;
    ConnectivesMean(sem, Infix(x, ">=", low), Infix(x, "<=", high));
  }

  /** `x = v1 OR x = v2 OR ...` */
  function AnyEqual(x: Expr, values: seq<Expr>): Expr
    requires values != []
  {
    if |values| == 1 then Infix(x, "=", values[0])
    else Infix(Infix(x, "=", values[0]), "OR", AnyEqual(x, values[1..]))
  }

  /** IN is the OR of its equalities, false without values, and NOT IN its negation. */
  lemma {:induction false} InIsAnyEqual(sem: Semantics, x: Expr, values: seq<Expr>, hasSubquery: bool)
    ensures EvalCondition(sem, InList(x, values, false, hasSubquery))
       <==> values != [] && EvalCondition(sem, AnyEqual(x, values))
    ensures EvalCondition(sem, InList(x, values, true, hasSubquery))
       <==> EvalCondition(sem, Prefix("NOT", InList(x, values, false, hasSubquery)))
    decreases |values|
  {
    hide CompareValues, EvalExpr;
    if values != [] {
      InIsAnyEqual(sem, x, values[1..], hasSubquery);
      assert values == [values[0]] + values[1..];
      if |values| > 1 {
        ConnectivesMean(sem, Infix(x, "=", values[0]), AnyEqual(x, values[1..]));
      }
    }
  }

  /** NOT LIKE is the negation of LIKE wherever LIKE answers; IS NOT NULL of IS NULL everywhere. */
  lemma NegatedTestsMean(sem: Semantics, x: Expr, pattern: Expr, esc: bool)
    ensures EvalCondition(sem, Like(x, pattern, true, esc))
       <==> LikeAnswer(sem.fmt, EvalExpr(sem, x), EvalExpr(sem, pattern)).Some?
            && EvalCondition(sem, Prefix("NOT", Like(x, pattern, false, esc)))
    ensures EvalCondition(sem, IsNull(x, false)) <==> EvalExpr(sem, x) == Nil
    ensures EvalCondition(sem, IsNull(x, true)) <==> EvalCondition(sem, Prefix("NOT", IsNull(x, false)))
  {
  }

  // ----- qualified names -----

  /** What follows the last dot, if there is a dot. */
  lemma {:induction false} AfterLastDotMeans(name: string)
    ensures AfterLastDot(name).None? <==> '.' !in name
    ensures AfterLastDot(name).Some? ==>
              var s := AfterLastDot(name).value;
              '.' !in s && |s| < |name| && name == name[..|name| - |s| - 1] + "." + s
  {
    if name != "" {
      AfterLastDotMeans(name[1..]);
      assert name == [name[0]] + name[1..];
    }
  }
}
