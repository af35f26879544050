/**
 * Generated SQL as a token list, how SQL reads a condition (BETWEEN owns its AND, then NOT, AND, OR),
 * and the numbering of positional placeholders.
 */
module SqlText {
  import opened Basics

  datatype Lit = LInt(n: int) | LFloat(x: real) | LStr(s: string) | LBool(b: bool) | LNull

  datatype SqlTok =
    | Sym(text: string)
    | Col(name: string)
    | Ph(k: nat)
    | KAnd | KOr | KNot | KBetween | KIn | KLike | KIs | KNull
    | LP | RP | Comma

  // ----- three-valued logic -----

  datatype Tri = True | False | Unknown

  function TNot(a: Tri): Tri {
    match a
    case True => False
    case False => True
    case Unknown => Unknown
  }

  function TAnd(a: Tri, b: Tri): Tri {
    if a == False || b == False then False else if a == True && b == True then True else Unknown
  }

  function TOr(a: Tri, b: Tri): Tri {
    if a == True || b == True then True else if a == False && b == False then False else Unknown
  }

  // ----- leaves -----

  /** One elementary test of a column, with the values bound to its placeholders. */
  datatype Leaf =
    | Compare(col: string, op: string, v: Lit)
    | NullTest(col: string, not: bool)
    | BetweenTest(col: string, low: Lit, high: Lit)
    | InTest(col: string, vs: seq<Lit>)
    | LikeTest(col: string, v: Lit)

  type Valuation = Leaf -> Tri

  datatype Read<T> = Read(v: T, rest: seq<SqlTok>)

  predicate Bound(args: seq<Lit>, t: SqlTok) {
    t.Ph? && 0 < t.k <= |args|
  }

  function Arg(args: seq<Lit>, t: SqlTok): Lit
    requires Bound(args, t)
  {
    args[t.k - 1]
  }

  /** A possibly empty, comma-separated placeholder list up to the closing parenthesis. */
  function ReadList(ts: seq<SqlTok>, args: seq<Lit>): (r: Option<Read<seq<Lit>>>)
    ensures r.Some? ==> |r.value.rest| < |ts|
  {
    if ts == [] then None
    else if ts[0].RP? then Some(Read([], ts[1..]))
    else if !Bound(args, ts[0]) || |ts| < 2 then None
    else if ts[1].RP? then Some(Read([Arg(args, ts[0])], ts[2..]))
    else if !ts[1].Comma? then None
    else
      match ReadList(ts[2..], args)
      case None => None
      case Some(more) => Some(Read([Arg(args, ts[0])] + more.v, more.rest))
  }

  /** One elementary test of a WHERE clause. */
  function ReadTest(ts: seq<SqlTok>, args: seq<Lit>, val: Valuation): (r: Option<Read<Tri>>) {
    if |ts| < 3 || !ts[0].Col? then None
    else
      var c := ts[0].name;
      match ts[1]
      case Sym(op) => if Bound(args, ts[2]) then Some(Read(val(Compare(c, op, Arg(args, ts[2]))), ts[3..])) else None
      case KIs =>
        if ts[2].KNull? then Some(Read(val(NullTest(c, false)), ts[3..]))
        else if ts[2].KNot? && |ts| > 3 && ts[3].KNull? then Some(Read(val(NullTest(c, true)), ts[4..]))
        else None
      case KBetween =>
        if |ts| >= 5 && Bound(args, ts[2]) && ts[3].KAnd? && Bound(args, ts[4])
        then Some(Read(val(BetweenTest(c, Arg(args, ts[2]), Arg(args, ts[4]))), ts[5..]))
        else None
      case KIn =>
        if !ts[2].LP? then None
        else
          (match ReadList(ts[3..], args)
           case None => None
           case Some(list) => Some(Read(val(InTest(c, list.v)), list.rest)))
      case KLike => if Bound(args, ts[2]) then Some(Read(val(LikeTest(c, Arg(args, ts[2]))), ts[3..])) else None
      case _ => None
  }

  // ----- conditions over any kind of elementary test -----

  /** Reads one elementary test at the front of a text. */
  type TestReader = seq<SqlTok> -> Option<Read<Tri>>

  /** An elementary test, which takes something of the text. */
  function ReadLeaf(ts: seq<SqlTok>, leaf: TestReader): (r: Option<Read<Tri>>)
    ensures r.Some? ==> |r.value.rest| < |ts|
  {
    match leaf(ts)
    case Some(r) => if |r.rest| < |ts| then Some(r) else None
    case None => None
  }

  /** An elementary test or a parenthesised condition. */
  function ReadPrimary(ts: seq<SqlTok>, leaf: TestReader): (r: Option<Read<Tri>>)
    ensures r.Some? ==> |r.value.rest| < |ts|
    decreases |ts|, 0
  {
    if ReadLeaf(ts, leaf).Some? then ReadLeaf(ts, leaf)
    else if |ts| == 0 || !ts[0].LP? then None
    else
      match ReadOr(ts[1..], leaf)
      case None => None
      case Some(inner) => if inner.rest != [] && inner.rest[0].RP? then Some(Read(inner.v, inner.rest[1..])) else None
  }

  function ReadNot(ts: seq<SqlTok>, leaf: TestReader): (r: Option<Read<Tri>>)
    ensures r.Some? ==> |r.value.rest| < |ts|
    decreases |ts|, 1
  {
    if |ts| > 0 && ts[0].KNot? then
      match ReadNot(ts[1..], leaf)
      case None => None
      case Some(inner) => Some(Read(TNot(inner.v), inner.rest))
    else ReadPrimary(ts, leaf)
  }

  /** More conjuncts after the value `acc`. */
  function AndLoop(acc: Tri, ts: seq<SqlTok>, leaf: TestReader): (r: Option<Read<Tri>>)
    ensures r.Some? ==> |r.value.rest| <= |ts|
    decreases |ts|, 2
  {
    if |ts| > 0 && ts[0].KAnd? then
      match ReadNot(ts[1..], leaf)
      case None => None
      case Some(next) => AndLoop(TAnd(acc, next.v), next.rest, leaf)
    else Some(Read(acc, ts))
  }

  function ReadAnd(ts: seq<SqlTok>, leaf: TestReader): (r: Option<Read<Tri>>)
    ensures r.Some? ==> |r.value.rest| < |ts|
    decreases |ts|, 3
  {
    match ReadNot(ts, leaf)
    case None => None
    case Some(first) => AndLoop(first.v, first.rest, leaf)
  }

  /** More disjuncts after the value `acc`. */
  function OrLoop(acc: Tri, ts: seq<SqlTok>, leaf: TestReader): (r: Option<Read<Tri>>)
    ensures r.Some? ==> |r.value.rest| <= |ts|
    decreases |ts|, 4
  {
    if |ts| > 0 && ts[0].KOr? then
      match ReadAnd(ts[1..], leaf)
      case None => None
      case Some(next) => OrLoop(TOr(acc, next.v), next.rest, leaf)
    else Some(Read(acc, ts))
  }

  function ReadOr(ts: seq<SqlTok>, leaf: TestReader): (r: Option<Read<Tri>>)
    ensures r.Some? ==> |r.value.rest| < |ts|
    decreases |ts|, 5
  {
    match ReadAnd(ts, leaf)
    case None => None
    case Some(first) => OrLoop(first.v, first.rest, leaf)
  }

  /** The truth value SQL gives a whole condition, if it reads as one. */
  function ReadWhole(ts: seq<SqlTok>, leaf: TestReader): Option<Tri> {
    match ReadOr(ts, leaf)
    case None => None
    case Some(r) => if r.rest == [] then Some(r.v) else None
  }

  function WhereReader(args: seq<Lit>, val: Valuation): TestReader {
    ts => ReadTest(ts, args, val)
  }

  /** The truth value SQL gives a WHERE condition with its arguments bound. */
  function ReadCondition(ts: seq<SqlTok>, args: seq<Lit>, val: Valuation): Option<Tri> {
    ReadWhole(ts, WhereReader(args, val))
  }

  // ----- placeholders -----

  function Placeholders(ts: seq<SqlTok>): seq<nat> {
    if ts == [] then [] else (if ts[0].Ph? then [ts[0].k] else []) + Placeholders(ts[1..])
  }

  /** The placeholders from left to right are n+1, n+2, ..., m. */
  predicate Numbered(ts: seq<SqlTok>, n: nat, m: nat) {
    |Placeholders(ts)| == m - n && forall i :: 0 <= i < |Placeholders(ts)| ==> Placeholders(ts)[i] == n + 1 + i
  }

  lemma {:induction false} PlaceholdersConcat(a: seq<SqlTok>, b: seq<SqlTok>)
    ensures Placeholders(a + b) == Placeholders(a) + Placeholders(b)
  {
    if a == [] {
      assert a + b == b;
    } else {
      PlaceholdersConcat(a[1..], b);
      assert (a + b)[1..] == a[1..] + b;
      var first := if a[0].Ph? then [a[0].k] else [];
      assert Placeholders(a + b) == first + Placeholders(a[1..] + b);
      assert first + (Placeholders(a[1..]) + Placeholders(b)) == first + Placeholders(a[1..]) + Placeholders(b);
    }
  }

  lemma NumberedConcat(a: seq<SqlTok>, b: seq<SqlTok>, n: nat, k: nat, m: nat)
    requires Numbered(a, n, k) && Numbered(b, k, m)
    ensures Numbered(a + b, n, m)
  {
    PlaceholdersConcat(a, b);
  }

  lemma NumberedPlain(t: SqlTok, n: nat)
    requires !t.Ph?
    ensures Numbered([t], n, n)
  {
  }

  lemma NumberedOne(n: nat)
    ensures Numbered([Ph(n + 1)], n, n + 1)
  {
    assert [Ph(n + 1)][1..] == [];
    assert Placeholders([Ph(n + 1)]) == [n + 1];
  }

  lemma NumberedNone(n: nat)
    ensures Numbered([], n, n)
  {
  }

  /** A non-placeholder token on either side changes nothing. */
  lemma NumberedWrap(l: SqlTok, ts: seq<SqlTok>, r: SqlTok, n: nat, m: nat)
    requires Numbered(ts, n, m) && !l.Ph? && !r.Ph?
    ensures Numbered([l] + ts + [r], n, m) && Numbered([l] + ts, n, m) && Numbered(ts + [r], n, m)
  {
    NumberedPlain(l, n);
    NumberedPlain(r, m);
    NumberedConcat([l], ts, n, n, m);
    NumberedConcat([l] + ts, [r], n, m, m);
    NumberedConcat(ts, [r], n, m, m);
  }
}
