/**
 * Boolean conditions as both generators emit them: AND bare, OR and negated conditions in
 * parentheses. Read with SQL's precedence, such a text has the value of the tree it was made from.
 */
module SqlConditions {
  import opened Basics
  import opened SqlText

  /** A condition over elementary tests, each given by its text and its truth value. */
  datatype Cond =
    | Test(ts: seq<SqlTok>, v: Tri)
    | Both(left: Cond, right: Cond)
    | Either(left: Cond, right: Cond)
    | Not(c: Cond)
    | Paren(c: Cond)

  function Text(c: Cond): seq<SqlTok> {
    match c
    case Test(ts, _) => ts
    case Both(l, r) => Text(l) + [KAnd] + Text(r)
    case Either(l, r) => [LP] + (Text(l) + [KOr] + Text(r)) + [RP]
    case Not(inner) => [KNot] + ([LP] + Text(inner) + [RP])
    case Paren(inner) => [LP] + Text(inner) + [RP]
  }

  function TruthOf(c: Cond): Tri {
    match c
    case Test(_, v) => v
    case Both(l, r) => TAnd(TruthOf(l), TruthOf(r))
    case Either(l, r) => TOr(TruthOf(l), TruthOf(r))
    case Not(inner) => TNot(TruthOf(inner))
    case Paren(inner) => TruthOf(inner)
  }

  /** What can come after a condition or one of its parts. */
  predicate Follows(rest: seq<SqlTok>) {
    rest == [] || rest[0].KAnd? || rest[0].KOr? || rest[0].RP?
  }

  /** The text reads as one elementary test, whatever follows. */
  ghost predicate ReadsAs(leaf: TestReader, ts: seq<SqlTok>, v: Tri) {
    ts != [] && !ts[0].KNot? && forall rest :: Follows(rest) ==> leaf(ts + rest) == Some(Read(v, rest))
  }

  /** In parentheses the text is not taken for an elementary test. */
  ghost predicate NoTest(leaf: TestReader, ts: seq<SqlTok>) {
    forall rest :: Follows(rest) ==> leaf([LP] + ts + [RP] + rest) == None
  }

  /** What the generic reading needs of a condition's tests. */
  ghost predicate Sound(leaf: TestReader, c: Cond) {
    match c
    case Test(ts, v) => ReadsAs(leaf, ts, v)
    case Both(l, r) => Sound(leaf, l) && Sound(leaf, r)
    case Either(l, r) => Sound(leaf, l) && Sound(leaf, r) && NoTest(leaf, Text(l) + [KOr] + Text(r))
    case Not(inner) => Sound(leaf, inner) && NoTest(leaf, Text(inner))
    case Paren(inner) => Sound(leaf, inner) && NoTest(leaf, Text(inner))
  }

  lemma TestReads(leaf: TestReader, ts: seq<SqlTok>, v: Tri, rest: seq<SqlTok>)
    requires ReadsAs(leaf, ts, v) && Follows(rest)
    ensures ReadNot(ts + rest, leaf) == Some(Read(v, rest))
  {
    assert leaf(ts + rest) == Some(Read(v, rest));
  }

  /** A parenthesised text that reads as a condition is a unit. */
  lemma ParenReads(leaf: TestReader, ts: seq<SqlTok>, v: Tri, rest: seq<SqlTok>)
    requires NoTest(leaf, ts) && Follows(rest)
    requires ReadOr(ts + ([RP] + rest), leaf) == Some(Read(v, [RP] + rest))
    ensures ReadNot([LP] + ts + [RP] + rest, leaf) == Some(Read(v, rest))
  {
    var all := [LP] + ts + [RP] + rest;
    assert leaf(all) == None;
    assert all[1..] == ts + ([RP] + rest);
    assert ([RP] + rest)[1..] == rest;
    hide ReadOr;
    assert ReadPrimary(all, leaf) == Some(Read(v, rest));
  }

  lemma NotReads(leaf: TestReader, ts: seq<SqlTok>, v: Tri, rest: seq<SqlTok>)
    requires ReadNot(ts + rest, leaf) == Some(Read(v, rest))
    ensures ReadNot([KNot] + ts + rest, leaf) == Some(Read(TNot(v), rest))
  {
    hide ReadPrimary;
    assert ([KNot] + ts + rest)[1..] == ts + rest;
  }

  lemma OneMoreConjunct(leaf: TestReader, ts: seq<SqlTok>, acc: Tri, v: Tri, rest: seq<SqlTok>)
    requires ReadNot(ts + rest, leaf) == Some(Read(v, rest))
    ensures AndLoop(acc, [KAnd] + ts + rest, leaf) == AndLoop(TAnd(acc, v), rest, leaf)
  {
    hide ReadNot;
    assert ([KAnd] + ts + rest)[1..] == ts + rest;
  }

  /** Two chains joined by OR inside parentheses. */
  lemma EitherReads(leaf: TestReader, l: seq<SqlTok>, r: seq<SqlTok>, v: Tri, w: Tri, rest: seq<SqlTok>)
    requires NoTest(leaf, l + [KOr] + r) && Follows(rest)
    requires ReadAnd(l + ([KOr] + r + ([RP] + rest)), leaf) == Some(Read(v, [KOr] + r + ([RP] + rest)))
    requires ReadAnd(r + ([RP] + rest), leaf) == Some(Read(w, [RP] + rest))
    ensures ReadNot([LP] + (l + [KOr] + r) + [RP] + rest, leaf) == Some(Read(TOr(v, w), rest))
  {
    hide ReadNot, ReadAnd, NoTest;
    var end := [RP] + rest;
    var ts := l + [KOr] + r;
    assert ts + end == l + ([KOr] + r + end);
    assert ([KOr] + r + end)[1..] == r + end;
    assert OrLoop(TOr(v, w), end, leaf) == Some(Read(TOr(v, w), end));
    ParenReads(leaf, ts, TOr(v, w), rest);
  }

  /** Whatever is not a conjunction reads as a single unit. */
  lemma {:induction false} UnitReads(leaf: TestReader, c: Cond, rest: seq<SqlTok>)
    requires Sound(leaf, c) && !c.Both? && Follows(rest)
    ensures ReadNot(Text(c) + rest, leaf) == Some(Read(TruthOf(c), rest))
    decreases c, 0
  {
    hide ReadNot, ReadOr, ReadAnd, NoTest, ReadsAs;
    match c
    case Test(ts, v) => TestReads(leaf, ts, v, rest);
    case Either(l, r) =>
      ChainEnds(leaf, l, [KOr] + Text(r) + ([RP] + rest));
      ChainEnds(leaf, r, [RP] + rest);
      EitherReads(leaf, Text(l), Text(r), TruthOf(l), TruthOf(r), rest);
    case Not(inner) =>
      CondReads(leaf, inner, [RP] + rest);
      ParenReads(leaf, Text(inner), TruthOf(inner), rest);
      NotReads(leaf, [LP] + Text(inner) + [RP], TruthOf(inner), rest);
    case Paren(inner) =>
      CondReads(leaf, inner, [RP] + rest);
      ParenReads(leaf, Text(inner), TruthOf(inner), rest);
  }

  /** A chain of conjuncts is taken up one by one. */
  lemma {:induction false} ChainStart(leaf: TestReader, c: Cond, rest: seq<SqlTok>)
    requires Sound(leaf, c) && Follows(rest)
    ensures ReadAnd(Text(c) + rest, leaf) == AndLoop(TruthOf(c), rest, leaf)
    decreases c, 1
  {
    hide ReadNot, AndLoop;
    if c.Both? {
      assert Text(c) + rest == Text(c.left) + ([KAnd] + Text(c.right) + rest);
      ChainStart(leaf, c.left, [KAnd] + Text(c.right) + rest);
      ChainMore(leaf, c.right, TruthOf(c.left), rest);
    } else {
      UnitReads(leaf, c, rest);
    }
  }

  lemma {:induction false} ChainMore(leaf: TestReader, c: Cond, acc: Tri, rest: seq<SqlTok>)
    requires Sound(leaf, c) && Follows(rest)
    ensures AndLoop(acc, [KAnd] + Text(c) + rest, leaf) == AndLoop(TAnd(acc, TruthOf(c)), rest, leaf)
    decreases c, 1
  {
    hide ReadNot, AndLoop;
    if c.Both? {
      assert [KAnd] + Text(c) + rest == [KAnd] + Text(c.left) + ([KAnd] + Text(c.right) + rest);
      ChainMore(leaf, c.left, acc, [KAnd] + Text(c.right) + rest);
      ChainMore(leaf, c.right, TAnd(acc, TruthOf(c.left)), rest);
    } else {
      UnitReads(leaf, c, rest);
      OneMoreConjunct(leaf, Text(c), acc, TruthOf(c), rest);
    }
  }

  lemma {:induction false} ChainEnds(leaf: TestReader, c: Cond, rest: seq<SqlTok>)
    requires Sound(leaf, c) && Follows(rest) && (rest == [] || !rest[0].KAnd?)
    ensures ReadAnd(Text(c) + rest, leaf) == Some(Read(TruthOf(c), rest))
    decreases c, 2
  {
    hide ReadNot, ReadAnd, Sound;
    ChainStart(leaf, c, rest);
  }

  /** The text of a condition reads as the condition, up to a closing parenthesis or the end. */
  lemma {:induction false} CondReads(leaf: TestReader, c: Cond, rest: seq<SqlTok>)
    requires Sound(leaf, c) && (rest == [] || rest[0].RP?)
    ensures ReadOr(Text(c) + rest, leaf) == Some(Read(TruthOf(c), rest))
    decreases c, 3
  {
    hide ReadAnd, Sound;
    ChainEnds(leaf, c, rest);
  }

  /** A whole text is read as exactly the condition it was made from. */
  lemma WholeReads(leaf: TestReader, c: Cond)
    requires Sound(leaf, c)
    ensures ReadWhole(Text(c), leaf) == Some(TruthOf(c))
  {
    hide ReadOr, Sound;
    CondReads(leaf, c, []);
    assert Text(c) + [] == Text(c);
  }
}
