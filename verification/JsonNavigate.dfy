/** Walking the flat token list: SkipValue counts one bracket kind only, and that is enough. */
module JsonNavigate {
  import opened JsonGrammar

  function Nesting(t: TokenType, open: TokenType, close: TokenType): int {
    if t == open then 1 else if t == close then -1 else 0
  }

  function Balance(ts: seq<Token>, open: TokenType, close: TokenType): int {
    if ts == [] then 0 else Balance(ts[..|ts| - 1], open, close) + Nesting(ts[|ts| - 1].typ, open, close)
  }

  predicate BracketPair(open: TokenType, close: TokenType) {
    (open == TokObjStart && close == TokObjEnd) || (open == TokArrStart && close == TokArrEnd)
  }

  /** Brackets of this kind match up, and none is closed before it is opened. */
  ghost predicate Level(ts: seq<Token>, open: TokenType, close: TokenType) {
    && Balance(ts, open, close) == 0
    && forall k :: 0 <= k <= |ts| ==> Balance(ts[..k], open, close) >= 0
  }

  lemma {:induction false} BalanceConcat(a: seq<Token>, b: seq<Token>, open: TokenType, close: TokenType)
    ensures Balance(a + b, open, close) == Balance(a, open, close) + Balance(b, open, close)
  {
    if b == [] {
      assert a + b == a;
    } else {
      var b' := b[..|b| - 1];
      assert (a + b)[..|a + b| - 1] == a + b';
      BalanceConcat(a, b', open, close);
    }
  }

  lemma LevelConcat(a: seq<Token>, b: seq<Token>, open: TokenType, close: TokenType)
    requires Level(a, open, close) && Level(b, open, close)
    ensures Level(a + b, open, close)
  {
    BalanceConcat(a, b, open, close);
    forall k | 0 <= k <= |a + b|
      ensures Balance((a + b)[..k], open, close) >= 0
    {
      if k <= |a| {
        assert (a + b)[..k] == a[..k];
      } else {
        assert (a + b)[..k] == a + b[..k - |a|];
        BalanceConcat(a, b[..k - |a|], open, close);
      }
    }
  }

  lemma LevelOther(t: Token, open: TokenType, close: TokenType)
    requires t.typ != open && t.typ != close
    ensures Level([t], open, close)
  {
  }

  lemma LevelNone(open: TokenType, close: TokenType)
    ensures Level([], open, close)
  {
  }

  /** Wrapping a level list in a pair of these brackets keeps it open until the very end. */
  lemma WrappedStaysOpen(o: Token, ts: seq<Token>, c: Token, open: TokenType, close: TokenType)
    requires o.typ == open && c.typ == close && open != close && Level(ts, open, close)
    ensures Level([o] + ts + [c], open, close)
    ensures forall k :: 0 < k < |ts| + 2 ==> Balance(([o] + ts + [c])[..k], open, close) > 0
  {
    var all := [o] + ts + [c];
    assert [o][..0] == [] && [c][..0] == [];
    forall k | 0 < k < |all|
      ensures Balance(all[..k], open, close) > 0
    {
      assert all[..k] == [o] + ts[..k - 1];
      BalanceConcat([o], ts[..k - 1], open, close);
    }
    BalanceConcat([o], ts, open, close);
    BalanceConcat([o] + ts, [c], open, close);
    assert all[..|all|] == all && all[..0] == [];
  }

  lemma WrappedByOther(o: Token, ts: seq<Token>, c: Token, open: TokenType, close: TokenType)
    requires o.typ != open && o.typ != close && c.typ != open && c.typ != close && Level(ts, open, close)
    ensures Level([o] + ts + [c], open, close)
  {
    LevelOther(o, open, close);
    LevelOther(c, open, close);
    LevelConcat([o], ts, open, close);
    LevelConcat([o] + ts, [c], open, close);
  }

  /** Every value's tokens are level in each bracket kind taken on its own. */
  lemma {:induction false} FlattenLevel(j: Json, open: TokenType, close: TokenType)
    requires BracketPair(open, close)
    ensures Level(Flatten(j), open, close)
    decreases j
  {
    hide Level, Tok;
    match j
    case Scalar(kind, start, end) =>
      TokType(kind, start, end);
      LevelOther(Tok(kind, start, end), open, close);
    case Obj(o, ms, c) =>
      MembersLevel(ms, open, close);
      TokType(TokObjStart, o, o + 1);
      TokType(TokObjEnd, c, c + 1);
      if open == TokObjStart {
        WrappedStaysOpen(Tok(TokObjStart, o, o + 1), FlattenMembers(ms), Tok(TokObjEnd, c, c + 1), open, close);
      } else {
        WrappedByOther(Tok(TokObjStart, o, o + 1), FlattenMembers(ms), Tok(TokObjEnd, c, c + 1), open, close);
      }
    case Arr(o, xs, c) =>
      ItemsLevel(xs, open, close);
      TokType(TokArrStart, o, o + 1);
      TokType(TokArrEnd, c, c + 1);
      if open == TokArrStart {
        WrappedStaysOpen(Tok(TokArrStart, o, o + 1), FlattenItems(xs), Tok(TokArrEnd, c, c + 1), open, close);
      } else {
        WrappedByOther(Tok(TokArrStart, o, o + 1), FlattenItems(xs), Tok(TokArrEnd, c, c + 1), open, close);
      }
  }

  lemma TokType(typ: TokenType, start: nat, end: nat)
    ensures Tok(typ, start, end).typ == typ
  {
  }

  lemma HeadLevel(ms: Members, open: TokenType, close: TokenType)
    requires ms.Member? && BracketPair(open, close)
    ensures Level(MemberHead(ms), open, close)
  {
    hide Level, Tok;
    var key, colon := Tok(TokString, ms.keyStart, ms.keyEnd), Tok(TokColon, ms.colon, ms.colon + 1);
    TokType(TokString, ms.keyStart, ms.keyEnd);
    TokType(TokColon, ms.colon, ms.colon + 1);
    LevelOther(key, open, close);
    LevelOther(colon, open, close);
    LevelConcat([key], [colon], open, close);
    if ms.prev.NoMembers? {
      assert MemberHead(ms) == [key] + [colon];
    } else {
      var comma := Tok(TokComma, ms.comma, ms.comma + 1);
      TokType(TokComma, ms.comma, ms.comma + 1);
      LevelOther(comma, open, close);
      LevelConcat([comma], [key] + [colon], open, close);
      assert MemberHead(ms) == [comma] + ([key] + [colon]);
    }
  }

  lemma {:induction false} MembersLevel(ms: Members, open: TokenType, close: TokenType)
    requires BracketPair(open, close)
    ensures Level(FlattenMembers(ms), open, close)
    decreases ms
  {
    hide Level, MemberHead;
    if ms.NoMembers? {
      LevelNone(open, close);
    } else {
      MembersLevel(ms.prev, open, close);
      FlattenLevel(ms.value, open, close);
      HeadLevel(ms, open, close);
      LevelConcat(FlattenMembers(ms.prev), MemberHead(ms), open, close);
      LevelConcat(FlattenMembers(ms.prev) + MemberHead(ms), Flatten(ms.value), open, close);
    }
  }

  lemma {:induction false} ItemsLevel(xs: Items, open: TokenType, close: TokenType)
    requires BracketPair(open, close)
    ensures Level(FlattenItems(xs), open, close)
    decreases xs
  {
    hide Level, Tok;
    if xs.NoItems? {
      LevelNone(open, close);
    } else {
      ItemsLevel(xs.prev, open, close);
      FlattenLevel(xs.value, open, close);
      var comma := if xs.prev.NoItems? then [] else [Tok(TokComma, xs.comma, xs.comma + 1)];
      if xs.prev.NoItems? {
        LevelNone(open, close);
      } else {
        TokType(TokComma, xs.comma, xs.comma + 1);
        LevelOther(Tok(TokComma, xs.comma, xs.comma + 1), open, close);
      }
      LevelConcat(FlattenItems(xs.prev), comma, open, close);
      LevelConcat(FlattenItems(xs.prev) + comma, Flatten(xs.value), open, close);
    }
  }

  /** The tokens of `j` sit at index `i` of the list. */
  predicate Embedded(tokens: seq<Token>, i: nat, j: Json) {
    i + |Flatten(j)| <= |tokens| && tokens[i..i + |Flatten(j)|] == Flatten(j)
  }

  /** The bracket loop: stops where the bracket opened at `i` is first balanced again. */
  method SkipBracketed(tokens: seq<Token>, i: nat, open: TokenType, close: TokenType) returns (n: nat)
    requires i < |tokens| && tokens[i].typ == open && open != close
    ensures i < n <= |tokens|
    ensures forall k :: i < k < n ==> Balance(tokens[i..k], open, close) > 0
    ensures n == |tokens| || Balance(tokens[i..n], open, close) == 0
  {
    var depth := 1;
    n := i + 1;
    assert tokens[i..n] == [tokens[i]];
    assert [tokens[i]][..0] == [];
    while n < |tokens| && depth > 0
      invariant i < n <= |tokens|
      invariant depth == Balance(tokens[i..n], open, close) >= 0
      invariant forall k :: i < k < n ==> Balance(tokens[i..k], open, close) > 0
    {
      if tokens[n].typ == open {
        depth := depth + 1;
      } else if tokens[n].typ == close {
        depth := depth - 1;
      }
      n := n + 1;
      assert tokens[i..n][..n - 1 - i] == tokens[i..n - 1];
    }
  }

  /** From the first token of any value, SkipValue lands just past that value. */
  method SkipValue(tokens: seq<Token>, i: nat) returns (n: nat)
    ensures i >= |tokens| ==> n == i
    ensures i < |tokens| ==> i < n <= |tokens|
    ensures forall j :: Embedded(tokens, i, j) ==> n == i + |Flatten(j)|
  {
    if i >= |tokens| {
      forall j {
        FlattenStart(j);
      }
      return i;
    }
    if tokens[i].typ == TokObjStart {
      n := SkipBracketed(tokens, i, TokObjStart, TokObjEnd);
    } else if tokens[i].typ == TokArrStart {
      n := SkipBracketed(tokens, i, TokArrStart, TokArrEnd);
    } else {
      n := i + 1;
    }
    forall j | Embedded(tokens, i, j)
      ensures n == i + |Flatten(j)|
    {
      SkipsExactly(tokens, i, j, n);
    }
  }

  lemma FlattenStart(j: Json)
    ensures |Flatten(j)| > 0
    ensures Flatten(j)[0].typ == match j case Scalar(kind, _, _) => kind case Obj(_, _, _) =>
            TokObjStart case Arr(_, _, _) => TokArrStart
    ensures j.Scalar? ==> |Flatten(j)| == 1
  {
  }

  lemma SkipsExactly(tokens: seq<Token>, i: nat, j: Json, n: nat)
    requires Embedded(tokens, i, j) && i < n <= |tokens|
    requires tokens[i].typ != TokObjStart && tokens[i].typ != TokArrStart ==> n == i + 1
    requires forall open, close :: BracketPair(open, close) && tokens[i].typ == open ==>
               && (forall k :: i < k < n ==> Balance(tokens[i..k], open, close) > 0)
               && (n == |tokens| || Balance(tokens[i..n], open, close) == 0)
    ensures n == i + |Flatten(j)|
  {
    var m := |Flatten(j)|;
    FlattenStart(j);
    assert tokens[i] == tokens[i..i + m][0];
    if !j.Scalar? {
      var (open, close) := if j.Obj? then (TokObjStart, TokObjEnd) else (TokArrStart, TokArrEnd);
      assert BracketPair(open, close);
      BracketedStaysOpen(j, open, close);
      assert tokens[i..i + m] == Flatten(j);
      forall k | i < k < i + m
        ensures Balance(tokens[i..k], open, close) > 0
      {
        assert tokens[i..k] == Flatten(j)[..k - i];
      }
    }
  }

  lemma BracketedStaysOpen(j: Json, open: TokenType, close: TokenType)
    requires BracketPair(open, close)
    requires (j.Obj? && open == TokObjStart) || (j.Arr? && open == TokArrStart)
    ensures Balance(Flatten(j), open, close) == 0
    ensures forall k :: 0 < k < |Flatten(j)| ==> Balance(Flatten(j)[..k], open, close) > 0
  {
    if j.Obj? {
      MembersLevel(j.members, open, close);
      WrappedStaysOpen(Tok(open, j.open, j.open + 1), FlattenMembers(j.members), Tok(close, j.close, j.close + 1), open,
                       close);
    } else {
      ItemsLevel(j.items, open, close);
      WrappedStaysOpen(Tok(open, j.open, j.open + 1), FlattenItems(j.items), Tok(close, j.close, j.close + 1), open,
                       close);
    }
  }
}
