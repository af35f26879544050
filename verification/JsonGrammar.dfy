/**
 * The JSON that the tokeniser accepts: value trees with byte positions, what it means for a tree to
 * be read from a buffer at a position, and the flat token list that stands for a tree.
 */
module JsonGrammar {
  import opened Basics

  datatype TokenType =
    | TokString | TokNumber | TokTrue | TokFalse | TokNull
    | TokObjStart | TokObjEnd | TokArrStart | TokArrEnd | TokColon | TokComma

  type ScalarType = t: TokenType | t in {TokString, TokNumber, TokTrue, TokFalse, TokNull} witness TokNull

  const UINT32_RANGE: nat := 0x1_0000_0000

  /** Offsets are stored in 32 bits: a position of 4 GiB or more wraps around. */
  datatype Token = Token(typ: TokenType, start: nat, end: nat)

  function Tok(typ: TokenType, start: nat, end: nat): Token {
    Token(typ, start % UINT32_RANGE, end % UINT32_RANGE)
  }

  // ----- value trees -----

  datatype Json =
    | Scalar(kind: ScalarType, start: nat, end: nat)
    | Obj(open: nat, members: Members, close: nat)
    | Arr(open: nat, items: Items, close: nat)

  /** Members in order; the comma of the first one is meaningless and 0. */
  datatype Members =
    | NoMembers
    | Member(prev: Members, comma: nat, keyStart: nat, keyEnd: nat, colon: nat, value: Json)

  datatype Items =
    | NoItems
    | Item(prev: Items, comma: nat, value: Json)

  /** The position just past a value. A string's range excludes its quotes. */
  function End(j: Json): nat {
    match j
    case Scalar(kind, _, end) => if kind == TokString then end + 1 else end
    case Obj(_, _, close) => close + 1
    case Arr(_, _, close) => close + 1
  }

  function MembersEnd(ms: Members, open: nat): nat {
    if ms.NoMembers? then open + 1 else End(ms.value)
  }

  function ItemsEnd(xs: Items, open: nat): nat {
    if xs.NoItems? then open + 1 else End(xs.value)
  }

  // ----- flattening -----

  function Flatten(j: Json): seq<Token> {
    match j
    case Scalar(kind, start, end) => [Tok(kind, start, end)]
    case Obj(open, ms, close) =>
      [Tok(TokObjStart, open, open + 1)] + FlattenMembers(ms) + [Tok(TokObjEnd, close, close + 1)]
    case Arr(open, xs, close) =>
      [Tok(TokArrStart, open, open + 1)] + FlattenItems(xs) + [Tok(TokArrEnd, close, close + 1)]
  }

  function FlattenMembers(ms: Members): seq<Token> {
    match ms
    case NoMembers => []
    case Member(prev, comma, keyStart, keyEnd, colon, value) =>
      FlattenMembers(prev) + MemberHead(ms) + Flatten(value)
  }

  /** The comma, if any, the key and the colon of the last member. */
  function MemberHead(ms: Members): seq<Token>
    requires ms.Member?
  {
    (if ms.prev.NoMembers? then [] else [Tok(TokComma, ms.comma, ms.comma + 1)])
    + [Tok(TokString, ms.keyStart, ms.keyEnd), Tok(TokColon, ms.colon, ms.colon + 1)]
  }

  function FlattenItems(xs: Items): seq<Token> {
    match xs
    case NoItems => []
    case Item(prev, comma, value) =>
      FlattenItems(prev) + (if prev.NoItems? then [] else [Tok(TokComma, comma, comma + 1)]) + Flatten(value)
  }

  // ----- lexical rules -----

  const SPACE: Byte := 0x20
  const TAB: Byte := 0x09
  const LF: Byte := 0x0A
  const CR: Byte := 0x0D
  const QUOTE: Byte := 0x22
  const BACKSLASH: Byte := 0x5C
  const COMMA: Byte := 0x2C
  const COLON: Byte := 0x3A
  const LBRACE: Byte := 0x7B
  const RBRACE: Byte := 0x7D
  const LBRACKET: Byte := 0x5B
  const RBRACKET: Byte := 0x5D
  const MINUS: Byte := 0x2D
  const PLUS: Byte := 0x2B
  const DOT: Byte := 0x2E

  predicate IsWs(b: Byte) {
    b == SPACE || b == TAB || b == LF || b == CR
  }

  predicate IsDigit(b: Byte) {
    0x30 <= b <= 0x39
  }

  /** The first position at or after `pos` that is not white space. */
  function SkipWs(input: seq<Byte>, pos: nat): (r: nat)
    ensures pos <= r
    ensures pos <= |input| ==> r <= |input|
    decreases |input| - pos
  {
    if pos < |input| && IsWs(input[pos]) then SkipWs(input, pos + 1) else pos
  }

  lemma {:induction false} SkipWsStops(input: seq<Byte>, pos: nat)
    ensures var r := SkipWs(input, pos);
            && (r < |input| ==> !IsWs(input[r]))
            && (forall i :: pos <= i < r && i < |input| ==> IsWs(input[i]))
    decreases |input| - pos
  {
    if pos < |input| && IsWs(input[pos]) {
      SkipWsStops(input, pos + 1);
    }
  }

  predicate At(input: seq<Byte>, i: nat, b: Byte) {
    i < |input| && input[i] == b
  }

  /** `q` is the quote that ends a string body starting at `i`: a backslash hides the byte after it. */
  predicate ClosesString(input: seq<Byte>, i: nat, q: nat)
    decreases q - i
  {
    if i >= q then i == q && At(input, q, QUOTE)
    else i < |input| && input[i] != QUOTE && ClosesString(input, if input[i] == BACKSLASH then i + 2 else i + 1, q)
  }

  function DigitsEnd(input: seq<Byte>, i: nat): (r: nat)
    ensures i <= r
    ensures i <= |input| ==> r <= |input|
    decreases |input| - i
  {
    if i < |input| && IsDigit(input[i]) then DigitsEnd(input, i + 1) else i
  }

  function FractionEnd(input: seq<Byte>, i: nat): (r: nat)
    ensures i <= r
    ensures i <= |input| ==> r <= |input|
  {
    if At(input, i, DOT) then DigitsEnd(input, i + 1) else i
  }

  function ExponentEnd(input: seq<Byte>, i: nat): (r: nat)
    ensures i <= r
    ensures i <= |input| ==> r <= |input|
  {
    if At(input, i, 0x65) || At(input, i, 0x45) then
      DigitsEnd(input, if At(input, i + 1, PLUS) || At(input, i + 1, MINUS) then i + 2 else i + 1)
    else i
  }

  /** The longest number at `i`. Looser than RFC 8259 section 6: "-", "1." and "1e" are numbers here. */
  function NumberEnd(input: seq<Byte>, i: nat): (r: nat)
    requires i < |input| && (input[i] == MINUS || IsDigit(input[i]))
    ensures i < r <= |input|
  {
    ExponentEnd(input, FractionEnd(input, DigitsEnd(input, if input[i] == MINUS then i + 1 else i)))
  }

  const TRUE_LIT: seq<Byte> := [0x74, 0x72, 0x75, 0x65]
  const FALSE_LIT: seq<Byte> := [0x66, 0x61, 0x6C, 0x73, 0x65]
  const NULL_LIT: seq<Byte> := [0x6E, 0x75, 0x6C, 0x6C]

  predicate LiteralAt(input: seq<Byte>, i: nat, lit: seq<Byte>) {
    i + |lit| <= |input| && input[i..i + |lit|] == lit
  }

  // ----- the grammar -----

  /** The scalar spans exactly one token's worth of input, starting at `s`. */
  predicate ScalarAt(input: seq<Byte>, s: nat, kind: ScalarType, start: nat, end: nat) {
    match kind
    case TokString => At(input, s, QUOTE) && start == s + 1 && ClosesString(input, start, end)
    case TokNumber =>
      s < |input| && (input[s] == MINUS || IsDigit(input[s])) && start == s && end == NumberEnd(input, s)
    case TokTrue => start == s && end == s + 4 && LiteralAt(input, s, TRUE_LIT)
    case TokFalse => start == s && end == s + 5 && LiteralAt(input, s, FALSE_LIT)
    case TokNull => start == s && end == s + 4 && LiteralAt(input, s, NULL_LIT)
  }

  /** The tree `j` is what the bytes from `pos` on, after white space, spell out. */
  predicate Derives(input: seq<Byte>, pos: nat, j: Json)
    decreases j
  {
    var s := SkipWs(input, pos);
    match j
    case Scalar(kind, start, end) => ScalarAt(input, s, kind, start, end)
    case Obj(open, ms, close) =>
      && open == s && At(input, s, LBRACE)
      && DerivesMembers(input, open, ms)
      && close == SkipWs(input, MembersEnd(ms, open)) && At(input, close, RBRACE)
    case Arr(open, xs, close) =>
      && open == s && At(input, s, LBRACKET)
      && DerivesItems(input, open, xs)
      && close == SkipWs(input, ItemsEnd(xs, open)) && At(input, close, RBRACKET)
  }

  /** Where the key of the member after `ms` must start. */
  function KeyAt(input: seq<Byte>, ms: Members, open: nat): nat {
    var p := SkipWs(input, MembersEnd(ms, open));
    if ms.NoMembers? then p else SkipWs(input, p + 1)
  }

  predicate DerivesMembers(input: seq<Byte>, open: nat, ms: Members)
    decreases ms
  {
    match ms
    case NoMembers => true
    case Member(prev, comma, keyStart, keyEnd, colon, value) =>
      && DerivesMembers(input, open, prev)
      && comma == (if prev.NoMembers? then 0 else SkipWs(input, MembersEnd(prev, open)))
      && (prev.NoMembers? || At(input, comma, COMMA))
      && ScalarAt(input, KeyAt(input, prev, open), TokString, keyStart, keyEnd)
      && colon == SkipWs(input, keyEnd + 1) && At(input, colon, COLON)
      && Derives(input, colon + 1, value)
  }

  predicate DerivesItems(input: seq<Byte>, open: nat, xs: Items)
    decreases xs
  {
    match xs
    case NoItems => true
    case Item(prev, comma, value) =>
      && DerivesItems(input, open, prev)
      && comma == (if prev.NoItems? then 0 else SkipWs(input, ItemsEnd(prev, open)))
      && (prev.NoItems? || At(input, comma, COMMA))
      && Derives(input, if prev.NoItems? then ItemsEnd(prev, open) else comma + 1, value)
  }

  // ----- positions -----

  lemma {:induction false} StringEndsInside(input: seq<Byte>, i: nat, q: nat)
    requires ClosesString(input, i, q)
    ensures i <= q < |input|
    decreases q - i
  {
    if i < q {
      StringEndsInside(input, if input[i] == BACKSLASH then i + 2 else i + 1, q);
    }
  }

  lemma {:induction false} DerivedEndsInside(input: seq<Byte>, pos: nat, j: Json)
    requires Derives(input, pos, j)
    ensures pos < End(j) <= |input|
    decreases j
  {
    match j
    case Scalar(kind, start, end) =>
      if kind == TokString {
        StringEndsInside(input, start, end);
      }
    case Obj(open, ms, close) =>
      MembersEndInside(input, open, ms);
    case Arr(open, xs, close) =>
      ItemsEndInside(input, open, xs);
  }

  lemma {:induction false} MembersEndInside(input: seq<Byte>, open: nat, ms: Members)
    requires DerivesMembers(input, open, ms) && open < |input|
    ensures open < MembersEnd(ms, open) <= |input|
    decreases ms
  {
    if ms.Member? {
      MembersEndInside(input, open, ms.prev);
      StringEndsInside(input, ms.keyStart, ms.keyEnd);
      DerivedEndsInside(input, ms.colon + 1, ms.value);
    }
  }

  lemma {:induction false} ItemsEndInside(input: seq<Byte>, open: nat, xs: Items)
    requires DerivesItems(input, open, xs) && open < |input|
    ensures open < ItemsEnd(xs, open) <= |input|
    decreases xs
  {
    if xs.Item? {
      ItemsEndInside(input, open, xs.prev);
      DerivedEndsInside(input, if xs.prev.NoItems? then ItemsEnd(xs.prev, open) else xs.comma + 1, xs.value);
    }
  }

  /** Token ranges lie in [lo, hi] and do not overlap, in order. */
  predicate Ordered(ts: seq<Token>, lo: nat, hi: nat) {
    && (forall i :: 0 <= i < |ts| ==> lo <= ts[i].start <= ts[i].end <= hi)
    && (forall i, k :: 0 <= i < k < |ts| ==> ts[i].end <= ts[k].start)
  }

  lemma OrderedConcat(a: seq<Token>, b: seq<Token>, lo: nat, mid: nat, hi: nat)
    requires Ordered(a, lo, mid) && Ordered(b, mid, hi) && lo <= mid <= hi
    ensures Ordered(a + b, lo, hi)
  {
  }

  lemma NothingOrdered(p: nat)
    ensures Ordered([], p, p)
  {
  }

  lemma OneOrdered(typ: TokenType, start: nat, end: nat, lo: nat, hi: nat)
    requires lo <= start <= end <= hi < UINT32_RANGE
    ensures Ordered([Tok(typ, start, end)], lo, hi)
  {
  }

  lemma WrapOrdered(o: TokenType, inner: seq<Token>, c: TokenType, pos: nat, open: nat, mid: nat, close: nat)
    requires Ordered(inner, open + 1, mid) && pos <= open < mid <= close && close + 1 < UINT32_RANGE
    ensures Ordered([Tok(o, open, open + 1)] + inner + [Tok(c, close, close + 1)], pos, close + 1)
  {
    OneOrdered(o, open, open + 1, pos, open + 1);
    OneOrdered(c, close, close + 1, mid, close + 1);
    OrderedConcat([Tok(o, open, open + 1)], inner, pos, open + 1, mid);
    OrderedConcat([Tok(o, open, open + 1)] + inner, [Tok(c, close, close + 1)], pos, mid, close + 1);
  }

  lemma HeadOrdered(ms: Members, p: nat)
    requires ms.Member? && p < ms.keyStart <= ms.keyEnd < ms.colon && ms.colon + 1 < UINT32_RANGE
    requires !ms.prev.NoMembers? ==> p <= ms.comma < ms.keyStart
    ensures Ordered(MemberHead(ms), p, ms.colon + 1)
  {
    hide Ordered, Tok;
    var key, colon := [Tok(TokString, ms.keyStart, ms.keyEnd)], [Tok(TokColon, ms.colon, ms.colon + 1)];
    var from := if ms.prev.NoMembers? then p else ms.comma + 1;
    OneOrdered(TokString, ms.keyStart, ms.keyEnd, from, ms.keyEnd);
    OneOrdered(TokColon, ms.colon, ms.colon + 1, ms.keyEnd, ms.colon + 1);
    OrderedConcat(key, colon, from, ms.keyEnd, ms.colon + 1);
    if ms.prev.NoMembers? {
      assert MemberHead(ms) == key + colon;
    } else {
      var comma := [Tok(TokComma, ms.comma, ms.comma + 1)];
      OneOrdered(TokComma, ms.comma, ms.comma + 1, p, from);
      OrderedConcat(comma, key + colon, p, from, ms.colon + 1);
      assert MemberHead(ms) == comma + (key + colon);
    }
  }

  lemma ScalarOrdered(input: seq<Byte>, s: nat, kind: ScalarType, start: nat, end: nat, pos: nat)
    requires ScalarAt(input, s, kind, start, end) && pos <= s && |input| < UINT32_RANGE
    ensures Ordered([Tok(kind, start, end)], pos, if kind == TokString then end + 1 else end)
  {
    hide Ordered, Tok, ClosesString;
    if kind == TokString {
      StringEndsInside(input, start, end);
    }
    OneOrdered(kind, start, end, pos, if kind == TokString then end + 1 else end);
  }

  /** Below 4 GiB every token range is a real, in-bounds range, and the ranges are in order. */
  lemma {:induction false} FlattenOrdered(input: seq<Byte>, pos: nat, j: Json)
    requires Derives(input, pos, j) && |input| < UINT32_RANGE
    ensures Ordered(Flatten(j), pos, End(j))
    decreases j
  {
    hide Ordered, Tok, ScalarAt;
    DerivedEndsInside(input, pos, j);
    match j
    case Scalar(kind, start, end) =>
      ScalarOrdered(input, SkipWs(input, pos), kind, start, end, pos);
    case Obj(open, ms, close) =>
      MembersEndInside(input, open, ms);
      MembersOrdered(input, open, ms);
      WrapOrdered(TokObjStart, FlattenMembers(ms), TokObjEnd, pos, open, MembersEnd(ms, open), close);
    case Arr(open, xs, close) =>
      ItemsEndInside(input, open, xs);
      ItemsOrdered(input, open, xs);
      WrapOrdered(TokArrStart, FlattenItems(xs), TokArrEnd, pos, open, ItemsEnd(xs, open), close);
  }

  lemma {:induction false} MembersOrdered(input: seq<Byte>, open: nat, ms: Members)
    requires DerivesMembers(input, open, ms) && open < |input| < UINT32_RANGE
    ensures Ordered(FlattenMembers(ms), open + 1, MembersEnd(ms, open))
    decreases ms
  {
    hide Ordered, Tok, ClosesString, MemberHead, Derives;
    if ms.NoMembers? {
      NothingOrdered(open + 1);
    } else {
      MembersEndInside(input, open, ms.prev);
      MembersOrdered(input, open, ms.prev);
      StringEndsInside(input, ms.keyStart, ms.keyEnd);
      DerivedEndsInside(input, ms.colon + 1, ms.value);
      FlattenOrdered(input, ms.colon + 1, ms.value);
      var p := MembersEnd(ms.prev, open);
      HeadOrdered(ms, p);
      OrderedConcat(FlattenMembers(ms.prev), MemberHead(ms), open + 1, p, ms.colon + 1);
      OrderedConcat(FlattenMembers(ms.prev) + MemberHead(ms), Flatten(ms.value), open + 1, ms.colon + 1, End(ms.value));
    }
  }

  lemma {:induction false} ItemsOrdered(input: seq<Byte>, open: nat, xs: Items)
    requires DerivesItems(input, open, xs) && open < |input| < UINT32_RANGE
    ensures Ordered(FlattenItems(xs), open + 1, ItemsEnd(xs, open))
    decreases xs
  {
    hide Ordered, Tok, Derives;
    if xs.NoItems? {
      NothingOrdered(open + 1);
    } else {
      ItemsEndInside(input, open, xs.prev);
      ItemsOrdered(input, open, xs.prev);
      var p := ItemsEnd(xs.prev, open);
      if xs.prev.NoItems? {
        DerivedEndsInside(input, p, xs.value);
        FlattenOrdered(input, p, xs.value);
        assert FlattenItems(xs) == Flatten(xs.value);
      } else {
        DerivedEndsInside(input, xs.comma + 1, xs.value);
        FlattenOrdered(input, xs.comma + 1, xs.value);
        var c := [Tok(TokComma, xs.comma, xs.comma + 1)];
        OneOrdered(TokComma, xs.comma, xs.comma + 1, p, xs.comma + 1);
        OrderedConcat(FlattenItems(xs.prev), c, open + 1, p, xs.comma + 1);
        OrderedConcat(FlattenItems(xs.prev) + c, Flatten(xs.value), open + 1, xs.comma + 1, End(xs.value));
      }
    }
  }

  /** At 4 GiB the stored range wraps: a token there is recorded as starting at offset 0. */
  lemma OffsetsWrapAtFourGiB(typ: TokenType, start: nat, end: nat)
    requires start <= end
    ensures Tok(typ, start, end) == Token(typ, start, end) <==> end < UINT32_RANGE
    ensures start == UINT32_RANGE ==> Tok(typ, start, end).start == 0
  {
  }
}
