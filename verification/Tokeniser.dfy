/** The tokeniser: recursive descent over a byte buffer, appending flat tokens. */
module Tokenisers {
  import opened Basics
  import opened JsonGrammar
  import opened JsonParse

  // ----- eight bytes at a time -----

  /** An unaligned little-endian 64-bit load. */
  function Load8(input: seq<Byte>, pos: nat): bv64
    requires pos + 8 <= |input|
  {
    (input[pos] as bv64) | ((input[pos + 1] as bv64) << 8) | ((input[pos + 2] as bv64) << 16)
    | ((input[pos + 3] as bv64) << 24) | ((input[pos + 4] as bv64) << 32) | ((input[pos + 5] as bv64) << 40)
    | ((input[pos + 6] as bv64) << 48) | ((input[pos + 7] as bv64) << 56)
  }

  predicate HasZero(v: bv64) {
    (v - 0x0101010101010101) & !v & 0x8080808080808080 != 0
  }

  /** The word test is exact: it fires when one of the eight bytes is zero and never otherwise. */
  lemma HasZeroIsExact(v: bv64)
    ensures HasZero(v) <==>
            || v & 0xFF == 0 || v & 0xFF00 == 0 || v & 0xFF_0000 == 0 || v & 0xFF00_0000 == 0
            || v & 0xFF_0000_0000 == 0 || v & 0xFF00_0000_0000 == 0
            || v & 0xFF_0000_0000_0000 == 0 || v & 0xFF00_0000_0000_0000 == 0
  {
  }

  /** XOR with each white-space byte, repeated, turns that byte into a zero byte. */
  predicate ChunkHasWs(chunk: bv64) {
    var sp := chunk ^ 0x2020202020202020;
    var tb := chunk ^ 0x0909090909090909;
    var lf := chunk ^ 0x0A0A0A0A0A0A0A0A;
    var cr := chunk ^ 0x0D0D0D0D0D0D0D0D;
    HasZero(sp) || HasZero(tb) || HasZero(lf) || HasZero(cr)
  }

  /** A chunk in which none of the four word tests fires does not start with white space. */
  lemma NoWhitespaceInChunk(input: seq<Byte>, pos: nat)
    requires pos + 8 <= |input| && !ChunkHasWs(Load8(input, pos))
    ensures !IsWs(input[pos])
  {
  }

  class Tokeniser {
    var input: seq<Byte>
    var pos: nat
    var tokens: seq<Token>

    constructor ()
      ensures input == [] && pos == 0 && tokens == []
    {
      input, pos, tokens := [], 0, [];
    }

    method SkipWS()
      requires pos <= |input|
      modifies this`pos
      ensures pos == SkipWs(input, old(pos))
    {
      while pos < |input| && IsWs(input[pos])
        invariant pos <= |input| && SkipWs(input, pos) == SkipWs(input, old(pos))
      {
        pos := pos + 1;
      }
    }

    /** Word at a time, but it always stops where SkipWS would. */
    method SkipWS8()
      requires pos <= |input|
      modifies this`pos
      ensures pos == SkipWs(input, old(pos))
    {
      hide Load8, ChunkHasWs, IsWs;
      while pos + 8 <= |input|
        invariant pos <= |input| && SkipWs(input, pos) == SkipWs(input, old(pos))
        decreases |input| - pos
      {
        var chunk := Load8(input, pos);
        if !ChunkHasWs(chunk) {
          NoWhitespaceInChunk(input, pos);
          return;
        }
        var start := pos;
        for i := 0 to 8
          invariant pos == start + i && pos <= |input| && SkipWs(input, pos) == SkipWs(input, old(pos))
        {
          if IsWs(input[pos]) {
            pos := pos + 1;
          } else {
            return;
          }
        }
      }
      SkipWS();
    }

    method Add(typ: TokenType, start: nat, end: nat)
      modifies this`tokens
      ensures tokens == old(tokens) + [Tok(typ, start, end)]
    {
      tokens := tokens + [Token(typ, start % UINT32_RANGE, end % UINT32_RANGE)];
    }

    /** The outcome of a parse step: exactly the tree's tokens are appended, or it failed. */
    twostate predicate Reads(parsed: Option<Json>, ok: bool)
      reads this
    {
      match parsed
      case Some(j) => ok && pos == End(j) && tokens == old(tokens) + Flatten(j)
      case None => !ok
    }

    method ParseString() returns (ok: bool)
      requires pos <= |input|
      modifies this`pos, this`tokens
      ensures ok <==> At(input, old(pos), QUOTE) && CloseQuote(input, old(pos) + 1).Some?
      ensures ok ==> var q := CloseQuote(input, old(pos) + 1).value;
                     pos == q + 1 && tokens == old(tokens) + [Tok(TokString, old(pos) + 1, q)]
    {
      if pos >= |input| || input[pos] != QUOTE {
        return false;
      }
      var start := pos + 1;
      pos := pos + 1;
      while pos < |input|
        invariant CloseQuote(input, pos) == CloseQuote(input, start)
        invariant tokens == old(tokens)
        decreases |input| - pos
      {
        if input[pos] == BACKSLASH {
          pos := pos + 2;
          continue;
        }
        if input[pos] == QUOTE {
          Add(TokString, start, pos);
          pos := pos + 1;
          return true;
        }
        pos := pos + 1;
      }
      return false;
    }

    method SkipDigits()
      requires pos <= |input|
      modifies this`pos
      ensures pos == DigitsEnd(input, old(pos)) <= |input|
    {
      while pos < |input| && IsDigit(input[pos])
        invariant pos <= |input| && DigitsEnd(input, pos) == DigitsEnd(input, old(pos))
      {
        pos := pos + 1;
      }
    }

    method ParseNumber()
      requires pos < |input| && (input[pos] == MINUS || IsDigit(input[pos]))
      modifies this`pos, this`tokens
      ensures pos == NumberEnd(input, old(pos))
      ensures tokens == old(tokens) + [Tok(TokNumber, old(pos), pos)]
    {
      hide Tok, DigitsEnd, IsDigit;
      var start := pos;
      if input[pos] == MINUS {
        pos := pos + 1;
      }
      SkipDigits();
      if pos < |input| && input[pos] == DOT {
        pos := pos + 1;
        SkipDigits();
      }
      if pos < |input| && (input[pos] == 0x65 || input[pos] == 0x45) {
        pos := pos + 1;
        if pos < |input| && (input[pos] == PLUS || input[pos] == MINUS) {
          pos := pos + 1;
        }
        SkipDigits();
      }
      Add(TokNumber, start, pos);
    }

    method ParseLiteralToken(lit: seq<Byte>, typ: TokenType) returns (ok: bool)
      requires pos <= |input|
      modifies this`pos, this`tokens
      ensures ok <==> LiteralAt(input, old(pos), lit)
      ensures ok ==> pos == old(pos) + |lit| && tokens == old(tokens) + [Tok(typ, old(pos), pos)]
    {
      if pos + |lit| > |input| {
        return false;
      }
      for i := 0 to |lit|
        invariant pos == old(pos) && tokens == old(tokens)
        invariant forall k :: 0 <= k < i ==> input[pos + k] == lit[k]
      {
        if input[pos + i] != lit[i] {
          assert input[pos..pos + |lit|][i] != lit[i];
          return false;
        }
      }
      assert input[pos..pos + |lit|] == lit;
      Add(typ, pos, pos + |lit|);
      pos := pos + |lit|;
      return true;
    }

    method ParseValue() returns (ok: bool)
      requires pos <= |input|
      modifies this`pos, this`tokens
      ensures Reads(ParseAt(input, old(pos)), ok)
      decreases |input| - pos, 2
    {
      hide CloseQuote, LiteralAt, NumberEnd, ParseMembers, ParseItems;
      SkipWS8();
      if pos >= |input| {
        return false;
      }
      var b := input[pos];
      if b == LBRACE {
        ok := ParseObject();
      } else if b == LBRACKET {
        ok := ParseArray();
      } else if b == QUOTE {
        ok := ParseString();
      } else if b == 0x74 {
        ok := ParseLiteralToken(TRUE_LIT, TokTrue);
      } else if b == 0x66 {
        ok := ParseLiteralToken(FALSE_LIT, TokFalse);
      } else if b == 0x6E {
        ok := ParseLiteralToken(NULL_LIT, TokNull);
      } else if b == MINUS || IsDigit(b) {
        ParseNumber();
        ok := true;
      } else {
        ok := false;
      }
    }

    /** A key and its colon. */
    method ParseKey() returns (ok: bool)
      requires pos <= |input|
      modifies this`pos, this`tokens
      ensures ok <==> KeyColon(input, old(pos)).Some?
      ensures ok ==> var (q, c) := KeyColon(input, old(pos)).value;
                     old(pos) < pos == c + 1 <= |input|
                     && tokens == old(tokens) + [Tok(TokString, old(pos) + 1, q)] + [Tok(TokColon, c, c + 1)]
    {
      hide CloseQuote, SkipWs, Tok;
      ok := ParseString();
      if !ok {
        return false;
      }
      SkipWS8();
      if pos >= |input| || input[pos] != COLON {
        return false;
      }
      Add(TokColon, pos, pos + 1);
      pos := pos + 1;
    }

    /** One turn of the object loop: the comma unless first, a key, a colon and a value. */
    method ParseMember(first: bool, ghost open: nat, ghost ms: Members) returns (ok: bool)
      requires open < MembersEnd(ms, open) <= |input| && first == ms.NoMembers?
      requires pos == SkipWs(input, MembersEnd(ms, open)) < |input|
      modifies this`pos, this`tokens
      ensures ok <==> NextMember(input, open, ms).Some?
      ensures ok ==> var more := NextMember(input, open, ms).value;
                     pos == MembersEnd(more, open) && tokens == old(tokens) + MemberHead(more) + Flatten(more.value)
      decreases |input| - MembersEnd(ms, open), 0
    {
      hide KeyColon, NextMember, ParseAt, Flatten, SkipWs, Tok, MemberHead;
      NextMemberIs(input, open, ms);
      if !first {
        if input[pos] != COMMA {
          return false;
        }
        Add(TokComma, pos, pos + 1);
        pos := pos + 1;
        SkipWS8();
      }
      assert pos == KeyAt(input, ms, open);
      ok := ParseKey();
      if !ok {
        return false;
      }
      ok := ParseValue();
      if ok {
        MemberTokens(old(tokens), NextMember(input, open, ms).value, tokens);
      }
    }

    method ParseObject() returns (ok: bool)
      requires At(input, pos, LBRACE)
      modifies this`pos, this`tokens
      ensures Reads(ParseMembers(input, old(pos), NoMembers), ok)
      decreases |input| - pos, 1
    {
      hide NextMember, Flatten, SkipWs, MemberHead;
      var open := pos;
      ghost var before := tokens;
      Add(TokObjStart, pos, pos + 1);
      pos := pos + 1;
      var first := true;
      ghost var ms := NoMembers;
      while true
        invariant open < pos <= |input| && pos == MembersEnd(ms, open) && first == ms.NoMembers?
        invariant tokens == before + [Tok(TokObjStart, open, open + 1)] + FlattenMembers(ms)
        invariant ParseMembers(input, open, NoMembers) == ParseMembers(input, open, ms)
        decreases |input| - pos
      {
        SkipWS8();
        if pos >= |input| {
          return false;
        }
        if input[pos] == RBRACE {
          Add(TokObjEnd, pos, pos + 1);
          FlattenObj(open, ms, pos, before);
          pos := pos + 1;
          return true;
        }
        ok := ParseMember(first, open, ms);
        if !ok {
          return false;
        }
        first := false;
        NextIsMember(input, open, ms);
        ms := NextMember(input, open, ms).value;
      }
    }

    method ParseArray() returns (ok: bool)
      requires At(input, pos, LBRACKET)
      modifies this`pos, this`tokens
      ensures Reads(ParseItems(input, old(pos), NoItems), ok)
      decreases |input| - pos, 1
    {
      hide ParseAt, Flatten, SkipWs, Tok;
      var open := pos;
      ghost var before := tokens;
      Add(TokArrStart, pos, pos + 1);
      pos := pos + 1;
      var first := true;
      ghost var xs := NoItems;
      while true
        invariant open < pos <= |input| && pos == ItemsEnd(xs, open) && first == xs.NoItems?
        invariant tokens == before + [Tok(TokArrStart, open, open + 1)] + FlattenItems(xs)
        invariant ParseItems(input, open, NoItems) == ParseItems(input, open, xs)
        decreases |input| - pos
      {
        ghost var from := pos;
        SkipWS8();
        if pos >= |input| {
          return false;
        }
        if input[pos] == RBRACKET {
          Add(TokArrEnd, pos, pos + 1);
          FlattenArr(open, xs, pos, before);
          pos := pos + 1;
          return true;
        }
        ghost var comma := if first then 0 else pos;
        ghost var start := if first then from else pos + 1;
        if !first {
          if input[pos] != COMMA {
            return false;
          }
          Add(TokComma, pos, pos + 1);
          pos := pos + 1;
        } else {
          SkipTwice(input, from);
        }
        first := false;
        ok := ParseValue();
        if !ok {
          return false;
        }
        ghost var value := ParseAt(input, start).value;
        xs := Item(xs, comma, value);
        FlattenOneMoreItem(xs, before + [Tok(TokArrStart, open, open + 1)], tokens);
      }
    }

    /** Succeeds exactly on the inputs that start with a derivable value, and lists that value's tokens. */
    method Tokenise(bytes: seq<Byte>) returns (ok: bool)
      modifies this
      ensures input == bytes
      ensures ok <==> exists j :: Derives(bytes, 0, j)
      ensures forall j :: Derives(bytes, 0, j) ==> tokens == Flatten(j) && pos == End(j)
    {
      hide Derives, Flatten;
      input, pos, tokens := bytes, 0, [];
      ok := ParseValue();
      forall j
        ensures ParseAt(bytes, 0) == Some(j) <==> Derives(bytes, 0, j)
      {
        ParsesIffDerives(bytes, 0, j);
      }
      if ok {
        assert Derives(bytes, 0, ParseAt(bytes, 0).value);
      }
    }
  }

  lemma SkipTwice(input: seq<Byte>, pos: nat)
    requires pos <= |input|
    ensures SkipWs(input, SkipWs(input, pos)) == SkipWs(input, pos)
    ensures ParseAt(input, SkipWs(input, pos)) == ParseAt(input, pos)
  {
    SkipWsStops(input, pos);
  }

  lemma FlattenObj(open: nat, ms: Members, close: nat, before: seq<Token>)
    ensures before + [Tok(TokObjStart, open, open + 1)] + FlattenMembers(ms) + [Tok(TokObjEnd, close, close + 1)]
            == before + Flatten(Obj(open, ms, close))
  {
  }

  lemma FlattenArr(open: nat, xs: Items, close: nat, before: seq<Token>)
    ensures before + [Tok(TokArrStart, open, open + 1)] + FlattenItems(xs) + [Tok(TokArrEnd, close, close + 1)]
            == before + Flatten(Arr(open, xs, close))
  {
  }

  lemma MemberTokens(before: seq<Token>, ms: Members, after: seq<Token>)
    requires ms.Member?
    requires after == (if ms.prev.NoMembers? then before else before + [Tok(TokComma, ms.comma, ms.comma + 1)])
                      + [Tok(TokString, ms.keyStart, ms.keyEnd)] + [Tok(TokColon, ms.colon, ms.colon + 1)]
                        + Flatten(ms.value)
    ensures after == before + MemberHead(ms) + Flatten(ms.value)
  {
  }

  lemma NextIsMember(input: seq<Byte>, open: nat, ms: Members)
    requires open < MembersEnd(ms, open) <= |input| && NextMember(input, open, ms).Some?
    ensures NextMember(input, open, ms).value.Member? && NextMember(input, open, ms).value.prev == ms
  {
  }

  lemma FlattenOneMoreItem(xs: Items, before: seq<Token>, after: seq<Token>)
    requires xs.Item?
    requires after == (if xs.prev.NoItems? then before + FlattenItems(xs.prev)
                       else before + FlattenItems(xs.prev) + [Tok(TokComma, xs.comma, xs.comma + 1)])
                         + Flatten(xs.value)
    ensures after == before + FlattenItems(xs)
  {
  }
}
