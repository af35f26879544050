/** The tokeniser's decisions as functions, and their agreement with the grammar in both directions. */
module JsonParse {
  import opened Basics
  import opened JsonGrammar

  function CloseQuote(input: seq<Byte>, i: nat): (r: Option<nat>)
    ensures r.Some? ==> i <= r.value < |input|
    decreases |input| - i
  {
    if i >= |input| then None
    else if input[i] == BACKSLASH then CloseQuote(input, i + 2)
    else if input[i] == QUOTE then Some(i)
    else CloseQuote(input, i + 1)
  }

  function ParseLiteral(input: seq<Byte>, s: nat, lit: seq<Byte>, kind: ScalarType): Option<Json> {
    if LiteralAt(input, s, lit) then Some(Scalar(kind, s, s + |lit|)) else None
  }

  function ParseScalar(input: seq<Byte>, s: nat): (r: Option<Json>)
    requires s < |input|
    ensures r.Some? ==> s < End(r.value) <= |input|
  {
    var b := input[s];
    if b == QUOTE then
      match CloseQuote(input, s + 1)
      case None => None
      case Some(q) => Some(Scalar(TokString, s + 1, q))
    else if b == 0x74 then ParseLiteral(input, s, TRUE_LIT, TokTrue)
    else if b == 0x66 then ParseLiteral(input, s, FALSE_LIT, TokFalse)
    else if b == 0x6E then ParseLiteral(input, s, NULL_LIT, TokNull)
    else if b == MINUS || IsDigit(b) then Some(Scalar(TokNumber, s, NumberEnd(input, s)))
    else None
  }

  function ParseAt(input: seq<Byte>, pos: nat): (r: Option<Json>)
    requires pos <= |input|
    ensures r.Some? ==> pos < End(r.value) <= |input|
    decreases |input| - pos, 2
  {
    var s := SkipWs(input, pos);
    if s >= |input| then None
    else if input[s] == LBRACE then ParseMembers(input, s, NoMembers)
    else if input[s] == LBRACKET then ParseItems(input, s, NoItems)
    else ParseScalar(input, s)
  }

  /** One turn of the object loop after the members `ms`, when the object does not end there. */
  function NextMember(input: seq<Byte>, open: nat, ms: Members): (r: Option<Members>)
    requires open < MembersEnd(ms, open) <= |input|
    ensures r.Some? ==> MembersEnd(ms, open) < MembersEnd(r.value, open) <= |input|
    decreases |input| - MembersEnd(ms, open), 0
  {
    var p := SkipWs(input, MembersEnd(ms, open));
    var k := KeyAt(input, ms, open);
    if !ms.NoMembers? && !At(input, p, COMMA) then None
    else if !At(input, k, QUOTE) then None
    else
      match CloseQuote(input, k + 1)
      case None => None
      case Some(q) =>
        var c := SkipWs(input, q + 1);
        if !At(input, c, COLON) then None
        else
          match ParseAt(input, c + 1)
          case None => None
          case Some(v) => Some(Member(ms, if ms.NoMembers? then 0 else p, k + 1, q, c, v))
  }

  /** Where the key at `k` closes and where its colon is. */
  function KeyColon(input: seq<Byte>, k: nat): (r: Option<(nat, nat)>)
    ensures r.Some? ==> k < r.value.0 < r.value.1 < |input|
  {
    if !At(input, k, QUOTE) then None
    else
      match CloseQuote(input, k + 1)
      case None => None
      case Some(q) => if At(input, SkipWs(input, q + 1), COLON) then Some((q, SkipWs(input, q + 1))) else None
  }

  /** The next member, by its separator, its key and its value. */
  lemma NextMemberIs(input: seq<Byte>, open: nat, ms: Members)
    requires open < MembersEnd(ms, open) <= |input|
    ensures var p, k := SkipWs(input, MembersEnd(ms, open)), KeyAt(input, ms, open);
            NextMember(input, open, ms) ==
            if !ms.NoMembers? && !At(input, p, COMMA) then None
            else match KeyColon(input, k)
              case None => None
              case Some(qc) =>
                match ParseAt(input, qc.1 + 1)
                case None => None
                case Some(v) => Some(Member(ms, if ms.NoMembers? then 0 else p, k + 1, qc.0, qc.1, v))
  {
    hide CloseQuote, SkipWs, ParseAt;
  }

  /** The object loop, resumed after the members `ms`. */
  function ParseMembers(input: seq<Byte>, open: nat, ms: Members): (r: Option<Json>)
    requires open < MembersEnd(ms, open) <= |input|
    ensures r.Some? ==> MembersEnd(ms, open) < End(r.value) <= |input|
    decreases |input| - MembersEnd(ms, open), 1
  {
    var p := SkipWs(input, MembersEnd(ms, open));
    if p >= |input| then None
    else if input[p] == RBRACE then Some(Obj(open, ms, p))
    else
      match NextMember(input, open, ms)
      case None => None
      case Some(more) => ParseMembers(input, open, more)
  }

  /** The array loop, resumed after the items `xs`. */
  function ParseItems(input: seq<Byte>, open: nat, xs: Items): (r: Option<Json>)
    requires open < ItemsEnd(xs, open) <= |input|
    ensures r.Some? ==> ItemsEnd(xs, open) < End(r.value) <= |input|
    decreases |input| - ItemsEnd(xs, open), 3
  {
    var p := SkipWs(input, ItemsEnd(xs, open));
    if p >= |input| then None
    else if input[p] == RBRACKET then Some(Arr(open, xs, p))
    else if !xs.NoItems? && input[p] != COMMA then None
    else
      match ParseAt(input, if xs.NoItems? then ItemsEnd(xs, open) else p + 1)
      case None => None
      case Some(v) => ParseItems(input, open, Item(xs, if xs.NoItems? then 0 else p, v))
  }

  lemma {:induction false} CloseQuoteIff(input: seq<Byte>, i: nat, q: nat)
    ensures CloseQuote(input, i) == Some(q) <==> ClosesString(input, i, q)
    decreases |input| - i
  {
    if i < |input| {
      if input[i] == BACKSLASH {
        CloseQuoteIff(input, i + 2, q);
      } else if input[i] != QUOTE {
        CloseQuoteIff(input, i + 1, q);
      }
    }
  }

  lemma ScalarIff(input: seq<Byte>, s: nat, kind: ScalarType, start: nat, end: nat)
    requires s < |input| && input[s] != LBRACE && input[s] != LBRACKET
    ensures ParseScalar(input, s) == Some(Scalar(kind, start, end)) <==> ScalarAt(input, s, kind, start, end)
  {
    hide ClosesString, CloseQuote, NumberEnd;
    CloseQuoteIff(input, s + 1, end);
    if LiteralAt(input, s, TRUE_LIT) {
      assert input[s] == input[s..s + 4][0] == 0x74;
    }
    if LiteralAt(input, s, FALSE_LIT) {
      assert input[s] == input[s..s + 5][0] == 0x66;
    }
    if LiteralAt(input, s, NULL_LIT) {
      assert input[s] == input[s..s + 4][0] == 0x6E;
    }
  }

  lemma BracketIsNoScalar(input: seq<Byte>, s: nat, kind: ScalarType, start: nat, end: nat)
    requires ScalarAt(input, s, kind, start, end)
    ensures s < |input| && input[s] != LBRACE && input[s] != LBRACKET && input[s] != RBRACKET
  {
  }

  // ----- everything parsed is derived -----

  lemma {:induction false} ParsedIsDerived(input: seq<Byte>, pos: nat)
    requires pos <= |input| && ParseAt(input, pos).Some?
    ensures Derives(input, pos, ParseAt(input, pos).value)
    decreases |input| - pos, 2
  {
    hide ScalarAt;
    var s := SkipWs(input, pos);
    if input[s] == LBRACE {
      ParsedMembersDerived(input, s, NoMembers);
    } else if input[s] == LBRACKET {
      ParsedItemsDerived(input, s, NoItems);
    } else {
      var j := ParseScalar(input, s).value;
      ScalarIff(input, s, j.kind, j.start, j.end);
    }
  }

  lemma {:induction false} NextMemberDerived(input: seq<Byte>, open: nat, ms: Members)
    requires open < MembersEnd(ms, open) <= |input| && DerivesMembers(input, open, ms)
    requires NextMember(input, open, ms).Some?
    ensures DerivesMembers(input, open, NextMember(input, open, ms).value)
    decreases |input| - MembersEnd(ms, open), 0
  {
    hide Derives, ClosesString, CloseQuote;
    var k := KeyAt(input, ms, open);
    var q := CloseQuote(input, k + 1).value;
    var c := SkipWs(input, q + 1);
    CloseQuoteIff(input, k + 1, q);
    ParsedIsDerived(input, c + 1);
  }

  lemma {:induction false} ParsedMembersDerived(input: seq<Byte>, open: nat, ms: Members)
    requires open < MembersEnd(ms, open) <= |input| && DerivesMembers(input, open, ms)
    requires ParseMembers(input, open, ms).Some?
    ensures var j := ParseMembers(input, open, ms).value;
            && j.Obj? && j.open == open && DerivesMembers(input, open, j.members)
            && j.close == SkipWs(input, MembersEnd(j.members, open)) && At(input, j.close, RBRACE)
    decreases |input| - MembersEnd(ms, open), 1
  {
    hide DerivesMembers, NextMember;
    var p := SkipWs(input, MembersEnd(ms, open));
    if input[p] != RBRACE {
      NextMemberDerived(input, open, ms);
      ParsedMembersDerived(input, open, NextMember(input, open, ms).value);
    }
  }

  lemma {:induction false} ParsedItemsDerived(input: seq<Byte>, open: nat, xs: Items)
    requires open < ItemsEnd(xs, open) <= |input| && DerivesItems(input, open, xs)
    requires ParseItems(input, open, xs).Some?
    ensures var j := ParseItems(input, open, xs).value;
            && j.Arr? && j.open == open && DerivesItems(input, open, j.items)
            && j.close == SkipWs(input, ItemsEnd(j.items, open)) && At(input, j.close, RBRACKET)
    decreases |input| - ItemsEnd(xs, open), 3
  {
    hide Derives;
    var p := SkipWs(input, ItemsEnd(xs, open));
    if input[p] != RBRACKET {
      var from := if xs.NoItems? then ItemsEnd(xs, open) else p + 1;
      ParsedIsDerived(input, from);
      ParsedItemsDerived(input, open, Item(xs, if xs.NoItems? then 0 else p, ParseAt(input, from).value));
    }
  }

  // ----- everything derived is parsed -----

  lemma {:induction false} DerivedIsParsed(input: seq<Byte>, pos: nat, j: Json)
    requires Derives(input, pos, j) && pos <= |input|
    ensures ParseAt(input, pos) == Some(j)
    decreases j
  {
    hide ScalarAt;
    var s := SkipWs(input, pos);
    match j
    case Scalar(kind, start, end) =>
      BracketIsNoScalar(input, s, kind, start, end);
      ScalarIff(input, s, kind, start, end);
    case Obj(open, ms, close) =>
      MembersEndInside(input, open, ms);
      DerivedMembersParse(input, open, ms);
    case Arr(open, xs, close) =>
      ItemsEndInside(input, open, xs);
      DerivedItemsParse(input, open, xs);
  }

  lemma {:induction false} DerivedMembersParse(input: seq<Byte>, open: nat, ms: Members)
    requires DerivesMembers(input, open, ms) && open < |input| && open < MembersEnd(ms, open) <= |input|
    ensures ParseMembers(input, open, NoMembers) == ParseMembers(input, open, ms)
    decreases ms
  {
    hide Derives, ClosesString, CloseQuote, ParseAt, SkipWs;
    if ms.Member? {
      MembersEndInside(input, open, ms.prev);
      DerivedMembersParse(input, open, ms.prev);
      CloseQuoteIff(input, ms.keyStart, ms.keyEnd);
      StringEndsInside(input, ms.keyStart, ms.keyEnd);
      DerivedIsParsed(input, ms.colon + 1, ms.value);
      assert NextMember(input, open, ms.prev) == Some(ms);
    }
  }

  lemma DerivedStart(input: seq<Byte>, pos: nat, j: Json)
    requires Derives(input, pos, j)
    ensures SkipWs(input, pos) < |input| && input[SkipWs(input, pos)] != RBRACKET
  {
  }

  lemma {:induction false} DerivedItemsParse(input: seq<Byte>, open: nat, xs: Items)
    requires DerivesItems(input, open, xs) && open < |input| && open < ItemsEnd(xs, open) <= |input|
    ensures ParseItems(input, open, NoItems) == ParseItems(input, open, xs)
    decreases xs
  {
    hide Derives;
    if xs.Item? {
      ItemsEndInside(input, open, xs.prev);
      DerivedItemsParse(input, open, xs.prev);
      var from := if xs.prev.NoItems? then ItemsEnd(xs.prev, open) else xs.comma + 1;
      DerivedIsParsed(input, from, xs.value);
      DerivedStart(input, from, xs.value);
      assert ParseItems(input, open, xs.prev) == ParseItems(input, open, xs);
    }
  }

  /** The parser accepts exactly what the grammar derives, and reads it as the one tree derivable. */
  lemma ParsesIffDerives(input: seq<Byte>, pos: nat, j: Json)
    requires pos <= |input|
    ensures ParseAt(input, pos) == Some(j) <==> Derives(input, pos, j)
  {
    if ParseAt(input, pos) == Some(j) {
      ParsedIsDerived(input, pos);
    }
    if Derives(input, pos, j) {
      DerivedIsParsed(input, pos, j);
    }
  }
}
