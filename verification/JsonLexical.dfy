/** What the lexical rules of the grammar come to, told by positions and bytes alone. */
module JsonLexical {
  import opened Basics
  import opened JsonGrammar

  predicate Digits(input: seq<Byte>, i: int, k: int)
    requires 0 <= i <= |input| && k <= |input|
  {
    forall m :: i <= m < k ==> 0x30 <= input[m] <= 0x39
  }

  // ----- numbers -----

  /** Where the sign ends, the digits, the fraction and the marker of the exponent with its sign. */
  predicate Split(input: seq<Byte>, s: nat, a: int, d: int, f: int, g: int, end: int) {
    && s <= a <= d <= f <= g <= end <= |input|
    && (a == s || (a == s + 1 && input[s] == 0x2D))
    && Digits(input, a, d)
    && (f == d || (input[d] == 0x2E && Digits(input, d + 1, f)))
    && (if g == f then end == f
        else
          && (input[f] == 0x65 || input[f] == 0x45)
          && (g == f + 1 || (g == f + 2 && (input[f + 1] == 0x2B || input[f + 1] == 0x2D)))
          && Digits(input, g, end))
  }

  /** An optional minus, digits, optionally a dot and digits, optionally an exponent; any digits may be missing. */
  ghost predicate IsNumber(input: seq<Byte>, s: nat, end: int) {
    exists a, d, f, g :: Split(input, s, a, d, f, g, end)
  }

  lemma {:induction false} DigitsEndIs(input: seq<Byte>, i: nat)
    requires i <= |input|
    ensures Digits(input, i, DigitsEnd(input, i))
    ensures DigitsEnd(input, i) < |input| ==> !(0x30 <= input[DigitsEnd(input, i)] <= 0x39)
    decreases |input| - i
  {
    if i < |input| && IsDigit(input[i]) {
      DigitsEndIs(input, i + 1);
    }
  }

  lemma NumberEndSplits(input: seq<Byte>, s: nat)
    requires s < |input| && (input[s] == MINUS || IsDigit(input[s]))
    ensures IsNumber(input, s, NumberEnd(input, s))
  {
    hide DigitsEnd, Digits;
    var a := if input[s] == MINUS then s + 1 else s;
    var d := DigitsEnd(input, a);
    var f := FractionEnd(input, d);
    var end := ExponentEnd(input, f);
    var g := if end == f then f else if At(input, f + 1, PLUS) || At(input, f + 1, MINUS) then f + 2 else f + 1;
    DigitsEndIs(input, a);
    if f > d {
      DigitsEndIs(input, d + 1);
    }
    if end > f {
      DigitsEndIs(input, g);
    }
    assert Split(input, s, a, d, f, g, end);
  }

  lemma DigitsReach(input: seq<Byte>, i: nat, k: nat)
    requires i <= |input| && k <= |input| && Digits(input, i, k)
    ensures k <= i || k <= DigitsEnd(input, i)
    ensures k < DigitsEnd(input, i) && i <= k ==> 0x30 <= input[k] <= 0x39
  {
    DigitsEndIs(input, i);
  }

  lemma NothingLonger(input: seq<Byte>, s: nat, a: int, d: int, f: int, g: int, end: int)
    requires s < |input| && (input[s] == MINUS || IsDigit(input[s])) && Split(input, s, a, d, f, g, end)
    ensures end <= NumberEnd(input, s)
  {
    hide DigitsEnd, Digits, FractionEnd, ExponentEnd;
    var a' := if input[s] == MINUS then s + 1 else s;
    var d' := DigitsEnd(input, a');
    var f' := FractionEnd(input, d');
    if a < a' {
      NoDigitsBeforeSign(input, s, d);
      assert end == s;
    } else {
      DigitsReach(input, a', d);
      if d == d' {
        FractionReaches(input, d, f);
        if f == f' && g > f {
          ExponentReaches(input, f, g, end);
        }
      }
    }
  }

  lemma NoDigitsBeforeSign(input: seq<Byte>, s: nat, d: int)
    requires s < |input| && input[s] == 0x2D && s <= d <= |input| && Digits(input, s, d)
    ensures d == s
  {
  }

  lemma FractionReaches(input: seq<Byte>, d: nat, f: int)
    requires d <= f <= |input| && (f == d || (input[d] == 0x2E && Digits(input, d + 1, f)))
    ensures f <= FractionEnd(input, d)
    ensures f < FractionEnd(input, d) ==> f < |input| && (input[f] == 0x2E || 0x30 <= input[f] <= 0x39)
  {
    hide DigitsEnd, Digits;
    if f > d {
      DigitsReach(input, d + 1, f);
    }
  }

  lemma ExponentReaches(input: seq<Byte>, f: nat, g: int, end: int)
    requires f < g <= end <= |input| && (input[f] == 0x65 || input[f] == 0x45)
    requires g == f + 1 || (g == f + 2 && (input[f + 1] == 0x2B || input[f + 1] == 0x2D))
    requires Digits(input, g, end)
    ensures end <= ExponentEnd(input, f)
  {
    hide DigitsEnd;
    DigitsReach(input, g, end);
  }

  /** The number at a position is the longest slice of that shape. */
  lemma NumberIsLongest(input: seq<Byte>, s: nat)
    requires s < |input| && (input[s] == MINUS || IsDigit(input[s]))
    ensures IsNumber(input, s, NumberEnd(input, s))
    ensures forall end :: IsNumber(input, s, end) ==> end <= NumberEnd(input, s)
  {
    NumberEndSplits(input, s);
    forall end | IsNumber(input, s, end)
      ensures end <= NumberEnd(input, s)
    {
      var a, d, f, g :| Split(input, s, a, d, f, g, end);
      NothingLonger(input, s, a, d, f, g, end);
    }
  }

  // ----- strings -----

  /** How many backslashes stand right before `p`, not looking before `i`. */
  function Backslashes(input: seq<Byte>, i: nat, p: nat): nat
    requires p <= |input|
  {
    if p > i && input[p - 1] == 0x5C then 1 + Backslashes(input, i, p - 1) else 0
  }

  /** An odd number of backslashes hides what follows them. */
  predicate Hidden(input: seq<Byte>, i: nat, p: nat)
    requires p <= |input|
  {
    Backslashes(input, i, p) % 2 == 1
  }

  lemma {:induction false} AfterPlain(input: seq<Byte>, i: nat, p: nat)
    requires i < p <= |input| && input[i] != 0x5C
    ensures Backslashes(input, i, p) == Backslashes(input, i + 1, p)
    decreases p
  {
    if i + 1 < p {
      AfterPlain(input, i, p - 1);
    }
  }

  lemma {:induction false} AfterPair(input: seq<Byte>, i: nat, p: nat)
    requires i + 2 <= p <= |input| && input[i] == 0x5C
    ensures Hidden(input, i, p) == Hidden(input, i + 2, p)
    decreases p
  {
    if i + 2 < p {
      AfterPair(input, i, p - 1);
    } else {
      assert Backslashes(input, i, i + 1) == 1;
    }
  }

  /** The quote that ends a string body is the first one that no odd number of backslashes hides. */
  lemma {:induction false} StringEndsAtFirstPlainQuote(input: seq<Byte>, i: nat, q: nat)
    ensures ClosesString(input, i, q)
       <==> i <= q < |input| && input[q] == 0x22 && !Hidden(input, i, q)
            && forall p :: i <= p < q && input[p] == 0x22 ==> Hidden(input, i, p)
    decreases q - i
  {
    hide Hidden;
    if i < q < |input| {
      NothingBefore(input, i);
      if input[i] == 0x5C {
        StringEndsAtFirstPlainQuote(input, i + 2, q);
        forall p | i + 2 <= p <= q
          ensures Hidden(input, i, p) == Hidden(input, i + 2, p)
        {
          AfterPair(input, i, p);
        }
      } else {
        StringEndsAtFirstPlainQuote(input, i + 1, q);
        forall p | i + 1 <= p <= q
          ensures Hidden(input, i, p) == Hidden(input, i + 1, p)
        {
          AfterPlainHidden(input, i, p);
        }
      }
    } else if i == q < |input| {
      NothingBefore(input, i);
    } else if q >= |input| {
      EndsInside(input, i, q);
    }
  }

  lemma NothingBefore(input: seq<Byte>, i: nat)
    requires i < |input|
    ensures !Hidden(input, i, i) && (Hidden(input, i, i + 1) <==> input[i] == 0x5C)
  {
    assert Backslashes(input, i, i) == 0;
  }

  lemma AfterPlainHidden(input: seq<Byte>, i: nat, p: nat)
    requires i < p <= |input| && input[i] != 0x5C
    ensures Hidden(input, i, p) == Hidden(input, i + 1, p)
  {
    AfterPlain(input, i, p);
  }

  lemma EndsInside(input: seq<Byte>, i: nat, q: nat)
    requires q >= |input|
    ensures !ClosesString(input, i, q)
  {
    if ClosesString(input, i, q) {
      StringEndsInside(input, i, q);
    }
  }

  // ----- white space and literals -----

  /** Skipping stops at the first byte that is not space, tab, line feed or carriage return. */
  lemma {:induction false} SkipsWhiteSpace(input: seq<Byte>, pos: nat)
    requires pos <= |input|
    ensures pos <= SkipWs(input, pos) <= |input|
    ensures forall i :: pos <= i < SkipWs(input, pos) ==> input[i] in {0x20, 0x09, 0x0A, 0x0D}
    ensures SkipWs(input, pos) < |input| ==> input[SkipWs(input, pos)] !in {0x20, 0x09, 0x0A, 0x0D}
  {
    SkipWsStops(input, pos);
  }

  /** A scalar's bytes: a string between its quotes, a longest number, or one of the three words. */
  lemma ScalarBytes(input: seq<Byte>, s: nat, kind: ScalarType, start: nat, end: nat)
    requires ScalarAt(input, s, kind, start, end)
    ensures start <= end <= |input|
    ensures kind == TokString ==>
              && start == s + 1 && input[s] == 0x22 && end < |input| && input[end] == 0x22
              && forall p :: start <= p < end && input[p] == 0x22 ==> Hidden(input, start, p)
    ensures kind == TokNumber ==>
              start == s && IsNumber(input, s, end) && forall longer :: IsNumber(input, s, longer) ==> longer <= end
    ensures kind == TokTrue ==> start == s && input[start..end] == [0x74, 0x72, 0x75, 0x65]
    ensures kind == TokFalse ==> start == s && input[start..end] == [0x66, 0x61, 0x6C, 0x73, 0x65]
    ensures kind == TokNull ==> start == s && input[start..end] == [0x6E, 0x75, 0x6C, 0x6C]
  {
    hide NumberEnd, ClosesString, Hidden, IsNumber;
    if kind == TokString {
      StringEndsAtFirstPlainQuote(input, start, end);
    } else if kind == TokNumber {
      NumberIsLongest(input, s);
    }
  }

  // ----- an example -----

  /** `{"a":[1,true]}` */
  const SAMPLE: seq<Byte> :=
    [0x7B, 0x22, 0x61, 0x22, 0x3A, 0x5B, 0x31, 0x2C, 0x74, 0x72, 0x75, 0x65, 0x5D, 0x7D]

  const ONE_AND_TRUE: Json :=
    Arr(5, Item(Item(NoItems, 0, Scalar(TokNumber, 6, 7)), 7, Scalar(TokTrue, 8, 12)), 12)

  lemma SampleArray()
    ensures Derives(SAMPLE, 5, ONE_AND_TRUE)
  {
    var one, yes := Scalar(TokNumber, 6, 7), Scalar(TokTrue, 8, 12);
    assert DigitsEnd(SAMPLE, 6) == 7;
    assert Derives(SAMPLE, 6, one);
    assert SAMPLE[8..12] == TRUE_LIT;
    assert Derives(SAMPLE, 8, yes);
    assert DerivesItems(SAMPLE, 5, Item(NoItems, 0, one));
    assert DerivesItems(SAMPLE, 5, Item(Item(NoItems, 0, one), 7, yes));
  }

  lemma SampleArrayTokens()
    ensures Flatten(ONE_AND_TRUE) == [Token(TokArrStart, 5, 6), Token(TokNumber, 6, 7), Token(TokComma, 7, 8),
                                      Token(TokTrue, 8, 12), Token(TokArrEnd, 12, 13)]
  {
    assert FlattenItems(Item(NoItems, 0, Scalar(TokNumber, 6, 7))) == [Token(TokNumber, 6, 7)];
  }

  /** The tokens of a small object: brackets, key, colon and comma each have theirs, in the order of the text. */
  lemma SampleTokens()
    ensures exists j ::
              Derives(SAMPLE, 0, j)
              && Flatten(j) == [Token(TokObjStart, 0, 1), Token(TokString, 2, 3), Token(TokColon, 4, 5),
                                Token(TokArrStart, 5, 6), Token(TokNumber, 6, 7), Token(TokComma, 7, 8),
                                Token(TokTrue, 8, 12), Token(TokArrEnd, 12, 13), Token(TokObjEnd, 13, 14)]
  {
    SampleArray();
    SampleArrayTokens();
    hide ONE_AND_TRUE;
    var members := Member(NoMembers, 0, 2, 3, 4, ONE_AND_TRUE);
    SampleObject(ONE_AND_TRUE);
    assert FlattenMembers(NoMembers) == [];
    assert FlattenMembers(members) == [Token(TokString, 2, 3), Token(TokColon, 4, 5)] + Flatten(ONE_AND_TRUE);
    assert Flatten(Obj(0, members, 13)) == [Token(TokObjStart, 0, 1)] + FlattenMembers(members)
                                            + [Token(TokObjEnd, 13, 14)];
  }

  lemma NoSpace(input: seq<Byte>, pos: nat)
    requires pos < |input| && input[pos] !in {0x20, 0x09, 0x0A, 0x0D}
    ensures SkipWs(input, pos) == pos
  {
  }

  lemma SampleKey()
    ensures KeyAt(SAMPLE, NoMembers, 0) == 1 && ScalarAt(SAMPLE, 1, TokString, 2, 3)
  {
    hide SkipWs;
    NoSpace(SAMPLE, 1);
    assert MembersEnd(NoMembers, 0) == 1;
    assert ClosesString(SAMPLE, 3, 3);
    assert ClosesString(SAMPLE, 2, 3);
  }

  lemma SampleObject(value: Json)
    requires Derives(SAMPLE, 5, value) && value.Arr? && value.close == 12
    ensures Derives(SAMPLE, 0, Obj(0, Member(NoMembers, 0, 2, 3, 4, value), 13))
  {
    hide SkipWs, ScalarAt, KeyAt;
    SampleKey();
    NoSpace(SAMPLE, 0);
    NoSpace(SAMPLE, 4);
    NoSpace(SAMPLE, 13);
    var members := Member(NoMembers, 0, 2, 3, 4, value);
    assert DerivesMembers(SAMPLE, 0, NoMembers);
    assert At(SAMPLE, 4, COLON) && At(SAMPLE, 0, LBRACE) && At(SAMPLE, 13, RBRACE);
    assert DerivesMembers(SAMPLE, 0, members);
    assert MembersEnd(members, 0) == 13;
  }
}
