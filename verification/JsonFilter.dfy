/** The one-pass filter and extractor over a tokenised object, against what it means on the value tree. */
module JsonFilter {
  import opened Basics
  import opened JsonGrammar
  import opened JsonNavigate
  import opened JsonPredicates

  datatype GoValue = GoString(bytes: seq<Byte>) | GoBool(b: bool) | GoNumber(raw: seq<Byte>) | GoNested(raw: seq<Byte>)

  /** encoding/json on a raw slice, which is not part of this model: does it decode? */
  type Decoder = seq<Byte> -> bool

  datatype FilterField = FilterField(atom: Atom, name: seq<Byte>)

  datatype FilterResult = FilterResult(passed: bool, data: map<seq<Byte>, GoValue>)

  // ----- meaning on the tree -----

  function Slice(input: seq<Byte>, from: nat, to: nat): seq<Byte> {
    if from <= to <= |input| then input[from..to] else []
  }

  function KindOf(j: Json): TokenType {
    match j
    case Scalar(kind, _, _) => kind
    case Obj(_, _, _) => TokObjStart
    case Arr(_, _, _) => TokArrStart
  }

  function RawOf(input: seq<Byte>, j: Json): seq<Byte> {
    match j
    case Scalar(_, start, end) => Slice(input, start, end)
    case Obj(open, _, _) => Slice(input, open, End(j))
    case Arr(open, _, _) => Slice(input, open, End(j))
  }

  /** Null, and a nested value that does not decode, have no Go value. */
  function GoValueOf(kind: TokenType, raw: seq<Byte>, decodes: Decoder): Option<GoValue> {
    match kind
    case TokString => Some(GoString(raw))
    case TokNumber => Some(if decodes(raw) then GoNumber(raw) else GoString(raw))
    case TokTrue => Some(GoBool(true))
    case TokFalse => Some(GoBool(false))
    case TokObjStart => if decodes(raw) then Some(GoNested(raw)) else None
    case TokArrStart => if decodes(raw) then Some(GoNested(raw)) else None
    case _ => None
  }

  function ValueOf(input: seq<Byte>, j: Json, decodes: Decoder): Option<GoValue> {
    GoValueOf(KindOf(j), RawOf(input, j), decodes)
  }

  function KeyOf(input: seq<Byte>, ms: Members): seq<Byte>
    requires ms.Member?
  {
    Slice(input, ms.keyStart, ms.keyEnd)
  }

  /** The value of the last top-level member called `name`. */
  function LastValue(input: seq<Byte>, ms: Members, name: seq<Byte>): Option<Json> {
    match ms
    case NoMembers => None
    case Member(prev, _, _, _, _, value) =>
      if KeyOf(input, ms) == name then Some(value) else LastValue(input, prev, name)
  }

  /** The last top-level occurrence of the field has the predicate's type and satisfies it. */
  ghost predicate Holds(fp: FieldPredicate, input: seq<Byte>, ms: Members, rd: Readers) {
    var v := LastValue(input, ms, fp.name);
    v.Some? && EvalToken(fp, KindOf(v.value), RawOf(input, v.value), rd)
  }

  /** The last top-level occurrence of `name` that has a Go value. */
  function LastGoValue(input: seq<Byte>, ms: Members, name: seq<Byte>, decodes: Decoder): Option<GoValue> {
    match ms
    case NoMembers => None
    case Member(prev, _, _, _, _, value) =>
      if KeyOf(input, ms) == name && ValueOf(input, value, decodes).Some? then ValueOf(input, value, decodes)
      else LastGoValue(input, prev, name, decodes)
  }

  /** Atoms are the names' own, and a key with a field's atom is that field's name. */
  ghost predicate Identify(input: seq<Byte>, ms: Members, atom: Atom, name: seq<Byte>)
    decreases ms
  {
    ms.Member? ==>
      (MakeAtom(KeyOf(input, ms)) == atom <==> KeyOf(input, ms) == name) && Identify(input, ms.prev, atom, name)
  }

  ghost predicate SharesSlot(preds: seq<FieldPredicate>) {
    exists i, k :: 0 <= i < k < |preds| && preds[i].atom == preds[k].atom
  }

  /** Every top-level key is short enough to be packed, and has no zero byte. */
  predicate ShortKeys(input: seq<Byte>, ms: Members)
    decreases ms
  {
    ms.Member? ==> Short(KeyOf(input, ms)) && ShortKeys(input, ms.prev)
  }

  /** Every predicate was made for a short name. */
  predicate ShortFields(preds: seq<FieldPredicate>) {
    forall i :: 0 <= i < |preds| ==> Short(preds[i].name) && preds[i].atom == MakeAtom(preds[i].name)
  }

  predicate ShortOutputs(outputs: seq<FilterField>) {
    forall i :: 0 <= i < |outputs| ==> Short(outputs[i].name) && outputs[i].atom == MakeAtom(outputs[i].name)
  }

  lemma {:induction false} ShortKeysIdentify(input: seq<Byte>, ms: Members, name: seq<Byte>)
    requires ShortKeys(input, ms) && Short(name)
    ensures Identify(input, ms, MakeAtom(name), name)
    decreases ms
  {
    hide MakeAtom, Short;
    if ms.Member? {
      ShortAtomsAreInjective(KeyOf(input, ms), name);
      ShortKeysIdentify(input, ms.prev, name);
    }
  }

  predicate DistinctNames(preds: seq<FieldPredicate>) {
    forall i, k :: 0 <= i < k < |preds| ==> preds[i].name != preds[k].name
  }

  /** Among short names atoms never get in the way: they identify the keys, and slots clash only for one name. */
  lemma ShortNamesNeverClash(input: seq<Byte>, ms: Members, preds: seq<FieldPredicate>, outputs: seq<FilterField>)
    requires ShortKeys(input, ms) && ShortFields(preds) && ShortOutputs(outputs)
    ensures AllIdentify(input, ms, preds) && OutputsIdentify(input, ms, outputs)
    ensures SharesSlot(preds) <==> !DistinctNames(preds)
  {
    hide MakeAtom, Short, Identify;
    forall i | 0 <= i < |preds|
      ensures Identify(input, ms, preds[i].atom, preds[i].name)
    {
      ShortKeysIdentify(input, ms, preds[i].name);
    }
    forall i | 0 <= i < |outputs|
      ensures Identify(input, ms, outputs[i].atom, outputs[i].name)
    {
      ShortKeysIdentify(input, ms, outputs[i].name);
    }
    forall i, k | 0 <= i < |outputs| && 0 <= k < |outputs|
      ensures outputs[i].atom == outputs[k].atom <==> outputs[i].name == outputs[k].name
    {
      ShortAtomsAreInjective(outputs[i].name, outputs[k].name);
    }
    forall i, k | 0 <= i < k < |preds|
      ensures preds[i].atom == preds[k].atom <==> preds[i].name == preds[k].name
    {
      ShortAtomsAreInjective(preds[i].name, preds[k].name);
    }
  }

  // ----- walking the members from the left -----

  function Count(ms: Members): nat {
    if ms.NoMembers? then 0 else 1 + Count(ms.prev)
  }

  function Take(ms: Members, k: nat): Members {
    if k >= Count(ms) then ms else Take(ms.prev, k)
  }

  lemma {:induction false} TakeStep(ms: Members, k: nat)
    requires k < Count(ms)
    ensures Take(ms, k + 1).Member? && Take(ms, k + 1).prev == Take(ms, k)
    ensures Count(Take(ms, k)) == k
  {
    if k + 1 < Count(ms) {
      TakeStep(ms.prev, k);
    } else {
      assert Take(ms.prev, k) == ms.prev;
    }
  }

  lemma {:induction false} TakeIsPrefix(ms: Members, k: nat)
    ensures FlattenMembers(Take(ms, k)) <= FlattenMembers(ms)
  {
    if k < Count(ms) {
      TakeIsPrefix(ms.prev, k);
    }
  }

  lemma {:induction false} TakeDerives(input: seq<Byte>, open: nat, ms: Members, k: nat)
    requires DerivesMembers(input, open, ms)
    ensures DerivesMembers(input, open, Take(ms, k))
    decreases ms
  {
    if k < Count(ms) {
      TakeDerives(input, open, ms.prev, k);
    }
  }

  lemma {:induction false} TakeIdentify(input: seq<Byte>, ms: Members, atom: Atom, name: seq<Byte>, k: nat)
    requires Identify(input, ms, atom, name)
    ensures Identify(input, Take(ms, k), atom, name)
    decreases ms
  {
    if k < Count(ms) {
      TakeIdentify(input, ms.prev, atom, name, k);
    }
  }

  function Offset(ms: Members, k: nat): nat {
    1 + |FlattenMembers(Take(ms, k))|
  }

  /** What the walk finds next in the tokens of an object: the head of the next member, then its value. */
  lemma NextTokens(open: nat, ms: Members, close: nat, k: nat)
    requires k < Count(ms)
    ensures var tokens := Flatten(Obj(open, ms, close));
            var next := Take(ms, k + 1);
            && next.Member? && next.prev == Take(ms, k)
            && Offset(ms, k + 1) < |tokens|
            && tokens[Offset(ms, k)..Offset(ms, k + 1)] == MemberHead(next) + Flatten(next.value)
            && Offset(ms, k + 1) == Offset(ms, k) + |MemberHead(next)| + |Flatten(next.value)|
  {
    hide Flatten, FlattenMembers;
    TakeStep(ms, k);
    TakeIsPrefix(ms, k + 1);
    var next := Take(ms, k + 1);
    var tail := MemberHead(next) + Flatten(next.value);
    OneMoreMember(next);
    ObjTokens(open, ms, close);
    SliceOfWrapped(Tok(TokObjStart, open, open + 1), FlattenMembers(ms), Tok(TokObjEnd, close, close + 1),
                   FlattenMembers(Take(ms, k)), tail);
  }

  lemma OneMoreMember(ms: Members)
    requires ms.Member?
    ensures FlattenMembers(ms) == FlattenMembers(ms.prev) + (MemberHead(ms) + Flatten(ms.value))
  {
  }

  lemma ObjTokens(open: nat, ms: Members, close: nat)
    ensures Flatten(Obj(open, ms, close))
            == [Tok(TokObjStart, open, open + 1)] + FlattenMembers(ms) + [Tok(TokObjEnd, close, close + 1)]
  {
  }

  lemma SliceOfWrapped(o: Token, T: seq<Token>, c: Token, A: seq<Token>, B: seq<Token>)
    requires A + B <= T
    ensures 1 + |A| + |B| < |[o] + T + [c]|
    ensures ([o] + T + [c])[1 + |A|..1 + |A| + |B|] == B
  {
  }

  lemma LastToken(open: nat, ms: Members, close: nat)
    ensures var tokens := Flatten(Obj(open, ms, close));
            Offset(ms, Count(ms)) == |tokens| - 1 && tokens[|tokens| - 1].typ == TokObjEnd
              && tokens[0].typ == TokObjStart
  {
  }

  /** The token ranges of a derived member are real slices of the input. */
  lemma MemberSlices(input: seq<Byte>, open: nat, ms: Members)
    requires DerivesMembers(input, open, ms) && ms.Member? && open < |input| < UINT32_RANGE
    ensures ms.keyStart <= ms.keyEnd <= |input|
    ensures Tok(TokString, ms.keyStart, ms.keyEnd) == Token(TokString, ms.keyStart, ms.keyEnd)
    ensures Derives(input, ms.colon + 1, ms.value)
  {
    hide Derives, ClosesString;
    StringEndsInside(input, ms.keyStart, ms.keyEnd);
  }

  lemma TokExact(typ: TokenType, start: nat, end: nat)
    requires start <= end < UINT32_RANGE
    ensures Tok(typ, start, end) == Token(typ, start, end)
  {
  }

  lemma BracketEnds(v: Json)
    requires !v.Scalar?
    ensures Flatten(v)[0] == Tok(KindOf(v), v.open, v.open + 1)
    ensures Flatten(v)[|Flatten(v)| - 1] == Tok(if v.Obj? then TokObjEnd else TokArrEnd, v.close, v.close + 1)
  {
  }

  lemma BracketInside(input: seq<Byte>, pos: nat, v: Json)
    requires Derives(input, pos, v) && !v.Scalar?
    ensures v.open < v.close < |input|
  {
    hide ScalarAt;
    if v.Obj? {
      MembersEndInside(input, v.open, v.members);
    } else {
      ItemsEndInside(input, v.open, v.items);
    }
  }

  /** A derived value's first token carries its kind, and its own range if it is a scalar. */
  lemma ValueToken(input: seq<Byte>, pos: nat, v: Json)
    requires Derives(input, pos, v) && |input| < UINT32_RANGE
    ensures |Flatten(v)| > 0
    ensures var t := Flatten(v)[0]; t.typ == KindOf(v) && t.start <= t.end <= |input|
    ensures v.Scalar? ==> Slice(input, Flatten(v)[0].start, Flatten(v)[0].end) == RawOf(input, v)
    ensures !v.Scalar? ==> Slice(input, Flatten(v)[0].start, Flatten(v)[|Flatten(v)| - 1].end) == RawOf(input, v)
  {
    hide Derives, Tok;
    FlattenStart(v);
    if v.Scalar? {
      ScalarInside(input, pos, v.kind, v.start, v.end);
      TokExact(v.kind, v.start, v.end);
    } else {
      hide Flatten;
      BracketInside(input, pos, v);
      BracketEnds(v);
      TokExact(KindOf(v), v.open, v.open + 1);
      TokExact(if v.Obj? then TokObjEnd else TokArrEnd, v.close, v.close + 1);
    }
  }

  lemma ScalarInside(input: seq<Byte>, pos: nat, kind: ScalarType, start: nat, end: nat)
    requires Derives(input, pos, Scalar(kind, start, end))
    ensures start <= end <= |input|
  {
    hide ClosesString, NumberEnd;
    if kind == TokString {
      StringEndsInside(input, start, end);
    }
  }

  // ----- the pass -----

  datatype Slot = Slot(seen: bool, matched: bool)

  datatype Pending = Pending(name: seq<Byte>, tokenIdx: nat)

  /**
   * A slot records the last value seen for its predicate, provided atoms identify keys (`sound`).
   * A predicate whose slot another one owns is never seen.
   */
  ghost predicate SlotOk(slot: Slot, preds: seq<FieldPredicate>, i: nat, atoms: map<Atom, nat>,
                         input: seq<Byte>, ms: Members, rd: Readers, sound: bool)
    requires i < |preds|
  {
    if preds[i].atom in atoms && atoms[preds[i].atom] == i then
      sound ==>
        && slot.seen == LastValue(input, ms, preds[i].name).Some?
        && slot.matched == Holds(preds[i], input, ms, rd)
    else !slot.seen
  }

  ghost predicate SlotsOk(slots: seq<Slot>, preds: seq<FieldPredicate>, atoms: map<Atom, nat>,
                          input: seq<Byte>, ms: Members, rd: Readers, sound: bool) {
    |slots| == |preds| && forall i :: 0 <= i < |slots| ==> SlotOk(slots[i], preds, i, atoms, input, ms, rd, sound)
  }

  /** Every predicate's atom occurs on exactly the keys that are its field name. */
  ghost predicate AllIdentify(input: seq<Byte>, ms: Members, preds: seq<FieldPredicate>) {
    forall i :: 0 <= i < |preds| ==> Identify(input, ms, preds[i].atom, preds[i].name)
  }

  /** Recording one member: only the slot of its atom changes. */
  lemma SlotsAfterMember(slots: seq<Slot>, preds: seq<FieldPredicate>, atoms: map<Atom, nat>,
                         input: seq<Byte>, ms: Members, rd: Readers, slots': seq<Slot>, sound: bool)
    requires ms.Member? && (sound ==> AllIdentify(input, ms, preds)) && SlotsOf(preds, |preds|, atoms)
    requires SlotsOk(slots, preds, atoms, input, ms.prev, rd, sound)
    requires var a := MakeAtom(KeyOf(input, ms));
             slots' == if a in atoms
                       then slots[atoms[a] := Slot(true,
                         EvalToken(preds[atoms[a]], KindOf(ms.value), RawOf(input, ms.value), rd))]
                       else slots
    ensures SlotsOk(slots', preds, atoms, input, ms, rd, sound)
  {
    hide MakeAtom, EvalToken, KeyOf, RawOf;
    var a := MakeAtom(KeyOf(input, ms));
    forall i | 0 <= i < |slots'|
      ensures SlotOk(slots'[i], preds, i, atoms, input, ms, rd, sound)
    {
      assert SlotOk(slots[i], preds, i, atoms, input, ms.prev, rd, sound);
      assert sound ==> Identify(input, ms, preds[i].atom, preds[i].name);
    }
  }

  /** The output map's source: members whose key is an output field, left to right. */
  function Wanted(input: seq<Byte>, ms: Members, lookup: map<Atom, seq<Byte>>): seq<(seq<Byte>, Json)> {
    match ms
    case NoMembers => []
    case Member(prev, _, _, _, _, value) =>
      var a := MakeAtom(KeyOf(input, ms));
      Wanted(input, prev, lookup) + if a in lookup then [(lookup[a], value)] else []
  }

  ghost predicate PendingOk(pending: seq<Pending>, wanted: seq<(seq<Byte>, Json)>, tokens: seq<Token>,
                            input: seq<Byte>) {
    && |pending| == |wanted|
    && forall i :: 0 <= i < |pending| ==> PendingAt(pending[i], wanted[i], tokens, input)
  }

  /** A noted index is where the tokens of a wanted value start. */
  ghost predicate PendingAt(p: Pending, w: (seq<Byte>, Json), tokens: seq<Token>, input: seq<Byte>) {
    p.name == w.0 && Embedded(tokens, p.tokenIdx, w.1) && exists pos :: Derives(input, pos, w.1)
  }

  /** tokenToGoValue. */
  method TokenToGoValue(tokens: seq<Token>, input: seq<Byte>, i: nat, decodes: Decoder, ghost j: Json, ghost pos: nat)
    returns (v: Option<GoValue>)
    requires Embedded(tokens, i, j) && Derives(input, pos, j) && |input| < UINT32_RANGE
    ensures v == ValueOf(input, j, decodes)
  {
    hide Derives, Flatten;
    FlattenStart(j);
    ValueToken(input, pos, j);
    assert tokens[i..i + |Flatten(j)|][0] == tokens[i];
    var tok := tokens[i];
    var raw: seq<Byte>;
    if tok.typ == TokObjStart || tok.typ == TokArrStart {
      var end := SkipValue(tokens, i);
      assert tokens[i..i + |Flatten(j)|][|Flatten(j)| - 1] == tokens[end - 1];
      raw := Slice(input, tok.start, tokens[end - 1].end);
    } else {
      raw := Slice(input, tok.start, tok.end);
    }
    v := GoValueOf(tok.typ, raw, decodes);
  }

  function Build(input: seq<Byte>, wanted: seq<(seq<Byte>, Json)>, decodes: Decoder): map<seq<Byte>, GoValue> {
    if wanted == [] then map[]
    else
      var (name, j) := wanted[|wanted| - 1];
      var data := Build(input, wanted[..|wanted| - 1], decodes);
      var v := ValueOf(input, j, decodes);
      if v.Some? then data[name := v.value] else data
  }

  method BuildData(tokens: seq<Token>, input: seq<Byte>, pending: seq<Pending>, decodes: Decoder,
                   ghost wanted: seq<(seq<Byte>, Json)>) returns (data: map<seq<Byte>, GoValue>)
    requires PendingOk(pending, wanted, tokens, input) && |input| < UINT32_RANGE
    ensures data == Build(input, wanted, decodes)
  {
    hide Derives, ValueOf, Embedded;
    data := map[];
    for n := 0 to |pending|
      invariant data == Build(input, wanted[..n], decodes)
    {
      ghost var pos :| Derives(input, pos, wanted[n].1);
      var v := TokenToGoValue(tokens, input, pending[n].tokenIdx, decodes, wanted[n].1, pos);
      assert wanted[..n + 1][..n] == wanted[..n];
      if v.Some? {
        data := data[pending[n].name := v.value];
      }
    }
    assert wanted[..|pending|] == wanted;
  }

  /** The lookup table holds exactly the output fields' atoms. */
  ghost predicate LookupOk(outputs: seq<FilterField>, n: nat, lookup: map<Atom, seq<Byte>>)
    requires n <= |outputs|
  {
    && (forall i :: 0 <= i < n ==> outputs[i].atom in lookup)
    && (forall a :: a in lookup ==> exists i :: 0 <= i < n && outputs[i] == FilterField(a, lookup[a]))
  }

  method BuildLookup(outputs: seq<FilterField>) returns (lookup: map<Atom, seq<Byte>>)
    ensures LookupOk(outputs, |outputs|, lookup)
  {
    lookup := map[];
    for n := 0 to |outputs|
      invariant LookupOk(outputs, n, lookup)
    {
      ghost var was := lookup;
      lookup := lookup[outputs[n].atom := outputs[n].name];
      forall a | a in lookup
        ensures exists i :: 0 <= i < n + 1 && outputs[i] == FilterField(a, lookup[a])
      {
        if a == outputs[n].atom {
          assert outputs[n] == FilterField(a, lookup[a]);
        } else {
          var i :| 0 <= i < n && outputs[i] == FilterField(a, was[a]);
        }
      }
    }
  }

  ghost predicate OutputsIdentify(input: seq<Byte>, ms: Members, outputs: seq<FilterField>) {
    && (forall i :: 0 <= i < |outputs| ==> Identify(input, ms, outputs[i].atom, outputs[i].name))
    && (forall i, k :: 0 <= i < |outputs| && 0 <= k < |outputs| ==>
        (outputs[i].atom == outputs[k].atom <==> outputs[i].name == outputs[k].name))
  }

  /** The output map, in terms of the members: each wanted name has its last occurrence with a value. */
  lemma {:induction false} DataMeans(input: seq<Byte>, ms: Members, outputs: seq<FilterField>,
                                     lookup: map<Atom, seq<Byte>>,
                                     decodes: Decoder, name: seq<Byte>)
    requires OutputsIdentify(input, ms, outputs) && LookupOk(outputs, |outputs|, lookup)
    ensures var data := Build(input, Wanted(input, ms, lookup), decodes);
            var wanted := exists i :: 0 <= i < |outputs| && outputs[i].name == name;
            && (name in data <==> wanted && LastGoValue(input, ms, name, decodes).Some?)
            && (name in data ==> data[name] == LastGoValue(input, ms, name, decodes).value)
    decreases ms
  {
    hide MakeAtom, KeyOf, ValueOf;
    if ms.Member? {
      assert OutputsIdentify(input, ms.prev, outputs) by {
        forall i | 0 <= i < |outputs|
          ensures Identify(input, ms.prev, outputs[i].atom, outputs[i].name)
        {
          assert Identify(input, ms, outputs[i].atom, outputs[i].name);
        }
      }
      DataMeans(input, ms.prev, outputs, lookup, decodes, name);
      var a := MakeAtom(KeyOf(input, ms));
      var before := Wanted(input, ms.prev, lookup);
      if a in lookup {
        var i :| 0 <= i < |outputs| && outputs[i] == FilterField(a, lookup[a]);
        assert Identify(input, ms, outputs[i].atom, outputs[i].name);
        assert (before + [(lookup[a], ms.value)])[..|before|] == before;
      } else {
        assert before + [] == before;
        forall i | 0 <= i < |outputs| && outputs[i].name == name
          ensures KeyOf(input, ms) != name
        {
          assert Identify(input, ms, outputs[i].atom, outputs[i].name);
          assert outputs[i].atom in lookup;
        }
      }
    }
  }

  /** What the pass knows after `k` members, at token index `i` (just past a comma or not). */
  ghost predicate WalkOk(i: nat, k: nat, ms: Members) {
    && k <= Count(ms)
    && (i == Offset(ms, k) || (0 < k < Count(ms) && i == Offset(ms, k) + 1))
  }

  /** The index of the key token of member `k`. */
  function KeyIndex(ms: Members, k: nat): nat {
    if k == 0 then Offset(ms, k) else Offset(ms, k) + 1
  }

  lemma HeadTokens(open: nat, ms: Members, close: nat, k: nat)
    requires k < Count(ms)
    ensures var tokens := Flatten(Obj(open, ms, close));
            var next, x := Take(ms, k + 1), KeyIndex(ms, k);
            && next.Member? && next.prev == Take(ms, k) && x + 2 < |tokens|
            && (k > 0 ==> tokens[Offset(ms, k)].typ == TokComma)
            && tokens[x] == Tok(TokString, next.keyStart, next.keyEnd) && tokens[x + 1].typ == TokColon
            && tokens[x + 2] == Flatten(next.value)[0] && |Flatten(next.value)| > 0
            && Embedded(tokens, x + 2, next.value)
            && Offset(ms, k + 1) == x + 2 + |Flatten(next.value)|
  {
    hide Flatten, FlattenMembers, Tok, Offset, Take;
    NextTokens(open, ms, close, k);
    TakeStep(ms, k);
    TakeCount(ms, k);
    var tokens := Flatten(Obj(open, ms, close));
    var next := Take(ms, k + 1);
    var head := MemberHead(next);
    FlattenStart(next.value);
    SliceParts(tokens, Offset(ms, k), head, Flatten(next.value));
    assert |head| == if k == 0 then 2 else 3;
    TokTypes();
  }

  /** The first `k` members are none exactly for `k` = 0. */
  lemma TakeCount(ms: Members, k: nat)
    requires k <= Count(ms)
    ensures Take(ms, k).NoMembers? <==> k == 0
  {
    if k == 0 {
      TakeNone(ms);
    } else {
      TakeStep(ms, k - 1);
    }
  }

  lemma TokTypes()
    ensures forall typ, start: nat, end: nat :: Tok(typ, start, end).typ == typ
  {
  }

  /** A slice made of two parts, part by part. */
  lemma SliceParts(tokens: seq<Token>, o: nat, head: seq<Token>, body: seq<Token>)
    requires o + |head| + |body| <= |tokens| && tokens[o..o + |head| + |body|] == head + body
    ensures forall d :: 0 <= d < |head| ==> tokens[o + d] == head[d]
    ensures tokens[o + |head|..o + |head| + |body|] == body
    ensures body != [] ==> tokens[o + |head|] == body[0]
  {
    var part := tokens[o..o + |head| + |body|];
    forall d | 0 <= d < |head|
      ensures tokens[o + d] == head[d]
    {
      assert part[d] == head[d];
    }
    assert part[|head|..] == body;
    assert body != [] ==> part[|head|] == body[0];
  }

  lemma StartWalk(ms: Members, slots: seq<Slot>, preds: seq<FieldPredicate>, atoms: map<Atom, nat>,
                  input: seq<Byte>, rd: Readers, lookup: map<Atom, seq<Byte>>, tokens: seq<Token>, sound: bool)
    requires |slots| == |preds| && forall i :: 0 <= i < |slots| ==> slots[i] == Slot(false, false)
    ensures WalkOk(1, 0, ms)
    ensures SlotsOk(slots, preds, atoms, input, Take(ms, 0), rd, sound)
    ensures PendingOk([], Wanted(input, Take(ms, 0), lookup), tokens, input)
  {
    TakeNone(ms);
  }

  lemma {:induction false} TakeNone(ms: Members)
    ensures Take(ms, 0) == NoMembers
  {
    if ms.Member? {
      TakeNone(ms.prev);
    }
  }

  lemma TakeAllIdentify(input: seq<Byte>, ms: Members, preds: seq<FieldPredicate>, k: nat)
    requires AllIdentify(input, ms, preds)
    ensures AllIdentify(input, Take(ms, k), preds)
  {
  }

  lemma SlotInRange(preds: seq<FieldPredicate>, atoms: map<Atom, nat>, atom: Atom)
    requires SlotsOf(preds, |preds|, atoms) && atom in atoms
    ensures 0 <= atoms[atom] < |preds|
  {
  }

  lemma SlotsLength(slots: seq<Slot>, preds: seq<FieldPredicate>, atoms: map<Atom, nat>,
                    input: seq<Byte>, ms: Members, rd: Readers, sound: bool)
    requires SlotsOk(slots, preds, atoms, input, ms, rd, sound)
    ensures |slots| == |preds|
  {
  }

  /** A predicate looks at the raw bytes only of a scalar: brackets match no field type. */
  lemma EvalNeedsScalar(fp: FieldPredicate, v: Json, input: seq<Byte>, raw: seq<Byte>, rd: Readers)
    requires v.Scalar? ==> raw == RawOf(input, v)
    ensures EvalToken(fp, KindOf(v), raw, rd) == EvalToken(fp, KindOf(v), RawOf(input, v), rd)
  {
  }

  lemma PendingAfterMember(pending: seq<Pending>, input: seq<Byte>, ms: Members, lookup: map<Atom, seq<Byte>>,
                           tokens: seq<Token>, i: nat, pos: nat)
    requires ms.Member? && PendingOk(pending, Wanted(input, ms.prev, lookup), tokens, input)
    requires Embedded(tokens, i, ms.value) && Derives(input, pos, ms.value)
    ensures var a := MakeAtom(KeyOf(input, ms));
            PendingOk(if a in lookup then pending + [Pending(lookup[a], i)]
                      else pending, Wanted(input, ms, lookup), tokens, input)
  {
  }

  /** The pass over an object: what each slot ends up with and which members are wanted. */
  method Walk(tokens: seq<Token>, input: seq<Byte>, preds: seq<FieldPredicate>, atoms: map<Atom, nat>,
              lookup: map<Atom, seq<Byte>>, rd: Readers, ghost open: nat, ghost ms: Members, ghost close: nat,
                ghost sound: bool)
    returns (slots: seq<Slot>, pending: seq<Pending>)
    requires tokens == Flatten(Obj(open, ms, close)) && DerivesMembers(input, open, ms) && open < |input| < UINT32_RANGE
    requires SlotsOf(preds, |preds|, atoms) && (sound ==> AllIdentify(input, ms, preds))
    ensures SlotsOk(slots, preds, atoms, input, ms, rd, sound)
    ensures PendingOk(pending, Wanted(input, ms, lookup), tokens, input)
  {
    hide DerivesMembers, Derives, Flatten, SlotsOk, PendingOk, AllIdentify, SlotsOf, Wanted, MakeAtom, Offset;
    hide Embedded, EvalToken;
    slots := seq(|preds|, _ => Slot(false, false));
    pending := [];
    ghost var k := 0;
    StartWalk(ms, slots, preds, atoms, input, rd, lookup, tokens, sound);
    LastToken(open, ms, close);
    var i := 1;
    while i < |tokens|
      invariant WalkOk(i, k, ms)
      invariant SlotsOk(slots, preds, atoms, input, Take(ms, k), rd, sound)
      invariant PendingOk(pending, Wanted(input, Take(ms, k), lookup), tokens, input)
      decreases |tokens| - i
    {
      if tokens[i].typ == TokObjEnd {
        break;
      }
      HeadTokens(open, ms, close, k);
      if tokens[i].typ == TokComma || tokens[i].typ != TokString {
        i := i + 1;
        continue;
      }
      ghost var next := Take(ms, k + 1);
      TakeDerives(input, open, ms, k + 1);
      MemberSlices(input, open, next);
      ValueToken(input, next.colon + 1, next.value);
      if sound {
        TakeAllIdentify(input, ms, preds, k + 1);
      }
      var key := Slice(input, tokens[i].start, tokens[i].end);
      var atom := MakeAtom(key);
      i := i + 1;
      if i < |tokens| && tokens[i].typ == TokColon {
        i := i + 1;
      }
      if i >= |tokens| {
        break;
      }
      ghost var before := slots;
      if atom in atoms {
        SlotInRange(preds, atoms, atom);
        SlotsLength(slots, preds, atoms, input, Take(ms, k), rd, sound);
        var raw := Slice(input, tokens[i].start, tokens[i].end);
        var matched := EvalTokenValue(preds[atoms[atom]], tokens[i].typ, raw, rd);
        EvalNeedsScalar(preds[atoms[atom]], next.value, input, raw, rd);
        slots := slots[atoms[atom] := Slot(true, matched)];
      }
      SlotsAfterMember(before, preds, atoms, input, next, rd, slots, sound);
      PendingAfterMember(pending, input, next, lookup, tokens, i, next.colon + 1);
      if atom in lookup {
        pending := pending + [Pending(lookup[atom], i)];
      }
      i := SkipValue(tokens, i);
      k := k + 1;
    }
    WalkDone(open, ms, close, i, k);
  }

  /** The walk can only stop at the closing brace, after every member. */
  lemma WalkDone(open: nat, ms: Members, close: nat, i: nat, k: nat)
    requires WalkOk(i, k, ms)
    requires var tokens := Flatten(Obj(open, ms, close)); i >= |tokens| || tokens[i].typ == TokObjEnd
    ensures Take(ms, k) == ms
  {
    hide Flatten, Offset;
    if k < Count(ms) {
      HeadTokens(open, ms, close, k);
    }
  }

  /** Owners decide: the result passes exactly when every predicate owns its slot and holds. */
  lemma Verdict(slots: seq<Slot>, preds: seq<FieldPredicate>, atoms: map<Atom, nat>, input: seq<Byte>, ms: Members,
                rd: Readers, sound: bool)
    requires SlotsOf(preds, |preds|, atoms) && SlotsOk(slots, preds, atoms, input, ms, rd, sound)
    ensures |slots| == |preds|
    ensures var passed := forall i :: 0 <= i < |slots| ==> slots[i].seen && slots[i].matched;
            && (SharesSlot(preds) ==> !passed)
            && (sound && !SharesSlot(preds) ==>
                (passed <==> forall i :: 0 <= i < |preds| ==> Holds(preds[i], input, ms, rd)))
  {
    hide Holds, LastValue;
    if SharesSlot(preds) {
      var i, k :| 0 <= i < k < |preds| && preds[i].atom == preds[k].atom;
      assert atoms[preds[k].atom] >= k;
      assert SlotOk(slots[i], preds, i, atoms, input, ms, rd, sound);
    } else {
      forall i | 0 <= i < |preds|
        ensures atoms[preds[i].atom] == i
      {
        var o := atoms[preds[i].atom];
        assert preds[o].atom == preds[i].atom;
      }
      if sound {
        forall i | 0 <= i < |preds|
          ensures slots[i].seen && slots[i].matched <==> Holds(preds[i], input, ms, rd)
        {
          assert SlotOk(slots[i], preds, i, atoms, input, ms, rd, sound);
          HoldsMeansSeen(preds[i], input, ms, rd);
        }
      }
    }
  }

  lemma HoldsMeansSeen(fp: FieldPredicate, input: seq<Byte>, ms: Members, rd: Readers)
    ensures Holds(fp, input, ms, rd) ==> LastValue(input, ms, fp.name).Some?
  {
  }

  /** FilterExtractFromTokens on the tokens of any derived value `j`. */
  method FilterExtract(tokens: seq<Token>, input: seq<Byte>, outputs: seq<FilterField>, preds: seq<FieldPredicate>,
                       rd: Readers, decodes: Decoder, ghost j: Json) returns (r: FilterResult)
    requires Derives(input, 0, j) && tokens == Flatten(j) && |input| < UINT32_RANGE
    ensures !j.Obj? ==> r.passed == (preds == [])
    ensures SharesSlot(preds) ==> !r.passed
    ensures j.Obj? && !SharesSlot(preds) && AllIdentify(input, j.members, preds) ==>
              (r.passed <==> forall i :: 0 <= i < |preds| ==> Holds(preds[i], input, j.members, rd))
    ensures j.Obj? && ShortKeys(input, j.members) && ShortFields(preds) && DistinctNames(preds) ==>
              (r.passed <==> forall i :: 0 <= i < |preds| ==> Holds(preds[i], input, j.members, rd))
    ensures !j.Obj? || !r.passed ==> r.data == map[]
    ensures j.Obj? && r.passed && OutputsIdentify(input, j.members, outputs) ==> forall name ::
              var wanted := exists i :: 0 <= i < |outputs| && outputs[i].name == name;
              && (name in r.data <==> wanted && LastGoValue(input, j.members, name, decodes).Some?)
              && (name in r.data ==> r.data[name] == LastGoValue(input, j.members, name, decodes).value)
  {
    hide Holds, LastGoValue, SlotsOf, SlotsOk, PendingOk, Wanted, Build, LookupOk, AllIdentify, OutputsIdentify;
    hide DerivesMembers, DerivesItems, ShortKeys, ShortFields, DistinctNames, SharesSlot;
    FlattenStart(j);
    if j.Obj? && ShortKeys(input, j.members) && ShortFields(preds) {
      ShortNamesNeverClash(input, j.members, preds, []);
    }
    var lookup := BuildLookup(outputs);
    if |tokens| == 0 || tokens[0].typ != TokObjStart {
      NoPredicatesShare(preds);
      return FilterResult(preds == [], map[]);
    }
    ObjectHead(j);
    var atoms := NewPredicateSet(preds);
    ghost var sound := AllIdentify(input, j.members, preds);
    var slots, pending := Walk(tokens, input, preds, atoms, lookup, rd, j.open, j.members, j.close, sound);
    Verdict(slots, preds, atoms, input, j.members, rd, sound);
    for n := 0 to |preds|
      invariant forall i :: 0 <= i < n ==> slots[i].seen && slots[i].matched
    {
      if !slots[n].seen || !slots[n].matched {
        return FilterResult(false, map[]);
      }
    }
    var data := BuildData(tokens, input, pending, decodes, Wanted(input, j.members, lookup));
    if OutputsIdentify(input, j.members, outputs) {
      forall name: seq<Byte>
        ensures var wanted := exists i :: 0 <= i < |outputs| && outputs[i].name == name;
                && (name in data <==> wanted && LastGoValue(input, j.members, name, decodes).Some?)
                && (name in data ==> data[name] == LastGoValue(input, j.members, name, decodes).value)
      {
        DataMeans(input, j.members, outputs, lookup, decodes, name);
      }
    }
    return FilterResult(true, data);
  }

  lemma NoPredicatesShare(preds: seq<FieldPredicate>)
    ensures SharesSlot(preds) ==> preds != []
  {
  }

  lemma ObjectHead(j: Json)
    requires Flatten(j)[0].typ == TokObjStart
    ensures j.Obj?
  {
  }
}
