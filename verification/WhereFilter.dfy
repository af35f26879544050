/**
 * A WHERE run the way a scan runs it: its compiled terms filter the tokens, the fields the query names are
 * extracted, and the rest of the WHERE is evaluated on the extracted map. Exactly which fields keep their
 * values in that map, and when the whole agrees with the executor on the whole object.
 */
module WhereFilter {
  import opened Basics
  import opened OqlAst
  import opened JsonGrammar
  import opened JsonPredicates
  import opened JsonFilter
  import opened Executor
  import opened PredicateCompiler
  import opened PushDown

  // ----- the fields a query names -----

  function BeforeFirstDot(path: string): string {
    if path == "" || path[0] == '.' then "" else [path[0]] + BeforeFirstDot(path[1..])
  }

  /** The part before the first dot; all of it where there is none. */
  lemma {:induction false} BeforeFirstDotMeans(path: string)
    ensures var first := BeforeFirstDot(path);
            '.' !in first && first <= path && (first == path || path[|first|] == '.')
  {
    if path != "" && path[0] != '.' {
      BeforeFirstDotMeans(path[1..]);
      assert path == [path[0]] + path[1..];
    }
  }

  /** collectFieldRefs: of a qualified name only the first part is collected. */
  function FieldRefs(e: Expr): set<string> {
    match e
    case Ident(name) => if name in {"true", "TRUE", "false", "FALSE", "null", "NULL"} then {} else {name}
    case Qualified(path) => {BeforeFirstDot(path)}
    case Infix(l, _, r) => FieldRefs(l) + FieldRefs(r)
    case Prefix(_, r) => FieldRefs(r)
    case Call(_, args) => set i, n | 0 <= i < |args| && n in FieldRefs(args[i]) :: n
    case IsNull(x, _) => FieldRefs(x)
    case Between(x, low, high, _) => FieldRefs(x) + FieldRefs(low) + FieldRefs(high)
    case InList(x, values, _, _) =>
      FieldRefs(x) + set i, n | 0 <= i < |values| && n in FieldRefs(values[i]) :: n
    case Like(x, pattern, _, _) => FieldRefs(x) + FieldRefs(pattern)
    case _ => {}
  }

  // ----- the extracted record -----

  /** An object, the fields wanted of it, and the library functions. */
  datatype Extraction = Extraction(input: seq<Byte>, ms: Members, outputs: seq<FilterField>, f: Formats,
                                   decodes: Decoder)

  function FromGo(v: GoValue, rd: Readers): GoVal {
    match v
    case GoString(s) => Str(s)
    case GoBool(b) => Bool(b)
    case GoNumber(raw) => Num(rd.toFloat(raw))
    case GoNested(raw) => Nested(raw)
  }

  function Drawn(data: map<seq<Byte>, GoValue>, f: Formats, name: string): Option<GoVal> {
    if f.encode(name) in data then Some(FromGo(data[f.encode(name)], f.rd)) else None
  }

  /** The executor's view of the extracted map. */
  function ExtractedRecord(data: map<seq<Byte>, GoValue>, f: Formats): Semantics {
    Semantics(f, name => Drawn(data, f, name))
  }

  function WholeRecord(x: Extraction): Semantics {
    RecordOf(x.input, x.ms, x.f)
  }

  predicate IsOutput(outputs: seq<FilterField>, name: seq<Byte>) {
    exists i :: 0 <= i < |outputs| && outputs[i].name == name
  }

  /** The extracted map holds the last usable value of each wanted field. */
  ghost predicate Extracts(data: map<seq<Byte>, GoValue>, x: Extraction) {
    forall name ::
      && (name in data <==> IsOutput(x.outputs, name) && LastGoValue(x.input, x.ms, name, x.decodes).Some?)
      && (name in data ==> data[name] == LastGoValue(x.input, x.ms, name, x.decodes).value)
  }

  function Last(x: Extraction, name: string): Option<Json> {
    LastValue(x.input, x.ms, x.f.encode(name))
  }

  /** The field is wanted and some occurrence of it has a usable value. */
  predicate Usable(x: Extraction, name: string) {
    IsOutput(x.outputs, x.f.encode(name)) && LastGoValue(x.input, x.ms, x.f.encode(name), x.decodes).Some?
  }

  function UsableValue(x: Extraction, name: string): GoVal {
    var v := LastGoValue(x.input, x.ms, x.f.encode(name), x.decodes);
    if Usable(x, name) && v.Some? then FromGo(v.value, x.f.rd) else Nil
  }

  /** A value the extraction keeps as it is: not null, and decodable if it has to be decoded. */
  predicate Plain(input: seq<Byte>, v: Json, decodes: Decoder) {
    match KindOf(v)
    case TokNull => false
    case TokString => true
    case TokTrue => true
    case TokFalse => true
    case _ => decodes(RawOf(input, v))
  }

  /** The last value of `name` is the one extracted; or none is, and `otherwise` happens to be that value. */
  predicate SeenOr(x: Extraction, name: string, otherwise: GoVal) {
    match Last(x, name)
    case None => true
    case Some(v) =>
      || (IsOutput(x.outputs, x.f.encode(name)) && Plain(x.input, v, x.decodes))
      || (!Usable(x, name) && otherwise == GoOf(x.input, v, x.f.rd))
  }

  /**
   * A field keeps its value in the extracted map: it is wanted and its last occurrence is plain. A null
   * that no earlier occurrence covers is as good as absent. A field that the object lacks is looked up
   * under what follows its last dot, which must then be wanted in turn.
   */
  predicate Seen(x: Extraction, name: string) {
    match AfterLastDot(name)
    case None => SeenOr(x, name, Nil)
    case Some(short) => if Last(x, name).Some? then SeenOr(x, name, UsableValue(x, short)) else SeenOr(x, short, Nil)
  }

  lemma {:induction false} LastGoValueIs(input: seq<Byte>, ms: Members, name: seq<Byte>, decodes: Decoder)
    ensures LastValue(input, ms, name).None? ==> LastGoValue(input, ms, name, decodes).None?
    ensures LastValue(input, ms, name).Some? && ValueOf(input, LastValue(input, ms, name).value, decodes).Some? ==>
              LastGoValue(input, ms, name, decodes) == ValueOf(input, LastValue(input, ms, name).value, decodes)
    ensures LastGoValue(input, ms, name, decodes).Some? && LastGoValue(input, ms, name, decodes).value.GoNested? ==>
              decodes(LastGoValue(input, ms, name, decodes).value.raw)
    decreases ms
  {
    hide RawOf, KeyOf;
    if ms.Member? {
      LastGoValueIs(input, ms.prev, name, decodes);
    }
  }

  /** A field is drawn with its last value exactly when it is wanted and that value is plain. */
  lemma DrawnIsLastIff(data: map<seq<Byte>, GoValue>, x: Extraction, name: string)
    requires Extracts(data, x)
    ensures Drawn(data, x.f, name) == if Usable(x, name) then Some(UsableValue(x, name)) else None
    ensures Last(x, name).None? ==> !Usable(x, name)
    ensures Last(x, name).Some? ==>
              (Drawn(data, x.f, name) == Some(GoOf(x.input, Last(x, name).value, x.f.rd))
               <==> IsOutput(x.outputs, x.f.encode(name)) && Plain(x.input, Last(x, name).value, x.decodes))
  {
    hide RawOf, KeyOf, IsOutput, LastValue, LastGoValue;
    LastGoValueIs(x.input, x.ms, x.f.encode(name), x.decodes);
  }

  lemma SeenOrIff(data: map<seq<Byte>, GoValue>, x: Extraction, name: string, otherwise: GoVal)
    requires Extracts(data, x) && Last(x, name).Some?
    ensures var drawn := Drawn(data, x.f, name);
            (if drawn.Some? then drawn.value else otherwise) == GoOf(x.input, Last(x, name).value, x.f.rd)
            <==> SeenOr(x, name, otherwise)
  {
    hide Extracts, GoOf, Plain, IsOutput, Last, Usable, UsableValue;
    DrawnIsLastIff(data, x, name);
  }

  /** The extracted map gives a field the value it has in the whole object exactly when the field is seen. */
  lemma ExtractedFieldIff(data: map<seq<Byte>, GoValue>, x: Extraction, name: string)
    requires Extracts(data, x)
    ensures FieldValue(ExtractedRecord(data, x.f), name) == FieldValue(WholeRecord(x), name) <==> Seen(x, name)
  {
    hide Extracts, GoOf, AfterLastDot, Usable, LastValue, Plain, IsOutput;
    DrawnIsLastIff(data, x, name);
    var short := AfterLastDot(name);
    if short.Some? {
      DrawnIsLastIff(data, x, short.value);
    }
    if Last(x, name).Some? {
      SeenOrIff(data, x, name, if short.Some? then UsableValue(x, short.value) else Nil);
    } else if short.Some? && Last(x, short.value).Some? {
      SeenOrIff(data, x, short.value, Nil);
    }
  }

  // ----- conditions on the extracted record -----

  /** Every field an operand is computed from keeps its value; an unknown function is a field named by its text. */
  predicate OperandSeen(x: Extraction, e: Expr) {
    match e
    case Ident(name) => IsTrueName(name) || IsFalseName(name) || Seen(x, name)
    case Qualified(path) => Seen(x, path)
    case Infix(l, _, r) => OperandSeen(x, l) && OperandSeen(x, r)
    case Call(func, args) =>
      if x.f.isScalar(func) then forall i :: 0 <= i < |args| ==> OperandSeen(x, args[i])
      else SeenOr(x, x.f.exprText(e), Nil)
    case _ => true
  }

  predicate TermSeen(x: Extraction, e: Expr) {
    match e
    case Infix(l, op, r) =>
      if op == "AND" || op == "OR" then TermSeen(x, l) && TermSeen(x, r) else OperandSeen(x, l) && OperandSeen(x, r)
    case Prefix(op, r) => op == "NOT" ==> TermSeen(x, r)
    case IsNull(v, _) => OperandSeen(x, v)
    case Between(v, low, high, _) => OperandSeen(x, v) && OperandSeen(x, low) && OperandSeen(x, high)
    case InList(v, values, _, _) => OperandSeen(x, v) && forall u :: u in values ==> OperandSeen(x, u)
    case Like(v, pattern, _, _) => OperandSeen(x, v) && OperandSeen(x, pattern)
    case _ => true
  }

  lemma ExtractedKey(data: map<seq<Byte>, GoValue>, x: Extraction, key: string)
    requires Extracts(data, x) && SeenOr(x, key, Nil)
    ensures OrNil(ExtractedRecord(data, x.f).lookup(key)) == OrNil(WholeRecord(x).lookup(key))
  {
    hide Extracts, GoOf, Plain, IsOutput, Usable, LastValue;
    DrawnIsLastIff(data, x, key);
    if Last(x, key).Some? {
      SeenOrIff(data, x, key, Nil);
    }
  }

  lemma {:induction false} ExtractedOperand(data: map<seq<Byte>, GoValue>, x: Extraction, e: Expr)
    requires Extracts(data, x) && OperandSeen(x, e)
    ensures EvalExpr(ExtractedRecord(data, x.f), e) == EvalExpr(WholeRecord(x), e)
    decreases e
  {
    hide Extracts, FieldValue, Seen, SeenOr, IsTrueName, IsFalseName;
    var a, b := ExtractedRecord(data, x.f), WholeRecord(x);
    match e
    case Ident(name) =>
      if !IsTrueName(name) && !IsFalseName(name) {
        ExtractedFieldIff(data, x, name);
      }
    case Qualified(path) => ExtractedFieldIff(data, x, path);
    case Infix(l, _, r) =>
      ExtractedOperand(data, x, l);
      ExtractedOperand(data, x, r);
    case Call(func, args) =>
      if x.f.isScalar(func) {
        forall i | 0 <= i < |args|
          ensures EvalExpr(a, args[i]) == EvalExpr(b, args[i])
        {
          ExtractedOperand(data, x, args[i]);
        }
        assert seq(|args|, i requires 0 <= i < |args| => EvalExpr(a, args[i]))
            == seq(|args|, i requires 0 <= i < |args| => EvalExpr(b, args[i]));
      } else {
        ExtractedKey(data, x, x.f.exprText(e));
      }
    case _ =>
  }

  /** A condition whose operands are seen means the same on the extracted map as on the whole object. */
  lemma {:induction false} ExtractedMeans(data: map<seq<Byte>, GoValue>, x: Extraction, e: Expr)
    requires Extracts(data, x) && TermSeen(x, e)
    ensures EvalCondition(ExtractedRecord(data, x.f), e) <==> EvalCondition(WholeRecord(x), e)
    decreases e
  {
    hide Extracts, EvalExpr, OperandSeen, CompareValues, LikeAnswer, EvalComparison;
    match e
    case Infix(l, op, r) =>
      if op == "AND" || op == "OR" {
        ExtractedMeans(data, x, l);
        ExtractedMeans(data, x, r);
      } else {
        ExtractedOperand(data, x, l);
        ExtractedOperand(data, x, r);
      }
    case Prefix(op, r) =>
      if op == "NOT" {
        ExtractedMeans(data, x, r);
      }
    case IsNull(v, _) => ExtractedOperand(data, x, v);
    case Between(v, low, high, _) =>
      ExtractedOperand(data, x, v);
      ExtractedOperand(data, x, low);
      ExtractedOperand(data, x, high);
    case InList(v, values, _, _) =>
      ExtractedOperand(data, x, v);
      forall u | u in values
        ensures EvalExpr(ExtractedRecord(data, x.f), u) == EvalExpr(WholeRecord(x), u)
      {
        ExtractedOperand(data, x, u);
      }
    case Like(v, pattern, _, _) =>
      ExtractedOperand(data, x, v);
      ExtractedOperand(data, x, pattern);
    case _ =>
  }

  ghost predicate AllSeen(x: Extraction, ts: seq<Expr>) {
    forall i :: 0 <= i < |ts| ==> TermSeen(x, ts[i])
  }

  lemma ExtractedTermsMean(data: map<seq<Byte>, GoValue>, x: Extraction, ts: seq<Expr>)
    requires Extracts(data, x) && AllSeen(x, ts)
    ensures AllTrue(ExtractedRecord(data, x.f), ts) <==> AllTrue(WholeRecord(x), ts)
  {
    hide Extracts, EvalCondition, TermSeen;
    forall i | 0 <= i < |ts|
      ensures EvalCondition(ExtractedRecord(data, x.f), ts[i]) <==> EvalCondition(WholeRecord(x), ts[i])
    {
      ExtractedMeans(data, x, ts[i]);
    }
  }

  // ----- queries that see all they name -----

  /** Only plain field names, literals and scalar functions: no dots, and no field called null. */
  predicate Bare(f: Formats, e: Expr) {
    match e
    case Ident(name) =>
      IsTrueName(name) || IsFalseName(name) || (name !in {"null", "NULL"} && AfterLastDot(name).None?)
    case Qualified(_) => false
    case Infix(l, _, r) => Bare(f, l) && Bare(f, r)
    case Prefix(_, r) => Bare(f, r)
    case Call(func, args) => f.isScalar(func) && forall i :: 0 <= i < |args| ==> Bare(f, args[i])
    case IsNull(v, _) => Bare(f, v)
    case Between(v, low, high, _) => Bare(f, v) && Bare(f, low) && Bare(f, high)
    case InList(v, values, _, _) => Bare(f, v) && forall i :: 0 <= i < |values| ==> Bare(f, values[i])
    case Like(v, pattern, _, _) => Bare(f, v) && Bare(f, pattern)
    case _ => true
  }

  /** Wanted, and in the object absent, last written with a plain value, or only ever null. */
  predicate Tidy(x: Extraction, name: string) {
    && IsOutput(x.outputs, x.f.encode(name))
    && (Last(x, name).Some? ==>
          || Plain(x.input, Last(x, name).value, x.decodes)
          || (KindOf(Last(x, name).value) == TokNull && !Usable(x, name)))
  }

  ghost predicate AllTidy(x: Extraction, names: set<string>) {
    forall name :: name in names ==> Tidy(x, name)
  }

  lemma TidyIsSeen(x: Extraction, name: string)
    requires Tidy(x, name) && AfterLastDot(name).None?
    ensures Seen(x, name)
  {
    hide AfterLastDot, Usable, IsOutput, Plain;
  }

  lemma {:induction false} BareIsSeen(x: Extraction, e: Expr)
    requires Bare(x.f, e) && AllTidy(x, FieldRefs(e))
    ensures OperandSeen(x, e) && TermSeen(x, e)
    decreases e
  {
    hide Seen, SeenOr, Tidy, AfterLastDot;
    match e
    case Ident(name) =>
      hide Upper;
      if !IsTrueName(name) && !IsFalseName(name) {
        NoKeyword(name);
        TidyIsSeen(x, name);
      }
    case Infix(l, _, r) =>
      BareIsSeen(x, l);
      BareIsSeen(x, r);
    case Prefix(_, r) => BareIsSeen(x, r);
    case Call(_, args) =>
      forall i | 0 <= i < |args|
        ensures OperandSeen(x, args[i])
      {
        assert FieldRefs(args[i]) <= FieldRefs(e);
        BareIsSeen(x, args[i]);
      }
    case IsNull(v, _) => BareIsSeen(x, v);
    case Between(v, low, high, _) =>
      BareIsSeen(x, v);
      BareIsSeen(x, low);
      BareIsSeen(x, high);
    case InList(v, values, _, _) =>
      BareIsSeen(x, v);
      forall u | u in values
        ensures OperandSeen(x, u)
      {
        var i :| 0 <= i < |values| && values[i] == u;
        assert FieldRefs(values[i]) <= FieldRefs(e);
        BareIsSeen(x, values[i]);
      }
    case Like(v, pattern, _, _) =>
      BareIsSeen(x, v);
      BareIsSeen(x, pattern);
    case _ =>
  }

  lemma NoKeyword(name: string)
    requires !IsTrueName(name) && !IsFalseName(name)
    ensures name !in {"true", "TRUE", "false", "FALSE"}
  {
    hide Upper;
    UpperTrue();
    UpperFalse();
  }

  lemma UpperTrue()
    ensures Upper("true") == "TRUE" && Upper("TRUE") == "TRUE"
  {
    assert Upper("ue") == "UE" && Upper("UE") == "UE";
  }

  lemma UpperFalse()
    ensures Upper("false") == "FALSE" && Upper("FALSE") == "FALSE"
  {
    assert Upper("se") == "SE" && Upper("SE") == "SE";
    assert Upper("lse") == "LSE" && Upper("LSE") == "LSE";
  }

  lemma {:induction false} FlatTermsAreParts(f: Formats, e: Expr)
    requires Bare(f, e)
    ensures forall t :: t in FlattenAnd(e) ==> Bare(f, t) && FieldRefs(t) <= FieldRefs(e)
  {
    hide Upper;
    if e.Infix? && Upper(e.op) == "AND" {
      FlatTermsAreParts(f, e.left);
      FlatTermsAreParts(f, e.right);
    }
  }

  lemma {:induction false} KeptAreTerms(ts: seq<Expr>)
    ensures forall t :: t in Kept(ts) ==> t in ts
  {
    if ts != [] {
      KeptAreTerms(ts[..|ts| - 1]);
    }
  }

  /**
   * A WHERE of plain names over an object that writes each of them once, or last with a plain value, sees
   * all it needs: the query's fields include every name of its WHERE.
   */
  lemma BareWhereIsSeen(x: Extraction, e: Expr)
    requires Bare(x.f, e) && AllTidy(x, FieldRefs(e))
    ensures AllSeen(x, Kept(FlattenAnd(e)))
  {
    hide Bare, FieldRefs, FlattenAnd, Kept, TermSeen, Tidy;
    FlatTermsAreParts(x.f, e);
    KeptAreTerms(FlattenAnd(e));
    forall i | 0 <= i < |Kept(FlattenAnd(e))|
      ensures TermSeen(x, Kept(FlattenAnd(e))[i])
    {
      var t := Kept(FlattenAnd(e))[i];
      assert t in FlattenAnd(e);
      BareIsSeen(x, t);
    }
  }

  // ----- the whole WHERE -----

  ghost predicate AllHold(preds: seq<FieldPredicate>, input: seq<Byte>, ms: Members, rd: Readers) {
    forall i :: 0 <= i < |preds| ==> Holds(preds[i], input, ms, rd)
  }

  ghost predicate AllAligned(x: Extraction, ts: seq<Expr>) {
    forall i :: 0 <= i < |ts| ==>
      Compilable(ts[i]) && Compiled(x.f, ts[i]).Some? && TermAligned(x.input, x.ms, x.f, ts[i])
  }

  /** With every pushed term aligned, the filter passes what the executor would accept of them. */
  lemma AlignedTermsHold(x: Extraction, ts: seq<Expr>, preds: seq<FieldPredicate>)
    requires CompiledFrom(x.f, ts, preds) && AllAligned(x, ts)
    ensures AllHold(preds, x.input, x.ms, x.f.rd) <==> AllTrue(WholeRecord(x), ts)
  {
    hide Compiled, Compilable, Holds, EvalCondition, TermAligned, RecordOf;
    forall i | 0 <= i < |ts|
      ensures Holds(preds[i], x.input, x.ms, x.f.rd) <==> EvalCondition(WholeRecord(x), ts[i])
    {
      CompiledAgreesIff(x.input, x.ms, x.f, ts[i]);
    }
  }

  function FilterFields(f: Formats, names: seq<string>): seq<FilterField> {
    seq(|names|, i requires 0 <= i < |names| => FilterField(MakeAtom(f.encode(names[i])), f.encode(names[i])))
  }

  /** MakeFilterFieldEntries: one entry per name, in order, under the name's own atom. */
  method MakeFilterFields(f: Formats, names: seq<string>) returns (entries: seq<FilterField>)
    ensures entries == FilterFields(f, names)
  {
    hide MakeAtom;
    entries := [];
    for i := 0 to |names|
      invariant entries == FilterFields(f, names[..i])
    {
      entries := entries + [FilterField(MakeAtom(f.encode(names[i])), f.encode(names[i]))];
    }
    assert names[..|names|] == names;
  }

  /** The atoms tell apart the names they have to: the predicates' from each other, and all from the object's keys. */
  ghost predicate AtomsTell(x: Extraction, preds: seq<FieldPredicate>) {
    !SharesSlot(preds) && AllIdentify(x.input, x.ms, preds) && OutputsIdentify(x.input, x.ms, x.outputs)
  }

  /** Short names always tell themselves apart, unless two predicates are about one field. */
  lemma ShortNamesTell(x: Extraction, preds: seq<FieldPredicate>)
    requires ShortKeys(x.input, x.ms) && ShortFields(preds) && ShortOutputs(x.outputs)
    ensures AtomsTell(x, preds) <==> DistinctNames(preds)
  {
    hide ShortKeys, ShortFields, ShortOutputs, SharesSlot, DistinctNames, AllIdentify, OutputsIdentify;
    ShortNamesNeverClash(x.input, x.ms, preds, x.outputs);
  }

  /**
   * A WHERE with the query's fields, run over one stored object. Two predicates in one slot let nothing
   * pass. Otherwise, with every pushed term aligned with the object and every field of the kept terms seen
   * in the extracted map, the filter and the residual on that map accept exactly what the executor would
   * on the whole object.
   */
  method FilterWhere(tokens: seq<Token>, input: seq<Byte>, e: Expr, fields: seq<string>, f: Formats,
                     decodes: Decoder, ghost j: Json) returns (r: FilterResult, c: CompileResult)
    requires Derives(input, 0, j) && tokens == Flatten(j) && |input| < UINT32_RANGE
    ensures CompiledFrom(f, Pushed(FlattenAnd(e)), c.preds)
    ensures SharesSlot(c.preds) ==> !r.passed
    ensures j.Obj? ==>
              var x := Extraction(input, j.members, FilterFields(f, fields), f, decodes);
              AtomsTell(x, c.preds) && UpperSpine(e)
              && AllAligned(x, Pushed(FlattenAnd(e))) && AllSeen(x, Kept(FlattenAnd(e))) ==>
                (r.passed && ResidualHolds(ExtractedRecord(r.data, f), c) <==> EvalCondition(WholeRecord(x), e))
  {
    hide Derives, Flatten, Compiled, Compilable, Holds, EvalCondition, ResidualHolds, RecordOf, FlattenAnd, UpperSpine;
    hide AllAligned, CompiledFrom, AllTrue, AllSeen, ExtractedRecord, SharesSlot, AllIdentify, OutputsIdentify;
    hide ShortKeys, ShortFields, DistinctNames, LastGoValue, FilterFields;
    c := CompilePredicates(f, Some(e));
    var outputs := MakeFilterFields(f, fields);
    r := FilterExtract(tokens, input, outputs, c.preds, f.rd, decodes, j);
    if j.Obj? {
      ghost var x := Extraction(input, j.members, outputs, f, decodes);
      ghost var ts := FlattenAnd(e);
      if AtomsTell(x, c.preds) && UpperSpine(e) && AllAligned(x, Pushed(ts)) && AllSeen(x, Kept(ts)) {
        AlignedTermsHold(x, Pushed(ts), c.preds);
        FlattenMeans(WholeRecord(x), e);
        PartitionMeans(WholeRecord(x), ts);
        if r.passed {
          assert Extracts(r.data, x);
          ExtractedTermsMean(r.data, x, Kept(ts));
        }
      }
    }
  }

  // ----- fields that are not seen -----

  /**
   * `t.x IS NOT NULL` on an object with an x: the executor finds x after the dot, but of `t.x` only t is
   * extracted.
   */
  lemma QualifiedIsMissed(data: map<seq<Byte>, GoValue>, x: Extraction)
    requires Extracts(data, x) && x.outputs == FilterFields(x.f, ["t"]) && x.f.encode("x") != x.f.encode("t")
    requires Last(x, "t.x").None? && Last(x, "x").Some? && KindOf(Last(x, "x").value) == TokString
    ensures var e := IsNull(Qualified("t.x"), true);
            && FieldRefs(e) == {"t"} && !Compilable(e)
            && EvalCondition(WholeRecord(x), e) && !EvalCondition(ExtractedRecord(data, x.f), e)
  {
    hide Extracts;
    assert BeforeFirstDot("t.x") == "t" by {
      assert BeforeFirstDot(".x") == "";
    }
    assert AfterLastDot("t.x") == Some("x") by {
      assert AfterLastDot("x").None? && AfterLastDot(".x") == Some("x");
    }
    DrawnIsLastIff(data, x, "t.x");
    DrawnIsLastIff(data, x, "x");
    assert !IsOutput(x.outputs, x.f.encode("x"));
  }

  /** `x IS NULL` on an object that writes x twice, last with null: the extracted map still has the earlier value. */
  lemma LaterNullIsMissed(data: map<seq<Byte>, GoValue>, x: Extraction, name: string)
    requires Extracts(data, x) && !IsTrueName(name) && !IsFalseName(name) && Usable(x, name)
    requires Last(x, name).Some? && KindOf(Last(x, name).value) == TokNull
    ensures var e := IsNull(Ident(name), false);
            EvalCondition(WholeRecord(x), e) && !EvalCondition(ExtractedRecord(data, x.f), e)
  {
    hide Extracts, IsTrueName, IsFalseName;
    DrawnIsLastIff(data, x, name);
  }
}
