/** Field predicates evaluated on raw tokens, and the atoms that stand for field names. */
module JsonPredicates {
  import opened Basics
  import opened JsonGrammar
  import Like = LikeMatching

  // ----- atoms -----

  datatype Atom = Atom(word: bv64)

  const FNV_OFFSET: bv64 := 14695981039346656037
  const FNV_PRIME: bv64 := 1099511628211

  function Pack(name: seq<Byte>): bv64 {
    if name == [] then 0 else Joined(name[0], Pack(name[1..]))
  }

  /** One more byte below a word. */
  function Joined(b: Byte, p: bv64): bv64 {
    (b as bv64) | (p << 8)
  }

  function Fnv1a(h: bv64, name: seq<Byte>): bv64
    decreases name
  {
    if name == [] then h else Fnv1a((h ^ (name[0] as bv64)) * FNV_PRIME, name[1..])
  }

  /** Names of up to eight bytes are packed into the word, longer ones are hashed. */
  function MakeAtom(name: seq<Byte>): Atom {
    Atom(if |name| <= 8 then Pack(name) else Fnv1a(FNV_OFFSET, name))
  }

  // ----- when two short names share an atom -----

  function Zeros(k: nat): seq<Byte> {
    if k == 0 then [] else [0] + Zeros(k - 1)
  }

  /** A word that `k` packed bytes can make. */
  predicate Fits(p: bv64, k: nat)
    requires k <= 7
  {
    match k
    case 0 => p == 0
    case 1 => p < 0x100
    case 2 => p < 0x1_0000
    case 3 => p < 0x100_0000
    case 4 => p < 0x1_0000_0000
    case 5 => p < 0x100_0000_0000
    case 6 => p < 0x1_0000_0000_0000
    case 7 => p < 0x100_0000_0000_0000
  }

  lemma JoinedFits(b: Byte, p: bv64, k: nat)
    requires k < 7 && Fits(p, k)
    ensures Fits(Joined(b, p), k + 1)
  {
  }

  /** Nothing is shifted out, so byte and word can be told apart again. */
  lemma JoinedIsInjective(b: Byte, p: bv64, j: nat, c: Byte, q: bv64, k: nat)
    requires j <= 7 && k <= 7 && Fits(p, j) && Fits(q, k)
    ensures Joined(b, p) == Joined(c, q) <==> b == c && p == q
    ensures Joined(b, p) == 0 <==> b == 0 && p == 0
  {
    hide Joined, Fits;
    JoinedSplits(b, p, j);
    JoinedSplits(c, q, k);
    WideningIsInjective(b, c);
    WideningIsInjective(b, 0);
    JoinedZero();
  }

  lemma JoinedSplits(b: Byte, p: bv64, k: nat)
    requires k <= 7 && Fits(p, k)
    ensures Joined(b, p) & 0xFF == b as bv64 && Joined(b, p) >> 8 == p
  {
    WidestFit(p, k);
    SplitsAgain(b as bv64, p);
  }

  lemma WidestFit(p: bv64, k: nat)
    requires k <= 7 && Fits(p, k)
    ensures p < 0x100_0000_0000_0000
  {
  }

  lemma SplitsAgain(b: bv64, p: bv64)
    requires b <= 0xFF && p < 0x100_0000_0000_0000
    ensures (b | (p << 8)) & 0xFF == b && (b | (p << 8)) >> 8 == p
  {
  }

  lemma WideningIsInjective(b: Byte, c: Byte)
    ensures b as bv64 == c as bv64 <==> b == c
  {
  }

  lemma JoinedZero()
    ensures Joined(0, 0) == 0
  {
  }

  lemma {:induction false} PackFits(name: seq<Byte>)
    requires |name| <= 7
    ensures Fits(Pack(name), |name|)
  {
    hide Joined;
    if name != [] {
      hide Fits;
      PackFits(name[1..]);
      JoinedFits(name[0], Pack(name[1..]), |name| - 1);
    }
  }

  lemma {:induction false} PackCollidesIff(a: seq<Byte>, b: seq<Byte>)
    requires |a| <= |b| <= 8
    ensures Pack(a) == Pack(b) <==> b == a + Zeros(|b| - |a|)
  {
    hide Joined, Fits;
    if b == [] {
      assert a + Zeros(0) == a;
    } else {
      PackFits(b[1..]);
      if a == [] {
        PackCollidesIff([], b[1..]);
        JoinedIsInjective(b[0], Pack(b[1..]), |b| - 1, b[0], Pack(b[1..]), |b| - 1);
        ConsZero(b);
      } else {
        PackFits(a[1..]);
        PackCollidesIff(a[1..], b[1..]);
        JoinedIsInjective(a[0], Pack(a[1..]), |a| - 1, b[0], Pack(b[1..]), |b| - 1);
        ConsSame(a, b, Zeros(|b| - |a|));
      }
    }
  }

  lemma ConsZero(b: seq<Byte>)
    requires b != []
    ensures b == [] + Zeros(|b|) <==> b[0] == 0 && b[1..] == [] + Zeros(|b| - 1)
  {
    var z := Zeros(|b| - 1);
    assert Zeros(|b|) == [0] + z;
    hide Zeros;
    assert [] + z == z && [] + Zeros(|b|) == [0] + z;
    ConsEqual(b, 0, z);
  }

  lemma ConsEqual(b: seq<Byte>, first: Byte, rest: seq<Byte>)
    requires b != []
    ensures b == [first] + rest <==> b[0] == first && b[1..] == rest
  {
    assert b == [b[0]] + b[1..];
    assert ([first] + rest)[0] == first && ([first] + rest)[1..] == rest;
  }

  lemma ConsSame(a: seq<Byte>, b: seq<Byte>, z: seq<Byte>)
    requires a != [] && b != []
    ensures b == a + z <==> a[0] == b[0] && b[1..] == a[1..] + z
  {
    assert a + z == [a[0]] + (a[1..] + z) && b == [b[0]] + b[1..];
  }

  /**
   * Packing is not injective, although the source calls it so: two names of up to eight bytes share an
   * atom exactly when the longer one is the shorter one followed by zero bytes.
   */
  lemma ShortAtomsCollideIff(a: seq<Byte>, b: seq<Byte>)
    requires |a| <= |b| <= 8
    ensures MakeAtom(a) == MakeAtom(b) <==> b == a + Zeros(|b| - |a|)
  {
    PackCollidesIff(a, b);
  }

  /** A name of up to eight bytes, none of them zero. */
  predicate Short(name: seq<Byte>) {
    |name| <= 8 && 0 !in name
  }

  /** So short names without zero bytes are told apart by their atoms. */
  lemma ShortAtomsAreInjective(a: seq<Byte>, b: seq<Byte>)
    requires Short(a) && Short(b)
    ensures MakeAtom(a) == MakeAtom(b) <==> a == b
  {
    if |a| <= |b| {
      ShortAtomsCollideIff(a, b);
      ZeroTail(a, b);
    } else {
      ShortAtomsCollideIff(b, a);
      ZeroTail(b, a);
    }
  }

  lemma ZeroTail(a: seq<Byte>, b: seq<Byte>)
    requires 0 !in b && |a| <= |b|
    ensures b == a + Zeros(|b| - |a|) <==> a == b
  {
    var z := Zeros(|b| - |a|);
    assert |a| < |b| ==> 0 in z;
    assert a + z == b && 0 in z ==> 0 in b;
    assert a + [] == a;
  }

  // ----- predicates -----

  datatype FieldType = FieldString | FieldInt | FieldFloat | FieldBool

  datatype PredicateOp = OpEq | OpNeq | OpLt | OpLte | OpGt | OpGte | OpIn | OpLike

  datatype Value =
    | VString(s: seq<Byte>)
    | VInt(i: int)
    | VFloat(x: real)
    | VBool(b: bool)
    | VList(vs: seq<Value>)

  datatype FieldPredicate = FieldPredicate(name: seq<Byte>, atom: Atom, typ: FieldType, op: PredicateOp, val: Value)

  function MakeFieldPredicate(name: seq<Byte>, typ: FieldType, op: PredicateOp, val: Value): FieldPredicate {
    FieldPredicate(name, MakeAtom(name), typ, op, val)
  }

  /** strconv's number parsers and strings.ToLower, which are not part of this model. */
  datatype Readers = Readers(
    toInt: seq<Byte> -> int,
    toFloat: seq<Byte> -> real,
    toLower: seq<Byte> -> seq<Byte>)

  /** Byte-wise string order: negative, zero or positive. */
  function CompareBytes(a: seq<Byte>, b: seq<Byte>): int {
    if a == [] && b == [] then 0
    else if a == [] then -1
    else if b == [] then 1
    else if a[0] < b[0] then -1
    else if a[0] > b[0] then 1
    else CompareBytes(a[1..], b[1..])
  }

  /** `a` is a proper prefix of `b`, or has the smaller byte where they first differ. */
  ghost predicate Before(a: seq<Byte>, b: seq<Byte>) {
    exists k :: PartsAt(a, b, k)
  }

  predicate PartsAt(a: seq<Byte>, b: seq<Byte>, k: int) {
    && 0 <= k <= |a| && k <= |b| && a[..k] == b[..k]
    && ((k == |a| && k < |b|) || (k < |a| && k < |b| && a[k] < b[k]))
  }

  /** The comparison is the lexicographic order. */
  lemma {:induction false} BytesOrder(a: seq<Byte>, b: seq<Byte>)
    ensures CompareBytes(a, b) < 0 <==> Before(a, b)
    ensures CompareBytes(a, b) == 0 <==> a == b
    ensures CompareBytes(a, b) > 0 <==> Before(b, a)
    decreases |a|
  {
    if a == [] || b == [] || a[0] != b[0] {
      AtOnce(a, b);
      AtOnce(b, a);
    } else {
      hide Before;
      BytesOrder(a[1..], b[1..]);
      assert a == [a[0]] + a[1..] && b == [b[0]] + b[1..];
      PartsLater(a, b);
      PartsLater(b, a);
    }
  }

  /** Where the first bytes decide. */
  lemma AtOnce(a: seq<Byte>, b: seq<Byte>)
    requires a == [] || b == [] || a[0] != b[0]
    ensures Before(a, b) <==> b != [] && (a == [] || a[0] < b[0])
  {
    if k :| PartsAt(a, b, k) {
      FirstOfPrefix(a, k);
      FirstOfPrefix(b, k);
    }
    if b != [] && (a == [] || a[0] < b[0]) {
      assert PartsAt(a, b, 0);
    }
  }

  lemma FirstOfPrefix(s: seq<Byte>, k: int)
    requires 0 <= k <= |s|
    ensures k > 0 ==> s[..k][0] == s[0]
  {
  }

  lemma PartsLater(a: seq<Byte>, b: seq<Byte>)
    requires a != [] && b != [] && a[0] == b[0]
    ensures Before(a, b) <==> Before(a[1..], b[1..])
  {
    hide PartsAt;
    if k :| PartsAt(a, b, k) {
      PartsOneLater(a, b, k);
    }
    if k :| PartsAt(a[1..], b[1..], k) {
      PartsOneSooner(a, b, k);
    }
  }

  lemma PartsOneLater(a: seq<Byte>, b: seq<Byte>, k: int)
    requires a != [] && b != [] && a[0] == b[0] && PartsAt(a, b, k)
    ensures PartsAt(a[1..], b[1..], k - 1)
  {
    assert k > 0;
    assert a[1..][..k - 1] == a[..k][1..];
    assert b[1..][..k - 1] == b[..k][1..];
  }

  lemma PartsOneSooner(a: seq<Byte>, b: seq<Byte>, k: int)
    requires a != [] && b != [] && a[0] == b[0] && PartsAt(a[1..], b[1..], k)
    ensures PartsAt(a, b, k + 1)
  {
    assert a[..k + 1] == [a[0]] + a[1..][..k];
    assert b[..k + 1] == [b[0]] + b[1..][..k];
  }

  /** No text comes before what it comes after: the order is transitive. */
  lemma BeforeTrans(a: seq<Byte>, b: seq<Byte>, c: seq<Byte>)
    requires Before(a, b) && Before(b, c)
    ensures Before(a, c)
  {
    var i :| PartsAt(a, b, i);
    var k :| PartsAt(b, c, k);
    var n := if i < k then i else k;
    assert a[..n] == a[..i][..n] && b[..n] == b[..i][..n] && b[..n] == b[..k][..n] && c[..n] == c[..k][..n];
    if i < k {
      assert b[..k][i] == c[..k][i];
    } else if k < i {
      assert a[..i][k] == b[..i][k];
    }
    assert PartsAt(a, c, n);
  }

  function CompareReal(a: real, b: real): int {
    if a < b then -1 else if a > b then 1 else 0
  }

  function CompareInt(a: int, b: int): int {
    if a < b then -1 else if a > b then 1 else 0
  }

  /** compareOrdered: IN and LIKE are not ordered comparisons and fail here. */
  predicate Ordering(cmp: int, op: PredicateOp) {
    match op
    case OpEq => cmp == 0
    case OpNeq => cmp != 0
    case OpLt => cmp < 0
    case OpLte => cmp <= 0
    case OpGt => cmp > 0
    case OpGte => cmp >= 0
    case OpIn => false
    case OpLike => false
  }

  function Abs(x: real): real {
    if x < 0.0 then -x else x
  }

  predicate InNumeric(v: real, val: Value) {
    val.VList? && exists item :: item in val.vs && NumericallyEqual(v, item)
  }

  predicate NumericallyEqual(v: real, item: Value) {
    match item
    case VFloat(x) => Abs(v - x) < 0.000000001
    case VInt(n) => Abs(v - n as real) < 0.000000001
    case _ => false
  }

  ghost predicate EvalString(fp: FieldPredicate, v: seq<Byte>, rd: Readers) {
    match fp.op
    case OpIn => fp.val.VList? && VString(v) in fp.val.vs
    case OpLike => fp.val.VString? && Like.Matches(rd.toLower(v), rd.toLower(fp.val.s))
    case _ => fp.val.VString? && Ordering(CompareBytes(v, fp.val.s), fp.op)
  }

  predicate EvalInt(fp: FieldPredicate, v: int) {
    match fp.val
    case VInt(n) => Ordering(CompareInt(v, n), fp.op)
    case VFloat(x) => Ordering(CompareReal(v as real, x), fp.op)
    case _ => fp.op == OpIn && InNumeric(v as real, fp.val)
  }

  predicate EvalFloat(fp: FieldPredicate, v: real) {
    match fp.val
    case VFloat(x) => Ordering(CompareReal(v, x), fp.op)
    case VInt(n) => Ordering(CompareReal(v, n as real), fp.op)
    case _ => fp.op == OpIn && InNumeric(v, fp.val)
  }

  predicate EvalBool(fp: FieldPredicate, v: bool) {
    fp.val.VBool? && ((fp.op == OpEq && v == fp.val.b) || (fp.op == OpNeq && v != fp.val.b))
  }

  /** EvalTokenValue: a token of another type than the predicate's never matches. */
  ghost predicate EvalToken(fp: FieldPredicate, typ: TokenType, raw: seq<Byte>, rd: Readers) {
    match fp.typ
    case FieldString => typ == TokString && EvalString(fp, raw, rd)
    case FieldInt => typ == TokNumber && EvalInt(fp, rd.toInt(raw))
    case FieldFloat => typ == TokNumber && EvalFloat(fp, rd.toFloat(raw))
    case FieldBool => (typ == TokTrue || typ == TokFalse) && EvalBool(fp, typ == TokTrue)
  }

  /** The comparison `op` of two values, given which comes first. */
  predicate Compares(op: PredicateOp, less: bool, equal: bool, greater: bool) {
    match op
    case OpEq => equal
    case OpNeq => !equal
    case OpLt => less
    case OpLte => less || equal
    case OpGt => greater
    case OpGte => greater || equal
    case _ => false
  }

  /** On text, a comparison is by the lexicographic order of the bytes, an IN is membership. */
  lemma TextPredicateMeans(fp: FieldPredicate, typ: TokenType, raw: seq<Byte>, rd: Readers, s: seq<Byte>)
    requires fp.typ == FieldString && fp.op != OpLike
    ensures fp.op != OpIn && fp.val == VString(s) ==>
              (EvalToken(fp, typ, raw, rd)
               <==> typ == TokString && Compares(fp.op, Before(raw, s), raw == s, Before(s, raw)))
    ensures fp.op == OpIn && fp.val.VList? ==>
              (EvalToken(fp, typ, raw, rd)
               <==> typ == TokString && exists i :: 0 <= i < |fp.val.vs| && fp.val.vs[i] == VString(raw))
  {
    hide CompareBytes, Before;
    BytesOrder(raw, s);
  }

  /** On a number, a comparison is by value, an IN finds any listed number less than 1e-9 away. */
  lemma NumberPredicateMeans(fp: FieldPredicate, typ: TokenType, raw: seq<Byte>, rd: Readers)
    requires fp.typ == FieldFloat
    ensures fp.val.VFloat? ==>
              (EvalToken(fp, typ, raw, rd) <==>
                 var v, x := rd.toFloat(raw), fp.val.x;
                 typ == TokNumber && Compares(fp.op, v < x, v == x, v > x))
    ensures fp.op == OpIn && fp.val.VList? ==>
              (EvalToken(fp, typ, raw, rd) <==>
                 var v := rd.toFloat(raw);
                 typ == TokNumber && exists i :: 0 <= i < |fp.val.vs| && IsNear(v, fp.val.vs[i]))
  {
    if fp.op == OpIn && fp.val.VList? {
      var v := rd.toFloat(raw);
      forall item
        ensures NumericallyEqual(v, item) <==> IsNear(v, item)
      {
      }
    }
  }

  lemma IntPredicateMeans(fp: FieldPredicate, typ: TokenType, raw: seq<Byte>, rd: Readers)
    requires fp.typ == FieldInt
    ensures fp.val.VInt? ==>
              (EvalToken(fp, typ, raw, rd) <==>
                 var v, n := rd.toInt(raw), fp.val.i;
                 typ == TokNumber && Compares(fp.op, v < n, v == n, v > n))
  {
  }

  predicate IsNear(v: real, item: Value) {
    || (item.VFloat? && item.x - 0.000000001 < v < item.x + 0.000000001)
    || (item.VInt? && item.i as real - 0.000000001 < v < item.i as real + 0.000000001)
  }

  /** On true and false only equality is answered. */
  lemma BoolPredicateMeans(fp: FieldPredicate, typ: TokenType, raw: seq<Byte>, rd: Readers)
    requires fp.typ == FieldBool
    ensures EvalToken(fp, typ, raw, rd) <==>
              || (fp.val == VBool(true) && ((fp.op == OpEq && typ == TokTrue) || (fp.op == OpNeq && typ == TokFalse)))
              || (fp.val == VBool(false) && ((fp.op == OpEq && typ == TokFalse) || (fp.op == OpNeq && typ == TokTrue)))
  {
  }

  method EvalStringToken(fp: FieldPredicate, v: seq<Byte>, rd: Readers) returns (r: bool)
    ensures r == EvalString(fp, v, rd)
  {
    if fp.op == OpIn {
      if !fp.val.VList? {
        return false;
      }
      for i := 0 to |fp.val.vs|
        invariant VString(v) !in fp.val.vs[..i]
      {
        if fp.val.vs[i] == VString(v) {
          return true;
        }
      }
      return false;
    }
    if !fp.val.VString? {
      return false;
    }
    if fp.op == OpLike {
      r := Like.MatchLike(rd.toLower(v), rd.toLower(fp.val.s));
    } else {
      r := Ordering(CompareBytes(v, fp.val.s), fp.op);
    }
  }

  method EvalTokenValue(fp: FieldPredicate, typ: TokenType, raw: seq<Byte>, rd: Readers) returns (matched: bool)
    ensures matched == EvalToken(fp, typ, raw, rd)
  {
    match fp.typ
    case FieldString =>
      if typ != TokString {
        return false;
      }
      matched := EvalStringToken(fp, raw, rd);
    case FieldInt =>
      matched := typ == TokNumber && EvalInt(fp, rd.toInt(raw));
    case FieldFloat =>
      matched := typ == TokNumber && EvalFloat(fp, rd.toFloat(raw));
    case FieldBool =>
      matched := (typ == TokTrue || typ == TokFalse) && EvalBool(fp, typ == TokTrue);
  }

  /** NewPredicateSet: the last predicate on an atom takes the atom's slot. */
  method NewPredicateSet(preds: seq<FieldPredicate>) returns (atoms: map<Atom, nat>)
    ensures SlotsOf(preds, |preds|, atoms)
  {
    atoms := map[];
    for i := 0 to |preds|
      invariant SlotsOf(preds, i, atoms)
    {
      atoms := atoms[preds[i].atom := i];
    }
  }

  /** Slots for the first `n` predicates: each atom points at the last of them that carries it. */
  ghost predicate SlotsOf(preds: seq<FieldPredicate>, n: nat, atoms: map<Atom, nat>)
    requires n <= |preds|
  {
    && (forall i :: 0 <= i < n ==> preds[i].atom in atoms && i <= atoms[preds[i].atom])
    && (forall a :: a in atoms ==> 0 <= atoms[a] < n && preds[atoms[a]].atom == a)
  }
}
