/** Graph node identifiers and the tenant prefix they may carry. */
module TenantIds {

  type NodeId = string

  newtype uint16 = n: int | 0 <= n < 0x1_0000

  predicate UpperHex(c: char) {
    '0' <= c <= '9' || 'A' <= c <= 'F'
  }

  /** The `XXXX@` prefix of a node ID, or "" when there is none. Lower-case hex is not a prefix. */
  function NodeIdPrefix(id: NodeId): string {
    if |id| < 5 || id[4] != '@' || !(forall i :: 0 <= i < 4 ==> UpperHex(id[i])) then "" else id[..5]
  }

  /** An ID with an '@' that is not part of a valid prefix; the graph refuses such nodes. */
  predicate Malformed(id: NodeId) {
    '@' in id && NodeIdPrefix(id) == ""
  }

  predicate HasPrefix(s: string, p: string) {
    p <= s
  }

  /** Both endpoints carry a prefix and the prefixes differ. */
  predicate CrossTenant(a: NodeId, b: NodeId) {
    NodeIdPrefix(a) != "" && NodeIdPrefix(b) != "" && NodeIdPrefix(a) != NodeIdPrefix(b)
  }

  function HexDigit(n: int): char
    requires 0 <= n < 16
  {
    "0123456789ABCDEF"[n]
  }

  /** The `%04X@` rendering of a tenant number; tenant 0 is unscoped. */
  function GraphNodePrefix(t: uint16): string {
    if t == 0 then ""
    else
      var n := t as int;
      [HexDigit(n / 4096 % 16), HexDigit(n / 256 % 16), HexDigit(n / 16 % 16), HexDigit(n % 16), '@']
  }

  function Decimal(n: int): string
    decreases n < 0, if n < 0 then -n else n
  {
    if n < 0 then "-" + Decimal(-n)
    else if n < 10 then [Digit(n)]
    else Decimal(n / 10) + [Digit(n % 10)]
  }

  function Digit(d: int): (c: char)
    requires 0 <= d < 10
    ensures c != '@'
  {
    "0123456789"[d]
  }

  function MakeNodeId(t: uint16, entity: string, id: int): NodeId {
    GraphNodePrefix(t) + entity + ":" + Decimal(id)
  }

  /** A string test for a real prefix decides the tenant: `strings.HasPrefix` agrees with `NodeIDPrefix`. */
  lemma PrefixTestDecidesTenant(id: NodeId, p: string)
    requires p != "" && exists m: NodeId :: NodeIdPrefix(m) == p
    ensures HasPrefix(id, p) <==> NodeIdPrefix(id) == p
  {
  }

  lemma PrefixOfPrefixed(p: string, s: string)
    requires |p| == 5 && p[4] == '@' && forall i :: 0 <= i < 4 ==> UpperHex(p[i])
    ensures NodeIdPrefix(p + s) == p
  {
  }

  /** `NodeID` and `NodeIDPrefix` agree for every scoped tenant. */
  lemma ScopedIdCarriesItsTenant(t: uint16, entity: string, id: int)
    requires t != 0
    ensures NodeIdPrefix(MakeNodeId(t, entity, id)) == GraphNodePrefix(t)
    ensures !Malformed(MakeNodeId(t, entity, id))
  {
    PrefixOfPrefixed(GraphNodePrefix(t), entity + ":" + Decimal(id));
    assert MakeNodeId(t, entity, id) == GraphNodePrefix(t) + (entity + ":" + Decimal(id));
  }

  lemma {:induction false} DecimalHasNoAt(n: int)
    ensures '@' !in Decimal(n)
    decreases n < 0, if n < 0 then -n else n
  {
    if n < 0 {
      DecimalHasNoAt(-n);
    } else if n >= 10 {
      DecimalHasNoAt(n / 10);
      assert Decimal(n) == Decimal(n / 10) + [Digit(n % 10)];
    }
  }

  /**
   * For the unscoped tenant the two functions agree exactly when the entity name itself does not
   * start with a prefix: an entity called "00AB@x" is taken for a node of tenant 0x00AB.
   */
  lemma UnscopedIdIsBareIffEntityIs(entity: string, id: int)
    ensures NodeIdPrefix(MakeNodeId(0, entity, id)) == "" <==> NodeIdPrefix(entity) == ""
  {
    var n := MakeNodeId(0, entity, id);
    DecimalHasNoAt(id);
    assert n == entity + ":" + Decimal(id);
    assert forall i :: 0 <= i < |entity| ==> n[i] == entity[i];
    if |entity| < 5 && |n| >= 5 {
      assert n[4] != '@' by {
        if |entity| < 4 {
          assert n[4] == Decimal(id)[3 - |entity|];
        }
      }
    }
  }

  // ----- reading the parts back -----

  function HexValue(c: char): int {
    if '0' <= c <= '9' then c as int - '0' as int else c as int - 'A' as int + 10
  }

  /** The number a prefix stands for. */
  function PrefixValue(p: string): int
    requires |p| >= 4
  {
    HexValue(p[0]) * 4096 + HexValue(p[1]) * 256 + HexValue(p[2]) * 16 + HexValue(p[3])
  }

  /** The number that digits stand for. */
  function DigitsValue(s: string): int {
    if s == "" then 0 else DigitsValue(s[..|s| - 1]) * 10 + (s[|s| - 1] as int - '0' as int)
  }

  function DecimalValue(s: string): int {
    if s != "" && s[0] == '-' then -DigitsValue(s[1..]) else DigitsValue(s)
  }

  predicate AllDigits(s: string) {
    forall i :: 0 <= i < |s| ==> '0' <= s[i] <= '9'
  }

  lemma HexReads(d: int)
    requires 0 <= d < 16
    ensures HexValue(HexDigit(d)) == d && UpperHex(HexDigit(d))
  {
  }

  lemma FourDigits(n: int)
    requires 0 <= n < 0x1_0000
    ensures n / 4096 % 16 * 4096 + n / 256 % 16 * 256 + n / 16 % 16 * 16 + n % 16 == n
  {
    var q1 := n / 16;
    var q2, q3 := q1 / 16, q1 / 16 / 16;
    assert n == q1 * 16 + n % 16 && q1 == q2 * 16 + q1 % 16 && q2 == q3 * 16 + q2 % 16;
    assert 0 <= q3 < 16 && q3 % 16 == q3;
    assert n / 256 == q2;
    assert n / 4096 == q3;
  }

  lemma PrefixReadsBack(t: uint16)
    requires t != 0
    ensures |GraphNodePrefix(t)| == 5 && PrefixValue(GraphNodePrefix(t)) == t as int
    ensures NodeIdPrefix(GraphNodePrefix(t)) == GraphNodePrefix(t)
  {
    hide HexDigit, HexValue, UpperHex;
    var n := t as int;
    FourDigits(n);
    HexReads(n / 4096 % 16);
    HexReads(n / 256 % 16);
    HexReads(n / 16 % 16);
    HexReads(n % 16);
    var p := GraphNodePrefix(t);
    assert p[0] == HexDigit(n / 4096 % 16) && p[1] == HexDigit(n / 256 % 16);
    assert p[2] == HexDigit(n / 16 % 16) && p[3] == HexDigit(n % 16);
  }

  lemma DigitReads(d: int)
    requires 0 <= d < 10
    ensures '0' <= Digit(d) <= '9' && Digit(d) as int - '0' as int == d
  {
  }

  lemma {:induction false} NaturalReadsBack(n: int)
    requires n >= 0
    ensures Decimal(n) != "" && AllDigits(Decimal(n)) && DigitsValue(Decimal(n)) == n
    ensures n > 0 ==> Decimal(n)[0] != '0'
  {
    hide Digit;
    DigitReads(n % 10);
    if n < 10 {
      assert Decimal(n)[..0] == "";
    } else {
      NaturalReadsBack(n / 10);
      assert Decimal(n) == Decimal(n / 10) + [Digit(n % 10)];
      assert Decimal(n)[..|Decimal(n)| - 1] == Decimal(n / 10);
    }
  }

  /** The rendering of a number is its sign and its digits, without leading zeros. */
  lemma DecimalReadsBack(n: int)
    ensures DecimalValue(Decimal(n)) == n
    ensures n < 0 ==> Decimal(n)[0] == '-' && AllDigits(Decimal(n)[1..]) && Decimal(n)[1] != '0'
    ensures n >= 0 ==> AllDigits(Decimal(n)) && (Decimal(n)[0] == '0' ==> n == 0)
  {
    NaturalReadsBack(if n < 0 then -n else n);
    if n < 0 {
      assert Decimal(n)[1..] == Decimal(-n);
    }
  }

  lemma LastColonSplits(a: string, c: string, b: string, d: string)
    requires ':' !in c && ':' !in d && a + ":" + c == b + ":" + d
    ensures a == b && c == d
  {
    var s := a + ":" + c;
    assert s[|a|] == ':' && s[|b|] == ':';
    assert forall i :: |a| < i < |s| ==> s[i] == c[i - |a| - 1];
    assert forall i :: |b| < i < |s| ==> (b + ":" + d)[i] == d[i - |b| - 1];
    assert a == s[..|a|] && c == s[|a| + 1..] && d == (b + ":" + d)[|b| + 1..];
  }

  lemma DecimalHasNoColon(n: int)
    ensures ':' !in Decimal(n)
  {
    DecimalReadsBack(n);
    var d := Decimal(n);
    forall i | 0 <= i < |d|
      ensures d[i] != ':'
    {
      assert n < 0 && i > 0 ==> d[i] == d[1..][i - 1];
    }
  }

  /**
   * Two node IDs are equal exactly when their numbers are and their entity names are the same once the
   * tenants' prefixes are put before them.
   */
  lemma NodeIdsEqualIff(t: uint16, e: string, i: int, u: uint16, f: string, j: int)
    ensures MakeNodeId(t, e, i) == MakeNodeId(u, f, j) <==> i == j && GraphNodePrefix(t) + e == GraphNodePrefix(u) + f
  {
    hide GraphNodePrefix, Decimal;
    DecimalHasNoColon(i);
    DecimalHasNoColon(j);
    DecimalReadsBack(i);
    DecimalReadsBack(j);
    if MakeNodeId(t, e, i) == MakeNodeId(u, f, j) {
      LastColonSplits(GraphNodePrefix(t) + e, Decimal(i), GraphNodePrefix(u) + f, Decimal(j));
    }
  }

  /** A scoped ID names one tenant, one entity and one number. */
  lemma ScopedIdsAreDistinct(t: uint16, e: string, i: int, u: uint16, f: string, j: int)
    requires t != 0 && u != 0 && MakeNodeId(t, e, i) == MakeNodeId(u, f, j)
    ensures t == u && e == f && i == j
  {
    hide GraphNodePrefix, PrefixValue, MakeNodeId;
    NodeIdsEqualIff(t, e, i, u, f, j);
    PrefixReadsBack(t);
    PrefixReadsBack(u);
    var p, q := GraphNodePrefix(t), GraphNodePrefix(u);
    assert (p + e)[..5] == p && (p + e)[5..] == e && (q + f)[..5] == q && (q + f)[5..] == f;
  }

  /** Distinct tenants have distinct prefixes, and the unscoped one has none. */
  lemma PrefixesAreDistinct(t: uint16, u: uint16)
    requires GraphNodePrefix(t) == GraphNodePrefix(u)
    ensures t == u
  {
    hide PrefixValue;
    if t != 0 {
      PrefixReadsBack(t);
    }
    if u != 0 {
      PrefixReadsBack(u);
    }
  }

  /** An ID starts with four upper-case hex digits and an '@', which stand for a tenant number. */
  ghost predicate ReadsAsTenant(id: NodeId, n: int) {
    |id| >= 5 && id[4] == '@' && PrefixValue(id) == n && forall i :: 0 <= i < 4 ==> id[i] in "0123456789ABCDEF"
  }

  /** The prefix is what reads as a tenant number; an ID with an '@' that does not is malformed. */
  lemma PrefixIsATenantNumber(id: NodeId)
    ensures NodeIdPrefix(id) != "" <==> exists n :: 0 <= n < 0x1_0000 && ReadsAsTenant(id, n)
    ensures NodeIdPrefix(id) != "" ==> NodeIdPrefix(id) == id[..5]
    ensures Malformed(id) <==> '@' in id && !exists n :: 0 <= n < 0x1_0000 && ReadsAsTenant(id, n)
  {
    forall c: char
      ensures UpperHex(c) <==> c in "0123456789ABCDEF"
      ensures UpperHex(c) ==> 0 <= HexValue(c) < 16
    {
      HexLetters(c);
    }
    if NodeIdPrefix(id) != "" {
      assert ReadsAsTenant(id, PrefixValue(id));
    }
  }

  lemma HexLetters(c: char)
    ensures UpperHex(c) <==> c in "0123456789ABCDEF"
  {
    var s := "0123456789ABCDEF";
    if UpperHex(c) {
      assert s[HexValue(c)] == c;
    }
  }
}
