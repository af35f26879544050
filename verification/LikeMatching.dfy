/**
 * SQL LIKE over bytes, after lower-casing: the tokeniser's backtracking matcher, the executor's
 * simplified one, and exactly when the two agree.
 */
module LikeMatching {
  import opened Basics

  const PERCENT: Byte := 0x25
  const UNDERSCORE: Byte := 0x5F
  const LETTER_A: Byte := 0x61

  // ----- what a pattern means -----

  function Concat(parts: seq<seq<Byte>>): seq<Byte> {
    if parts == [] then [] else parts[0] + Concat(parts[1..])
  }

  /** '%' stands for any run, '_' for one byte, anything else for itself. */
  predicate PartOk(c: Byte, part: seq<Byte>) {
    c == PERCENT || (|part| == 1 && (c == UNDERSCORE || part[0] == c))
  }

  predicate SplitsAs(s: seq<Byte>, p: seq<Byte>, parts: seq<seq<Byte>>) {
    |parts| == |p| && Concat(parts) == s && forall i :: 0 <= i < |p| ==> PartOk(p[i], parts[i])
  }

  ghost predicate Matches(s: seq<Byte>, p: seq<Byte>) {
    exists parts :: SplitsAs(s, p, parts)
  }

  lemma MatchesEmpty(s: seq<Byte>)
    ensures Matches(s, []) <==> s == []
  {
    assert SplitsAs([], [], []);
  }

  lemma SplitCons(s: seq<Byte>, p: seq<Byte>, k: nat, parts: seq<seq<Byte>>)
    requires p != [] && k <= |s| && PartOk(p[0], s[..k]) && SplitsAs(s[k..], p[1..], parts)
    ensures SplitsAs(s, p, [s[..k]] + parts)
  {
  }

  lemma SplitUncons(s: seq<Byte>, p: seq<Byte>, parts: seq<seq<Byte>>)
    requires p != [] && SplitsAs(s, p, parts)
    ensures |parts[0]| <= |s| && s[..|parts[0]|] == parts[0]
    ensures PartOk(p[0], parts[0]) && SplitsAs(s[|parts[0]|..], p[1..], parts[1..])
  {
  }

  lemma MatchesPercent(s: seq<Byte>, p: seq<Byte>)
    requires p != [] && p[0] == PERCENT
    ensures Matches(s, p) <==> exists k :: 0 <= k <= |s| && Matches(s[k..], p[1..])
  {
    if Matches(s, p) {
      var parts :| SplitsAs(s, p, parts);
      SplitUncons(s, p, parts);
      var k := |parts[0]|;
      assert Matches(s[k..], p[1..]);
    }
    if k :| 0 <= k <= |s| && Matches(s[k..], p[1..]) {
      var parts :| SplitsAs(s[k..], p[1..], parts);
      SplitCons(s, p, k, parts);
    }
  }

  lemma MatchesOne(s: seq<Byte>, p: seq<Byte>)
    requires p != [] && p[0] != PERCENT
    ensures Matches(s, p) <==> s != [] && (p[0] == UNDERSCORE || s[0] == p[0]) && Matches(s[1..], p[1..])
  {
    if Matches(s, p) {
      var parts :| SplitsAs(s, p, parts);
      SplitUncons(s, p, parts);
      assert Matches(s[1..], p[1..]);
    }
    if s != [] && (p[0] == UNDERSCORE || s[0] == p[0]) && Matches(s[1..], p[1..]) {
      var parts :| SplitsAs(s[1..], p[1..], parts);
      SplitCons(s, p, 1, parts);
    }
  }

  /** A second '%' right after a first one changes nothing. */
  lemma PercentTwice(s: seq<Byte>, p: seq<Byte>)
    requires |p| >= 2 && p[0] == PERCENT && p[1] == PERCENT
    ensures Matches(s, p) <==> Matches(s, p[1..])
  {
    MatchesPercent(s, p);
    MatchesPercent(s, p[1..]);
    if Matches(s, p) {
      var k :| 0 <= k <= |s| && Matches(s[k..], p[1..]);
      MatchesPercent(s[k..], p[1..]);
      var m :| 0 <= m <= |s[k..]| && Matches(s[k..][m..], p[1..][1..]);
      assert s[k..][m..] == s[k + m..];
    }
    if Matches(s, p[1..]) {
      assert s[0..] == s;
    }
  }

  lemma PercentAlone(s: seq<Byte>)
    ensures Matches(s, [PERCENT])
  {
    MatchesPercent(s, [PERCENT]);
    MatchesEmpty([]);
    assert s[|s|..] == [] && [PERCENT][1..] == [];
  }

  // ----- the backtracking matcher -----

  method MatchLikeRec(s: seq<Byte>, p: seq<Byte>, si0: nat, pi0: nat) returns (r: bool)
    requires si0 <= |s| && pi0 <= |p|
    ensures r <==> Matches(s[si0..], p[pi0..])
    decreases |p| - pi0
  {
    hide Matches;
    var si: nat, pi: nat := si0, pi0;
    while pi < |p|
      invariant si <= |s| && pi0 <= pi <= |p|
      invariant Matches(s[si0..], p[pi0..]) <==> Matches(s[si..], p[pi..])
      decreases |p| - pi
    {
      assert p[pi..][1..] == p[pi + 1..];
      if p[pi] == PERCENT {
        ghost var first := pi;
        while pi + 1 < |p| && p[pi + 1] == PERCENT
          invariant first <= pi < |p| && p[pi] == PERCENT
          invariant Matches(s[si0..], p[pi0..]) <==> Matches(s[si..], p[pi..])
          decreases |p| - pi
        {
          PercentTwice(s[si..], p[pi..]);
          assert p[pi..][1..] == p[pi + 1..];
          pi := pi + 1;
        }
        pi := pi + 1;
        if pi >= |p| {
          assert p[pi - 1..] == [PERCENT];
          PercentAlone(s[si..]);
          return true;
        }
        MatchesPercent(s[si..], p[pi - 1..]);
        assert p[pi - 1..][1..] == p[pi..];
        ghost var from := si;
        while si <= |s|
          invariant from <= si <= |s| + 1
          invariant forall k :: from <= k < si ==> !Matches(s[k..], p[pi..])
        {
          r := MatchLikeRec(s, p, si, pi);
          if r {
            assert s[from..][si - from..] == s[si..];
            return true;
          }
          si := si + 1;
        }
        forall k | 0 <= k <= |s[from..]|
          ensures !Matches(s[from..][k..], p[pi..])
        {
          assert s[from..][k..] == s[from + k..];
        }
        return false;
      }
      MatchesOne(s[si..], p[pi..]);
      if p[pi] == UNDERSCORE {
        if si >= |s| {
          return false;
        }
      } else if si >= |s| || s[si] != p[pi] {
        return false;
      }
      assert s[si..][1..] == s[si + 1..];
      si := si + 1;
      pi := pi + 1;
    }
    assert p[pi..] == [];
    MatchesEmpty(s[si..]);
    return si == |s|;
  }

  method MatchLike(s: seq<Byte>, p: seq<Byte>) returns (r: bool)
    ensures r <==> Matches(s, p)
  {
    r := MatchLikeRec(s, p, 0, 0);
    assert s[0..] == s && p[0..] == p;
  }

  // ----- the executor's simplified matcher -----

  predicate Contains(s: seq<Byte>, t: seq<Byte>) {
    exists k :: 0 <= k <= |s| && t <= s[k..]
  }

  predicate HasSuffix(s: seq<Byte>, t: seq<Byte>) {
    |t| <= |s| && s[|s| - |t|..] == t
  }

  predicate LeadingPercent(p: seq<Byte>) {
    p != [] && p[0] == PERCENT
  }

  predicate TrailingPercent(p: seq<Byte>) {
    p != [] && p[|p| - 1] == PERCENT
  }

  /** A slice expression of the source: out of range, it panics. */
  function GoSlice(p: seq<Byte>, lo: int, hi: int): Option<seq<Byte>> {
    if 0 <= lo <= hi <= |p| then Some(p[lo..hi]) else None
  }

  /** The executor's matchLike on lower-cased text and pattern; no answer when a slice is out of range. */
  function ExecutorLike(s: seq<Byte>, p: seq<Byte>): Option<bool> {
    if LeadingPercent(p) && TrailingPercent(p) then
      match GoSlice(p, 1, |p| - 1)
      case None => None
      case Some(body) => Some(Contains(s, body))
    else if LeadingPercent(p) then
      match GoSlice(p, 1, |p|)
      case None => None
      case Some(body) => Some(HasSuffix(s, body))
    else if TrailingPercent(p) then
      match GoSlice(p, 0, |p| - 1)
      case None => None
      case Some(body) => Some(body <= s)
    else Some(s == p)
  }

  predicate Answers(p: seq<Byte>) {
    p != [PERCENT]
  }

  /** The pattern without one leading and one trailing '%'. */
  function Body(p: seq<Byte>): seq<Byte>
    requires Answers(p)
  {
    p[(if LeadingPercent(p) then 1 else 0)..(if TrailingPercent(p) then |p| - 1 else |p|)]
  }

  predicate SimpleLike(s: seq<Byte>, p: seq<Byte>)
    requires Answers(p)
  {
    if LeadingPercent(p) && TrailingPercent(p) then Contains(s, Body(p))
    else if LeadingPercent(p) then HasSuffix(s, Body(p))
    else if TrailingPercent(p) then Body(p) <= s
    else s == p
  }

  /** The executor's matcher slices out of range on the pattern "%" and on no other. */
  lemma ExecutorAnswersIff(s: seq<Byte>, p: seq<Byte>)
    ensures ExecutorLike(s, p) == if Answers(p) then Some(SimpleLike(s, p)) else None
  {
    if |p| == 1 {
      assert p == [p[0]];
    }
  }

  predicate IsLiteral(t: seq<Byte>) {
    PERCENT !in t && UNDERSCORE !in t
  }

  lemma {:induction false} MatchesLiteralThen(s: seq<Byte>, t: seq<Byte>, p: seq<Byte>)
    requires IsLiteral(t)
    ensures Matches(s, t + p) <==> t <= s && Matches(s[|t|..], p)
  {
    if t == [] {
      assert t + p == p && s[0..] == s;
    } else {
      assert (t + p)[1..] == t[1..] + p;
      MatchesOne(s, t + p);
      if s != [] && s[0] == t[0] {
        MatchesLiteralThen(s[1..], t[1..], p);
        if t <= s {
          assert t[1..] <= s[1..] && s[1..][|t[1..]|..] == s[|t|..];
        }
        if t[1..] <= s[1..] {
          assert s == [s[0]] + s[1..] && t == [t[0]] + t[1..];
          assert s[1..][|t[1..]|..] == s[|t|..];
        }
      }
    }
  }

  lemma LiteralBodyAgrees(s: seq<Byte>, p: seq<Byte>)
    requires Answers(p) && IsLiteral(Body(p))
    ensures Matches(s, p) <==> SimpleLike(s, p)
  {
    var b := Body(p);
    var tail := if TrailingPercent(p) then [PERCENT] else [];
    var rest := b + tail;
    assert p == (if LeadingPercent(p) then [PERCENT] else []) + rest;
    forall k | 0 <= k <= |s|
      ensures Matches(s[k..], rest) <==> if TrailingPercent(p) then b <= s[k..] else s[k..] == b
    {
      MatchesLiteralThen(s[k..], b, tail);
      if b <= s[k..] {
        PercentAlone(s[k..][|b|..]);
        MatchesEmpty(s[k..][|b|..]);
      }
    }
    assert s[0..] == s;
    if LeadingPercent(p) {
      assert p[1..] == rest;
      MatchesPercent(s, p);
      if Matches(s, p) {
        var k :| 0 <= k <= |s| && Matches(s[k..], p[1..]);
        assert TrailingPercent(p) || |s| - |b| == k;
      }
      if !TrailingPercent(p) && HasSuffix(s, b) {
        assert Matches(s[|s| - |b|..], rest);
      }
    } else {
      assert p == rest;
    }
  }

  /** A text that a pattern matches: each '_' filled with a letter, each '%' with nothing. */
  function Filled(p: seq<Byte>): (s: seq<Byte>)
    ensures |s| <= |p|
  {
    if p == [] then []
    else if p[0] == PERCENT then Filled(p[1..])
    else [if p[0] == UNDERSCORE then LETTER_A else p[0]] + Filled(p[1..])
  }

  lemma {:induction false} FilledMatches(p: seq<Byte>)
    ensures Matches(Filled(p), p)
  {
    var s := Filled(p);
    if p == [] {
      MatchesEmpty([]);
    } else {
      FilledMatches(p[1..]);
      if p[0] == PERCENT {
        MatchesPercent(s, p);
        assert s[0..] == s;
      } else {
        MatchesOne(s, p);
        assert s[1..] == Filled(p[1..]);
      }
    }
  }

  lemma {:induction false} FilledDiffers(p: seq<Byte>)
    requires !IsLiteral(p)
    ensures Filled(p) != p
  {
    if p[0] != PERCENT && p[0] != UNDERSCORE {
      assert p == [p[0]] + p[1..];
      FilledDiffers(p[1..]);
      assert Filled(p)[1..] == Filled(p[1..]);
    } else if p[0] == PERCENT {
      assert |Filled(p)| < |p|;
    } else {
      assert Filled(p)[0] != p[0];
    }
  }

  lemma {:induction false} FilledIgnoresPercentEnds(p: seq<Byte>)
    requires Answers(p)
    ensures Filled(p) == Filled(Body(p))
  {
    var lead := if LeadingPercent(p) then 1 else 0;
    assert Filled(p) == Filled(p[lead..]) by {
      assert p[0..] == p;
    }
    if TrailingPercent(p) {
      var q := p[lead..];
      assert q == Body(p) + [PERCENT];
      FilledSnocPercent(Body(p));
    } else {
      assert p[lead..] == Body(p);
    }
  }

  lemma {:induction false} FilledSnocPercent(b: seq<Byte>)
    ensures Filled(b + [PERCENT]) == Filled(b)
  {
    if b == [] {
      assert Filled([PERCENT]) == Filled([PERCENT][1..]) == [];
    } else {
      assert (b + [PERCENT])[1..] == b[1..] + [PERCENT];
      FilledSnocPercent(b[1..]);
    }
  }

  /** A wildcard inside the body makes the two matchers differ on the filled text. */
  lemma WildcardBodyDiffers(p: seq<Byte>)
    requires Answers(p) && !IsLiteral(Body(p))
    ensures Matches(Filled(p), p) && !SimpleLike(Filled(p), p)
  {
    var s, b := Filled(p), Body(p);
    FilledMatches(p);
    FilledIgnoresPercentEnds(p);
    FilledDiffers(b);
    assert |s| <= |b| && s != b;
    forall k | 0 <= k <= |s|
      ensures !(b <= s[k..])
    {
      assert k == 0 ==> s[k..] == s;
    }
    assert s[0..] == s;
  }

  /**
   * The two matchers agree on every text exactly when the pattern's only wildcards are one leading
   * and one trailing '%'.
   */
  lemma MatchersAgreeIff(p: seq<Byte>)
    requires Answers(p)
    ensures (forall s :: Matches(s, p) <==> SimpleLike(s, p)) <==> IsLiteral(Body(p))
  {
    if IsLiteral(Body(p)) {
      forall s
        ensures Matches(s, p) <==> SimpleLike(s, p)
      {
        LiteralBodyAgrees(s, p);
      }
    } else {
      WildcardBodyDiffers(p);
    }
  }
}
