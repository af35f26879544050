/** What every run of the location cache keeps, compared with a store that never forgets. */
module CacheRuns {
  import opened Basics
  import opened LocationCaches

  datatype Timed = Timed(op: Op, now: int)

  function Run(ops: seq<Timed>, cap: nat): seq<Entry> {
    if ops == [] then [] else Next(Run(ops[..|ops| - 1], cap), cap, ops[|ops| - 1].op, ops[|ops| - 1].now)
  }

  predicate Monotone(ops: seq<Timed>) {
    forall i, j :: 0 <= i < j < |ops| ==> ops[i].now <= ops[j].now
  }

  // ----- the reference: the last value set and not deleted -----

  datatype Stored = Stored(value: Location, expires: int)

  function Noted(ref: map<string, Stored>, op: Op, now: int): map<string, Stored> {
    match op
    case Get(_) => ref
    case Set(key, value, ttl) => ref[key := Stored(value, now + ttl)]
    case Delete(key) => ref - {key}
  }

  function Reference(ops: seq<Timed>): map<string, Stored> {
    if ops == [] then map[] else Noted(Reference(ops[..|ops| - 1]), ops[|ops| - 1].op, ops[|ops| - 1].now)
  }

  // ----- the other keys used since a key's last use -----

  /** A set, or a get that hits, uses its key. */
  predicate Uses(l: seq<Entry>, op: Op, now: int) {
    op.Set? || (op.Get? && Hits(l, op.key, now))
  }

  function UsedStep(used: set<string>, l: seq<Entry>, op: Op, now: int, key: string): set<string> {
    if !Uses(l, op, now) then used else if op.key == key then {} else used + {op.key}
  }

  function UsedSince(ops: seq<Timed>, cap: nat, key: string): set<string> {
    if ops == [] then {}
    else
      var n := |ops| - 1;
      UsedStep(UsedSince(ops[..n], cap, key), Run(ops[..n], cap), ops[n].op, ops[n].now, key)
  }

  // ----- the invariant -----

  function Keys(l: seq<Entry>): set<string> {
    set i | 0 <= i < |l| :: l[i].key
  }

  predicate Distinct(l: seq<Entry>) {
    forall i, j :: 0 <= i < j < |l| ==> l[i].key != l[j].key
  }

  ghost predicate Faithful(l: seq<Entry>, ref: map<string, Stored>) {
    forall i :: 0 <= i < |l| ==> l[i].key in ref && ref[l[i].key] == Stored(l[i].value, l[i].expires)
  }

  /** Whatever lies before an entry has been used since the entry was. */
  ghost predicate Ordered(l: seq<Entry>, used: string -> set<string>) {
    forall i, j :: 0 <= j < i < |l| ==> l[j].key in used(l[i].key)
  }

  /** A missing key has expired, or `cap` others have been used since. */
  ghost predicate Excused(l: seq<Entry>, ref: map<string, Stored>, used: string -> set<string>, cap: nat, clock: int) {
    forall k :: k in ref && k !in Keys(l) ==> clock > ref[k].expires || |used(k)| >= cap
  }

  ghost predicate Inv(l: seq<Entry>, ref: map<string, Stored>, used: string -> set<string>, cap: nat, clock: int) {
    Distinct(l) && |l| <= cap && Faithful(l, ref) && Ordered(l, used) && Excused(l, ref, used, cap, clock)
  }

  lemma DropKeys(l: seq<Entry>, i: nat)
    requires i < |l| && Distinct(l)
    ensures Distinct(Drop(l, i)) && Keys(Drop(l, i)) == Keys(l) - {l[i].key}
  {
    var d := Drop(l, i);
    forall k | k in Keys(l) && k != l[i].key ensures k in Keys(d) {
      var j :| 0 <= j < |l| && l[j].key == k;
      assert d[if j < i then j else j - 1].key == k;
    }
    assert forall j :: 0 <= j < |d| ==> d[j] == l[if j < i then j else j + 1];
  }

  lemma {:induction false} KeyCount(l: seq<Entry>)
    requires Distinct(l)
    ensures |Keys(l)| == |l|
  {
    if l == [] {
      assert Keys(l) == {};
    } else {
      var n := |l| - 1;
      KeyCount(l[..n]);
      assert Keys(l) == Keys(l[..n]) + {l[n].key} by {
        assert forall i :: 0 <= i < n ==> l[..n][i] == l[i];
      }
    }
  }

  // ----- lists that shrink or move to the front -----

  lemma OrderedDrop(l: seq<Entry>, i: nat, used: string -> set<string>)
    requires i < |l| && Ordered(l, used)
    ensures Ordered(Drop(l, i), used)
  {
  }

  lemma OrderedMore(l: seq<Entry>, used: string -> set<string>, used': string -> set<string>)
    requires Ordered(l, used) && forall i :: 0 <= i < |l| ==> used(l[i].key) <= used'(l[i].key)
    ensures Ordered(l, used')
  {
  }

  lemma OrderedFront(e: Entry, l: seq<Entry>, used: string -> set<string>)
    requires Ordered(l, used) && forall i :: 0 <= i < |l| ==> e.key in used(l[i].key)
    ensures Ordered([e] + l, used)
  {
  }

  // ----- one step -----

  /** The use count of every key after a step. */
  ghost predicate UsedAfter(used: string -> set<string>, used': string -> set<string>, l: seq<Entry>, op: Op,
                            now: int) {
    forall k :: used'(k) == UsedStep(used(k), l, op, now, k)
  }

  /** The used key goes to the front of what is left of the list. */
  lemma FrontKeeps(e: Entry, l: seq<Entry>, rest: seq<Entry>, ref: map<string, Stored>, ref': map<string, Stored>,
                   used: string -> set<string>, used': string -> set<string>, op: Op, now: int, cap: nat)
    requires UsedAfter(used, used', l, op, now) && Uses(l, op, now) && op.key == e.key
    requires Distinct(rest) && e.key !in Keys(rest) && |rest| < cap && Faithful(rest, ref) && Ordered(rest, used)
    requires ref' == ref[e.key := Stored(e.value, e.expires)]
    ensures Distinct([e] + rest) && Faithful([e] + rest, ref') && Ordered([e] + rest, used')
    ensures Keys([e] + rest) == Keys(rest) + {e.key}
  {
    hide Ordered, Hits;
    FrontKeys(e, rest);
    FrontFaithful(e, rest, ref);
    assert forall i :: 0 <= i < |rest| ==> rest[i].key in Keys(rest);
    OrderedMore(rest, used, used');
    OrderedFront(e, rest, used');
  }

  lemma FrontKeys(e: Entry, rest: seq<Entry>)
    requires Distinct(rest) && e.key !in Keys(rest)
    ensures Distinct([e] + rest) && Keys([e] + rest) == Keys(rest) + {e.key}
  {
    var m := [e] + rest;
    forall k | k in Keys(rest) ensures k in Keys(m) {
      var i :| 0 <= i < |rest| && rest[i].key == k;
      assert m[i + 1].key == k;
    }
    assert m[0] == e;
    assert forall i :: 0 < i < |m| ==> m[i] == rest[i - 1] && m[i].key in Keys(rest);
  }

  lemma FrontFaithful(e: Entry, rest: seq<Entry>, ref: map<string, Stored>)
    requires Faithful(rest, ref) && e.key !in Keys(rest)
    ensures Faithful([e] + rest, ref[e.key := Stored(e.value, e.expires)])
  {
  }

  /** Keys that were missing stay excused as the clock and the uses grow. */
  lemma ExcuseGrows(l: seq<Entry>, ref: map<string, Stored>, used: string -> set<string>, used': string -> set<string>,
                    op: Op, now: int, cap: nat, clock: int, k: string)
    requires UsedAfter(used, used', l, op, now) && clock <= now && k in ref
    requires clock > ref[k].expires || |used(k)| >= cap
    requires Uses(l, op, now) ==> op.key != k
    ensures now > ref[k].expires || |used'(k)| >= cap
  {
    SubsetSize(used(k), used'(k));
  }

  lemma HitKeeps(l: seq<Entry>, ref: map<string, Stored>, used: string -> set<string>, used': string -> set<string>,
                 key: string, now: int, cap: nat, clock: int)
    requires Inv(l, ref, used, cap, clock) && clock <= now && Hits(l, key, now)
    requires UsedAfter(used, used', l, Get(key), now)
    ensures Inv(Next(l, cap, Get(key), now), ref, used', cap, now)
  {
    hide Find, Ordered;
    var i := Find(l, key);
    var e, rest := l[i], Drop(l, i);
    FindKey(l, key);
    DropKeys(l, i);
    OrderedDrop(l, i, used);
    assert Faithful(rest, ref) by {
      FaithfulDrop(l, i, ref);
    }
    assert ref == ref[e.key := Stored(e.value, e.expires)];
    FrontKeeps(e, l, rest, ref, ref, used, used', Get(key), now, cap);
    forall k | k in ref && k !in Keys([e] + rest) ensures now > ref[k].expires || |used'(k)| >= cap {
      ExcuseGrows(l, ref, used, used', Get(key), now, cap, clock, k);
    }
  }

  lemma FindKey(l: seq<Entry>, key: string)
    ensures Find(l, key) < |l| ==> l[Find(l, key)].key == key
    ensures key in Keys(l) <==> Find(l, key) < |l|
  {
  }

  lemma FaithfulDrop(l: seq<Entry>, i: nat, ref: map<string, Stored>)
    requires i < |l| && Faithful(l, ref)
    ensures Faithful(Drop(l, i), ref)
  {
  }

  /** A get that misses, or a delete: nothing is used. */
  lemma QuietKeeps(l: seq<Entry>, ref: map<string, Stored>, used: string -> set<string>, used': string -> set<string>,
                   op: Op, now: int, cap: nat, clock: int)
    requires Inv(l, ref, used, cap, clock) && clock <= now && !Uses(l, op, now)
    requires UsedAfter(used, used', l, op, now)
    ensures Inv(Next(l, cap, op, now), Noted(ref, op, now), used', cap, now)
  {
    hide Find, Ordered;
    var i, l', ref' := Find(l, op.key), Next(l, cap, op, now), Noted(ref, op, now);
    FindKey(l, op.key);
    assert forall k :: used'(k) == used(k);
    if i < |l| {
      assert l' == Drop(l, i);
      DropKeys(l, i);
      OrderedDrop(l, i, used);
      FaithfulDrop(l, i, ref);
      OrderedMore(l', used, used');
      assert Faithful(l', ref') by {
        assert forall j :: 0 <= j < |l'| ==> l'[j].key in Keys(l');
      }
      assert op.Get? ==> now > ref[op.key].expires by {
        assert l[i].key == op.key;
      }
    } else {
      OrderedMore(l, used, used');
      assert forall j :: 0 <= j < |l| ==> l[j].key in Keys(l);
    }
    forall k | k in ref' && k !in Keys(l') ensures now > ref'[k].expires || |used'(k)| >= cap {
      if k in Keys(l) {
        assert k == op.key;
      } else {
        ExcuseGrows(l, ref, used, used', op, now, cap, clock, k);
      }
    }
  }

  /** Setting a key that is there. */
  lemma RefreshKeeps(l: seq<Entry>, ref: map<string, Stored>, used: string -> set<string>, used': string -> set<string>,
                     op: Op, now: int, cap: nat, clock: int)
    requires Inv(l, ref, used, cap, clock) && clock <= now && op.Set? && Find(l, op.key) < |l|
    requires UsedAfter(used, used', l, op, now)
    ensures Inv(Next(l, cap, op, now), Noted(ref, op, now), used', cap, now)
  {
    hide Find, Ordered;
    var i, ref' := Find(l, op.key), Noted(ref, op, now);
    var e, rest := Entry(op.key, op.value, now + op.ttl), Drop(l, i);
    FindKey(l, op.key);
    DropKeys(l, i);
    OrderedDrop(l, i, used);
    FaithfulDrop(l, i, ref);
    FrontKeeps(e, l, rest, ref, ref', used, used', op, now, cap);
    forall k | k in ref' && k !in Keys([e] + rest) ensures now > ref'[k].expires || |used'(k)| >= cap {
      ExcuseGrows(l, ref, used, used', op, now, cap, clock, k);
    }
  }

  /** Setting a new key; the entry that gives way has seen `cap` others since its last use. */
  lemma InsertKeeps(l: seq<Entry>, ref: map<string, Stored>, used: string -> set<string>, used': string -> set<string>,
                    op: Op, now: int, cap: nat, clock: int)
    requires Inv(l, ref, used, cap, clock) && clock <= now && op.Set? && Find(l, op.key) == |l| && cap >= 1
    requires UsedAfter(used, used', l, op, now)
    ensures Inv(Next(l, cap, op, now), Noted(ref, op, now), used', cap, now)
  {
    hide Find, Ordered, Distinct, Faithful;
    var ref' := Noted(ref, op, now);
    var e, rest := Entry(op.key, op.value, now + op.ttl), Evicted(l, cap);
    FindKey(l, op.key);
    if |l| >= cap {
      DropKeys(l, |l| - 1);
      OrderedDrop(l, |l| - 1, used);
      FaithfulDrop(l, |l| - 1, ref);
      assert Drop(l, |l| - 1) == rest;
      EvictionIsEarned(l, used, used', op, now, cap);
    }
    FrontKeeps(e, l, rest, ref, ref', used, used', op, now, cap);
    forall k | k in ref' && k !in Keys([e] + rest) ensures now > ref'[k].expires || |used'(k)| >= cap {
      if k !in Keys(l) {
        ExcuseGrows(l, ref, used, used', op, now, cap, clock, k);
      }
    }
  }

  lemma EvictionIsEarned(l: seq<Entry>, used: string -> set<string>, used': string -> set<string>, op: Op, now: int,
                         cap: nat)
    requires Distinct(l) && Ordered(l, used) && |l| == cap && cap >= 1
    requires op.Set? && op.key !in Keys(l) && UsedAfter(used, used', l, op, now)
    ensures |used'(l[cap - 1].key)| >= cap
  {
    var k, front := l[cap - 1].key, l[..cap - 1];
    KeyCount(front);
    assert k in Keys(l) && used'(k) == used(k) + {op.key};
    assert Keys(front) <= used(k) && Keys(front) <= Keys(l);
    SubsetSize(Keys(front) + {op.key}, used'(k));
  }

  lemma StepKeeps(l: seq<Entry>, ref: map<string, Stored>, used: string -> set<string>, used': string -> set<string>,
                  op: Op, now: int, cap: nat, clock: int)
    requires Inv(l, ref, used, cap, clock) && clock <= now && cap >= 1
    requires UsedAfter(used, used', l, op, now)
    ensures Inv(Next(l, cap, op, now), Noted(ref, op, now), used', cap, now)
  {
    hide Inv, Find, UsedAfter;
    if op.Set? {
      if Find(l, op.key) < |l| {
        RefreshKeeps(l, ref, used, used', op, now, cap, clock);
      } else {
        InsertKeeps(l, ref, used, used', op, now, cap, clock);
      }
    } else if Uses(l, op, now) {
      HitKeeps(l, ref, used, used', op.key, now, cap, clock);
    } else {
      QuietKeeps(l, ref, used, used', op, now, cap, clock);
    }
  }

  lemma {:induction false} RunKeeps(ops: seq<Timed>, cap: nat)
    requires cap >= 1 && Monotone(ops) && ops != []
    ensures Inv(Run(ops, cap), Reference(ops), k => UsedSince(ops, cap, k), cap, ops[|ops| - 1].now)
  {
    hide Inv, Next, Noted, UsedStep;
    var n := |ops| - 1;
    var before, op, now := ops[..n], ops[n].op, ops[n].now;
    var clock := if n == 0 then now else ops[n - 1].now;
    if n == 0 {
      assert before == [];
      NothingYet(k => UsedSince(before, cap, k), cap, clock);
    } else {
      RunKeeps(before, cap);
    }
    StepKeeps(Run(before, cap), Reference(before), k => UsedSince(before, cap, k), k => UsedSince(ops, cap, k), op, now,
              cap, clock);
  }

  lemma NothingYet(used: string -> set<string>, cap: nat, clock: int)
    ensures Inv([], map[], used, cap, clock)
  {
  }

  // ----- main results -----

  /** After any run the list holds distinct keys, and never more than the capacity. */
  lemma CapacityIsKept(ops: seq<Timed>, cap: nat)
    requires cap >= 1 && Monotone(ops)
    ensures Distinct(Run(ops, cap)) && |Run(ops, cap)| <= cap
  {
    if ops != [] {
      RunKeeps(ops, cap);
    }
  }

  /** A hit returns the last value set for the key, which has been neither deleted nor outlived. */
  lemma HitIsTheLastValueSet(ops: seq<Timed>, cap: nat, key: string, now: int)
    requires cap >= 1 && Monotone(ops) && Hits(Run(ops, cap), key, now)
    ensures key in Reference(ops) && now <= Reference(ops)[key].expires
    ensures Run(ops, cap)[Find(Run(ops, cap), key)].value == Reference(ops)[key].value
  {
    RunKeeps(ops, cap);
  }

  /** A live key is missing only if at least `cap` distinct other keys were set or hit since its last use. */
  lemma MissIsEarned(ops: seq<Timed>, cap: nat, key: string, now: int)
    requires cap >= 1 && Monotone(ops) && (ops != [] ==> ops[|ops| - 1].now <= now)
    requires key in Reference(ops) && now <= Reference(ops)[key].expires
    requires !Hits(Run(ops, cap), key, now)
    ensures |UsedSince(ops, cap, key)| >= cap && key !in UsedSince(ops, cap, key)
  {
    RunKeeps(ops, cap);
    FindKey(Run(ops, cap), key);
    UsedIsOthers(ops, cap, key);
  }

  lemma {:induction false} UsedIsOthers(ops: seq<Timed>, cap: nat, key: string)
    ensures key !in UsedSince(ops, cap, key)
  {
    hide Run;
    if ops != [] {
      UsedIsOthers(ops[..|ops| - 1], cap, key);
    }
  }

  // ----- told by the calls alone -----

  /** Call `k` set the key, and no later call set or deleted it. */
  ghost predicate LastSet(ops: seq<Timed>, key: string, k: int) {
    && 0 <= k < |ops| && ops[k].op.Set? && ops[k].op.key == key
    && forall m :: k < m < |ops| && ops[m].op.key == key ==> ops[m].op.Get?
  }

  lemma {:induction false} ReferenceIsTheLastSet(ops: seq<Timed>, key: string)
    ensures key in Reference(ops) <==> exists k :: LastSet(ops, key, k)
    ensures forall k :: LastSet(ops, key, k) ==>
              key in Reference(ops) && Reference(ops)[key] == Stored(ops[k].op.value, ops[k].now + ops[k].op.ttl)
  {
    if ops != [] {
      var n := |ops| - 1;
      var before := ops[..n];
      ReferenceIsTheLastSet(before, key);
      forall k | LastSet(ops, key, k) && k < n
        ensures LastSet(before, key, k)
      {
      }
      if key in Reference(ops) {
        if ops[n].op.Set? && ops[n].op.key == key {
          assert LastSet(ops, key, n);
        } else {
          var k :| LastSet(before, key, k);
          assert LastSet(ops, key, k);
        }
      }
    }
  }

  /** A hit's value was set for that key by a call that no later one undid, and its time has not run out. */
  lemma HitWasSet(ops: seq<Timed>, cap: nat, key: string, now: int)
    requires cap >= 1 && Monotone(ops) && Hits(Run(ops, cap), key, now)
    ensures exists k :: LastSet(ops, key, k) && now <= ops[k].now + ops[k].op.ttl
                        && Run(ops, cap)[Find(Run(ops, cap), key)].value == ops[k].op.value
  {
    HitIsTheLastValueSet(ops, cap, key, now);
    ReferenceIsTheLastSet(ops, key);
    var k :| LastSet(ops, key, k);
    assert Reference(ops)[key] == Stored(ops[k].op.value, ops[k].now + ops[k].op.ttl);
  }
}
