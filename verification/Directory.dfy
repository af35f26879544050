/**
 * The tenant directory: entity counts per (instance, tenant name), kept up to date from registry
 * events, and for each tenant name one of the entries.
 */
module Directories {
  import opened Registries
  import opened GroupedBooks
  import TenantIds

  datatype Key = Key(instanceUrl: string, tenantName: string)

  /** Unscoped owners have no name; a scoped owner without one is named after its number. */
  function TenantNameFromRef(ref: LocalRef): string {
    if ref.tenantId == 0 then ""
    else if ref.tenantName != "" then ref.tenantName
    else "tenant-" + TenantIds.Decimal(ref.tenantId)
  }

  function KeyOf(ref: LocalRef): Key {
    Key(ref.instanceUrl, TenantNameFromRef(ref))
  }

  predicate Scoped(ref: LocalRef) {
    TenantNameFromRef(ref) != ""
  }

  lemma ScopedIff(ref: LocalRef)
    ensures Scoped(ref) <==> ref.tenantId != 0
  {
  }

  // ----- the counts, as a value -----

  type Counts = map<Key, int>

  function Raise(c: Counts, k: Key): Counts {
    Bump(c, k, 1)
  }

  /** An entry that falls to zero is deleted. */
  function Lower(c: Counts, k: Key): Counts {
    if k !in c then c else if c[k] - 1 <= 0 then c - {k} else c[k := c[k] - 1]
  }

  function LastFrom(rec: Record): LocalRef
    requires rec.history != []
  {
    rec.history[|rec.history| - 1].from
  }

  /** The key a transfer leaves, if the directory takes it to leave one. */
  predicate Leaves(rec: Record) {
    rec.history != [] && Scoped(LastFrom(rec)) && KeyOf(LastFrom(rec)) != KeyOf(rec.current)
  }

  function Handled(c: Counts, ev: Event): Counts {
    var k := KeyOf(ev.record.current);
    if !Scoped(ev.record.current) then c
    else
      match ev.kind
      case EventRegistered => Raise(c, k)
      case EventTransferred => Raise(if Leaves(ev.record) then Lower(c, KeyOf(LastFrom(ev.record))) else c, k)
      case EventRetired => Lower(c, k)
  }

  /** Counts per key, and for each name the key of one of its entries. */
  datatype Dir = Dir(counts: Counts, names: map<string, Key>)

  /** The name follows `k` unless its entry counts more. */
  function Promote(d: Dir, k: Key): Dir {
    if k.tenantName !in d.names || Get(d.counts, k) >= Get(d.counts, d.names[k.tenantName])
    then Dir(d.counts, d.names[k.tenantName := k])
    else d
  }

  /** Names are exactly those of the keys, and each leads to a key of that name. */
  ghost predicate Sound(d: Dir) {
    && (forall n :: n in d.names ==> d.names[n].tenantName == n && d.names[n] in d.counts)
    && (forall k :: k in d.counts ==> k.tenantName in d.names)
  }

  /** Each name leads to an entry with the most entities. */
  ghost predicate Largest(d: Dir) {
    Sound(d) && forall k :: k in d.counts ==> d.counts[k] <= Get(d.counts, d.names[k.tenantName])
  }

  function Entered(d: Dir, k: Key): Dir {
    Promote(Dir(Raise(d.counts, k), d.names), k)
  }

  /** The last entity takes the entry with it, and the names are rebuilt in any order. */
  ghost predicate Left(d: Dir, k: Key, d': Dir) {
    var lowered := Dir(Lower(d.counts, k), d.names);
    if k !in d.counts then d' == d
    else if k in lowered.counts then d' == Promote(lowered, k)
    else d'.counts == lowered.counts && Largest(d')
  }

  /** What handling one event may leave behind. */
  ghost predicate Follows(d: Dir, ev: Event, d': Dir) {
    var k := KeyOf(ev.record.current);
    if !Scoped(ev.record.current) then d' == d
    else
      match ev.kind
      case EventRegistered => d' == Entered(d, k)
      case EventTransferred =>
        if Leaves(ev.record) then exists mid :: Left(d, KeyOf(LastFrom(ev.record)), mid) && d' == Entered(mid, k)
        else d' == Entered(d, k)
      case EventRetired => Left(d, k, d')
  }

  lemma LeftCounts(d: Dir, k: Key, d': Dir)
    requires Left(d, k, d')
    ensures d'.counts == Lower(d.counts, k)
  {
  }

  lemma FollowsCounts(d: Dir, ev: Event, d': Dir)
    requires Follows(d, ev, d')
    ensures d'.counts == Handled(d.counts, ev)
  {
    hide TenantNameFromRef, Left, Raise, Lower;
    if Scoped(ev.record.current) {
      if ev.kind == EventTransferred && Leaves(ev.record) {
        var mid :| Left(d, KeyOf(LastFrom(ev.record)), mid) && d' == Entered(mid, KeyOf(ev.record.current));
        LeftCounts(d, KeyOf(LastFrom(ev.record)), mid);
      } else if ev.kind == EventRetired {
        LeftCounts(d, KeyOf(ev.record.current), d');
      }
    }
  }

  // ----- the directory object -----

  class TenantEntry {
    const key: Key
    var entityCount: int

    constructor (key: Key)
      ensures this.key == key && entityCount == 0
    {
      this.key, entityCount := key, 0;
    }
  }

  class TenantDirectory {
    var byKey: map<Key, TenantEntry>
    var byName: map<string, TenantEntry>

    /** Each entry is filed under its own key, and names point at filed entries. */
    ghost predicate Filed()
      reads this
    {
      && (forall k :: k in byKey ==> byKey[k].key == k)
      && (forall n :: n in byName ==> byName[n].key in byKey && byKey[byName[n].key] == byName[n])
    }

    ghost predicate Positive()
      reads this, byKey.Values
    {
      forall k :: k in byKey ==> byKey[k].entityCount >= 1
    }

    ghost predicate Valid()
      reads this, byKey.Values
    {
      Filed() && Positive() && Sound(Abs())
    }

    ghost function CountsNow(): Counts
      reads this, byKey.Values
    {
      map k | k in byKey :: byKey[k].entityCount
    }

    ghost function Abs(): Dir
      reads this, byKey.Values
    {
      Dir(CountsNow(), map n | n in byName :: byName[n].key)
    }

    constructor ()
      ensures Valid() && byKey == map[] && byName == map[]
    {
      byKey, byName := map[], map[];
    }

    method UpdateByName(name: string, candidate: TenantEntry)
      requires Filed() && candidate.key in byKey && byKey[candidate.key] == candidate
               && candidate.key.tenantName == name
      modifies this
      ensures byKey == old(byKey) && Filed()
      ensures Abs() == Promote(old(Abs()), candidate.key)
    {
      ghost var d := Abs();
      if name !in byName || candidate.entityCount >= byName[name].entityCount {
        byName := byName[name := candidate];
        assert Abs().names == d.names[name := candidate.key];
      }
    }

    /** Rebuilt from byKey in any order: each name gets an entry with the most entities. */
    method RebuildByName()
      requires forall k :: k in byKey ==> byKey[k].key == k
      modifies this
      ensures byKey == old(byKey) && Filed()
      ensures CountsNow() == old(CountsNow()) && Largest(Abs())
    {
      hide BestOf, Promote, Largest;
      byName := map[];
      NothingVisited(Abs());
      var todo := byKey.Keys;
      ghost var seen: set<Key> := {};
      while todo != {}
        invariant byKey == old(byKey) && todo + seen == byKey.Keys && Filed()
        invariant BestOf(Abs(), seen)
      {
        var k :| k in todo;
        PromoteKeepsBest(Abs(), seen, k);
        UpdateByName(k.tenantName, byKey[k]);
        todo, seen := todo - {k}, seen + {k};
      }
      assert seen == Abs().counts.Keys;
      BestIsLargest(Abs());
    }

    method GetOrCreate(k: Key) returns (entry: TenantEntry)
      requires Filed()
      modifies this
      ensures Filed() && byName == old(byName) && k in byKey && byKey[k] == entry
      ensures if k in old(byKey) then entry == old(byKey)[k] else fresh(entry) && entry.entityCount == 0
      ensures byKey == old(byKey)[k := entry]
    {
      if k in byKey {
        return byKey[k];
      }
      entry := new TenantEntry(k);
      byKey := byKey[k := entry];
    }

    method Increment(k: Key) returns (entry: TenantEntry)
      requires Filed() && Positive()
      modifies this, byKey.Values
      ensures Filed() && Positive() && byName == old(byName) && k in byKey && byKey[k] == entry
      ensures CountsNow() == Raise(old(CountsNow()), k)
      ensures forall e :: e in byKey.Values ==> e in old(byKey.Values) || fresh(e)
    {
      entry := GetOrCreate(k);
      assert forall j :: j in byKey && j != k ==> byKey[j] != entry;
      entry.entityCount := entry.entityCount + 1;
    }

    /** One entity more at `k`. */
    method Enter(k: Key)
      requires Valid()
      modifies this, byKey.Values
      ensures Valid() && Abs() == Entered(old(Abs()), k)
      ensures forall e :: e in byKey.Values ==> e in old(byKey.Values) || fresh(e)
    {
      hide Sound, Promote, Raise;
      ghost var d := Abs();
      EnteredSound(d, k);
      var entry := Increment(k);
      assert Abs() == Dir(Raise(d.counts, k), d.names);
      UpdateByName(k.tenantName, entry);
    }

    /** One entity less at `k`; the last one takes the entry with it. */
    method Leave(k: Key)
      requires Valid()
      modifies this, byKey.Values
      ensures Valid() && Left(old(Abs()), k, Abs())
      ensures byKey.Values <= old(byKey.Values)
    {
      hide Sound, Promote, Largest;
      if k !in byKey {
        return;
      }
      ghost var d := Abs();
      var entry := byKey[k];
      entry.entityCount := entry.entityCount - 1;
      if entry.entityCount <= 0 {
        byKey := byKey - {k};
        assert CountsNow() == Lower(d.counts, k);
        RebuildByName();
        LargestIsSound(Abs());
      } else {
        assert CountsNow() == Lower(d.counts, k);
        assert Abs().names == d.names;
        PromotedSound(d, Abs(), k);
        UpdateByName(k.tenantName, entry);
      }
    }

    method HandleEvent(ev: Event)
      requires Valid()
      modifies this, byKey.Values
      ensures Valid() && Follows(old(Abs()), ev, Abs())
      ensures forall e :: e in byKey.Values ==> e in old(byKey.Values) || fresh(e)
    {
      hide Sound, Promote, Left, TenantNameFromRef;
      ghost var d := Abs();
      var ref := ev.record.current;
      if TenantNameFromRef(ref) == "" {
        return;
      }
      var key := KeyOf(ref);
      match ev.kind {
        case EventRegistered =>
          Enter(key);
        case EventTransferred =>
          if |ev.record.history| > 0 {
            var fromRef := ev.record.history[|ev.record.history| - 1].from;
            if TenantNameFromRef(fromRef) != "" && KeyOf(fromRef) != key {
              Leave(KeyOf(fromRef));
              assert Left(d, KeyOf(LastFrom(ev.record)), Abs());
            }
          }
          Enter(key);
        case EventRetired =>
          Leave(key);
      }
    }
  }

  // ----- names -----

  /** Rebuilding half way: the names lead to the best of the keys `K` visited so far. */
  ghost predicate BestOf(d: Dir, K: set<Key>) {
    && (forall n :: n in d.names ==> d.names[n].tenantName == n && d.names[n] in d.counts && d.names[n] in K)
    && (forall k :: k in K ==> k.tenantName in d.names && Get(d.counts, k) <= Get(d.counts, d.names[k.tenantName]))
  }

  lemma NothingVisited(d: Dir)
    requires d.names == map[]
    ensures BestOf(d, {})
  {
  }

  lemma PromoteKeepsBest(d: Dir, K: set<Key>, k: Key)
    requires BestOf(d, K) && k in d.counts
    ensures BestOf(Promote(d, k), K + {k})
  {
  }

  lemma BestIsLargest(d: Dir)
    requires BestOf(d, d.counts.Keys)
    ensures Largest(d)
  {
  }

  lemma LargestIsSound(d: Dir)
    requires Largest(d)
    ensures Sound(d)
  {
  }

  lemma EnteredSound(d: Dir, k: Key)
    requires Sound(d)
    ensures Sound(Entered(d, k))
  {
  }

  lemma PromotedSound(d: Dir, d1: Dir, k: Key)
    requires Sound(d) && k in d.counts && d1.names == d.names && d1.counts.Keys == d.counts.Keys
    ensures Sound(Promote(d1, k))
  {
  }

  /** Adding an entity never spoils the choice of the largest entry. */
  lemma EnterKeepsLargest(d: Dir, k: Key)
    requires Largest(d) && forall x :: x in d.counts ==> d.counts[x] > 0
    ensures Largest(Entered(d, k))
  {
    forall x | x in Entered(d, k).counts
      ensures Entered(d, k).counts[x] <= Get(Entered(d, k).counts, Entered(d, k).names[x.tenantName])
    {
      if x != k {
        assert x in d.counts;
      }
    }
  }

  /**
   * Removing one spoils it exactly when the entry the name leads to loses an entity, keeps some, and
   * had an equal: nothing then looks for the entry that has overtaken it.
   */
  lemma LeaveKeepsLargestIff(d: Dir, k: Key, d': Dir)
    requires Largest(d) && Left(d, k, d') && k in d.counts && d.counts[k] > 0
    ensures Largest(d') <==>
            !(d.names[k.tenantName] == k && d.counts[k] > 1
              && exists x :: x in d.counts && x != k && x.tenantName == k.tenantName && d.counts[x] == d.counts[k])
  {
    if d.counts[k] > 1 {
      var c := Lower(d.counts, k);
      assert d'.counts == c && c.Keys == d.counts.Keys;
      if d.names[k.tenantName] == k {
        assert d'.names == d.names;
        forall x | x in d.counts && x != k && x.tenantName == k.tenantName
          ensures c[x] == d.counts[x] <= d.counts[k]
        {
        }
      } else {
        var top := d.names[k.tenantName];
        assert c[top] == d.counts[top] >= d.counts[k] > c[k];
        assert d' == Dir(c, d.names);
        assert forall x :: x in c ==> c[x] <= d.counts[x];
        forall x | x in c ensures c[x] <= Get(c, d.names[x.tenantName]) {
          assert d.counts[x] <= d.counts[d.names[x.tenantName]];
        }
      }
    }
  }

  // ----- agreement with a recount -----

  predicate Active(m: Records, id: GlobalId) {
    id in m && !m[id].retired && Scoped(m[id].current)
  }

  /** The active, scoped records at `k`. */
  function Recount(m: Records, k: Key): set<GlobalId> {
    set id | id in m && Active(m, id) && KeyOf(m[id].current) == k
  }

  /** Each count is the number of records at its key, and only positive counts are kept. */
  ghost predicate Agrees(m: Records, c: Counts) {
    && (forall k :: Get(c, k) == |Recount(m, k)|)
    && (forall k :: k in c ==> c[k] > 0)
  }

  /** Each count is too high by `drift` at its key. */
  ghost predicate Drifted(m: Records, c: Counts, drift: Key -> nat) {
    && (forall k :: Get(c, k) == |Recount(m, k)| + drift(k))
    && (forall k :: k in c ==> c[k] > 0)
  }

  /** byKey holds exactly the keys at which some active record lives. */
  lemma AgreeingKeys(m: Records, c: Counts, k: Key)
    requires Agrees(m, c)
    ensures k in c <==> Recount(m, k) != {}
  {
  }

  predicate LivesAt(rec: Record, k: Key) {
    !rec.retired && Scoped(rec.current) && KeyOf(rec.current) == k
  }

  lemma RecountSet(m: Records, id: GlobalId, rec: Record, k: Key)
    ensures Recount(m[id := rec], k) == Recount(m, k) - {id} + if LivesAt(rec, k) then {id} else {}
    ensures id in Recount(m, k) <==> id in m && LivesAt(m[id], k)
  {
  }

  /** What one write of one record does to one recount. */
  lemma RecountUpdate(m: Records, id: GlobalId, rec: Record, k: Key)
    ensures |Recount(m[id := rec], k)|
            == |Recount(m, k)| - (if id in m && LivesAt(m[id], k) then 1 else 0) + (if LivesAt(rec, k) then 1 else 0)
  {
    hide TenantNameFromRef, LivesAt, Recount;
    RecountSet(m, id, rec, k);
    var R := Recount(m, k);
    var kept := R - {id};
    assert |kept| == |R| - if id in R then 1 else 0 by {
      if id !in R {
        assert kept == R;
      }
    }
    if LivesAt(rec, k) {
      assert |kept + {id}| == |kept| + 1;
    } else {
      assert kept + {} == kept;
    }
  }

  lemma GetRaise(c: Counts, k: Key, j: Key)
    ensures Get(Raise(c, k), j) == Get(c, j) + if j == k then 1 else 0
  {
  }

  lemma GetLower(c: Counts, k: Key, j: Key)
    requires forall x :: x in c ==> c[x] > 0
    requires k in c
    ensures Get(Lower(c, k), j) == Get(c, j) - if j == k then 1 else 0
    ensures forall x :: x in Lower(c, k) ==> Lower(c, k)[x] > 0
  {
  }

  /** Transfers the counts do not follow: within one key, and from a scoped to an unscoped owner. */
  predicate Misleading(from: LocalRef, to: LocalRef) {
    Scoped(from) && (!Scoped(to) || KeyOf(from) == KeyOf(to))
  }

  /** The one event a successful call announces. */
  function Told(m: Records, op: Op, now: int): Event
    requires Verdict(m, op) == Ok
  {
    Event(KindOf(op), op.id, Written(m, op, now), now)
  }

  lemma RegisterKeepsDrift(m: Records, op: Op, now: int, c: Counts, drift: Key -> nat)
    requires Drifted(m, c, drift) && Verdict(m, op) == Ok && op.Register?
    ensures Drifted(Applied(m, op, now), Handled(c, Told(m, op, now)), drift)
  {
    hide TenantNameFromRef, Recount;
    var c' := Handled(c, Told(m, op, now));
    forall k
      ensures Get(c', k) == |Recount(Applied(m, op, now), k)| + drift(k)
    {
      assert Get(c, k) == |Recount(m, k)| + drift(k);
      RecountUpdate(m, op.id, Written(m, op, now), k);
      GetRaise(c, KeyOf(op.owner), k);
    }
    PositiveCounts(c, KeyOf(op.owner));
  }

  lemma RetireKeepsDrift(m: Records, op: Op, now: int, c: Counts, drift: Key -> nat)
    requires Drifted(m, c, drift) && Verdict(m, op) == Ok && op.Retire?
    ensures Drifted(Applied(m, op, now), Handled(c, Told(m, op, now)), drift)
  {
    hide TenantNameFromRef, Recount;
    var c' := Handled(c, Told(m, op, now));
    var k0 := KeyOf(m[op.id].current);
    if Scoped(m[op.id].current) {
      PresentKey(m, c, drift, op.id);
    }
    forall k
      ensures Get(c', k) == |Recount(Applied(m, op, now), k)| + drift(k)
    {
      assert Get(c, k) == |Recount(m, k)| + drift(k);
      RecountUpdate(m, op.id, Written(m, op, now), k);
      if Scoped(m[op.id].current) {
        GetLower(c, k0, k);
      }
    }
    if Scoped(m[op.id].current) {
      GetLower(c, k0, k0);
    }
  }

  lemma PresentKey(m: Records, c: Counts, drift: Key -> nat, id: GlobalId)
    requires Drifted(m, c, drift) && Active(m, id)
    ensures KeyOf(m[id].current) in c
  {
    var k := KeyOf(m[id].current);
    assert id in Recount(m, k);
    assert Get(c, k) == |Recount(m, k)| + drift(k);
  }

  /** What a transfer event does to each count, whatever the transfer. */
  lemma TransferCounts(m: Records, op: Op, now: int, c: Counts, drift: Key -> nat, k: Key)
    requires Drifted(m, c, drift) && Verdict(m, op) == Ok && op.Transfer?
    ensures Get(Handled(c, Told(m, op, now)), k)
            == Get(c, k)
             - (if Scoped(op.from) && Scoped(op.to) && KeyOf(op.to) != KeyOf(op.from) == k then 1 else 0)
             + (if Scoped(op.to) && k == KeyOf(op.to) then 1 else 0)
    ensures forall x :: x in Handled(c, Told(m, op, now)) ==> Handled(c, Told(m, op, now))[x] > 0
  {
    hide TenantNameFromRef, Recount, Raise, Lower;
    var rec := Told(m, op, now).record;
    assert LastFrom(rec) == op.from && rec.current == op.to;
    var c1 := if Leaves(rec) then Lower(c, KeyOf(op.from)) else c;
    if Leaves(rec) {
      PresentKey(m, c, drift, op.id);
      GetLower(c, KeyOf(op.from), k);
    }
    GetRaise(c1, KeyOf(op.to), k);
    PositiveCounts(c1, KeyOf(op.to));
  }

  lemma PositiveCounts(c: Counts, k: Key)
    requires forall x :: x in c ==> c[x] > 0
    ensures forall x :: x in Raise(c, k) ==> Raise(c, k)[x] > 0
  {
  }

  function Misled(from: LocalRef, to: LocalRef, k: Key): nat {
    if Misleading(from, to) && k == KeyOf(from) then 1 else 0
  }

  /** A misleading transfer leaves the count of the key it leaves one too high, for good. */
  lemma TransferAddsDrift(m: Records, op: Op, now: int, c: Counts, drift: Key -> nat, drift': Key -> nat)
    requires Drifted(m, c, drift) && Verdict(m, op) == Ok && op.Transfer?
    requires forall k :: drift'(k) == drift(k) + Misled(op.from, op.to, k)
    ensures Drifted(Applied(m, op, now), Handled(c, Told(m, op, now)), drift')
  {
    hide TenantNameFromRef, Recount, Handled;
    var m', c' := Applied(m, op, now), Handled(c, Told(m, op, now));
    forall k
      ensures Get(c', k) == |Recount(m', k)| + drift'(k)
    {
      assert Get(c, k) == |Recount(m, k)| + drift(k);
      RecountUpdate(m, op.id, Written(m, op, now), k);
      TransferCounts(m, op, now, c, drift, k);
    }
    TransferCounts(m, op, now, c, drift, KeyOf(op.from));
  }

  lemma NoDriftIsAgreement(m: Records, c: Counts, drift: Key -> nat)
    requires Drifted(m, c, drift)
    ensures Agrees(m, c) <==> forall k :: drift(k) == 0
  {
    hide Recount;
    if Agrees(m, c) {
      forall k ensures drift(k) == 0 {
        assert Get(c, k) == |Recount(m, k)| + drift(k);
      }
    }
  }

  /** After one transfer the counts still agree exactly when the transfer is not a misleading one. */
  lemma TransferAgreesIff(m: Records, op: Op, now: int, c: Counts)
    requires Agrees(m, c) && Verdict(m, op) == Ok && op.Transfer?
    ensures Agrees(Applied(m, op, now), Handled(c, Told(m, op, now))) <==> !Misleading(op.from, op.to)
  {
    hide TenantNameFromRef, Recount, Handled, KeyOf;
    var drift := (k: Key) => Misled(op.from, op.to, k);
    assert Drifted(m, c, (k: Key) => 0);
    TransferAddsDrift(m, op, now, c, (k: Key) => 0, drift);
    NoDriftIsAgreement(Applied(m, op, now), Handled(c, Told(m, op, now)), drift);
    assert Misleading(op.from, op.to) ==> drift(KeyOf(op.from)) == 1;
  }

  // ----- whole runs -----

  datatype Timed = Timed(op: Op, now: int)

  function RecordsAfter(ops: seq<Timed>): Records {
    if ops == [] then map[]
    else Applied(RecordsAfter(ops[..|ops| - 1]), ops[|ops| - 1].op, ops[|ops| - 1].now)
  }

  /** Every event of the run, in order. */
  function EventsOf(ops: seq<Timed>): seq<Event> {
    if ops == [] then []
    else EventsOf(ops[..|ops| - 1]) + Announced(RecordsAfter(ops[..|ops| - 1]), ops[|ops| - 1].op, ops[|ops| - 1].now)
  }

  function CountsAfter(evs: seq<Event>): Counts {
    if evs == [] then map[] else Handled(CountsAfter(evs[..|evs| - 1]), evs[|evs| - 1])
  }

  /** No successful transfer of the run is misleading. */
  predicate WellScoped(ops: seq<Timed>) {
    ops == []
    || (WellScoped(ops[..|ops| - 1])
        && var last := ops[|ops| - 1].op;
           (last.Transfer? && Verdict(RecordsAfter(ops[..|ops| - 1]), last) == Ok ==> !Misleading(last.from, last.to)))
  }

  /** How many successful transfers of the run out of `k` were misleading. */
  function DriftOf(ops: seq<Timed>, k: Key): nat {
    if ops == [] then 0
    else
      var n := |ops| - 1;
      var op := ops[n].op;
      DriftOf(ops[..n], k)
      + if op.Transfer? && Verdict(RecordsAfter(ops[..n]), op) == Ok then Misled(op.from, op.to, k) else 0
  }

  /**
   * After any run whatever, with each event handled once and in order, each count is the number of
   * active records at its key plus the misleading transfers out of it.
   */
  lemma {:induction false} CountsAreRecountPlusDrift(ops: seq<Timed>)
    ensures Drifted(RecordsAfter(ops), CountsAfter(EventsOf(ops)), k => DriftOf(ops, k))
  {
    hide Handled, Drifted, Verdict, Misled;
    if ops == [] {
      EmptyDrift(k => DriftOf(ops, k));
    } else {
      var n := |ops| - 1;
      CountsAreRecountPlusDrift(ops[..n]);
      var m, op, now := RecordsAfter(ops[..n]), ops[n].op, ops[n].now;
      var evs, c := EventsOf(ops[..n]), CountsAfter(EventsOf(ops[..n]));
      var before, after := (k: Key) => DriftOf(ops[..n], k), (k: Key) => DriftOf(ops, k);
      if Verdict(m, op) == Ok {
        assert EventsOf(ops) == evs + [Told(m, op, now)];
        assert (evs + [Told(m, op, now)])[..|evs|] == evs;
        if op.Transfer? {
          TransferAddsDrift(m, op, now, c, before, after);
        } else {
          if op.Register? {
            RegisterKeepsDrift(m, op, now, c, before);
          } else {
            RetireKeepsDrift(m, op, now, c, before);
          }
          SameDrift(Applied(m, op, now), Handled(c, Told(m, op, now)), before, after);
        }
      } else {
        assert EventsOf(ops) == evs + [] == evs;
        SameDrift(m, c, before, after);
      }
    }
  }

  lemma SameDrift(m: Records, c: Counts, drift: Key -> nat, drift': Key -> nat)
    requires Drifted(m, c, drift) && forall k :: drift'(k) == drift(k)
    ensures Drifted(m, c, drift')
  {
  }

  lemma EmptyDrift(drift: Key -> nat)
    requires forall k :: drift(k) == 0
    ensures Drifted(map[], map[], drift)
  {
    forall k ensures Get(map[], k) == |Recount(map[], k)| + drift(k) {
      assert Recount(map[], k) == {};
    }
  }

  lemma {:induction false} DriftlessIff(ops: seq<Timed>)
    ensures (forall k :: DriftOf(ops, k) == 0) <==> WellScoped(ops)
  {
    hide Verdict, Misleading, KeyOf;
    if ops != [] {
      var n := |ops| - 1;
      var op := ops[n].op;
      DriftlessIff(ops[..n]);
      if WellScoped(ops) {
        forall k ensures DriftOf(ops, k) == 0 {
          assert DriftOf(ops[..n], k) == 0;
        }
      } else if WellScoped(ops[..n]) {
        assert DriftOf(ops, KeyOf(op.from)) > 0;
      } else {
        var k :| DriftOf(ops[..n], k) > 0;
        assert DriftOf(ops, k) > 0;
      }
    }
  }

  /** The directory agrees with a recount exactly after the runs without a misleading transfer; nothing repairs one. */
  lemma DirectoryAgreesIff(ops: seq<Timed>)
    ensures Agrees(RecordsAfter(ops), CountsAfter(EventsOf(ops))) <==> WellScoped(ops)
  {
    hide DriftOf, WellScoped, RecordsAfter, CountsAfter, EventsOf, Recount;
    var m, c := RecordsAfter(ops), CountsAfter(EventsOf(ops));
    CountsAreRecountPlusDrift(ops);
    DriftlessIff(ops);
    forall k
      ensures Get(c, k) == |Recount(m, k)| + DriftOf(ops, k)
    {
    }
    if Agrees(m, c) {
      forall k ensures DriftOf(ops, k) == 0 {
        assert Get(c, k) == |Recount(m, k)|;
      }
    }
    if WellScoped(ops) {
      forall k ensures Get(c, k) == |Recount(m, k)| {
        assert DriftOf(ops, k) == 0;
      }
    }
  }

  /** The object after handling a whole stream: structurally sound, with the counts of the stream. */
  method FollowEvents(evs: seq<Event>) returns (d: TenantDirectory)
    ensures d.Valid() && d.CountsNow() == CountsAfter(evs)
  {
    hide Follows, Handled;
    d := new TenantDirectory();
    for i := 0 to |evs|
      invariant fresh(d) && fresh(d.byKey.Values)
      invariant d.Valid() && d.CountsNow() == CountsAfter(evs[..i])
    {
      ghost var before := d.Abs();
      d.HandleEvent(evs[i]);
      FollowsCounts(before, evs[i], d.Abs());
      assert evs[..i + 1][..i] == evs[..i];
    }
    assert evs[..|evs|] == evs;
  }

  // ----- byName is not always the largest entry -----

  /**
   * Two entities at each of two instances, then one leaves the second: the name still leads to the
   * second instance, which now holds fewer entities than the first.
   */
  lemma LocateMissesTheLargest(a: Key, b: Key, d: Dir)
    requires a != b && a.tenantName == b.tenantName
    requires Left(Entered(Entered(Entered(Entered(Dir(map[], map[]), a), a), b), b), b, d)
    ensures d.names[a.tenantName] == b && d.counts[b] < d.counts[a] && !Largest(d)
  {
  }
}
