/** Under which name an owner is filed, and what one event does to the counts, told without the keys' own functions. */
module DirectoryLaws {
  import opened Registries
  import opened Directories
  import TenantIds

  /** The owner is filed under this key: its instance, and its tenant's name, or number where it has no name. */
  predicate FiledUnder(ref: LocalRef, k: Key) {
    && ref.tenantId != 0 && k.instanceUrl == ref.instanceUrl
    && k.tenantName == if ref.tenantName == "" then "tenant-" + TenantIds.Decimal(ref.tenantId) else ref.tenantName
  }

  /** Owners of one instance are filed together exactly when both are scoped and go by the same name. */
  lemma FiledTogetherIff(a: LocalRef, b: LocalRef)
    requires a.instanceUrl == b.instanceUrl && a.tenantId != 0 && b.tenantId != 0
    ensures (exists k :: FiledUnder(a, k) && FiledUnder(b, k))
       <==> || (a.tenantName != "" && a.tenantName == b.tenantName)
            || (a.tenantName == "" && b.tenantName == "" && a.tenantId == b.tenantId)
            || (a.tenantName == "" && b.tenantName == "tenant-" + TenantIds.Decimal(a.tenantId))
            || (b.tenantName == "" && a.tenantName == "tenant-" + TenantIds.Decimal(b.tenantId))
  {
    assert FiledUnder(a, KeyOf(a)) && FiledUnder(b, KeyOf(b));
    TenantIds.DecimalReadsBack(a.tenantId);
    TenantIds.DecimalReadsBack(b.tenantId);
    var p, x, y := "tenant-", TenantIds.Decimal(a.tenantId), TenantIds.Decimal(b.tenantId);
    assert (p + x)[7..] == x && (p + y)[7..] == y;
  }

  /** What a key counts; a key without an entry counts nothing. */
  function CountAt(d: Dir, k: Key): int {
    if k in d.counts then d.counts[k] else 0
  }

  /** A registration counts the record under its owner's name, which then leads to it or to a larger entry. */
  lemma RegistrationIsFiled(d: Dir, ev: Event, d': Dir, k: Key)
    requires Sound(d) && Follows(d, ev, d') && ev.kind == EventRegistered
    ensures ev.record.current.tenantId == 0 ==> d' == d
    ensures FiledUnder(ev.record.current, k) ==>
              && CountAt(d', k) == CountAt(d, k) + 1 && (forall j :: j != k ==> CountAt(d', j) == CountAt(d, j))
              && k.tenantName in d'.names
              && (d'.names[k.tenantName] == k || CountAt(d', d'.names[k.tenantName]) > CountAt(d', k))
    ensures forall n, j :: FiledUnder(ev.record.current, j) && n != j.tenantName ==>
              (n in d'.names <==> n in d.names) && (n in d.names ==> d'.names[n] == d.names[n])
  {
  }

  /** A transfer between two names takes one from the old name's key and adds one at the new. */
  lemma TransferIsRefiled(d: Dir, ev: Event, d': Dir, from: Key, to: Key)
    requires Follows(d, ev, d') && ev.kind == EventTransferred && ev.record.history != []
    requires FiledUnder(LastFrom(ev.record), from) && FiledUnder(ev.record.current, to) && from != to
    requires forall k :: k in d.counts ==> d.counts[k] >= 1
    ensures CountAt(d', to) == CountAt(d, to) + 1
    ensures CountAt(d', from) == if from in d.counts then CountAt(d, from) - 1 else 0
    ensures forall k :: k != from && k != to ==> CountAt(d', k) == CountAt(d, k)
  {
    hide Follows, Promote, Left;
    FollowsCounts(d, ev, d');
  }

  /** A retirement takes one from its owner's key, and the entry with the last. */
  lemma RetirementIsTakenOff(d: Dir, ev: Event, d': Dir, k: Key)
    requires Follows(d, ev, d') && ev.kind == EventRetired && FiledUnder(ev.record.current, k)
    requires forall j :: j in d.counts ==> d.counts[j] >= 1
    ensures CountAt(d', k) == if k in d.counts then CountAt(d, k) - 1 else 0
    ensures k in d'.counts <==> CountAt(d, k) > 1
    ensures forall j :: j != k ==> CountAt(d', j) == CountAt(d, j)
  {
    FollowsCounts(d, ev, d');
  }
}
