/** The cutover of a hotswap: every active record of one tenant on one instance moves to the target. */
module Cutovers {
  import opened Registries
  import opened Directories
  import TenantIds

  datatype Place = Place(instanceUrl: string, tenantId: nat)

  /** The new owner keeps type and local ID; the tenant's name is not carried over. */
  function NewRef(current: LocalRef, target: Place): LocalRef {
    LocalRef(target.instanceUrl, target.tenantId, current.entityType, current.localId, "")
  }

  /** The same entity, under its type and its number, now at the target; one transfer more in its history. */
  predicate MovedTo(rec: Record, rec': Record, target: Place, protocol: string, now: int) {
    && rec'.current.instanceUrl == target.instanceUrl && rec'.current.tenantId == target.tenantId
    && rec'.current.entityType == rec.current.entityType && rec'.current.localId == rec.current.localId
    && rec'.history == rec.history + [Move(rec.current, rec'.current, now, protocol, "full")]
    && !rec'.retired && rec'.since == now && rec'.updatedAt == now && rec'.createdAt == rec.createdAt
  }

  predicate LivesIn(rec: Record, p: Place) {
    Listed(rec, p.instanceUrl, p.tenantId)
  }

  function MoveOp(id: GlobalId, rec: Record, target: Place, protocol: string): Op {
    Transfer(id, rec.current, NewRef(rec.current, target), protocol, "full")
  }

  /** The registry after the cutover, had nobody else touched it meanwhile. */
  function CutOver(m: Records, source: Place, target: Place, protocol: string, now: int): Records {
    map id | id in m :: if LivesIn(m[id], source) then Amended(m[id], MoveOp(id, m[id], target, protocol), now)
      else m[id]
  }

  /** Half way through: the first `n` of the listed records have moved. */
  ghost predicate Partly(m: Records, m': Records, ids: seq<GlobalId>, n: nat, target: Place, protocol: string,
                         now: int) {
    && n <= |ids| && m'.Keys == m.Keys
    && forall id :: id in m ==>
         m'[id] == if id in ids[..n] then Amended(m[id], MoveOp(id, m[id], target, protocol), now) else m[id]
  }

  lemma PartlyStep(m: Records, m': Records, ids: seq<GlobalId>, n: nat, target: Place, protocol: string, now: int)
    requires Partly(m, m', ids, n, target, protocol, now) && n < |ids| && ids[n] in m && ids[n] !in ids[..n]
    ensures ids[n] in m' && m'[ids[n]] == m[ids[n]]
    ensures Partly(m, m'[ids[n] := Amended(m[ids[n]], MoveOp(ids[n], m[ids[n]], target, protocol), now)], ids, n + 1,
                   target, protocol, now)
  {
  }

  /** Lists the tenant's records, then transfers them one by one; no transfer is refused. */
  method DriveCutover(reg: MemoryRegistry, source: Place, target: Place, protocol: string,
                      now: int) returns (transferred: nat)
    modifies reg
    ensures reg.records == CutOver(old(reg.records), source, target, protocol, now)
    ensures transferred == |Residents(old(reg.records), source)|
    ensures forall id :: id in old(reg.records) && LivesIn(old(reg.records)[id], source) ==>
              id in reg.records && MovedTo(old(reg.records)[id], reg.records[id], target, protocol, now)
  {
    var ids := reg.ListByInstanceAndTenant(source.instanceUrl, source.tenantId);
    ghost var m := reg.records;
    transferred := 0;
    for i := 0 to |ids|
      invariant Partly(m, reg.records, ids, i, target, protocol, now) && transferred == i
    {
      hide Partly;
      var id := ids[i];
      PartlyStep(m, reg.records, ids, i, target, protocol, now);
      var rec := reg.records[id];
      var r := reg.Transfer(id, rec.current, NewRef(rec.current, target), protocol, "full", now);
      if r == Ok {
        transferred := transferred + 1;
      }
    }
    assert ids[..|ids|] == ids;
    ListedCount(m, source, ids);
  }

  function Residents(m: Records, p: Place): set<GlobalId> {
    set id | id in m && LivesIn(m[id], p)
  }

  lemma ListedCount(m: Records, p: Place, ids: seq<GlobalId>)
    requires forall id :: id in ids <==> id in m && Listed(m[id], p.instanceUrl, p.tenantId)
    requires forall i, j :: 0 <= i < j < |ids| ==> ids[i] != ids[j]
    ensures |ids| == |Residents(m, p)|
  {
    SizeOfDistinct(ids);
    assert Residents(m, p) == (set id | id in ids);
  }

  lemma {:induction false} SizeOfDistinct(ids: seq<GlobalId>)
    requires forall i, j :: 0 <= i < j < |ids| ==> ids[i] != ids[j]
    ensures |set id | id in ids| == |ids|
  {
    if ids == [] {
      assert (set id | id in ids) == {};
    } else {
      var n := |ids| - 1;
      SizeOfDistinct(ids[..n]);
      assert ids == ids[..n] + [ids[n]];
      assert (set id | id in ids) == (set id | id in ids[..n]) + {ids[n]};
    }
  }

  /**
   * Nobody is left behind, lost or doubled: the source is empty, the target holds its own records and
   * all of the source's, and every other place is as it was.
   */
  lemma CutoverMovesEveryone(m: Records, source: Place, target: Place, protocol: string, now: int)
    requires source != target
    ensures var m' := CutOver(m, source, target, protocol, now);
            && Residents(m', source) == {}
            && Residents(m', target) == Residents(m, target) + Residents(m, source)
            && |Residents(m', target)| == |Residents(m, target)| + |Residents(m, source)|
            && forall p :: p != source && p != target ==> Residents(m', p) == Residents(m, p)
  {
  }

  /** Every moved record's history stays a chain, one move longer, ending at the target. */
  lemma CutoverKeepsChains(m: Records, source: Place, target: Place, protocol: string, now: int, id: GlobalId,
                           first: LocalRef)
    requires id in m && Chain(first, m[id].history, m[id].current)
    ensures var rec := CutOver(m, source, target, protocol, now)[id];
            Chain(first, rec.history, rec.current)
            && |rec.history| == |m[id].history| + if LivesIn(m[id], source) then 1 else 0
  {
  }

  /**
   * After a cutover to a scoped target the directory knows the tenant by its number, so a record that
   * was found under a name is found under it no longer, unless the name is that very number.
   */
  lemma CutoverForgetsTheName(current: LocalRef, target: Place)
    requires target.tenantId != 0 && Scoped(current)
    ensures TenantNameFromRef(NewRef(current, target)) == TenantNameFromRef(current)
       <==> TenantNameFromRef(current) == "tenant-" + TenantIds.Decimal(target.tenantId)
    ensures Misleading(current, NewRef(current, target))
       <==> (current.instanceUrl == target.instanceUrl
             && TenantNameFromRef(current) == "tenant-" + TenantIds.Decimal(target.tenantId))
  {
  }
}
