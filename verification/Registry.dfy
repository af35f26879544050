/**
 * The ownership registry: one record per global ID, with the whole history of its transfers.
 * Timestamps are supplied by the caller, and global IDs are minted outside.
 */
module Registries {

  type GlobalId = string

  datatype LocalRef = LocalRef(instanceUrl: string, tenantId: nat, entityType: string, localId: int, tenantName: string)

  datatype Move = Move(from: LocalRef, to: LocalRef, at: int, protocol: string, historyFrom: string)

  datatype Record = Record(
    current: LocalRef,
    since: int,
    history: seq<Move>,
    retired: bool,
    createdAt: int,
    updatedAt: int)

  type Records = map<GlobalId, Record>

  datatype Op =
    | Register(id: GlobalId, owner: LocalRef)
    | Transfer(id: GlobalId, from: LocalRef, to: LocalRef, protocol: string, historyFrom: string)
    | Retire(id: GlobalId)

  datatype Outcome = Ok | ErrNotFound | ErrAlreadyExists | ErrRetired | ErrInvalidTransfer

  datatype EventKind = EventRegistered | EventTransferred | EventRetired

  datatype Event = Event(kind: EventKind, id: GlobalId, record: Record, at: int)

  // ----- what one call does -----

  /** Why a record refuses a transfer or a retirement. */
  function Objection(rec: Record, op: Op): Outcome
    requires !op.Register?
  {
    if rec.retired then ErrRetired
    else if op.Transfer? && rec.current != op.from then ErrInvalidTransfer
    else Ok
  }

  /** The record after a transfer or a retirement it does not refuse. */
  function Amended(rec: Record, op: Op, now: int): Record
    requires !op.Register?
  {
    match op
    case Transfer(_, from, to, protocol, historyFrom) =>
      rec.(history := rec.history + [Move(from, to, now, protocol, historyFrom)], current := to, since := now,
           updatedAt := now)
    case Retire(_) => rec.(retired := true, updatedAt := now)
  }

  function Fresh(owner: LocalRef, now: int): Record {
    Record(owner, now, [], false, now, now)
  }

  function Verdict(m: Records, op: Op): Outcome {
    if op.Register? then if op.id in m then ErrAlreadyExists else Ok
    else if op.id !in m then ErrNotFound
    else Objection(m[op.id], op)
  }

  /** The record a successful call leaves behind. */
  function Written(m: Records, op: Op, now: int): Record
    requires Verdict(m, op) == Ok
  {
    if op.Register? then Fresh(op.owner, now) else Amended(m[op.id], op, now)
  }

  function Applied(m: Records, op: Op, now: int): Records {
    if Verdict(m, op) == Ok then m[op.id := Written(m, op, now)] else m
  }

  function KindOf(op: Op): EventKind {
    match op
    case Register(_, _) => EventRegistered
    case Transfer(_, _, _, _, _) => EventTransferred
    case Retire(_) => EventRetired
  }

  /** A refused call announces nothing. */
  function Announced(m: Records, op: Op, now: int): seq<Event> {
    if Verdict(m, op) == Ok then [Event(KindOf(op), op.id, Written(m, op, now), now)] else []
  }

  // ----- the registry object -----

  class MemoryRegistry {
    var records: Records
    /** The events sent to subscribers, oldest first. */
    var published: seq<Event>

    constructor ()
      ensures records == map[] && published == []
    {
      records, published := map[], [];
    }

    method Register(id: GlobalId, owner: LocalRef, now: int) returns (r: Outcome)
      modifies this
      ensures r == Verdict(old(records), Op.Register(id, owner))
      ensures records == Applied(old(records), Op.Register(id, owner), now)
      ensures published == old(published) + Announced(old(records), Op.Register(id, owner), now)
    {
      if id in records {
        return ErrAlreadyExists;
      }
      var rec := Record(owner, now, [], false, now, now);
      records := records[id := rec];
      published := published + [Event(EventRegistered, id, rec, now)];
      return Ok;
    }

    method Resolve(id: GlobalId) returns (r: Outcome, owner: LocalRef)
      ensures r == if id !in records then ErrNotFound else if records[id].retired then ErrRetired else Ok
      ensures r == Ok ==> owner == records[id].current
    {
      owner := LocalRef("", 0, "", 0, "");
      if id !in records {
        return ErrNotFound, owner;
      }
      if records[id].retired {
        return ErrRetired, owner;
      }
      return Ok, records[id].current;
    }

    method Transfer(id: GlobalId, from: LocalRef, to: LocalRef, protocol: string, historyFrom: string, now: int)
      returns (r: Outcome)
      modifies this
      ensures r == Verdict(old(records), Op.Transfer(id, from, to, protocol, historyFrom))
      ensures records == Applied(old(records), Op.Transfer(id, from, to, protocol, historyFrom), now)
      ensures published
              == old(published) + Announced(old(records), Op.Transfer(id, from, to, protocol, historyFrom), now)
    {
      if id !in records {
        return ErrNotFound;
      }
      var rec := records[id];
      if rec.retired {
        return ErrRetired;
      }
      if rec.current != from {
        return ErrInvalidTransfer;
      }
      rec := rec.(history := rec.history + [Move(from, to, now, protocol, historyFrom)]);
      rec := rec.(current := to);
      rec := rec.(since := now);
      rec := rec.(updatedAt := now);
      records := records[id := rec];
      published := published + [Event(EventTransferred, id, rec, now)];
      return Ok;
    }

    method Retire(id: GlobalId, now: int) returns (r: Outcome)
      modifies this
      ensures r == Verdict(old(records), Op.Retire(id))
      ensures records == Applied(old(records), Op.Retire(id), now)
      ensures published == old(published) + Announced(old(records), Op.Retire(id), now)
    {
      if id !in records {
        return ErrNotFound;
      }
      var rec := records[id];
      if rec.retired {
        return ErrRetired;
      }
      rec := rec.(retired := true);
      rec := rec.(updatedAt := now);
      records := records[id := rec];
      published := published + [Event(EventRetired, id, rec, now)];
      return Ok;
    }

    /** Every active record of one tenant on one instance, each once; map order is arbitrary. */
    method ListByInstanceAndTenant(instanceUrl: string, tenantId: nat) returns (ids: seq<GlobalId>)
      ensures forall id :: id in ids <==> id in records && Listed(records[id], instanceUrl, tenantId)
      ensures forall i, j :: 0 <= i < j < |ids| ==> ids[i] != ids[j]
    {
      ids := [];
      var todo := records.Keys;
      while todo != {}
        invariant todo <= records.Keys
        invariant forall id :: id in ids <==> id in records.Keys - todo && Listed(records[id], instanceUrl, tenantId)
        invariant forall i, j :: 0 <= i < j < |ids| ==> ids[i] != ids[j]
      {
        var id :| id in todo;
        var rec := records[id];
        if !rec.retired && rec.current.instanceUrl == instanceUrl && rec.current.tenantId == tenantId {
          ids := ids + [id];
        }
        todo := todo - {id};
      }
    }
  }

  predicate Listed(rec: Record, instanceUrl: string, tenantId: nat) {
    !rec.retired && rec.current.instanceUrl == instanceUrl && rec.current.tenantId == tenantId
  }

  /**
   * A tenant name is documented as informational, but references are compared whole: a transfer whose
   * From agrees with the owner in everything else goes through exactly when the names agree as well.
   */
  lemma TenantNameDecidesTransfer(m: Records, op: Op)
    requires op.Transfer? && op.id in m && !m[op.id].retired
    requires op.from == m[op.id].current.(tenantName := op.from.tenantName)
    ensures Verdict(m, op) == Ok <==> op.from.tenantName == m[op.id].current.tenantName
    ensures Verdict(m, op) != Ok ==> Verdict(m, op) == ErrInvalidTransfer
  {
  }

  // ----- chains of owners -----

  /** The transfers lead from `first` to `last` without a gap. */
  predicate Chain(first: LocalRef, history: seq<Move>, last: LocalRef) {
    if history == [] then first == last
    else
      var n := |history| - 1;
      Chain(first, history[..n], history[n].from) && history[n].to == last
  }

  /** An accepted transfer extends the chain by its own move, whatever the chain was. */
  lemma AmendedKeepsChain(first: LocalRef, rec: Record, op: Op, now: int)
    requires !op.Register? && Objection(rec, op) == Ok && Chain(first, rec.history, rec.current)
    ensures Chain(first, Amended(rec, op, now).history, Amended(rec, op, now).current)
  {
  }

  /** The chain read link by link. */
  lemma {:induction false} ChainLinks(first: LocalRef, history: seq<Move>, last: LocalRef)
    requires Chain(first, history, last)
    ensures history != [] ==> history[0].from == first && history[|history| - 1].to == last
    ensures forall i :: 0 <= i < |history| - 1 ==> history[i].to == history[i + 1].from
  {
    if |history| > 0 {
      var n := |history| - 1;
      ChainLinks(first, history[..n], history[n].from);
      if n > 0 {
        assert history[..n][0] == history[0] && history[..n][n - 1] == history[n - 1];
        assert forall i :: 0 <= i < n ==> history[i] == history[..n][i];
      }
    }
  }
}
