/**
 * Transfer proposals: PROPOSED to ACCEPTED (which drives the registry transfer) to COMPLETED, or
 * PROPOSED to REJECTED or CANCELLED; and what every run of registry and negotiator calls keeps.
 */
module Negotiators {
  import opened Registries

  type ProposalId = string

  datatype State = Proposed | Accepted | Completed | Rejected | Cancelled

  datatype Proposal = Proposal(
    id: GlobalId,
    from: LocalRef,
    to: LocalRef,
    protocol: string,
    state: State,
    historyFrom: string,
    rejectionReason: string,
    proposedAt: int,
    updatedAt: int)

  datatype Reply = Done | ProposalNotFound | WrongState | RegistryRefused(why: Outcome)

  type Proposals = map<ProposalId, Proposal>

  datatype World = World(records: Records, proposals: Proposals)

  /** A direct registry call, or a negotiator call. */
  datatype Act =
    | Direct(op: Op)
    | Propose(pid: ProposalId, id: GlobalId, from: LocalRef, to: LocalRef, protocol: string)
    | Accept(pid: ProposalId, historyFrom: string)
    | Reject(pid: ProposalId, reason: string)
    | Cancel(pid: ProposalId)
    | Complete(pid: ProposalId)

  function Offer(a: Act, now: int): Proposal
    requires a.Propose?
  {
    Proposal(a.id, a.from, a.to, a.protocol, Proposed, "", "", now, now)
  }

  /** The registry call an acceptance makes. */
  function Drive(p: Proposal, historyFrom: string): Op {
    Transfer(p.id, p.from, p.to, p.protocol, historyFrom)
  }

  /** The state a proposal must be in for the call. */
  function Expected(a: Act): State {
    if a.Complete? then Accepted else Proposed
  }

  function Answer(w: World, a: Act): Reply {
    if a.Direct? || a.Propose? then Done
    else if a.pid !in w.proposals then ProposalNotFound
    else if w.proposals[a.pid].state != Expected(a) then WrongState
    else if a.Accept? && Verdict(w.records, Drive(w.proposals[a.pid], a.historyFrom)) != Ok
    then RegistryRefused(Verdict(w.records, Drive(w.proposals[a.pid], a.historyFrom)))
    else Done
  }

  function Settled(p: Proposal, a: Act, now: int): Proposal
    requires !a.Direct? && !a.Propose?
  {
    match a
    case Accept(_, historyFrom) => p.(state := Accepted, historyFrom := historyFrom, updatedAt := now)
    case Reject(_, reason) => p.(state := Rejected, rejectionReason := reason, updatedAt := now)
    case Cancel(_) => p.(state := Cancelled, updatedAt := now)
    case Complete(_) => p.(state := Completed, updatedAt := now)
  }

  function Next(w: World, a: Act, now: int): World {
    if a.Direct? then World(Applied(w.records, a.op, now), w.proposals)
    else if a.Propose? then World(w.records, w.proposals[a.pid := Offer(a, now)])
    else if Answer(w, a) != Done then w
    else
      World(if a.Accept? then Applied(w.records, Drive(w.proposals[a.pid], a.historyFrom), now) else w.records,
            w.proposals[a.pid := Settled(w.proposals[a.pid], a, now)])
  }

  // ----- the negotiator object -----

  class MemoryNegotiator {
    const reg: MemoryRegistry
    var proposals: Proposals

    ghost function Abs(): World
      reads this, reg
    {
      World(reg.records, proposals)
    }

    constructor (reg: MemoryRegistry)
      ensures this.reg == reg && proposals == map[]
    {
      this.reg := reg;
      proposals := map[];
    }

    /** An empty ID is replaced by a minted one; a known ID is overwritten. */
    method Propose(pid: ProposalId, minted: ProposalId, id: GlobalId, from: LocalRef, to: LocalRef, protocol: string,
                   now: int)
      modifies this
      ensures Abs() == Next(old(Abs()), Act.Propose(if pid == "" then minted else pid, id, from, to, protocol), now)
    {
      var key := if pid == "" then minted else pid;
      proposals := proposals[key := Proposal(id, from, to, protocol, Proposed, "", "", now, now)];
    }

    method Accept(pid: ProposalId, historyFrom: string, now: int) returns (r: Reply)
      modifies this, reg
      ensures r == Answer(old(Abs()), Act.Accept(pid, historyFrom))
      ensures Abs() == Next(old(Abs()), Act.Accept(pid, historyFrom), now)
    {
      if pid !in proposals {
        return ProposalNotFound;
      }
      var p := proposals[pid];
      if p.state != Proposed {
        return WrongState;
      }
      var moved := reg.Transfer(p.id, p.from, p.to, p.protocol, historyFrom, now);
      if moved != Ok {
        return RegistryRefused(moved);
      }
      p := p.(state := Accepted);
      p := p.(historyFrom := historyFrom);
      proposals := proposals[pid := p.(updatedAt := now)];
      return Done;
    }

    method Reject(pid: ProposalId, reason: string, now: int) returns (r: Reply)
      modifies this
      ensures r == Answer(old(Abs()), Act.Reject(pid, reason))
      ensures Abs() == Next(old(Abs()), Act.Reject(pid, reason), now)
    {
      if pid !in proposals {
        return ProposalNotFound;
      }
      var p := proposals[pid];
      if p.state != Proposed {
        return WrongState;
      }
      proposals := proposals[pid := p.(state := Rejected, rejectionReason := reason, updatedAt := now)];
      return Done;
    }

    method Cancel(pid: ProposalId, now: int) returns (r: Reply)
      modifies this
      ensures r == Answer(old(Abs()), Act.Cancel(pid))
      ensures Abs() == Next(old(Abs()), Act.Cancel(pid), now)
    {
      if pid !in proposals {
        return ProposalNotFound;
      }
      var p := proposals[pid];
      if p.state != Proposed {
        return WrongState;
      }
      proposals := proposals[pid := p.(state := Cancelled, updatedAt := now)];
      return Done;
    }

    method Complete(pid: ProposalId, now: int) returns (r: Reply)
      modifies this
      ensures r == Answer(old(Abs()), Act.Complete(pid))
      ensures Abs() == Next(old(Abs()), Act.Complete(pid), now)
    {
      if pid !in proposals {
        return ProposalNotFound;
      }
      var p := proposals[pid];
      if p.state != Accepted {
        return WrongState;
      }
      proposals := proposals[pid := p.(state := Completed, updatedAt := now)];
      return Done;
    }
  }

  // ----- runs -----

  datatype Timed = Timed(act: Act, now: int)

  function Run(acts: seq<Timed>): World {
    if acts == [] then World(map[], map[])
    else Next(Run(acts[..|acts| - 1]), acts[|acts| - 1].act, acts[|acts| - 1].now)
  }

  /** No proposal is made under an ID that is already in use. */
  predicate FreshIds(acts: seq<Timed>) {
    acts == []
    || (FreshIds(acts[..|acts| - 1])
        && (acts[|acts| - 1].act.Propose? ==> acts[|acts| - 1].act.pid !in Run(acts[..|acts| - 1]).proposals))
  }

  /** The owner a record was registered with. */
  function FirstOwner(acts: seq<Timed>, id: GlobalId): LocalRef
    requires id in Run(acts).records
  {
    var n := |acts| - 1;
    var before := Run(acts[..n]);
    if id in before.records then FirstOwner(acts[..n], id)
    else RegisteredBy(before, acts[n].act, acts[n].now, id); acts[n].act.op.owner
  }

  lemma RegisteredBy(w: World, a: Act, now: int, id: GlobalId)
    requires id !in w.records && id in Next(w, a, now).records
    ensures a.Direct? && a.op.Register? && a.op.id == id && Next(w, a, now).records[id] == Fresh(a.op.owner, now)
  {
  }

  /** The direct registry transfers of a record that succeeded. */
  function DirectTransfers(acts: seq<Timed>, id: GlobalId): nat {
    if acts == [] then 0
    else
      var n := |acts| - 1;
      var a := acts[n].act;
      DirectTransfers(acts[..n], id)
      + if a.Direct? && a.op.Transfer? && a.op.id == id && Verdict(Run(acts[..n]).records, a.op) == Ok then 1 else 0
  }

  predicate HasMoved(p: Proposal, id: GlobalId) {
    p.id == id && (p.state == Accepted || p.state == Completed)
  }

  /** The proposals whose acceptance moved the record. */
  function Movers(ps: Proposals, id: GlobalId): set<ProposalId> {
    set pid | pid in ps && HasMoved(ps[pid], id)
  }

  // ----- every record's history is a chain -----

  /** One call leaves a record as it is, registers it, or amends it without objection. */
  lemma RecordStep(w: World, a: Act, now: int, id: GlobalId)
    requires id in Next(w, a, now).records
    ensures id in w.records ==>
              var rec, rec' := w.records[id], Next(w, a, now).records[id];
              rec' == rec || exists op: Op :: !op.Register? && Objection(rec, op) == Ok && rec' == Amended(rec, op, now)
  {
  }

  /** The transfers of every record lead, without a gap, from the owner it was registered with to the current one. */
  lemma {:induction false} HistoryIsAChain(acts: seq<Timed>, id: GlobalId)
    requires id in Run(acts).records
    ensures Chain(FirstOwner(acts, id), Run(acts).records[id].history, Run(acts).records[id].current)
  {
    hide Chain, Next;
    var n := |acts| - 1;
    var before, a, now := Run(acts[..n]), acts[n].act, acts[n].now;
    if id in before.records {
      HistoryIsAChain(acts[..n], id);
      RecordStep(before, a, now, id);
      var rec, rec' := before.records[id], Run(acts).records[id];
      if rec' != rec {
        var op: Op :| !op.Register? && Objection(rec, op) == Ok && rec' == Amended(rec, op, now);
        AmendedKeepsChain(FirstOwner(acts, id), rec, op, now);
      }
    } else {
      RegisteredBy(before, a, now, id);
      EmptyChain(a.op.owner);
    }
  }

  lemma EmptyChain(owner: LocalRef)
    ensures Chain(owner, [], owner)
  {
  }

  // ----- what never changes -----

  lemma RetiredStep(w: World, a: Act, now: int, id: GlobalId)
    requires id in w.records && w.records[id].retired
    ensures id in Next(w, a, now).records && Next(w, a, now).records[id] == w.records[id]
  {
  }

  /** However a run goes on, a retired record stays exactly as it was. */
  lemma {:induction false} RetiredNeverChanges(acts: seq<Timed>, more: seq<Timed>, id: GlobalId)
    requires id in Run(acts).records && Run(acts).records[id].retired
    ensures id in Run(acts + more).records && Run(acts + more).records[id] == Run(acts).records[id]
  {
    hide Next;
    if more == [] {
      assert acts + more == acts;
    } else {
      var n := |more| - 1;
      RetiredNeverChanges(acts, more[..n], id);
      assert (acts + more)[..|acts + more| - 1] == acts + more[..n];
      RetiredStep(Run(acts + more[..n]), more[n].act, more[n].now, id);
    }
  }

  predicate Final(s: State) {
    s == Completed || s == Rejected || s == Cancelled
  }

  /** One call changes a settled proposal exactly when it proposes again under the same ID. */
  lemma SettledStepIff(w: World, a: Act, now: int, pid: ProposalId)
    requires pid in w.proposals && Final(w.proposals[pid].state)
    ensures pid in Next(w, a, now).proposals
    ensures Next(w, a, now).proposals[pid] != w.proposals[pid] <==> a.Propose? && a.pid == pid
  {
  }

  /** An accepted proposal can only complete. */
  lemma AcceptedStep(w: World, a: Act, now: int, pid: ProposalId)
    requires pid in w.proposals && w.proposals[pid].state == Accepted && !(a.Propose? && a.pid == pid)
    ensures pid in Next(w, a, now).proposals
    ensures Next(w, a, now).proposals[pid] == w.proposals[pid]
         || (a == Complete(pid)
             && Next(w, a, now).proposals[pid] == w.proposals[pid].(state := Completed, updatedAt := now))
  {
  }

  /** With fresh IDs a rejected, cancelled or completed proposal stays exactly as it was. */
  lemma {:induction false} SettledStaysSettled(acts: seq<Timed>, more: seq<Timed>, pid: ProposalId)
    requires FreshIds(acts + more)
    requires pid in Run(acts).proposals && Final(Run(acts).proposals[pid].state)
    ensures pid in Run(acts + more).proposals && Run(acts + more).proposals[pid] == Run(acts).proposals[pid]
  {
    hide Next;
    if more == [] {
      assert acts + more == acts;
    } else {
      var n := |more| - 1;
      assert (acts + more)[..|acts + more| - 1] == acts + more[..n];
      SettledStaysSettled(acts, more[..n], pid);
      SettledStepIff(Run(acts + more[..n]), more[n].act, more[n].now, pid);
    }
  }

  // ----- conservation: one history entry per accepted move -----

  lemma MoversUpdate(ps: Proposals, pid: ProposalId, p: Proposal, id: GlobalId)
    ensures Movers(ps[pid := p], id) == Movers(ps, id) - {pid} + if HasMoved(p, id) then {pid} else {}
  {
  }

  /** What one call with a fresh proposal ID adds to the history of `id`, and to the two counts. */
  function Gain(w: World, a: Act, id: GlobalId): nat {
    match a
    case Direct(op) => if op.Transfer? && op.id == id && Verdict(w.records, op) == Ok then 1 else 0
    case Accept(pid, _) => if Answer(w, a) == Done && w.proposals[pid].id == id then 1 else 0
    case _ => 0
  }

  function HistoryLength(m: Records, id: GlobalId): nat {
    if id in m then |m[id].history| else 0
  }

  lemma HistoryGain(w: World, a: Act, now: int, id: GlobalId)
    ensures HistoryLength(Next(w, a, now).records, id) == HistoryLength(w.records, id) + Gain(w, a, id)
  {
  }

  /** A proposal under the ID of a proposal that moved `id` overwrites it. */
  predicate Forgets(w: World, a: Act, id: GlobalId) {
    a.Propose? && a.pid in w.proposals && HasMoved(w.proposals[a.pid], id)
  }

  lemma MoversGain(w: World, a: Act, now: int, id: GlobalId)
    ensures |Movers(Next(w, a, now).proposals, id)| + (if Forgets(w, a, id) then 1 else 0)
            == |Movers(w.proposals, id)| + if a.Direct? then 0 else Gain(w, a, id)
  {
    hide Applied, Verdict, Movers;
    if !a.Direct? && Answer(w, a) == Done {
      var M, p := Movers(w.proposals, id), Next(w, a, now).proposals[a.pid];
      MoversUpdate(w.proposals, a.pid, p, id);
      MoversMember(w.proposals, a.pid, id);
      ReplacedSize(M, a.pid, HasMoved(p, id));
    }
  }

  lemma ReplacedSize(M: set<ProposalId>, pid: ProposalId, back: bool)
    ensures |M - {pid} + if back then {pid} else {}| == |M| - (if pid in M then 1 else 0) + if back then 1 else 0
  {
  }

  lemma MoversMember(ps: Proposals, pid: ProposalId, id: GlobalId)
    ensures pid in Movers(ps, id) <==> pid in ps && HasMoved(ps[pid], id)
  {
  }

  /** How often a run proposes under the ID of a proposal that had moved `id`. */
  function Forgotten(acts: seq<Timed>, id: GlobalId): nat {
    if acts == [] then 0
    else
      var n := |acts| - 1;
      Forgotten(acts[..n], id) + if Forgets(Run(acts[..n]), acts[n].act, id) then 1 else 0
  }

  /** In any run whatever, each history entry is a direct transfer, a remembered acceptance or a forgotten one. */
  lemma {:induction false} HistoryBalance(acts: seq<Timed>, id: GlobalId)
    ensures HistoryLength(Run(acts).records, id)
            == DirectTransfers(acts, id) + |Movers(Run(acts).proposals, id)| + Forgotten(acts, id)
  {
    hide Next, Movers, Verdict, HistoryLength, Forgets;
    if acts == [] {
      assert HistoryLength(map[], id) == 0 && Movers(map[], id) == {} by {
        NothingYet(id);
      }
    } else {
      var n := |acts| - 1;
      HistoryBalance(acts[..n], id);
      HistoryGain(Run(acts[..n]), acts[n].act, acts[n].now, id);
      MoversGain(Run(acts[..n]), acts[n].act, acts[n].now, id);
    }
  }

  lemma NothingYet(id: GlobalId)
    ensures HistoryLength(map[], id) == 0 && Movers(map[], id) == {}
  {
  }

  lemma {:induction false} FreshIdsForgetNothing(acts: seq<Timed>, id: GlobalId)
    requires FreshIds(acts)
    ensures Forgotten(acts, id) == 0
  {
    if acts != [] {
      FreshIdsForgetNothing(acts[..|acts| - 1], id);
    }
  }

  /**
   * With fresh proposal IDs, a record's history is exactly as long as its direct transfers plus its
   * accepted and completed proposals: no acceptance is lost or counted twice.
   */
  lemma HistoryIsConserved(acts: seq<Timed>, id: GlobalId)
    requires FreshIds(acts)
    ensures HistoryLength(Run(acts).records, id) == DirectTransfers(acts, id) + |Movers(Run(acts).proposals, id)|
  {
    HistoryBalance(acts, id);
    FreshIdsForgetNothing(acts, id);
  }

  /** Exactly the runs that never propose under the ID of a proposal that moved the record balance. */
  lemma HistoryIsConservedIff(acts: seq<Timed>, id: GlobalId)
    ensures HistoryLength(Run(acts).records, id) == DirectTransfers(acts, id) + |Movers(Run(acts).proposals, id)|
       <==> forall n :: 0 <= n < |acts| ==> !Forgets(Run(acts[..n]), acts[n].act, id)
  {
    HistoryBalance(acts, id);
    ForgottenIff(acts, id);
  }

  lemma {:induction false} ForgottenIff(acts: seq<Timed>, id: GlobalId)
    ensures Forgotten(acts, id) == 0 <==> forall n :: 0 <= n < |acts| ==> !Forgets(Run(acts[..n]), acts[n].act, id)
  {
    hide Forgets, Run;
    if acts != [] {
      var last := |acts| - 1;
      var before := acts[..last];
      ForgottenIff(before, id);
      forall n | 0 <= n < last
        ensures Forgets(Run(before[..n]), before[n].act, id) <==> Forgets(Run(acts[..n]), acts[n].act, id)
      {
        assert before[..n] == acts[..n];
      }
      if Forgotten(before, id) == 0 {
        assert forall n :: 0 <= n < last ==> !Forgets(Run(acts[..n]), acts[n].act, id);
      } else {
        var n :| 0 <= n < last && Forgets(Run(before[..n]), before[n].act, id);
        assert Forgets(Run(acts[..n]), acts[n].act, id);
      }
    }
  }
}
