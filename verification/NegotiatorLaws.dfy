/** The course of a proposal over a whole run, told by the calls that were answered Done. */
module NegotiatorLaws {
  import opened Basics
  import opened Registries
  import opened Negotiators

  /** The last offer under this ID. */
  function Offered(acts: seq<Timed>, pid: ProposalId): Option<Timed> {
    if acts == [] then None
    else
      var n := |acts| - 1;
      if acts[n].act.Propose? && acts[n].act.pid == pid then Some(acts[n]) else Offered(acts[..n], pid)
  }

  predicate Concerns(a: Act, pid: ProposalId) {
    !a.Direct? && !a.Propose? && a.pid == pid
  }

  /** The calls on the proposal that were answered Done since it was last offered. */
  function Course(acts: seq<Timed>, pid: ProposalId): seq<Act> {
    if acts == [] then []
    else
      var n := |acts| - 1;
      var a := acts[n].act;
      if a.Propose? && a.pid == pid then []
      else Course(acts[..n], pid) + if Concerns(a, pid) && Answer(Run(acts[..n]), a) == Done then [a] else []
  }

  /** Nothing yet, or rejected, or cancelled, or accepted and then perhaps completed. */
  predicate Lawful(ds: seq<Act>) {
    || ds == []
    || (|ds| == 1 && (ds[0].Accept? || ds[0].Reject? || ds[0].Cancel?))
    || (|ds| == 2 && ds[0].Accept? && ds[1].Complete?)
  }

  function StateAfter(ds: seq<Act>): State {
    if ds == [] then Proposed
    else
      match ds[|ds| - 1]
      case Accept(_, _) => Accepted
      case Reject(_, _) => Rejected
      case Cancel(_) => Cancelled
      case _ => Completed
  }

  /** The proposal is as it was offered, and stands where its course has brought it. */
  predicate Stands(p: Proposal, offer: Timed, ds: seq<Act>)
    requires offer.act.Propose?
  {
    && p.id == offer.act.id && p.from == offer.act.from && p.to == offer.act.to && p.protocol == offer.act.protocol
    && p.proposedAt == offer.now
    && p.state == StateAfter(ds)
    && p.rejectionReason == (if ds != [] && ds[0].Reject? then ds[0].reason else "")
    && p.historyFrom == (if ds != [] && ds[0].Accept? then ds[0].historyFrom else "")
  }

  lemma {:induction false} OfferedIsAnOffer(acts: seq<Timed>, pid: ProposalId)
    ensures Offered(acts, pid).Some? ==>
              Offered(acts, pid).value.act.Propose? && Offered(acts, pid).value.act.pid == pid
  {
    if acts != [] {
      OfferedIsAnOffer(acts[..|acts| - 1], pid);
    }
  }

  lemma CourseStep(w: World, a: Act, now: int, pid: ProposalId, offer: Timed, ds: seq<Act>)
    requires pid in w.proposals && offer.act.Propose? && Stands(w.proposals[pid], offer, ds) && Lawful(ds)
    requires Concerns(a, pid) && Answer(w, a) == Done
    ensures pid in Next(w, a, now).proposals && Stands(Next(w, a, now).proposals[pid], offer, ds + [a])
    ensures Lawful(ds + [a])
  {
  }

  lemma OtherStep(w: World, a: Act, now: int, pid: ProposalId)
    requires !(a.Propose? && a.pid == pid) && !(Concerns(a, pid) && Answer(w, a) == Done)
    ensures pid in Next(w, a, now).proposals <==> pid in w.proposals
    ensures pid in w.proposals ==> Next(w, a, now).proposals[pid] == w.proposals[pid]
  {
  }

  /**
   * A proposal is known exactly if it was offered; its course is one of the lawful ones, and it stands where
   * that course leads, with the terms it was offered on.
   */
  lemma {:induction false} ProposalStands(acts: seq<Timed>, pid: ProposalId)
    ensures pid in Run(acts).proposals <==> Offered(acts, pid).Some?
    ensures pid in Run(acts).proposals ==>
              var offer := Offered(acts, pid).value;
              offer.act.Propose? && Lawful(Course(acts, pid))
              && Stands(Run(acts).proposals[pid], offer, Course(acts, pid))
    ensures pid !in Run(acts).proposals ==> Course(acts, pid) == []
  {
    hide Next, Answer, Stands, Lawful;
    if acts != [] {
      var n := |acts| - 1;
      var w, a, now := Run(acts[..n]), acts[n].act, acts[n].now;
      ProposalStands(acts[..n], pid);
      if a.Propose? && a.pid == pid {
        OfferStands(w, acts[n], pid);
      } else if Concerns(a, pid) && Answer(w, a) == Done {
        DoneIsKnown(w, a);
        CourseStep(w, a, now, pid, Offered(acts[..n], pid).value, Course(acts[..n], pid));
      } else {
        OtherStep(w, a, now, pid);
        assert Course(acts, pid) == Course(acts[..n], pid);
      }
    }
  }

  lemma DoneIsKnown(w: World, a: Act)
    requires !a.Direct? && !a.Propose? && Answer(w, a) == Done
    ensures a.pid in w.proposals
  {
  }

  lemma OfferStands(w: World, t: Timed, pid: ProposalId)
    requires t.act.Propose? && t.act.pid == pid
    ensures pid in Next(w, t.act, t.now).proposals && Stands(Next(w, t.act, t.now).proposals[pid], t, []) && Lawful([])
  {
  }

  /** What the next call on a proposal is answered, by its course so far and, for an acceptance, by the registry. */
  lemma AnswersByCourse(acts: seq<Timed>, a: Act)
    requires !a.Direct? && !a.Propose?
    ensures var ds, offer, r := Course(acts, a.pid), Offered(acts, a.pid), Answer(Run(acts), a);
            if offer.None? then r == ProposalNotFound
            else if a.Complete? then r == if |ds| == 1 && ds[0].Accept? then Done else WrongState
            else if ds != [] then r == WrongState
            else if a.Accept? && offer.value.act.Propose? then
              var o := offer.value.act;
              var v := Verdict(Run(acts).records, Transfer(o.id, o.from, o.to, o.protocol, a.historyFrom));
              r == if v == Ok then Done else RegistryRefused(v)
            else r == Done
  {
    ProposalStands(acts, a.pid);
    OfferedIsAnOffer(acts, a.pid);
  }

  /** An acceptance that is answered Done moves the offered record from the offered owner to the other, and no other. */
  lemma AcceptanceMovesAsOffered(acts: seq<Timed>, a: Act, now: int)
    requires a.Accept? && Answer(Run(acts), a) == Done
    ensures Offered(acts, a.pid).Some? && Offered(acts, a.pid).value.act.Propose?
    ensures var o := Offered(acts, a.pid).value.act;
            var m, m' := Run(acts).records, Next(Run(acts), a, now).records;
            && o.id in m && m[o.id].current == o.from && !m[o.id].retired
            && o.id in m' && m'[o.id].current == o.to
            && m'[o.id].history == m[o.id].history + [Move(o.from, o.to, now, o.protocol, a.historyFrom)]
            && m'.Keys == m.Keys && forall id :: id in m && id != o.id ==> m'[id] == m[id]
  {
    ProposalStands(acts, a.pid);
    OfferedIsAnOffer(acts, a.pid);
  }

  /** Once rejected or cancelled, a proposal is not accepted before it is offered again. */
  lemma NoAcceptanceAfterRefusal(acts: seq<Timed>, a: Act, now: int, more: seq<Timed>,
                                 historyFrom: string)
    requires (a.Reject? || a.Cancel?) && Answer(Run(acts), a) == Done
    requires forall i :: 0 <= i < |more| ==> !(more[i].act.Propose? && more[i].act.pid == a.pid)
    ensures Answer(Run(acts + [Timed(a, now)] + more), Accept(a.pid, historyFrom)) == WrongState
  {
    var all := acts + [Timed(a, now)] + more;
    RefusedCourse(acts, a, now, more);
    OfferStays(acts + [Timed(a, now)], more, a.pid);
    assert (acts + [Timed(a, now)])[..|acts|] == acts;
    DoneIsKnown(Run(acts), a);
    ProposalStands(acts, a.pid);
    AnswersByCourse(all, Accept(a.pid, historyFrom));
  }

  lemma {:induction false} OfferStays(acts: seq<Timed>, more: seq<Timed>, pid: ProposalId)
    requires forall i :: 0 <= i < |more| ==> !(more[i].act.Propose? && more[i].act.pid == pid)
    ensures Offered(acts + more, pid) == Offered(acts, pid)
    ensures Course(acts, pid) <= Course(acts + more, pid)
  {
    if more == [] {
      assert acts + more == acts;
    } else {
      var n := |more| - 1;
      assert (acts + more)[..|acts + more| - 1] == acts + more[..n];
      OfferStays(acts, more[..n], pid);
    }
  }

  lemma RefusedCourse(acts: seq<Timed>, a: Act, now: int, more: seq<Timed>)
    requires (a.Reject? || a.Cancel?) && Answer(Run(acts), a) == Done
    requires forall i :: 0 <= i < |more| ==> !(more[i].act.Propose? && more[i].act.pid == a.pid)
    ensures Course(acts + [Timed(a, now)] + more, a.pid) != []
  {
    OfferStays(acts + [Timed(a, now)], more, a.pid);
    assert (acts + [Timed(a, now)])[..|acts|] == acts;
  }
}
