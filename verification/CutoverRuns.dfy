/**
 * The cutover among other registry calls. The records are listed once; then each is read and
 * transferred, and anything may happen to the registry between any two of those calls.
 */
module CutoverRuns {
  import opened Basics
  import opened Registries
  import opened Cutovers

  datatype Label =
    | Others(op: Op, now: int)  // somebody else's call
    | Get                       // the cutover reads the next listed record
    | Carry(now: int)           // and transfers it from the owner it read

  /** The registry and the cutover's progress through its list. */
  datatype State = State(m: Records, ids: seq<GlobalId>, next: nat, held: Option<LocalRef>, moved: nat)

  function Start(m: Records, ids: seq<GlobalId>): State {
    State(m, ids, 0, None, 0)
  }

  predicate Done(s: State) {
    s.next >= |s.ids|
  }

  function OwnOp(s: State, target: Place, protocol: string): Op
    requires !Done(s) && s.held.Some?
  {
    Transfer(s.ids[s.next], s.held.value, NewRef(s.held.value, target), protocol, "full")
  }

  /** A refused transfer is logged and passed over. */
  function Next(s: State, l: Label, target: Place, protocol: string): State {
    match l
    case Others(op, now) => s.(m := Applied(s.m, op, now))
    case Get =>
      if Done(s) || s.held.Some? then s
      else if s.ids[s.next] in s.m then s.(held := Some(s.m[s.ids[s.next]].current))
      else s.(next := s.next + 1)
    case Carry(now) =>
      if Done(s) || s.held.None? then s
      else
        var op := OwnOp(s, target, protocol);
        State(Applied(s.m, op, now), s.ids, s.next + 1, None, s.moved + if Verdict(s.m, op) == Ok then 1 else 0)
  }

  function After(s: State, ls: seq<Label>, target: Place, protocol: string): State {
    if ls == [] then s else Next(After(s, ls[..|ls| - 1], target, protocol), ls[|ls| - 1], target, protocol)
  }

  /** One transfer goes through exactly when the record is active and still where it was read. */
  lemma MoveGoesThroughIff(s: State, now: int, target: Place, protocol: string)
    requires !Done(s) && s.held.Some?
    ensures var id, s' := s.ids[s.next], Next(s, Carry(now), target, protocol);
            && (s'.moved == s.moved + 1 <==> id in s.m && !s.m[id].retired && s.m[id].current == s.held.value)
            && (s'.moved == s.moved + 1 ==> s'.m[id].current == NewRef(s.held.value, target))
            && (s'.moved != s.moved + 1 ==> s'.m == s.m)
  {
  }

  // ----- records that were not listed -----

  /** The registry had the cutover never run. */
  function WithoutCutover(m: Records, ls: seq<Label>): Records {
    if ls == [] then m
    else
      var before, l := WithoutCutover(m, ls[..|ls| - 1]), ls[|ls| - 1];
      if l.Others? then Applied(before, l.op, l.now) else before
  }

  predicate SameAt(m: Records, m': Records, id: GlobalId) {
    (id in m <==> id in m') && (id in m ==> m[id] == m'[id])
  }

  lemma SameAtStep(m: Records, m': Records, op: Op, now: int, id: GlobalId)
    requires SameAt(m, m', id)
    ensures SameAt(Applied(m, op, now), Applied(m', op, now), id)
  {
  }

  lemma OwnStepElsewhere(s: State, l: Label, target: Place, protocol: string, id: GlobalId)
    requires !l.Others? && id !in s.ids
    ensures SameAt(Next(s, l, target, protocol).m, s.m, id)
  {
  }

  lemma {:induction false} ListStays(s: State, ls: seq<Label>, target: Place, protocol: string)
    ensures After(s, ls, target, protocol).ids == s.ids
  {
    if ls != [] {
      ListStays(s, ls[..|ls| - 1], target, protocol);
    }
  }

  /**
   * In every interleaving a record that was not on the list ends as if the cutover had never run: in
   * particular one that is registered at the source, or moves there, after the listing stays behind.
   */
  lemma {:induction false} UnlistedRecordsAreLeft(m: Records, ids: seq<GlobalId>, ls: seq<Label>, target: Place,
                                                  protocol: string,
                                                  id: GlobalId)
    requires id !in ids
    ensures SameAt(After(Start(m, ids), ls, target, protocol).m, WithoutCutover(m, ls), id)
  {
    hide Applied, Next;
    if ls != [] {
      var before, l := ls[..|ls| - 1], ls[|ls| - 1];
      UnlistedRecordsAreLeft(m, ids, before, target, protocol, id);
      ListStays(Start(m, ids), before, target, protocol);
      var s := After(Start(m, ids), before, target, protocol);
      if l.Others? {
        OthersStep(s, l, target, protocol);
        SameAtStep(s.m, WithoutCutover(m, before), l.op, l.now, id);
      } else {
        OwnStepElsewhere(s, l, target, protocol, id);
      }
    }
  }

  lemma OthersStep(s: State, l: Label, target: Place, protocol: string)
    requires l.Others?
    ensures Next(s, l, target, protocol) == s.(m := Applied(s.m, l.op, l.now))
  {
  }

  /** A record that was not on the list is at the source in the end exactly if it is there without the cutover. */
  lemma LateArrivalStaysBehindIff(m: Records, ids: seq<GlobalId>, ls: seq<Label>, source: Place, target: Place,
                                  protocol: string, id: GlobalId)
    requires id !in ids
    ensures id in Residents(After(Start(m, ids), ls, target, protocol).m, source)
       <==> id in Residents(WithoutCutover(m, ls), source)
  {
    UnlistedRecordsAreLeft(m, ids, ls, target, protocol, id);
  }

  /** Such a run, from the empty registry: the list is empty, so the cutover is done before it starts. */
  lemma LateRegistrationExample(source: Place, target: Place, owner: LocalRef, protocol: string)
    requires owner.instanceUrl == source.instanceUrl && owner.tenantId == source.tenantId
    ensures var s := After(Start(map[], []), [Others(Register("g", owner), 0)], target, protocol);
            Done(s) && "g" in Residents(s.m, source)
  {
    var ls := [Others(Register("g", owner), 0)];
    assert ls[..0] == [];
    assert WithoutCutover(map[], ls) == map["g" := Fresh(owner, 0)];
    ListStays(Start(map[], []), ls, target, protocol);
    LateArrivalStaysBehindIff(map[], [], ls, source, target, protocol, "g");
  }

  // ----- records that were listed -----

  /** Nobody else calls the registry about `id`. */
  predicate LeavesAlone(ls: seq<Label>, id: GlobalId) {
    forall i :: 0 <= i < |ls| ==> ls[i].Others? && ls[i].op.id != id
  }

  lemma {:induction false} AloneStays(s: State, ls: seq<Label>, target: Place, protocol: string, id: GlobalId)
    requires LeavesAlone(ls, id)
    ensures After(s, ls, target, protocol) == s.(m := After(s, ls, target, protocol).m)
    ensures SameAt(After(s, ls, target, protocol).m, s.m, id)
  {
    if ls != [] {
      var n := |ls| - 1;
      assert forall i :: 0 <= i < n ==> ls[..n][i] == ls[i];
      AloneStays(s, ls[..n], target, protocol, id);
    }
  }

  /**
   * A listed record is moved from wherever it is when its turn comes, which need not be the source any
   * more: if nobody touches it between its reading and its transfer, it ends at the target.
   */
  lemma ListedRecordIsMovedFromAnywhere(s: State, between: seq<Label>, now: int, target: Place, protocol: string)
    requires !Done(s) && s.held.None? && s.ids[s.next] in s.m && !s.m[s.ids[s.next]].retired
    requires LeavesAlone(between, s.ids[s.next])
    ensures var id := s.ids[s.next];
            var read := Next(s, Get, target, protocol);
            var s' := Next(After(read, between, target, protocol), Carry(now), target, protocol);
            && id in s'.m && s'.m[id].current == NewRef(s.m[id].current, target) && s'.moved == s.moved + 1
            && s.m[id].history < s'.m[id].history && |s'.m[id].history| == |s.m[id].history| + 1
  {
    var id, read := s.ids[s.next], Next(s, Get, target, protocol);
    AloneStays(read, between, target, protocol, id);
    MoveGoesThroughIff(After(read, between, target, protocol), now, target, protocol);
  }
}
