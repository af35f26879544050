/** What a run of registry calls comes to, told by the calls that were accepted and nothing else. */
module RegistryLaws {
  import opened Basics
  import opened Registries

  datatype Timed = Timed(op: Op, now: int)

  function After(ops: seq<Timed>): Records {
    if ops == [] then map[]
    else
      var n := |ops| - 1;
      Applied(After(ops[..n]), ops[n].op, ops[n].now)
  }

  /** The accepted calls on one record, in order. */
  function Taken(ops: seq<Timed>, id: GlobalId): seq<Timed> {
    if ops == [] then []
    else
      var n := |ops| - 1;
      Taken(ops[..n], id) + if ops[n].op.id == id && Verdict(After(ops[..n]), ops[n].op) == Ok then [ops[n]] else []
  }

  /** Whom the calls leave as the owner: the last one a transfer went to, or the first. */
  function OwnerAfter(calls: seq<Timed>): Option<LocalRef> {
    if calls == [] then None
    else
      match calls[|calls| - 1].op
      case Register(_, owner) => Some(owner)
      case Transfer(_, _, to, _, _) => Some(to)
      case Retire(_) => OwnerAfter(calls[..|calls| - 1])
  }

  /** A registration, then transfers, each from the owner of the moment, and at most one retirement at the end. */
  predicate IsLife(calls: seq<Timed>) {
    && calls != [] && calls[0].op.Register?
    && forall i :: 0 < i < |calls| ==> Follows(calls, i)
  }

  predicate Follows(calls: seq<Timed>, i: int)
    requires 0 < i < |calls|
  {
    match calls[i].op
    case Register(_, _) => false
    case Transfer(_, from, _, _, _) => !calls[i - 1].op.Retire? && OwnerAfter(calls[..i]) == Some(from)
    case Retire(_) => !calls[i - 1].op.Retire?
  }

  function MoveOf(c: Timed): Move
    requires c.op.Transfer?
  {
    Move(c.op.from, c.op.to, c.now, c.op.protocol, c.op.historyFrom)
  }

  /** The record says what the calls said: the owner, when, every transfer in order, and whether it is over. */
  predicate Tells(calls: seq<Timed>, rec: Record)
    requires IsLife(calls)
  {
    var last := calls[|calls| - 1];
    var moves := |calls| - if last.op.Retire? then 2 else 1;
    && OwnerAfter(calls) == Some(rec.current) && rec.createdAt == calls[0].now && rec.updatedAt == last.now
    && (rec.retired <==> last.op.Retire?)
    && moves >= 0 && |rec.history| == moves
    && (forall k :: 0 < k <= moves ==> calls[k].op.Transfer? && rec.history[k - 1] == MoveOf(calls[k]))
    && rec.since == calls[moves].now
  }

  /** One more accepted call on a record whose life the earlier ones tell. */
  lemma TellsOneMore(calls: seq<Timed>, rec: Record, c: Timed)
    requires IsLife(calls) && Tells(calls, rec) && !c.op.Register? && Objection(rec, c.op) == Ok
    ensures IsLife(calls + [c]) && Tells(calls + [c], Amended(rec, c.op, c.now))
  {
    var n, more := |calls|, calls + [c];
    assert more[..n] == calls;
    forall i | 0 < i < |more|
      ensures Follows(more, i)
    {
      if i < n {
        assert Follows(calls, i);
        assert more[..i] == calls[..i];
      }
    }
    assert IsLife(more);
    assert forall k :: 0 <= k < n ==> more[k] == calls[k];
    assert OwnerAfter(more) == Some(Amended(rec, c.op, c.now).current);
  }

  lemma TellsFirst(c: Timed)
    requires c.op.Register?
    ensures IsLife([c]) && Tells([c], Fresh(c.op.owner, c.now))
  {
  }

  lemma CallEffect(m: Records, c: Timed, id: GlobalId)
    ensures var m' := Applied(m, c.op, c.now);
            if c.op.id != id || Verdict(m, c.op) != Ok then (id in m' <==> id in m) && (id in m ==> m'[id] == m[id])
            else if c.op.Register? then id !in m && id in m' && m'[id] == Fresh(c.op.owner, c.now)
            else id in m && id in m' && Objection(m[id], c.op) == Ok && m'[id] == Amended(m[id], c.op, c.now)
  {
  }

  /** A record is there exactly if a call on it was accepted, and is then what the accepted calls tell. */
  lemma {:induction false} RecordIsItsCalls(ops: seq<Timed>, id: GlobalId)
    ensures id in After(ops) <==> Taken(ops, id) != []
    ensures id in After(ops) ==> IsLife(Taken(ops, id)) && Tells(Taken(ops, id), After(ops)[id])
  {
    hide Applied, Verdict, Objection, Amended, Fresh, IsLife, Tells;
    if ops != [] {
      var n := |ops| - 1;
      RecordIsItsCalls(ops[..n], id);
      CallEffect(After(ops[..n]), ops[n], id);
      if ops[n].op.id == id && Verdict(After(ops[..n]), ops[n].op) == Ok {
        if ops[n].op.Register? {
          TellsFirst(ops[n]);
          assert Taken(ops, id) == [ops[n]];
        } else {
          TellsOneMore(Taken(ops[..n], id), After(ops[..n])[id], ops[n]);
        }
      } else {
        assert Taken(ops, id) == Taken(ops[..n], id);
      }
    }
  }

  /** What the next call is answered, by the calls accepted before it. */
  lemma AnswersByCalls(ops: seq<Timed>, op: Op)
    ensures var calls, r := Taken(ops, op.id), Verdict(After(ops), op);
            if op.Register? then r == if calls == [] then Ok else ErrAlreadyExists
            else if calls == [] then r == ErrNotFound
            else if calls[|calls| - 1].op.Retire? then r == ErrRetired
            else if op.Transfer? && OwnerAfter(calls) != Some(op.from) then r == ErrInvalidTransfer
            else r == Ok
  {
    RecordIsItsCalls(ops, op.id);
  }

  /** An accepted call announces the record as it leaves it, under its own kind; a refused one nothing. */
  lemma AnnouncesWhatItLeaves(m: Records, op: Op, now: int)
    ensures Verdict(m, op) != Ok ==> Announced(m, op, now) == []
    ensures Verdict(m, op) == Ok ==>
              var kind :=
                if op.Register? then EventRegistered else if op.Transfer? then EventTransferred else EventRetired;
              op.id in Applied(m, op, now)
              && Announced(m, op, now) == [Event(kind, op.id, Applied(m, op, now)[op.id], now)]
  {
  }
}
