/**
 * The remote registry: each Transfer or Retire reads a document, amends its copy, and saves it with
 * the version it read. Any number of calls are in flight, and their steps interleave in any order.
 * The successful saves, in the order in which they hit the store, are a sequential MemoryRegistry run.
 */
module RegistryRefinement {
  import opened Registries

  type CallId = nat

  datatype Doc = Doc(rec: Record, version: nat)

  datatype Finish =
    | Succeeded
    | Refused(why: Outcome)   // by the checks on the copy that was read
    | Conflict                // by the store: the version had moved on
    | Failed                  // the request did not reach the store
    | ReplyLost               // the store wrote, the caller saw an error

  datatype Call =
    | Started(op: Op)
    | Holding(op: Op, read: Record, version: nat, now: int)
    | Ended(op: Op, finish: Finish, version: nat)

  /** One write as the store saw it. */
  datatype Entry = Entry(call: CallId, op: Op, now: int, version: nat)

  datatype Sys = Sys(store: map<GlobalId, Doc>, calls: map<CallId, Call>, log: seq<Entry>)

  datatype Label =
    | Create(call: CallId, id: GlobalId, owner: LocalRef, now: int, version: nat)
    | Begin(call: CallId, op: Op)
    | Read(call: CallId, now: int)
    | ReadFails(call: CallId)
    | Save(call: CallId, newVersion: nat)
    | SaveReplyLost(call: CallId, newVersion: nat)
    | SaveFails(call: CallId)

  const Initial: Sys := Sys(map[], map[], [])

  /** Save is conditional when a version is sent, and a version of 0 is left out of the request. */
  predicate StoreAccepts(doc: Doc, version: nat) {
    version == 0 || doc.version == version
  }

  function Ending(s: Sys, c: CallId, op: Op, finish: Finish, version: nat): Sys {
    s.(calls := s.calls[c := Ended(op, finish, version)])
  }

  function AfterRead(s: Sys, c: CallId, op: Op, now: int): Sys
    requires !op.Register?
  {
    if op.id !in s.store then Ending(s, c, op, Refused(ErrNotFound), 0)
    else
      var doc := s.store[op.id];
      var why := Objection(doc.rec, op);
      if why != Ok then Ending(s, c, op, Refused(why), doc.version)
      else s.(calls := s.calls[c := Holding(op, doc.rec, doc.version, now)])
  }

  function AfterSave(s: Sys, c: CallId, h: Call, newVersion: nat, finish: Finish): Sys
    requires h.Holding? && !h.op.Register?
  {
    if h.op.id !in s.store || !StoreAccepts(s.store[h.op.id], h.version) then Ending(s, c, h.op, Conflict, h.version)
    else
      Sys(s.store[h.op.id := Doc(Amended(h.read, h.op, h.now), newVersion)],
          s.calls[c := Ended(h.op, finish, h.version)],
          s.log + [Entry(c, h.op, h.now, h.version)])
  }

  /** A step whose call is not at the right point does nothing. */
  function Next(s: Sys, l: Label): Sys {
    match l
    case Create(c, id, owner, now, version) =>
      if c in s.calls || id in s.store then s
      else Sys(s.store[id := Doc(Fresh(owner, now), version)],
               s.calls[c := Ended(Register(id, owner), Succeeded, 0)],
               s.log + [Entry(c, Register(id, owner), now, 0)])
    case Begin(c, op) => if c in s.calls || op.Register? then s else s.(calls := s.calls[c := Started(op)])
    case Read(c, now) =>
      if c in s.calls && s.calls[c].Started? && !s.calls[c].op.Register? then AfterRead(s, c, s.calls[c].op, now) else s
    case ReadFails(c) => if c in s.calls && s.calls[c].Started? then Ending(s, c, s.calls[c].op, Failed, 0) else s
    case Save(c, v) => if Ready(s, c) then AfterSave(s, c, s.calls[c], v, Succeeded) else s
    case SaveReplyLost(c, v) => if Ready(s, c) then AfterSave(s, c, s.calls[c], v, ReplyLost) else s
    case SaveFails(c) => if Ready(s, c) then Ending(s, c, s.calls[c].op, Failed, s.calls[c].version) else s
  }

  predicate Ready(s: Sys, c: CallId) {
    c in s.calls && s.calls[c].Holding? && !s.calls[c].op.Register?
  }

  /** The store's own promise: versions start at 1 and grow on each write. */
  predicate Growing(s: Sys, l: Label) {
    match l
    case Create(_, _, _, _, version) => version >= 1
    case Save(c, v) => Ready(s, c) && s.calls[c].op.id in s.store ==> v > s.store[s.calls[c].op.id].version
    case SaveReplyLost(c, v) => Ready(s, c) && s.calls[c].op.id in s.store ==> v > s.store[s.calls[c].op.id].version
    case _ => true
  }

  function After(ls: seq<Label>): Sys {
    if ls == [] then Initial else Next(After(ls[..|ls| - 1]), ls[|ls| - 1])
  }

  predicate GrowingRun(ls: seq<Label>) {
    ls == [] || (GrowingRun(ls[..|ls| - 1]) && Growing(After(ls[..|ls| - 1]), ls[|ls| - 1]))
  }

  // ----- the sequential run -----

  function Replay(log: seq<Entry>): Records {
    if log == [] then map[] else Applied(Replay(log[..|log| - 1]), log[|log| - 1].op, log[|log| - 1].now)
  }

  /** Every entry succeeds when its turn comes. */
  predicate Sequential(log: seq<Entry>) {
    log == [] || (Sequential(log[..|log| - 1]) && Verdict(Replay(log[..|log| - 1]), log[|log| - 1].op) == Ok)
  }

  function Contents(store: map<GlobalId, Doc>): Records {
    map id | id in store :: store[id].rec
  }

  lemma ReplayOneMore(log: seq<Entry>, e: Entry)
    ensures Replay(log + [e]) == Applied(Replay(log), e.op, e.now)
    ensures Sequential(log + [e]) <==> Sequential(log) && Verdict(Replay(log), e.op) == Ok
  {
    assert (log + [e])[..|log|] == log;
  }

  // ----- the invariant -----

  /** What an in-flight call holds is what the store held at that version. */
  predicate CopyOk(s: Sys, call: Call) {
    && !call.op.Register?
    && (call.Holding? ==>
        && call.op.id in s.store
        && 1 <= call.version <= s.store[call.op.id].version
        && Objection(call.read, call.op) == Ok
        && (call.version == s.store[call.op.id].version ==> s.store[call.op.id].rec == call.read))
  }

  ghost predicate CopiesOk(s: Sys) {
    forall c :: c in s.calls && !s.calls[c].Ended? ==> CopyOk(s, s.calls[c])
  }

  predicate Wrote(f: Finish) {
    f.Succeeded? || f.ReplyLost?
  }

  /** A call is in the log exactly when it ended with a write, and then exactly once. */
  ghost predicate LogIsWriters(s: Sys) {
    && (forall c :: c in s.calls && s.calls[c].Ended? && Wrote(s.calls[c].finish) ==>
        exists i :: 0 <= i < |s.log| && s.log[i].call == c)
    && (forall i :: 0 <= i < |s.log| ==>
          var c := s.log[i].call;
          c in s.calls && s.calls[c].Ended? && Wrote(s.calls[c].finish) && s.calls[c].op == s.log[i].op
          && s.calls[c].version == s.log[i].version)
    && (forall i, j :: 0 <= i < j < |s.log| ==> s.log[i].call != s.log[j].call)
  }

  /** Later writes to a record used later versions, all behind the stored one. */
  ghost predicate VersionsOk(s: Sys) {
    && (forall id :: id in s.store ==> s.store[id].version >= 1)
    && (forall i :: 0 <= i < |s.log| ==>
        s.log[i].op.id in s.store && s.log[i].version < s.store[s.log[i].op.id].version)
    && (forall i, j :: 0 <= i < j < |s.log| && s.log[i].op.id == s.log[j].op.id ==> s.log[i].version < s.log[j].version)
  }

  /** A stale copy has been overtaken by a write at its own version. */
  ghost predicate StaleHasWinner(s: Sys) {
    forall c :: c in s.calls && Stale(s, s.calls[c]) ==> HasWinner(s.log, s.calls[c].op.id, s.calls[c].version)
  }

  predicate Stale(s: Sys, call: Call) {
    || (call.Ended? && call.finish.Conflict?)
    || (call.Holding? && call.op.id in s.store && call.version != s.store[call.op.id].version)
  }

  ghost predicate HasWinner(log: seq<Entry>, id: GlobalId, version: nat) {
    exists i :: 0 <= i < |log| && log[i].op.id == id && log[i].version == version && !log[i].op.Register?
  }

  ghost predicate Refines(s: Sys) {
    Sequential(s.log) && Contents(s.store) == Replay(s.log)
  }

  ghost predicate Inv(s: Sys) {
    Refines(s) && CopiesOk(s) && LogIsWriters(s) && VersionsOk(s) && StaleHasWinner(s)
  }

  // ----- what each step keeps -----

  /** A step that only moves one call and writes nothing. */
  lemma QuietStep(s: Sys, s': Sys, c: CallId)
    requires Inv(s) && s'.store == s.store && s'.log == s.log
    requires c in s'.calls && s'.calls == s.calls[c := s'.calls[c]]
    requires c in s.calls ==> !s.calls[c].Ended?
    requires s'.calls[c].Ended? ==> !Wrote(s'.calls[c].finish)
    requires !s'.calls[c].Ended? ==> CopyOk(s', s'.calls[c])
    requires Stale(s', s'.calls[c]) ==> HasWinner(s.log, s'.calls[c].op.id, s'.calls[c].version)
    ensures Inv(s')
  {
    hide Replay, Sequential, HasWinner, Objection;
    assert CopiesOk(s');
    assert StaleHasWinner(s') by {
      forall x | x in s'.calls && Stale(s', s'.calls[x])
        ensures HasWinner(s'.log, s'.calls[x].op.id, s'.calls[x].version) {
        if x != c {
          assert Stale(s, s.calls[x]);
        }
      }
    }
  }

  /** What a write by call `c` does to the bookkeeping around it. */
  lemma WriteStep(s: Sys, s': Sys, c: CallId, e: Entry, doc: Doc, finish: Finish)
    requires Inv(s) && e.call == c && Wrote(finish)
    requires c in s.calls ==> !s.calls[c].Ended?
    requires s' == Sys(s.store[e.op.id := doc], s.calls[c := Ended(e.op, finish, e.version)], s.log + [e])
    requires doc.version > e.version
    requires if e.op.Register? then e.op.id !in s.store
             else e.op.id in s.store && e.version == s.store[e.op.id].version
    requires Verdict(Replay(s.log), e.op) == Ok && doc.rec == Written(Replay(s.log), e.op, e.now)
    ensures Inv(s')
  {
    hide Replay, Sequential, HasWinner, Objection, Amended;
    ReplayOneMore(s.log, e);
    assert Refines(s') by {
      assert Contents(s'.store) == Contents(s.store)[e.op.id := doc.rec];
    }
    CopiesAfterWrite(s, s', c, e, doc, finish);
    LogAfterWrite(s, s', c, e, doc, finish);
    assert VersionsOk(s') by {
      VersionsAfterWrite(s, s', c, e, doc, finish);
    }
    StaleAfterWrite(s, s', c, e, doc, finish);
  }

  lemma CopiesAfterWrite(s: Sys, s': Sys, c: CallId, e: Entry, doc: Doc, finish: Finish)
    requires CopiesOk(s) && doc.version > e.version
    requires s' == Sys(s.store[e.op.id := doc], s.calls[c := Ended(e.op, finish, e.version)], s.log + [e])
    requires if e.op.Register? then e.op.id !in s.store
             else e.op.id in s.store && e.version == s.store[e.op.id].version
    ensures CopiesOk(s')
  {
    hide Objection;
    forall x | x in s'.calls && !s'.calls[x].Ended? ensures CopyOk(s', s'.calls[x]) {
      assert CopyOk(s, s.calls[x]);
    }
  }

  lemma LogAfterWrite(s: Sys, s': Sys, c: CallId, e: Entry, doc: Doc, finish: Finish)
    requires LogIsWriters(s) && e.call == c && Wrote(finish)
    requires c in s.calls ==> !s.calls[c].Ended?
    requires s' == Sys(s.store[e.op.id := doc], s.calls[c := Ended(e.op, finish, e.version)], s.log + [e])
    ensures LogIsWriters(s')
  {
    forall x | x in s'.calls && s'.calls[x].Ended? && Wrote(s'.calls[x].finish)
      ensures exists i :: 0 <= i < |s'.log| && s'.log[i].call == x
    {
      if x == c {
        assert s'.log[|s.log|].call == x;
      } else {
        var i :| 0 <= i < |s.log| && s.log[i].call == x;
        assert s'.log[i].call == x;
      }
    }
  }

  lemma VersionsAfterWrite(s: Sys, s': Sys, c: CallId, e: Entry, doc: Doc, finish: Finish)
    requires VersionsOk(s) && doc.version > e.version
    requires s' == Sys(s.store[e.op.id := doc], s.calls[c := Ended(e.op, finish, e.version)], s.log + [e])
    requires if e.op.Register? then e.op.id !in s.store
             else e.op.id in s.store && e.version == s.store[e.op.id].version
    ensures VersionsOk(s')
  {
  }

  lemma StaleAfterWrite(s: Sys, s': Sys, c: CallId, e: Entry, doc: Doc, finish: Finish)
    requires StaleHasWinner(s) && CopiesOk(s) && Wrote(finish)
    requires s' == Sys(s.store[e.op.id := doc], s.calls[c := Ended(e.op, finish, e.version)], s.log + [e])
    requires if e.op.Register? then e.op.id !in s.store
             else e.op.id in s.store && e.version == s.store[e.op.id].version
    ensures StaleHasWinner(s')
  {
    hide Objection;
    forall x | x in s'.calls && Stale(s', s'.calls[x])
      ensures HasWinner(s'.log, s'.calls[x].op.id, s'.calls[x].version) {
      var call := s.calls[x];
      if Stale(s, call) {
        var i :| 0 <= i < |s.log| && s.log[i].op.id == call.op.id
          && s.log[i].version == call.version && !s.log[i].op.Register?;
        assert s'.log[i] == s.log[i];
      } else {
        assert CopyOk(s, call);
        assert s'.log[|s.log|] == e;
      }
    }
  }

  lemma ReplayedRecord(s: Sys, id: GlobalId)
    requires Refines(s)
    ensures id in Replay(s.log) <==> id in s.store
    ensures id in s.store ==> Replay(s.log)[id] == s.store[id].rec
  {
    hide Replay, Sequential;
    assert id in Contents(s.store) <==> id in s.store;
  }

  lemma SaveKeeps(s: Sys, c: CallId, v: nat, finish: Finish)
    requires Inv(s) && Ready(s, c) && Wrote(finish)
    requires s.calls[c].op.id in s.store ==> v > s.store[s.calls[c].op.id].version
    ensures Inv(AfterSave(s, c, s.calls[c], v, finish))
  {
    hide Replay, Sequential, HasWinner, Objection, Amended, LogIsWriters, VersionsOk;
    var h := s.calls[c];
    assert CopyOk(s, h);
    ReplayedRecord(s, h.op.id);
    var s' := AfterSave(s, c, h, v, finish);
    if h.version == s.store[h.op.id].version {
      WriteStep(s, s', c, Entry(c, h.op, h.now, h.version), s'.store[h.op.id], finish);
    } else {
      assert Stale(s, h);
      QuietStep(s, s', c);
    }
  }

  lemma ReadKeeps(s: Sys, c: CallId, now: int)
    requires Inv(s) && c in s.calls && s.calls[c].Started? && !s.calls[c].op.Register?
    ensures Inv(AfterRead(s, c, s.calls[c].op, now))
  {
    hide Replay, Sequential, HasWinner, Objection, LogIsWriters;
    QuietStep(s, AfterRead(s, c, s.calls[c].op, now), c);
  }

  lemma CreateKeeps(s: Sys, c: CallId, id: GlobalId, owner: LocalRef, now: int, version: nat)
    requires Inv(s) && c !in s.calls && id !in s.store && version >= 1
    ensures Inv(Next(s, Create(c, id, owner, now, version)))
  {
    hide Replay, Sequential, HasWinner, LogIsWriters, VersionsOk, CopiesOk, StaleHasWinner;
    ReplayedRecord(s, id);
    WriteStep(s, Next(s, Create(c, id, owner, now, version)), c, Entry(c, Register(id, owner), now, 0),
              Doc(Fresh(owner, now), version), Succeeded);
  }

  lemma NextKeeps(s: Sys, l: Label)
    requires Inv(s) && Growing(s, l)
    ensures Inv(Next(s, l))
  {
    hide Inv, AfterRead, AfterSave;
    var c, s' := l.call, Next(s, l);
    match l
    case Create(_, id, owner, now, version) =>
      if c !in s.calls && id !in s.store {
        CreateKeeps(s, c, id, owner, now, version);
      }
    case Begin(_, op) =>
      if c !in s.calls && !op.Register? {
        QuietStep(s, s', c);
      }
    case Read(_, now) =>
      if c in s.calls && s.calls[c].Started? && !s.calls[c].op.Register? {
        ReadKeeps(s, c, now);
      }
    case ReadFails(_) =>
      if c in s.calls && s.calls[c].Started? {
        QuietStep(s, s', c);
      }
    case Save(_, v) =>
      if Ready(s, c) {
        SaveKeeps(s, c, v, Succeeded);
      }
    case SaveReplyLost(_, v) =>
      if Ready(s, c) {
        SaveKeeps(s, c, v, ReplyLost);
      }
    case SaveFails(_) =>
      if Ready(s, c) {
        QuietStep(s, s', c);
      }
  }

  lemma {:induction false} EveryInterleavingKeeps(ls: seq<Label>)
    requires GrowingRun(ls)
    ensures Inv(After(ls))
  {
    hide Next;
    if ls == [] {
      assert Contents(Initial.store) == map[];
    } else {
      hide Inv, Growing;
      EveryInterleavingKeeps(ls[..|ls| - 1]);
      NextKeeps(After(ls[..|ls| - 1]), ls[|ls| - 1]);
    }
  }

  // ----- main results -----

  /**
   * In every interleaving the writes, in the order in which the store took them, are a sequential
   * MemoryRegistry run in which every call succeeds, and it ends in the same records.
   */
  lemma WritesAreASequentialRun(ls: seq<Label>)
    requires GrowingRun(ls)
    ensures Sequential(After(ls).log)
    ensures Replay(After(ls).log) == Contents(After(ls).store)
  {
    EveryInterleavingKeeps(ls);
  }

  /** The log holds exactly the calls that wrote, once each; with no reply lost, exactly the successful ones. */
  lemma LogIsExactlyTheSuccesses(ls: seq<Label>, c: CallId)
    requires GrowingRun(ls)
    requires forall i :: 0 <= i < |ls| ==> !ls[i].SaveReplyLost?
    ensures var s := After(ls);
            (exists i :: 0 <= i < |s.log| && s.log[i].call == c)
              <==> (c in s.calls && s.calls[c].Ended? && s.calls[c].finish.Succeeded?)
    ensures var s := After(ls);
            forall i, j :: 0 <= i < |s.log| && 0 <= j < |s.log| && s.log[i].call == c == s.log[j].call ==> i == j
  {
    EveryInterleavingKeeps(ls);
    NoReplyLost(ls, c);
  }

  predicate LostReply(s: Sys, c: CallId) {
    c in s.calls && s.calls[c].Ended? && s.calls[c].finish.ReplyLost?
  }

  lemma OnlyOneLosesReplies(s: Sys, l: Label, c: CallId)
    requires !l.SaveReplyLost? && !LostReply(s, c)
    ensures !LostReply(Next(s, l), c)
  {
  }

  lemma {:induction false} NoReplyLost(ls: seq<Label>, c: CallId)
    requires forall i :: 0 <= i < |ls| ==> !ls[i].SaveReplyLost?
    ensures !LostReply(After(ls), c)
  {
    hide Next, LostReply;
    if ls == [] {
      NothingLost(c);
    } else {
      var n := |ls| - 1;
      assert forall i :: 0 <= i < n ==> ls[..n][i] == ls[i];
      NoReplyLost(ls[..n], c);
      OnlyOneLosesReplies(After(ls[..n]), ls[n], c);
    }
  }

  lemma NothingLost(c: CallId)
    ensures !LostReply(Initial, c)
  {
  }

  /** A step at which a call fails, for any reason but a lost reply, leaves store and log alone. */
  lemma FailedCallsChangeNothing(s: Sys, l: Label)
    requires l.call in Next(s, l).calls && Next(s, l).calls[l.call].Ended? && !Wrote(Next(s, l).calls[l.call].finish)
    requires !(l.call in s.calls && s.calls[l.call].Ended?)
    ensures Next(s, l).store == s.store && Next(s, l).log == s.log
  {
  }

  /** Of all calls that saved over one version of one record, at most one won. */
  lemma OneWinnerPerVersion(ls: seq<Label>, i: nat, j: nat)
    requires GrowingRun(ls)
    requires i < |After(ls).log| && j < |After(ls).log|
    requires After(ls).log[i].op.id == After(ls).log[j].op.id && After(ls).log[i].version == After(ls).log[j].version
    ensures i == j
  {
    EveryInterleavingKeeps(ls);
  }

  /** No call is turned away for nothing: behind every conflict there is a write over the same version. */
  lemma EveryConflictHasAWinner(ls: seq<Label>, c: CallId)
    requires GrowingRun(ls)
    requires c in After(ls).calls && After(ls).calls[c].Ended? && After(ls).calls[c].finish.Conflict?
    ensures HasWinner(After(ls).log, After(ls).calls[c].op.id, After(ls).calls[c].version)
  {
    EveryInterleavingKeeps(ls);
    assert Stale(After(ls), After(ls).calls[c]);
  }

  lemma AfterOneMore(ls: seq<Label>, l: Label)
    ensures After(ls + [l]) == Next(After(ls), l)
  {
    assert (ls + [l])[..|ls|] == ls;
  }

  /** Two calls have read the same document and are about to save. */
  function TwoReaders(t1: Op, t2: Op, owner: LocalRef): seq<Label> {
    [Create(0, "g", owner, 0, 0)] + [Begin(1, t1)] + [Begin(2, t2)] + [Read(1, 1)] + [Read(2, 2)]
  }

  lemma TwoReadersHold(t1: Op, t2: Op, owner: LocalRef)
    requires t1.Transfer? && t2.Transfer? && t1.id == "g" == t2.id && t1.from == owner == t2.from
    ensures After(TwoReaders(t1, t2, owner))
            == Sys(map["g" := Doc(Fresh(owner, 0), 0)],
                   map[0 := Ended(Register("g", owner), Succeeded, 0),
                       1 := Holding(t1, Fresh(owner, 0), 0, 1), 2 := Holding(t2, Fresh(owner, 0), 0, 2)],
                   [Entry(0, Register("g", owner), 0, 0)])
  {
    hide After;
    var c0: seq<Label> := [];
    var c1 := [Create(0, "g", owner, 0, 0)];
    var c2 := c1 + [Begin(1, t1)];
    var c3 := c2 + [Begin(2, t2)];
    assert After(c0) == Initial by {
      InitialIsEmpty();
    }
    AfterOneMore(c0, c1[0]);
    assert c0 + [c1[0]] == c1;
    AfterOneMore(c1, Begin(1, t1));
    AfterOneMore(c2, Begin(2, t2));
    AfterOneMore(c3, Read(1, 1));
    AfterOneMore(c3 + [Read(1, 1)], Read(2, 2));
  }

  lemma InitialIsEmpty()
    ensures After([]) == Initial
  {
  }

  /** With versions starting at 0 the save is unconditional, and two transfers by one owner both win. */
  lemma VersionZeroLosesATransfer(a: LocalRef, b: LocalRef, d: LocalRef)
    requires a != b
    ensures var s := After(TwoReaders(Transfer("g", a, b, "", ""), Transfer("g", a, d, "", ""), a) + [Save(1, 1)]
                           + [Save(2, 2)]);
            {1, 2} <= s.calls.Keys && s.calls[1].Ended? && s.calls[1].finish == Succeeded
            && s.calls[2].Ended? && s.calls[2].finish == Succeeded && !Sequential(s.log)
  {
    hide After, Replay, Sequential;
    var t1, t2 := Transfer("g", a, b, "", ""), Transfer("g", a, d, "", "");
    var e0, e1, e2 := Entry(0, Register("g", a), 0, 0), Entry(1, t1, 1, 0), Entry(2, t2, 2, 0);
    TwoReadersHold(t1, t2, a);
    var ls := TwoReaders(t1, t2, a);
    AfterOneMore(ls, Save(1, 1));
    AfterOneMore(ls + [Save(1, 1)], Save(2, 2));
    assert After(ls + [Save(1, 1)] + [Save(2, 2)]).log == [e0] + [e1] + [e2];
    SecondIsRefused(e0, e1, e2, a, b);
  }

  lemma SecondIsRefused(e0: Entry, e1: Entry, e2: Entry, a: LocalRef, b: LocalRef)
    requires a != b && e0.op == Register("g", a) && e1.op == Transfer("g", a, b, "", "")
    requires e2.op.Transfer? && e2.op.id == "g" && e2.op.from == a
    ensures !Sequential([e0] + [e1] + [e2])
  {
    hide Sequential, Replay;
    ReplayOneMore([], e0);
    assert [] + [e0] == [e0];
    assert Replay([]) == map[] by {
      NothingReplayed();
    }
    ReplayOneMore([e0], e1);
    ReplayOneMore([e0] + [e1], e2);
  }

  lemma NothingReplayed()
    ensures Replay([]) == map[]
  {
  }

  // ----- exactly when the store's versions are good enough -----

  /** Versions grow on each write, and every record starts at `first`. */
  predicate GrowingFrom(ls: seq<Label>, first: nat) {
    ls == []
    || var before, l := ls[..|ls| - 1], ls[|ls| - 1];
       GrowingFrom(before, first) && StartsAt(l, first) && Grows(After(before), l)
  }

  predicate StartsAt(l: Label, first: nat) {
    l.Create? ==> l.version == first
  }

  predicate Grows(s: Sys, l: Label) {
    (l.Save? || l.SaveReplyLost?) && Ready(s, l.call) && s.calls[l.call].op.id in s.store ==>
      l.newVersion > s.store[s.calls[l.call].op.id].version
  }

  lemma {:induction false} GrowingFromOne(ls: seq<Label>, first: nat)
    requires GrowingFrom(ls, first) && first >= 1
    ensures GrowingRun(ls)
  {
    hide Next;
    if ls != [] {
      GrowingFromOne(ls[..|ls| - 1], first);
    }
  }

  lemma GrowingOneMore(ls: seq<Label>, l: Label, first: nat)
    ensures GrowingFrom(ls + [l], first) <==> GrowingFrom(ls, first) && StartsAt(l, first) && Grows(After(ls), l)
  {
    assert (ls + [l])[..|ls|] == ls;
  }

  lemma TwoReadersGrow(t1: Op, t2: Op, owner: LocalRef)
    requires t1.Transfer? && t2.Transfer? && t1.id == "g" == t2.id && t1.from == owner == t2.from
    ensures GrowingFrom(TwoReaders(t1, t2, owner) + [Save(1, 1)] + [Save(2, 2)], 0)
  {
    hide After, GrowingFrom;
    var c0: seq<Label> := [];
    var c1 := c0 + [Create(0, "g", owner, 0, 0)];
    var c2 := c1 + [Begin(1, t1)];
    var c3 := c2 + [Begin(2, t2)];
    var c4 := c3 + [Read(1, 1)];
    assert GrowingFrom(c0, 0) by {
      NothingGrows();
    }
    GrowingOneMore(c0, Create(0, "g", owner, 0, 0), 0);
    GrowingOneMore(c1, Begin(1, t1), 0);
    GrowingOneMore(c2, Begin(2, t2), 0);
    GrowingOneMore(c3, Read(1, 1), 0);
    GrowingOneMore(c4, Read(2, 2), 0);
    var ls := TwoReaders(t1, t2, owner);
    assert c4 + [Read(2, 2)] == ls;
    TwoReadersHold(t1, t2, owner);
    GrowingOneMore(ls, Save(1, 1), 0);
    AfterOneMore(ls, Save(1, 1));
    GrowingOneMore(ls + [Save(1, 1)], Save(2, 2), 0);
  }

  lemma NothingGrows()
    ensures GrowingFrom([], 0)
  {
  }

  /** The remote registry refines the atomic one in every interleaving exactly when versions start above 0. */
  lemma RefinesIffVersionsStartAboveZero(first: nat)
    ensures (forall ls :: GrowingFrom(ls, first) ==> Sequential(After(ls).log)) <==> first >= 1
  {
    hide GrowingFrom, Sequential, After;
    if first >= 1 {
      forall ls | GrowingFrom(ls, first) ensures Sequential(After(ls).log) {
        GrowingFromOne(ls, first);
        WritesAreASequentialRun(ls);
      }
    } else {
      var a, b := LocalRef("a", 1, "", 1, ""), LocalRef("b", 1, "", 1, "");
      var t1, t2 := Transfer("g", a, b, "", ""), Transfer("g", a, a, "", "");
      assert a != b by {
        assert a.instanceUrl[0] != b.instanceUrl[0];
      }
      TwoReadersGrow(t1, t2, a);
      VersionZeroLosesATransfer(a, b, a);
    }
  }
}
