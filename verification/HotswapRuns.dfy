/**
 * What the endings of the drivers come to over whole runs, told by labels and states: a failed step is
 * never completed, and what is complete was validated and cut over.
 */
module HotswapRuns {
  import opened Hotswaps

  predicate In(s: Sys, id: HotswapId, st: State) {
    id in s.hotswaps && s.hotswaps[id].state == st
  }

  predicate Had(s: Sys, id: HotswapId, st: State) {
    id in s.hotswaps && st in s.hotswaps[id].history
  }

  /** The label ends a running driver of the hotswap, with that result. */
  predicate Ends(s: Sys, l: Label, id: HotswapId, d: Driver, good: bool) {
    l.Finish? && l.good == good && l.task in s.tasks && s.tasks[l.task] == Task(id, d, true)
  }

  /** The step changed the hotswap. */
  predicate TakesEffect(s: Sys, l: Label, id: HotswapId) {
    id in s.hotswaps && id in Next(s, l).hotswaps && Next(s, l).hotswaps[id] != s.hotswaps[id]
  }

  // ----- histories only grow -----

  lemma StepExtends(s: Sys, l: Label, id: HotswapId)
    requires id in s.hotswaps
    ensures id in Next(s, l).hotswaps && s.hotswaps[id].history <= Next(s, l).hotswaps[id].history
  {
  }

  lemma {:induction false} RunExtends(ls: seq<Label>, more: seq<Label>, id: HotswapId)
    requires id in After(ls).hotswaps
    ensures id in After(ls + more).hotswaps
            && After(ls).hotswaps[id].history <= After(ls + more).hotswaps[id].history
  {
    hide Next;
    if more == [] {
      assert ls + more == ls;
    } else {
      var n := |more| - 1;
      assert (ls + more)[..|ls + more| - 1] == ls + more[..n];
      RunExtends(ls, more[..n], id);
      StepExtends(After(ls + more[..n]), more[n], id);
    }
  }

  /** A path of the diagram does not come from ROLLING_BACK to COMPLETE. */
  lemma {:induction false} RolledBackIsNeverComplete(h: seq<State>, i: nat)
    requires IsPath(h) && i < |h| && h[i] == RollingBack
    ensures Complete !in h
  {
    forall j | 0 <= j < |h|
      ensures h[j] != Complete
    {
      if j < i {
        assert Edge(h[j], h[j + 1]);
      } else if j > i {
        assert Edge(h[j - 1], h[j]);
        OnlyFailedFollows(h, i, j);
      }
    }
  }

  lemma PathStarts(h: seq<State>)
    requires IsPath(h)
    ensures |h| > 0 && h[0] == Requested
  {
  }

  lemma {:induction false} OnlyFailedFollows(h: seq<State>, i: nat, j: nat)
    requires IsPath(h) && i < j < |h| && h[i] == RollingBack
    ensures h[j] == Failed
    decreases j
  {
    assert Edge(h[j - 1], h[j]);
    if i < j - 1 {
      OnlyFailedFollows(h, i, j - 1);
    }
  }

  // ----- a bad ending -----

  /** A driver that ends badly and has an effect sends the hotswap into ROLLING_BACK. */
  lemma BadEndingStep(s: Sys, l: Label, id: HotswapId, d: Driver)
    requires Inv(s) && Ends(s, l, id, d, false) && d != Quiesce && d != Rollback && TakesEffect(s, l, id)
    ensures In(Next(s, l), id, RollingBack)
  {
  }

  /**
   * In a timely run, a migration, a validation or a cutover of the hotswap that ends badly and takes effect
   * leaves it in ROLLING_BACK, and however the run goes on, it is never COMPLETE.
   */
  lemma FailedStepIsNeverCompleted(ls: seq<Label>, l: Label, more: seq<Label>, id: HotswapId, d: Driver)
    requires TimelyRun(ls + [l] + more)
    requires Ends(After(ls), l, id, d, false) && d in {Migration, Validation, Cutover} && TakesEffect(After(ls), l, id)
    ensures In(After(ls + [l]), id, RollingBack) && !Had(After(ls + [l] + more), id, Complete)
  {
    hide Next, TakesEffect, Inv, IsPath, After, TimelyRun;
    TimelyPrefix(ls + [l], more);
    TimelyPrefix(ls, [l]);
    Sound(ls);
    Sound(ls + [l]);
    Sound(ls + [l] + more);
    AfterOneMore(ls, l);
    BadEndingStep(After(ls), l, id, d);
    RunExtends(ls + [l], more, id);
    var h := After(ls + [l]).hotswaps[id].history;
    var end := After(ls + [l] + more);
    HistoryOfInv(After(ls + [l]), id);
    HistoryOfInv(end, id);
    PathStarts(h);
    RolledBackIsNeverComplete(end.hotswaps[id].history, |h| - 1);
  }

  lemma Sound(ls: seq<Label>)
    requires TimelyRun(ls)
    ensures Inv(After(ls))
  {
    TimelyRunsAreSafe(ls);
    SafeRunsKeep(ls);
  }

  lemma {:induction false} TimelyPrefix(ls: seq<Label>, more: seq<Label>)
    requires TimelyRun(ls + more)
    ensures TimelyRun(ls)
  {
    hide AbortTimely;
    if more == [] {
      assert ls + more == ls;
    } else {
      assert (ls + more)[..|ls + more| - 1] == ls + more[..|more| - 1];
      TimelyPrefix(ls, more[..|more| - 1]);
    }
  }

  // ----- where CUTTING_OVER and COMPLETE come from -----

  /** At step `k` a driver of the hotswap ended with that result, and the hotswap went from one state to the other. */
  predicate EndedAt(ls: seq<Label>, k: int, id: HotswapId, d: Driver, good: bool, from: State, to: State) {
    && 0 <= k < |ls|
    && Ends(After(ls[..k]), ls[k], id, d, good)
    && In(After(ls[..k]), id, from) && In(After(ls[..k + 1]), id, to)
  }

  lemma EndedBefore(ls: seq<Label>, more: seq<Label>, k: int, id: HotswapId, d: Driver, good: bool,
                    from: State, to: State)
    requires EndedAt(ls, k, id, d, good, from, to)
    ensures EndedAt(ls + more, k, id, d, good, from, to)
  {
    assert (ls + more)[..k] == ls[..k] && (ls + more)[..k + 1] == ls[..k + 1];
  }

  /** A step leaves a hotswap alone, or records one more state; some states have one cause each. */
  lemma StepWrites(s: Sys, l: Label, id: HotswapId)
    requires Inv(s) && TakesEffect(s, l, id)
    ensures var h, h' := s.hotswaps[id], Next(s, l).hotswaps[id];
            && h'.history == h.history + [h'.state]
            && (h'.state == CuttingOver ==> Ends(s, l, id, Validation, true) && h.state == Validating)
            && (h'.state == Complete ==> Ends(s, l, id, Cutover, true) && h.state == CuttingOver)
            && (h'.state == Quiescing ==> l == Confirm(id) && h.state == Preparing)
            && (h'.state == RollingBack ==> l.Abort? || (l.Finish? && !l.good))
  {
    hide HistoryOk, OneActive, Driven;
    if l.Finish? && l.task in s.tasks {
      TaskHasHotswap(s, l.task);
    }
  }

  lemma RequestWrites(s: Sys, l: Label, id: HotswapId)
    requires id !in s.hotswaps && id in Next(s, l).hotswaps
    ensures var h := Next(s, l).hotswaps[id];
            && l.Request? && l.id == id
            && h == (if l.autoAdvance then Hotswap(l.source, Quiescing, [Requested, Preparing, Quiescing])
                     else Hotswap(l.source, Preparing, [Requested, Preparing]))
  {
  }

  /** The two states that only a good ending writes. */
  predicate Earned(d: Driver, from: State, to: State) {
    || (d == Validation && from == Validating && to == CuttingOver)
    || (d == Cutover && from == CuttingOver && to == Complete)
  }

  lemma {:induction false} WasEnded(ls: seq<Label>, id: HotswapId, d: Driver, from: State, to: State)
    requires TimelyRun(ls) && Had(After(ls), id, to) && Earned(d, from, to)
    ensures exists k :: EndedAt(ls, k, id, d, true, from, to)
  {
    hide Next, Inv, AbortTimely, EndedAt, Ends;
    if ls != [] {
      var n := |ls| - 1;
      var before, s, l := ls[..n], After(ls[..n]), ls[n];
      assert ls == before + [l];
      Sound(before);
      if Had(s, id, to) {
        WasEnded(before, id, d, from, to);
        var k :| EndedAt(before, k, id, d, true, from, to);
        EndedBefore(before, [l], k, id, d, true, from, to);
      } else if id in s.hotswaps {
        StepWrites(s, l, id);
        EndsHere(before, l, id, d, from, to);
      } else {
        RequestWrites(s, l, id);
      }
    }
  }

  lemma EndsHere(ls: seq<Label>, l: Label, id: HotswapId, d: Driver, from: State, to: State)
    requires Ends(After(ls), l, id, d, true) && In(After(ls), id, from) && In(After(ls + [l]), id, to)
    ensures EndedAt(ls + [l], |ls|, id, d, true, from, to)
  {
    hide After;
    assert (ls + [l])[..|ls|] == ls && (ls + [l])[..|ls| + 1] == ls + [l];
  }

  /**
   * In a timely run a hotswap that was ever CUTTING_OVER has passed a validation, and one that is COMPLETE
   * has, after that, ended its cutover well.
   */
  lemma CompleteWasEarned(ls: seq<Label>, id: HotswapId)
    requires TimelyRun(ls)
    ensures Had(After(ls), id, CuttingOver) ==>
              exists k :: EndedAt(ls, k, id, Validation, true, Validating, CuttingOver)
    ensures Had(After(ls), id, Complete) ==>
              exists j, k :: j < k && EndedAt(ls, j, id, Validation, true, Validating, CuttingOver)
                             && EndedAt(ls, k, id, Cutover, true, CuttingOver, Complete)
  {
    hide After, TimelyRun, EndedAt;
    if Had(After(ls), id, CuttingOver) {
      WasEnded(ls, id, Validation, Validating, CuttingOver);
    }
    if Had(After(ls), id, Complete) {
      WasEnded(ls, id, Cutover, CuttingOver, Complete);
      var k :| EndedAt(ls, k, id, Cutover, true, CuttingOver, Complete);
      EndedFrom(ls, k, id, Cutover, CuttingOver, Complete);
      ValidatedBefore(ls, id, k);
    }
  }

  lemma EndedFrom(ls: seq<Label>, k: int, id: HotswapId, d: Driver, from: State, to: State)
    requires EndedAt(ls, k, id, d, true, from, to)
    ensures 0 <= k < |ls| && In(After(ls[..k]), id, from)
  {
  }

  lemma ValidatedBefore(ls: seq<Label>, id: HotswapId, k: int)
    requires TimelyRun(ls) && 0 <= k < |ls| && In(After(ls[..k]), id, CuttingOver)
    ensures exists j :: j < k && EndedAt(ls, j, id, Validation, true, Validating, CuttingOver)
  {
    hide After, TimelyRun, Ends, In;
    assert ls == ls[..k] + ls[k..];
    TimelyPrefix(ls[..k], ls[k..]);
    Sound(ls[..k]);
    WasThere(After(ls[..k]), id, CuttingOver);
    WasEnded(ls[..k], id, Validation, Validating, CuttingOver);
    var j :| EndedAt(ls[..k], j, id, Validation, true, Validating, CuttingOver);
    EndedBefore(ls[..k], ls[k..], j, id, Validation, true, Validating, CuttingOver);
  }

  lemma WasThere(s: Sys, id: HotswapId, st: State)
    requires Inv(s) && In(s, id, st)
    ensures Had(s, id, st)
  {
    HistoryOfInv(s, id);
  }

  // ----- runs in which nothing goes wrong -----

  /** No operator aborts and every driver's work goes well. */
  predicate Smooth(ls: seq<Label>) {
    forall i :: 0 <= i < |ls| ==> !ls[i].Abort? && (ls[i].Finish? ==> ls[i].good)
  }

  /** The hotswap was told to go on: requested to advance by itself, or confirmed while it was preparing. */
  predicate SetGoing(ls: seq<Label>, id: HotswapId, i: int) {
    && 0 <= i < |ls|
    && ((ls[i].Request? && ls[i].id == id && ls[i].autoAdvance
         && id !in After(ls[..i]).hotswaps && id in After(ls[..i + 1]).hotswaps)
        || (ls[i] == Confirm(id) && In(After(ls[..i]), id, Preparing)))
  }

  /** Every driver of the hotswap has run to its end. */
  ghost predicate AllRan(s: Sys, id: HotswapId) {
    forall t :: t in s.tasks ==> s.tasks[t].id != id
  }

  lemma {:induction false} SmoothIsTimely(ls: seq<Label>)
    requires Smooth(ls)
    ensures TimelyRun(ls)
  {
    hide After;
    if ls != [] {
      SmoothIsTimely(ls[..|ls| - 1]);
    }
  }

  lemma {:induction false} SmoothNeverRollsBack(ls: seq<Label>, id: HotswapId)
    requires Smooth(ls)
    ensures !Had(After(ls), id, RollingBack)
  {
    hide Next, Inv;
    if ls != [] {
      var before, l := ls[..|ls| - 1], ls[|ls| - 1];
      SmoothNeverRollsBack(before, id);
      SmoothIsTimely(before);
      Sound(before);
      var s := After(before);
      if id in s.hotswaps {
        StepExtends(s, l, id);
        if Next(s, l).hotswaps[id] != s.hotswaps[id] {
          StepWrites(s, l, id);
        }
      } else if id in Next(s, l).hotswaps {
        RequestWrites(s, l, id);
      }
    }
  }

  lemma {:induction false} WasSetGoing(ls: seq<Label>, id: HotswapId)
    requires TimelyRun(ls) && Had(After(ls), id, Quiescing)
    ensures exists i :: SetGoing(ls, id, i)
  {
    hide Next, Inv, AbortTimely;
    if ls != [] {
      var n := |ls| - 1;
      var before, s, l := ls[..n], After(ls[..n]), ls[n];
      Sound(before);
      if Had(s, id, Quiescing) {
        WasSetGoing(before, id);
        var i :| SetGoing(before, id, i);
        assert before[..i] == ls[..i] && before[..i + 1] == ls[..i + 1];
        assert SetGoing(ls, id, i);
      } else {
        assert ls[..n + 1] == ls;
        if id in s.hotswaps {
          StepWrites(s, l, id);
        } else {
          RequestWrites(s, l, id);
        }
        assert SetGoing(ls, id, n);
      }
    }
  }

  lemma {:induction false} PathClimbs(h: seq<State>, i: nat, j: nat)
    requires IsPath(h) && i < j < |h|
    ensures Stage(h[i]) < Stage(h[j])
    decreases j
  {
    assert Edge(h[j - 1], h[j]);
    if i < j - 1 {
      PathClimbs(h, i, j - 1);
    }
  }

  lemma {:induction false} GoneOnPassesQuiescing(h: seq<State>, j: nat)
    requires IsPath(h) && j < |h| && RollingBack !in h && h[j] !in {Requested, Preparing}
    ensures Quiescing in h
    decreases j
  {
    if j > 0 && h[j] != Quiescing {
      assert Edge(h[j - 1], h[j]);
      GoneOnPassesQuiescing(h, j - 1);
    }
  }

  lemma SetGoingQuiesces(ls: seq<Label>, id: HotswapId, i: int)
    requires SetGoing(ls, id, i)
    ensures Had(After(ls), id, Quiescing)
  {
    hide Next, Inv;
    var s, l := After(ls[..i]), ls[i];
    assert ls[..i] + [l] == ls[..i + 1] && ls[..i + 1] + ls[i + 1..] == ls;
    AfterOneMore(ls[..i], l);
    if l.Confirm? {
      assert Had(Next(s, l), id, Quiescing) by {
        ConfirmQuiesces(s, id);
      }
    } else {
      RequestWrites(s, l, id);
    }
    RunExtends(ls[..i + 1], ls[i + 1..], id);
    HadGrows(After(ls[..i + 1]), After(ls), id, Quiescing);
  }

  lemma HadGrows(s: Sys, s': Sys, id: HotswapId, st: State)
    requires Had(s, id, st) && id in s'.hotswaps && s.hotswaps[id].history <= s'.hotswaps[id].history
    ensures Had(s', id, st)
  {
  }

  lemma ConfirmQuiesces(s: Sys, id: HotswapId)
    requires In(s, id, Preparing)
    ensures Had(Next(s, Confirm(id)), id, Quiescing)
  {
  }

  /**
   * With no abort and no failure, once all its drivers have run a hotswap is COMPLETE exactly when it was
   * set going, by its own request or by a confirmation; otherwise it is still PREPARING.
   */
  lemma SmoothRunCompletesIff(ls: seq<Label>, id: HotswapId)
    requires Smooth(ls) && id in After(ls).hotswaps && AllRan(After(ls), id)
    ensures In(After(ls), id, Complete) <==> exists i :: SetGoing(ls, id, i)
    ensures In(After(ls), id, Preparing) <==> !exists i :: SetGoing(ls, id, i)
  {
    hide After, Inv, SetGoing, IsPath;
    SmoothIsTimely(ls);
    Sound(ls);
    SmoothNeverRollsBack(ls, id);
    HistoryOfInv(After(ls), id);
    var h := After(ls).hotswaps[id].history;
    PathStarts(h);
    SettledState(After(ls), id);
    if i :| SetGoing(ls, id, i) {
      SetGoingQuiesces(ls, id, i);
      var q :| 0 <= q < |h| && h[q] == Quiescing;
      if q < |h| - 1 {
        PathClimbs(h, q, |h| - 1);
      }
    }
    if !In(After(ls), id, Preparing) {
      GoneOnPassesQuiescing(h, |h| - 1);
      WasSetGoing(ls, id);
    }
  }

  /** Who waits for no driver and never rolled back is preparing or complete. */
  lemma SettledState(s: Sys, id: HotswapId)
    requires Inv(s) && id in s.hotswaps && AllRan(s, id) && !Had(s, id, RollingBack)
    ensures In(s, id, Preparing) || In(s, id, Complete)
  {
    var h := s.hotswaps[id].history;
    assert HistoryOk(s.hotswaps[id]);
    assert |h| > 1 && Edge(h[|h| - 2], h[|h| - 1]);
    assert DriverOf(s.hotswaps[id].state).Some? ==> InFlight(s, id, DriverOf(s.hotswaps[id].state).value);
  }
}
