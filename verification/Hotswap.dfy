/**
 * Moving a tenant between instances: a state machine driven by operator calls and by background
 * drivers. A driver holds the lock when it starts and when it ends, but not in between, and the
 * endings of a failed migration, of a cutover and of a rollback do not look at the state again.
 */
module Hotswaps {
  import opened Basics

  type HotswapId = string
  type TaskId = nat

  datatype State =
    | Requested | Preparing | Quiescing | Migrating | Validating | CuttingOver | RollingBack | Complete | Failed

  datatype Source = Source(instanceUrl: string, tenantName: string)

  datatype Hotswap = Hotswap(source: Source, state: State, history: seq<State>)

  datatype Driver = Quiesce | Migration | Validation | Cutover | Rollback

  /** A background driver; `running` once it has passed its first look at the state. */
  datatype Task = Task(id: HotswapId, driver: Driver, running: bool)

  datatype Sys = Sys(hotswaps: map<HotswapId, Hotswap>, tasks: map<TaskId, Task>, next: TaskId)

  datatype Label =
    | Request(id: HotswapId, source: Source, autoAdvance: bool, healthy: bool)
    | Confirm(id: HotswapId)
    | Abort(id: HotswapId)
    | Start(task: TaskId)
    | Finish(task: TaskId, good: bool)  // the migration worked, the validation passed, the listing answered

  const Initial: Sys := Sys(map[], map[], 0)

  predicate Terminal(s: State) {
    s == Complete || s == Failed
  }

  // ----- the documented diagram -----

  predicate Edge(a: State, b: State) {
    match a
    case Requested => b == Preparing
    case Preparing => b == Quiescing || b == RollingBack
    case Quiescing => b == Migrating || b == RollingBack
    case Migrating => b == Validating || b == RollingBack
    case Validating => b == CuttingOver || b == RollingBack
    case CuttingOver => b == Complete || b == RollingBack
    case RollingBack => b == Failed
    case Complete => false
    case Failed => false
  }

  predicate IsPath(h: seq<State>) {
    && h != [] && h[0] == Requested
    && forall i :: 0 <= i < |h| - 1 ==> Edge(h[i], h[i + 1])
  }

  function Stage(s: State): nat {
    match s
    case Requested => 0
    case Preparing => 1
    case Quiescing => 2
    case Migrating => 3
    case Validating => 4
    case CuttingOver => 5
    case RollingBack => 6
    case Complete => 7
    case Failed => 8
  }

  lemma EdgesClimb(a: State, b: State)
    requires Edge(a, b)
    ensures Stage(a) < Stage(b) && !Terminal(a)
  {
  }

  // ----- the steps -----

  /** advanceLocked: the new state, recorded in the history. */
  function Advanced(h: Hotswap, next: State): Hotswap {
    h.(state := next, history := h.history + [next])
  }

  function Moved(s: Sys, id: HotswapId, next: State): Sys
    requires id in s.hotswaps
  {
    s.(hotswaps := s.hotswaps[id := Advanced(s.hotswaps[id], next)])
  }

  function Spawned(s: Sys, id: HotswapId, driver: Driver): Sys {
    s.(tasks := s.tasks[s.next := Task(id, driver, false)], next := s.next + 1)
  }

  function Gone(s: Sys, t: TaskId): Sys {
    s.(tasks := s.tasks - {t})
  }

  predicate Busy(s: Sys, source: Source) {
    exists id :: id in s.hotswaps && s.hotswaps[id].source == source && !Terminal(s.hotswaps[id].state)
  }

  function AfterRequest(s: Sys, id: HotswapId, source: Source, autoAdvance: bool): Sys {
    var h := Hotswap(source, Preparing, [Requested, Preparing]);
    if autoAdvance then Spawned(s.(hotswaps := s.hotswaps[id := Advanced(h, Quiescing)]), id, Quiesce)
    else s.(hotswaps := s.hotswaps[id := h])
  }

  /** The state a driver expects; a rollback only expects the hotswap to exist. */
  predicate Expects(driver: Driver, s: State) {
    match driver
    case Quiesce => s == Quiescing
    case Migration => s == Migrating
    case Validation => s == Validating
    case Cutover => s == CuttingOver
    case Rollback => true
  }

  /** The endings that write without looking at the state again. */
  predicate Unchecked(driver: Driver, good: bool) {
    (driver == Migration && !good) || driver == Cutover || driver == Rollback
  }

  function Target(driver: Driver, good: bool): State {
    match driver
    case Quiesce => Migrating
    case Migration => if good then Validating else RollingBack
    case Validation => if good then CuttingOver else RollingBack
    case Cutover => if good then Complete else RollingBack
    case Rollback => Failed
  }

  /** The driver a state calls for. */
  function DriverOf(s: State): Option<Driver> {
    match s
    case Quiescing => Some(Quiesce)
    case Migrating => Some(Migration)
    case Validating => Some(Validation)
    case CuttingOver => Some(Cutover)
    case RollingBack => Some(Rollback)
    case _ => None
  }

  /** A change of state with the driver that goes with the new state. */
  function Entered(s: Sys, id: HotswapId, next: State): Sys
    requires id in s.hotswaps
  {
    var moved := Moved(s, id, next);
    match DriverOf(next)
    case None => moved
    case Some(d) => Spawned(moved, id, d)
  }

  function Next(s: Sys, l: Label): Sys {
    match l
    case Request(id, source, autoAdvance, healthy) =>
      if id in s.hotswaps || Busy(s, source) || !healthy then s else AfterRequest(s, id, source, autoAdvance)
    case Confirm(id) =>
      if id in s.hotswaps && s.hotswaps[id].state == Preparing then Entered(s, id, Quiescing) else s
    case Abort(id) =>
      if id in s.hotswaps && !Terminal(s.hotswaps[id].state) then Entered(s, id, RollingBack) else s
    case Start(t) =>
      if t !in s.tasks || s.tasks[t].running then s
      else if s.tasks[t].id in s.hotswaps && Expects(s.tasks[t].driver, s.hotswaps[s.tasks[t].id].state)
      then s.(tasks := s.tasks[t := s.tasks[t].(running := true)])
      else Gone(s, t)
    case Finish(t, good) =>
      if t !in s.tasks || !s.tasks[t].running then s
      else
        var task := s.tasks[t];
        if task.id in s.hotswaps && (Unchecked(task.driver, good) || Expects(task.driver, s.hotswaps[task.id].state))
        then Entered(Gone(s, t), task.id, Target(task.driver, good))
        else Gone(s, t)
  }

  // ----- the manager object -----

  class MemoryManager {
    var hotswaps: map<HotswapId, Hotswap>
    var tasks: map<TaskId, Task>
    var next: TaskId

    ghost function Abs(): Sys
      reads this
    {
      Sys(hotswaps, tasks, next)
    }

    constructor ()
      ensures Abs() == Initial
    {
      hotswaps, tasks, next := map[], map[], 0;
    }

    method AdvanceLocked(id: HotswapId, state: State)
      requires id in hotswaps
      modifies this
      ensures Abs() == Moved(old(Abs()), id, state)
    {
      var h := hotswaps[id];
      h := h.(state := state);
      h := h.(history := h.history + [state]);
      hotswaps := hotswaps[id := h];
    }

    /** A goroutine is started. */
    method Go(id: HotswapId, driver: Driver)
      modifies this
      ensures Abs() == Spawned(old(Abs()), id, driver)
    {
      tasks := tasks[next := Task(id, driver, false)];
      next := next + 1;
    }

    /** IDs are minted; `healthy` is what the two instances and the registry answer. */
    method Request(id: HotswapId, source: Source, autoAdvance: bool, healthy: bool) returns (ok: bool)
      modifies this
      ensures Abs() == Next(old(Abs()), Label.Request(id, source, autoAdvance, healthy))
      ensures ok <==> healthy && id !in old(hotswaps) && !Busy(old(Abs()), source)
      ensures ok ==> Abs() == AfterRequest(old(Abs()), id, source, autoAdvance)
    {
      var todo := hotswaps.Keys;
      while todo != {}
        invariant todo <= hotswaps.Keys && Abs() == old(Abs())
        invariant forall x :: x in hotswaps.Keys - todo ==> hotswaps[x].source != source || Terminal(hotswaps[x].state)
      {
        var x :| x in todo;
        if hotswaps[x].source == source && !Terminal(hotswaps[x].state) {
          return false;
        }
        todo := todo - {x};
      }
      if !healthy || id in hotswaps {
        return false;
      }
      hotswaps := hotswaps[id := Hotswap(source, Requested, [Requested])];
      AdvanceLocked(id, Preparing);
      assert hotswaps[id] == Hotswap(source, Preparing, [Requested, Preparing]);
      if autoAdvance {
        AdvanceLocked(id, Quiescing);
        Go(id, Quiesce);
      }
      return true;
    }

    method Confirm(id: HotswapId) returns (ok: bool)
      modifies this
      ensures Abs() == Next(old(Abs()), Label.Confirm(id))
      ensures ok <==> id in old(hotswaps) && old(hotswaps)[id].state == Preparing
    {
      if id !in hotswaps || hotswaps[id].state != Preparing {
        return false;
      }
      AdvanceLocked(id, Quiescing);
      Go(id, Quiesce);
      return true;
    }

    method Abort(id: HotswapId) returns (ok: bool)
      modifies this
      ensures Abs() == Next(old(Abs()), Label.Abort(id))
      ensures ok <==> id in old(hotswaps) && !Terminal(old(hotswaps)[id].state)
    {
      if id !in hotswaps || Terminal(hotswaps[id].state) {
        return false;
      }
      AdvanceLocked(id, RollingBack);
      Go(id, Rollback);
      return true;
    }

    method FailHotswap(id: HotswapId)
      requires id in hotswaps
      modifies this
      ensures Abs() == Entered(old(Abs()), id, RollingBack)
    {
      AdvanceLocked(id, RollingBack);
      Go(id, Rollback);
    }

    /** The first locked section of a driver. */
    method StartTask(t: TaskId)
      modifies this
      ensures Abs() == Next(old(Abs()), Start(t))
    {
      if t !in tasks || tasks[t].running {
        return;
      }
      var task := tasks[t];
      if task.id in hotswaps && Expects(task.driver, hotswaps[task.id].state) {
        tasks := tasks[t := task.(running := true)];
      } else {
        tasks := tasks - {t};
      }
    }

    /** The last locked section of a driver, given how its unlocked work went. */
    method FinishTask(t: TaskId, good: bool)
      modifies this
      ensures Abs() == Next(old(Abs()), Finish(t, good))
    {
      if t !in tasks || !tasks[t].running {
        return;
      }
      var task := tasks[t];
      tasks := tasks - {t};
      if task.id !in hotswaps {
        return;
      }
      var id, state := task.id, hotswaps[task.id].state;
      match task.driver {
        case Quiesce =>
          if state == Quiescing {
            AdvanceLocked(id, Migrating);
            Go(id, Migration);
          }
        case Migration =>
          if !good {
            FailHotswap(id);
          } else if state == Migrating {
            AdvanceLocked(id, Validating);
            Go(id, Validation);
          }
        case Validation =>
          if state == Validating {
            if good {
              AdvanceLocked(id, CuttingOver);
              Go(id, Cutover);
            } else {
              AdvanceLocked(id, RollingBack);
              Go(id, Rollback);
            }
          }
        case Cutover =>
          if good {
            AdvanceLocked(id, Complete);
          } else {
            FailHotswap(id);
          }
        case Rollback =>
          AdvanceLocked(id, Failed);
      }
    }
  }

  // ----- the invariant -----

  ghost predicate HistoriesOk(s: Sys) {
    forall id :: id in s.hotswaps ==> HistoryOk(s.hotswaps[id])
  }

  predicate HistoryOk(h: Hotswap) {
    IsPath(h.history) && h.history[|h.history| - 1] == h.state && h.state != Requested
  }

  predicate Rivals(g: Hotswap, h: Hotswap) {
    g.source == h.source && !Terminal(g.state) && !Terminal(h.state)
  }

  /** At most one hotswap per source instance and tenant name is under way. */
  ghost predicate OneActive(s: Sys) {
    forall a, b :: a in s.hotswaps && b in s.hotswaps && Rivals(s.hotswaps[a], s.hotswaps[b]) ==> a == b
  }

  /** A driver whose ending may write unchecked is only in flight where its write is an edge. */
  predicate TaskOk(s: Sys, task: Task) {
    && task.id in s.hotswaps
    && var st := s.hotswaps[task.id].state;
       && (task.driver == Migration ==> Stage(st) >= 3 && (task.running ==> st == Migrating))
       && (task.driver == Cutover ==> Stage(st) >= 5 && (task.running ==> st == CuttingOver))
       && (task.driver == Rollback ==> st == RollingBack)
  }

  /** Two drivers of one hotswap that must be one. */
  predicate Twins(a: Task, b: Task) {
    a.id == b.id && a.driver == b.driver && (a.driver == Migration || a.driver == Cutover || a.driver == Rollback)
  }

  ghost predicate TasksOk(s: Sys) {
    && (forall t :: t in s.tasks ==> t < s.next && TaskOk(s, s.tasks[t]))
    && (forall t, u :: t in s.tasks && u in s.tasks && Twins(s.tasks[t], s.tasks[u]) ==> t == u)
  }

  /** No hotswap waits for a driver that is not there. */
  ghost predicate Driven(s: Sys) {
    forall id :: id in s.hotswaps && DriverOf(s.hotswaps[id].state).Some? ==>
      InFlight(s, id, DriverOf(s.hotswaps[id].state).value)
  }

  ghost predicate InFlight(s: Sys, id: HotswapId, d: Driver) {
    exists t :: t in s.tasks && s.tasks[t].id == id && s.tasks[t].driver == d
  }

  ghost predicate Inv(s: Sys) {
    HistoriesOk(s) && OneActive(s) && TasksOk(s) && Driven(s)
  }

  // ----- a change of state -----

  /** A task whose ending would write over whatever the state has become. */
  predicate Blind(task: Task) {
    (task.running && (task.driver == Migration || task.driver == Cutover)) || task.driver == Rollback
  }

  ghost predicate NoneBlind(s: Sys, id: HotswapId) {
    forall t :: t in s.tasks && s.tasks[t].id == id ==> !Blind(s.tasks[t])
  }

  lemma PathGrows(h: Hotswap, next: State)
    requires HistoryOk(h)
    ensures HistoryOk(Advanced(h, next)) <==> Edge(h.state, next)
  {
    var p, q := h.history, h.history + [next];
    if Edge(h.state, next) {
      forall i | 0 <= i < |q| - 1 ensures Edge(q[i], q[i + 1]) {
        if i < |p| - 1 {
          assert Edge(p[i], p[i + 1]);
        }
      }
    } else {
      assert q[|p| - 1] == h.state && q[|p|] == next;
    }
  }

  /** Along an edge, with no blind task around, everything is kept. */
  lemma EnteredKeeps(s: Sys, id: HotswapId, next: State)
    requires HistoriesOk(s) && OneActive(s) && TasksOk(s) && DrivenBut(s, id)
    requires id in s.hotswaps && Edge(s.hotswaps[id].state, next) && NoneBlind(s, id)
    ensures Inv(Entered(s, id, next))
  {
    hide HistoryOk, Edge, IsPath;
    var s' := Entered(s, id, next);
    EdgesClimb(s.hotswaps[id].state, next);
    PathGrows(s.hotswaps[id], next);
    assert HistoriesOk(s') && OneActive(s');
    EnteredTasks(s, id, next);
    EnteredDriven(s, id, next);
  }

  lemma EnteredTasks(s: Sys, id: HotswapId, next: State)
    requires TasksOk(s) && id in s.hotswaps && Edge(s.hotswaps[id].state, next) && NoneBlind(s, id)
    ensures TasksOk(Entered(s, id, next))
  {
    var s' := Entered(s, id, next);
    EdgesClimb(s.hotswaps[id].state, next);
    forall t | t in s'.tasks ensures t < s'.next && TaskOk(s', s'.tasks[t]) {
      if t in s.tasks {
        assert TaskOk(s, s.tasks[t]);
      }
    }
    assert forall t :: t in s.tasks ==> TaskOk(s, s.tasks[t]);
    forall t, u | t in s'.tasks && u in s'.tasks && Twins(s'.tasks[t], s'.tasks[u])
      ensures t == u
    {
    }
  }

  /** Every other hotswap has its driver. */
  ghost predicate DrivenBut(s: Sys, id: HotswapId) {
    forall x :: x in s.hotswaps && x != id && DriverOf(s.hotswaps[x].state).Some? ==>
      InFlight(s, x, DriverOf(s.hotswaps[x].state).value)
  }

  lemma EnteredDriven(s: Sys, id: HotswapId, next: State)
    requires TasksOk(s) && id in s.hotswaps && DrivenBut(s, id)
    ensures Driven(Entered(s, id, next))
  {
    hide TaskOk;
    var s' := Entered(s, id, next);
    forall x | x in s'.hotswaps && DriverOf(s'.hotswaps[x].state).Some?
      ensures InFlight(s', x, DriverOf(s'.hotswaps[x].state).value)
    {
      if x == id {
        assert s'.tasks[s.next] == Task(id, DriverOf(next).value, false);
      } else {
        var t :| t in s.tasks && s.tasks[t].id == x && s.tasks[t].driver == DriverOf(s.hotswaps[x].state).value;
        assert t < s.next;
        assert t in s'.tasks && s'.tasks[t] == s.tasks[t];
      }
    }
  }

  /** A task that is done, or finds that it is not wanted, disappears. */
  lemma GoneKeeps(s: Sys, t: TaskId)
    requires Inv(s) && t in s.tasks
    ensures HistoriesOk(Gone(s, t)) && OneActive(Gone(s, t)) && TasksOk(Gone(s, t))
            && DrivenBut(Gone(s, t), s.tasks[t].id)
    ensures DriverOf(s.hotswaps[s.tasks[t].id].state) != Some(s.tasks[t].driver) ==> Driven(Gone(s, t))
  {
    hide HistoryOk;
    assert TaskOk(s, s.tasks[t]);
    var s' := Gone(s, t);
    assert forall u :: u in s'.tasks ==> TaskOk(s, s.tasks[u]);
    forall x | x in s.hotswaps && DriverOf(s.hotswaps[x].state).Some?
      && (x != s.tasks[t].id || DriverOf(s.hotswaps[x].state).value != s.tasks[t].driver)
      ensures InFlight(s', x, DriverOf(s.hotswaps[x].state).value)
    {
      var u :| u in s.tasks && s.tasks[u].id == x && s.tasks[u].driver == DriverOf(s.hotswaps[x].state).value;
      assert u in s'.tasks;
    }
  }

  /** Of the endings that write unchecked, none finds a state it does not expect. */
  lemma WrittenIsExpected(s: Sys, t: TaskId, good: bool)
    requires Inv(s) && t in s.tasks && s.tasks[t].running
    requires var task := s.tasks[t]; Unchecked(task.driver, good) || Expects(task.driver, s.hotswaps[task.id].state)
    ensures Edge(s.hotswaps[s.tasks[t].id].state, Target(s.tasks[t].driver, good))
    ensures NoneBlind(Gone(s, t), s.tasks[t].id)
  {
    hide HistoriesOk, OneActive, Driven;
    var task := s.tasks[t];
    assert TaskOk(s, task);
    forall u | u in Gone(s, t).tasks && s.tasks[u].id == task.id
      ensures !Blind(s.tasks[u])
    {
      assert TaskOk(s, s.tasks[u]);
    }
  }

  lemma FinishKeeps(s: Sys, t: TaskId, good: bool)
    requires Inv(s)
    ensures Inv(Next(s, Finish(t, good)))
  {
    hide HistoriesOk, OneActive, TasksOk, Driven, DrivenBut, Entered, NoneBlind;
    if t in s.tasks && s.tasks[t].running {
      GoneKeeps(s, t);
      var task := s.tasks[t];
      TaskHasHotswap(s, t);
      if Unchecked(task.driver, good) || Expects(task.driver, s.hotswaps[task.id].state) {
        WrittenIsExpected(s, t, good);
        EnteredKeeps(Gone(s, t), task.id, Target(task.driver, good));
      }
    }
  }

  lemma TaskHasHotswap(s: Sys, t: TaskId)
    requires TasksOk(s) && t in s.tasks
    ensures s.tasks[t].id in s.hotswaps && TaskOk(s, s.tasks[t])
  {
  }

  lemma StartKeeps(s: Sys, t: TaskId)
    requires Inv(s)
    ensures Inv(Next(s, Start(t)))
  {
    hide HistoryOk;
    if t in s.tasks && !s.tasks[t].running {
      var task := s.tasks[t];
      assert TaskOk(s, task);
      if Expects(task.driver, s.hotswaps[task.id].state) {
        RunningKeeps(s, t);
      } else {
        GoneKeeps(s, t);
      }
    }
  }

  lemma RunningKeeps(s: Sys, t: TaskId)
    requires Inv(s) && t in s.tasks && !s.tasks[t].running
    requires s.tasks[t].id in s.hotswaps && Expects(s.tasks[t].driver, s.hotswaps[s.tasks[t].id].state)
    ensures Inv(s.(tasks := s.tasks[t := s.tasks[t].(running := true)]))
  {
    hide HistoryOk;
    var s' := s.(tasks := s.tasks[t := s.tasks[t].(running := true)]);
    forall u | u in s'.tasks ensures u < s'.next && TaskOk(s', s'.tasks[u]) {
      assert TaskOk(s, s.tasks[u]);
    }
    forall x | x in s'.hotswaps && DriverOf(s'.hotswaps[x].state).Some?
      ensures InFlight(s', x, DriverOf(s'.hotswaps[x].state).value)
    {
      var u :| u in s.tasks && s.tasks[u].id == x && s.tasks[u].driver == DriverOf(s.hotswaps[x].state).value;
      assert s'.tasks[u].id == x && s'.tasks[u].driver == s.tasks[u].driver;
    }
  }

  lemma RequestKeeps(s: Sys, id: HotswapId, source: Source, autoAdvance: bool)
    requires Inv(s) && id !in s.hotswaps && !Busy(s, source)
    ensures Inv(AfterRequest(s, id, source, autoAdvance))
  {
    hide Inv;
    var s1 := s.(hotswaps := s.hotswaps[id := Hotswap(source, Preparing, [Requested, Preparing])]);
    NewHotswapKeeps(s, id, source);
    if autoAdvance {
      ConfirmKeeps(s1, id);
      assert Entered(s1, id, Quiescing) == AfterRequest(s, id, source, true);
    }
  }

  lemma NewHotswapKeeps(s: Sys, id: HotswapId, source: Source)
    requires Inv(s) && id !in s.hotswaps && !Busy(s, source)
    ensures Inv(s.(hotswaps := s.hotswaps[id := Hotswap(source, Preparing, [Requested, Preparing])]))
  {
    hide HistoryOk, TaskOk, InFlight;
    var s1 := s.(hotswaps := s.hotswaps[id := Hotswap(source, Preparing, [Requested, Preparing])]);
    FirstHistory(source);
    forall t | t in s.tasks
      ensures TaskOk(s1, s1.tasks[t])
    {
      TaskHasHotswap(s, t);
      SameTaskOk(s, s1, s.tasks[t]);
    }
    forall x | x in s1.hotswaps && DriverOf(s1.hotswaps[x].state).Some?
      ensures InFlight(s1, x, DriverOf(s1.hotswaps[x].state).value)
    {
      assert InFlight(s, x, DriverOf(s.hotswaps[x].state).value);
      SameInFlight(s, s1, x, DriverOf(s.hotswaps[x].state).value);
    }
  }

  lemma SameTaskOk(s: Sys, s1: Sys, task: Task)
    requires TaskOk(s, task) && task.id in s.hotswaps && task.id in s1.hotswaps
             && s1.hotswaps[task.id] == s.hotswaps[task.id]
    ensures TaskOk(s1, task)
  {
  }

  lemma SameInFlight(s: Sys, s1: Sys, id: HotswapId, d: Driver)
    requires InFlight(s, id, d) && s1.tasks == s.tasks
    ensures InFlight(s1, id, d)
  {
  }

  lemma FirstHistory(source: Source)
    ensures HistoryOk(Hotswap(source, Preparing, [Requested, Preparing]))
  {
  }

  lemma NotBlindWhileWaiting(s: Sys, id: HotswapId)
    requires TasksOk(s) && id in s.hotswaps
    requires s.hotswaps[id].state == Preparing || s.hotswaps[id].state == Quiescing
             || s.hotswaps[id].state == Validating
    ensures NoneBlind(s, id)
  {
    forall t | t in s.tasks && s.tasks[t].id == id ensures !Blind(s.tasks[t]) {
      assert TaskOk(s, s.tasks[t]);
    }
  }

  lemma NotBlindInRollback(s: Sys, id: HotswapId)
    requires TasksOk(s) && Driven(s) && id in s.hotswaps && NoneBlind(s, id)
    ensures s.hotswaps[id].state != RollingBack
  {
    assert s.hotswaps[id].state == RollingBack ==> InFlight(s, id, Rollback);
  }

  /** An abort while no blind task is in flight keeps everything. */
  lemma AbortKeeps(s: Sys, id: HotswapId)
    requires Inv(s) && (id in s.hotswaps && !Terminal(s.hotswaps[id].state) ==> NoneBlind(s, id))
    ensures Inv(Next(s, Abort(id)))
  {
    hide OneActive, TasksOk, Entered, NoneBlind;
    if id in s.hotswaps && !Terminal(s.hotswaps[id].state) {
      assert HistoryOk(s.hotswaps[id]);
      NotBlindInRollback(s, id);
      EnteredKeeps(s, id, RollingBack);
    }
  }

  lemma ConfirmKeeps(s: Sys, id: HotswapId)
    requires Inv(s)
    ensures Inv(Next(s, Confirm(id)))
  {
    hide HistoriesOk, OneActive, TasksOk, Entered, NoneBlind;
    if id in s.hotswaps && s.hotswaps[id].state == Preparing {
      NotBlindWhileWaiting(s, id);
      EnteredKeeps(s, id, Quiescing);
    }
  }

  // ----- runs -----

  function After(ls: seq<Label>): Sys {
    if ls == [] then Initial else Next(After(ls[..|ls| - 1]), ls[|ls| - 1])
  }

  /** What an abort needs: the hotswap is not there or is over, or no blind task is in flight. */
  ghost predicate AbortSafe(s: Sys, l: Label) {
    l.Abort? && l.id in s.hotswaps && !Terminal(s.hotswaps[l.id].state) ==> NoneBlind(s, l.id)
  }

  ghost predicate SafeRun(ls: seq<Label>) {
    ls == [] || (SafeRun(ls[..|ls| - 1]) && AbortSafe(After(ls[..|ls| - 1]), ls[|ls| - 1]))
  }

  /** The simpler rule: no abort arrives while migrating, cutting over or rolling back. */
  predicate AbortTimely(s: Sys, l: Label) {
    l.Abort? && l.id in s.hotswaps && !Terminal(s.hotswaps[l.id].state) ==>
      var st := s.hotswaps[l.id].state;
      st == Preparing || st == Quiescing || st == Validating
  }

  predicate TimelyRun(ls: seq<Label>) {
    ls == [] || (TimelyRun(ls[..|ls| - 1]) && AbortTimely(After(ls[..|ls| - 1]), ls[|ls| - 1]))
  }

  lemma NextKeeps(s: Sys, l: Label)
    requires Inv(s) && AbortSafe(s, l)
    ensures Inv(Next(s, l))
  {
    hide Inv, NoneBlind;
    match l
    case Request(id, source, autoAdvance, healthy) =>
      if id !in s.hotswaps && !Busy(s, source) && healthy {
        RequestKeeps(s, id, source, autoAdvance);
      }
    case Confirm(id) => ConfirmKeeps(s, id);
    case Abort(id) => AbortKeeps(s, id);
    case Start(t) => StartKeeps(s, t);
    case Finish(t, good) => FinishKeeps(s, t, good);
  }

  lemma {:induction false} SafeRunsKeep(ls: seq<Label>)
    requires SafeRun(ls)
    ensures Inv(After(ls))
  {
    hide Next, AbortSafe;
    if ls != [] {
      hide Inv;
      SafeRunsKeep(ls[..|ls| - 1]);
      NextKeeps(After(ls[..|ls| - 1]), ls[|ls| - 1]);
    }
  }

  lemma {:induction false} TimelyRunsAreSafe(ls: seq<Label>)
    requires TimelyRun(ls)
    ensures SafeRun(ls)
  {
    hide Next;
    if ls != [] {
      var before := ls[..|ls| - 1];
      TimelyRunsAreSafe(before);
      SafeRunsKeep(before);
      var s, l := After(before), ls[|ls| - 1];
      if l.Abort? && l.id in s.hotswaps && !Terminal(s.hotswaps[l.id].state) {
        NotBlindWhileWaiting(s, l.id);
      }
    }
  }

  // ----- main results -----

  /**
   * In every interleaving of requests, confirmations, driver sections and timely aborts, every history
   * is a path of the diagram that ends in the current state, at most one hotswap per source is under
   * way, and whoever waits for a driver has one.
   */
  lemma EveryRunFollowsTheDiagram(ls: seq<Label>)
    requires TimelyRun(ls)
    ensures forall id :: id in After(ls).hotswaps ==>
              IsPath(After(ls).hotswaps[id].history)
              && After(ls).hotswaps[id].history[|After(ls).hotswaps[id].history| - 1] == After(ls).hotswaps[id].state
    ensures OneActive(After(ls)) && Driven(After(ls))
  {
    hide IsPath, After, OneActive, Driven, TasksOk;
    TimelyRunsAreSafe(ls);
    SafeRunsKeep(ls);
    assert forall id :: id in After(ls).hotswaps ==> HistoryOk(After(ls).hotswaps[id]);
  }

  /** One step of a sound system leaves a finished hotswap alone. */
  lemma TerminalStep(s: Sys, l: Label, id: HotswapId)
    requires Inv(s) && id in s.hotswaps && Terminal(s.hotswaps[id].state)
    ensures id in Next(s, l).hotswaps && Next(s, l).hotswaps[id] == s.hotswaps[id]
  {
    hide HistoryOk, OneActive, Driven;
    if l.Finish? && l.task in s.tasks {
      assert TaskOk(s, s.tasks[l.task]);
    }
  }

  /** COMPLETE and FAILED are never left, however the run goes on. */
  lemma {:induction false} TerminalNeverLeft(ls: seq<Label>, more: seq<Label>, id: HotswapId)
    requires TimelyRun(ls + more)
    requires id in After(ls).hotswaps && Terminal(After(ls).hotswaps[id].state)
    ensures id in After(ls + more).hotswaps && After(ls + more).hotswaps[id] == After(ls).hotswaps[id]
  {
    hide Next, Inv, AbortTimely;
    if more == [] {
      assert ls + more == ls;
    } else {
      var n := |more| - 1;
      assert (ls + more)[..|ls + more| - 1] == ls + more[..n];
      TerminalNeverLeft(ls, more[..n], id);
      TimelyRunsAreSafe(ls + more[..n]);
      SafeRunsKeep(ls + more[..n]);
      TerminalStep(After(ls + more[..n]), more[n], id);
    }
  }

  predicate StillOk(s: Sys, id: HotswapId) {
    id in s.hotswaps && HistoryOk(s.hotswaps[id])
  }

  /**
   * An abort can be followed by an ending that leaves the diagram exactly when a blind task is in
   * flight: a running migration or cutover, or a rollback.
   */
  lemma AbortIsSafeIff(s: Sys, id: HotswapId)
    requires Inv(s) && id in s.hotswaps && !Terminal(s.hotswaps[id].state)
    ensures var aborted := Next(s, Abort(id));
            (forall t, good :: StillOk(Next(aborted, Finish(t, good)), id))
            <==> NoneBlind(s, id)
  {
    hide Inv, HistoryOk;
    var aborted := Next(s, Abort(id));
    if NoneBlind(s, id) {
      AbortKeeps(s, id);
      forall t, good
        ensures StillOk(Next(aborted, Finish(t, good)), id)
      {
        FinishKeeps(aborted, t, good);
        HistoryOfInv(Next(aborted, Finish(t, good)), id);
      }
    } else {
      var t :| t in s.tasks && s.tasks[t].id == id && Blind(s.tasks[t]);
      if s.tasks[t].driver == Rollback {
        AbortTwiceLeaves(s, id, t);
      } else {
        BlindEndingLeaves(s, id, t);
      }
    }
  }

  lemma HistoryOfInv(s: Sys, id: HotswapId)
    requires Inv(s) && id in s.hotswaps
    ensures HistoryOk(s.hotswaps[id])
  {
  }

  /** A second abort repeats ROLLING_BACK at once. */
  lemma AbortTwiceLeaves(s: Sys, id: HotswapId, t: TaskId)
    requires Inv(s) && id in s.hotswaps && !Terminal(s.hotswaps[id].state)
    requires t in s.tasks && s.tasks[t].id == id && s.tasks[t].driver == Rollback
    ensures var aborted := Next(s, Abort(id));
            var after := Next(aborted, Finish(s.next + 1, true));
            id in after.hotswaps && !HistoryOk(after.hotswaps[id])
  {
    hide HistoryOk, OneActive, Driven;
    assert TaskOk(s, s.tasks[t]);
    assert s.next + 1 !in s.tasks;
    HistoryOfInv(s, id);
    PathGrows(s.hotswaps[id], RollingBack);
  }

  /** A migration that fails, or a cutover that ends, after the abort overwrites ROLLING_BACK. */
  lemma BlindEndingLeaves(s: Sys, id: HotswapId, t: TaskId)
    requires Inv(s) && id in s.hotswaps && !Terminal(s.hotswaps[id].state)
    requires t in s.tasks && s.tasks[t].id == id && s.tasks[t].running
    requires s.tasks[t].driver == Migration || s.tasks[t].driver == Cutover
    ensures var aborted := Next(s, Abort(id));
            var after := Next(aborted, Finish(t, s.tasks[t].driver == Cutover));
            id in after.hotswaps && !HistoryOk(after.hotswaps[id])
  {
    hide HistoryOk, OneActive, Driven;
    assert TaskOk(s, s.tasks[t]);
    HistoryOfInv(s, id);
    var h := s.hotswaps[id];
    PathGrows(h, RollingBack);
    PathGrows(Advanced(h, RollingBack), if s.tasks[t].driver == Cutover then Complete else RollingBack);
  }

  // ----- what an untimely abort can do -----

  /** Aborted while the migration runs; the rollback finishes; a new hotswap of the tenant is requested. */
  function AbortedWhileMigrating(source: Source): seq<Label> {
    [Request("a", source, true, true)] + [Start(0)] + [Finish(0, true)] + [Start(1)] + [Abort("a")]
    + [Start(2)] + [Finish(2, true)] + [Request("b", source, false, true)]
  }

  lemma AfterOneMore(ls: seq<Label>, l: Label)
    ensures After(ls + [l]) == Next(After(ls), l)
  {
    assert (ls + [l])[..|ls|] == ls;
  }

  lemma AbortedWhileMigratingState(source: Source)
    ensures After(AbortedWhileMigrating(source))
            == Sys(map["a" := Hotswap(source, Failed,
                                      [Requested, Preparing] + [Quiescing] + [Migrating] + [RollingBack] + [Failed]),
                       "b" := Hotswap(source, Preparing, [Requested, Preparing])],
                   map[1 := Task("a", Migration, true)], 3)
  {
    hide After;
    var c0: seq<Label> := [];
    var c1 := [Request("a", source, true, true)];
    var c2 := c1 + [Start(0)];
    var c3 := c2 + [Finish(0, true)];
    var c4 := c3 + [Start(1)];
    var c5 := c4 + [Abort("a")];
    var c6 := c5 + [Start(2)];
    var c7 := c6 + [Finish(2, true)];
    assert After(c0) == Initial by {
      NothingDone();
    }
    AfterOneMore(c0, c1[0]);
    assert c0 + [c1[0]] == c1;
    var h1 := [Requested, Preparing] + [Quiescing];
    assert After(c1) == Sys(map["a" := Hotswap(source, Quiescing, h1)], map[0 := Task("a", Quiesce, false)], 1);
    AfterOneMore(c1, Start(0));
    assert After(c2) == Sys(map["a" := Hotswap(source, Quiescing, h1)], map[0 := Task("a", Quiesce, true)], 1);
    AfterOneMore(c2, Finish(0, true));
    assert After(c3)
      == Sys(map["a" := Hotswap(source, Migrating, h1 + [Migrating])], map[1 := Task("a", Migration, false)], 2);
    AfterOneMore(c3, Start(1));
    AfterOneMore(c4, Abort("a"));
    var m := Task("a", Migration, true);
    assert After(c5) == Sys(map["a" := Hotswap(source, RollingBack, h1 + [Migrating] + [RollingBack])],
                            map[1 := m, 2 := Task("a", Rollback, false)], 3);
    AfterOneMore(c5, Start(2));
    AfterOneMore(c6, Finish(2, true));
    assert After(c7)
      == Sys(map["a" := Hotswap(source, Failed, h1 + [Migrating] + [RollingBack] + [Failed])], map[1 := m], 3);
    AfterOneMore(c7, Request("b", source, false, true));
  }

  lemma NothingDone()
    ensures After([]) == Initial
  {
  }

  /** When the migration then fails, FAILED is left, and two hotswaps of one tenant are under way. */
  lemma UntimelyAbortRevivesAFailedHotswap(source: Source)
    ensures var before := After(AbortedWhileMigrating(source));
            var after := After(AbortedWhileMigrating(source) + [Finish(1, false)]);
            "a" in before.hotswaps && before.hotswaps["a"].state == Failed
            && "a" in after.hotswaps && after.hotswaps["a"].state == RollingBack && !OneActive(after)
  {
    hide After;
    AbortedWhileMigratingState(source);
    AfterOneMore(AbortedWhileMigrating(source), Finish(1, false));
    var after := After(AbortedWhileMigrating(source) + [Finish(1, false)]);
    assert Rivals(after.hotswaps["a"], after.hotswaps["b"]);
  }
}
