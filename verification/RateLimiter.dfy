/** The fixed-window rate limiter: what it admits, and that forgetting old windows is not observable. */
module RateLimiters {

  datatype Window = Window(count: int, start: int)

  type Windows = map<string, Window>

  datatype Event = Request(key: string, now: int) | Cleanup(now: int)

  datatype Limits = Limits(rate: int, window: int)

  // ----- one step -----

  predicate Opens(ws: Windows, lim: Limits, key: string, now: int) {
    key !in ws || now - ws[key].start > lim.window
  }

  predicate Allows(ws: Windows, lim: Limits, key: string, now: int) {
    Opens(ws, lim, key, now) || ws[key].count < lim.rate
  }

  function Counted(ws: Windows, lim: Limits, key: string, now: int): Windows {
    if Opens(ws, lim, key, now) then ws[key := Window(1, now)]
    else if ws[key].count < lim.rate then ws[key := Window(ws[key].count + 1, ws[key].start)]
    else ws
  }

  function Swept(ws: Windows, lim: Limits, now: int): Windows {
    map key | key in ws && now - ws[key].start <= lim.window * 2 :: ws[key]
  }

  class RateLimiter {
    var windows: Windows
    const limits: Limits

    constructor (limits: Limits)
      ensures windows == map[] && this.limits == limits
    {
      this.limits := limits;
      windows := map[];
    }

    method Allow(key: string, now: int) returns (ok: bool, remaining: int, reset: int)
      modifies this
      ensures ok <==> Allows(old(windows), limits, key, now)
      ensures windows == Counted(old(windows), limits, key, now)
      ensures key in windows && reset == windows[key].start + limits.window
      ensures remaining == if ok then limits.rate - windows[key].count else 0
    {
      if key !in windows || now - windows[key].start > limits.window {
        windows := windows[key := Window(1, now)];
        return true, limits.rate - 1, now + limits.window;
      }
      var w := windows[key];
      if w.count >= limits.rate {
        return false, 0, w.start + limits.window;
      }
      w := w.(count := w.count + 1);
      windows := windows[key := w];
      return true, limits.rate - w.count, w.start + limits.window;
    }

    method CleanupExpired(now: int)
      modifies this
      ensures windows == Swept(old(windows), limits, now)
    {
      var todo := windows.Keys;
      while todo != {}
        invariant todo <= windows.Keys <= old(windows).Keys
        invariant forall key :: key in windows ==> windows[key] == old(windows)[key]
        invariant forall key :: key in old(windows) && key !in todo ==>
                    (key in windows <==> now - old(windows)[key].start <= limits.window * 2)
      {
        var key :| key in todo;
        if now - windows[key].start > limits.window * 2 {
          windows := windows - {key};
        }
        todo := todo - {key};
      }
    }
  }

  // ----- runs -----

  function Next(ws: Windows, lim: Limits, ev: Event): Windows {
    match ev
    case Request(key, now) => Counted(ws, lim, key, now)
    case Cleanup(now) => Swept(ws, lim, now)
  }

  function Run(evs: seq<Event>, lim: Limits): Windows {
    if evs == [] then map[] else Next(Run(evs[..|evs| - 1], lim), lim, evs[|evs| - 1])
  }

  predicate Monotone(evs: seq<Event>) {
    forall i, j :: 0 <= i < j < |evs| ==> evs[i].now <= evs[j].now
  }

  /** The times at which requests of `key` were allowed. */
  function AllowedTimes(evs: seq<Event>, lim: Limits, key: string): seq<int> {
    if evs == [] then []
    else
      var n := |evs| - 1;
      AllowedTimes(evs[..n], lim, key) + Admitted(Run(evs[..n], lim), lim, evs[n], key)
  }

  /** The time of the request if this event is an allowed request of `key`. */
  function Admitted(ws: Windows, lim: Limits, ev: Event, key: string): seq<int> {
    if ev.Request? && ev.key == key && Allows(ws, lim, key, ev.now) then [ev.now] else []
  }

  function CountIn(ts: seq<int>, a: int, b: int): nat {
    if ts == [] then 0 else CountIn(ts[..|ts| - 1], a, b) + if a <= ts[|ts| - 1] <= b then 1 else 0
  }

  lemma {:induction false} CountConcat(p: seq<int>, c: seq<int>, a: int, b: int)
    ensures CountIn(p + c, a, b) == CountIn(p, a, b) + CountIn(c, a, b)
  {
    if c == [] {
      assert p + c == p;
    } else {
      assert (p + c)[..|p + c| - 1] == p + c[..|c| - 1];
      CountConcat(p, c[..|c| - 1], a, b);
    }
  }

  lemma {:induction false} CountAtMost(c: seq<int>, a: int, b: int)
    ensures CountIn(c, a, b) <= |c|
    ensures (exists i :: 0 <= i < |c| && c[i] < a) ==> CountIn(c, a, b) < |c|
    ensures (forall i :: 0 <= i < |c| ==> c[i] < a || c[i] > b) ==> CountIn(c, a, b) == 0
  {
    if c != [] {
      var d := c[..|c| - 1];
      CountAtMost(d, a, b);
      assert forall i :: 0 <= i < |d| ==> d[i] == c[i];
    }
  }

  lemma {:induction false} CountMono(c: seq<int>, a: int, b: int, a': int, b': int)
    requires a' <= a && b <= b'
    ensures CountIn(c, a, b) <= CountIn(c, a', b')
  {
    if c != [] {
      CountMono(c[..|c| - 1], a, b, a', b');
    }
  }

  lemma CountOne(t: int, a: int, b: int)
    ensures CountIn([t], a, b) == if a <= t <= b then 1 else 0
  {
  }

  // ----- the bound -----

  /** Allowed times split into earlier windows `p` and the current one `c`, begun at `s`. */
  ghost predicate Split(p: seq<int>, c: seq<int>, s: int, lim: Limits) {
    && 1 <= |c| <= lim.rate && c[0] == s
    && (forall i :: 0 <= i < |c| ==> s <= c[i] <= s + lim.window)
    && (forall i :: 0 <= i < |p| ==> p[i] < s)
    && CountIn(p, s - lim.window, s) <= lim.rate - 1
  }

  function CountFrom(ts: seq<int>, a: int, length: int): nat {
    CountIn(ts, a, a + length)
  }

  ghost predicate Bounded(ts: seq<int>, lim: Limits) {
    forall a :: CountFrom(ts, a, lim.window) <= 2 * lim.rate - 1
  }

  /** What the run knows of one key: nothing yet, or its last window, which the map may have dropped. */
  ghost predicate Tracked(ts: seq<int>, ws: Windows, lim: Limits, key: string, clock: int) {
    if ts == [] then key !in ws
    else
      exists p, c, s :: ts == p + c && Split(p, c, s, lim) && s <= clock
        && if key in ws then ws[key] == Window(|c|, s) else clock - s > lim.window
  }

  /** A new window opens at `t`, after the last one has run out. */
  lemma OpenStep(p: seq<int>, c: seq<int>, s: int, lim: Limits, t: int)
    requires Split(p, c, s, lim) && t - s > lim.window
    ensures Split(p + c, [t], t, lim)
  {
    hide CountIn;
    var a := t - lim.window;
    CountConcat(p, c, a, t);
    CountAtMost(p, a, t);
    CountAtMost(c, a, t);
    assert c[0] < a;
  }

  lemma OpenBounded(ts: seq<int>, lim: Limits, t: int)
    requires Bounded(ts, lim) && lim.rate >= 1 && CountIn(ts, t - lim.window, t) <= lim.rate - 1
    requires forall i :: 0 <= i < |ts| ==> ts[i] <= t
    ensures Bounded(ts + [t], lim)
  {
    hide CountIn;
    forall a ensures CountFrom(ts + [t], a, lim.window) <= 2 * lim.rate - 1 {
      CountConcat(ts, [t], a, a + lim.window);
      CountOne(t, a, a + lim.window);
      assert CountFrom(ts, a, lim.window) <= 2 * lim.rate - 1;
      if a <= t <= a + lim.window {
        CountTop(ts, a, a + lim.window, t);
        CountMono(ts, a, t, t - lim.window, t);
      }
    }
  }

  /** Nothing lies beyond the latest time. */
  lemma {:induction false} CountTop(ts: seq<int>, a: int, b: int, t: int)
    requires forall i :: 0 <= i < |ts| ==> ts[i] <= t
    requires t <= b
    ensures CountIn(ts, a, b) == CountIn(ts, a, t)
  {
    if ts != [] {
      CountTop(ts[..|ts| - 1], a, b, t);
    }
  }

  /** One more request in the current window. */
  lemma JoinStep(p: seq<int>, c: seq<int>, s: int, lim: Limits, t: int)
    requires Split(p, c, s, lim) && |c| < lim.rate && s <= t <= s + lim.window
    requires Bounded(p + c, lim)
    ensures Split(p, c + [t], s, lim) && Bounded(p + (c + [t]), lim)
  {
    hide CountIn;
    forall a ensures CountFrom(p + (c + [t]), a, lim.window) <= 2 * lim.rate - 1 {
      var b := a + lim.window;
      CountConcat(p, c + [t], a, b);
      CountConcat(p, c, a, b);
      CountConcat(c, [t], a, b);
      CountOne(t, a, b);
      assert CountFrom(p + c, a, lim.window) <= 2 * lim.rate - 1;
      if a <= t <= b {
        CountAtMost(c, a, b);
        JoinPast(p, s, lim, a);
      }
    }
  }

  /** An interval that reaches the current window sees at most `rate - 1` requests of earlier ones. */
  lemma JoinPast(p: seq<int>, s: int, lim: Limits, a: int)
    requires forall i :: 0 <= i < |p| ==> p[i] < s
    requires CountIn(p, s - lim.window, s) <= lim.rate - 1 && s - lim.window <= a && lim.rate >= 1
    ensures CountIn(p, a, a + lim.window) <= lim.rate - 1
  {
    hide CountIn;
    CountTop(p, a, a + lim.window, s);
    CountMono(p, a, s, s - lim.window, s);
  }

  lemma FirstStep(lim: Limits, t: int)
    requires lim.rate >= 1 && lim.window >= 0
    ensures Split([], [t], t, lim) && Bounded([t], lim)
  {
    forall a ensures CountFrom([t], a, lim.window) <= 2 * lim.rate - 1 {
      CountOne(t, a, a + lim.window);
    }
  }

  ghost predicate KeyInv(ts: seq<int>, ws: Windows, lim: Limits, key: string, clock: int) {
    && Tracked(ts, ws, lim, key, clock)
    && Bounded(ts, lim)
    && forall i :: 0 <= i < |ts| ==> ts[i] <= clock
  }

  lemma RequestKeeps(ts: seq<int>, ws: Windows, lim: Limits, key: string, clock: int, now: int)
    requires lim.rate >= 1 && lim.window >= 0 && clock <= now && KeyInv(ts, ws, lim, key, clock)
    ensures KeyInv(ts + Admitted(ws, lim, Request(key, now), key), Counted(ws, lim, key, now), lim, key, now)
  {
    hide Split, Bounded;
    var ts' := ts + Admitted(ws, lim, Request(key, now), key);
    if ts == [] {
      FirstStep(lim, now);
      assert ts' == [now] == [] + [now];
    } else {
      var p, c, s :| ts == p + c && Split(p, c, s, lim) && s <= clock
        && if key in ws then ws[key] == Window(|c|, s) else clock - s > lim.window;
      if Opens(ws, lim, key, now) {
        OpenStep(p, c, s, lim, now);
        assert CountIn(ts, now - lim.window, now) <= lim.rate - 1 by {
          SplitPast(ts, [now], now, lim);
        }
        OpenBounded(ts, lim, now);
        assert ts' == ts + [now];
      } else if |c| < lim.rate {
        JoinStep(p, c, s, lim, now);
        assert ts' == p + (c + [now]);
      } else {
        assert ts' == ts;
      }
    }
  }

  lemma SplitPast(p: seq<int>, c: seq<int>, s: int, lim: Limits)
    requires Split(p, c, s, lim)
    ensures CountIn(p, s - lim.window, s) <= lim.rate - 1
  {
  }

  /** A sweep, or a request of another key. */
  lemma OtherKeeps(ts: seq<int>, ws: Windows, lim: Limits, ev: Event, key: string, clock: int)
    requires lim.window >= 0 && clock <= ev.now && KeyInv(ts, ws, lim, key, clock)
    requires ev.Request? ==> ev.key != key
    ensures KeyInv(ts, Next(ws, lim, ev), lim, key, ev.now)
  {
  }

  lemma {:induction false} RunKeeps(evs: seq<Event>, lim: Limits, key: string)
    requires lim.rate >= 1 && lim.window >= 0 && Monotone(evs) && evs != []
    ensures KeyInv(AllowedTimes(evs, lim, key), Run(evs, lim), lim, key, evs[|evs| - 1].now)
  {
    hide Next, KeyInv, Counted;
    var n := |evs| - 1;
    var before, ev := evs[..n], evs[n];
    var ts, ws := AllowedTimes(before, lim, key), Run(before, lim);
    var clock := if n == 0 then ev.now else evs[n - 1].now;
    if n == 0 {
      assert before == [];
      NothingYet(lim, key, clock);
    } else {
      RunKeeps(before, lim, key);
    }
    if ev.Request? && ev.key == key {
      RequestKeeps(ts, ws, lim, key, clock, ev.now);
      RequestNext(ws, lim, ev);
    } else {
      OtherKeeps(ts, ws, lim, ev, key, clock);
      assert ts + Admitted(ws, lim, ev, key) == ts;
    }
  }

  lemma RequestNext(ws: Windows, lim: Limits, ev: Event)
    requires ev.Request?
    ensures Next(ws, lim, ev) == Counted(ws, lim, ev.key, ev.now)
  {
  }

  lemma NothingYet(lim: Limits, key: string, clock: int)
    requires lim.rate >= 1
    ensures KeyInv([], map[], lim, key, clock)
  {
  }

  /**
   * With a clock that never goes back, any closed interval one window long holds at most 2 * rate - 1
   * allowed requests of a key, one less than the burst the documentation concedes.
   */
  lemma AtMostTwiceTheRate(evs: seq<Event>, lim: Limits, key: string, a: int)
    requires lim.rate >= 1 && Monotone(evs)
    ensures CountIn(AllowedTimes(evs, lim, key), a, a + lim.window) <= 2 * lim.rate - 1
  {
    if lim.window < 0 {
      CountAtMost(AllowedTimes(evs, lim, key), a, a + lim.window);
    } else if evs != [] {
      RunKeeps(evs, lim, key);
      assert CountFrom(AllowedTimes(evs, lim, key), a, lim.window) <= 2 * lim.rate - 1;
    }
  }

  lemma {:induction false} CountAll(c: seq<int>, a: int, b: int)
    requires forall i :: 0 <= i < |c| ==> a <= c[i] <= b
    ensures CountIn(c, a, b) == |c|
  {
    if c != [] {
      CountAll(c[..|c| - 1], a, b);
    }
  }

  /** A request is refused only if `rate` requests of its key were allowed within one window up to now. */
  lemma RefusalIsEarned(evs: seq<Event>, lim: Limits, key: string, now: int)
    requires lim.rate >= 1 && lim.window >= 0 && Monotone(evs) && (evs != [] ==> evs[|evs| - 1].now <= now)
    requires !Allows(Run(evs, lim), lim, key, now)
    ensures CountIn(AllowedTimes(evs, lim, key), now - lim.window, now) >= lim.rate
  {
    hide Bounded, CountIn;
    RunKeeps(evs, lim, key);
    var ts, ws := AllowedTimes(evs, lim, key), Run(evs, lim);
    var p, c, s :| ts == p + c && Split(p, c, s, lim) && s <= evs[|evs| - 1].now && ws[key] == Window(|c|, s);
    CountConcat(p, c, now - lim.window, now);
    forall i | 0 <= i < |c|
      ensures now - lim.window <= c[i] <= now
    {
      assert (p + c)[|p| + i] == c[i];
    }
    CountAll(c, now - lim.window, now);
  }

  // ----- the bound is met -----

  function Burst(key: string, t: int, k: nat): seq<Event> {
    if k == 0 then [] else Burst(key, t, k - 1) + [Request(key, t)]
  }

  function Repeat(t: int, k: nat): seq<int> {
    if k == 0 then [] else Repeat(t, k - 1) + [t]
  }

  /** `k` more requests at one instant fit into an open window. */
  lemma {:induction false} BurstFits(evs: seq<Event>, lim: Limits, key: string, t: int, k: nat, w: Window)
    requires key in Run(evs, lim) && Run(evs, lim)[key] == w && t - w.start <= lim.window && w.count + k <= lim.rate
    ensures var evs' := evs + Burst(key, t, k);
            key in Run(evs', lim) && Run(evs', lim)[key] == Window(w.count + k, w.start)
            && AllowedTimes(evs', lim, key) == AllowedTimes(evs, lim, key) + Repeat(t, k)
  {
    hide Run, AllowedTimes;
    if k == 0 {
      assert evs + Burst(key, t, k) == evs;
      assert AllowedTimes(evs, lim, key) + Repeat(t, 0) == AllowedTimes(evs, lim, key);
    } else {
      BurstFits(evs, lim, key, t, k - 1, w);
      var mid := evs + Burst(key, t, k - 1);
      var evs' := evs + Burst(key, t, k);
      assert evs' == mid + [Request(key, t)];
      JoinMore(mid, lim, key, t);
      assert AllowedTimes(evs, lim, key) + Repeat(t, k - 1) + [t] == AllowedTimes(evs, lim, key) + Repeat(t, k);
    }
  }

  lemma JoinMore(evs: seq<Event>, lim: Limits, key: string, t: int)
    requires !Opens(Run(evs, lim), lim, key, t) && Run(evs, lim)[key].count < lim.rate
    ensures Run(evs + [Request(key, t)], lim)
            == Run(evs, lim)[key := Window(Run(evs, lim)[key].count + 1, Run(evs, lim)[key].start)]
    ensures AllowedTimes(evs + [Request(key, t)], lim, key) == AllowedTimes(evs, lim, key) + [t]
  {
  }

  lemma {:induction false} RepeatCount(t: int, k: nat, a: int, b: int)
    requires a <= t <= b
    ensures CountIn(Repeat(t, k), a, b) == k
  {
    if k > 0 {
      RepeatCount(t, k - 1, a, b);
      assert Repeat(t, k)[..|Repeat(t, k)| - 1] == Repeat(t, k - 1);
    }
  }

  lemma OneMore(evs: seq<Event>, lim: Limits, key: string, t: int)
    requires Opens(Run(evs, lim), lim, key, t)
    ensures Run(evs + [Request(key, t)], lim) == Run(evs, lim)[key := Window(1, t)]
    ensures AllowedTimes(evs + [Request(key, t)], lim, key) == AllowedTimes(evs, lim, key) + [t]
  {
  }

  /** One request at 0, the rest of its window at the very end of it, and a full window just after. */
  function WorstCase(lim: Limits, key: string): seq<Event>
    requires lim.rate >= 1
  {
    [] + [Request(key, 0)] + Burst(key, lim.window, lim.rate - 1)
    + [Request(key, lim.window + 1)] + Burst(key, lim.window + 1, lim.rate - 1)
  }

  /** The bound is exact for every rate and every window of at least one tick. */
  lemma BoundIsMet(lim: Limits, key: string)
    requires lim.rate >= 1 && lim.window >= 1
    ensures CountIn(AllowedTimes(WorstCase(lim, key), lim, key), 1, 1 + lim.window) == 2 * lim.rate - 1
  {
    hide AllowedTimes, Run, CountIn;
    var w, k := lim.window, lim.rate - 1;
    NoEvents(lim, key);
    OneMore([], lim, key, 0);
    var e1 := [] + [Request(key, 0)];
    BurstFits(e1, lim, key, w, k, Window(1, 0));
    var e2 := e1 + Burst(key, w, k);
    OneMore(e2, lim, key, w + 1);
    var e3 := e2 + [Request(key, w + 1)];
    BurstFits(e3, lim, key, w + 1, k, Window(1, w + 1));
    var ts := [] + [0] + Repeat(w, k) + [w + 1] + Repeat(w + 1, k);
    assert AllowedTimes(WorstCase(lim, key), lim, key) == ts;
    CountConcat([] + [0] + Repeat(w, k) + [w + 1], Repeat(w + 1, k), 1, 1 + w);
    CountConcat([] + [0] + Repeat(w, k), [w + 1], 1, 1 + w);
    CountConcat([] + [0], Repeat(w, k), 1, 1 + w);
    assert [] + [0] == [0];
    CountOne(0, 1, 1 + w);
    CountOne(w + 1, 1, 1 + w);
    RepeatCount(w, k, 1, 1 + w);
    RepeatCount(w + 1, k, 1, 1 + w);
  }

  lemma NoEvents(lim: Limits, key: string)
    ensures Run([], lim) == map[] && AllowedTimes([], lim, key) == [] && WithoutCleanups([]) == []
  {
  }

  // ----- cleanup is invisible -----

  function WithoutCleanups(evs: seq<Event>): seq<Event> {
    if evs == [] then []
    else
      var n := |evs| - 1;
      WithoutCleanups(evs[..n]) + if evs[n].Cleanup? then [] else [evs[n]]
  }

  /** The swept map misses only windows that have run out. */
  ghost predicate Same(ws: Windows, full: Windows, lim: Limits, clock: int) {
    forall key :: (key in ws ==> key in full && full[key] == ws[key])
               && (key in full && key !in ws ==> clock - full[key].start > lim.window)
               && (key in full ==> full[key].start <= clock)
  }

  lemma SameStep(ws: Windows, full: Windows, lim: Limits, clock: int, ev: Event)
    requires Same(ws, full, lim, clock) && clock <= ev.now
    ensures Same(Next(ws, lim, ev), if ev.Cleanup? then full else Next(full, lim, ev), lim, ev.now)
    ensures ev.Request? ==> (Allows(ws, lim, ev.key, ev.now) <==> Allows(full, lim, ev.key, ev.now))
  {
  }

  lemma RunOneMore(evs: seq<Event>, lim: Limits, ev: Event)
    ensures Run(evs + [ev], lim) == Next(Run(evs, lim), lim, ev)
  {
  }

  lemma {:induction false} SweptRunIsSame(evs: seq<Event>, lim: Limits)
    requires Monotone(evs)
    ensures evs == [] || Same(Run(evs, lim), Run(WithoutCleanups(evs), lim), lim, evs[|evs| - 1].now)
  {
    hide Next, Same, Run, WithoutCleanups;
    if evs != [] {
      var n := |evs| - 1;
      var before, ev := evs[..n], evs[n];
      SweptRunIsSame(before, lim);
      var plain := WithoutCleanups(before);
      var ws, full := Run(before, lim), Run(plain, lim);
      var clock := if n == 0 then ev.now else evs[n - 1].now;
      if n == 0 {
        assert before == [];
        NoEvents(lim, "");
        EmptySame(lim, ev.now);
      }
      SameStep(ws, full, lim, clock, ev);
      assert before + [ev] == evs;
      RunOneMore(before, lim, ev);
      RunOneMore(plain, lim, ev);
      SweptTail(before, ev);
      assert plain + [] == plain;
    }
  }

  lemma EmptySame(lim: Limits, clock: int)
    ensures Same(map[], map[], lim, clock)
  {
  }

  lemma SweptTail(before: seq<Event>, ev: Event)
    ensures WithoutCleanups(before + [ev]) == WithoutCleanups(before) + if ev.Cleanup? then [] else [ev]
    ensures !ev.Cleanup? ==>
            WithoutCleanups(before + [ev])[..|WithoutCleanups(before + [ev])| - 1] == WithoutCleanups(before)
  {
  }

  /** Whenever the sweeper runs, exactly the same requests are allowed as if it never ran. */
  lemma {:induction false} CleanupIsInvisible(evs: seq<Event>, lim: Limits, key: string)
    requires Monotone(evs)
    ensures AllowedTimes(evs, lim, key) == AllowedTimes(WithoutCleanups(evs), lim, key)
  {
    hide Next, Same, Run, Allows;
    if evs != [] {
      var n := |evs| - 1;
      var before, ev := evs[..n], evs[n];
      CleanupIsInvisible(before, lim, key);
      SweptRunIsSame(before, lim);
      SweptTail(before, ev);
      assert before + [ev] == evs;
      var ws, full := Run(before, lim), Run(WithoutCleanups(before), lim);
      if n == 0 {
        NoEvents(lim, key);
        EmptySame(lim, ev.now);
        SameStep(ws, full, lim, ev.now, ev);
      } else {
        SameStep(ws, full, lim, evs[n - 1].now, ev);
      }
      if ev.Cleanup? {
        assert WithoutCleanups(before) + [] == WithoutCleanups(before);
      }
    }
  }
}
