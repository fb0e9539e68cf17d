/** What one poll does to the hold queue: who stays, in what order, and who may leave. */
module ServeLoopQueue {
  import opened Wrappers
  import opened RateLimit
  import opened RequestKeys
  import opened AnsweredMemory
  import opened ServeLoop
  import opened ServeLoopSafety

  /** Whether `key` was attempted in the part of the log after its first `n` events. */
  ghost predicate AttemptedAfter(log: seq<Event>, n: nat, key: string) {
    exists i :: n <= i < |log| && log[i].Attempt? && log[i].key == key
  }

  lemma AttemptedStays(log: seq<Event>, more: seq<Event>, n: nat, key: string)
    requires log <= more && AttemptedAfter(log, n, key)
    ensures AttemptedAfter(more, n, key)
  {
    var i :| n <= i < |log| && log[i].Attempt? && log[i].key == key;
    assert more[i] == log[i];
  }

  // ---------------------------------------------------------------------------------------------
  // Conservation and order.

  /** A replay that pacing held back and that did not go back to the queue. */
  predicate Turned(e: Event) {
    e.Paced? && e.isReplay && e.fate != HeldForLater
  }

  lemma {:induction false} WithoutAppend(a: seq<Ask>, b: seq<Ask>, keys: set<string>)
    ensures Without(a + b, keys) == Without(a, keys) + Without(b, keys)
  {
    if b == [] {
      assert a + b == a;
    } else {
      assert (a + b)[..|a + b| - 1] == a + b[..|b| - 1];
      WithoutAppend(a, b[..|b| - 1], keys);
    }
  }

  lemma {:induction false} WithoutTwice(asks: seq<Ask>, first: set<string>, second: set<string>)
    ensures Without(Without(asks, first), second) == Without(asks, first + second)
  {
    if asks != [] {
      var front, last := asks[..|asks| - 1], asks[|asks| - 1];
      WithoutTwice(front, first, second);
      WithoutAppend(Without(front, first), if KeyOf(last) !in first then [last] else [], second);
      assert Without([last], second) == Without([], second) + (if KeyOf(last) !in second then [last] else []);
    }
  }

  lemma {:induction false} WithoutMissing(asks: seq<Ask>, keys: set<string>, key: string)
    requires forall i :: 0 <= i < |asks| ==> KeyOf(asks[i]) != key
    ensures Without(asks, keys + {key}) == Without(asks, keys)
  {
    if asks != [] {
      WithoutMissing(asks[..|asks| - 1], keys, key);
      assert KeyOf(asks[|asks| - 1]) != key;
    }
  }

  lemma RetainConserves(held: seq<Ask>, kept: seq<Ask>, gone: set<string>, key: string)
    ensures Retained(Without(held, gone) + kept, key) == Without(held, gone + {key}) + Without(kept, {key})
  {
    WithoutAppend(Without(held, gone), kept, {key});
    WithoutTwice(held, gone, {key});
  }

  ghost predicate Gone(log: seq<Event>, n0: nat, gone: set<string>) {
    n0 <= |log| && forall key :: key in gone ==> AttemptedAfter(log, n0, key)
  }

  lemma GoneAttempted(s: Loop, t: Loop, n0: nat, gone: set<string>)
    requires Gone(s.log, n0, gone) && s.log <= t.log
    ensures Gone(t.log, n0, gone)
  {
    forall key | key in gone ensures AttemptedAfter(t.log, n0, key) {
      AttemptedStays(s.log, t.log, n0, key);
    }
  }

  ghost predicate KeyedIn(keys: set<string>, asks: seq<Ask>) {
    forall key :: key in keys ==> Holds(asks, key)
  }

  lemma HoldsExtends(done: seq<Ask>, ask: Ask, keys: set<string>)
    requires KeyedIn(keys, done)
    ensures KeyedIn(keys, done + [ask]) && KeyedIn(keys + {KeyOf(ask)}, done + [ask])
  {
    var all := done + [ask];
    assert KeyOf(all[|done|]) == KeyOf(ask);
    forall key | key in keys ensures Holds(all, key) {
      var i :| 0 <= i < |done| && KeyOf(done[i]) == key;
      assert KeyOf(all[i]) == key;
    }
  }

  ghost predicate ReplaysDone(t: Loop, n0: nat, done: seq<Ask>, gone: set<string>) {
    t.deferred == Without(done, gone) && KeyedIn(gone, done) && Gone(t.log, n0, gone)
  }

  lemma WithoutLast(done: seq<Ask>, ask: Ask, keys: set<string>)
    ensures Without(done + [ask], keys) == Without(done, keys) + (if KeyOf(ask) !in keys then [ask] else [])
  {
    assert (done + [ask])[..|done + [ask]| - 1] == done;
  }

  lemma AttemptedIsGone(s: Loop, n0: nat, ask: Ask, isReplay: bool, tick: Tick, gone: set<string>)
    requires Gone(s.log, n0, gone)
    ensures Gone(Attempted(s, ask, isReplay, tick).log, n0, gone + {KeyOf(ask)})
  {
    var t := Attempted(s, ask, isReplay, tick);
    GoneAttempted(s, t, n0, gone);
    assert t.log[|s.log|].Attempt? && t.log[|s.log|].key == KeyOf(ask);
  }

  /** A replay that is attempted is gone. */
  lemma AttemptedReplay(s: Loop, n0: nat, done: seq<Ask>, ask: Ask, tick: Tick, gone: set<string>)
    requires ReplaysDone(s, n0, done, gone) && !Holds(done, KeyOf(ask))
    ensures ReplaysDone(Attempted(s, ask, true, tick), n0, done + [ask], gone + {KeyOf(ask)})
  {
    var key := KeyOf(ask);
    AttemptedIsGone(s, n0, ask, true, tick, gone);
    HoldsExtends(done, ask, gone);
    WithoutLast(done, ask, gone + {key});
    WithoutMissing(done, gone, key);
    WithoutTwice(done, gone, {key});
  }

  /** A replay that is refused goes to the back of the queue. */
  lemma RefusedReplay(s: Loop, n0: nat, done: seq<Ask>, ask: Ask, pending: seq<Ask>, now: nat, gone: set<string>)
    requires HoldShape(s, [ask] + pending) && ReplaysDone(s, n0, done, gone) && !Holds(done, KeyOf(ask))
    ensures ReplaysDone(Deferring(s, ask, true, now), n0, done + [ask], gone)
  {
    WithoutLast(done, ask, gone);
    GoneAttempted(s, Deferring(s, ask, true, now), n0, gone);
    HoldsExtends(done, ask, gone);
    ReplayIsHeld(s, ask, pending, now);
  }

  /** One replay, the next of `done + [ask] + pending`: kept at the back of the queue, or attempted
      and gone. */
  lemma ReplayConserves(s: Loop, n0: nat, done: seq<Ask>, ask: Ask, pending: seq<Ask>, tick: Tick, gone: set<string>)
    returns (now: set<string>)
    requires HoldShape(s, [ask] + pending) && ReplaysDone(s, n0, done, gone) && !Holds(done, KeyOf(ask))
    ensures ReplaysDone(ProcessItem(s, Item(ask, true), tick), n0, done + [ask], now)
  {
    var u := s.(caps := Pruned(s.caps, tick.now));
    assert ReplaysDone(u, n0, done, gone);
    if Permits(u.caps, PairOf(ask), tick.now) {
      now := gone + {KeyOf(ask)};
      AttemptedReplay(u, n0, done, ask, Answer(ask, tick), gone);
    } else {
      now := gone;
      assert HoldShape(u, [ask] + pending);
      RefusedReplay(u, n0, done, ask, pending, tick.now, gone);
    }
  }

  /** The queue while the arrivals are worked through: what is left of the asks held before, then
      what was kept of the arrivals. */
  ghost predicate ArrivalsDone(t: Loop, n0: nat, held: seq<Ask>, arrivals: seq<Ask>, gone: set<string>, kept: seq<Ask>) {
    t.deferred == Without(held, gone) + kept && InOrder(kept, arrivals) && Gone(t.log, n0, gone)
  }

  lemma AttemptedArrival(s: Loop, n0: nat, held: seq<Ask>, arrivals: seq<Ask>, ask: Ask, tick: Tick, gone: set<string>, kept: seq<Ask>)
    returns (now: set<string>, keptNow: seq<Ask>)
    requires ArrivalsDone(s, n0, held, arrivals, gone, kept)
    ensures ArrivalsDone(Attempted(s, ask, false, tick), n0, held, arrivals + [ask], now, keptNow)
  {
    var t, key := Attempted(s, ask, false, tick), KeyOf(ask);
    GoneAttempted(s, t, n0, gone);
    InOrderSkip(kept, arrivals, ask);
    if ApplyOutcome(s.mem, key, tick.outcome).remembered {
      now, keptNow := gone + {key}, Without(kept, {key});
      assert t.log[|s.log|].Attempt? && t.log[|s.log|].key == key;
      RetainConserves(held, kept, gone, key);
      InOrderThinned(kept, arrivals + [ask], {key});
    } else {
      now, keptNow := gone, kept;
    }
  }

  lemma RefusedArrival(s: Loop, n0: nat, held: seq<Ask>, arrivals: seq<Ask>, ask: Ask, at: nat, gone: set<string>, kept: seq<Ask>)
    returns (keptNow: seq<Ask>)
    requires ArrivalsDone(s, n0, held, arrivals, gone, kept)
    ensures ArrivalsDone(Deferring(s, ask, false, at), n0, held, arrivals + [ask], gone, keptNow)
  {
    GoneAttempted(s, Deferring(s, ask, false, at), n0, gone);
    if |s.deferred| < DEFERRED_MAX && !Holds(s.deferred, KeyOf(ask)) {
      keptNow := kept + [ask];
      assert s.deferred + [ask] == Without(held, gone) + keptNow;
      InOrderTake(kept, arrivals, ask);
    } else {
      keptNow := kept;
      InOrderSkip(kept, arrivals, ask);
    }
  }

  /** One arrival: refused by the memory, attempted, already held, dropped at the bound, or queued
      behind everything held before it. */
  lemma ArrivalConserves(s: Loop, n0: nat, held: seq<Ask>, arrivals: seq<Ask>, ask: Ask, tick: Tick, gone: set<string>, kept: seq<Ask>)
    returns (now: set<string>, keptNow: seq<Ask>)
    requires ArrivalsDone(s, n0, held, arrivals, gone, kept)
    ensures ArrivalsDone(ProcessItem(s, Item(ask, false), tick), n0, held, arrivals + [ask], now, keptNow)
  {
    if MayProcess(s.mem.seen, KeyOf(ask), false) {
      var u := s.(caps := Pruned(s.caps, tick.now));
      assert ArrivalsDone(u, n0, held, arrivals, gone, kept);
      if Permits(u.caps, PairOf(ask), tick.now) {
        now, keptNow := AttemptedArrival(u, n0, held, arrivals, ask, Answer(ask, tick), gone, kept);
      } else {
        now := gone;
        keptNow := RefusedArrival(u, n0, held, arrivals, ask, tick.now, gone, kept);
      }
    } else {
      now, keptNow := gone, kept;
      InOrderSkip(kept, arrivals, ask);
    }
  }

  /** `a` is `b` with some elements left out. */
  ghost predicate InOrder(a: seq<Ask>, b: seq<Ask>) {
    a == [] ||
    (b != [] && (InOrder(a, b[..|b| - 1]) || (a[|a| - 1] == b[|b| - 1] && InOrder(a[..|a| - 1], b[..|b| - 1]))))
  }

  lemma InOrderSkip(a: seq<Ask>, b: seq<Ask>, x: Ask)
    requires InOrder(a, b)
    ensures InOrder(a, b + [x])
  {
    assert (b + [x])[..|b + [x]| - 1] == b;
  }

  lemma InOrderTake(a: seq<Ask>, b: seq<Ask>, x: Ask)
    requires InOrder(a, b)
    ensures InOrder(a + [x], b + [x])
  {
    assert (a + [x])[..|a + [x]| - 1] == a && (b + [x])[..|b + [x]| - 1] == b;
  }

  lemma {:induction false} InOrderThinned(a: seq<Ask>, b: seq<Ask>, keys: set<string>)
    requires InOrder(a, b)
    ensures InOrder(Without(a, keys), b)
    decreases |b|
  {
    if a != [] {
      if InOrder(a, b[..|b| - 1]) {
        InOrderThinned(a, b[..|b| - 1], keys);
        InOrderSkip(Without(a, keys), b[..|b| - 1], b[|b| - 1]);
      } else {
        InOrderThinned(a[..|a| - 1], b[..|b| - 1], keys);
        InOrderSkip(Without(a[..|a| - 1], keys), b[..|b| - 1], b[|b| - 1]);
        InOrderTake(Without(a[..|a| - 1], keys), b[..|b| - 1], b[|b| - 1]);
        assert Without(a[..|a| - 1], keys) + [] == Without(a[..|a| - 1], keys);
        assert a == a[..|a| - 1] + [a[|a| - 1]];
      }
      assert b[..|b| - 1] + [b[|b| - 1]] == b;
    }
  }

  ghost predicate NoneTurned(log: seq<Event>, n: nat) {
    forall i :: n <= i < |log| ==> !Turned(log[i])
  }

  lemma ReplayKeepsShape(s: Loop, ask: Ask, pending: seq<Ask>, tick: Tick)
    requires HoldShape(s, [ask] + pending)
    ensures HoldShape(ProcessItem(s, Item(ask, true), tick), pending)
    ensures NoneTurned(ProcessItem(s, Item(ask, true), tick).log, |s.log|)
  {
    hide PairOf, Permits;
    var all := [ask] + pending;
    assert all[0] == ask && forall i :: 0 <= i < |pending| ==> all[i + 1] == pending[i];
    var u := s.(caps := Pruned(s.caps, tick.now));
    assert HoldShape(u, pending);
    if Permits(u.caps, PairOf(ask), tick.now) {
      AttemptKeepsShape(u, pending, ask, true, tick);
    } else {
      assert HoldShape(u, [ask] + pending);
      ReplayIsHeld(u, ask, pending, tick.now);
    }
  }

  lemma ArrivalKeepsShape(s: Loop, ask: Ask, tick: Tick)
    requires HoldShape(s, [])
    ensures HoldShape(ProcessItem(s, Item(ask, false), tick), [])
    ensures NoneTurned(ProcessItem(s, Item(ask, false), tick).log, |s.log|)
  {
    hide KeyOf, PairOf, Holds;
    var u := s.(caps := Pruned(s.caps, tick.now));
    assert HoldShape(u, []);
    AttemptKeepsShape(u, [], ask, false, tick);
    FreshKeepsShape(u, ask, tick.now);
  }

  lemma ItemGrows(s: Loop, item: Item, tick: Tick)
    ensures s.log <= ProcessItem(s, item, tick).log
  {
  }

  ghost predicate ShapeAfter(t: Loop, n0: nat, pending: seq<Ask>) {
    HoldShape(t, pending) && n0 <= |t.log| && NoneTurned(t.log, n0)
  }

  lemma ShapeStep(t: Loop, n0: nat, item: Item, pending: seq<Ask>, tick: Tick)
    requires ShapeAfter(t, n0, if item.isReplay then [item.ask] + pending else [])
    requires !item.isReplay ==> pending == []
    ensures ShapeAfter(ProcessItem(t, item, tick), n0, pending)
  {
    ItemGrows(t, item, tick);
    if item.isReplay {
      ReplayKeepsShape(t, item.ask, pending, tick);
    } else {
      ArrivalKeepsShape(t, item.ask, tick);
    }
  }

  function Pending(held: seq<Ask>, n: nat): seq<Ask> {
    if n <= |held| then held[n..] else []
  }

  lemma ShapeAt(t: Loop, n0: nat, held: seq<Ask>, item: Item, tick: Tick, n: nat)
    requires n > 0 && (if n <= |held| then item == Item(held[n - 1], true) else !item.isReplay)
    requires ShapeAfter(t, n0, Pending(held, n - 1))
    ensures ShapeAfter(ProcessItem(t, item, tick), n0, Pending(held, n))
  {
    if n <= |held| {
      assert Pending(held, n - 1) == [item.ask] + Pending(held, n);
    } else {
      assert Pending(held, n - 1) == [];
    }
    ShapeStep(t, n0, item, Pending(held, n), tick);
  }

  /** Along a poll: the queue fits with the replays still to come, and no replay is turned away. */
  lemma {:induction false} ShapeAlong(s: Loop, held: seq<Ask>, arrivals: seq<Ask>, ticks: nat -> Tick, n: nat)
    requires n <= |held| + |arrivals| && s.deferred == [] && HoldShape(s, held)
    ensures ShapeAfter(Process(s, Items(held, true) + Items(arrivals, false), ticks, n), |s.log|, Pending(held, n))
  {
    var queue := Items(held, true) + Items(arrivals, false);
    if n == 0 {
      assert held[0..] == held;
    } else {
      ShapeAlong(s, held, arrivals, ticks, n - 1);
      ShapeAt(Process(s, queue, ticks, n - 1), |s.log|, held, queue[n - 1], ticks(n - 1), n);
    }
  }

  lemma DistinctEarlier(held: seq<Ask>, n: nat)
    requires 0 < n <= |held| && Distinct(held)
    ensures !Holds(held[..n - 1], KeyOf(held[n - 1]))
  {
  }

  lemma ReplayConservesAt(t: Loop, n0: nat, held: seq<Ask>, n: nat, tick: Tick, before: set<string>) returns (gone: set<string>)
    requires 0 < n <= |held| && Distinct(held) && ShapeAfter(t, n0, Pending(held, n - 1))
    requires ReplaysDone(t, n0, held[..n - 1], before)
    ensures ReplaysDone(ProcessItem(t, Item(held[n - 1], true), tick), n0, held[..n], gone)
  {
    var ask := held[n - 1];
    assert Pending(held, n - 1) == [ask] + held[n..];
    assert held[..n] == held[..n - 1] + [ask];
    DistinctEarlier(held, n);
    gone := ReplayConserves(t, n0, held[..n - 1], ask, held[n..], tick, before);
  }

  /** The queue after the first `n` replays of a poll. */
  lemma {:induction false} ReplaysConserve(s: Loop, held: seq<Ask>, arrivals: seq<Ask>, ticks: nat -> Tick, n: nat)
    returns (gone: set<string>)
    requires n <= |held| && s.deferred == [] && HoldShape(s, held)
    ensures ReplaysDone(Process(s, Items(held, true) + Items(arrivals, false), ticks, n), |s.log|, held[..n], gone)
  {
    if n == 0 {
      gone := {};
      assert held[..0] == [];
    } else {
      var before := ReplaysConserve(s, held, arrivals, ticks, n - 1);
      var queue := Items(held, true) + Items(arrivals, false);
      ShapeAlong(s, held, arrivals, ticks, n - 1);
      assert queue[n - 1] == Item(held[n - 1], true);
      gone := ReplayConservesAt(Process(s, queue, ticks, n - 1), |s.log|, held, n, ticks(n - 1), before);
    }
  }

  /** The queue after all the replays and the first `m` arrivals. */
  lemma {:induction false} ArrivalsConserve(s: Loop, held: seq<Ask>, arrivals: seq<Ask>, ticks: nat -> Tick, m: nat)
    returns (gone: set<string>, kept: seq<Ask>)
    requires m <= |arrivals| && s.deferred == [] && HoldShape(s, held)
    ensures ArrivalsDone(Process(s, Items(held, true) + Items(arrivals, false), ticks, |held| + m), |s.log|, held, arrivals[..m], gone, kept)
    decreases m
  {
    if m == 0 {
      gone := ReplaysConserve(s, held, arrivals, ticks, |held|);
      kept := [];
      assert held[..|held|] == held;
      assert Without(held, gone) + [] == Without(held, gone);
    } else {
      var gone0, kept0 := ArrivalsConserve(s, held, arrivals, ticks, m - 1);
      var queue := Items(held, true) + Items(arrivals, false);
      var t := Process(s, queue, ticks, |held| + m - 1);
      var ask := arrivals[m - 1];
      assert queue[|held| + m - 1] == Item(ask, false);
      assert arrivals[..m] == arrivals[..m - 1] + [ask];
      gone, kept := ArrivalConserves(t, |s.log|, held, arrivals[..m - 1], ask, ticks(|held| + m - 1), gone0, kept0);
    }
  }

  lemma Backdated(log: seq<Event>, n: nat, later: nat, gone: set<string>)
    requires n <= later && Gone(log, later, gone)
    ensures Gone(log, n, gone)
  {
    forall key | key in gone ensures AttemptedAfter(log, n, key) {
      var i :| later <= i < |log| && log[i].Attempt? && log[i].key == key;
    }
  }

  /** One poll, on any input: the asks still held from before keep their order, in front of the
      newly held arrivals, in theirs; whoever is missing was attempted in this poll; no replay was
      dropped; and the queue still fits its bound with distinct keys. */
  lemma PollConserves(s: Loop, input: PollInput) returns (gone: set<string>, kept: seq<Ask>)
    requires HoldShape(s, [])
    ensures var t := PollOnce(s, input);
            && t.deferred == Without(s.deferred, gone) + kept
            && InOrder(kept, FreshAsks(input.msgs))
            && Gone(t.log, |s.log|, gone)
            && NoneTurned(t.log, |s.log|)
            && HoldShape(t, [])
  {
    if input.wraps == [] {
      gone, kept := {}, [];
      WithoutNone(s.deferred);
    } else {
      hide HoldShape, ProcessItem, AccessItem, Without, InOrder;
      var s1 := s.(cursor := AdvanceInboxCursor(s.cursor, Newest(input.wraps), input.nowOuter));
      AccessPassGrows(s1, input, |input.msgs|);
      var drained := AccessPass(s1, input, |input.msgs|).(deferred := []);
      var arrivals := FreshAsks(input.msgs);
      var end := PollOnce(s, input);
      DrainedShape(s, drained);
      gone, kept := ArrivalsConserve(drained, s.deferred, arrivals, input.ticks, |arrivals|);
      ShapeAlong(drained, s.deferred, arrivals, input.ticks, |s.deferred| + |arrivals|);
      assert arrivals[..|arrivals|] == arrivals;
      assert Pending(s.deferred, |s.deferred| + |arrivals|) == [];
      Backdated(end.log, |s.log|, |drained.log|, gone);
      ProcessGrows(drained, QueueOf(s, input), input.ticks, |QueueOf(s, input)|);
      AllAttempts(s.log, drained.log, end.log);
    }
  }

  lemma DrainedShape(s: Loop, drained: Loop)
    requires HoldShape(s, []) && drained.deferred == []
    ensures HoldShape(drained, s.deferred)
  {
  }

  lemma AllAttempts(start: seq<Event>, drained: seq<Event>, end: seq<Event>)
    requires start <= drained <= end && NoneTurned(end, |drained|)
    requires forall i :: |start| <= i < |drained| ==> drained[i].Attempt?
    ensures NoneTurned(end, |start|)
  {
    forall i | |start| <= i < |end| ensures !Turned(end[i]) {
      if i < |drained| { assert end[i] == drained[i]; }
    }
  }

  lemma {:induction false} WithoutNone(asks: seq<Ask>)
    ensures Without(asks, {}) == asks
  {
    if asks != [] { WithoutNone(asks[..|asks| - 1]); }
  }

  lemma {:induction false} RunKeepsShape(loaded: set<string>, polls: seq<PollInput>)
    ensures HoldShape(Run(Start(loaded), polls), [])
  {
    if polls != [] {
      RunKeepsShape(loaded, polls[..|polls| - 1]);
      var _, _ := PollConserves(Run(Start(loaded), polls[..|polls| - 1]), polls[|polls| - 1]);
    }
  }
}
