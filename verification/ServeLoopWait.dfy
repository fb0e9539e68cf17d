/** How long the oldest held ask can wait: it is attempted by the first draining poll 360 seconds
    after the last serve that went before it, as long as no poll's readings run past the end of what
    keeps the ask waiting. The loop reads the clock again for every request; a clock that passes that
    moment between the oldest ask and an arrival behind it takes the bound away. */
module ServeLoopWait {
  import opened Wrappers
  import opened RateLimit
  import opened RequestKeys
  import opened AnsweredMemory
  import opened ServeLoop
  import opened ServeLoopSafety
  import opened ServeLoopQueue
  import opened ServeLoopLimits

  const HOLD_BOUND_SECS: nat := PER_PAIR_COOLDOWN_SECS + GLOBAL_WINDOW_SECS

  predicate Refuses(c: Caps, pair: string, now: nat) {
    !Permits(Pruned(c, now), pair, now)
  }

  ghost predicate RisingReadings(ticks: nat -> Tick, n: nat) {
    forall i, j :: 0 <= i < j < n ==> ticks(i).now <= ticks(j).now
  }

  /** Of the poll's `n` readings none goes back, and if the limiter refuses the pair at the first it
      does so at all of them: no window stamp that mattered expires between them, nor the cooldown. */
  ghost predicate Steady(c: Caps, pair: string, ticks: nat -> Tick, n: nat) {
    RisingReadings(ticks, n) && (Refuses(c, pair, ticks(0).now) ==> forall i: nat :: i < n ==> Refuses(c, pair, ticks(i).now))
  }

  ghost predicate SteadyPoll(s: Loop, ask: Ask, input: PollInput) {
    Steady(s.caps, PairOf(ask), input.ticks, |QueueOf(s, input)|)
  }

  ghost predicate OneClock(input: PollInput, now: nat) {
    forall i :: input.ticks(i).now == now
  }

  /** A poll that decides everything at one reading is steady, whatever the limiter holds. */
  lemma OneClockIsSteady(s: Loop, ask: Ask, input: PollInput, now: nat)
    requires OneClock(input, now)
    ensures SteadyPoll(s, ask, input)
  {
    assert input.ticks(0).now == now;
  }

  ghost predicate Oldest(s: Loop, ask: Ask) {
    s.deferred != [] && s.deferred[0] == ask
  }

  /** What is known of the limiter while `ask` waits: its pair was last served by `since`, and
      everything in the window is stamped before the pair's cooldown has run out. */
  ghost predicate Waiting(c: Caps, pair: string, since: nat) {
    && (pair in c.perPair ==> c.perPair[pair] <= since)
    && (forall i :: 0 <= i < |c.global| ==> c.global[i] < since + PER_PAIR_COOLDOWN_SECS)
  }

  ghost predicate StampedBy(c: Caps, now: nat) {
    && (forall p :: p in c.perPair ==> c.perPair[p] <= now)
    && (forall i :: 0 <= i < |c.global| ==> c.global[i] <= now)
  }

  lemma PrunedSubset(c: Caps, now: nat)
    ensures forall x :: x in Pruned(c, now).global ==> x in c.global
    ensures Pruned(Pruned(c, now), now) == Pruned(c, now)
  {
    var n := DropUntilSplits(c.global, SatSub(now, GLOBAL_WINDOW_SECS));
    assert Pruned(c, now).global == c.global[n..];
  }

  lemma PrunedWaits(c: Caps, pair: string, since: nat, now: nat)
    requires Waiting(c, pair, since)
    ensures Waiting(Pruned(c, now), pair, since)
    ensures now >= since + HOLD_BOUND_SECS ==> Pruned(c, now).global == []
  {
    PrunedSubset(c, now);
    var n := DropUntilSplits(c.global, SatSub(now, GLOBAL_WINDOW_SECS));
    assert Pruned(c, now).global == c.global[n..];
    forall i | 0 <= i < |c.global[n..]| ensures c.global[n..][i] < since + PER_PAIR_COOLDOWN_SECS {
      assert c.global[n..][i] == c.global[n + i];
    }
  }

  // ---------------------------------------------------------------------------------------------
  // The limiter while the ask waits.

  ghost predicate SameStamp(c: Caps, d: Caps, pair: string) {
    (pair in d.perPair <==> pair in c.perPair) && (pair in c.perPair ==> d.perPair[pair] == c.perPair[pair])
  }

  /** From `now` on, `d` has at least as much left in its window as `c`. */
  ghost predicate AsFull(c: Caps, d: Caps, now: nat) {
    forall time: nat :: time >= now ==> |Pruned(c, time).global| <= |Pruned(d, time).global|
  }

  lemma {:induction false} DropTwice(q: seq<nat>, a: nat, b: nat)
    requires a <= b
    ensures DropUntil(DropUntil(q, a), b) == DropUntil(q, b)
  {
    if q != [] && q[0] <= a { DropTwice(q[1..], a, b); }
  }

  lemma {:induction false} DropMore(q: seq<nat>, x: nat, cutoff: nat)
    ensures |DropUntil(q, cutoff)| <= |DropUntil(q + [x], cutoff)|
  {
    if q != [] && q[0] <= cutoff {
      DropMore(q[1..], x, cutoff);
      assert (q + [x])[1..] == q[1..] + [x];
    }
  }

  lemma PrunedIsAsFull(c: Caps, d: Caps, now: nat, later: nat)
    requires AsFull(c, d, now) && now <= later
    ensures AsFull(c, Pruned(d, later), later)
  {
    forall time: nat | time >= later ensures |Pruned(c, time).global| <= |Pruned(Pruned(d, later), time).global| {
      DropTwice(d.global, SatSub(later, GLOBAL_WINDOW_SECS), SatSub(time, GLOBAL_WINDOW_SECS));
      assert |Pruned(c, time).global| <= |Pruned(d, time).global|;
    }
  }

  lemma RecordedIsAsFull(c: Caps, d: Caps, now: nat, pair: string, at: nat)
    requires AsFull(c, d, now)
    ensures AsFull(c, Recorded(d, pair, at), now)
  {
    forall time: nat | time >= now ensures |Pruned(c, time).global| <= |Pruned(Recorded(d, pair, at), time).global| {
      DropMore(d.global, at, SatSub(time, GLOBAL_WINDOW_SECS));
      assert |Pruned(c, time).global| <= |Pruned(d, time).global|;
    }
  }

  /** During a poll that began with the limiter at `c`: the ask has been attempted, or it still stands
      first in the queue, and what refused it is all still there. */
  ghost predicate Blocked(s: Loop, c: Caps, n0: nat, ask: Ask, since: nat, now: nat) {
    && n0 <= |s.log|
    && (AttemptedAfter(s.log, n0, KeyOf(ask)) ||
        (&& Oldest(s, ask)
         && Waiting(s.caps, PairOf(ask), since)
         && SameStamp(c, s.caps, PairOf(ask)) && AsFull(c, s.caps, now)))
  }

  lemma StillRefused(c: Caps, d: Caps, pair: string, now: nat, later: nat)
    requires SameStamp(c, d, pair) && AsFull(c, d, now) && now <= later && Refuses(c, pair, later)
    ensures Refuses(d, pair, later)
  {
    assert |Pruned(c, later).global| <= |Pruned(d, later).global|;
  }

  /** Another pair can only be served past a blocked ask while the ask's own cooldown is running. */
  lemma RecordKeepsWaiting(d: Caps, pair: string, other: string, since: nat, now: nat)
    requires Waiting(d, pair, since) && !Permits(d, pair, now) && Permits(d, other, now)
    ensures Waiting(Recorded(d, other, now), pair, since) && pair != other
  {
    assert pair in d.perPair && now < since + PER_PAIR_COOLDOWN_SECS;
  }

  /** What another ask's attempt leaves of the wait. */
  lemma AttemptKeepsBlocked(s: Loop, c: Caps, n0: nat, ask: Ask, since: nat, item: Item, tick: Tick, now: nat)
    requires Blocked(s, c, n0, ask, since, now) && !AttemptedAfter(s.log, n0, KeyOf(ask)) && KeyOf(item.ask) != KeyOf(ask)
    requires now <= tick.now && Refuses(c, PairOf(ask), tick.now) && !Refuses(s.caps, PairOf(item.ask), tick.now)
    ensures Blocked(Attempted(s.(caps := Pruned(s.caps, tick.now)), item.ask, item.isReplay, tick), c, n0, ask, since, tick.now)
  {
    var pruned := Pruned(s.caps, tick.now);
    var u := s.(caps := pruned);
    AttemptKeepsOldest(u, ask, item, tick);
    StillRefused(c, s.caps, PairOf(ask), now, tick.now);
    PrunedWaits(s.caps, PairOf(ask), since, tick.now);
    PrunedIsAsFull(c, s.caps, now, tick.now);
    if tick.outcome.Served? {
      RecordKeepsWaiting(pruned, PairOf(ask), PairOf(item.ask), since, tick.now);
      RecordedIsAsFull(c, pruned, tick.now, PairOf(item.ask), tick.now);
    }
  }

  lemma DeferralKeepsBlocked(s: Loop, c: Caps, n0: nat, ask: Ask, since: nat, item: Item, at: nat, now: nat)
    requires Blocked(s, c, n0, ask, since, now) && !AttemptedAfter(s.log, n0, KeyOf(ask)) && now <= at
    ensures Blocked(Deferring(s.(caps := Pruned(s.caps, at)), item.ask, item.isReplay, at), c, n0, ask, since, at)
  {
    PrunedWaits(s.caps, PairOf(ask), since, at);
    PrunedIsAsFull(c, s.caps, now, at);
  }

  /** One later item of the poll leaves the ask where it stood. */
  lemma ItemKeepsBlocked(s: Loop, c: Caps, n0: nat, ask: Ask, since: nat, item: Item, tick: Tick, now: nat)
    requires Blocked(s, c, n0, ask, since, now) && now <= tick.now && Refuses(c, PairOf(ask), tick.now)
    ensures Blocked(ProcessItem(s, item, tick), c, n0, ask, since, tick.now)
  {
    hide Attempted, Deferring, Permits, Waiting, AsFull, SameStamp;
    var t, key := ProcessItem(s, item, tick), KeyOf(item.ask);
    if AttemptedAfter(s.log, n0, KeyOf(ask)) {
      ItemGrows(s, item, tick);
      AttemptedStays(s.log, t.log, n0, KeyOf(ask));
    } else if !MayProcess(s.mem.seen, key, item.isReplay) {
      LaterIsAsFull(c, s.caps, now, tick.now);
    } else if Refuses(s.caps, PairOf(item.ask), tick.now) {
      DeferralKeepsBlocked(s, c, n0, ask, since, item, tick.now, now);
    } else if key == KeyOf(ask) {
      OwnAttempt(s.(caps := Pruned(s.caps, tick.now)), n0, item, Answer(item.ask, tick));
    } else {
      AttemptKeepsBlocked(s, c, n0, ask, since, item, Answer(item.ask, tick), now);
    }
  }

  lemma LaterIsAsFull(c: Caps, d: Caps, now: nat, later: nat)
    requires AsFull(c, d, now) && now <= later
    ensures AsFull(c, d, later)
  {
  }

  lemma OwnAttempt(s: Loop, n0: nat, item: Item, tick: Tick)
    requires n0 <= |s.log|
    ensures var t := Attempted(s, item.ask, item.isReplay, tick);
            n0 <= |t.log| && AttemptedAfter(t.log, n0, KeyOf(item.ask))
  {
    var t := Attempted(s, item.ask, item.isReplay, tick);
    assert t.log[|s.log|].Attempt? && t.log[|s.log|].key == KeyOf(item.ask);
  }

  lemma AttemptKeepsOldest(s: Loop, ask: Ask, item: Item, tick: Tick)
    requires Oldest(s, ask) && KeyOf(item.ask) != KeyOf(ask)
    ensures Oldest(Attempted(s, item.ask, item.isReplay, tick), ask)
  {
    var key := KeyOf(item.ask);
    assert s.deferred == [ask] + s.deferred[1..];
    WithoutAppend([ask], s.deferred[1..], {key});
    assert Without([ask], {key}) == Without([], {key}) + [ask];
  }

  lemma {:induction false} ProcessKeepsBlocked(s: Loop, ask: Ask, since: nat, queue: seq<Item>, ticks: nat -> Tick, n: nat)
    requires 0 < n <= |queue| && RisingReadings(ticks, |queue|)
    requires forall i: nat :: i < |queue| ==> Refuses(s.caps, PairOf(ask), ticks(i).now)
    requires Blocked(Process(s, queue, ticks, 1), s.caps, |s.log|, ask, since, ticks(0).now)
    ensures Blocked(Process(s, queue, ticks, n), s.caps, |s.log|, ask, since, ticks(n - 1).now)
  {
    if n > 1 {
      ProcessKeepsBlocked(s, ask, since, queue, ticks, n - 1);
      assert ticks(n - 2).now <= ticks(n - 1).now;
      ItemKeepsBlocked(Process(s, queue, ticks, n - 1), s.caps, |s.log|, ask, since, queue[n - 1], ticks(n - 1), ticks(n - 2).now);
    }
  }

  /** The oldest ask is decided first in its poll: attempted, or refused and first in line again. */
  lemma FirstDecision(s: Loop, ask: Ask, since: nat, tick: Tick)
    requires s.deferred == [] && Waiting(s.caps, PairOf(ask), since)
    ensures var t := ProcessItem(s, Item(ask, true), tick);
            && Blocked(t, s.caps, |s.log|, ask, since, tick.now)
            && (!Refuses(s.caps, PairOf(ask), tick.now) ==> AttemptedAfter(t.log, |s.log|, KeyOf(ask)))
  {
    var u := s.(caps := Pruned(s.caps, tick.now));
    PrunedWaits(s.caps, PairOf(ask), since, tick.now);
    if Refuses(s.caps, PairOf(ask), tick.now) {
      PrunedIsAsFull(s.caps, s.caps, 0, tick.now);
    } else {
      OwnAttempt(u, |s.log|, Item(ask, true), Answer(ask, tick));
    }
  }

  /** Past the bound nothing refuses the ask. */
  lemma BoundAdmits(c: Caps, pair: string, since: nat, now: nat)
    requires Waiting(c, pair, since) && now >= since + HOLD_BOUND_SECS
    ensures !Refuses(c, pair, now)
  {
    PrunedWaits(c, pair, since, now);
  }

  lemma {:induction false} AccessPassKeepsRest(s: Loop, input: PollInput, n: nat)
    requires n <= |input.msgs|
    ensures var t := AccessPass(s, input, n);
            t.caps == s.caps && t.deferred == s.deferred
  {
    if n > 0 { AccessPassKeepsRest(s, input, n - 1); }
  }

  /** What a poll may leave of the ask: attempted since, or still first, waiting as before. */
  ghost predicate StillWaits(t: Loop, n0: nat, ask: Ask, since: nat) {
    n0 <= |t.log| && (AttemptedAfter(t.log, n0, KeyOf(ask)) || (Oldest(t, ask) && Waiting(t.caps, PairOf(ask), since)))
  }

  lemma FirstOf(s: Loop, queue: seq<Item>, ticks: nat -> Tick)
    requires queue != []
    ensures Process(s, queue, ticks, 1) == ProcessItem(s, queue[0], ticks(0))
  {
    assert Process(s, queue, ticks, 0) == s;
  }

  lemma BlockedWaits(t: Loop, c: Caps, n0: nat, ask: Ask, since: nat, now: nat)
    requires Blocked(t, c, n0, ask, since, now)
    ensures StillWaits(t, n0, ask, since)
  {
  }

  /** The whole queue of a poll, from the limiter the poll began with. */
  lemma QueueServesOldest(s: Loop, ask: Ask, since: nat, queue: seq<Item>, ticks: nat -> Tick)
    requires s.deferred == [] && Waiting(s.caps, PairOf(ask), since)
    requires queue != [] && queue[0] == Item(ask, true) && Steady(s.caps, PairOf(ask), ticks, |queue|)
    ensures var t := Process(s, queue, ticks, |queue|);
            && StillWaits(t, |s.log|, ask, since)
            && (ticks(0).now >= since + HOLD_BOUND_SECS ==> AttemptedAfter(t.log, |s.log|, KeyOf(ask)))
  {
    hide ProcessItem, Process, Refuses, Waiting, Blocked;
    FirstOf(s, queue, ticks);
    FirstDecision(s, ask, since, ticks(0));
    if Refuses(s.caps, PairOf(ask), ticks(0).now) {
      ProcessKeepsBlocked(s, ask, since, queue, ticks, |queue|);
      BlockedWaits(Process(s, queue, ticks, |queue|), s.caps, |s.log|, ask, since, ticks(|queue| - 1).now);
      if ticks(0).now >= since + HOLD_BOUND_SECS { BoundAdmits(s.caps, PairOf(ask), since, ticks(0).now); }
    } else {
      ProcessExtends(s, queue, ticks, 1, |queue|);
      AttemptedStays(Process(s, queue, ticks, 1).log, Process(s, queue, ticks, |queue|).log, |s.log|, KeyOf(ask));
    }
  }

  lemma WaitsSinceBefore(t: Loop, n: nat, later: nat, ask: Ask, since: nat)
    requires n <= later && StillWaits(t, later, ask, since)
    ensures StillWaits(t, n, ask, since) && (AttemptedAfter(t.log, later, KeyOf(ask)) ==> AttemptedAfter(t.log, n, KeyOf(ask)))
  {
    if AttemptedAfter(t.log, later, KeyOf(ask)) {
      Backdated(t.log, n, later, {KeyOf(ask)});
    }
  }

  /** One steady poll: the oldest ask is attempted, or it is still the oldest and nothing that could
      delay it further was recorded; past the bound it is attempted. */
  lemma PollServesOldest(s: Loop, ask: Ask, since: nat, input: PollInput)
    requires Oldest(s, ask) && Waiting(s.caps, PairOf(ask), since) && SteadyPoll(s, ask, input)
    ensures var t := PollOnce(s, input);
            && StillWaits(t, |s.log|, ask, since)
            && (input.wraps != [] && input.ticks(0).now >= since + HOLD_BOUND_SECS ==> AttemptedAfter(t.log, |s.log|, KeyOf(ask)))
  {
    hide ProcessItem, AccessItem;
    if input.wraps != [] {
      var s1 := s.(cursor := AdvanceInboxCursor(s.cursor, Newest(input.wraps), input.nowOuter));
      AccessPassGrows(s1, input, |input.msgs|);
      AccessPassKeepsRest(s1, input, |input.msgs|);
      var drained := AccessPass(s1, input, |input.msgs|).(deferred := []);
      var queue := QueueOf(s, input);
      assert queue[0] == Item(ask, true);
      QueueServesOldest(drained, ask, since, queue, input.ticks);
      WaitsSinceBefore(PollOnce(s, input), |s.log|, |drained.log|, ask, since);
    }
  }

  /** One poll more, whether the ask was attempted before it or not. */
  lemma PollKeepsWaiting(s: Loop, n0: nat, ask: Ask, since: nat, input: PollInput)
    requires StillWaits(s, n0, ask, since) && (Oldest(s, ask) ==> SteadyPoll(s, ask, input))
    ensures var t := PollOnce(s, input);
            && StillWaits(t, n0, ask, since)
            && (AttemptedAfter(s.log, n0, KeyOf(ask)) ==> AttemptedAfter(t.log, n0, KeyOf(ask)))
            && (input.wraps != [] && input.ticks(0).now >= since + HOLD_BOUND_SECS ==> AttemptedAfter(t.log, n0, KeyOf(ask)))
  {
    hide PollOnce, Waiting, SteadyPoll;
    if AttemptedAfter(s.log, n0, KeyOf(ask)) {
      PollExtends(s, input);
      AttemptedStays(s.log, PollOnce(s, input).log, n0, KeyOf(ask));
    } else {
      PollServesOldest(s, ask, since, input);
      WaitsSinceBefore(PollOnce(s, input), n0, |s.log|, ask, since);
    }
  }

  lemma PollExtends(s: Loop, input: PollInput)
    ensures s.log <= PollOnce(s, input).log
  {
    hide PollOnce;
    LogGrows(s, [input]);
    OnePoll(s, input);
  }

  lemma {:induction false} ProcessExtends(s: Loop, queue: seq<Item>, ticks: nat -> Tick, m: nat, n: nat)
    requires m <= n <= |queue|
    ensures Process(s, queue, ticks, m).log <= Process(s, queue, ticks, n).log
  {
    if m < n {
      ProcessExtends(s, queue, ticks, m, n - 1);
      ItemGrows(Process(s, queue, ticks, n - 1), queue[n - 1], ticks(n - 1));
    }
  }

  /** While the ask is the oldest, no poll's readings run past the end of what refuses it. */
  ghost predicate SteadyRun(s: Loop, ask: Ask, polls: seq<PollInput>) {
    forall i :: 0 <= i < |polls| && Oldest(Run(s, polls[..i]), ask) ==> SteadyPoll(Run(s, polls[..i]), ask, polls[i])
  }

  /** Whatever arrives, the oldest held ask is attempted no later than the first draining poll that
      begins 360 seconds after `since`, the newest stamp recorded while it became the oldest, if the
      polls are steady. Polls that fetch nothing may come between; they do not drain and do not
      count. */
  lemma {:induction false} OldestAskIsServed(s: Loop, ask: Ask, since: nat, polls: seq<PollInput>)
    requires Oldest(s, ask) && StampedBy(s.caps, since) && SteadyRun(s, ask, polls)
    ensures var t := Run(s, polls);
            && s.log <= t.log
            && (AttemptedAfter(t.log, |s.log|, KeyOf(ask)) || (Oldest(t, ask) && Waiting(t.caps, PairOf(ask), since)))
            && ((exists i :: 0 <= i < |polls| && polls[i].wraps != [] && polls[i].ticks(0).now >= since + HOLD_BOUND_SECS)
                ==> AttemptedAfter(t.log, |s.log|, KeyOf(ask)))
  {
    hide PollOnce, Oldest, Waiting, SteadyPoll;
    LogGrows(s, polls);
    if polls == [] {
      StampedWaits(s.caps, PairOf(ask), since);
    } else {
      var n := |polls| - 1;
      var front := polls[..n];
      SteadyFront(s, ask, polls);
      OldestAskIsServed(s, ask, since, front);
      PollKeepsWaiting(Run(s, front), |s.log|, ask, since, polls[n]);
      assert forall i :: 0 <= i < n ==> front[i] == polls[i];
    }
  }

  lemma StampedWaits(c: Caps, pair: string, since: nat)
    requires StampedBy(c, since)
    ensures Waiting(c, pair, since)
  {
  }

  lemma SteadyFront(s: Loop, ask: Ask, polls: seq<PollInput>)
    requires SteadyRun(s, ask, polls) && polls != []
    ensures SteadyRun(s, ask, polls[..|polls| - 1])
    ensures Oldest(Run(s, polls[..|polls| - 1]), ask) ==> SteadyPoll(Run(s, polls[..|polls| - 1]), ask, polls[|polls| - 1])
  {
    hide Run, Oldest, SteadyPoll;
    var front := polls[..|polls| - 1];
    forall i | 0 <= i < |front| && Oldest(Run(s, front[..i]), ask) ensures SteadyPoll(Run(s, front[..i]), ask, front[i]) {
      assert front[..i] == polls[..i];
    }
  }

  /** In a run whose clock never goes back, `since` can be the last clock the loop has read. */
  lemma ReachableIsStamped(loaded: set<string>, polls: seq<PollInput>)
    requires ClocksRise(Run(Start(loaded), polls).log)
    ensures StampedBy(Run(Start(loaded), polls).caps, LastRead(Run(Start(loaded), polls).log))
  {
    RunKeepsLimits(loaded, polls);
  }
}
