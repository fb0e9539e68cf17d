/** What the serve loop bounds in every run, whatever messages arrive: the rate of serves, and the
    size of its two memories. */
module ServeLoopLimits {
  import opened Wrappers
  import opened RateLimit
  import opened AnsweredMemory
  import opened ServeLoop

  // ---------------------------------------------------------------------------------------------
  // Reading the log.

  /** The successful manifest serves of a log, in order. */
  ghost function Serves(log: seq<Event>): seq<Serve> {
    if log == [] then []
    else
      var e := log[|log| - 1];
      Serves(log[..|log| - 1]) +
      (if e.Attempt? && e.outcome.Served? && e.source.ManifestServe? then [Serve(PairOf(e.source.ask), e.source.at)] else [])
  }

  /** The clock an event's pacing decision read, if it made one. */
  function ClockRead(e: Event): Option<nat> {
    match e
    case Loaded(_) => None
    case Attempt(_, _, source, _, _, _) => if source.ManifestServe? then Some(source.at) else None
    case Paced(_, at, _, _) => Some(at)
  }

  ghost function LastRead(log: seq<Event>): nat {
    if log == [] then 0
    else
      var e := log[|log| - 1];
      if ClockRead(e).Some? then ClockRead(e).value else LastRead(log[..|log| - 1])
  }

  /** The clocks the pacing decisions read never went backwards. */
  ghost predicate ClocksRise(log: seq<Event>) {
    log != [] ==>
      var rest := log[..|log| - 1];
      && ClocksRise(rest)
      && (ClockRead(log[|log| - 1]).Some? ==> LastRead(rest) <= ClockRead(log[|log| - 1]).value)
  }

  ghost predicate ClocksPositive(log: seq<Event>) {
    forall i :: 0 <= i < |log| ==> ClockRead(log[i]) != Some(0)
  }

  lemma Appended(log: seq<Event>, e: Event)
    ensures Serves(log + [e]) == Serves(log) +
              (if e.Attempt? && e.outcome.Served? && e.source.ManifestServe? then [Serve(PairOf(e.source.ask), e.source.at)] else [])
    ensures LastRead(log + [e]) == if ClockRead(e).Some? then ClockRead(e).value else LastRead(log)
    ensures ClocksRise(log + [e]) <==> ClocksRise(log) && (ClockRead(e).Some? ==> LastRead(log) <= ClockRead(e).value)
  {
    assert (log + [e])[..|log + [e]| - 1] == log;
  }

  // ---------------------------------------------------------------------------------------------
  // The invariant, item by item.

  ghost predicate Limited(s: Loop, loaded: set<string>) {
    && Bounded(s.mem, loaded)
    && PaceKnown(s.caps, s.log)
  }

  ghost predicate PaceKnown(caps: Caps, log: seq<Event>) {
    ClocksRise(log) ==> LimiterInv(caps, Serves(log), LastRead(log))
  }

  lemma AccessKeepsLimits(s: Loop, msg: Msg, blocked: set<string>, f: AccessFacts, loaded: set<string>)
    requires Limited(s, loaded)
    ensures Limited(AccessItem(s, msg, blocked, f), loaded)
  {
    hide LimiterInv, Bounded;
    if AttemptsGrant(s.mem.seen, msg, blocked, f) {
      ApplyKeepsBounds(s.mem, loaded, RequestKeys.AccessKey(msg.from, msg.content.nonce), f.outcome);
      Appended(s.log, AccessItem(s, msg, blocked, f).log[|s.log|]);
      assert Serves(s.log) + [] == Serves(s.log);
    }
  }

  /** The clock and the limiter, across one pacing decision. */
  lemma DecisionKeepsLimiter(s: Loop, e: Event, pair: string, now: nat)
    requires PaceKnown(s.caps, s.log)
    requires ClockRead(e) == Some(now)
    requires e.Attempt? ==> PairOf(e.source.ask) == pair
    requires e.Attempt? && e.outcome.Served? ==> Permits(Pruned(s.caps, now), pair, now)
    ensures var caps := if e.Attempt? && e.outcome.Served? then Recorded(Pruned(s.caps, now), pair, now) else Pruned(s.caps, now);
            PaceKnown(caps, s.log + [e])
  {
    Appended(s.log, e);
    if ClocksRise(s.log + [e]) {
      PruneKeeps(s.caps, Serves(s.log), LastRead(s.log), now);
      if e.Attempt? && e.outcome.Served? {
        RecordKeeps(Pruned(s.caps, now), Serves(s.log), pair, now);
      } else {
        assert Serves(s.log + [e]) == Serves(s.log);
      }
    }
  }

  lemma AttemptKeepsPace(s: Loop, ask: Ask, isReplay: bool, tick: Tick)
    requires PaceKnown(s.caps, s.log) && Permits(Pruned(s.caps, tick.now), PairOf(ask), tick.now)
    ensures var t := Attempted(s.(caps := Pruned(s.caps, tick.now)), ask, isReplay, tick);
            PaceKnown(t.caps, t.log)
  {
    var t := Attempted(s.(caps := Pruned(s.caps, tick.now)), ask, isReplay, tick);
    var e := t.log[|s.log|];
    assert t.log == s.log + [e];
    DecisionKeepsLimiter(s, e, PairOf(ask), tick.now);
  }

  lemma DeferralKeepsPace(s: Loop, ask: Ask, isReplay: bool, now: nat)
    requires PaceKnown(s.caps, s.log)
    ensures var t := Deferring(s.(caps := Pruned(s.caps, now)), ask, isReplay, now);
            PaceKnown(t.caps, t.log)
  {
    var t := Deferring(s.(caps := Pruned(s.caps, now)), ask, isReplay, now);
    var e := t.log[|s.log|];
    assert t.log == s.log + [e];
    DecisionKeepsLimiter(s, e, PairOf(ask), now);
  }

  lemma ItemKeepsLimits(s: Loop, item: Item, tick: Tick, loaded: set<string>)
    requires Limited(s, loaded)
    ensures Limited(ProcessItem(s, item, tick), loaded)
  {
    hide Bounded, LimiterInv, ApplyOutcome;
    var pruned := Pruned(s.caps, tick.now);
    if MayProcess(s.mem.seen, KeyOf(item.ask), item.isReplay) {
      if Permits(pruned, PairOf(item.ask), tick.now) {
        var answer := Answer(item.ask, tick);
        AttemptKeepsPace(s, item.ask, item.isReplay, answer);
        ApplyKeepsBounds(s.mem, loaded, KeyOf(item.ask), answer.outcome);
      } else {
        DeferralKeepsPace(s, item.ask, item.isReplay, tick.now);
      }
    }
  }

  lemma {:induction false} AccessPassKeepsLimits(s: Loop, input: PollInput, n: nat, loaded: set<string>)
    requires n <= |input.msgs| && Limited(s, loaded)
    ensures Limited(AccessPass(s, input, n), loaded)
  {
    if n > 0 {
      AccessPassKeepsLimits(s, input, n - 1, loaded);
      AccessKeepsLimits(AccessPass(s, input, n - 1), input.msgs[n - 1], input.blocked, input.facts(n - 1), loaded);
    }
  }

  lemma {:induction false} ProcessKeepsLimits(s: Loop, queue: seq<Item>, ticks: nat -> Tick, n: nat, loaded: set<string>)
    requires n <= |queue| && Limited(s, loaded)
    ensures Limited(Process(s, queue, ticks, n), loaded)
  {
    if n > 0 {
      ProcessKeepsLimits(s, queue, ticks, n - 1, loaded);
      ItemKeepsLimits(Process(s, queue, ticks, n - 1), queue[n - 1], ticks(n - 1), loaded);
    }
  }

  lemma PollKeepsLimits(s: Loop, input: PollInput, loaded: set<string>)
    requires Limited(s, loaded)
    ensures Limited(PollOnce(s, input), loaded)
  {
    if input.wraps != [] {
      var s1 := s.(cursor := AdvanceInboxCursor(s.cursor, Newest(input.wraps), input.nowOuter));
      AccessPassKeepsLimits(s1, input, |input.msgs|, loaded);
      var queue := QueueOf(s, input);
      ProcessKeepsLimits(AccessPass(s1, input, |input.msgs|).(deferred := []), queue, input.ticks, |queue|, loaded);
    }
  }

  lemma {:induction false} RunKeepsLimits(loaded: set<string>, polls: seq<PollInput>)
    ensures Limited(Run(Start(loaded), polls), loaded)
  {
    if polls == [] {
      Appended([], Loaded(loaded));
      assert [] + [Loaded(loaded)] == [Loaded(loaded)];
    } else {
      RunKeepsLimits(loaded, polls[..|polls| - 1]);
      PollKeepsLimits(Run(Start(loaded), polls[..|polls| - 1]), polls[|polls| - 1], loaded);
    }
  }

  // ---------------------------------------------------------------------------------------------
  // The results, for every run.

  lemma {:induction false} ServesAreRead(log: seq<Event>)
    requires ClocksPositive(log)
    ensures forall i :: 0 <= i < |Serves(log)| ==> Serves(log)[i].at > 0
  {
    if log != [] {
      ServesAreRead(log[..|log| - 1]);
      assert ClockRead(log[|log| - 1]) != Some(0);
    }
  }

  /** Every 300-second window of every run holds at most 32 successful manifest serves, and two
      serves under one pace key are at least 60 seconds apart, while the clock does not go back.
      The window needs the clock to be past zero as well. */
  lemma EveryRunIsPaced(loaded: set<string>, polls: seq<PollInput>, end: nat)
    requires ClocksRise(Run(Start(loaded), polls).log)
    ensures var h := Serves(Run(Start(loaded), polls).log);
            && PairsSpaced(h)
            && CountIn(h, SatSub(end, GLOBAL_WINDOW_SECS), end) <= GLOBAL_MAX
            && (ClocksPositive(Run(Start(loaded), polls).log) ==> CountIn(h, end - GLOBAL_WINDOW_SECS, end) <= GLOBAL_MAX)
  {
    RunKeepsLimits(loaded, polls);
    var log := Run(Start(loaded), polls).log;
    WindowCount(Serves(log), LastRead(log), SatSub(end, GLOBAL_WINDOW_SECS), end);
    if ClocksPositive(log) {
      ServesAreRead(log);
      WindowBound(Serves(log), LastRead(log), end);
    }
  }

  /** Stored counts stay below 36 over at most 1024 keys, and the memory within 4096 keys once it
      has ever been written. */
  lemma EveryRunIsBounded(loaded: set<string>, polls: seq<PollInput>)
    ensures var m := Run(Start(loaded), polls).mem;
            && (|m.seen| <= SEEN_REQUESTS_MAX || m.seen == loaded)
            && |m.attempts| <= SERVE_ATTEMPT_KEYS_MAX
            && (forall k :: k in m.attempts ==> 1 <= m.attempts[k] < SERVE_ATTEMPTS_MAX)
  {
    RunKeepsLimits(loaded, polls);
  }

  /** Whatever stamps the gift-wraps carry, the fetch cursor never passes the newest clock a poll
      has read, so the inbox window can never open in the future. */
  lemma {:induction false} CursorNeverPassesNow(s: Loop, polls: seq<PollInput>, now: nat)
    requires s.cursor <= now
    requires forall i :: 0 <= i < |polls| ==> polls[i].nowOuter <= now
    ensures s.cursor <= Run(s, polls).cursor <= now
  {
    if polls != [] {
      var rest := polls[..|polls| - 1];
      CursorNeverPassesNow(s, rest, now);
      var input := polls[|polls| - 1];
      var t := Run(s, rest);
      if input.wraps != [] {
        var t1 := t.(cursor := AdvanceInboxCursor(t.cursor, Newest(input.wraps), input.nowOuter));
        AccessPassKeepsCursor(t1, input, |input.msgs|);
        var queue := QueueOf(t, input);
        ProcessKeepsCursor(AccessPass(t1, input, |input.msgs|).(deferred := []), queue, input.ticks, |queue|);
      }
    }
  }

  lemma {:induction false} AccessPassKeepsCursor(s: Loop, input: PollInput, n: nat)
    requires n <= |input.msgs|
    ensures AccessPass(s, input, n).cursor == s.cursor
  {
    if n > 0 { AccessPassKeepsCursor(s, input, n - 1); }
  }

  lemma {:induction false} ProcessKeepsCursor(s: Loop, queue: seq<Item>, ticks: nat -> Tick, n: nat)
    requires n <= |queue|
    ensures Process(s, queue, ticks, n).cursor == s.cursor
  {
    if n > 0 { ProcessKeepsCursor(s, queue, ticks, n - 1); }
  }

  lemma {:induction false} NewestIs(stamps: seq<nat>)
    ensures forall i :: 0 <= i < |stamps| ==> stamps[i] <= Newest(stamps)
    ensures stamps != [] ==> exists i :: 0 <= i < |stamps| && stamps[i] == Newest(stamps)
  {
    if stamps != [] {
      var n := |stamps| - 1;
      NewestIs(stamps[..n]);
      if Newest(stamps) == stamps[n] || n == 0 {
        assert stamps[n] == Newest(stamps);
      } else {
        var i :| 0 <= i < n && stamps[..n][i] == Newest(stamps[..n]);
        assert stamps[i] == Newest(stamps);
      }
    }
  }

  /** How far the `i`-th gift-wrap of a poll can take the cursor: to its stamp, or to the poll's clock. */
  function Reach(input: PollInput, i: nat): nat
    requires i < |input.wraps|
  {
    if input.wraps[i] <= input.nowOuter then input.wraps[i] else input.nowOuter
  }

  ghost predicate Reaches(polls: seq<PollInput>, p: nat, i: nat, cursor: nat) {
    p < |polls| && i < |polls[p].wraps| && Reach(polls[p], i) == cursor
  }

  ghost predicate Covers(polls: seq<PollInput>, cursor: nat) {
    forall p: nat, i: nat :: p < |polls| && i < |polls[p].wraps| ==> Reach(polls[p], i) <= cursor
  }

  lemma PollMovesCursor(s: Loop, input: PollInput)
    ensures PollOnce(s, input).cursor ==
            if input.wraps == [] then s.cursor else AdvanceInboxCursor(s.cursor, Newest(input.wraps), input.nowOuter)
  {
    if input.wraps != [] {
      var s1 := s.(cursor := AdvanceInboxCursor(s.cursor, Newest(input.wraps), input.nowOuter));
      AccessPassKeepsCursor(s1, input, |input.msgs|);
      var queue := QueueOf(s, input);
      ProcessKeepsCursor(AccessPass(s1, input, |input.msgs|).(deferred := []), queue, input.ticks, |queue|);
    }
  }

  lemma PollReachesNewest(s: Loop, input: PollInput)
    ensures var c := PollOnce(s, input).cursor;
            && s.cursor <= c
            && (forall i :: 0 <= i < |input.wraps| ==> Reach(input, i) <= c)
            && (c == s.cursor || exists i :: 0 <= i < |input.wraps| && Reach(input, i) == c)
  {
    hide PollOnce, Newest;
    PollMovesCursor(s, input);
    NewestIs(input.wraps);
    if input.wraps != [] {
      var i :| 0 <= i < |input.wraps| && input.wraps[i] == Newest(input.wraps);
      assert Reach(input, i) == if Newest(input.wraps) <= input.nowOuter then Newest(input.wraps) else input.nowOuter;
    }
  }

  /** After any polls the cursor is the furthest any gift-wrap has taken it: past none of them short,
      and nowhere none of them reaches. */
  lemma {:induction false} CursorIsNewest(s: Loop, polls: seq<PollInput>)
    ensures var c := Run(s, polls).cursor;
            && s.cursor <= c && Covers(polls, c)
            && (c == s.cursor || exists p: nat, i: nat :: Reaches(polls, p, i, c))
  {
    hide PollOnce, Reach;
    if polls != [] {
      var n := |polls| - 1;
      var rest, c := Run(s, polls[..n]), Run(s, polls).cursor;
      CursorIsNewest(s, polls[..n]);
      PollReachesNewest(rest, polls[n]);
      forall p: nat, i: nat | p < |polls| && i < |polls[p].wraps| ensures Reach(polls[p], i) <= c {
        if p < n { assert Reach(polls[..n][p], i) <= rest.cursor; }
      }
      if c == rest.cursor {
        if c != s.cursor {
          var p: nat, i: nat :| Reaches(polls[..n], p, i, c);
          assert Reaches(polls, p, i, c);
        }
      } else {
        var i :| 0 <= i < |polls[n].wraps| && Reach(polls[n], i) == c;
        assert Reaches(polls, n, i, c);
      }
    }
  }
}
