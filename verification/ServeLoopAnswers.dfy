/** Everything one poll decides, told from its input and its log alone. Each access request and each
    manifest ask has its turn, and what the log gains at that turn is fixed by what the log held
    before it: which keys are remembered, which serves were made, which asks the poll holds. */
module ServeLoopAnswers {
  import opened Wrappers
  import opened RateLimit
  import opened RequestKeys
  import opened AnsweredMemory
  import opened ServeLoop
  import opened ServeLoopSafety
  import opened ServeLoopLimits
  import opened ServeLoopWindow
  import opened ServeLoopQueue
  import opened ServeLoopGrants
  import opened RateExact
  import RateWindow

  // ---------------------------------------------------------------------------------------------
  // The asks among the messages.

  ghost predicate IsRequest(msg: Msg, ask: Ask) {
    ask.from == msg.from && msg.content.ManifestJson? && IsBodyOf(ask.body, msg.content.raw)
  }

  /** `asks[i]` is the ask of the message at `from[i]`; the other messages are no asks. */
  ghost predicate AsksOf(msgs: seq<Msg>, from: seq<nat>, asks: seq<Ask>) {
    && |from| == |asks| && Increasing(from)
    && (forall i :: 0 <= i < |from| ==> from[i] < |msgs| && IsRequest(msgs[from[i]], asks[i]))
    && (forall j, ask :: 0 <= j < |msgs| && IsRequest(msgs[j], ask) ==> j in from)
  }

  lemma {:induction false} ParsedAsks(msgs: seq<Msg>) returns (from: seq<nat>)
    ensures AsksOf(msgs, from, FreshAsks(msgs))
  {
    if msgs == [] {
      from := [];
    } else {
      var n := |msgs| - 1;
      var front, msg := msgs[..n], msgs[n];
      from := ParsedAsks(front);
      var parsed := if msg.content.ManifestJson? then ParseRequest(msg.content.raw) else None;
      forall body: RequestBody, raw: RawBody ensures ParseRequest(raw) == Some(body) <==> IsBodyOf(body, raw) {
        ParsesIff(raw, body);
      }
      if parsed.Some? {
        AsksOfMore(front, from, FreshAsks(front), msg, Ask(msg.from, parsed.value));
        from := from + [n];
      } else {
        AsksOfSkip(front, from, FreshAsks(front), msg);
        assert FreshAsks(msgs) == FreshAsks(front);
      }
      assert msgs == front + [msg];
    }
  }

  lemma AsksOfMore(msgs: seq<Msg>, from: seq<nat>, asks: seq<Ask>, msg: Msg, ask: Ask)
    requires AsksOf(msgs, from, asks) && IsRequest(msg, ask)
    ensures AsksOf(msgs + [msg], from + [|msgs|], asks + [ask])
  {
    hide IsRequest;
    forall j, other | 0 <= j < |msgs + [msg]| && IsRequest((msgs + [msg])[j], other) ensures j in from + [|msgs|] {
      if j < |msgs| {
        assert IsRequest(msgs[j], other);
      } else {
        assert (from + [|msgs|])[|from|] == j;
      }
    }
  }

  lemma AsksOfSkip(msgs: seq<Msg>, from: seq<nat>, asks: seq<Ask>, msg: Msg)
    requires AsksOf(msgs, from, asks) && forall ask :: !IsRequest(msg, ask)
    ensures AsksOf(msgs + [msg], from, asks)
  {
    hide IsRequest;
    forall j, ask | 0 <= j < |msgs + [msg]| && IsRequest((msgs + [msg])[j], ask) ensures j in from {
      assert j < |msgs|;
      assert IsRequest(msgs[j], ask);
    }
  }

  // ---------------------------------------------------------------------------------------------
  // One ask's turn.

  /** What one event does to the held asks. */
  ghost function HeldAfter(held: seq<Ask>, e: Event): seq<Ask> {
    match e
    case Loaded(_) => held
    case Attempt(key, _, source, remembered, _, _) =>
      if source.ManifestServe? && remembered then Without(held, {key}) else held
    case Paced(ask, _, _, fate) => if fate == HeldForLater then held + [ask] else held
  }

  /** The asks held since the log had `n` events: held at their turn, and not remembered since. */
  ghost function HeldSince(log: seq<Event>, n: nat): seq<Ask> {
    if |log| <= n then [] else HeldAfter(HeldSince(log[..|log| - 1], n), log[|log| - 1])
  }

  /** A refused ask joins the queue unless 1024 asks are held or one of them has its key. */
  ghost predicate FateFits(fate: Fate, held: seq<Ask>, ask: Ask) {
    && (fate == DroppedFull <==> |held| >= DEFERRED_MAX)
    && (fate == AlreadyHeld <==> |held| < DEFERRED_MAX && Holds(held, KeyOf(ask)))
  }

  /** The decision on an ask, after the log `before` of a queue begun at its `n`-th event. */
  ghost predicate Decides(e: Event, before: seq<Event>, n: nat, item: Item, tick: Tick) {
    if HistoryPermits(Serves(before), PairOf(item.ask), tick.now) then
      && e.Attempt? && e.key == KeyOf(item.ask) && e.source == ManifestServe(item.ask, tick.now, item.isReplay)
      && e.outcome == (if Servable(item.ask.body) then tick.outcome else Failed)
    else
      && e.Paced? && e.ask == item.ask && e.at == tick.now && e.isReplay == item.isReplay
      && FateFits(e.fate, HeldSince(before, n), item.ask)
  }

  /** An arrival that is remembered is passed over; any other ask leaves one event, its decision. */
  ghost predicate Turn(log: seq<Event>, n: nat, item: Item, tick: Tick, i: nat, k: nat) {
    && n <= i <= k <= |log|
    && (if !item.isReplay && InMemory(log[..i], KeyOf(item.ask)) then k == i
        else k == i + 1 && Decides(log[i], log[..i], n, item, tick))
  }

  /** `at` says how many events the log had when each of the first `m` asks of the queue had its turn. */
  ghost predicate QueueAccount(log: seq<Event>, n: nat, queue: seq<Item>, ticks: nat -> Tick, at: seq<nat>, m: nat) {
    && m <= |queue| && |at| == m + 1 && at[0] == n && at[m] <= |log|
    && forall j: nat :: j < m ==> Turn(log, n, queue[j], ticks(j), at[j], at[j + 1])
  }

  lemma QueueAccountStays(log: seq<Event>, more: seq<Event>, n: nat, queue: seq<Item>, ticks: nat -> Tick, at: seq<nat>, m: nat)
    requires log <= more && QueueAccount(log, n, queue, ticks, at, m)
    ensures QueueAccount(more, n, queue, ticks, at, m)
  {
    hide Turn;
    forall j: nat | j < m ensures Turn(more, n, queue[j], ticks(j), at[j], at[j + 1]) {
      TurnStays(log, more, n, queue[j], ticks(j), at[j], at[j + 1]);
    }
  }

  lemma TurnStays(log: seq<Event>, more: seq<Event>, n: nat, item: Item, tick: Tick, i: nat, k: nat)
    requires log <= more && Turn(log, n, item, tick, i, k)
    ensures Turn(more, n, item, tick, i, k)
  {
    hide Decides;
    assert more[..i] == log[..i];
  }

  // ---------------------------------------------------------------------------------------------
  // The limiter, as the log tells it.

  lemma DecisionIsRead(e: Event)
    ensures DecisionOf(e).Some? <==> ClockRead(e).Some?
    ensures DecisionOf(e).Some? ==> DecisionOf(e).value.now == ClockRead(e).value
  {
  }

  lemma RisingMore(ds: seq<RateWindow.Decision>, d: RateWindow.Decision)
    requires RisingDecisions(ds) && LastClock(ds) <= d.now
    ensures RisingDecisions(ds + [d]) && LastClock(ds + [d]) == d.now
  {
    LastIsGreatest(ds);
  }

  lemma {:induction false} RisingReads(log: seq<Event>)
    requires ClocksRise(log)
    ensures RisingDecisions(DecisionsOf(log)) && LastClock(DecisionsOf(log)) == LastRead(log)
  {
    hide DecisionOf, ClockRead, RisingDecisions;
    if log == [] {
      NothingRises();
    } else {
      var n := |log| - 1;
      RisingReads(log[..n]);
      DecisionIsRead(log[n]);
      if DecisionOf(log[n]).Some? {
        RisingMore(DecisionsOf(log[..n]), DecisionOf(log[n]).value);
      } else {
        assert DecisionsOf(log[..n]) + [] == DecisionsOf(log[..n]);
      }
    }
  }

  lemma NothingRises()
    ensures RisingDecisions([])
  {
  }

  lemma LastIsGreatest(ds: seq<RateWindow.Decision>)
    requires RisingDecisions(ds)
    ensures forall i :: 0 <= i < |ds| ==> ds[i].now <= LastClock(ds)
  {
  }

  lemma LogAnswers(caps: Caps, log: seq<Event>, pair: string, now: nat)
    requires Paces(caps, log) && ClocksRise(log) && LastRead(log) <= now
    ensures Permits(Pruned(caps, now), pair, now) <==> HistoryPermits(Serves(log), pair, now)
  {
    RisingReads(log);
    PermitsIff(DecisionsOf(log), pair, now);
  }

  // ---------------------------------------------------------------------------------------------
  // Along the queue.

  ghost predicate Sound(s: Loop, n: nat) {
    n <= |s.log| && Remembers(s) && Paces(s.caps, s.log) && s.deferred == HeldSince(s.log, n)
  }

  lemma HeldNext(log: seq<Event>, e: Event, n: nat)
    requires n <= |log|
    ensures HeldSince(log + [e], n) == HeldAfter(HeldSince(log, n), e)
  {
    assert (log + [e])[..|log|] == log;
  }

  lemma AttemptTakesItsTurn(s: Loop, n: nat, item: Item, tick: Tick)
    requires Sound(s, n) && HistoryPermits(Serves(s.log), PairOf(item.ask), tick.now)
    requires Permits(Pruned(s.caps, tick.now), PairOf(item.ask), tick.now)
    requires item.isReplay || KeyOf(item.ask) !in s.mem.seen
    ensures var t := Attempted(s.(caps := Pruned(s.caps, tick.now)), item.ask, item.isReplay, Answer(item.ask, tick));
            && |t.log| == |s.log| + 1 && s.log <= t.log && t.deferred == HeldSince(t.log, n)
            && Turn(t.log, n, item, tick, |s.log|, |t.log|)
  {
    hide Permits, Pruned, HistoryPermits, PairOf, KeyOf, Paces, Servable, HeldSince, Without, InMemory, Serves, ApplyOutcome, Recorded;
    var t := Attempted(s.(caps := Pruned(s.caps, tick.now)), item.ask, item.isReplay, Answer(item.ask, tick));
    var e := t.log[|s.log|];
    assert t.log == s.log + [e] && t.log[..|s.log|] == s.log;
    HeldNext(s.log, e, n);
    assert item.isReplay || !InMemory(s.log, KeyOf(item.ask));
  }

  lemma DeferralTakesItsTurn(s: Loop, n: nat, item: Item, tick: Tick)
    requires Sound(s, n) && !HistoryPermits(Serves(s.log), PairOf(item.ask), tick.now)
    requires item.isReplay || KeyOf(item.ask) !in s.mem.seen
    ensures var t := Deferring(s.(caps := Pruned(s.caps, tick.now)), item.ask, item.isReplay, tick.now);
            && |t.log| == |s.log| + 1 && s.log <= t.log && t.deferred == HeldSince(t.log, n)
            && Turn(t.log, n, item, tick, |s.log|, |t.log|)
  {
    hide Permits, Pruned, HistoryPermits, PairOf, KeyOf, Paces, HeldSince, InMemory, Serves;
    var t := Deferring(s.(caps := Pruned(s.caps, tick.now)), item.ask, item.isReplay, tick.now);
    var e := t.log[|s.log|];
    assert t.log == s.log + [e] && t.log[..|s.log|] == s.log;
    HeldNext(s.log, e, n);
    assert item.isReplay || !InMemory(s.log, KeyOf(item.ask));
  }

  lemma ItemTakesItsTurn(s: Loop, n: nat, item: Item, tick: Tick)
    requires Sound(s, n) && ClocksRise(ProcessItem(s, item, tick).log)
    ensures var t := ProcessItem(s, item, tick);
            && Sound(t, n) && s.log <= t.log && ClocksRise(s.log)
            && Turn(t.log, n, item, tick, |s.log|, |t.log|)
  {
    hide Permits, Pruned, HistoryPermits, PairOf, KeyOf, Paces, Decides, Remembers, Attempted, Deferring;
    var t := ProcessItem(s, item, tick);
    QueueItemRemembers(s, item, tick);
    ItemPaces(s, item, tick);
    RisesBefore(s, item, tick);
    if MayProcess(s.mem.seen, KeyOf(item.ask), item.isReplay) {
      LogAnswers(s.caps, s.log, PairOf(item.ask), tick.now);
      if Permits(Pruned(s.caps, tick.now), PairOf(item.ask), tick.now) {
        AttemptTakesItsTurn(s, n, item, tick);
      } else {
        DeferralTakesItsTurn(s, n, item, tick);
      }
    } else {
      SeenIsInMemory(s, KeyOf(item.ask));
      assert s.log[..|s.log|] == s.log;
    }
  }

  lemma SeenIsInMemory(s: Loop, key: string)
    requires Remembers(s) && key in s.mem.seen
    ensures InMemory(s.log, key)
  {
  }

  /** A clock that rises through an item's decision rose up to it. */
  lemma RisesBefore(s: Loop, item: Item, tick: Tick)
    requires ClocksRise(ProcessItem(s, item, tick).log)
    ensures ClocksRise(s.log)
    ensures MayProcess(s.mem.seen, KeyOf(item.ask), item.isReplay) ==> LastRead(s.log) <= tick.now
  {
    hide Permits, Pruned, PairOf, KeyOf, ApplyOutcome, Holds;
    var t := ProcessItem(s, item, tick);
    if |t.log| > |s.log| {
      assert t.log == s.log + [t.log[|s.log|]];
      Appended(s.log, t.log[|s.log|]);
    }
  }

  lemma {:induction false} QueueTakesItsTurns(s: Loop, queue: seq<Item>, ticks: nat -> Tick, m: nat) returns (at: seq<nat>)
    requires m <= |queue| && Sound(s, |s.log|) && ClocksRise(Process(s, queue, ticks, m).log)
    ensures var t := Process(s, queue, ticks, m);
            && Sound(t, |s.log|) && QueueAccount(t.log, |s.log|, queue, ticks, at, m) && at[m] == |t.log|
  {
    hide Turn, Sound, ProcessItem, ClocksRise;
    if m == 0 {
      at := [|s.log|];
    } else {
      var t, u := Process(s, queue, ticks, m - 1), Process(s, queue, ticks, m);
      QueueRises(s, queue, ticks, m);
      at := QueueTakesItsTurns(s, queue, ticks, m - 1);
      ItemTakesItsTurn(t, |s.log|, queue[m - 1], ticks(m - 1));
      QueueAccountStays(t.log, u.log, |s.log|, queue, ticks, at, m - 1);
      at := at + [|u.log|];
    }
  }

  lemma QueueRises(s: Loop, queue: seq<Item>, ticks: nat -> Tick, m: nat)
    requires 0 < m <= |queue| && ClocksRise(Process(s, queue, ticks, m).log)
    ensures ClocksRise(Process(s, queue, ticks, m - 1).log)
  {
    hide ProcessItem, ClocksRise;
    RisesBefore(Process(s, queue, ticks, m - 1), queue[m - 1], ticks(m - 1));
  }

  /** One poll of any reachable loop that fetched something, at a clock that does not go back. `grants`
      and `turns` are the moments of its access requests and of its asks: the asks it held, in their
      order, then the asks among its messages. Nothing else enters the log, and what it holds in the
      end is what the log says it held. */
  lemma PollAnswersInOrder(loaded: set<string>, polls: seq<PollInput>, input: PollInput)
    returns (asks: seq<Ask>, from: seq<nat>, grants: seq<nat>, turns: seq<nat>)
    requires input.wraps != [] && ClocksRise(PollOnce(Run(Start(loaded), polls), input).log)
    ensures var s := Run(Start(loaded), polls);
            var t := PollOnce(s, input);
            && s.log <= t.log
            && AsksOf(input.msgs, from, asks)
            && Account(t.log, input, |s.log|, grants, |input.msgs|)
            && QueueAccount(t.log, grants[|input.msgs|], Items(s.deferred, true) + Items(asks, false), input.ticks,
                            turns, |s.deferred| + |asks|)
            && turns[|s.deferred| + |asks|] == |t.log|
            && t.deferred == HeldSince(t.log, grants[|input.msgs|])
  {
    hide Answered, Turn, Remembers, AccessItem, ProcessItem, ClocksRise, Paces, AsksOf;
    var s := Run(Start(loaded), polls);
    var s1 := s.(cursor := AdvanceInboxCursor(s.cursor, Newest(input.wraps), input.nowOuter));
    RunRemembers(loaded, polls);
    RunPaces(loaded, polls);
    OnlyTheRest(s, s1);
    grants := PassIsAccounted(s1, input, |input.msgs|);
    AccessPassPaces(s1, input, |input.msgs|);
    from := ParsedAsks(input.msgs);
    asks := FreshAsks(input.msgs);
    var t, queue := AccessPass(s1, input, |input.msgs|), QueueOf(s, input);
    var drained := t.(deferred := []);
    OnlyTheRest(t, drained);
    var u := Process(drained, queue, input.ticks, |queue|);
    turns := QueueTakesItsTurns(drained, queue, input.ticks, |queue|);
    QueueGrantsNobody(drained, queue, input.ticks, |queue|);
    AccountStays(t.log, u.log, input, |s.log|, grants, |input.msgs|);
  }
}
