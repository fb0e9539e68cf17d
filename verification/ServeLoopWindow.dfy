/** The serve loop's pacing is the limiter's: its log, read as decisions, makes the limiter the loop
    ends with. So the clock readings that keep the limiter's window keep the loop's. */
module ServeLoopWindow {
  import opened Wrappers
  import opened RateLimit
  import opened ServeLoop
  import opened ServeLoopLimits
  import RateWindow

  /** The pacing decision an event made. A serve the limiter refused succeeds at nothing. */
  function DecisionOf(e: Event): Option<RateWindow.Decision> {
    match e
    case Loaded(_) => None
    case Attempt(_, outcome, source, _, _, _) =>
      if source.ManifestServe? then Some(RateWindow.Decision(PairOf(source.ask), source.at, outcome.Served?)) else None
    case Paced(ask, at, _, _) => Some(RateWindow.Decision(PairOf(ask), at, false))
  }

  function DecisionsOf(log: seq<Event>): seq<RateWindow.Decision> {
    if log == [] then []
    else
      var d := DecisionOf(log[|log| - 1]);
      DecisionsOf(log[..|log| - 1]) + (if d.Some? then [d.value] else [])
  }

  /** The clocks a log's decisions read. */
  function ReadingsOf(log: seq<Event>): seq<nat> {
    RateWindow.ClocksOf(DecisionsOf(log))
  }

  ghost predicate Paces(caps: Caps, log: seq<Event>) {
    RateWindow.AllDecided(DecisionsOf(log)) == RateWindow.Limiter(caps, Serves(log))
  }

  lemma DecisionsNext(log: seq<Event>, e: Event)
    ensures DecisionsOf(log + [e]) == DecisionsOf(log) + (if DecisionOf(e).Some? then [DecisionOf(e).value] else [])
  {
    assert (log + [e])[..|log|] == log;
  }

  lemma DecidedNext(ds: seq<RateWindow.Decision>, d: RateWindow.Decision)
    ensures RateWindow.AllDecided(ds + [d]) == RateWindow.Decided(RateWindow.AllDecided(ds), d)
  {
    assert (ds + [d])[..|ds|] == ds;
  }

  /** One decision of the loop is one decision of the limiter. */
  lemma DecisionPaces(caps: Caps, log: seq<Event>, e: Event, pair: string, now: nat, succeeds: bool)
    requires Paces(caps, log) && DecisionOf(e) == Some(RateWindow.Decision(pair, now, succeeds))
    requires succeeds ==> Permits(Pruned(caps, now), pair, now)
    ensures Paces(if succeeds then Recorded(Pruned(caps, now), pair, now) else Pruned(caps, now), log + [e])
  {
    DecisionsNext(log, e);
    DecidedNext(DecisionsOf(log), DecisionOf(e).value);
    Appended(log, e);
    if !succeeds { assert Serves(log) + [] == Serves(log); }
  }

  lemma AttemptPaces(s: Loop, ask: Ask, isReplay: bool, tick: Tick)
    requires Paces(s.caps, s.log) && Permits(Pruned(s.caps, tick.now), PairOf(ask), tick.now)
    ensures var t := Attempted(s.(caps := Pruned(s.caps, tick.now)), ask, isReplay, tick); Paces(t.caps, t.log)
  {
    var t := Attempted(s.(caps := Pruned(s.caps, tick.now)), ask, isReplay, tick);
    var e := t.log[|s.log|];
    assert t.log == s.log + [e];
    DecisionPaces(s.caps, s.log, e, PairOf(ask), tick.now, tick.outcome.Served?);
  }

  lemma DeferralPaces(s: Loop, ask: Ask, isReplay: bool, now: nat)
    requires Paces(s.caps, s.log)
    ensures var t := Deferring(s.(caps := Pruned(s.caps, now)), ask, isReplay, now); Paces(t.caps, t.log)
  {
    hide KeyOf, PairOf, Holds, Pruned, Paces;
    var t := Deferring(s.(caps := Pruned(s.caps, now)), ask, isReplay, now);
    var e := t.log[|s.log|];
    assert t.log == s.log + [e];
    DecisionPaces(s.caps, s.log, e, PairOf(ask), now, false);
  }

  lemma ItemPaces(s: Loop, item: Item, tick: Tick)
    requires Paces(s.caps, s.log)
    ensures var t := ProcessItem(s, item, tick); Paces(t.caps, t.log)
  {
    if MayProcess(s.mem.seen, KeyOf(item.ask), item.isReplay) {
      if Permits(Pruned(s.caps, tick.now), PairOf(item.ask), tick.now) {
        AttemptPaces(s, item.ask, item.isReplay, Answer(item.ask, tick));
      } else {
        DeferralPaces(s, item.ask, item.isReplay, tick.now);
      }
    }
  }

  lemma {:induction false} ProcessPaces(s: Loop, queue: seq<Item>, ticks: nat -> Tick, n: nat)
    requires n <= |queue| && Paces(s.caps, s.log)
    ensures var t := Process(s, queue, ticks, n); Paces(t.caps, t.log)
  {
    if n > 0 {
      ProcessPaces(s, queue, ticks, n - 1);
      ItemPaces(Process(s, queue, ticks, n - 1), queue[n - 1], ticks(n - 1));
    }
  }

  /** A grant is not paced. */
  lemma {:induction false} AccessPassPaces(s: Loop, input: PollInput, n: nat)
    requires n <= |input.msgs| && Paces(s.caps, s.log)
    ensures var t := AccessPass(s, input, n); Paces(t.caps, t.log)
  {
    if n > 0 {
      AccessPassPaces(s, input, n - 1);
      GrantPaces(AccessPass(s, input, n - 1), input.msgs[n - 1], input.blocked, input.facts(n - 1));
    }
  }

  lemma GrantPaces(s: Loop, msg: Msg, blocked: set<string>, f: AccessFacts)
    requires Paces(s.caps, s.log)
    ensures var t := AccessItem(s, msg, blocked, f); Paces(t.caps, t.log)
  {
    var t := AccessItem(s, msg, blocked, f);
    if AttemptsGrant(s.mem.seen, msg, blocked, f) {
      var e := t.log[|s.log|];
      DecisionsNext(s.log, e);
      Appended(s.log, e);
      assert DecisionsOf(s.log) + [] == DecisionsOf(s.log) && Serves(s.log) + [] == Serves(s.log);
    }
  }

  lemma {:induction false} RunPaces(loaded: set<string>, polls: seq<PollInput>)
    ensures var t := Run(Start(loaded), polls); Paces(t.caps, t.log)
  {
    if polls == [] {
      DecisionsNext([], Loaded(loaded));
      Appended([], Loaded(loaded));
      assert [] + [Loaded(loaded)] == [Loaded(loaded)];
    } else {
      var s, input := Run(Start(loaded), polls[..|polls| - 1]), polls[|polls| - 1];
      RunPaces(loaded, polls[..|polls| - 1]);
      if input.wraps != [] {
        var s1 := s.(cursor := AdvanceInboxCursor(s.cursor, Newest(input.wraps), input.nowOuter));
        AccessPassPaces(s1, input, |input.msgs|);
        var queue := QueueOf(s, input);
        ProcessPaces(AccessPass(s1, input, |input.msgs|).(deferred := []), queue, input.ticks, |queue|);
      }
    }
  }

  /** Whatever the clock does, a run of the loop keeps every window within 32 serves unless the
      readings its decisions took can overfill one. */
  lemma RunKeepsWindow(loaded: set<string>, polls: seq<PollInput>)
    requires !RateWindow.CanOverfill(ReadingsOf(Run(Start(loaded), polls).log))
    ensures RateWindow.WindowKept(Serves(Run(Start(loaded), polls).log))
  {
    RunPaces(loaded, polls);
    var ds := DecisionsOf(Run(Start(loaded), polls).log);
    RateWindow.WindowKeptIff(RateWindow.ClocksOf(ds));
    assert RateWindow.Reads(ds, RateWindow.ClocksOf(ds));
  }
}
