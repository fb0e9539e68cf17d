/** The one way a remembered ask can be attempted again, and exactly which access requests open it.

    An access key can be the dedup key of a manifest ask. If such an ask is held when the access
    request is granted, it is remembered behind the loop's back, and its replay is attempted all the
    same. No serve body takes the ask, so all that comes of it is one more failed attempt. */
module ServeLoopCollisions {
  import opened Wrappers
  import opened RateLimit
  import opened RequestKeys
  import opened AnsweredMemory
  import opened ServeLoop
  import opened ServeLoopSafety
  import opened ServeLoopLimits
  import opened ServeLoopWitnesses

  /** The `i`-th event is an attempt to serve a manifest ask under a key remembered at that moment. */
  ghost predicate AttemptsRemembered(log: seq<Event>, i: nat, key: string) {
    i < |log| && log[i].Attempt? && log[i].source.ManifestServe? && log[i].key == key && InMemory(log[..i], key)
  }

  /** Some run of plain senders attempts a manifest ask while it is remembered under this access key. */
  ghost predicate SomeRunAttemptsRemembered(asker: string, nonce: string) {
    exists polls: seq<PollInput>, i: nat :: PlainSenders(polls) && AttemptsRemembered(Run(Start({}), polls).log, i, AccessKey(asker, nonce))
  }

  function RawOf(b: RequestBody): RawBody {
    RawBody(Some("manifest_request"), Some(b.slug), b.askNonce, b.authorNpub)
  }

  /** Thirty-two arrivals fill the window at second 1000; the ask comes behind them. */
  function FillingPoll(ask: Ask): PollInput {
    PollInput([0], 0, Burst(GLOBAL_MAX) + [Msg(ask.from, ManifestJson(RawOf(ask.body)))], {}, _ => NoFacts(), _ => Tick(1000, Served))
  }

  /** An access request the size rule grants, with the held ask decided at second `at`. */
  function GrantingPoll(asker: string, nonce: string, at: nat): PollInput {
    PollInput([0], 0, [Msg(asker, AccessJson(asker, nonce))], {},
              _ => AccessFacts(true, Fetched(Some(1)), 0, Served), _ => Tick(at, Served))
  }

  lemma FillingQueue(ask: Ask)
    requires WellShaped(ask.body)
    ensures var queue := QueueOf(Start({}), FillingPoll(ask));
            && |queue| == GLOBAL_MAX + 1 && queue[GLOBAL_MAX] == Item(ask, false)
            && forall i :: 0 <= i < GLOBAL_MAX ==> queue[i] == Item(Arrival(i + 1), false)
  {
    var msgs := FillingPoll(ask).msgs;
    BurstParses(GLOBAL_MAX);
    assert msgs[..|msgs| - 1] == Burst(GLOBAL_MAX);
    assert ParseRequest(RawOf(ask.body)) == Some(ask.body);
    assert FreshAsks(msgs) == FreshAsks(Burst(GLOBAL_MAX)) + [ask];
    assert Items([], true) == [];
  }

  lemma {:induction false} FewRemembered(s: Loop, queue: seq<Item>, ticks: nat -> Tick, n: nat)
    requires n <= |queue|
    ensures var t := Process(s, queue, ticks, n);
            && |t.mem.seen| <= |s.mem.seen| + n
            && forall key :: key in t.mem.seen ==> key in s.mem.seen || exists i :: 0 <= i < n && KeyOf(queue[i].ask) == key
  {
    if n > 0 {
      FewRemembered(s, queue, ticks, n - 1);
      ItemRemembers(Process(s, queue, ticks, n - 1), queue[n - 1], ticks(n - 1));
    }
  }

  lemma ItemRemembers(s: Loop, item: Item, tick: Tick)
    ensures var t := ProcessItem(s, item, tick);
            t.mem.seen <= s.mem.seen + {KeyOf(item.ask)} && |t.mem.seen| <= |s.mem.seen| + 1
  {
    hide KeyOf, PairOf;
    var t := ProcessItem(s, item, tick);
    OutcomeSeen(s.mem, KeyOf(item.ask), Answer(item.ask, tick).outcome);
    SubsetSize(t.mem.seen, s.mem.seen + {KeyOf(item.ask)});
  }

  /** The ask is held, unremembered, behind a window that fits none before second 1301. */
  ghost predicate HeldBehindWindow(s: Loop, ask: Ask) {
    && s.deferred == [ask] && KeyOf(ask) !in s.mem.seen && |s.mem.seen| <= GLOBAL_MAX
    && s.caps.global == Copies(GLOBAL_MAX, 1000)
  }

  lemma WindowFills()
    ensures Script(_ => Tick(1000, Served), i => Copies(i, 1000), GLOBAL_MAX)
  {
    var ticks: nat -> Tick := _ => Tick(1000, Served);
    var window: nat -> seq<nat> := i => Copies(i, 1000);
    assert window(0) == [];
    forall i | 0 <= i < GLOBAL_MAX ensures ScriptStep(ticks, window, i) {
      CopiesDrop(i, 1000, 700);
      assert window(i + 1) == window(i) + [1000];
    }
  }

  lemma LastWaits(s: Loop, ask: Ask, tick: Tick)
    requires s.caps.global == Copies(GLOBAL_MAX, 1000) && s.deferred == [] && KeyOf(ask) !in s.mem.seen && |s.mem.seen| <= GLOBAL_MAX
    requires tick.now == 1000
    ensures HeldBehindWindow(ProcessItem(s, Item(ask, false), tick), ask)
  {
    CopiesDrop(GLOBAL_MAX, 1000, 700);
    assert Pruned(s.caps, 1000).global == s.caps.global;
  }

  lemma FillingPollHolds(asker: string, nonce: string, b: RequestBody)
    requires BarFree(asker) && WellShaped(b) && AccessKey(asker, nonce) == DedupKey(asker, b)
    ensures HeldBehindWindow(Run(Start({}), [FillingPoll(Ask(asker, b))]), Ask(asker, b))
  {
    var ask := Ask(asker, b);
    var input, n := FillingPoll(ask), GLOBAL_MAX;
    OnePoll(Start({}), input);
    AccessPassIdle(Start({}), input, n + 1);
    assert Newest([0]) == 0 by { assert [0][..0] == []; }
    FillingQueue(ask);
    WindowFills();
    var queue := QueueOf(Start({}), input);
    BurstRuns(queue, input.ticks, i => Copies(i, 1000), n, 0, 2000);
    FewRemembered(Start({}), queue, input.ticks, n);
    var s := Process(Start({}), queue, input.ticks, n);
    forall i | 0 <= i < n ensures KeyOf(queue[i].ask) != KeyOf(ask) {
      if KeyOf(Arrival(i + 1)) == KeyOf(ask) {
        ArrivalIsPlain(i + 1);
        CollidingAskIsUnservable(asker, nonce, Sender(i + 1), Arrival(i + 1).body);
      }
    }
    LastWaits(s, ask, input.ticks(n));
  }

  lemma ArrivalIsPlain(k: nat)
    ensures BarFree(Arrival(k).from) && Servable(Arrival(k).body)
  {
  }

  /** The granted request remembers the held ask's key. */
  lemma GrantRemembers(s: Loop, ask: Ask, nonce: string, at: nat)
    requires HeldBehindWindow(s, ask) && ask.from != "" && ShareCodeShaped(ask.from) && nonce != ""
    requires KeyOf(ask) == AccessKey(ask.from, nonce)
    ensures var input := GrantingPoll(ask.from, nonce, at);
            var t := AccessPass(s, input, 1);
            && t.caps == s.caps && t.deferred == s.deferred
            && |t.log| == |s.log| + 1 && InMemory(t.log, KeyOf(ask))
  {
    var input := GrantingPoll(ask.from, nonce, at);
    assert AccessPass(s, input, 0) == s;
    var t := AccessItem(s, input.msgs[0], {}, input.facts(0));
    assert |s.mem.seen + {KeyOf(ask)}| <= SEEN_REQUESTS_MAX;
    assert t.log == s.log + [Attempt(KeyOf(ask), Served, AccessGrant, true, false, false)];
  }

  /** Once the window and the pair are free the replay is attempted, remembered or not. */
  lemma ReplayIsAttempted(s: Loop, ask: Ask, tick: Tick)
    requires s.caps.global == Copies(GLOBAL_MAX, 1000) && tick.now >= 2000
    requires PairOf(ask) in s.caps.perPair ==> s.caps.perPair[PairOf(ask)] + PER_PAIR_COOLDOWN_SECS <= tick.now
    requires InMemory(s.log, KeyOf(ask))
    ensures AttemptsRemembered(ProcessItem(s, Item(ask, true), tick).log, |s.log|, KeyOf(ask))
  {
    CopiesDrop(GLOBAL_MAX, 1000, tick.now - 300);
    var t := ProcessItem(s, Item(ask, true), tick);
    assert t.log[..|s.log|] == s.log;
  }

  function FreeAt(c: Caps, pair: string): nat {
    2000 + if pair in c.perPair then c.perPair[pair] else 0
  }

  lemma GrantingPollAttempts(s: Loop, ask: Ask, nonce: string)
    requires HeldBehindWindow(s, ask) && ask.from != "" && ShareCodeShaped(ask.from) && nonce != ""
    requires KeyOf(ask) == AccessKey(ask.from, nonce)
    ensures var t := PollOnce(s, GrantingPoll(ask.from, nonce, FreeAt(s.caps, PairOf(ask))));
            AttemptsRemembered(t.log, |s.log| + 1, KeyOf(ask))
  {
    var input := GrantingPoll(ask.from, nonce, FreeAt(s.caps, PairOf(ask)));
    var s1 := s.(cursor := AdvanceInboxCursor(s.cursor, Newest(input.wraps), input.nowOuter));
    GrantRemembers(s1, ask, nonce, FreeAt(s.caps, PairOf(ask)));
    assert input.msgs[..0] == [];
    assert FreshAsks(input.msgs) == FreshAsks([]) + [];
    var queue := QueueOf(s, input);
    assert queue == [Item(ask, true)];
    var drained := AccessPass(s1, input, 1).(deferred := []);
    ReplayIsAttempted(drained, ask, input.ticks(0));
    assert Process(drained, queue, input.ticks, 0) == drained;
    assert Process(drained, queue, input.ticks, 1) == ProcessItem(drained, queue[0], input.ticks(0));
  }

  lemma TwoPolls(s: Loop, first: PollInput, second: PollInput)
    ensures Run(s, [first, second]) == PollOnce(Run(s, [first]), second)
  {
    hide PollOnce;
    assert [first, second][..1] == [first];
  }

  lemma BothPlain(ask: Ask, nonce: string, at: nat)
    requires BarFree(ask.from)
    ensures PlainSenders([FillingPoll(ask), GrantingPoll(ask.from, nonce, at)])
  {
    hide Arrival;
    var polls := [FillingPoll(ask), GrantingPoll(ask.from, nonce, at)];
    forall i, j | 0 <= i < |polls| && 0 <= j < |polls[i].msgs| ensures BarFree(polls[i].msgs[j].from) {
      if i == 0 && j < GLOBAL_MAX { SenderIsPlain(j + 1); }
    }
  }

  lemma SenderIsPlain(k: nat)
    ensures BarFree(ArrivalMsg(k).from)
  {
  }

  lemma CollidingRun(asker: string, nonce: string)
    requires BarFree(asker) && ShareCodeShaped(asker) && ReadsAsTail(nonce)
    ensures SomeRunAttemptsRemembered(asker, nonce)
  {
    hide Run, PollOnce, FillingPoll, GrantingPoll, HeldBehindWindow, AttemptsRemembered, PlainSenders, ReadsAsTail, FreeAt;
    var b := TailIsAnAsk(asker, nonce);
    var ask := Ask(asker, b);
    FillingPollHolds(asker, nonce, b);
    var s := Run(Start({}), [FillingPoll(ask)]);
    var second := GrantingPoll(asker, nonce, FreeAt(s.caps, PairOf(ask)));
    TailIsSomething(nonce);
    GrantingPollAttempts(s, ask, nonce);
    TwoPolls(Start({}), FillingPoll(ask), second);
    BothPlain(ask, nonce, FreeAt(s.caps, PairOf(ask)));
    assert AttemptsRemembered(Run(Start({}), [FillingPoll(ask), second]).log, |s.log| + 1, AccessKey(asker, nonce));
  }

  lemma TailIsSomething(nonce: string)
    requires ReadsAsTail(nonce)
    ensures nonce != ""
  {
  }

  /** A remembered ask can be attempted through an access request exactly when the request's nonce
      reads as the tail of a manifest key. */
  lemma RememberedIsAttemptedIff(asker: string, nonce: string)
    requires BarFree(asker) && ShareCodeShaped(asker)
    ensures SomeRunAttemptsRemembered(asker, nonce) <==> ReadsAsTail(nonce)
  {
    if ReadsAsTail(nonce) {
      CollidingRun(asker, nonce);
    }
    if SomeRunAttemptsRemembered(asker, nonce) {
      var polls: seq<PollInput>, i: nat :| PlainSenders(polls) && AttemptsRemembered(Run(Start({}), polls).log, i, AccessKey(asker, nonce));
      RunIsTold({}, polls);
      var log := Run(Start({}), polls).log;
      assert Told(log, i);
      var ask := log[i].source.ask;
      AccessKeyMeetsOnlyTails(asker, nonce, ask.from, ask.body);
    }
  }

  /** Whatever the run, such an attempt fails. */
  lemma RememberedAttemptsFail(loaded: set<string>, polls: seq<PollInput>, i: nat, key: string)
    requires PlainSenders(polls) && AttemptsRemembered(Run(Start(loaded), polls).log, i, key)
    ensures Run(Start(loaded), polls).log[i].outcome.Failed?
  {
    if Run(Start(loaded), polls).log[i].outcome.Served? {
      NoRunServesARememberedAsk(loaded, polls, i);
    }
  }
}
