/** No ask is served while it is remembered, and a held ask leaves the queue only by being attempted.

    A replay is never checked against the memory. What keeps an ask from being attempted twice is
    that, key by key, the hold queue and the memory stay apart. Only a grant of an access request can
    remember a key behind a held ask's back, and the asks such a key can belong to are those no serve
    body takes: they are attempted again, and fail. */
module ServeLoopSafety {
  import opened Wrappers
  import opened RateLimit
  import opened RequestKeys
  import opened AnsweredMemory
  import opened ServeLoop

  predicate HasAccessKey(msg: Msg, key: string) {
    msg.content.AccessJson? && AccessKey(msg.from, msg.content.nonce) == key
  }

  predicate PollSpares(input: PollInput, key: string) {
    forall i :: 0 <= i < |input.msgs| ==> !HasAccessKey(input.msgs[i], key)
  }

  /** No access request of the run has this key. */
  predicate RunSpares(polls: seq<PollInput>, key: string) {
    forall i :: 0 <= i < |polls| ==> PollSpares(polls[i], key)
  }

  /** Senders are public keys: their text holds no bar. */
  predicate PlainSenders(polls: seq<PollInput>) {
    forall i, j :: 0 <= i < |polls| && 0 <= j < |polls[i].msgs| ==> BarFree(polls[i].msgs[j].from)
  }

  // ---------------------------------------------------------------------------------------------
  // The memory, as the log tells it.

  /** Whether the log leaves `key` remembered: remembered, or loaded, with no clear since. */
  ghost predicate InMemory(log: seq<Event>, key: string) {
    log != [] &&
    var e := log[|log| - 1];
    var rest := log[..|log| - 1];
    match e
    case Loaded(keys) => key in keys || InMemory(rest, key)
    case Attempt(k, _, _, remembered, seenCleared, _) => !seenCleared && ((remembered && k == key) || InMemory(rest, key))
    case Paced(_, _, _, _) => InMemory(rest, key)
  }

  ghost predicate MemoryAgrees(s: Loop) {
    forall key :: key in s.mem.seen <==> InMemory(s.log, key)
  }

  ghost predicate NeverAttemptedWhileRemembered(log: seq<Event>, key: string) {
    forall i :: 0 <= i < |log| && log[i].Attempt? && log[i].key == key ==> !InMemory(log[..i], key)
  }

  ghost predicate SuccessesRemembered(log: seq<Event>) {
    forall i :: 0 <= i < |log| && log[i].Attempt? && log[i].outcome.Served? ==> log[i].remembered
  }

  // ---------------------------------------------------------------------------------------------
  // The count of one ask's attempts.

  ghost function AttemptsOf(log: seq<Event>, key: string): nat {
    if log == [] then 0
    else
      var e := log[|log| - 1];
      AttemptsOf(log[..|log| - 1], key) + (if e.Attempt? && e.key == key then 1 else 0)
  }

  ghost predicate NothingCleared(log: seq<Event>) {
    forall i :: 0 <= i < |log| && log[i].Attempt? ==> !log[i].seenCleared && !log[i].attemptsCleared
  }

  ghost predicate AlwaysFails(log: seq<Event>, key: string) {
    forall i :: 0 <= i < |log| && log[i].Attempt? && log[i].key == key ==> log[i].outcome.Failed?
  }

  ghost predicate NotLoaded(log: seq<Event>, key: string) {
    forall i :: 0 <= i < |log| && log[i].Loaded? ==> key !in log[i].keys
  }

  ghost predicate CountAgrees(s: Loop, key: string) {
    NothingCleared(s.log) && AlwaysFails(s.log, key) && NotLoaded(s.log, key) ==>
      if key in s.mem.seen then AttemptsOf(s.log, key) == SERVE_ATTEMPTS_MAX
      else AttemptsOf(s.log, key) == (if key in s.mem.attempts then s.mem.attempts[key] else 0) < SERVE_ATTEMPTS_MAX
  }

  /** What holds in every run. */
  ghost predicate Remembers(s: Loop) {
    MemoryAgrees(s) && SuccessesRemembered(s.log)
  }

  /** What holds of a key the run's access requests spare. */
  ghost predicate Accounts(s: Loop, key: string) {
    Remembers(s) && NeverAttemptedWhileRemembered(s.log, key) && CountAgrees(s, key)
  }

  lemma AppendKeeps(log: seq<Event>, e: Event, key: string)
    requires NeverAttemptedWhileRemembered(log, key) && (e.Attempt? && e.key == key ==> !InMemory(log, key))
    ensures NeverAttemptedWhileRemembered(log + [e], key)
  {
    forall i | 0 <= i < |log + [e]| && (log + [e])[i].Attempt? && (log + [e])[i].key == key
      ensures !InMemory((log + [e])[..i], key)
    {
      assert (log + [e])[..i] == log[..i];
      assert log[..|log|] == log;
    }
  }

  lemma HistoryShrinks(log: seq<Event>, e: Event, key: string)
    requires NothingCleared(log + [e]) && AlwaysFails(log + [e], key) && NotLoaded(log + [e], key)
    ensures NothingCleared(log) && AlwaysFails(log, key) && NotLoaded(log, key)
  {
    assert forall i :: 0 <= i < |log| ==> (log + [e])[i] == log[i];
  }

  lemma OutcomeIsRemembered(s: Loop, key: string, outcome: ServeOutcome, source: Source)
    requires Remembers(s)
    ensures Remembers(Remember(s, key, outcome, source))
  {
    var t := Remember(s, key, outcome, source);
    assert t.log[..|t.log| - 1] == s.log;
  }

  lemma OutcomeIsCounted(s: Loop, at: string, outcome: ServeOutcome, source: Source, key: string)
    requires CountAgrees(s, key) && (at == key ==> key !in s.mem.seen)
    ensures CountAgrees(Remember(s, at, outcome, source), key)
  {
    var t := Remember(s, at, outcome, source);
    var e := t.log[|s.log|];
    assert t.log == s.log + [e] && t.log[..|t.log| - 1] == s.log;
    if NothingCleared(t.log) && AlwaysFails(t.log, key) && NotLoaded(t.log, key) {
      HistoryShrinks(s.log, e, key);
      assert t.log[|s.log|] == e;
    }
  }

  /** Remembering an attempt's outcome keeps a key's accounts, when the key was not remembered. */
  lemma RememberKeeps(s: Loop, at: string, outcome: ServeOutcome, source: Source, key: string)
    requires Accounts(s, key) && (at == key ==> key !in s.mem.seen)
    ensures Accounts(Remember(s, at, outcome, source), key)
  {
    OutcomeIsRemembered(s, at, outcome, source);
    OutcomeIsCounted(s, at, outcome, source, key);
    AppendKeeps(s.log, Remember(s, at, outcome, source).log[|s.log|], key);
  }

  lemma PacedKeeps(s: Loop, t: Loop, e: Event, key: string)
    requires Accounts(s, key) && e.Paced? && t.log == s.log + [e] && t.mem == s.mem
    ensures Accounts(t, key)
  {
    AppendKeeps(s.log, e, key);
    assert t.log[..|t.log| - 1] == s.log;
    if NothingCleared(t.log) && AlwaysFails(t.log, key) && NotLoaded(t.log, key) {
      HistoryShrinks(s.log, e, key);
    }
  }

  // ---------------------------------------------------------------------------------------------
  // The hold queue.

  ghost predicate Distinct(asks: seq<Ask>) {
    forall i, j :: 0 <= i < j < |asks| ==> KeyOf(asks[i]) != KeyOf(asks[j])
  }

  ghost predicate Apart(a: seq<Ask>, b: seq<Ask>) {
    forall i, j :: 0 <= i < |a| && 0 <= j < |b| ==> KeyOf(a[i]) != KeyOf(b[j])
  }

  /** The queue while a poll works through the replays: `pending` are the ones still to come. */
  ghost predicate HoldShape(s: Loop, pending: seq<Ask>) {
    && Distinct(pending) && Distinct(s.deferred) && Apart(pending, s.deferred)
    && |pending| + |s.deferred| <= DEFERRED_MAX
  }

  ghost predicate Waits(s: Loop, pending: seq<Ask>, key: string) {
    Holds(pending, key) || Holds(s.deferred, key)
  }

  /** The queue is sound, and a key that waits in it is not remembered. */
  ghost predicate HoldInv(s: Loop, pending: seq<Ask>, key: string) {
    HoldShape(s, pending) && (Waits(s, pending, key) ==> key !in s.mem.seen)
  }

  lemma {:induction false} RetainedMembers(asks: seq<Ask>, key: string)
    ensures var r := Retained(asks, key);
            |r| <= |asks| && forall a :: a in r <==> a in asks && KeyOf(a) != key
  {
    hide KeyOf;
    if asks != [] {
      var front, last := asks[..|asks| - 1], asks[|asks| - 1];
      RetainedMembers(front, key);
      assert asks == front + [last];
    }
  }

  lemma NewLastKey(asks: seq<Ask>, last: Ask)
    requires Distinct(asks) && forall a :: a in asks ==> KeyOf(a) != KeyOf(last)
    ensures Distinct(asks + [last])
  {
    hide KeyOf;
    var all := asks + [last];
    forall i, j | 0 <= i < j < |all| ensures KeyOf(all[i]) != KeyOf(all[j]) {
      assert all[i] == asks[i] && asks[i] in asks;
    }
  }

  lemma DistinctParts(front: seq<Ask>, last: Ask)
    requires Distinct(front + [last])
    ensures Distinct(front) && forall a :: a in front ==> KeyOf(a) != KeyOf(last)
  {
    hide KeyOf;
    var all := front + [last];
    forall i, j | 0 <= i < j < |front| ensures KeyOf(front[i]) != KeyOf(front[j]) {
      assert all[i] == front[i] && all[j] == front[j];
    }
    forall a | a in front ensures KeyOf(a) != KeyOf(last) {
      var i :| 0 <= i < |front| && front[i] == a;
      assert all[i] == a && all[|front|] == last;
    }
  }

  lemma {:induction false} RetainedDistinct(asks: seq<Ask>, key: string)
    requires Distinct(asks)
    ensures Distinct(Retained(asks, key))
  {
    hide KeyOf, Distinct;
    if asks == [] {
      assert Retained(asks, key) == asks;
    } else {
      var front, last := asks[..|asks| - 1], asks[|asks| - 1];
      assert asks == front + [last];
      DistinctParts(front, last);
      RetainedDistinct(front, key);
      RetainedMembers(front, key);
      NewLastKey(Retained(front, key), last);
      assert Retained(front, key) + [] == Retained(front, key);
    }
  }

  lemma RetainedAt(asks: seq<Ask>, key: string)
    ensures var r := Retained(asks, key);
            && |r| <= |asks|
            && (forall i :: 0 <= i < |r| ==> KeyOf(r[i]) != key && r[i] in asks)
            && (forall a :: a in asks && KeyOf(a) != key ==> a in r)
            && (Distinct(asks) ==> Distinct(r))
  {
    RetainedMembers(asks, key);
    if Distinct(asks) { RetainedDistinct(asks, key); }
  }

  lemma RetainedKeepsShape(s: Loop, pending: seq<Ask>, key: string)
    requires HoldShape(s, pending)
    ensures HoldShape(s.(deferred := Retained(s.deferred, key)), pending)
  {
    RetainedAt(s.deferred, key);
    var r := Retained(s.deferred, key);
    forall i, j | 0 <= i < |pending| && 0 <= j < |r| ensures KeyOf(pending[i]) != KeyOf(r[j]) {
      var k :| 0 <= k < |s.deferred| && s.deferred[k] == r[j];
    }
  }

  /** What waits after a key is dropped from the queue waited before, and is another key. */
  lemma RetainedWaits(asks: seq<Ask>, gone: string, key: string)
    requires Holds(Retained(asks, gone), key)
    ensures Holds(asks, key) && key != gone
  {
    RetainedAt(asks, gone);
    var r := Retained(asks, gone);
    var j :| 0 <= j < |r| && KeyOf(r[j]) == key;
    var k :| 0 <= k < |asks| && asks[k] == r[j];
  }

  lemma OutcomeSeen(m: Memory, key: string, outcome: ServeOutcome)
    ensures var a := ApplyOutcome(m, key, outcome);
            && a.mem.seen <= m.seen + {key}
            && (!a.remembered ==> a.mem.seen == m.seen)
  {
  }

  lemma AttemptKeepsShape(s: Loop, pending: seq<Ask>, ask: Ask, isReplay: bool, tick: Tick)
    requires HoldShape(s, pending)
    ensures HoldShape(Attempted(s, ask, isReplay, tick), pending)
  {
    RetainedKeepsShape(s, pending, KeyOf(ask));
  }

  /** One attempted ask: the queue stays apart from the memory, whoever is still pending. */
  lemma AttemptKeepsHold(s: Loop, pending: seq<Ask>, ask: Ask, isReplay: bool, tick: Tick, key: string)
    requires HoldInv(s, pending, key) && !Holds(pending, KeyOf(ask))
    ensures HoldInv(Attempted(s, ask, isReplay, tick), pending, key)
  {
    AttemptKeepsShape(s, pending, ask, isReplay, tick);
    OutcomeSeen(s.mem, KeyOf(ask), tick.outcome);
    if Holds(Retained(s.deferred, KeyOf(ask)), key) {
      RetainedWaits(s.deferred, KeyOf(ask), key);
    }
  }

  /** A replay is never dropped and never found already held: it goes back to the queue. */
  lemma ReplayIsHeld(s: Loop, ask: Ask, pending: seq<Ask>, now: nat)
    requires HoldShape(s, [ask] + pending)
    ensures Deferring(s, ask, true, now) ==
            s.(deferred := s.deferred + [ask], log := s.log + [Paced(ask, now, true, HeldForLater)])
    ensures HoldShape(Deferring(s, ask, true, now), pending)
  {
    var all := [ask] + pending;
    assert all[0] == ask && forall i :: 0 <= i < |pending| ==> all[i + 1] == pending[i];
    assert !Holds(s.deferred, KeyOf(ask));
  }

  lemma FreshKeepsShape(s: Loop, ask: Ask, now: nat)
    requires HoldShape(s, [])
    ensures HoldShape(Deferring(s, ask, false, now), [])
  {
  }

  // ---------------------------------------------------------------------------------------------
  // Item by item, poll by poll.

  lemma AttemptKeeps(s: Loop, ask: Ask, isReplay: bool, tick: Tick, key: string)
    requires Accounts(s, key) && (KeyOf(ask) == key ==> key !in s.mem.seen)
    ensures Accounts(Attempted(s, ask, isReplay, tick), key)
  {
    var source := ManifestServe(ask, tick.now, isReplay);
    RememberKeeps(s, KeyOf(ask), tick.outcome, source, key);
  }

  lemma DeferringKeeps(s: Loop, ask: Ask, isReplay: bool, now: nat, key: string)
    requires Accounts(s, key)
    ensures Accounts(Deferring(s, ask, isReplay, now), key)
  {
    var u := Deferring(s, ask, isReplay, now);
    PacedKeeps(s, u, u.log[|s.log|], key);
  }

  /** What a poll keeps of a key the access requests spare. */
  ghost predicate Keeps(s: Loop, pending: seq<Ask>, key: string) {
    Accounts(s, key) && HoldInv(s, pending, key)
  }

  lemma FirstPending(ask: Ask, pending: seq<Ask>, key: string)
    ensures ([ask] + pending)[0] == ask && forall i :: 0 <= i < |pending| ==> ([ask] + pending)[i + 1] == pending[i]
    ensures Holds([ask] + pending, key) <==> KeyOf(ask) == key || Holds(pending, key)
  {
    var all := [ask] + pending;
    if Holds(pending, key) {
      var i :| 0 <= i < |pending| && KeyOf(pending[i]) == key;
      assert KeyOf(all[i + 1]) == key;
    }
    if KeyOf(ask) == key { assert KeyOf(all[0]) == key; }
  }

  lemma HeldLast(asks: seq<Ask>, ask: Ask, key: string)
    ensures Holds(asks + [ask], key) <==> Holds(asks, key) || KeyOf(ask) == key
  {
    var all := asks + [ask];
    if Holds(asks, key) {
      var i :| 0 <= i < |asks| && KeyOf(asks[i]) == key;
      assert KeyOf(all[i]) == key;
    }
    if KeyOf(ask) == key { assert KeyOf(all[|asks|]) == key; }
  }

  lemma ReplayHeldKeeps(s: Loop, ask: Ask, pending: seq<Ask>, now: nat, key: string)
    requires Keeps(s, [ask] + pending, key)
    ensures Keeps(Deferring(s, ask, true, now), pending, key)
  {
    ReplayIsHeld(s, ask, pending, now);
    DeferringKeeps(s, ask, true, now, key);
    FirstPending(ask, pending, key);
    HeldLast(s.deferred, ask, key);
  }

  lemma ReplayAttemptKeeps(s: Loop, ask: Ask, pending: seq<Ask>, tick: Tick, key: string)
    requires Keeps(s, [ask] + pending, key)
    ensures Keeps(Attempted(s, ask, true, tick), pending, key)
  {
    FirstPending(ask, pending, key);
    AttemptKeeps(s, ask, true, tick, key);
    assert !Holds(pending, KeyOf(ask));
    AttemptKeepsHold(s, pending, ask, true, tick, key);
  }

  lemma ReplayKeeps(s: Loop, ask: Ask, pending: seq<Ask>, tick: Tick, key: string)
    requires Keeps(s, [ask] + pending, key)
    ensures Keeps(ProcessItem(s, Item(ask, true), tick), pending, key)
  {
    var t := s.(caps := Pruned(s.caps, tick.now));
    assert Keeps(t, [ask] + pending, key);
    if Permits(t.caps, PairOf(ask), tick.now) {
      ReplayAttemptKeeps(t, ask, pending, Answer(ask, tick), key);
    } else {
      ReplayHeldKeeps(t, ask, pending, tick.now, key);
    }
  }

  lemma FreshHeldKeeps(s: Loop, ask: Ask, now: nat, key: string)
    requires Keeps(s, [], key) && KeyOf(ask) !in s.mem.seen
    ensures Keeps(Deferring(s, ask, false, now), [], key)
  {
    FreshKeepsShape(s, ask, now);
    DeferringKeeps(s, ask, false, now, key);
    HeldLast(s.deferred, ask, key);
  }

  lemma FreshKeeps(s: Loop, ask: Ask, tick: Tick, key: string)
    requires Keeps(s, [], key)
    ensures Keeps(ProcessItem(s, Item(ask, false), tick), [], key)
  {
    if KeyOf(ask) !in s.mem.seen {
      var t := s.(caps := Pruned(s.caps, tick.now));
      assert Keeps(t, [], key);
      if Permits(t.caps, PairOf(ask), tick.now) {
        AttemptKeeps(t, ask, false, Answer(ask, tick), key);
        AttemptKeepsHold(t, [], ask, false, Answer(ask, tick), key);
      } else {
        FreshHeldKeeps(t, ask, tick.now, key);
      }
    }
  }

  lemma GrantKeeps(s: Loop, msg: Msg, blocked: set<string>, f: AccessFacts, key: string)
    requires Keeps(s, [], key) && !HasAccessKey(msg, key)
    ensures var t := AccessItem(s, msg, blocked, f);
            Keeps(t, [], key) && t.deferred == s.deferred
  {
    if AttemptsGrant(s.mem.seen, msg, blocked, f) {
      var at := AccessKey(msg.from, msg.content.nonce);
      RememberKeeps(s, at, f.outcome, AccessGrant, key);
      OutcomeSeen(s.mem, at, f.outcome);
    }
  }

  lemma {:induction false} AccessPassKeeps(s: Loop, input: PollInput, n: nat, key: string)
    requires n <= |input.msgs| && Keeps(s, [], key) && PollSpares(input, key)
    ensures var t := AccessPass(s, input, n);
            Keeps(t, [], key) && t.deferred == s.deferred
  {
    if n > 0 {
      AccessPassKeeps(s, input, n - 1, key);
      GrantKeeps(AccessPass(s, input, n - 1), input.msgs[n - 1], input.blocked, input.facts(n - 1), key);
    }
  }

  function Rest(replays: seq<Ask>, n: nat): seq<Ask> {
    if n <= |replays| then replays[n..] else []
  }

  lemma ItemKeeps(t: Loop, replays: seq<Ask>, item: Item, tick: Tick, n: nat, key: string)
    requires n > 0 && (if n <= |replays| then item == Item(replays[n - 1], true) else !item.isReplay)
    requires Keeps(t, Rest(replays, n - 1), key)
    ensures Keeps(ProcessItem(t, item, tick), Rest(replays, n), key)
  {
    if n <= |replays| {
      assert replays[n - 1..] == [item.ask] + replays[n..];
      ReplayKeeps(t, item.ask, replays[n..], tick, key);
    } else {
      assert Rest(replays, n - 1) == [];
      FreshKeeps(t, item.ask, tick, key);
    }
  }

  /** After `n` items of the queue the replays still to come are the hold queue's own tail. */
  lemma {:induction false} ProcessKeeps(s: Loop, replays: seq<Ask>, arrivals: seq<Ask>, ticks: nat -> Tick, n: nat, key: string)
    requires n <= |replays| + |arrivals| && Keeps(s, replays, key)
    ensures Keeps(Process(s, Items(replays, true) + Items(arrivals, false), ticks, n), Rest(replays, n), key)
  {
    var queue := Items(replays, true) + Items(arrivals, false);
    if n == 0 {
      assert Rest(replays, 0) == replays;
    } else {
      ProcessKeeps(s, replays, arrivals, ticks, n - 1, key);
      ItemKeeps(Process(s, queue, ticks, n - 1), replays, queue[n - 1], ticks(n - 1), n, key);
    }
  }

  lemma PollKeeps(s: Loop, input: PollInput, key: string)
    requires Keeps(s, [], key) && PollSpares(input, key)
    ensures Keeps(PollOnce(s, input), [], key)
  {
    if input.wraps != [] {
      var s1 := s.(cursor := AdvanceInboxCursor(s.cursor, Newest(input.wraps), input.nowOuter));
      assert Keeps(s1, [], key);
      AccessPassKeeps(s1, input, |input.msgs|, key);
      var t := AccessPass(s1, input, |input.msgs|);
      var drained := t.(deferred := []);
      assert Keeps(drained, s.deferred, key);
      ProcessKeeps(drained, s.deferred, FreshAsks(input.msgs), input.ticks, |QueueOf(s, input)|, key);
      assert Rest(s.deferred, |QueueOf(s, input)|) == [];
    }
  }

  lemma {:induction false} RunKeeps(loaded: set<string>, polls: seq<PollInput>, key: string)
    requires RunSpares(polls, key)
    ensures Keeps(Run(Start(loaded), polls), [], key)
  {
    if polls == [] {
      var s := Start(loaded);
      assert s.log[..0] == [];
      assert AttemptsOf(s.log, key) == 0 && s.log[0] == Loaded(loaded);
    } else {
      var rest := polls[..|polls| - 1];
      assert forall i :: 0 <= i < |rest| ==> rest[i] == polls[i];
      RunKeeps(loaded, rest, key);
      PollKeeps(Run(Start(loaded), rest), polls[|polls| - 1], key);
    }
  }

  // ---------------------------------------------------------------------------------------------
  // What the log says of every attempt.

  /** What the loop can hold or attempt: a parsed ask from a plain sender. */
  ghost predicate Proper(ask: Ask) {
    BarFree(ask.from) && WellShaped(ask.body)
  }

  /** A grant was consulted; a serve was of a proper ask, and succeeded only where one can. */
  ghost predicate Told(log: seq<Event>, i: nat)
    requires i < |log|
  {
    log[i].Attempt? ==>
      match log[i].source
      case AccessGrant => !InMemory(log[..i], log[i].key)
      case ManifestServe(ask, _, _) => Proper(ask) && log[i].key == KeyOf(ask) && (log[i].outcome.Served? ==> Servable(ask.body))
  }

  ghost predicate AllTold(log: seq<Event>) {
    forall i :: 0 <= i < |log| ==> Told(log, i)
  }

  ghost predicate Truthful(s: Loop) {
    Remembers(s) && AllTold(s.log) && forall i :: 0 <= i < |s.deferred| ==> Proper(s.deferred[i])
  }

  lemma ToldMore(log: seq<Event>, e: Event)
    requires AllTold(log) && Told(log + [e], |log|)
    ensures AllTold(log + [e])
  {
    forall i | 0 <= i < |log + [e]| ensures Told(log + [e], i) {
      if i < |log| {
        assert (log + [e])[..i] == log[..i];
        assert Told(log, i);
      }
    }
  }

  lemma GrantIsTold(s: Loop, msg: Msg, blocked: set<string>, f: AccessFacts)
    requires Truthful(s)
    ensures Truthful(AccessItem(s, msg, blocked, f)) && AccessItem(s, msg, blocked, f).deferred == s.deferred
  {
    if AttemptsGrant(s.mem.seen, msg, blocked, f) {
      var at := AccessKey(msg.from, msg.content.nonce);
      OutcomeIsRemembered(s, at, f.outcome, AccessGrant);
      var e := Remember(s, at, f.outcome, AccessGrant).log[|s.log|];
      assert (s.log + [e])[..|s.log|] == s.log;
      ToldMore(s.log, e);
    }
  }

  lemma AttemptIsTold(s: Loop, ask: Ask, isReplay: bool, tick: Tick)
    requires Truthful(s) && Proper(ask) && (tick.outcome.Served? ==> Servable(ask.body))
    ensures Truthful(Attempted(s, ask, isReplay, tick))
  {
    var source := ManifestServe(ask, tick.now, isReplay);
    OutcomeIsRemembered(s, KeyOf(ask), tick.outcome, source);
    ToldMore(s.log, Remember(s, KeyOf(ask), tick.outcome, source).log[|s.log|]);
    RetainedAt(s.deferred, KeyOf(ask));
    var r := Retained(s.deferred, KeyOf(ask));
    forall i | 0 <= i < |r| ensures Proper(r[i]) {
      var k :| 0 <= k < |s.deferred| && s.deferred[k] == r[i];
    }
  }

  lemma DeferralIsTold(s: Loop, ask: Ask, isReplay: bool, now: nat)
    requires Truthful(s) && Proper(ask)
    ensures Truthful(Deferring(s, ask, isReplay, now))
  {
    var t := Deferring(s, ask, isReplay, now);
    var e := t.log[|s.log|];
    assert t.log == s.log + [e] && t.log[..|t.log| - 1] == s.log;
    ToldMore(s.log, e);
  }

  lemma ItemIsTold(s: Loop, item: Item, tick: Tick)
    requires Truthful(s) && Proper(item.ask)
    ensures Truthful(ProcessItem(s, item, tick))
  {
    if MayProcess(s.mem.seen, KeyOf(item.ask), item.isReplay) {
      var t := s.(caps := Pruned(s.caps, tick.now));
      assert Truthful(t);
      if Permits(t.caps, PairOf(item.ask), tick.now) {
        AttemptIsTold(t, item.ask, item.isReplay, Answer(item.ask, tick));
      } else {
        DeferralIsTold(t, item.ask, item.isReplay, tick.now);
      }
    }
  }

  lemma {:induction false} AccessPassIsTold(s: Loop, input: PollInput, n: nat)
    requires n <= |input.msgs| && Truthful(s)
    ensures Truthful(AccessPass(s, input, n)) && AccessPass(s, input, n).deferred == s.deferred
  {
    if n > 0 {
      AccessPassIsTold(s, input, n - 1);
      GrantIsTold(AccessPass(s, input, n - 1), input.msgs[n - 1], input.blocked, input.facts(n - 1));
    }
  }

  lemma {:induction false} ProcessIsTold(s: Loop, queue: seq<Item>, ticks: nat -> Tick, n: nat)
    requires n <= |queue| && Truthful(s) && forall i :: 0 <= i < |queue| ==> Proper(queue[i].ask)
    ensures Truthful(Process(s, queue, ticks, n))
  {
    if n > 0 {
      ProcessIsTold(s, queue, ticks, n - 1);
      ItemIsTold(Process(s, queue, ticks, n - 1), queue[n - 1], ticks(n - 1));
    }
  }

  lemma {:induction false} ParsedAreProper(msgs: seq<Msg>)
    requires forall i :: 0 <= i < |msgs| ==> BarFree(msgs[i].from)
    ensures forall i :: 0 <= i < |FreshAsks(msgs)| ==> Proper(FreshAsks(msgs)[i])
  {
    if msgs != [] { ParsedAreProper(msgs[..|msgs| - 1]); }
  }

  lemma PollIsTold(s: Loop, input: PollInput)
    requires Truthful(s) && forall j :: 0 <= j < |input.msgs| ==> BarFree(input.msgs[j].from)
    ensures Truthful(PollOnce(s, input))
  {
    if input.wraps != [] {
      var s1 := s.(cursor := AdvanceInboxCursor(s.cursor, Newest(input.wraps), input.nowOuter));
      AccessPassIsTold(s1, input, |input.msgs|);
      ParsedAreProper(input.msgs);
      var queue := QueueOf(s, input);
      ProcessIsTold(AccessPass(s1, input, |input.msgs|).(deferred := []), queue, input.ticks, |queue|);
    }
  }

  lemma {:induction false} RunIsTold(loaded: set<string>, polls: seq<PollInput>)
    requires PlainSenders(polls)
    ensures Truthful(Run(Start(loaded), polls))
  {
    if polls == [] {
      var s := Start(loaded);
      assert s.log[..0] == [];
    } else {
      var rest := polls[..|polls| - 1];
      assert forall i :: 0 <= i < |rest| ==> rest[i] == polls[i];
      RunIsTold(loaded, rest);
      PollIsTold(Run(Start(loaded), rest), polls[|polls| - 1]);
    }
  }

  // ---------------------------------------------------------------------------------------------
  // The results.

  /** An ask whose key no access request of the run has is never attempted while it is remembered,
      replays included. */
  lemma SparedAsksAreAttemptedOnce(loaded: set<string>, polls: seq<PollInput>, i: nat)
    requires i < |Run(Start(loaded), polls).log| && Run(Start(loaded), polls).log[i].Attempt?
    requires RunSpares(polls, Run(Start(loaded), polls).log[i].key)
    ensures var log := Run(Start(loaded), polls).log;
            !InMemory(log[..i], log[i].key)
  {
    RunKeeps(loaded, polls, Run(Start(loaded), polls).log[i].key);
  }

  /** A key some serve body takes is no access request's. */
  lemma ServableKeyIsSpared(polls: seq<PollInput>, ask: Ask)
    requires PlainSenders(polls) && BarFree(ask.from) && Servable(ask.body)
    ensures RunSpares(polls, KeyOf(ask))
  {
    forall i, j | 0 <= i < |polls| && 0 <= j < |polls[i].msgs| ensures !HasAccessKey(polls[i].msgs[j], KeyOf(ask)) {
      var msg := polls[i].msgs[j];
      if HasAccessKey(msg, KeyOf(ask)) {
        CollidingAskIsUnservable(msg.from, msg.content.nonce, ask.from, ask.body);
      }
    }
  }

  /** In every run, whatever is served or granted is not remembered at that moment, replays
      included. */
  lemma NoRunServesARememberedAsk(loaded: set<string>, polls: seq<PollInput>, i: nat)
    requires PlainSenders(polls)
    requires i < |Run(Start(loaded), polls).log| && Run(Start(loaded), polls).log[i].Attempt?
    requires Run(Start(loaded), polls).log[i].outcome.Served?
    ensures var log := Run(Start(loaded), polls).log;
            !InMemory(log[..i], log[i].key)
  {
    RunIsTold(loaded, polls);
    var log := Run(Start(loaded), polls).log;
    assert Told(log, i);
    match log[i].source {
      case AccessGrant =>
      case ManifestServe(ask, _, _) =>
        ServableKeyIsSpared(polls, ask);
        SparedAsksAreAttemptedOnce(loaded, polls, i);
    }
  }

  lemma {:induction false} RememberedUntilCleared(log: seq<Event>, i: nat, j: nat)
    requires i < j <= |log| && log[i].Attempt? && log[i].remembered
    requires forall c :: i <= c < j && log[c].Attempt? ==> !log[c].seenCleared
    ensures InMemory(log[..j], log[i].key)
    decreases j - i
  {
    assert log[..j][..j - 1] == log[..j - 1];
    if i + 1 < j {
      RememberedUntilCleared(log, i, j - 1);
    }
  }

  /** Two successful serves of one key have an overflow clear of the memory between them. */
  lemma ServedTwiceOnlyAfterAClear(loaded: set<string>, polls: seq<PollInput>, i: nat, j: nat)
    requires PlainSenders(polls)
    requires i < j < |Run(Start(loaded), polls).log|
    requires var log := Run(Start(loaded), polls).log;
             && log[i].Attempt? && log[i].outcome.Served?
             && log[j].Attempt? && log[j].outcome.Served? && log[i].key == log[j].key
    ensures var log := Run(Start(loaded), polls).log;
            exists c :: i <= c < j && log[c].Attempt? && log[c].seenCleared
  {
    RunIsTold(loaded, polls);
    NoRunServesARememberedAsk(loaded, polls, j);
    var log := Run(Start(loaded), polls).log;
    if forall c :: i <= c < j && log[c].Attempt? ==> !log[c].seenCleared {
      RememberedUntilCleared(log, i, j);
      assert false;
    }
  }

  /** While nothing overflows, an ask that always fails is attempted at most 36 times, and it is
      remembered from the 36th attempt on and not before. */
  lemma GiveUpIsExact(loaded: set<string>, polls: seq<PollInput>, key: string)
    requires RunSpares(polls, key) && key !in loaded
    requires NothingCleared(Run(Start(loaded), polls).log) && AlwaysFails(Run(Start(loaded), polls).log, key)
    ensures var s := Run(Start(loaded), polls);
            && AttemptsOf(s.log, key) <= SERVE_ATTEMPTS_MAX
            && (key in s.mem.seen <==> AttemptsOf(s.log, key) == SERVE_ATTEMPTS_MAX)
  {
    RunKeeps(loaded, polls, key);
    LoadedOnce(loaded, polls);
  }

  /** The log only grows, and nothing is loaded after the start. */
  lemma {:induction false} LogGrows(s: Loop, polls: seq<PollInput>)
    ensures s.log <= Run(s, polls).log
    ensures forall i :: |s.log| <= i < |Run(s, polls).log| ==> !Run(s, polls).log[i].Loaded?
  {
    if polls != [] {
      var t, input := Run(s, polls[..|polls| - 1]), polls[|polls| - 1];
      LogGrows(s, polls[..|polls| - 1]);
      if input.wraps != [] {
        var t1 := t.(cursor := AdvanceInboxCursor(t.cursor, Newest(input.wraps), input.nowOuter));
        AccessPassGrows(t1, input, |input.msgs|);
        var queue := QueueOf(t, input);
        ProcessGrows(AccessPass(t1, input, |input.msgs|).(deferred := []), queue, input.ticks, |queue|);
      }
    }
  }

  lemma {:induction false} AccessPassGrows(s: Loop, input: PollInput, n: nat)
    requires n <= |input.msgs|
    ensures var t := AccessPass(s, input, n);
            s.log <= t.log && forall i :: |s.log| <= i < |t.log| ==> t.log[i].Attempt?
  {
    if n > 0 { AccessPassGrows(s, input, n - 1); }
  }

  /** The log gained entries, and no load among them. */
  ghost predicate LogsMore(s: Loop, t: Loop) {
    s.log <= t.log && forall i :: |s.log| <= i < |t.log| ==> !t.log[i].Loaded?
  }

  lemma AttemptedLogs(s: Loop, ask: Ask, isReplay: bool, tick: Tick)
    ensures LogsMore(s, Attempted(s, ask, isReplay, tick))
  {
  }

  lemma DeferringLogs(s: Loop, ask: Ask, isReplay: bool, now: nat)
    ensures LogsMore(s, Deferring(s, ask, isReplay, now))
  {
  }

  lemma ItemLogs(s: Loop, item: Item, tick: Tick)
    ensures LogsMore(s, ProcessItem(s, item, tick))
  {
    var t := s.(caps := Pruned(s.caps, tick.now));
    if MayProcess(s.mem.seen, KeyOf(item.ask), item.isReplay) {
      if Permits(t.caps, PairOf(item.ask), tick.now) {
        AttemptedLogs(t, item.ask, item.isReplay, tick);
      } else {
        DeferringLogs(t, item.ask, item.isReplay, tick.now);
      }
    }
  }

  lemma {:induction false} ProcessGrows(s: Loop, queue: seq<Item>, ticks: nat -> Tick, n: nat)
    requires n <= |queue|
    ensures var t := Process(s, queue, ticks, n);
            s.log <= t.log && forall i :: |s.log| <= i < |t.log| ==> !t.log[i].Loaded?
  {
    if n > 0 {
      ProcessGrows(s, queue, ticks, n - 1);
      ItemLogs(Process(s, queue, ticks, n - 1), queue[n - 1], ticks(n - 1));
    }
  }

  lemma LoadedOnce(loaded: set<string>, polls: seq<PollInput>)
    ensures forall key :: key !in loaded ==> NotLoaded(Run(Start(loaded), polls).log, key)
  {
    LogGrows(Start(loaded), polls);
  }

  lemma {:induction false} AttemptsGrow(log: seq<Event>, more: seq<Event>, key: string)
    requires log <= more
    ensures AttemptsOf(log, key) <= AttemptsOf(more, key)
  {
    if |log| < |more| {
      AttemptsGrow(log, more[..|more| - 1], key);
    } else {
      assert log == more;
    }
  }

  lemma OnePoll(s: Loop, input: PollInput)
    ensures Run(s, [input]) == PollOnce(s, input)
  {
    assert [input][..0] == [] && Run(s, []) == s;
  }

  lemma {:induction false} RunConcat(s: Loop, polls: seq<PollInput>, more: seq<PollInput>)
    ensures Run(s, polls + more) == Run(Run(s, polls), more)
  {
    if more == [] {
      assert polls + more == polls;
    } else {
      assert (polls + more)[..|polls + more| - 1] == polls + more[..|more| - 1];
      RunConcat(s, polls, more[..|more| - 1]);
    }
  }

  /** And never again: however long the run goes on, the 36 attempts are the last. */
  lemma GivenUpForGood(loaded: set<string>, polls: seq<PollInput>, more: seq<PollInput>, key: string)
    requires RunSpares(polls + more, key) && key !in loaded
    requires NothingCleared(Run(Start(loaded), polls + more).log) && AlwaysFails(Run(Start(loaded), polls + more).log, key)
    requires key in Run(Start(loaded), polls).mem.seen
    ensures AttemptsOf(Run(Start(loaded), polls + more).log, key) == SERVE_ATTEMPTS_MAX
  {
    var s := Run(Start(loaded), polls);
    RunConcat(Start(loaded), polls, more);
    LogGrows(s, more);
    var all := Run(Start(loaded), polls + more).log;
    assert forall i :: 0 <= i < |s.log| ==> s.log[i] == all[i];
    assert forall i :: 0 <= i < |polls| ==> (polls + more)[i] == polls[i];
    GiveUpIsExact(loaded, polls, key);
    GiveUpIsExact(loaded, polls + more, key);
    AttemptsGrow(s.log, all, key);
  }
}
