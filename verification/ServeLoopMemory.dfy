/** The loop's two memories, read off its log: which attempts leave a key remembered, and which empty
    a memory. Both memories clear themselves, so the counts start again at every clear. */
module ServeLoopMemory {
  import opened Wrappers
  import opened RateLimit
  import opened RequestKeys
  import opened AnsweredMemory
  import opened ServeLoop
  import opened ServeLoopSafety
  import opened ServeLoopGrants

  function FailuresAfter(count: nat, key: string, e: Event): nat {
    if !e.Attempt? then count
    else if e.attemptsCleared || (e.key == key && e.remembered) then 0
    else if e.key == key then count + 1
    else count
  }

  /** The failed attempts of `key` since the counts were last cleared and since it was last remembered. */
  ghost function FailuresSince(log: seq<Event>, key: string): nat {
    if log == [] then 0 else FailuresAfter(FailuresSince(log[..|log| - 1], key), key, log[|log| - 1])
  }

  ghost predicate IsRemembered(keys: set<string>, log: seq<Event>) {
    forall key :: key in keys <==> InMemory(log, key)
  }

  ghost predicate IsCounted(keys: set<string>, log: seq<Event>) {
    forall key :: key in keys <==> FailuresSince(log, key) > 0
  }

  ghost predicate FillsMemory(log: seq<Event>, key: string) {
    exists keys: set<string> :: IsRemembered(keys, log) && |keys + {key}| > SEEN_REQUESTS_MAX
  }

  ghost predicate FillsCounts(log: seq<Event>, key: string) {
    exists keys: set<string> :: IsCounted(keys, log) && |keys + {key}| > SERVE_ATTEMPT_KEYS_MAX
  }

  /** An attempt is remembered when it succeeds or is the 36th failure in a row; what it adds clears a
      memory exactly when that memory would outgrow its bound. */
  ghost predicate Tells(e: Event, before: seq<Event>) {
    e.Attempt? ==>
      && (e.remembered <==> e.outcome.Served? || FailuresSince(before, e.key) + 1 >= SERVE_ATTEMPTS_MAX)
      && (e.seenCleared <==> e.remembered && FillsMemory(before, e.key))
      && (e.attemptsCleared <==> e.outcome.Failed? && FillsCounts(before, e.key))
  }

  ghost predicate CountsAgree(attempts: map<string, nat>, log: seq<Event>) {
    forall key :: FailuresSince(log, key) == if key in attempts then attempts[key] else 0
  }

  ghost predicate Positive(attempts: map<string, nat>) {
    forall key :: key in attempts ==> attempts[key] > 0
  }

  ghost predicate EachTells(log: seq<Event>) {
    forall i :: 0 <= i < |log| ==> Tells(log[i], log[..i])
  }

  ghost predicate Knows(s: Loop) {
    Remembers(s) && CountsAgree(s.mem.attempts, s.log) && Positive(s.mem.attempts) && EachTells(s.log)
  }

  lemma MemoryFills(seen: set<string>, log: seq<Event>, key: string)
    requires IsRemembered(seen, log)
    ensures FillsMemory(log, key) <==> |seen + {key}| > SEEN_REQUESTS_MAX
  {
    hide InMemory;
    forall keys: set<string> | IsRemembered(keys, log) ensures keys == seen {
      assert forall k :: k in keys <==> k in seen;
    }
  }

  lemma CountsFill(attempts: map<string, nat>, log: seq<Event>, key: string)
    requires CountsAgree(attempts, log) && Positive(attempts)
    ensures FillsCounts(log, key) <==> |Counted(attempts, key)| > SERVE_ATTEMPT_KEYS_MAX
  {
    hide FailuresSince;
    assert IsCounted(attempts.Keys, log);
    forall keys: set<string> | IsCounted(keys, log) ensures keys == attempts.Keys {
      assert forall k :: k in keys <==> k in attempts;
    }
    assert Counted(attempts, key).Keys == attempts.Keys + {key};
    assert |Counted(attempts, key)| == |Counted(attempts, key).Keys|;
  }

  lemma AttemptCounts(m: Memory, log: seq<Event>, key: string, outcome: ServeOutcome, source: Source)
    requires CountsAgree(m.attempts, log) && Positive(m.attempts)
    ensures var a := ApplyOutcome(m, key, outcome);
            CountsAgree(a.mem.attempts, log + [Attempt(key, outcome, source, a.remembered, a.seenCleared, a.attemptsCleared)])
            && Positive(a.mem.attempts)
  {
    hide Remembering, Overflows;
    var a := ApplyOutcome(m, key, outcome);
    var e := Attempt(key, outcome, source, a.remembered, a.seenCleared, a.attemptsCleared);
    assert (log + [e])[..|log|] == log;
    forall k ensures FailuresSince(log + [e], k) == if k in a.mem.attempts then a.mem.attempts[k] else 0 {
      assert FailuresSince(log + [e], k) == FailuresAfter(FailuresSince(log, k), k, e);
    }
  }

  lemma AttemptTells(m: Memory, log: seq<Event>, key: string, outcome: ServeOutcome, source: Source)
    requires IsRemembered(m.seen, log) && CountsAgree(m.attempts, log) && Positive(m.attempts)
    ensures var a := ApplyOutcome(m, key, outcome);
            Tells(Attempt(key, outcome, source, a.remembered, a.seenCleared, a.attemptsCleared), log)
  {
    hide FillsMemory, FillsCounts;
    MemoryFills(m.seen, log, key);
    CountsFill(m.attempts, log, key);
    assert FailuresSince(log, key) == if key in m.attempts then m.attempts[key] else 0;
  }

  lemma EachTellsMore(log: seq<Event>, e: Event)
    requires EachTells(log) && Tells(e, log)
    ensures EachTells(log + [e])
  {
    hide Tells;
    forall i | 0 <= i < |log + [e]| ensures Tells((log + [e])[i], (log + [e])[..i]) {
      if i < |log| {
        assert (log + [e])[..i] == log[..i];
        assert Tells(log[i], log[..i]);
      } else {
        assert (log + [e])[..i] == log;
      }
    }
  }

  lemma OutcomeIsKnown(s: Loop, key: string, outcome: ServeOutcome, source: Source)
    requires Knows(s)
    ensures Knows(Remember(s, key, outcome, source))
  {
    hide Tells, CountsAgree, Positive, ApplyOutcome;
    OutcomeIsRemembered(s, key, outcome, source);
    AttemptCounts(s.mem, s.log, key, outcome, source);
    assert IsRemembered(s.mem.seen, s.log);
    AttemptTells(s.mem, s.log, key, outcome, source);
    var t := Remember(s, key, outcome, source);
    EachTellsMore(s.log, t.log[|s.log|]);
  }

  lemma PacedIsKnown(s: Loop, t: Loop)
    requires Knows(s) && Remembers(t) && t.mem == s.mem
    requires |t.log| == |s.log| + 1 && s.log <= t.log && t.log[|s.log|].Paced?
    ensures Knows(t)
  {
    var e := t.log[|s.log|];
    assert t.log == s.log + [e] && t.log[..|s.log|] == s.log;
    EachTellsMore(s.log, e);
    forall key ensures FailuresSince(t.log, key) == FailuresSince(s.log, key) { }
  }

  lemma OnlyTheRestIsKnown(s: Loop, t: Loop)
    requires Knows(s) && t.log == s.log && t.mem == s.mem
    ensures Knows(t)
  {
  }

  lemma ItemIsKnown(s: Loop, item: Item, tick: Tick)
    requires Knows(s)
    ensures Knows(ProcessItem(s, item, tick))
  {
    hide Permits, Pruned, KeyOf, PairOf, Retained, Knows, ApplyOutcome, Recorded, Holds;
    var t, answer := ProcessItem(s, item, tick), Answer(item.ask, tick);
    KnownIsRemembered(s);
    if MayProcess(s.mem.seen, KeyOf(item.ask), item.isReplay) {
      QueueItemRemembers(s, item, tick);
      if Permits(Pruned(s.caps, tick.now), PairOf(item.ask), tick.now) {
        OutcomeIsKnown(s, KeyOf(item.ask), answer.outcome, ManifestServe(item.ask, tick.now, item.isReplay));
        OnlyTheRestIsKnown(Remember(s, KeyOf(item.ask), answer.outcome, ManifestServe(item.ask, tick.now, item.isReplay)), t);
      } else {
        PacedIsKnown(s, t);
      }
    }
  }

  lemma KnownIsRemembered(s: Loop)
    requires Knows(s)
    ensures Remembers(s)
  {
  }

  lemma {:induction false} QueueIsKnown(s: Loop, queue: seq<Item>, ticks: nat -> Tick, n: nat)
    requires n <= |queue| && Knows(s)
    ensures Knows(Process(s, queue, ticks, n))
  {
    hide Knows, ProcessItem;
    if n > 0 {
      QueueIsKnown(s, queue, ticks, n - 1);
      ItemIsKnown(Process(s, queue, ticks, n - 1), queue[n - 1], ticks(n - 1));
    }
  }

  lemma GrantIsKnown(s: Loop, msg: Msg, blocked: set<string>, f: AccessFacts)
    requires Knows(s)
    ensures Knows(AccessItem(s, msg, blocked, f))
  {
    hide Knows, Remember;
    if AttemptsGrant(s.mem.seen, msg, blocked, f) {
      OutcomeIsKnown(s, AccessKey(msg.from, msg.content.nonce), f.outcome, AccessGrant);
    }
  }

  lemma {:induction false} PassIsKnown(s: Loop, input: PollInput, n: nat)
    requires n <= |input.msgs| && Knows(s)
    ensures Knows(AccessPass(s, input, n))
  {
    hide Knows, AccessItem;
    if n > 0 {
      PassIsKnown(s, input, n - 1);
      GrantIsKnown(AccessPass(s, input, n - 1), input.msgs[n - 1], input.blocked, input.facts(n - 1));
    }
  }

  lemma StartIsKnown(loaded: set<string>)
    ensures Knows(Start(loaded))
  {
    StartRemembers(loaded);
    var log := Start(loaded).log;
    assert log[..0] == [];
    forall key ensures FailuresSince(log, key) == 0 { assert FailuresSince([], key) == 0; }
  }

  lemma {:induction false} RunIsKnown(loaded: set<string>, polls: seq<PollInput>)
    ensures Knows(Run(Start(loaded), polls))
  {
    hide Knows, Process, AccessPass;
    if polls == [] {
      StartIsKnown(loaded);
    } else {
      var s, input := Run(Start(loaded), polls[..|polls| - 1]), polls[|polls| - 1];
      RunIsKnown(loaded, polls[..|polls| - 1]);
      if input.wraps != [] {
        var s1 := s.(cursor := AdvanceInboxCursor(s.cursor, Newest(input.wraps), input.nowOuter));
        OnlyTheRestIsKnown(s, s1);
        PassIsKnown(s1, input, |input.msgs|);
        var t, queue := AccessPass(s1, input, |input.msgs|), QueueOf(s, input);
        OnlyTheRestIsKnown(t, t.(deferred := []));
        QueueIsKnown(t.(deferred := []), queue, input.ticks, |queue|);
      }
    }
  }

  /** In every run, clears and failures of any key included: an attempt leaves its key remembered
      exactly when it succeeds or is the 36th failure since the counts were last cleared and the key
      last remembered; the memory is cleared exactly when one more key would make more than 4096, the
      counts exactly when one more would make more than 1024. */
  lemma EveryAttemptTells(loaded: set<string>, polls: seq<PollInput>, i: nat)
    requires i < |Run(Start(loaded), polls).log|
    ensures Tells(Run(Start(loaded), polls).log[i], Run(Start(loaded), polls).log[..i])
  {
    RunIsKnown(loaded, polls);
  }
}
