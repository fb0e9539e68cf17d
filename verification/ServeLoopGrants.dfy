/** Whom a poll grants access. A poll's access requests are decided one by one, in the order they were
    decoded, and each leaves one attempt in the log or none: one exactly when the request has earned
    it and its key is not remembered when its turn comes. `Earned` is written out of the request and
    of what the world answers alone. */
module ServeLoopGrants {
  import opened Wrappers
  import opened RateLimit
  import opened RequestKeys
  import opened AnsweredMemory
  import opened ServeLoop
  import opened ServeLoopSafety
  import opened ServeLoopQueue

  /** Who is granted: a sender asking for itself, not blocked, whose own fetched collections add up to
      something, and to at least as much as ours. */
  ghost predicate Earned(input: PollInput, j: nat)
    requires j < |input.msgs|
  {
    var from, content, f := input.msgs[j].from, input.msgs[j].content, input.facts(j);
    && content.AccessJson? && content.nonce != "" && from != "" && content.asker == from
    && from !in input.blocked
    && f.parsable && ShareCodeShaped(from)
    && f.teaser.Fetched? && f.teaser.totalBytes.Some?
    && 0 < f.teaser.totalBytes.value && f.myTotal <= f.teaser.totalBytes.value
  }

  /** The request at `j`, whose turn comes after the log `before`. */
  ghost predicate Granted(input: PollInput, j: nat, before: seq<Event>)
    requires j < |input.msgs|
  {
    Earned(input, j) && !InMemory(before, AccessKey(input.msgs[j].from, input.msgs[j].content.nonce))
  }

  /** The attempt of the request at `j`. */
  ghost predicate IsGrantOf(e: Event, input: PollInput, j: nat)
    requires j < |input.msgs|
  {
    && e.Attempt? && e.source.AccessGrant?
    && input.msgs[j].content.AccessJson?
    && e.key == AccessKey(input.msgs[j].from, input.msgs[j].content.nonce)
    && e.outcome == input.facts(j).outcome
  }

  /** What the log shows of the request at `j`, decided with `i` events before it and `k` after. */
  ghost predicate Answered(log: seq<Event>, input: PollInput, j: nat, i: nat, k: nat)
    requires j < |input.msgs|
  {
    && i <= k <= |log|
    && k == (if Granted(input, j, log[..i]) then i + 1 else i)
    && (k == i + 1 ==> IsGrantOf(log[i], input, j))
  }

  /** `at` says how many events the log had when each of the first `n` requests had its turn. */
  ghost predicate Account(log: seq<Event>, input: PollInput, start: nat, at: seq<nat>, n: nat) {
    && n <= |input.msgs| && |at| == n + 1 && at[0] == start && at[n] <= |log|
    && forall j: nat :: j < n ==> Answered(log, input, j, at[j], at[j + 1])
  }

  ghost predicate NoGrantsFrom(log: seq<Event>, n: nat) {
    forall i :: n <= i < |log| && log[i].Attempt? ==> log[i].source.ManifestServe?
  }

  lemma AnsweredStays(log: seq<Event>, more: seq<Event>, input: PollInput, j: nat, i: nat, k: nat)
    requires j < |input.msgs| && log <= more && Answered(log, input, j, i, k)
    ensures Answered(more, input, j, i, k)
  {
    hide Granted, IsGrantOf;
    assert more[..i] == log[..i];
  }

  lemma AccountStays(log: seq<Event>, more: seq<Event>, input: PollInput, start: nat, at: seq<nat>, n: nat)
    requires log <= more && Account(log, input, start, at, n)
    ensures Account(more, input, start, at, n)
  {
    hide Answered;
    forall j: nat | j < n ensures Answered(more, input, j, at[j], at[j + 1]) {
      AnsweredStays(log, more, input, j, at[j], at[j + 1]);
    }
  }

  /** One request. */
  lemma ItemIsAnswered(s: Loop, input: PollInput, j: nat)
    requires j < |input.msgs| && Remembers(s)
    ensures var t := AccessItem(s, input.msgs[j], input.blocked, input.facts(j));
            && Remembers(t) && s.log <= t.log
            && Answered(t.log, input, j, |s.log|, |t.log|)
  {
    hide ShareCodeShaped, AccessKey;
    var msg, t := input.msgs[j], AccessItem(s, input.msgs[j], input.blocked, input.facts(j));
    assert t.log[..|s.log|] == s.log;
    if AttemptsGrant(s.mem.seen, msg, input.blocked, input.facts(j)) {
      OutcomeIsRemembered(s, AccessKey(msg.from, msg.content.nonce), input.facts(j).outcome, AccessGrant);
    }
  }

  lemma {:induction false} PassIsAccounted(s: Loop, input: PollInput, n: nat) returns (at: seq<nat>)
    requires n <= |input.msgs| && Remembers(s)
    ensures var t := AccessPass(s, input, n);
            && Remembers(t) && s.log <= t.log
            && Account(t.log, input, |s.log|, at, n) && at[n] == |t.log|
  {
    hide Answered, AccessItem, Remembers;
    if n == 0 {
      at := [|s.log|];
    } else {
      at := PassIsAccounted(s, input, n - 1);
      var t := AccessPass(s, input, n - 1);
      var u := AccessItem(t, input.msgs[n - 1], input.blocked, input.facts(n - 1));
      ItemIsAnswered(t, input, n - 1);
      AccountStays(t.log, u.log, input, |s.log|, at, n - 1);
      at := at + [|u.log|];
    }
  }

  lemma ItemGrantsNobody(s: Loop, item: Item, tick: Tick, n: nat)
    requires n <= |s.log| && NoGrantsFrom(s.log, n)
    ensures NoGrantsFrom(ProcessItem(s, item, tick).log, n)
  {
    hide Permits, Pruned, KeyOf, PairOf, ApplyOutcome;
  }

  lemma {:induction false} QueueGrantsNobody(s: Loop, queue: seq<Item>, ticks: nat -> Tick, n: nat)
    requires n <= |queue|
    ensures s.log <= Process(s, queue, ticks, n).log
    ensures NoGrantsFrom(Process(s, queue, ticks, n).log, |s.log|)
  {
    hide ProcessItem;
    if n > 0 {
      QueueGrantsNobody(s, queue, ticks, n - 1);
      ItemGrantsNobody(Process(s, queue, ticks, n - 1), queue[n - 1], ticks(n - 1), |s.log|);
      ItemGrows(Process(s, queue, ticks, n - 1), queue[n - 1], ticks(n - 1));
    }
  }

  /** Every access request of a poll that fetched anything, in order: it is attempted, once and with
      the outcome the world gives, exactly when it has earned a grant and its key is not remembered
      when its turn comes. After the last of them the poll grants nobody. */
  lemma PollGrantsTheEarned(s: Loop, input: PollInput) returns (at: seq<nat>)
    requires Remembers(s) && input.wraps != []
    ensures var log := PollOnce(s, input).log;
            && s.log <= log
            && Account(log, input, |s.log|, at, |input.msgs|)
            && NoGrantsFrom(log, at[|input.msgs|])
  {
    hide Answered, Remembers, AccessItem, ProcessItem;
    var s1 := s.(cursor := AdvanceInboxCursor(s.cursor, Newest(input.wraps), input.nowOuter));
    OnlyTheRest(s, s1);
    at := PassIsAccounted(s1, input, |input.msgs|);
    var t, queue := AccessPass(s1, input, |input.msgs|), QueueOf(s, input);
    var drained := t.(deferred := []);
    QueueGrantsNobody(drained, queue, input.ticks, |queue|);
    AccountStays(t.log, Process(drained, queue, input.ticks, |queue|).log, input, |s.log|, at, |input.msgs|);
  }

  lemma {:induction false} TurnOf(log: seq<Event>, input: PollInput, start: nat, at: seq<nat>, n: nat, i: nat)
    returns (j: nat)
    requires Account(log, input, start, at, n) && start <= i < at[n]
    ensures j < n && at[j] == i && at[j + 1] == i + 1
    decreases n
  {
    assert n > 0;
    assert Answered(log, input, n - 1, at[n - 1], at[n]);
    if at[n - 1] <= i {
      j := n - 1;
    } else {
      assert at[..n][n - 1] == at[n - 1];
      forall j: nat | j < n - 1 ensures Answered(log, input, j, at[..n][j], at[..n][j + 1]) {
        assert Answered(log, input, j, at[j], at[j + 1]);
      }
      j := TurnOf(log, input, start, at[..n], n - 1, i);
    }
  }

  ghost predicate GrantIsEarned(log: seq<Event>, i: nat, input: PollInput, j: nat)
    requires i < |log| && j < |input.msgs|
  {
    IsGrantOf(log[i], input, j) && Granted(input, j, log[..i])
  }

  /** Nobody is granted who has not earned it: each grant a poll attempts is of one of its messages. */
  lemma EveryGrantIsEarned(s: Loop, input: PollInput, i: nat) returns (j: nat)
    requires Remembers(s)
    requires |s.log| <= i < |PollOnce(s, input).log|
    requires PollOnce(s, input).log[i].Attempt? && PollOnce(s, input).log[i].source.AccessGrant?
    ensures j < |input.msgs| && GrantIsEarned(PollOnce(s, input).log, i, input, j)
  {
    hide Remembers, PollOnce;
    var log := PollOnce(s, input).log;
    if input.wraps == [] {
      NothingFetched(s, input);
      assert false;
    } else {
      var at := PollGrantsTheEarned(s, input);
      j := TurnOf(log, input, |s.log|, at, |input.msgs|, i);
    }
  }

  lemma NothingFetched(s: Loop, input: PollInput)
    requires input.wraps == []
    ensures PollOnce(s, input) == s
  {
  }

  /** The same over a whole run: each grant of its log belongs to a message of one of its polls. */
  lemma {:induction false} EveryGrantOfARunIsEarned(loaded: set<string>, polls: seq<PollInput>, i: nat)
    returns (p: nat, j: nat)
    requires i < |Run(Start(loaded), polls).log|
    requires var e := Run(Start(loaded), polls).log[i]; e.Attempt? && e.source.AccessGrant?
    ensures p < |polls| && j < |polls[p].msgs|
    ensures GrantIsEarned(Run(Start(loaded), polls).log, i, polls[p], j)
  {
    hide PollOnce, GrantIsEarned, Remembers;
    var n := |polls| - 1;
    if n < 0 {
      assert false;
    } else {
      var s, log := Run(Start(loaded), polls[..n]), Run(Start(loaded), polls).log;
      RunRemembers(loaded, polls[..n]);
      LogGrows(s, [polls[n]]);
      OnePoll(s, polls[n]);
      if i < |s.log| {
        p, j := EveryGrantOfARunIsEarned(loaded, polls[..n], i);
        GrantStaysEarned(s.log, log, i, polls[p], j);
      } else {
        p := n;
        j := EveryGrantIsEarned(s, polls[n], i);
      }
    }
  }

  lemma QueueItemRemembers(s: Loop, item: Item, tick: Tick)
    requires Remembers(s)
    ensures Remembers(ProcessItem(s, item, tick)) && s.log <= ProcessItem(s, item, tick).log
  {
    hide Permits, Pruned, KeyOf, PairOf, Retained;
    var t, answer := ProcessItem(s, item, tick), Answer(item.ask, tick);
    if MayProcess(s.mem.seen, KeyOf(item.ask), item.isReplay) {
      if Permits(Pruned(s.caps, tick.now), PairOf(item.ask), tick.now) {
        OutcomeIsRemembered(s, KeyOf(item.ask), answer.outcome, ManifestServe(item.ask, tick.now, item.isReplay));
        OnlyTheRest(Remember(s, KeyOf(item.ask), answer.outcome, ManifestServe(item.ask, tick.now, item.isReplay)), t);
      } else {
        assert t.log[..|t.log| - 1] == s.log;
      }
    }
  }

  lemma OnlyTheRest(s: Loop, t: Loop)
    requires Remembers(s) && t.log == s.log && t.mem == s.mem
    ensures Remembers(t)
  {
  }

  lemma {:induction false} QueueRemembers(s: Loop, queue: seq<Item>, ticks: nat -> Tick, n: nat)
    requires n <= |queue| && Remembers(s)
    ensures Remembers(Process(s, queue, ticks, n))
  {
    hide ProcessItem, Remembers;
    if n > 0 {
      QueueRemembers(s, queue, ticks, n - 1);
      QueueItemRemembers(Process(s, queue, ticks, n - 1), queue[n - 1], ticks(n - 1));
    }
  }

  lemma StartRemembers(loaded: set<string>)
    ensures Remembers(Start(loaded))
  {
    var log := Start(loaded).log;
    assert log[..0] == [];
    forall key ensures key in loaded <==> InMemory(log, key) {
      assert !InMemory([], key);
    }
  }

  lemma {:induction false} RunRemembers(loaded: set<string>, polls: seq<PollInput>)
    ensures Remembers(Run(Start(loaded), polls))
  {
    hide Process, AccessPass;
    if polls == [] {
      StartRemembers(loaded);
    } else {
      var s, input := Run(Start(loaded), polls[..|polls| - 1]), polls[|polls| - 1];
      RunRemembers(loaded, polls[..|polls| - 1]);
      if input.wraps != [] {
        var s1 := s.(cursor := AdvanceInboxCursor(s.cursor, Newest(input.wraps), input.nowOuter));
        OnlyTheRest(s, s1);
        var _ := PassIsAccounted(s1, input, |input.msgs|);
        var t, queue := AccessPass(s1, input, |input.msgs|), QueueOf(s, input);
        OnlyTheRest(t, t.(deferred := []));
        QueueRemembers(t.(deferred := []), queue, input.ticks, |queue|);
      }
    }
  }

  lemma GrantStaysEarned(log: seq<Event>, more: seq<Event>, i: nat, input: PollInput, j: nat)
    requires log <= more && i < |log| && j < |input.msgs| && GrantIsEarned(log, i, input, j)
    ensures GrantIsEarned(more, i, input, j)
  {
    hide IsGrantOf, Granted;
    assert more[..i] == log[..i];
  }
}
