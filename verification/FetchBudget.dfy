/** What driving one collection's fetch can cost: who is asked how often, how far apart, and when it
    stops, over every run of polls. */
module FetchBudget {
  import opened Wrappers
  import opened PeerWave
  import opened FetchDriver

  ghost predicate NoRepeats(names: seq<string>) {
    forall i, j :: 0 <= i < j < |names| ==> names[i] != names[j]
  }

  ghost predicate SameSources(a: seq<Candidate>, b: seq<Candidate>) {
    |a| == |b| && forall i :: 0 <= i < |a| ==> a[i].npub == b[i].npub
  }

  // ---------------------------------------------------------------------------------------------
  // One attempt noted.

  lemma NotedAt(s: Sources, npub: string, now: nat, i: nat)
    requires Distinct(All(s)) && i < |All(s)| && All(s)[i].npub == npub
    ensures All(Noted(s, npub, now)) == All(s)[i := Bump(All(s)[i], now)]
  {
    if i < |s.peers| {
      assert All(s)[|s.peers|] == s.author;
      forall j | 0 <= j < i ensures s.peers[j].npub != npub {
        assert All(s)[j] == s.peers[j];
      }
      BumpFirstAt(s.peers, npub, now, i);
    }
  }

  lemma {:induction false} RemainingAt(cs: seq<Candidate>, i: nat, now: nat)
    requires i < |cs| && !Exhausted(cs[i])
    ensures Remaining(cs[i := Bump(cs[i], now)]) + 1 == Remaining(cs)
  {
    var front := cs[..|cs| - 1];
    var after := cs[i := Bump(cs[i], now)];
    if i == |cs| - 1 {
      assert after[..|cs| - 1] == front;
    } else {
      RemainingAt(front, i, now);
      assert after[..|cs| - 1] == front[i := Bump(front[i], now)];
    }
  }

  /** `npubs` noted at `now`: exactly the named sources moved on, each by one attempt. */
  ghost predicate MovedOn(before: seq<Candidate>, after: seq<Candidate>, npubs: seq<string>, now: nat) {
    && |after| == |before|
    && forall i :: 0 <= i < |before| ==> after[i] == if before[i].npub in npubs then Bump(before[i], now) else before[i]
  }

  ghost predicate Names(cs: seq<Candidate>, npub: string) {
    exists i :: 0 <= i < |cs| && cs[i].npub == npub && !Exhausted(cs[i])
  }

  lemma MovedMore(before: seq<Candidate>, mid: seq<Candidate>, front: seq<string>, last: string, now: nat, i: nat)
    requires Distinct(before) && MovedOn(before, mid, front, now) && i < |before| && before[i].npub == last && last !in front
    ensures MovedOn(before, mid[i := Bump(mid[i], now)], front + [last], now) && mid[i] == before[i]
  {
    var after := mid[i := Bump(mid[i], now)];
    forall k | 0 <= k < |before|
      ensures after[k] == if before[k].npub in front + [last] then Bump(before[k], now) else before[k]
    {
      assert before[k].npub == last <==> k == i;
    }
  }

  lemma MovedStaysDistinct(before: seq<Candidate>, after: seq<Candidate>, npubs: seq<string>, now: nat)
    requires Distinct(before) && MovedOn(before, after, npubs, now)
    ensures Distinct(after) && SameSources(before, after)
  {
  }

  lemma {:induction false} NotedAllIs(s: Sources, npubs: seq<string>, now: nat)
    requires Distinct(All(s)) && NoRepeats(npubs) && forall k :: 0 <= k < |npubs| ==> Names(All(s), npubs[k])
    ensures MovedOn(All(s), All(NotedAll(s, npubs, now)), npubs, now)
    ensures Remaining(All(NotedAll(s, npubs, now))) + |npubs| == Remaining(All(s))
  {
    if npubs != [] {
      var front, last := npubs[..|npubs| - 1], npubs[|npubs| - 1];
      assert npubs == front + [last];
      forall k | 0 <= k < |front| ensures Names(All(s), front[k]) {
        assert front[k] == npubs[k];
      }
      NotedAllIs(s, front, now);
      var mid := NotedAll(s, front, now);
      MovedStaysDistinct(All(s), All(mid), front, now);
      assert Names(All(s), npubs[|npubs| - 1]);
      var i :| 0 <= i < |All(s)| && All(s)[i].npub == last && !Exhausted(All(s)[i]);
      NoteLast(s, mid, front, last, now, i);
    }
  }

  lemma NoteLast(s: Sources, mid: Sources, front: seq<string>, last: string, now: nat, i: nat)
    requires Distinct(All(s)) && Distinct(All(mid)) && MovedOn(All(s), All(mid), front, now)
    requires i < |All(s)| && All(s)[i].npub == last && !Exhausted(All(s)[i]) && last !in front
    ensures MovedOn(All(s), All(Noted(mid, last, now)), front + [last], now)
    ensures Remaining(All(Noted(mid, last, now))) + 1 == Remaining(All(mid))
  {
    MovedMore(All(s), All(mid), front, last, now, i);
    NotedAt(mid, last, now, i);
    RemainingAt(All(mid), i, now);
  }

  // ---------------------------------------------------------------------------------------------
  // One poll.

  ghost predicate OfPeers(ready: seq<Candidate>, peers: seq<Candidate>, now: nat) {
    forall i :: 0 <= i < |ready| ==> ready[i] in peers && Ready(ready[i], now)
  }

  lemma {:induction false} ReadyAmongDistinct(peers: seq<Candidate>, now: nat)
    requires Distinct(peers)
    ensures Distinct(ReadyAmong(peers, now)) && OfPeers(ReadyAmong(peers, now), peers, now)
  {
    if peers != [] {
      var front, last := peers[..|peers| - 1], peers[|peers| - 1];
      ReadyAmongDistinct(front, now);
      var ready := ReadyAmong(front, now);
      forall i | 0 <= i < |ready| ensures ready[i].npub != last.npub {
        assert ready[i] in front;
      }
      assert peers == front + [last];
    }
  }

  lemma AskedIs(s: Sources, now: nat)
    requires Distinct(All(s))
    ensures var asked := AskedBy(s, now);
            && asked == Wave(s.peers, s.author, now) && NoRepeats(asked)
            && forall k :: 0 <= k < |asked| ==> Names(All(s), asked[k])
  {
    assert forall i :: 0 <= i < |s.peers| ==> All(s)[i] == s.peers[i];
    assert All(s)[|s.peers|] == s.author;
    ReadyAmongDistinct(s.peers, now);
    var ready := ReadyAmong(s.peers, now);
    var n := Min(|ready|, WAVE_MAX_PEERS);
    var asked := Wave(s.peers, s.author, now);
    forall k | 0 <= k < |asked| ensures Names(All(s), asked[k]) && (k < n ==> asked[k] != s.author.npub) {
      if k < n {
        assert ready[k] in s.peers;
        var i :| 0 <= i < |s.peers| && s.peers[i] == ready[k];
        assert All(s)[i].npub == asked[k];
      } else {
        assert All(s)[|s.peers|].npub == asked[k];
      }
    }
  }

  lemma AskedIsReady(s: Sources, now: nat, i: nat)
    requires Distinct(All(s)) && i < |All(s)| && All(s)[i].npub in AskedBy(s, now)
    ensures Ready(All(s)[i], now)
  {
    AskedIs(s, now);
    WaveIs(s.peers, s.author, now);
    var c :| c in All(s) && Ready(c, now) && c.npub == All(s)[i].npub;
    var j :| 0 <= j < |All(s)| && All(s)[j] == c;
    assert i == j;
  }

  lemma PolledIs(s: Sources, now: nat)
    requires Distinct(All(s))
    ensures MovedOn(All(s), All(Polled(s, now)), AskedBy(s, now), now)
    ensures Remaining(All(Polled(s, now))) + |AskedBy(s, now)| == Remaining(All(s))
    ensures Distinct(All(Polled(s, now))) && SameSources(All(s), All(Polled(s, now)))
  {
    AskedIs(s, now);
    NotedAllIs(s, AskedBy(s, now), now);
  }

  // ---------------------------------------------------------------------------------------------
  // Runs.

  ghost predicate AllFresh(cs: seq<Candidate>) {
    forall i :: 0 <= i < |cs| ==> cs[i] == Fresh(cs[i].npub)
  }

  /** The state and the log agree on who was asked how often and when last. */
  ghost predicate Agrees(cs: seq<Candidate>, log: seq<AskedAt>) {
    forall i :: 0 <= i < |cs| ==>
      && cs[i].attempts == CountAsks(log, cs[i].npub) <= MAX_ATTEMPTS_PER_PEER
      && cs[i].lastAttempt == LastAsk(log, cs[i].npub)
  }

  lemma OneMoreAsk(log: seq<AskedAt>, e: AskedAt, npub: string)
    ensures CountAsks(log + [e], npub) == CountAsks(log, npub) + (if e.npub == npub then 1 else 0)
    ensures LastAsk(log + [e], npub) == if e.npub == npub then Some(e.at) else LastAsk(log, npub)
  {
    assert (log + [e])[..|log|] == log;
  }

  lemma LastOnce(asked: seq<string>)
    requires NoRepeats(asked) && asked != []
    ensures var front, last := asked[..|asked| - 1], asked[|asked| - 1];
            NoRepeats(front) && last !in front && forall n :: n in asked <==> n in front || n == last
  {
    assert asked == asked[..|asked| - 1] + [asked[|asked| - 1]];
  }

  lemma {:induction false} StampCounts(log: seq<AskedAt>, asked: seq<string>, now: nat, npub: string)
    requires NoRepeats(asked)
    ensures CountAsks(log + Stamp(asked, now), npub) == CountAsks(log, npub) + (if npub in asked then 1 else 0)
    ensures LastAsk(log + Stamp(asked, now), npub) == if npub in asked then Some(now) else LastAsk(log, npub)
  {
    if asked == [] {
      assert log + Stamp(asked, now) == log;
    } else {
      var front, last := asked[..|asked| - 1], asked[|asked| - 1];
      LastOnce(asked);
      StampCounts(log, front, now, npub);
      assert log + Stamp(asked, now) == (log + Stamp(front, now)) + [AskedAt(last, now)];
      OneMoreAsk(log + Stamp(front, now), AskedAt(last, now), npub);
    }
  }

  lemma AgreesNext(s: Sources, log: seq<AskedAt>, now: nat)
    requires Distinct(All(s)) && Agrees(All(s), log)
    ensures Agrees(All(Polled(s, now)), log + Stamp(AskedBy(s, now), now))
  {
    PolledIs(s, now);
    AskedIs(s, now);
    var asked, after := AskedBy(s, now), All(Polled(s, now));
    forall i | 0 <= i < |after|
      ensures after[i].attempts == CountAsks(log + Stamp(asked, now), after[i].npub) <= MAX_ATTEMPTS_PER_PEER
      ensures after[i].lastAttempt == LastAsk(log + Stamp(asked, now), after[i].npub)
    {
      StampCounts(log, asked, now, after[i].npub);
      if All(s)[i].npub in asked {
        AskedIsReady(s, now, i);
      }
    }
  }

  lemma {:induction false} RunIs(s: Sources, nows: seq<nat>)
    requires Distinct(All(s)) && AllFresh(All(s))
    ensures Distinct(All(RunSources(s, nows))) && SameSources(All(s), All(RunSources(s, nows)))
    ensures Agrees(All(RunSources(s, nows)), RunLog(s, nows))
    ensures Remaining(All(RunSources(s, nows))) + |RunLog(s, nows)| == Remaining(All(s))
  {
    if nows == [] {
    } else {
      var front := nows[..|nows| - 1];
      RunIs(s, front);
      PolledIs(RunSources(s, front), nows[|nows| - 1]);
      AgreesNext(RunSources(s, front), RunLog(s, front), nows[|nows| - 1]);
    }
  }

  lemma {:induction false} FreshRemaining(cs: seq<Candidate>)
    requires AllFresh(cs)
    ensures Remaining(cs) == MAX_ATTEMPTS_PER_PEER * |cs|
  {
    if cs != [] {
      FreshRemaining(cs[..|cs| - 1]);
    }
  }

  /** Every source is asked at most three times, and all of them together at most three times each,
      however the polls fall. */
  lemma AskBudget(s: Sources, nows: seq<nat>, npub: string)
    requires Distinct(All(s)) && AllFresh(All(s))
    ensures |RunLog(s, nows)| <= MAX_ATTEMPTS_PER_PEER * (|s.peers| + 1)
    ensures (exists i :: 0 <= i < |All(s)| && All(s)[i].npub == npub) ==> CountAsks(RunLog(s, nows), npub) <= MAX_ATTEMPTS_PER_PEER
  {
    RunIs(s, nows);
    FreshRemaining(All(s));
    if i :| 0 <= i < |All(s)| && All(s)[i].npub == npub {
      assert All(RunSources(s, nows))[i].npub == npub;
    }
  }

  /** Each ask of a source comes at least a doubling backoff after the one before it. */
  ghost predicate Spaced(log: seq<AskedAt>) {
    forall j :: 0 <= j < |log| ==> SpacedAt(log, j)
  }

  ghost predicate SpacedAt(log: seq<AskedAt>, j: nat)
    requires j < |log|
  {
    var before := LastAsk(log[..j], log[j].npub);
    before.Some? ==> log[j].at >= before.value + BackoffFor(CountAsks(log[..j], log[j].npub))
  }

  lemma PrefixSpaced(log: seq<AskedAt>, more: seq<AskedAt>, j: nat)
    requires j < |log| && SpacedAt(log, j)
    ensures SpacedAt(log + more, j)
  {
    assert (log + more)[..j] == log[..j];
  }

  lemma NewAskIsSpaced(s: Sources, log: seq<AskedAt>, now: nat, k: nat)
    requires Distinct(All(s)) && Agrees(All(s), log) && k < |AskedBy(s, now)|
    requires forall e :: e in log ==> e.at <= now
    ensures SpacedAt(log + Stamp(AskedBy(s, now), now), |log| + k)
  {
    var asked := AskedBy(s, now);
    AskedIs(s, now);
    assert (log + Stamp(asked, now))[..|log| + k] == log + Stamp(asked[..k], now);
    StampCounts(log, asked[..k], now, asked[k]);
    assert Names(All(s), asked[k]);
    var i :| 0 <= i < |All(s)| && All(s)[i].npub == asked[k];
    AskedIsReady(s, now, i);
    LastIsInLog(log, asked[k]);
  }

  lemma SpacedNext(s: Sources, log: seq<AskedAt>, now: nat)
    requires Distinct(All(s)) && Agrees(All(s), log) && Spaced(log)
    requires forall e :: e in log ==> e.at <= now
    ensures Spaced(log + Stamp(AskedBy(s, now), now))
  {
    var more := Stamp(AskedBy(s, now), now);
    forall j | 0 <= j < |log + more| ensures SpacedAt(log + more, j) {
      if j < |log| {
        assert SpacedAt(log, j);
        PrefixSpaced(log, more, j);
      } else {
        NewAskIsSpaced(s, log, now, j - |log|);
      }
    }
  }

  lemma {:induction false} LastIsInLog(log: seq<AskedAt>, npub: string)
    ensures LastAsk(log, npub).Some? ==> AskedAt(npub, LastAsk(log, npub).value) in log
  {
    if log != [] {
      LastIsInLog(log[..|log| - 1], npub);
    }
  }

  lemma {:induction false} LogIsPast(s: Sources, nows: seq<nat>, now: nat)
    requires forall i :: 0 <= i < |nows| ==> nows[i] <= now
    ensures forall e :: e in RunLog(s, nows) ==> e.at <= now
  {
    if nows != [] {
      LogIsPast(s, nows[..|nows| - 1], now);
    }
  }

  lemma {:induction false} AsksAreSpaced(s: Sources, nows: seq<nat>)
    requires Distinct(All(s)) && AllFresh(All(s)) && Rising(nows)
    ensures Spaced(RunLog(s, nows))
  {
    if nows != [] {
      var front, now := nows[..|nows| - 1], nows[|nows| - 1];
      AsksAreSpaced(s, front);
      RunIs(s, front);
      LogIsPast(s, front, now);
      SpacedNext(RunSources(s, front), RunLog(s, front), now);
    }
  }

  // ---------------------------------------------------------------------------------------------
  // The end.

  /** Giving up is for good: no later poll asks anyone or changes anything. */
  lemma GiveUpIsAbsorbing(s: Sources, now: nat, later: nat)
    requires NextAction(s.peers, s.author, now).GiveUp?
    ensures NextAction(s.peers, s.author, later).GiveUp? && Polled(s, later) == s && AskedBy(s, later) == []
  {
    GivesUpIff(s.peers, s.author, now);
    GivesUpIff(s.peers, s.author, later);
  }

  lemma {:induction false} NothingRemainsIff(cs: seq<Candidate>)
    ensures Remaining(cs) == 0 <==> forall c :: c in cs ==> Exhausted(c)
  {
    if cs != [] {
      var front, last := cs[..|cs| - 1], cs[|cs| - 1];
      NothingRemainsIff(front);
      assert last in cs && forall c :: c in cs <==> c in front || c == last;
      assert (forall c :: c in cs ==> Exhausted(c)) <==> (forall c :: c in front ==> Exhausted(c)) && Exhausted(last);
    }
  }

  /** Polls far enough apart for the longest backoff that still matters. */
  ghost predicate Patient(nows: seq<nat>) {
    forall i :: 0 < i < |nows| ==> nows[i - 1] + BackoffFor(MAX_ATTEMPTS_PER_PEER - 1) <= nows[i]
  }

  lemma {:induction false} PatientIsRising(nows: seq<nat>)
    requires Patient(nows)
    ensures forall i :: 0 <= i < |nows| ==> nows[i] <= nows[|nows| - 1]
    ensures forall i :: 0 <= i < |nows| - 1 ==> nows[i] + BackoffFor(MAX_ATTEMPTS_PER_PEER - 1) <= nows[|nows| - 1]
  {
    if |nows| > 1 {
      PatientIsRising(nows[..|nows| - 1]);
      assert nows[|nows| - 2] + BackoffFor(MAX_ATTEMPTS_PER_PEER - 1) <= nows[|nows| - 1];
    }
  }

  lemma BackoffAtMost(attempts: nat)
    requires attempts < MAX_ATTEMPTS_PER_PEER
    ensures BackoffFor(attempts) <= BackoffFor(MAX_ATTEMPTS_PER_PEER - 1)
  {
  }

  lemma LastAskIsLongAgo(s: Sources, nows: seq<nat>, npub: string)
    requires Patient(nows) && nows != []
    ensures var last := LastAsk(RunLog(s, nows[..|nows| - 1]), npub);
            last.Some? ==> last.value + BackoffFor(MAX_ATTEMPTS_PER_PEER - 1) <= nows[|nows| - 1]
  {
    var front := nows[..|nows| - 1];
    PatientIsRising(nows);
    if front != [] {
      PatientIsRising(front);
      LogIsPast(s, front, front[|front| - 1]);
      LastIsInLog(RunLog(s, front), npub);
    }
  }

  lemma ReadySourceIsAsked(s: Sources, c: Candidate, now: nat)
    requires c in All(s) && Ready(c, now)
    ensures AskedBy(s, now) != []
  {
    WaveIs(s.peers, s.author, now);
  }

  lemma LongAgoIsReady(c: Candidate, now: nat)
    requires !Exhausted(c)
    requires c.lastAttempt.Some? ==> c.lastAttempt.value + BackoffFor(MAX_ATTEMPTS_PER_PEER - 1) <= now
    ensures Ready(c, now)
  {
    BackoffAtMost(c.attempts);
  }

  /** A patient poll asks someone unless everyone has had their attempts. */
  lemma PatientPollAsks(s: Sources, nows: seq<nat>)
    requires Distinct(All(s)) && AllFresh(All(s)) && Patient(nows) && nows != []
    requires Remaining(All(RunSources(s, nows[..|nows| - 1]))) > 0
    ensures AskedBy(RunSources(s, nows[..|nows| - 1]), nows[|nows| - 1]) != []
  {
    var front, now := nows[..|nows| - 1], nows[|nows| - 1];
    var r := RunSources(s, front);
    RunIs(s, front);
    NothingRemainsIff(All(r));
    var c :| c in All(r) && !Exhausted(c);
    LastAskIsLongAgo(s, nows, c.npub);
    LongAgoIsReady(c, now);
    ReadySourceIsAsked(r, c, now);
  }

  /** Nobody is left out: polled patiently and answered by no one, the driver asks every source
      exactly three times, and then gives up. */
  lemma {:induction false} EverySourceHasItsTurn(s: Sources, nows: seq<nat>)
    requires Distinct(All(s)) && AllFresh(All(s)) && Patient(nows)
    ensures Remaining(All(RunSources(s, nows))) == 0 || |RunLog(s, nows)| >= |nows|
    ensures |nows| >= MAX_ATTEMPTS_PER_PEER * (|s.peers| + 1) ==>
              && NextAction(RunSources(s, nows).peers, RunSources(s, nows).author, if nows == [] then 0 else nows[|nows| - 1]).GiveUp?
              && forall i :: 0 <= i < |All(s)| ==> CountAsks(RunLog(s, nows), All(s)[i].npub) == MAX_ATTEMPTS_PER_PEER
  {
    hide NextAction, Wave, Polled, Remaining;
    RunIs(s, nows);
    FreshRemaining(All(s));
    if nows != [] {
      var front := nows[..|nows| - 1];
      EverySourceHasItsTurn(s, front);
      RunIs(s, front);
      if Remaining(All(RunSources(s, front))) > 0 {
        PatientPollAsks(s, nows);
      }
    }
    var r := RunSources(s, nows);
    if |nows| >= MAX_ATTEMPTS_PER_PEER * (|s.peers| + 1) {
      NothingRemainsIff(All(r));
      GivesUpIff(r.peers, r.author, if nows == [] then 0 else nows[|nows| - 1]);
      forall i | 0 <= i < |All(s)| ensures CountAsks(RunLog(s, nows), All(s)[i].npub) == MAX_ATTEMPTS_PER_PEER {
        assert All(r)[i] in All(r);
      }
    }
  }
}
