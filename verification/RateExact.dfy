/** What the limiter answers, read off the history of serves alone: while the clock does not go back,
    the lazily pruned window and the stamp kept for each pair decide as if the whole history were
    consulted each time. */
module RateExact {
  import opened Wrappers
  import opened RateLimit
  import opened RateWindow

  ghost predicate RisingDecisions(ds: seq<Decision>) {
    forall i, j :: 0 <= i < j < |ds| ==> ds[i].now <= ds[j].now
  }

  function LastClock(ds: seq<Decision>): nat {
    if ds == [] then 0 else ds[|ds| - 1].now
  }

  /** Room in the window of 300 seconds that ends now, and 60 seconds past every serve of the pair. */
  ghost predicate HistoryPermits(h: seq<Serve>, pair: string, now: nat) {
    && CountIn(h, SatSub(now, GLOBAL_WINDOW_SECS), now) < GLOBAL_MAX
    && forall i :: 0 <= i < |h| && h[i].pair == pair ==> h[i].at + PER_PAIR_COOLDOWN_SECS <= now
  }

  /** Every stamp kept for a pair is a serve of that pair. */
  ghost predicate StampsMet(perPair: map<string, nat>, h: seq<Serve>) {
    forall p :: p in perPair ==> Serve(p, perPair[p]) in h
  }

  ghost predicate Exact(l: Limiter, clock: nat) {
    LimiterInv(l.caps, l.history, clock) && StampsMet(l.caps.perPair, l.history)
  }

  lemma {:induction false} CountTail(h: seq<Serve>, m: nat, lo: int, hi: int)
    requires m <= |h|
    requires forall i :: 0 <= i < m ==> h[i].at <= lo
    requires forall i :: m <= i < |h| ==> lo < h[i].at <= hi
    ensures CountIn(h, lo, hi) == |h| - m
    decreases |h|
  {
    if |h| > 0 { CountTail(h[..|h| - 1], if m < |h| then m else m - 1, lo, hi); }
  }

  lemma PrunedIsTheWindow(c: Caps, h: seq<Serve>, clock: nat, now: nat)
    requires Rising(h, clock) && WindowKnown(c, h, clock) && clock <= now
    ensures |Pruned(c, now).global| == CountIn(h, SatSub(now, GLOBAL_WINDOW_SECS), now)
  {
    var cutoff := SatSub(now, GLOBAL_WINDOW_SECS);
    PruneKeepsWindow(c, h, clock, now);
    var q := Pruned(c, now).global;
    var n := DropUntilSplits(c.global, cutoff);
    var m := |h| - |q|;
    forall i | m <= i < |h| ensures cutoff < h[i].at <= now {
      assert q[0] == h[m].at;
      assert q == c.global[n..];
    }
    CountTail(h, m, cutoff, now);
  }

  lemma LimiterAnswers(l: Limiter, clock: nat, pair: string, now: nat)
    requires Exact(l, clock) && clock <= now
    ensures Permits(Pruned(l.caps, now), pair, now) <==> HistoryPermits(l.history, pair, now)
  {
    var c, h := l.caps, l.history;
    PrunedIsTheWindow(c, h, clock, now);
    PruningKeepsPairs(c, now);
    if pair in c.perPair {
      var i :| 0 <= i < |h| && h[i] == Serve(pair, c.perPair[pair]);
      assert h[i].pair == pair && h[i].at == c.perPair[pair];
    }
  }

  lemma DecidingKeepsExact(l: Limiter, clock: nat, d: Decision)
    requires Exact(l, clock) && clock <= d.now
    ensures Exact(Decided(l, d), d.now)
  {
    hide LimiterInv, Permits;
    PruneKeeps(l.caps, l.history, clock, d.now);
    PruningKeepsPairs(l.caps, d.now);
    if Serves(l, d) {
      RecordKeeps(Pruned(l.caps, d.now), l.history, d.pair, d.now);
      var t := Decided(l, d);
      forall p | p in t.caps.perPair ensures Serve(p, t.caps.perPair[p]) in t.history {
        assert t.history[|l.history|] == Serve(d.pair, d.now);
        assert p != d.pair ==> Serve(p, l.caps.perPair[p]) in l.history;
      }
    }
  }

  lemma {:induction false} RunIsExact(ds: seq<Decision>)
    requires RisingDecisions(ds)
    ensures Exact(AllDecided(ds), LastClock(ds))
  {
    hide Exact, Decided;
    if ds == [] {
      NothingIsExact();
    } else {
      var n := |ds| - 1;
      assert forall i :: 0 <= i < n ==> ds[..n][i] == ds[i];
      RunIsExact(ds[..n]);
      DecidingKeepsExact(AllDecided(ds[..n]), LastClock(ds[..n]), ds[n]);
    }
  }

  lemma NothingIsExact()
    ensures Exact(AllDecided([]), 0)
  {
  }

  /** After any decisions at a clock that does not go back, the next is permitted exactly when fewer
      than 32 serves of the history are in the window that ends now and every serve of the pair is
      60 seconds old. */
  lemma PermitsIff(ds: seq<Decision>, pair: string, now: nat)
    requires RisingDecisions(ds) && LastClock(ds) <= now
    ensures Permits(Pruned(AllDecided(ds).caps, now), pair, now) <==> HistoryPermits(AllDecided(ds).history, pair, now)
  {
    RunIsExact(ds);
    LimiterAnswers(AllDecided(ds), LastClock(ds), pair, now);
  }
}
