/** Which clock readings keep the limiter's window bound. The window is pruned by whatever clock the
    next decision reads; a stamp pruned by a clock that is then taken back counts again in a window
    that reopened. */
module RateWindow {
  import opened Wrappers
  import opened RateLimit

  /** One pacing decision: the pair, the clock it reads, and whether the serve succeeds if permitted. */
  datatype Decision = Decision(pair: string, now: nat, succeeds: bool)

  datatype Limiter = Limiter(caps: Caps, history: seq<Serve>)

  predicate Serves(l: Limiter, d: Decision) {
    d.succeeds && Permits(Pruned(l.caps, d.now), d.pair, d.now)
  }

  function Decided(l: Limiter, d: Decision): Limiter {
    var pruned := Pruned(l.caps, d.now);
    if Serves(l, d) then Limiter(Recorded(pruned, d.pair, d.now), l.history + [Serve(d.pair, d.now)])
    else l.(caps := pruned)
  }

  function AllDecided(ds: seq<Decision>): Limiter {
    if ds == [] then Limiter(Caps(map[], []), []) else Decided(AllDecided(ds[..|ds| - 1]), ds[|ds| - 1])
  }

  function ClocksOf(ds: seq<Decision>): (r: seq<nat>)
    ensures |r| == |ds| && forall i :: 0 <= i < |r| ==> r[i] == ds[i].now
  {
    seq(|ds|, i requires 0 <= i < |ds| => ds[i].now)
  }

  /** Which decisions served, in order. */
  function ServedAt(ds: seq<Decision>): seq<nat> {
    if ds == [] then []
    else
      var n := |ds| - 1;
      ServedAt(ds[..n]) + (if Serves(AllDecided(ds[..n]), ds[n]) then [n] else [])
  }

  ghost predicate WindowFits(h: seq<Serve>, end: nat) {
    CountIn(h, end - GLOBAL_WINDOW_SECS, end) <= GLOBAL_MAX
  }

  /** Every 300-second half-open window holds at most 32 serves. */
  ghost predicate WindowKept(h: seq<Serve>) {
    forall end: nat :: WindowFits(h, end)
  }

  /** A reading at `i` that the decision at `j` prunes away. */
  ghost predicate PrunedBy(clocks: seq<nat>, i: nat, j: nat) {
    i < j < |clocks| && clocks[i] <= SatSub(clocks[j], GLOBAL_WINDOW_SECS)
  }

  /** Thirty-three readings, at `picks`, that fit one window, the first pruned no later than the last. */
  ghost predicate Overfills(clocks: seq<nat>, picks: seq<nat>, end: nat, j: nat) {
    && |picks| == GLOBAL_MAX + 1 && Increasing(picks)
    && (forall k :: 0 <= k < |picks| ==> picks[k] < |clocks| && end - GLOBAL_WINDOW_SECS < clocks[picks[k]] <= end)
    && PrunedBy(clocks, picks[0], j) && j <= picks[GLOBAL_MAX]
  }

  ghost predicate CanOverfill(clocks: seq<nat>) {
    exists picks: seq<nat>, end: nat, j: nat :: Overfills(clocks, picks, end, j)
  }

  // ---------------------------------------------------------------------------------------------
  // What the queue has lost was pruned.

  ghost predicate PrunedBefore(clocks: seq<nat>, i: nat, n: nat) {
    exists j: nat :: j < n && PrunedBy(clocks, i, j)
  }

  /** The queue is the tail of the history, what fell off it was pruned, and serves 32 apart have a
      pruning between them. `at` says which decision each serve was. */
  ghost predicate Known(clocks: seq<nat>, l: Limiter, at: seq<nat>) {
    var h, q := l.history, l.caps.global;
    && |at| == |h| && Increasing(at) && |q| <= |h|
    && (forall k :: 0 <= k < |at| ==> at[k] < |clocks| && clocks[at[k]] == h[k].at)
    && (forall k :: 0 <= k < |q| ==> q[k] == h[|h| - |q| + k].at)
    && (forall k :: 0 <= k < |h| - |q| ==> PrunedBefore(clocks, at[k], |clocks|))
    && (forall k, m :: 0 <= k && k + GLOBAL_MAX == m < |h| ==> PrunedBefore(clocks, at[k], at[m] + 1))
  }

  lemma PrunedBeforeGrows(clocks: seq<nat>, now: nat, i: nat, n: nat)
    requires PrunedBefore(clocks, i, n)
    ensures PrunedBefore(clocks + [now], i, n)
  {
    var j: nat :| j < n && PrunedBy(clocks, i, j);
    assert PrunedBy(clocks + [now], i, j);
  }

  /** What is pruned now, or was before, was pruned. */
  lemma LostIsPruned(clocks: seq<nat>, l: Limiter, at: seq<nat>, now: nat, n: nat, k: nat)
    requires Known(clocks, l, at) && n <= |l.caps.global| && k < |l.history| - |l.caps.global| + n
    requires forall i :: 0 <= i < n ==> l.caps.global[i] <= SatSub(now, GLOBAL_WINDOW_SECS)
    ensures PrunedBefore(clocks + [now], at[k], |clocks| + 1)
  {
    var lost := |l.history| - |l.caps.global|;
    if k < lost {
      PrunedBeforeGrows(clocks, now, at[k], |clocks|);
    } else {
      assert l.caps.global[k - lost] == l.history[k].at;
      assert PrunedBy(clocks + [now], at[k], |clocks|);
    }
  }

  lemma SpacingGrows(clocks: seq<nat>, l: Limiter, at: seq<nat>, now: nat, k: nat, m: nat)
    requires Known(clocks, l, at) && k + GLOBAL_MAX == m < |l.history|
    ensures PrunedBefore(clocks + [now], at[k], at[m] + 1)
  {
    PrunedBeforeGrows(clocks, now, at[k], at[m] + 1);
  }

  lemma PruningKeeps(clocks: seq<nat>, l: Limiter, at: seq<nat>, now: nat)
    requires Known(clocks, l, at)
    ensures Known(clocks + [now], l.(caps := Pruned(l.caps, now)), at)
  {
    hide PrunedBefore;
    var h, q, more := l.history, l.caps.global, clocks + [now];
    var n := DropUntilSplits(q, SatSub(now, GLOBAL_WINDOW_SECS));
    forall k | 0 <= k < |h| - |q| + n ensures PrunedBefore(more, at[k], |more|) {
      LostIsPruned(clocks, l, at, now, n, k);
    }
    forall k, m | 0 <= k && k + GLOBAL_MAX == m < |h| ensures PrunedBefore(more, at[k], at[m] + 1) {
      SpacingGrows(clocks, l, at, now, k, m);
    }
    forall k | 0 <= k < |q| - n ensures q[n..][k] == h[|h| - |q| + n + k].at {
      assert q[n + k] == h[|h| - |q| + (n + k)].at;
    }
  }

  lemma IncreasingAppend(at: seq<nat>, n: nat)
    requires Increasing(at) && forall k :: 0 <= k < |at| ==> at[k] < n
    ensures Increasing(at + [n])
  {
  }

  lemma TailRecorded(q: seq<nat>, h: seq<Serve>, x: Serve)
    requires |q| <= |h| && forall k :: 0 <= k < |q| ==> q[k] == h[|h| - |q| + k].at
    ensures var q2, h2 := q + [x.at], h + [x]; forall k :: 0 <= k < |q2| ==> q2[k] == h2[|h2| - |q2| + k].at
  {
    var q2, h2 := q + [x.at], h + [x];
    forall k | 0 <= k < |q2| ensures q2[k] == h2[|h2| - |q2| + k].at {
      if k < |q| { assert q[k] == h[|h| - |q| + k].at; }
    }
  }

  /** A serve is recorded as the newest, once fewer than 32 are in the queue. */
  lemma RecordingKeeps(clocks: seq<nat>, l: Limiter, at: seq<nat>, pair: string)
    requires Known(clocks, l, at) && clocks != [] && |l.caps.global| < GLOBAL_MAX
    requires forall k :: 0 <= k < |at| ==> at[k] < |clocks| - 1
    ensures var now := clocks[|clocks| - 1];
            Known(clocks, Limiter(Recorded(l.caps, pair, now), l.history + [Serve(pair, now)]), at + [|clocks| - 1])
  {
    hide PrunedBefore, Increasing;
    var h, q, n := l.history, l.caps.global, |clocks| - 1;
    var h2, at2 := h + [Serve(pair, clocks[n])], at + [n];
    IncreasingAppend(at, n);
    TailRecorded(q, h, Serve(pair, clocks[n]));
    forall k, m | 0 <= k && k + GLOBAL_MAX == m < |h2| ensures PrunedBefore(clocks, at2[k], at2[m] + 1) {
      if m == |h| {
        assert PrunedBefore(clocks, at[k], |clocks|);
      } else {
        assert PrunedBefore(clocks, at[k], at[m] + 1);
      }
    }
  }

  lemma {:induction false} RunIsKnown(ds: seq<Decision>)
    ensures Known(ClocksOf(ds), AllDecided(ds), ServedAt(ds))
  {
    if ds != [] {
      var n := |ds| - 1;
      var l, at, clocks, d := AllDecided(ds[..n]), ServedAt(ds[..n]), ClocksOf(ds[..n]), ds[n];
      RunIsKnown(ds[..n]);
      assert ClocksOf(ds) == clocks + [d.now];
      PruningKeeps(clocks, l, at, d.now);
      if Serves(l, d) {
        RecordingKeeps(clocks + [d.now], l.(caps := Pruned(l.caps, d.now)), at, d.pair);
      } else {
        assert at + [] == at;
      }
    }
  }

  // ---------------------------------------------------------------------------------------------
  // An overfull window gives the readings.

  /** Where the serves stamped in `(lo, hi]` are. */
  lemma {:induction false} InWindow(h: seq<Serve>, lo: int, hi: int) returns (at: seq<nat>)
    ensures |at| == CountIn(h, lo, hi) && Increasing(at)
    ensures forall k :: 0 <= k < |at| ==> at[k] < |h| && lo < h[at[k]].at <= hi
  {
    if h == [] {
      at := [];
    } else {
      var n := |h| - 1;
      at := InWindow(h[..n], lo, hi);
      if lo < h[n].at <= hi {
        at := at + [n];
      }
    }
  }

  lemma {:induction false} IncreasingSpreads(s: seq<nat>, k: nat)
    requires Increasing(s) && k < |s|
    ensures s[k] >= s[0] + k
  {
    if k > 0 { IncreasingSpreads(s, k - 1); }
  }

  lemma OverfullHasPicks(clocks: seq<nat>, l: Limiter, at: seq<nat>, end: nat)
    requires Known(clocks, l, at) && CountIn(l.history, end - GLOBAL_WINDOW_SECS, end) > GLOBAL_MAX
    ensures CanOverfill(clocks)
  {
    var inside := InWindow(l.history, end - GLOBAL_WINDOW_SECS, end);
    IncreasingSpreads(inside, GLOBAL_MAX);
    var first, far := inside[0], inside[0] + GLOBAL_MAX;
    assert PrunedBefore(clocks, at[first], at[far] + 1);
    var j: nat :| j < at[far] + 1 && PrunedBy(clocks, at[first], j);
    var picks := seq(GLOBAL_MAX + 1, k requires 0 <= k <= GLOBAL_MAX => at[inside[k]]);
    assert far == inside[GLOBAL_MAX] || at[far] < at[inside[GLOBAL_MAX]];
    assert Overfills(clocks, picks, end, j);
  }

  // ---------------------------------------------------------------------------------------------
  // The readings give an overfull window.

  function PairAt(k: nat): (s: string)
    ensures |s| == k
  {
    seq(k, _ => 'p')
  }

  /** Every decision has a pair of its own, and those at `picks` succeed. */
  function PickedDecisions(clocks: seq<nat>, picks: seq<nat>): (ds: seq<Decision>)
    ensures |ds| == |clocks| && forall k :: 0 <= k < |ds| ==> ds[k] == Decision(PairAt(k), clocks[k], k in picks)
  {
    seq(|clocks|, k requires 0 <= k < |clocks| => Decision(PairAt(k), clocks[k], k in picks))
  }

  /** After `n` decisions the first `r` picks were served; from `j` on the first of them is pruned. */
  ghost predicate PicksServed(l: Limiter, clocks: seq<nat>, picks: seq<nat>, n: nat, j: nat, r: nat) {
    && r <= |picks| && |l.history| == r
    && (forall k :: 0 <= k < r ==> picks[k] < n && picks[k] < |clocks| && l.history[k].at == clocks[picks[k]])
    && (forall k :: r <= k < |picks| ==> picks[k] >= n)
    && |l.caps.global| <= r && (forall k :: 0 <= k < |l.caps.global| ==> l.caps.global[k] == l.history[r - |l.caps.global| + k].at)
    && (n > j && r > 0 ==> |l.caps.global| < r)
    && (forall p :: p in l.caps.perPair ==> |p| < n)
  }

  /** The queue a decision prunes is what is left of the picks, one short once the first is pruned. */
  ghost predicate PrunedServes(pruned: seq<nat>, history: seq<Serve>, n: nat, j: nat, r: nat) {
    && |history| == r && |pruned| <= r && (n >= j && r > 0 ==> |pruned| < r)
    && forall k :: 0 <= k < |pruned| ==> pruned[k] == history[r - |pruned| + k].at
  }

  lemma PruningServes(l: Limiter, clocks: seq<nat>, picks: seq<nat>, n: nat, j: nat, r: nat, end: nat)
    requires Overfills(clocks, picks, end, j) && n < |clocks| && PicksServed(l, clocks, picks, n, j, r)
    ensures PrunedServes(Pruned(l.caps, clocks[n]).global, l.history, n, j, r)
  {
    var q, h := l.caps.global, l.history;
    var m := DropUntilSplits(q, SatSub(clocks[n], GLOBAL_WINDOW_SECS));
    forall k | 0 <= k < |q| - m ensures q[m..][k] == h[r - (|q| - m) + k].at {
      assert q[m + k] == h[r - |q| + (m + k)].at;
    }
    if n == j && r > 0 && |q| == r {
      assert q[0] == h[0].at == clocks[picks[0]];
    }
  }

  lemma Later(picks: seq<nat>, i: nat, k: nat)
    requires Increasing(picks) && i < k < |picks|
    ensures picks[i] < picks[k]
  {
  }

  lemma PickIsNext(l: Limiter, clocks: seq<nat>, picks: seq<nat>, n: nat, j: nat, r: nat, k: nat)
    requires Increasing(picks) && PicksServed(l, clocks, picks, n, j, r) && k < |picks| && picks[k] == n
    ensures k == r
  {
    if r < k { Later(picks, r, k); }
  }

  lemma PickStep(l: Limiter, clocks: seq<nat>, picks: seq<nat>, n: nat, j: nat, r: nat, end: nat, d: Decision)
    requires Overfills(clocks, picks, end, j) && n < |clocks| && PicksServed(l, clocks, picks, n, j, r)
    requires d == Decision(PairAt(n), clocks[n], n in picks)
    ensures PicksServed(Decided(l, d), clocks, picks, n + 1, j, if n in picks then r + 1 else r)
  {
    PruningServes(l, clocks, picks, n, j, r, end);
    if n in picks {
      var k :| 0 <= k < |picks| && picks[k] == n;
      PickIsNext(l, clocks, picks, n, j, r, k);
      PickIsPermitted(l, clocks, picks, n, j, r, end);
      PickRecorded(l, clocks, picks, n, j, r, d.pair);
    } else {
      NonePicked(l, clocks, picks, n, j, r);
    }
  }

  /** A pick finds room: at most 31 picks are left in the queue when it is decided. */
  lemma PickIsPermitted(l: Limiter, clocks: seq<nat>, picks: seq<nat>, n: nat, j: nat, r: nat, end: nat)
    requires Overfills(clocks, picks, end, j) && n < |clocks| && PicksServed(l, clocks, picks, n, j, r)
    requires r < |picks| && picks[r] == n
    ensures Permits(Pruned(l.caps, clocks[n]), PairAt(n), clocks[n])
  {
    PruningServes(l, clocks, picks, n, j, r, end);
    assert PairAt(n) !in l.caps.perPair;
    assert r == GLOBAL_MAX ==> n >= j;
  }

  lemma NonePicked(l: Limiter, clocks: seq<nat>, picks: seq<nat>, n: nat, j: nat, r: nat)
    requires n < |clocks| && PicksServed(l, clocks, picks, n, j, r) && n !in picks
    requires PrunedServes(Pruned(l.caps, clocks[n]).global, l.history, n, j, r)
    ensures PicksServed(l.(caps := Pruned(l.caps, clocks[n])), clocks, picks, n + 1, j, r)
  {
    forall k | r <= k < |picks| ensures picks[k] >= n + 1 { assert picks[k] in picks; }
  }

  lemma PickRecorded(l: Limiter, clocks: seq<nat>, picks: seq<nat>, n: nat, j: nat, r: nat, pair: string)
    requires n < |clocks| && PicksServed(l, clocks, picks, n, j, r) && r < |picks| && picks[r] == n && Increasing(picks) && |pair| == n
    requires PrunedServes(Pruned(l.caps, clocks[n]).global, l.history, n, j, r) && j > picks[0]
    ensures PicksServed(Limiter(Recorded(Pruned(l.caps, clocks[n]), pair, clocks[n]), l.history + [Serve(pair, clocks[n])]),
                        clocks, picks, n + 1, j, r + 1)
  {
    hide Pruned;
    var pruned := Pruned(l.caps, clocks[n]).global;
    var q2, h2 := pruned + [clocks[n]], l.history + [Serve(pair, clocks[n])];
    forall k | 0 <= k < |q2| ensures q2[k] == h2[r + 1 - |q2| + k].at {
      if k < |pruned| { assert pruned[k] == l.history[r - |pruned| + k].at; }
    }
    forall k | r + 1 <= k < |picks| ensures picks[k] >= n + 1 { Later(picks, r, k); }
    PruningKeepsPairs(l.caps, clocks[n]);
  }

  lemma PruningKeepsPairs(c: Caps, now: nat)
    ensures Pruned(c, now).perPair == c.perPair
  {
  }

  lemma StepIsDecided(ds: seq<Decision>, n: nat)
    requires n < |ds|
    ensures AllDecided(ds[..n + 1]) == Decided(AllDecided(ds[..n]), ds[n])
  {
    hide Decided;
    assert ds[..n + 1][..n] == ds[..n];
  }

  lemma PicksBegin(clocks: seq<nat>, picks: seq<nat>, j: nat)
    ensures PicksServed(AllDecided([]), clocks, picks, 0, j, 0)
  {
  }

  lemma {:induction false} PicksAreServed(clocks: seq<nat>, picks: seq<nat>, end: nat, j: nat, n: nat) returns (r: nat)
    requires Overfills(clocks, picks, end, j) && n <= |clocks|
    ensures PicksServed(AllDecided(PickedDecisions(clocks, picks)[..n]), clocks, picks, n, j, r)
    decreases n
  {
    hide Overfills, Decided, PicksServed, AllDecided;
    var ds := PickedDecisions(clocks, picks);
    if n == 0 {
      r := 0;
      assert ds[..0] == [];
      PicksBegin(clocks, picks, j);
    } else {
      var before := PicksAreServed(clocks, picks, end, j, n - 1);
      StepIsDecided(ds, n - 1);
      PickStep(AllDecided(ds[..n - 1]), clocks, picks, n - 1, j, before, end, ds[n - 1]);
      r := if n - 1 in picks then before + 1 else before;
    }
  }

  lemma {:induction false} AllInside(h: seq<Serve>, lo: int, hi: int)
    requires forall k :: 0 <= k < |h| ==> lo < h[k].at <= hi
    ensures CountIn(h, lo, hi) == |h|
  {
    if h != [] { AllInside(h[..|h| - 1], lo, hi); }
  }

  lemma PickIsReading(clocks: seq<nat>, picks: seq<nat>, end: nat, j: nat, k: nat)
    requires Overfills(clocks, picks, end, j) && k < |picks|
    ensures picks[k] < |clocks|
  {
  }

  lemma EveryPickIsServed(l: Limiter, clocks: seq<nat>, picks: seq<nat>, end: nat, j: nat, r: nat)
    requires Overfills(clocks, picks, end, j) && PicksServed(l, clocks, picks, |clocks|, j, r)
    ensures r == |picks|
  {
    hide Overfills;
    if r < |picks| {
      PickIsReading(clocks, picks, end, j, r);
    }
  }

  lemma PicksOverfill(clocks: seq<nat>, picks: seq<nat>, end: nat, j: nat)
    requires Overfills(clocks, picks, end, j)
    ensures !WindowKept(AllDecided(PickedDecisions(clocks, picks)).history)
  {
    var ds := PickedDecisions(clocks, picks);
    var r := PicksAreServed(clocks, picks, end, j, |clocks|);
    assert ds[..|clocks|] == ds;
    var h := AllDecided(ds).history;
    EveryPickIsServed(AllDecided(ds), clocks, picks, end, j, r);
    AllInside(h, end - GLOBAL_WINDOW_SECS, end);
    assert !WindowFits(h, end);
  }

  ghost predicate Reads(ds: seq<Decision>, clocks: seq<nat>) {
    ClocksOf(ds) == clocks
  }

  /** Every run of decisions at these clock readings keeps every 300-second window within 32 serves
      exactly when the readings cannot overfill one: no 33 of them fit a window whose first is pruned
      before the last is decided. */
  lemma WindowKeptIff(clocks: seq<nat>)
    ensures !CanOverfill(clocks) <==> forall ds :: Reads(ds, clocks) ==> WindowKept(AllDecided(ds).history)
  {
    if CanOverfill(clocks) {
      var picks: seq<nat>, end: nat, j: nat :| Overfills(clocks, picks, end, j);
      var ds := PickedDecisions(clocks, picks);
      assert ClocksOf(ds) == clocks;
      assert Reads(ds, clocks);
      PicksOverfill(clocks, picks, end, j);
    } else {
      forall ds | Reads(ds, clocks) ensures WindowKept(AllDecided(ds).history) {
        RunIsKnown(ds);
        forall end: nat ensures WindowFits(AllDecided(ds).history, end) {
          if !WindowFits(AllDecided(ds).history, end) {
            OverfullHasPicks(clocks, AllDecided(ds), ServedAt(ds), end);
          }
        }
      }
    }
  }

  /** Readings that never go back, and are past zero, cannot. */
  lemma RisingCannotOverfill(clocks: seq<nat>)
    requires forall i, j :: 0 <= i < j < |clocks| ==> clocks[i] <= clocks[j]
    requires forall i :: 0 <= i < |clocks| ==> clocks[i] > 0
    ensures !CanOverfill(clocks)
  {
    forall picks: seq<nat>, end: nat, j: nat ensures !Overfills(clocks, picks, end, j) {
      if Overfills(clocks, picks, end, j) {
        RisingIsNotPruned(clocks, picks[0], j, picks[GLOBAL_MAX], end);
      }
    }
  }

  lemma RisingIsNotPruned(clocks: seq<nat>, i: nat, j: nat, m: nat, end: nat)
    requires forall k, n :: 0 <= k < n < |clocks| ==> clocks[k] <= clocks[n]
    requires i < j <= m < |clocks| && 0 < clocks[i] && end - GLOBAL_WINDOW_SECS < clocks[i] && clocks[m] <= end
    ensures !PrunedBy(clocks, i, j)
  {
    assert clocks[j] <= clocks[m];
  }
}
