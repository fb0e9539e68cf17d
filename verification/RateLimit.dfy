/** The serve loop's rate limiter: a per-pair cooldown and a rolling global window, the window kept
    as a queue of stamps that is pruned only when a decision is made.

    `Caps` is the limiter's state as a value; `AutoApproveCaps` is the object the loop owns. The
    lemmas read the history of successful serves and show what the lazily pruned queue bounds. */
module RateLimit {
  import opened Wrappers

  const PER_PAIR_COOLDOWN_SECS: nat := 60
  const GLOBAL_MAX: nat := 32
  const GLOBAL_WINDOW_SECS: nat := 300

  datatype Caps = Caps(perPair: map<string, nat>, global: seq<nat>)

  /** One successful serve: which pair it was paced under and the stamp it was recorded at. */
  datatype Serve = Serve(pair: string, at: nat)

  function DropUntil(queue: seq<nat>, cutoff: nat): seq<nat> {
    if |queue| > 0 && queue[0] <= cutoff then DropUntil(queue[1..], cutoff) else queue
  }

  function Pruned(c: Caps, now: nat): Caps {
    c.(global := DropUntil(c.global, SatSub(now, GLOBAL_WINDOW_SECS)))
  }

  /** The verdict on a limiter that has just been pruned at `now`. */
  predicate Permits(c: Caps, pair: string, now: nat) {
    && |c.global| < GLOBAL_MAX
    && (pair in c.perPair ==> SatSub(now, c.perPair[pair]) >= PER_PAIR_COOLDOWN_SECS)
  }

  function Recorded(c: Caps, pair: string, now: nat): Caps {
    Caps(c.perPair[pair := now], c.global + [now])
  }

  class AutoApproveCaps {
    var perPair: map<string, nat>
    var global: seq<nat>

    function View(): Caps
      reads this
    {
      Caps(perPair, global)
    }

    constructor ()
      ensures View() == Caps(map[], [])
    {
      perPair, global := map[], [];
    }

    /** Decides only. What it changes is the pruning of the window. */
    method Allows(pairKey: string, now: nat) returns (ok: bool)
      modifies this
      ensures View() == Pruned(old(View()), now)
      ensures ok <==> Permits(View(), pairKey, now)
    {
      var cutoff := SatSub(now, GLOBAL_WINDOW_SECS);
      while |global| > 0 && global[0] <= cutoff
        invariant perPair == old(perPair)
        invariant DropUntil(global, cutoff) == DropUntil(old(global), cutoff)
        decreases |global|
      {
        global := global[1..];
      }
      if |global| >= GLOBAL_MAX {
        return false;
      }
      ok := if pairKey in perPair then SatSub(now, perPair[pairKey]) >= PER_PAIR_COOLDOWN_SECS else true;
    }

    method Record(pairKey: string, now: nat)
      modifies this
      ensures View() == Recorded(old(View()), pairKey, now)
    {
      perPair := perPair[pairKey := now];
      global := global + [now];
    }
  }

  // ---------------------------------------------------------------------------------------------
  // What the limiter knows about the serves it has recorded.

  ghost predicate Rising(h: seq<Serve>, clock: nat) {
    && (forall i, j :: 0 <= i < j < |h| ==> h[i].at <= h[j].at)
    && (forall i :: 0 <= i < |h| ==> h[i].at <= clock)
  }

  /** The queue is the tail of the history, and what fell off it is out of the window. */
  ghost predicate WindowKnown(c: Caps, h: seq<Serve>, clock: nat) {
    && |c.global| <= |h|
    && (forall i :: 0 <= i < |c.global| ==> c.global[i] == h[|h| - |c.global| + i].at)
    && (forall i :: 0 <= i < |h| - |c.global| ==> h[i].at <= SatSub(clock, GLOBAL_WINDOW_SECS))
  }

  /** Serves `GLOBAL_MAX` apart in the history are a whole window apart in time. */
  ghost predicate WindowSpaced(h: seq<Serve>) {
    forall i, j :: 0 <= i && i + GLOBAL_MAX == j < |h| ==> h[i].at <= SatSub(h[j].at, GLOBAL_WINDOW_SECS)
  }

  ghost predicate PairsKnown(c: Caps, h: seq<Serve>, clock: nat) {
    && (forall i :: 0 <= i < |h| ==> h[i].pair in c.perPair && h[i].at <= c.perPair[h[i].pair])
    && (forall p :: p in c.perPair ==> c.perPair[p] <= clock)
  }

  ghost predicate PairsSpaced(h: seq<Serve>) {
    forall i, j :: 0 <= i < j < |h| && h[i].pair == h[j].pair ==> h[i].at + PER_PAIR_COOLDOWN_SECS <= h[j].at
  }

  ghost predicate LimiterInv(c: Caps, h: seq<Serve>, clock: nat) {
    && Rising(h, clock)
    && WindowKnown(c, h, clock)
    && WindowSpaced(h)
    && PairsKnown(c, h, clock)
    && PairsSpaced(h)
  }

  lemma {:induction false} DropUntilSplits(queue: seq<nat>, cutoff: nat) returns (n: nat)
    ensures n <= |queue| && DropUntil(queue, cutoff) == queue[n..]
    ensures forall i :: 0 <= i < n ==> queue[i] <= cutoff
    ensures n < |queue| ==> queue[n] > cutoff
  {
    if |queue| > 0 && queue[0] <= cutoff {
      var m := DropUntilSplits(queue[1..], cutoff);
      n := m + 1;
      forall i | 0 <= i < n ensures queue[i] <= cutoff {
        if i > 0 { assert queue[i] == queue[1..][i - 1]; }
      }
    } else {
      n := 0;
    }
  }

  lemma PruneKeepsWindow(c: Caps, h: seq<Serve>, clock: nat, now: nat)
    requires WindowKnown(c, h, clock) && clock <= now
    ensures WindowKnown(Pruned(c, now), h, now)
  {
    var n := DropUntilSplits(c.global, SatSub(now, GLOBAL_WINDOW_SECS));
    var d := Pruned(c, now);
    var k := |h| - |d.global|;
    forall i | 0 <= i < k ensures h[i].at <= SatSub(now, GLOBAL_WINDOW_SECS) {
      if i >= |h| - |c.global| {
        assert h[i].at == c.global[i - (|h| - |c.global|)];
      }
    }
  }

  /** A decision at a later or equal clock keeps everything the limiter knows. */
  lemma PruneKeeps(c: Caps, h: seq<Serve>, clock: nat, now: nat)
    requires LimiterInv(c, h, clock) && clock <= now
    ensures LimiterInv(Pruned(c, now), h, now)
  {
    PruneKeepsWindow(c, h, clock, now);
  }

  lemma RecordKeepsWindow(c: Caps, h: seq<Serve>, pair: string, now: nat)
    requires WindowKnown(c, h, now)
    ensures WindowKnown(Recorded(c, pair, now), h + [Serve(pair, now)], now)
  {
    var d, g := Recorded(c, pair, now), h + [Serve(pair, now)];
    forall i | 0 <= i < |d.global| ensures d.global[i] == g[|g| - |d.global| + i].at {
      if i < |c.global| { assert c.global[i] == h[|h| - |c.global| + i].at; }
    }
  }

  lemma RecordKeepsSpacing(c: Caps, h: seq<Serve>, pair: string, now: nat)
    requires WindowKnown(c, h, now) && WindowSpaced(h) && |c.global| < GLOBAL_MAX
    ensures WindowSpaced(h + [Serve(pair, now)])
  {
    var g := h + [Serve(pair, now)];
    forall i, j | 0 <= i && i + GLOBAL_MAX == j < |g| ensures g[i].at <= SatSub(g[j].at, GLOBAL_WINDOW_SECS) {
      assert j == |h| ==> i < |h| - |c.global|;
    }
  }

  lemma RoomToRecord(c: Caps, pair: string, now: nat)
    requires Permits(c, pair, now)
    ensures |c.global| < GLOBAL_MAX
  {
  }

  lemma RecordKeepsPairs(c: Caps, h: seq<Serve>, pair: string, now: nat)
    requires PairsKnown(c, h, now) && PairsSpaced(h) && Permits(c, pair, now)
    ensures PairsKnown(Recorded(c, pair, now), h + [Serve(pair, now)], now) && PairsSpaced(h + [Serve(pair, now)])
  {
    var g := h + [Serve(pair, now)];
    forall i, j | 0 <= i < j < |g| && g[i].pair == g[j].pair ensures g[i].at + PER_PAIR_COOLDOWN_SECS <= g[j].at {
      assert g[i] == h[i];
      assert j < |h| ==> g[j] == h[j];
    }
  }

  /** A permitted serve, recorded at the clock of its decision, keeps it too. */
  lemma RecordKeeps(c: Caps, h: seq<Serve>, pair: string, now: nat)
    requires LimiterInv(c, h, now) && Permits(c, pair, now)
    ensures LimiterInv(Recorded(c, pair, now), h + [Serve(pair, now)], now)
  {
    hide Permits, PairsKnown, PairsSpaced, WindowSpaced, WindowKnown;
    RecordKeepsWindow(c, h, pair, now);
    RoomToRecord(c, pair, now);
    RecordKeepsSpacing(c, h, pair, now);
    RecordKeepsPairs(c, h, pair, now);
  }

  // ---------------------------------------------------------------------------------------------
  // Counting a window.

  /** How many serves of the history are stamped in `(lo, hi]`. */
  ghost function CountIn(h: seq<Serve>, lo: int, hi: int): nat {
    if |h| == 0 then 0
    else CountIn(h[..|h| - 1], lo, hi) + (if lo < h[|h| - 1].at <= hi then 1 else 0)
  }

  lemma {:induction false} CountSplit(h: seq<Serve>, m: nat, lo: int, hi: int)
    requires m <= |h|
    requires forall i :: 0 <= i < m ==> h[i].at <= lo
    ensures CountIn(h, lo, hi) <= |h| - m
    decreases |h|
  {
    if |h| > 0 {
      CountSplit(h[..|h| - 1], if m < |h| then m else m - 1, lo, hi);
    }
  }

  lemma {:induction false} WindowCount(h: seq<Serve>, clock: nat, lo: nat, hi: int)
    requires Rising(h, clock) && WindowSpaced(h)
    requires hi - GLOBAL_WINDOW_SECS <= lo
    ensures CountIn(h, lo, hi) <= GLOBAL_MAX
    decreases |h|
  {
    if |h| > 0 {
      var j := |h| - 1;
      if lo < h[j].at <= hi && GLOBAL_MAX <= j {
        var i := j - GLOBAL_MAX;
        assert i + GLOBAL_MAX == j;
        assert h[i].at <= lo;
        CountSplit(h, i + 1, lo, hi);
      } else if GLOBAL_MAX <= j {
        WindowCount(h[..j], clock, lo, hi);
      } else {
        CountSplit(h, 0, lo, hi);
      }
    }
  }

  lemma {:induction false} CountFromBelowZero(h: seq<Serve>, lo: int, hi: int)
    requires lo <= 0
    requires forall i :: 0 <= i < |h| ==> h[i].at > 0
    ensures CountIn(h, lo, hi) == CountIn(h, 0, hi)
  {
    if |h| > 0 {
      CountFromBelowZero(h[..|h| - 1], lo, hi);
    }
  }

  /** Every 300-second half-open window holds at most 32 serves, provided no serve was stamped at
      clock zero. */
  lemma WindowBound(h: seq<Serve>, clock: nat, end: nat)
    requires Rising(h, clock) && WindowSpaced(h)
    requires forall i :: 0 <= i < |h| ==> h[i].at > 0
    ensures CountIn(h, end - GLOBAL_WINDOW_SECS, end) <= GLOBAL_MAX
  {
    WindowCount(h, clock, SatSub(end, GLOBAL_WINDOW_SECS), end);
    if end < GLOBAL_WINDOW_SECS {
      CountFromBelowZero(h, end - GLOBAL_WINDOW_SECS, end);
    }
  }
}
