/** Which sources to ask next for a manifest, when to wait and when to stop. Instants and durations
    are counted in nanoseconds. */
module PeerWave {
  import opened Wrappers

  const MAX_ATTEMPTS_PER_PEER: nat := 3
  const WAVE_MAX_PEERS: nat := 3
  const BACKOFF_BASE: nat := 2_000_000_000

  datatype Candidate = Candidate(npub: string, attempts: nat, lastAttempt: Option<nat>)

  datatype WaveAction = Ask(sources: seq<string>) | Wait(delay: nat) | GiveUp

  function Fresh(npub: string): Candidate {
    Candidate(npub, 0, None)
  }

  function Power2(n: nat): nat {
    if n == 0 then 1 else 2 * Power2(n - 1)
  }

  function BackoffFor(attempts: nat): nat {
    if attempts == 0 then 0 else BACKOFF_BASE * Power2(Min(attempts - 1, 16))
  }

  predicate Exhausted(c: Candidate) {
    c.attempts >= MAX_ATTEMPTS_PER_PEER
  }

  function RemainingBackoff(c: Candidate, now: nat): nat {
    if c.lastAttempt.None? then 0 else SatSub(BackoffFor(c.attempts), SatSub(now, c.lastAttempt.value))
  }

  predicate Ready(c: Candidate, now: nat) {
    !Exhausted(c) && RemainingBackoff(c, now) == 0
  }

  function ReadyAmong(peers: seq<Candidate>, now: nat): seq<Candidate> {
    if peers == [] then []
    else ReadyAmong(peers[..|peers| - 1], now) + (if Ready(peers[|peers| - 1], now) then [peers[|peers| - 1]] else [])
  }

  function NpubsOf(cs: seq<Candidate>): (r: seq<string>)
    ensures |r| == |cs| && forall i :: 0 <= i < |cs| ==> r[i] == cs[i].npub
  {
    seq(|cs|, i requires 0 <= i < |cs| => cs[i].npub)
  }

  /** The shortest wait among the sources that still have attempts left. */
  function Soonest(sources: seq<Candidate>, now: nat): Option<nat> {
    if sources == [] then None
    else
      var last := sources[|sources| - 1];
      var rest := Soonest(sources[..|sources| - 1], now);
      if Exhausted(last) then rest
      else if rest.None? then Some(RemainingBackoff(last, now))
      else Some(Min(rest.value, RemainingBackoff(last, now)))
  }

  function Wave(peers: seq<Candidate>, author: Candidate, now: nat): seq<string> {
    var ready := ReadyAmong(peers, now);
    NpubsOf(ready[..Min(|ready|, WAVE_MAX_PEERS)]) + (if Ready(author, now) then [author.npub] else [])
  }

  function NextAction(peers: seq<Candidate>, author: Candidate, now: nat): WaveAction {
    var wave := Wave(peers, author, now);
    if wave != [] then Ask(wave)
    else
      var wait := Soonest(peers + [author], now);
      if wait.Some? then Wait(wait.value) else GiveUp
  }

  // ---------------------------------------------------------------------------------------------

  lemma {:induction false} ReadyAmongIs(peers: seq<Candidate>, now: nat)
    ensures forall c :: c in ReadyAmong(peers, now) <==> c in peers && Ready(c, now)
    ensures |ReadyAmong(peers, now)| <= |peers|
  {
    if peers != [] {
      ReadyAmongIs(peers[..|peers| - 1], now);
      assert peers == peers[..|peers| - 1] + [peers[|peers| - 1]];
    }
  }

  lemma {:induction false} SoonestIs(sources: seq<Candidate>, now: nat)
    ensures var r := Soonest(sources, now);
            && (r.None? <==> forall c :: c in sources ==> Exhausted(c))
            && (r.Some? ==> (exists c :: c in sources && !Exhausted(c) && RemainingBackoff(c, now) == r.value)
                            && forall c :: c in sources && !Exhausted(c) ==> r.value <= RemainingBackoff(c, now))
  {
    if sources != [] {
      var front, last := sources[..|sources| - 1], sources[|sources| - 1];
      SoonestIs(front, now);
      assert sources == front + [last];
      var r := Soonest(front, now);
      if r.Some? && (Exhausted(last) || r.value <= RemainingBackoff(last, now)) {
        var c :| c in front && !Exhausted(c) && RemainingBackoff(c, now) == r.value;
        assert c in sources;
      } else {
        assert last in sources;
      }
    }
  }

  /** Every source is asked in its turn: a wave is never empty, holds at most three carriers and the
      author, only sources that are ready, the author whenever it is; and there is a wave exactly
      when some source is ready. */
  lemma WaveIs(peers: seq<Candidate>, author: Candidate, now: nat)
    ensures var wave := Wave(peers, author, now);
            && |wave| <= WAVE_MAX_PEERS + 1
            && (wave != [] <==> exists c :: c in peers + [author] && Ready(c, now))
            && (forall n :: n in wave ==> exists c :: c in peers + [author] && Ready(c, now) && c.npub == n)
            && (Ready(author, now) ==> wave != [] && wave[|wave| - 1] == author.npub)
            && (|ReadyAmong(peers, now)| <= WAVE_MAX_PEERS ==> forall c :: c in peers && Ready(c, now) ==> c.npub in wave)
  {
    ReadyAmongIs(peers, now);
    var ready, wave := ReadyAmong(peers, now), Wave(peers, author, now);
    var taken := ready[..Min(|ready|, WAVE_MAX_PEERS)];
    var all := peers + [author];
    forall n | n in wave ensures exists c :: c in all && Ready(c, now) && c.npub == n {
      var i :| 0 <= i < |wave| && wave[i] == n;
      if i < |taken| {
        assert taken[i] in ready && taken[i] in all;
      } else {
        assert author in all;
      }
    }
    if c :| c in all && Ready(c, now) {
      if c in peers {
        assert c in ready;
      }
    }
    if |ready| <= WAVE_MAX_PEERS {
      forall c | c in peers && Ready(c, now) ensures c.npub in wave {
        var i :| 0 <= i < |ready| && ready[i] == c;
        assert wave[i] == c.npub;
      }
    }
    if wave != [] {
      assert wave[0] in wave;
    }
  }

  lemma {:induction false} ReadyAmongPrefix(peers: seq<Candidate>, now: nat, j: nat)
    requires j <= |peers|
    ensures ReadyAmong(peers[..j], now) <= ReadyAmong(peers, now)
    decreases |peers|
  {
    if j < |peers| {
      ReadyAmongPrefix(peers[..|peers| - 1], now, j);
      assert peers[..|peers| - 1][..j] == peers[..j];
    } else {
      assert peers[..j] == peers;
    }
  }

  /** Carriers are taken in their order: a ready one with fewer than three ready ones before it is
      asked, in that place. */
  lemma CarriersGoInOrder(peers: seq<Candidate>, author: Candidate, now: nat, j: nat)
    requires j < |peers| && Ready(peers[j], now)
    ensures var before := |ReadyAmong(peers[..j], now)|;
            before < WAVE_MAX_PEERS ==> before < |Wave(peers, author, now)| && Wave(peers, author, now)[before] == peers[j].npub
  {
    assert peers[..j + 1][..j] == peers[..j];
    ReadyAmongPrefix(peers, now, j + 1);
    assert ReadyAmong(peers[..j + 1], now) == ReadyAmong(peers[..j], now) + [peers[j]];
  }

  /** Two seconds after the first ask, twice as long after each further one. */
  lemma BackoffDoubles(attempts: nat)
    requires 1 <= attempts <= 16
    ensures BackoffFor(1) == 2_000_000_000 && BackoffFor(attempts + 1) == 2 * BackoffFor(attempts)
  {
    assert Power2(attempts) == 2 * Power2(attempts - 1);
  }

  /** `GiveUp` is the answer exactly when every source, the author among them, has had its
      attempts; and then it is the answer at every instant. */
  lemma GivesUpIff(peers: seq<Candidate>, author: Candidate, now: nat)
    ensures NextAction(peers, author, now).GiveUp? <==> forall c :: c in peers + [author] ==> Exhausted(c)
  {
    WaveIs(peers, author, now);
    SoonestIs(peers + [author], now);
  }

  lemma BackoffShrinks(c: Candidate, now: nat, later: nat)
    requires now <= later
    ensures RemainingBackoff(c, later) <= RemainingBackoff(c, now)
    ensures RemainingBackoff(c, now) <= RemainingBackoff(c, later) + (later - now)
  {
  }

  lemma WaitIsMinimum(peers: seq<Candidate>, author: Candidate, now: nat) returns (first: Candidate)
    requires NextAction(peers, author, now).Wait?
    ensures var d, all := NextAction(peers, author, now).delay, peers + [author];
            && first in all && !Exhausted(first) && RemainingBackoff(first, now) == d && d > 0
            && forall c :: c in all && !Exhausted(c) ==> d <= RemainingBackoff(c, now)
  {
    var all := peers + [author];
    WaveIs(peers, author, now);
    SoonestIs(all, now);
    first :| first in all && !Exhausted(first) && RemainingBackoff(first, now) == NextAction(peers, author, now).delay;
    assert !Ready(first, now);
  }

  lemma StillWaits(peers: seq<Candidate>, author: Candidate, t: nat, first: Candidate, wait: nat)
    requires first in peers + [author] && !Exhausted(first) && RemainingBackoff(first, t) == wait && wait > 0
    requires forall c :: c in peers + [author] && !Exhausted(c) ==> wait <= RemainingBackoff(c, t)
    ensures NextAction(peers, author, t) == Wait(wait)
  {
    WaveIs(peers, author, t);
    SoonestIs(peers + [author], t);
  }

  /** `Wait(d)` is exact: `d` is positive, before `now + d` the answer is still to wait, and at
      `now + d` there is someone to ask. The clock must not be behind the last attempts. */
  lemma WaitIsExact(peers: seq<Candidate>, author: Candidate, now: nat, t: nat)
    requires NextAction(peers, author, now).Wait?
    requires forall c :: c in peers + [author] && c.lastAttempt.Some? ==> c.lastAttempt.value <= now
    ensures var d := NextAction(peers, author, now).delay;
            && d > 0
            && (now <= t < now + d ==> NextAction(peers, author, t) == Wait(now + d - t))
            && NextAction(peers, author, now + d).Ask?
  {
    var d := NextAction(peers, author, now).delay;
    var first := WaitIsMinimum(peers, author, now);
    assert Ready(first, now + d);
    WaveIs(peers, author, now + d);
    if now <= t < now + d {
      forall c | c in peers + [author] && !Exhausted(c) ensures now + d - t <= RemainingBackoff(c, t) {
        BackoffShrinks(c, now, t);
      }
      assert RemainingBackoff(first, t) == now + d - t;
      StillWaits(peers, author, t, first, now + d - t);
    }
  }
}
