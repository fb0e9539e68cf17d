/** Runs that show why the serve loop's results carry the conditions they carry: a clock at zero or
    going back breaks the window, and a clock ticking inside a poll starves the oldest ask. */
module ServeLoopWitnesses {
  import opened Wrappers
  import opened RateLimit
  import opened RequestKeys
  import opened AnsweredMemory
  import opened ServeLoop
  import opened ServeLoopSafety
  import opened ServeLoopQueue
  import opened ServeLoopLimits

  // ---------------------------------------------------------------------------------------------
  // A family of asks with pairwise different keys and pairs.

  function Sender(k: nat): (s: string)
    ensures |s| == k + 5
  {
    "npub1" + seq(k, _ => 'a')
  }

  function Arrival(k: nat): (a: Ask)
    ensures |KeyOf(a)| == k + 9 && |PairOf(a)| == k + 12
  {
    Ask(Sender(k), RequestBody("s", None, None))
  }

  function ArrivalMsg(k: nat): Msg {
    Msg(Sender(k), ManifestJson(RawBody(Some("manifest_request"), Some("s"), None, None)))
  }

  /** The messages `Arrival(1)` to `Arrival(n)`. */
  function Burst(n: nat): (msgs: seq<Msg>)
    ensures |msgs| == n
    ensures forall i :: 0 <= i < n ==> msgs[i] == ArrivalMsg(i + 1)
  {
    seq(n, i requires 0 <= i < n => ArrivalMsg(i + 1))
  }

  lemma {:induction false} BurstParses(n: nat)
    ensures |FreshAsks(Burst(n))| == n
    ensures forall i :: 0 <= i < n ==> FreshAsks(Burst(n))[i] == Arrival(i + 1)
  {
    if n > 0 {
      BurstParses(n - 1);
      assert Burst(n)[..n - 1] == Burst(n - 1);
    }
  }

  function NoFacts(): AccessFacts {
    AccessFacts(false, Unfetchable, 0, Failed)
  }

  function BurstPoll(n: nat, ticks: nat -> Tick): PollInput {
    PollInput([0], 0, Burst(n), {}, _ => NoFacts(), ticks)
  }

  /** Everything remembered or paced so far belongs to arrivals before the `k`-th. */
  ghost predicate ShortKeys(s: Loop, k: nat) {
    && (forall x :: x in s.mem.seen ==> 10 <= |x| < k + 9)
    && (forall p :: p in s.caps.perPair ==> 13 <= |p| < k + 12)
  }

  /** The waiting ask, `Arrival(0)`, was never attempted: its key is shorter than any that was. */
  ghost predicate LongAttempts(log: seq<Event>) {
    forall i :: 0 <= i < |log| && log[i].Attempt? ==> |log[i].key| >= 10
  }

  lemma ArrivalIsAttempted(s: Loop, k: nat, tick: Tick)
    requires ShortKeys(s, k) && |Pruned(s.caps, tick.now).global| < GLOBAL_MAX
    ensures ProcessItem(s, Item(Arrival(k), false), tick)
         == Attempted(s.(caps := Pruned(s.caps, tick.now)), Arrival(k), false, tick)
  {
  }

  lemma AttemptKeepsShort(s: Loop, k: nat, tick: Tick)
    requires ShortKeys(s, k) && k >= 1 && LongAttempts(s.log)
    ensures ShortKeys(Attempted(s, Arrival(k), false, tick), k + 1)
    ensures LongAttempts(Attempted(s, Arrival(k), false, tick).log)
  {
    OutcomeSeen(s.mem, KeyOf(Arrival(k)), tick.outcome);
  }

  /** A window script: what the window holds before each arrival of a burst. */
  ghost predicate ScriptStep(ticks: nat -> Tick, window: nat -> seq<nat>, i: nat) {
    var left := DropUntil(window(i), SatSub(ticks(i).now, GLOBAL_WINDOW_SECS));
    && |left| < GLOBAL_MAX
    && window(i + 1) == left + (if ticks(i).outcome.Served? then [ticks(i).now] else [])
  }

  ghost predicate Script(ticks: nat -> Tick, window: nat -> seq<nat>, n: nat) {
    window(0) == [] && forall i :: 0 <= i < n ==> ScriptStep(ticks, window, i)
  }

  ghost predicate RisingTicks(ticks: nat -> Tick, n: nat) {
    n > 1 ==> RisingTicks(ticks, n - 1) && ticks(n - 2).now <= ticks(n - 1).now
  }

  ghost function Successes(ticks: nat -> Tick, n: nat): nat {
    if n == 0 then 0 else Successes(ticks, n - 1) + (if ticks(n - 1).outcome.Served? then 1 else 0)
  }

  lemma {:induction false} AccessPassIdle(s: Loop, input: PollInput, n: nat)
    requires n <= |input.msgs| && forall i :: 0 <= i < n ==> !input.msgs[i].content.AccessJson?
    ensures AccessPass(s, input, n) == s
  {
    if n > 0 { AccessPassIdle(s, input, n - 1); }
  }

  /** What one arrival's attempt adds to the log. */
  lemma AttemptIsLogged(u: Loop, k: nat, tick: Tick, lo: int, hi: int)
    requires tick.outcome.Served? ==> lo < tick.now <= hi
    ensures var t := Attempted(u, Arrival(k), false, tick);
            && CountIn(Serves(t.log), lo, hi) == CountIn(Serves(u.log), lo, hi) + (if tick.outcome.Served? then 1 else 0)
            && LastRead(t.log) == tick.now
            && (ClocksRise(t.log) <==> ClocksRise(u.log) && LastRead(u.log) <= tick.now)
  {
    hide Retained, KeyOf, PairOf, CountIn, Serves, ClocksRise, LastRead;
    var t := Attempted(u, Arrival(k), false, tick);
    var e := t.log[|u.log|];
    assert t.log == u.log + [e];
    Appended(u.log, e);
    if tick.outcome.Served? {
      CountAppended(Serves(u.log), Serve(PairOf(Arrival(k)), tick.now), lo, hi);
    } else {
      assert Serves(t.log) == Serves(u.log);
    }
  }

  /** One arrival the window has room for. */
  lemma ArrivalServed(s: Loop, k: nat, tick: Tick, lo: int, hi: int)
    requires ShortKeys(s, k) && k >= 1 && LongAttempts(s.log) && s.deferred == []
    requires |Pruned(s.caps, tick.now).global| < GLOBAL_MAX
    requires tick.outcome.Served? ==> lo < tick.now <= hi
    ensures var t := ProcessItem(s, Item(Arrival(k), false), tick);
            && t.caps.global == Pruned(s.caps, tick.now).global + (if tick.outcome.Served? then [tick.now] else [])
            && t.deferred == [] && ShortKeys(t, k + 1) && LongAttempts(t.log)
            && CountIn(Serves(t.log), lo, hi) == CountIn(Serves(s.log), lo, hi) + (if tick.outcome.Served? then 1 else 0)
            && LastRead(t.log) == tick.now
            && (ClocksRise(t.log) <==> ClocksRise(s.log) && LastRead(s.log) <= tick.now)
  {
    hide ProcessItem, LongAttempts, CountIn, Serves, ClocksRise, LastRead;
    ArrivalIsAttempted(s, k, tick);
    var u := s.(caps := Pruned(s.caps, tick.now));
    AttemptKeepsShort(u, k, tick);
    AttemptIsLogged(u, k, tick, lo, hi);
    assert Retained([], KeyOf(Arrival(k))) == [];
  }

  lemma CountAppended(h: seq<Serve>, x: Serve, lo: int, hi: int)
    ensures CountIn(h + [x], lo, hi) == CountIn(h, lo, hi) + (if lo < x.at <= hi then 1 else 0)
  {
    assert (h + [x])[..|h + [x]| - 1] == h;
  }

  ghost predicate AfterBurst(s: Loop, ticks: nat -> Tick, window: nat -> seq<nat>, n: nat, lo: int, hi: int) {
    && s.caps.global == window(n) && s.deferred == [] && ShortKeys(s, n + 1) && LongAttempts(s.log)
    && CountIn(Serves(s.log), lo, hi) == Successes(ticks, n)
    && LastRead(s.log) == (if n == 0 then 0 else ticks(n - 1).now)
    && (RisingTicks(ticks, n) ==> ClocksRise(s.log))
  }

  lemma BurstStep(s: Loop, ticks: nat -> Tick, window: nat -> seq<nat>, n: nat, lo: int, hi: int)
    requires n > 0 && AfterBurst(s, ticks, window, n - 1, lo, hi) && ScriptStep(ticks, window, n - 1)
    requires ticks(n - 1).outcome.Served? ==> lo < ticks(n - 1).now <= hi
    ensures AfterBurst(ProcessItem(s, Item(Arrival(n), false), ticks(n - 1)), ticks, window, n, lo, hi)
  {
    hide ProcessItem, Serves, CountIn, ShortKeys, LongAttempts, LastRead, ClocksRise;
    ArrivalServed(s, n, ticks(n - 1), lo, hi);
  }

  /** A burst that follows its script is attempted arrival by arrival. */
  lemma {:induction false} BurstRuns(queue: seq<Item>, ticks: nat -> Tick, window: nat -> seq<nat>, n: nat, lo: int, hi: int)
    requires n <= |queue| && Script(ticks, window, n)
    requires forall i :: 0 <= i < n ==> queue[i] == Item(Arrival(i + 1), false)
    requires forall i :: 0 <= i < n ==> ticks(i).outcome.Served? ==> lo < ticks(i).now <= hi
    ensures AfterBurst(Process(Start({}), queue, ticks, n), ticks, window, n, lo, hi)
  {
    if n == 0 {
      Appended([], Loaded({}));
      assert [] + [Loaded({})] == [Loaded({})];
    } else {
      BurstRuns(queue, ticks, window, n - 1, lo, hi);
      BurstStep(Process(Start({}), queue, ticks, n - 1), ticks, window, n, lo, hi);
    }
  }

  lemma BurstPollRuns(n: nat, ticks: nat -> Tick, window: nat -> seq<nat>, lo: int, hi: int)
    requires Script(ticks, window, n)
    requires forall i :: 0 <= i < n ==> ticks(i).outcome.Served? ==> lo < ticks(i).now <= hi
    ensures CountIn(Serves(Run(Start({}), [BurstPoll(n, ticks)]).log), lo, hi) == Successes(ticks, n)
  {
    var input := BurstPoll(n, ticks);
    BurstParses(n);
    OnePoll(Start({}), input);
    AccessPassIdle(Start({}), input, n);
    var queue := QueueOf(Start({}), input);
    assert Items([], true) == [];
    assert forall i :: 0 <= i < n ==> queue[i] == Item(Arrival(i + 1), false);
    BurstRuns(queue, ticks, window, n, lo, hi);
    assert Newest([0]) == 0 by { assert [0][..0] == []; }
  }

  function Copies(n: nat, stamp: nat): seq<nat> {
    seq(n, _ => stamp)
  }

  lemma {:induction false} CopiesDrop(n: nat, stamp: nat, cutoff: nat)
    ensures DropUntil(Copies(n, stamp), cutoff) == if stamp <= cutoff then [] else Copies(n, stamp)
  {
    if n > 0 && stamp <= cutoff {
      assert Copies(n, stamp)[1..] == Copies(n - 1, stamp);
      CopiesDrop(n - 1, stamp, cutoff);
    }
  }

  lemma {:induction false} AllSucceed(ticks: nat -> Tick, n: nat)
    requires forall i :: 0 <= i < n ==> ticks(i).outcome.Served?
    ensures Successes(ticks, n) == n
  {
    if n > 0 { AllSucceed(ticks, n - 1); }
  }

  /** At clock zero the window never fills: however many asks arrive, all are served at once. */
  lemma ZeroClockServesAnyNumber(n: nat)
    ensures exists poll: PollInput ::
              var log := Run(Start({}), [poll]).log;
              CountIn(Serves(log), 0 - GLOBAL_WINDOW_SECS, 0) == n
  {
    var ticks := (i: nat) => Tick(0, Served);
    var window := (i: nat) => if i == 0 then [] else [0];
    forall i | 0 <= i < n ensures ScriptStep(ticks, window, i) {
      assert i > 0 ==> [0][1..] == [];
    }
    AllSucceed(ticks, n);
    BurstPollRuns(n, ticks, window, 0 - GLOBAL_WINDOW_SECS, 0);
  }

  function JumpTick(i: nat): Tick {
    if i == 32 then Tick(1400, Failed) else Tick(1000, Served)
  }

  function JumpWindow(i: nat): seq<nat> {
    if i <= 32 then Copies(i, 1000) else Copies(i - 33, 1000)
  }

  lemma JumpStep(i: nat)
    requires i < 65
    ensures ScriptStep(JumpTick, JumpWindow, i)
  {
    CopiesDrop(if i <= 32 then i else i - 33, 1000, SatSub(JumpTick(i).now, GLOBAL_WINDOW_SECS));
  }

  /** A clock that jumps ahead once and comes back lets 64 serves into one window. */
  lemma BackwardClockOverfillsWindow()
    ensures exists poll: PollInput ::
              var log := Run(Start({}), [poll]).log;
              CountIn(Serves(log), 1000 - GLOBAL_WINDOW_SECS, 1000) == 64
  {
    hide Run, Serves;
    forall i | 0 <= i < 65 ensures ScriptStep(JumpTick, JumpWindow, i) { JumpStep(i); }
    BurstPollRuns(65, JumpTick, JumpWindow, 1000 - GLOBAL_WINDOW_SECS, 1000);
    AllSucceed(JumpTick, 32);
    OneFails(JumpTick, 32, 65);
  }

  lemma {:induction false} OneFails(ticks: nat -> Tick, k: nat, n: nat)
    requires k < n && ticks(k).outcome.Failed? && Successes(ticks, k) == k
    requires forall i :: k < i < n ==> ticks(i).outcome.Served?
    ensures Successes(ticks, n) == n - 1
  {
    if k + 1 < n { OneFails(ticks, k, n - 1); }
  }

  // ---------------------------------------------------------------------------------------------
  // A clock that ticks inside a poll.

  /** A full window of stamps at least two seconds apart. */
  ghost predicate FullWindow(g: seq<nat>) {
    && |g| == GLOBAL_MAX && g[0] > 0
    && (forall i, j :: 0 <= i && i + 1 == j < GLOBAL_MAX ==> g[i] + 2 <= g[j])
    && g[GLOBAL_MAX - 1] + 2 <= g[0] + GLOBAL_WINDOW_SECS
  }

  lemma WindowSlides(g: seq<nat>)
    requires FullWindow(g)
    ensures DropUntil(g, g[0]) == g[1..] && FullWindow(g[1..] + [g[0] + GLOBAL_WINDOW_SECS])
    ensures g[1] >= g[0] + 2
  {
    assert g[0] + 2 <= g[1];
    assert DropUntil(g, g[0]) == DropUntil(g[1..], g[0]);
    var h := g[1..] + [g[0] + GLOBAL_WINDOW_SECS];
    forall i, j | 0 <= i && i + 1 == j < GLOBAL_MAX ensures h[i] + 2 <= h[j] {
      if j < GLOBAL_MAX - 1 { assert g[i + 1] + 2 <= g[j + 1]; }
    }
  }

  /** The window is full, the oldest ask waits alone, and it has never been attempted. */
  ghost predicate Starving(s: Loop, k: nat) {
    && k >= 1 && s.deferred == [Arrival(0)]
    && ShortKeys(s, k) && LongAttempts(s.log) && ClocksRise(s.log)
    && FullWindow(s.caps.global)
    && LastRead(s.log) < s.caps.global[0] + GLOBAL_WINDOW_SECS
  }

  /** The clock shows one second less than the window's length when the held ask is decided, and the
      full length when the arrival behind it is. */
  function TickBetween(first: nat): nat -> Tick {
    i => if i == 0 then Tick(first + 299, Served) else Tick(first + 300, Served)
  }

  function OvertakingPoll(first: nat, k: nat): PollInput {
    PollInput([0], 0, [ArrivalMsg(k)], {}, _ => NoFacts(), TickBetween(first))
  }

  /** A second before its oldest stamp expires, a full window loses nothing and has no room. */
  lemma FullWindowRefuses(c: Caps, pair: string)
    requires FullWindow(c.global)
    ensures Pruned(c, c.global[0] + 299) == c && !Permits(c, pair, c.global[0] + 299)
  {
    assert DropUntil(c.global, c.global[0] - 1) == c.global;
  }

  lemma RefusedAlone(s: Loop, ask: Ask, now: nat)
    requires s.deferred == [ask] && Pruned(s.caps, now) == s.caps && !Permits(s.caps, PairOf(ask), now)
    ensures ProcessItem(s.(deferred := []), Item(ask, true), Tick(now, Served)) ==
            s.(log := s.log + [Paced(ask, now, true, HeldForLater)])
  {
    hide Permits, Pruned, KeyOf, PairOf;
    assert [] + [ask] == [ask];
  }

  lemma HeadRefused(s: Loop, k: nat)
    requires Starving(s, k)
    ensures var now := s.caps.global[0] + 299;
            var t := ProcessItem(s.(deferred := []), Item(Arrival(0), true), Tick(now, Served));
            && t == s.(log := s.log + [Paced(Arrival(0), now, true, HeldForLater)])
            && ClocksRise(t.log) && LastRead(t.log) == now
  {
    hide ProcessItem, Pruned, Permits, ShortKeys, LongAttempts, ClocksRise, LastRead, Arrival;
    var now := s.caps.global[0] + 299;
    FullWindowRefuses(s.caps, PairOf(Arrival(0)));
    RefusedAlone(s, Arrival(0), now);
    Appended(s.log, Paced(Arrival(0), now, true, HeldForLater));
  }

  lemma HeldAgain(s: Loop, k: nat, first: nat)
    requires Starving(s, k) && first == s.caps.global[0]
    ensures var mid := s.(log := s.log + [Paced(Arrival(0), first + 299, true, HeldForLater)]);
            ShortKeys(mid, k) && LongAttempts(mid.log) && ClocksRise(mid.log) && LastRead(mid.log) == first + 299
  {
    Appended(s.log, Paced(Arrival(0), first + 299, true, HeldForLater));
  }

  lemma ArrivalOvertakes(s: Loop, k: nat, first: nat)
    requires Starving(s, k) && first == s.caps.global[0]
    ensures var mid := s.(log := s.log + [Paced(Arrival(0), first + 299, true, HeldForLater)]);
            var t := ProcessItem(mid, Item(Arrival(k), false), Tick(first + 300, Served));
            Starving(t, k + 1) && t.caps.global == s.caps.global[1..] + [first + 300]
  {
    HeldAgain(s, k, first);
    OvertakenStaysFirst(s.(log := s.log + [Paced(Arrival(0), first + 299, true, HeldForLater)]), k, first);
  }

  lemma OvertakenStaysFirst(mid: Loop, k: nat, first: nat)
    requires mid.deferred == [Arrival(0)] && k >= 1 && ShortKeys(mid, k) && LongAttempts(mid.log) && ClocksRise(mid.log)
    requires FullWindow(mid.caps.global) && first == mid.caps.global[0] && LastRead(mid.log) <= first + 300
    ensures var t := ProcessItem(mid, Item(Arrival(k), false), Tick(first + 300, Served));
            Starving(t, k + 1) && t.caps.global == mid.caps.global[1..] + [first + 300]
  {
    hide ProcessItem, Attempted, Pruned, ShortKeys, LongAttempts, ClocksRise, LastRead, FullWindow, Arrival;
    var tick := Tick(first + 300, Served);
    var u := mid.(caps := Pruned(mid.caps, tick.now));
    PruningSlides(mid.caps);
    ArrivalIsAttempted(mid, k, tick);
    OnlyTheWindow(mid, u, k);
    ServedBehind(u, k, tick);
  }

  /** When its oldest stamp expires, a full window has room for one, and is full again with it. */
  lemma PruningSlides(c: Caps)
    requires FullWindow(c.global)
    ensures var now := c.global[0] + GLOBAL_WINDOW_SECS;
            && Pruned(c, now) == c.(global := c.global[1..]) && |c.global[1..]| < GLOBAL_MAX
            && FullWindow(c.global[1..] + [now]) && now < c.global[1] + GLOBAL_WINDOW_SECS
  {
    WindowSlides(c.global);
  }

  lemma OnlyTheWindow(s: Loop, t: Loop, k: nat)
    requires ShortKeys(s, k) && t.mem == s.mem && t.caps.perPair == s.caps.perPair
    ensures ShortKeys(t, k)
  {
  }

  /** What an arrival's success changes while only the first ask is held. */
  lemma ServedBehind(u: Loop, k: nat, tick: Tick)
    requires u.deferred == [Arrival(0)] && k >= 1 && ShortKeys(u, k) && LongAttempts(u.log) && tick.outcome.Served?
    ensures var t := Attempted(u, Arrival(k), false, tick);
            && t.caps.global == u.caps.global + [tick.now] && t.deferred == u.deferred
            && ShortKeys(t, k + 1) && LongAttempts(t.log) && LastRead(t.log) == tick.now
            && (ClocksRise(t.log) <==> ClocksRise(u.log) && LastRead(u.log) <= tick.now)
  {
    AttemptKeepsShort(u, k, tick);
    var t := Attempted(u, Arrival(k), false, tick);
    assert t.log == u.log + [t.log[|u.log|]];
    Appended(u.log, t.log[|u.log|]);
    OthersRetained(k);
  }

  lemma OthersRetained(k: nat)
    requires k >= 1
    ensures Retained([Arrival(0)], KeyOf(Arrival(k))) == [Arrival(0)]
  {
    var asks, keys := [Arrival(0)], {KeyOf(Arrival(k))};
    assert |KeyOf(Arrival(0))| != |KeyOf(Arrival(k))|;
    assert asks[..|asks| - 1] == [] && KeyOf(asks[|asks| - 1]) !in keys;
    assert Without(asks, keys) == Without([], keys) + [Arrival(0)];
  }

  lemma OvertakingQueue(s: Loop, k: nat, first: nat)
    requires s.deferred == [Arrival(0)]
    ensures QueueOf(s, OvertakingPoll(first, k)) == [Item(Arrival(0), true), Item(Arrival(k), false)]
  {
    var msgs := OvertakingPoll(first, k).msgs;
    assert msgs[..0] == [] && FreshAsks(msgs) == FreshAsks([]) + [Arrival(k)];
  }

  lemma StarvingAnyCursor(s: Loop, k: nat, cursor: nat)
    requires Starving(s, k)
    ensures Starving(s.(cursor := cursor), k)
  {
  }

  lemma TwoItems(s: Loop, queue: seq<Item>, ticks: nat -> Tick)
    requires |queue| == 2
    ensures Process(s, queue, ticks, 2) == ProcessItem(ProcessItem(s, queue[0], ticks(0)), queue[1], ticks(1))
  {
    hide ProcessItem;
    assert Process(s, queue, ticks, 0) == s;
    assert Process(s, queue, ticks, 1) == ProcessItem(s, queue[0], ticks(0));
  }

  lemma OvertakingPollStarves(s: Loop, k: nat)
    requires Starving(s, k)
    ensures var t := PollOnce(s, OvertakingPoll(s.caps.global[0], k));
            Starving(t, k + 1) && t.caps.global[0] >= s.caps.global[0] + 2
  {
    hide ProcessItem, KeyOf, Process, AccessPass, FreshAsks, Items, ShortKeys, LongAttempts, ClocksRise, LastRead, Arrival, ArrivalMsg;
    var first := s.caps.global[0];
    var input := OvertakingPoll(first, k);
    var s1 := s.(cursor := AdvanceInboxCursor(s.cursor, Newest(input.wraps), input.nowOuter));
    ArrivalMsgIsNoAccess(k);
    AccessPassIdle(s1, input, 1);
    OvertakingQueue(s, k, first);
    StarvingAnyCursor(s, k, s1.cursor);
    HeadRefused(s1, k);
    ArrivalOvertakes(s1, k, first);
    WindowSlides(s.caps.global);
    TwoItems(s1.(deferred := []), QueueOf(s, input), input.ticks);
  }

  lemma ArrivalMsgIsNoAccess(k: nat)
    ensures !ArrivalMsg(k).content.AccessJson?
  {
  }

  function OpeningTick(i: nat): Tick {
    Tick(1000 + 2 * i, Served)
  }

  function OpeningWindow(i: nat): (w: seq<nat>)
    ensures |w| == i
    ensures forall j :: 0 <= j < i ==> w[j] == 1000 + 2 * j
  {
    seq(i, j => 1000 + 2 * j)
  }

  function OpeningPoll(): PollInput {
    PollInput([0], 0, Burst(GLOBAL_MAX) + [ArrivalMsg(0)], {}, _ => NoFacts(), OpeningTick)
  }

  lemma {:induction false} OpeningRises(n: nat)
    ensures RisingTicks(OpeningTick, n)
  {
    if n > 1 { OpeningRises(n - 1); }
  }

  lemma OpeningScript()
    ensures Script(OpeningTick, OpeningWindow, GLOBAL_MAX)
  {
    forall i | 0 <= i < GLOBAL_MAX ensures ScriptStep(OpeningTick, OpeningWindow, i) {
      assert DropUntil(OpeningWindow(i), 700 + 2 * i) == OpeningWindow(i);
      assert OpeningWindow(i + 1) == OpeningWindow(i) + [1000 + 2 * i];
    }
  }

  lemma OpeningQueue()
    ensures var queue := QueueOf(Start({}), OpeningPoll());
            && |queue| == GLOBAL_MAX + 1 && queue[GLOBAL_MAX] == Item(Arrival(0), false)
            && forall i :: 0 <= i < GLOBAL_MAX ==> queue[i] == Item(Arrival(i + 1), false)
  {
    var msgs := OpeningPoll().msgs;
    BurstParses(GLOBAL_MAX);
    assert msgs[..|msgs| - 1] == Burst(GLOBAL_MAX) && msgs[|msgs| - 1] == ArrivalMsg(0);
    assert FreshAsks(msgs) == FreshAsks(Burst(GLOBAL_MAX)) + [Arrival(0)];
    assert Items([], true) == [];
  }

  lemma OpeningIsIdle()
    ensures |OpeningPoll().msgs| == GLOBAL_MAX + 1
    ensures forall i :: 0 <= i <= GLOBAL_MAX ==> !OpeningPoll().msgs[i].content.AccessJson?
  {
  }

  /** Thirty-two arrivals fill the window, and the ask behind them is held. */
  lemma OpeningPollStarves()
    ensures Starving(Run(Start({}), [OpeningPoll()]), GLOBAL_MAX + 1)
    ensures Run(Start({}), [OpeningPoll()]).caps.global[0] == 1000
  {
    hide ProcessItem, Starving, AfterBurst, Burst, Arrival, ArrivalMsg;
    var input, n := OpeningPoll(), GLOBAL_MAX;
    OnePoll(Start({}), input);
    OpeningIsIdle();
    AccessPassIdle(Start({}), input, n + 1);
    assert Newest([0]) == 0 by { assert [0][..0] == []; }
    OpeningQueue();
    OpeningScript();
    var queue := QueueOf(Start({}), input);
    BurstRuns(queue, OpeningTick, OpeningWindow, n, 0, 2000);
    OpeningRises(n);
    var s := Process(Start({}), queue, OpeningTick, n);
    LastIsHeld(s);
    assert Process(Start({}), queue, OpeningTick, n + 1) == ProcessItem(s, queue[n], OpeningTick(n));
  }

  lemma FreshRefused(s: Loop, ask: Ask, tick: Tick)
    requires s.deferred == [] && KeyOf(ask) !in s.mem.seen
    requires Pruned(s.caps, tick.now) == s.caps && !Permits(s.caps, PairOf(ask), tick.now)
    ensures ProcessItem(s, Item(ask, false), tick) ==
            s.(deferred := [ask], log := s.log + [Paced(ask, tick.now, false, HeldForLater)])
  {
    hide Permits, Pruned, KeyOf, PairOf;
    assert [] + [ask] == [ask];
  }

  lemma OpeningWindowFull()
    ensures FullWindow(OpeningWindow(GLOBAL_MAX)) && DropUntil(OpeningWindow(GLOBAL_MAX), 764) == OpeningWindow(GLOBAL_MAX)
  {
  }

  lemma LastIsHeld(s: Loop)
    requires AfterBurst(s, OpeningTick, OpeningWindow, GLOBAL_MAX, 0, 2000) && ClocksRise(s.log)
    ensures Starving(ProcessItem(s, Item(Arrival(0), false), OpeningTick(GLOBAL_MAX)), GLOBAL_MAX + 1)
    ensures ProcessItem(s, Item(Arrival(0), false), OpeningTick(GLOBAL_MAX)).caps.global == OpeningWindow(GLOBAL_MAX)
  {
    hide ProcessItem, ClocksRise, LastRead, CountIn, Successes, Serves, RisingTicks, FullWindow;
    var now := OpeningTick(GLOBAL_MAX).now;
    OpeningWindowFull();
    assert Pruned(s.caps, now) == s.caps;
    assert |KeyOf(Arrival(0))| < 10;
    FreshRefused(s, Arrival(0), OpeningTick(GLOBAL_MAX));
    Appended(s.log, Paced(Arrival(0), now, false, HeldForLater));
  }

  lemma StarvingMeans(s: Loop, k: nat)
    requires Starving(s, k)
    ensures s.caps.global != [] && s.deferred == [Arrival(0)] && ClocksRise(s.log) && !AttemptedAfter(s.log, 0, KeyOf(Arrival(0)))
  {
    assert |KeyOf(Arrival(0))| < 10;
  }

  /** For every `n` there is a run of `n` polls after the ask was held, with a clock that never goes
      back and advances by two seconds or more a poll, in which the oldest held ask is never
      attempted while every poll serves an arrival behind it. */
  lemma {:induction false} TickingClockStarves(n: nat) returns (polls: seq<PollInput>)
    ensures |polls| == n + 1
    ensures var s := Run(Start({}), polls);
            && s.deferred == [Arrival(0)] && ClocksRise(s.log)
            && !AttemptedAfter(s.log, 0, KeyOf(Arrival(0)))
            && Starving(s, GLOBAL_MAX + 1 + n) && s.caps.global[0] >= 1000 + 2 * n
  {
    hide PollOnce, Starving, OpeningPoll, OvertakingPoll;
    if n == 0 {
      polls := [OpeningPoll()];
      OpeningPollStarves();
      StarvingMeans(Run(Start({}), polls), GLOBAL_MAX + 1);
    } else {
      var rest := TickingClockStarves(n - 1);
      var s := Run(Start({}), rest);
      StarvingMeans(s, GLOBAL_MAX + n);
      polls := rest + [OvertakingPoll(s.caps.global[0], GLOBAL_MAX + n)];
      assert polls[..|polls| - 1] == rest;
      OvertakingPollStarves(s, GLOBAL_MAX + n);
      StarvingMeans(Run(Start({}), polls), GLOBAL_MAX + 1 + n);
    }
  }
}
