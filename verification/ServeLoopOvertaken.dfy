/** Exactly which readings of the clock let an arrival be served past the oldest ask: those at which
    the limiter has come to admit the ask it refused at the poll's first reading. */
module ServeLoopOvertaken {
  import opened Wrappers
  import opened RateLimit
  import opened RequestKeys
  import opened AnsweredMemory
  import opened ServeLoop
  import opened ServeLoopSafety
  import opened ServeLoopQueue
  import opened ServeLoopWitnesses
  import opened ServeLoopWait

  /** The loop as the `i`-th request of the poll finds it. */
  function Before(s: Loop, input: PollInput, i: nat): Loop
    requires i <= |QueueOf(s, input)|
  {
    var s1 := s.(cursor := AdvanceInboxCursor(s.cursor, Newest(input.wraps), input.nowOuter));
    Process(AccessPass(s1, input, |input.msgs|).(deferred := []), QueueOf(s, input), input.ticks, i)
  }

  /** The `i`-th request is served at a reading at which the ask, still first and not attempted in this
      poll, would itself be admitted. */
  ghost predicate OvertakenAt(s: Loop, ask: Ask, input: PollInput, i: nat) {
    && 0 < i < |QueueOf(s, input)|
    && var t, item, now := Before(s, input, i), QueueOf(s, input)[i], input.ticks(i).now;
       && Oldest(t, ask) && !AttemptedAfter(t.log, |s.log|, KeyOf(ask)) && KeyOf(item.ask) != KeyOf(ask)
       && !Refuses(t.caps, PairOf(ask), now)
       && Before(s, input, i + 1).log == t.log + [Attempt(KeyOf(item.ask), Served, ManifestServe(item.ask, now, item.isReplay), true,
                                                          Overflows(t.mem.seen, KeyOf(item.ask), SEEN_REQUESTS_MAX), false)]
  }

  ghost predicate Overtaken(s: Loop, ask: Ask, input: PollInput) {
    exists i: nat :: OvertakenAt(s, ask, input, i)
  }

  /** A poll that drains, whose readings are these. */
  ghost predicate ReadsClocks(s: Loop, input: PollInput, clocks: seq<nat>) {
    && input.wraps != [] && |QueueOf(s, input)| == |clocks|
    && forall i :: 0 <= i < |clocks| ==> input.ticks(i).now == clocks[i]
  }

  ghost predicate RefusedThroughout(c: Caps, pair: string, clocks: seq<nat>) {
    forall i :: 0 <= i < |clocks| ==> Refuses(c, pair, clocks[i])
  }

  ghost predicate RisingClocks(clocks: seq<nat>) {
    forall i, j :: 0 <= i < j < |clocks| ==> clocks[i] <= clocks[j]
  }

  // ---------------------------------------------------------------------------------------------
  // Refused throughout, the ask is never passed over.

  lemma RefusedIsNotOvertaken(s: Loop, ask: Ask, input: PollInput, clocks: seq<nat>, i: nat)
    requires Oldest(s, ask) && clocks != [] && RisingClocks(clocks) && ReadsClocks(s, input, clocks)
    requires RefusedThroughout(s.caps, PairOf(ask), clocks)
    ensures !OvertakenAt(s, ask, input, i)
  {
    hide ProcessItem, AccessItem, Permits;
    if 0 < i < |clocks| {
      var s1 := s.(cursor := AdvanceInboxCursor(s.cursor, Newest(input.wraps), input.nowOuter));
      AccessPassGrows(s1, input, |input.msgs|);
      AccessPassKeepsRest(s1, input, |input.msgs|);
      var drained := AccessPass(s1, input, |input.msgs|).(deferred := []);
      var queue := QueueOf(s, input);
      assert queue[0] == Item(ask, true);
      RefusedAlong(drained, ask, queue, input.ticks, i, s.log);
    }
  }

  /** However far the window has moved, what refused the ask at first still refuses it. */
  lemma RefusedAlong(s: Loop, ask: Ask, queue: seq<Item>, ticks: nat -> Tick, i: nat, start: seq<Event>)
    requires s.deferred == [] && 0 < i < |queue| && queue[0] == Item(ask, true) && RisingReadings(ticks, |queue|)
    requires forall k: nat :: k < |queue| ==> Refuses(s.caps, PairOf(ask), ticks(k).now)
    requires start <= s.log
    ensures var t := Process(s, queue, ticks, i);
            AttemptedAfter(t.log, |start|, KeyOf(ask)) || Refuses(t.caps, PairOf(ask), ticks(i).now)
  {
    hide ProcessItem, Process, Permits;
    var since := Latest(s.caps);
    StampedWaits(s.caps, PairOf(ask), since);
    FirstOf(s, queue, ticks);
    FirstDecision(s, ask, since, ticks(0));
    ProcessKeepsBlocked(s, ask, since, queue, ticks, i);
    var t := Process(s, queue, ticks, i);
    if AttemptedAfter(t.log, |s.log|, KeyOf(ask)) {
      Backdated(t.log, |start|, |s.log|, {KeyOf(ask)});
    } else {
      assert ticks(i - 1).now <= ticks(i).now;
      StillRefused(s.caps, t.caps, PairOf(ask), ticks(i - 1).now, ticks(i).now);
    }
  }

  function Newer(a: nat, b: nat): nat {
    if a < b then b else a
  }

  /** A stamp no older than any the limiter holds. */
  ghost function Latest(c: Caps): (r: nat)
    ensures StampedBy(c, r)
  {
    LatestExists(c);
    var r: nat :| StampedBy(c, r);
    r
  }

  lemma {:induction false} LatestOf(stamps: seq<nat>) returns (r: nat)
    ensures forall i :: 0 <= i < |stamps| ==> stamps[i] <= r
  {
    if stamps == [] {
      r := 0;
    } else {
      var rest := LatestOf(stamps[1..]);
      r := Newer(stamps[0], rest);
    }
  }

  lemma {:induction false} LatestPair(m: map<string, nat>) returns (r: nat)
    ensures forall p :: p in m ==> m[p] <= r
    decreases |m|
  {
    if m == map[] {
      r := 0;
    } else {
      var p :| p in m;
      var rest := LatestPair(m - {p});
      r := Newer(m[p], rest);
      assert forall x :: x in m && x != p ==> x in m - {p};
    }
  }

  lemma LatestExists(c: Caps)
    ensures exists r: nat :: StampedBy(c, r)
  {
    var a := LatestOf(c.global);
    var b := LatestPair(c.perPair);
    assert StampedBy(c, Newer(a, b));
  }

  // ---------------------------------------------------------------------------------------------
  // Admitted in between, an arrival passes it.

  /** Longer than every key the loop remembers and every pair it has paced. */
  ghost predicate LongerThanAll(s: Loop, k: nat) {
    (forall x :: x in s.mem.seen ==> |x| < k) && (forall p :: p in s.caps.perPair ==> |p| < k)
  }

  lemma {:induction false} LongestOf(texts: set<string>) returns (k: nat)
    ensures forall x :: x in texts ==> |x| < k
  {
    if texts == {} {
      k := 0;
    } else {
      var x :| x in texts;
      var rest := LongestOf(texts - {x});
      k := Newer(|x| + 1, rest);
    }
  }

  lemma SomeLength(s: Loop) returns (k: nat)
    ensures LongerThanAll(s, k)
  {
    var a := LongestOf(s.mem.seen);
    var b := LongestOf(s.caps.perPair.Keys);
    k := Newer(a, b);
  }

  /** The ask's own message, again and again, but at `m` an arrival from a sender never met. */
  function PassingMsgs(ask: Ask, n: nat, m: nat, k: nat): (msgs: seq<Msg>)
    ensures |msgs| == n && forall i :: 0 <= i < n ==> msgs[i] == if i + 1 == m then ArrivalMsg(k) else AskMsg(ask)
  {
    seq(n, i requires 0 <= i < n => if i + 1 == m then ArrivalMsg(k) else AskMsg(ask))
  }

  function AskMsg(ask: Ask): Msg {
    Msg(ask.from, ManifestJson(RawBody(Some("manifest_request"), Some(ask.body.slug), ask.body.askNonce, ask.body.authorNpub)))
  }

  function PassingPoll(ask: Ask, clocks: seq<nat>, m: nat, k: nat): PollInput
    requires clocks != []
  {
    PollInput([0], 0, PassingMsgs(ask, |clocks| - 1, m, k), {}, _ => NoFacts(),
              (i: nat) => Tick(if i < |clocks| then clocks[i] else 0, Served))
  }

  function PassingAsk(ask: Ask, i: nat, m: nat, k: nat): Ask {
    if i + 1 == m then Arrival(k) else ask
  }

  lemma {:induction false} PassingParses(ask: Ask, n: nat, m: nat, k: nat)
    requires WellShaped(ask.body)
    ensures var asks := FreshAsks(PassingMsgs(ask, n, m, k));
            |asks| == n && forall i :: 0 <= i < n ==> asks[i] == PassingAsk(ask, i, m, k)
  {
    hide KeyOf;
    if n > 0 {
      PassingParses(ask, n - 1, m, k);
      assert PassingMsgs(ask, n, m, k)[..n - 1] == PassingMsgs(ask, n - 1, m, k);
    }
  }

  lemma PassingQueue(s: Loop, ask: Ask, clocks: seq<nat>, m: nat, k: nat)
    requires s.deferred == [ask] && WellShaped(ask.body) && clocks != []
    ensures var queue := QueueOf(s, PassingPoll(ask, clocks, m, k));
            && |queue| == |clocks| && queue[0] == Item(ask, true)
            && forall i :: 0 < i < |queue| ==> queue[i] == Item(PassingAsk(ask, i - 1, m, k), false)
  {
    PassingParses(ask, |clocks| - 1, m, k);
  }

  /** The ask was refused again and again: it is first in line alone, and only the window moved. */
  ghost predicate OnlyRefused(s: Loop, t: Loop, ask: Ask, now: nat) {
    && t.deferred == [ask] && t.mem == s.mem && t.caps.perPair == s.caps.perPair && s.log <= t.log
    && (forall i :: |s.log| <= i < |t.log| ==> t.log[i].Paced?)
    && forall time: nat :: time >= now ==> Pruned(t.caps, time).global == Pruned(s.caps, time).global
  }

  lemma PrunedOnly(c: Caps, d: Caps, now: nat, later: nat)
    requires now <= later && forall time: nat :: time >= now ==> Pruned(d, time).global == Pruned(c, time).global
    ensures forall time: nat :: time >= later ==> Pruned(Pruned(d, later), time).global == Pruned(c, time).global
    ensures Pruned(d, later).global == Pruned(c, later).global
  {
    forall time: nat | time >= later ensures Pruned(Pruned(d, later), time).global == Pruned(c, time).global {
      DropTwice(d.global, SatSub(later, GLOBAL_WINDOW_SECS), SatSub(time, GLOBAL_WINDOW_SECS));
      assert Pruned(d, time).global == Pruned(c, time).global;
    }
  }

  lemma FirstRefused(s: Loop, ask: Ask, tick: Tick)
    requires s.deferred == [] && Refuses(s.caps, PairOf(ask), tick.now)
    ensures OnlyRefused(s, ProcessItem(s, Item(ask, true), tick), ask, tick.now)
  {
    PrunedOnly(s.caps, s.caps, 0, tick.now);
  }

  lemma CopyRefused(s: Loop, t: Loop, ask: Ask, now: nat, tick: Tick)
    requires OnlyRefused(s, t, ask, now) && now <= tick.now && Refuses(s.caps, PairOf(ask), tick.now)
    ensures OnlyRefused(s, ProcessItem(t, Item(ask, false), tick), ask, tick.now)
  {
    PrunedOnly(s.caps, t.caps, now, tick.now);
    assert Holds(t.deferred, KeyOf(ask)) by { assert KeyOf(t.deferred[0]) == KeyOf(ask); }
  }

  /** Up to the `m`-th request the poll only refuses. */
  lemma {:induction false} RefusingAlong(s: Loop, ask: Ask, queue: seq<Item>, ticks: nat -> Tick, m: nat, n: nat)
    requires s.deferred == [] && 0 < n <= m < |queue| && queue[0] == Item(ask, true) && RisingReadings(ticks, |queue|)
    requires forall i :: 0 < i < m ==> queue[i] == Item(ask, false)
    requires forall i: nat :: i < m ==> Refuses(s.caps, PairOf(ask), ticks(i).now)
    ensures OnlyRefused(s, Process(s, queue, ticks, n), ask, ticks(n - 1).now)
  {
    hide ProcessItem, Refuses, OnlyRefused;
    if n == 1 {
      FirstOf(s, queue, ticks);
      FirstRefused(s, ask, ticks(0));
    } else {
      RefusingAlong(s, ask, queue, ticks, m, n - 1);
      assert ticks(n - 2).now <= ticks(n - 1).now;
      CopyRefused(s, Process(s, queue, ticks, n - 1), ask, ticks(n - 2).now, ticks(n - 1));
    }
  }

  /** The arrival is served once the window has room, and the ask is admitted by the same clock. */
  lemma ArrivalPasses(s: Loop, t: Loop, ask: Ask, now: nat, tick: Tick, k: nat)
    requires OnlyRefused(s, t, ask, now) && now <= tick.now && !Refuses(s.caps, PairOf(ask), tick.now)
    requires LongerThanAll(s, k) && tick.outcome.Served?
    ensures !Refuses(t.caps, PairOf(ask), tick.now)
    ensures var key := KeyOf(Arrival(k));
            ProcessItem(t, Item(Arrival(k), false), tick).log
            == t.log + [Attempt(key, Served, ManifestServe(Arrival(k), tick.now, false), true, Overflows(t.mem.seen, key, SEEN_REQUESTS_MAX), false)]
  {
    PrunedOnly(s.caps, t.caps, now, tick.now);
    assert PairOf(Arrival(k)) !in t.caps.perPair && KeyOf(Arrival(k)) !in t.mem.seen;
  }

  lemma NothingAttempted(s: Loop, t: Loop, ask: Ask, now: nat)
    requires OnlyRefused(s, t, ask, now)
    ensures !AttemptedAfter(t.log, |s.log|, KeyOf(ask)) && Oldest(t, ask)
  {
  }

  lemma PassingStart(s: Loop, input: PollInput)
    requires forall i :: 0 <= i < |input.msgs| ==> !input.msgs[i].content.AccessJson?
    ensures var s1 := s.(cursor := AdvanceInboxCursor(s.cursor, Newest(input.wraps), input.nowOuter));
            AccessPass(s1, input, |input.msgs|) == s1
  {
    AccessPassIdle(s.(cursor := AdvanceInboxCursor(s.cursor, Newest(input.wraps), input.nowOuter)), input, |input.msgs|);
  }

  lemma FirstAdmission(c: Caps, pair: string, clocks: seq<nat>, n: nat) returns (m: nat)
    requires n < |clocks| && !Refuses(c, pair, clocks[n])
    ensures m < |clocks| && !Refuses(c, pair, clocks[m]) && forall i :: 0 <= i < m ==> Refuses(c, pair, clocks[i])
    decreases n
  {
    hide Refuses;
    if i :| 0 <= i < n && !Refuses(c, pair, clocks[i]) {
      m := FirstAdmission(c, pair, clocks, i);
    } else {
      m := n;
    }
  }

  /** A passing poll works on the limiter and the memory as they were. */
  lemma PassingBefore(s: Loop, ask: Ask, clocks: seq<nat>, m: nat, k: nat) returns (start: Loop)
    requires s.deferred == [ask] && WellShaped(ask.body) && clocks != []
    ensures start.deferred == [] && start.caps == s.caps && start.mem == s.mem && start.log == s.log
    ensures var input := PassingPoll(ask, clocks, m, k);
            forall n: nat :: n <= |clocks| ==> |QueueOf(s, input)| == |clocks| && Before(s, input, n) == Process(start, QueueOf(s, input), input.ticks, n)
  {
    hide Process, ProcessItem, Arrival;
    var input := PassingPoll(ask, clocks, m, k);
    PassingQueue(s, ask, clocks, m, k);
    NoAccessIn(ask, clocks, m, k);
    PassingStart(s, input);
    start := s.(cursor := AdvanceInboxCursor(s.cursor, Newest(input.wraps), input.nowOuter), deferred := []);
  }

  lemma NoAccessIn(ask: Ask, clocks: seq<nat>, m: nat, k: nat)
    requires clocks != []
    ensures var msgs := PassingPoll(ask, clocks, m, k).msgs;
            forall i :: 0 <= i < |msgs| ==> !msgs[i].content.AccessJson?
  {
  }

  lemma PassingOvertakes(s: Loop, ask: Ask, clocks: seq<nat>, m: nat, k: nat)
    requires s.deferred == [ask] && WellShaped(ask.body) && RisingClocks(clocks) && 0 < m < |clocks|
    requires !Refuses(s.caps, PairOf(ask), clocks[m]) && forall i :: 0 <= i < m ==> Refuses(s.caps, PairOf(ask), clocks[i])
    requires LongerThanAll(s, k) && |KeyOf(ask)| < k
    ensures OvertakenAt(s, ask, PassingPoll(ask, clocks, m, k), m)
  {
    hide Process, ProcessItem, Refuses, OnlyRefused, LongerThanAll, Arrival, WellShaped, Before, QueueOf;
    var input := PassingPoll(ask, clocks, m, k);
    var start := PassingBefore(s, ask, clocks, m, k);
    var queue := QueueOf(s, input);
    PassingQueue(s, ask, clocks, m, k);
    RefusingAlong(start, ask, queue, input.ticks, m, m);
    var t := Process(start, queue, input.ticks, m);
    NothingAttempted(start, t, ask, input.ticks(m - 1).now);
    assert clocks[m - 1] <= clocks[m];
    SameLengths(s, start, k);
    ArrivalPasses(start, t, ask, input.ticks(m - 1).now, input.ticks(m), k);
    NextOf(start, queue, input.ticks, m);
    LongKey(ask, k);
  }

  lemma NextOf(s: Loop, queue: seq<Item>, ticks: nat -> Tick, n: nat)
    requires n < |queue|
    ensures Process(s, queue, ticks, n + 1) == ProcessItem(Process(s, queue, ticks, n), queue[n], ticks(n))
  {
  }

  lemma LongKey(ask: Ask, k: nat)
    requires |KeyOf(ask)| < k
    ensures KeyOf(Arrival(k)) != KeyOf(ask)
  {
  }

  lemma AdmittedIsOvertaken(s: Loop, ask: Ask, clocks: seq<nat>)
    requires s.deferred == [ask] && WellShaped(ask.body) && clocks != [] && RisingClocks(clocks)
    requires Refuses(s.caps, PairOf(ask), clocks[0]) && !RefusedThroughout(s.caps, PairOf(ask), clocks)
    ensures exists input: PollInput :: ReadsClocks(s, input, clocks) && Overtaken(s, ask, input)
  {
    hide Refuses, LongerThanAll, OvertakenAt, WellShaped, KeyOf;
    var n: nat :| n < |clocks| && !Refuses(s.caps, PairOf(ask), clocks[n]);
    var m := FirstAdmission(s.caps, PairOf(ask), clocks, n);
    var k0 := SomeLength(s);
    var k := Newer(k0, |KeyOf(ask)| + 1);
    LongerStill(s, k0, k);
    PassingOvertakes(s, ask, clocks, m, k);
    PassingQueue(s, ask, clocks, m, k);
    assert ReadsClocks(s, PassingPoll(ask, clocks, m, k), clocks);
  }

  lemma LongerStill(s: Loop, k: nat, more: nat)
    requires LongerThanAll(s, k) && k <= more
    ensures LongerThanAll(s, more)
  {
  }

  lemma SameLengths(s: Loop, t: Loop, k: nat)
    requires LongerThanAll(s, k) && t.mem == s.mem && t.caps == s.caps
    ensures LongerThanAll(t, k)
  {
  }

  /** An ask held alone and refused at the first of these readings: no poll at these readings serves
      anyone past it while it would be admitted, exactly when every later reading refuses it too. */
  lemma OvertakenIff(s: Loop, ask: Ask, clocks: seq<nat>)
    requires s.deferred == [ask] && WellShaped(ask.body)
    requires clocks != [] && RisingClocks(clocks) && Refuses(s.caps, PairOf(ask), clocks[0])
    ensures RefusedThroughout(s.caps, PairOf(ask), clocks)
            <==> forall input: PollInput :: ReadsClocks(s, input, clocks) ==> !Overtaken(s, ask, input)
  {
    hide Refuses, OvertakenAt;
    if RefusedThroughout(s.caps, PairOf(ask), clocks) {
      forall input: PollInput | ReadsClocks(s, input, clocks) ensures !Overtaken(s, ask, input) {
        forall i: nat ensures !OvertakenAt(s, ask, input, i) {
          RefusedIsNotOvertaken(s, ask, input, clocks, i);
        }
      }
    } else {
      AdmittedIsOvertaken(s, ask, clocks);
    }
  }
}
