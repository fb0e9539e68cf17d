/** The auto-approve serve loop. `Loop` is everything the loop owns between polls, with the log of
    what it did; `PollOnce` is one poll as a function; `ServeLoop` is the object whose methods
    change those fields in place and are proved to do exactly that.

    The network, the decryption and the serve bodies are inputs: a poll is given the messages it
    decoded, the clock each pacing decision reads, and the outcome of each attempt. */
module ServeLoop {
  import opened Wrappers
  import opened RateLimit
  import opened RequestKeys
  import opened AnsweredMemory

  const DEFERRED_MAX: nat := 1024

  datatype Ask = Ask(from: string, body: RequestBody)

  function KeyOf(a: Ask): string {
    DedupKey(a.from, a.body)
  }

  function PairOf(a: Ask): string {
    PaceKey(a.from, a.body.authorNpub, a.body.slug)
  }

  // ---------------------------------------------------------------------------------------------
  // The log.

  datatype Source = AccessGrant | ManifestServe(ask: Ask, at: nat, isReplay: bool)

  datatype Fate = HeldForLater | AlreadyHeld | DroppedFull

  datatype Event =
    | Loaded(keys: set<string>)
    | Attempt(key: string, outcome: ServeOutcome, source: Source, remembered: bool, seenCleared: bool, attemptsCleared: bool)
    | Paced(ask: Ask, at: nat, isReplay: bool, fate: Fate)

  // ---------------------------------------------------------------------------------------------
  // What a poll is given.

  datatype Teaser = Unfetchable | Fetched(totalBytes: Option<nat>)

  datatype Content = ManifestJson(raw: RawBody) | AccessJson(asker: string, nonce: string) | OtherText

  datatype Msg = Msg(from: string, content: Content)

  /** What the outside world answers while one access request is decided. */
  datatype AccessFacts = AccessFacts(parsable: bool, teaser: Teaser, myTotal: nat, outcome: ServeOutcome)

  /** The clock one pacing decision reads, and how the serve would go if a serve body takes the ask. */
  datatype Tick = Tick(now: nat, outcome: ServeOutcome)

  /** How an attempt goes: a re-serve whose author is no share code fails before anything else. */
  function Answer(ask: Ask, tick: Tick): Tick {
    if Servable(ask.body) then tick else tick.(outcome := Failed)
  }

  /** `wraps` holds the outer stamps of the fetched gift-wraps. It is empty when the poll never gets
      that far: no identity, no connection, a failed fetch. */
  datatype PollInput = PollInput(
    wraps: seq<nat>,
    nowOuter: nat,
    msgs: seq<Msg>,
    blocked: set<string>,
    facts: nat -> AccessFacts,
    ticks: nat -> Tick)

  datatype Loop = Loop(caps: Caps, mem: Memory, deferred: seq<Ask>, cursor: nat, log: seq<Event>)

  function Start(loaded: set<string>): Loop {
    Loop(Caps(map[], []), Memory(loaded, map[]), [], 0, [Loaded(loaded)])
  }

  // ---------------------------------------------------------------------------------------------
  // One item.

  predicate MayProcess(seen: set<string>, key: string, isReplay: bool) {
    isReplay || key !in seen
  }

  /** The asks whose key is not among `keys`, in their order. */
  function Without(asks: seq<Ask>, keys: set<string>): seq<Ask> {
    if asks == [] then []
    else Without(asks[..|asks| - 1], keys) + (if KeyOf(asks[|asks| - 1]) !in keys then [asks[|asks| - 1]] else [])
  }

  function Retained(asks: seq<Ask>, key: string): seq<Ask> {
    Without(asks, {key})
  }

  predicate Holds(asks: seq<Ask>, key: string) {
    exists i :: 0 <= i < |asks| && KeyOf(asks[i]) == key
  }

  function Remember(s: Loop, key: string, outcome: ServeOutcome, source: Source): Loop {
    var a := ApplyOutcome(s.mem, key, outcome);
    s.(mem := a.mem,
       log := s.log + [Attempt(key, outcome, source, a.remembered, a.seenCleared, a.attemptsCleared)])
  }

  function Attempted(s: Loop, ask: Ask, isReplay: bool, tick: Tick): Loop {
    var caps := if tick.outcome.Served? then Recorded(s.caps, PairOf(ask), tick.now) else s.caps;
    var t := Remember(s.(caps := caps), KeyOf(ask), tick.outcome, ManifestServe(ask, tick.now, isReplay));
    if ApplyOutcome(s.mem, KeyOf(ask), tick.outcome).remembered then t.(deferred := Retained(s.deferred, KeyOf(ask))) else t
  }

  function Deferring(s: Loop, ask: Ask, isReplay: bool, now: nat): Loop {
    if |s.deferred| >= DEFERRED_MAX then s.(log := s.log + [Paced(ask, now, isReplay, DroppedFull)])
    else if Holds(s.deferred, KeyOf(ask)) then s.(log := s.log + [Paced(ask, now, isReplay, AlreadyHeld)])
    else s.(deferred := s.deferred + [ask], log := s.log + [Paced(ask, now, isReplay, HeldForLater)])
  }

  datatype Item = Item(ask: Ask, isReplay: bool)

  function ProcessItem(s: Loop, item: Item, tick: Tick): Loop {
    if !MayProcess(s.mem.seen, KeyOf(item.ask), item.isReplay) then s
    else
      var t := s.(caps := Pruned(s.caps, tick.now));
      if Permits(t.caps, PairOf(item.ask), tick.now) then Attempted(t, item.ask, item.isReplay, Answer(item.ask, tick))
      else Deferring(t, item.ask, item.isReplay, tick.now)
  }

  function Process(s: Loop, queue: seq<Item>, ticks: nat -> Tick, n: nat): Loop
    requires n <= |queue|
  {
    if n == 0 then s else ProcessItem(Process(s, queue, ticks, n - 1), queue[n - 1], ticks(n - 1))
  }

  // ---------------------------------------------------------------------------------------------
  // The access pass.

  /** The size rule: ties read, and a reader with nothing reads nothing. */
  predicate MayRead(readerTotal: nat, authorTotal: nat) {
    readerTotal > 0 && readerTotal >= authorTotal
  }

  predicate AccessGranted(teaser: Option<nat>, myTotal: nat, blocked: bool) {
    !blocked && MayRead(teaser.GetOr(0), myTotal)
  }

  predicate AttemptsGrant(seen: set<string>, msg: Msg, blocked: set<string>, f: AccessFacts) {
    && msg.content.AccessJson? && msg.content.asker != "" && msg.content.nonce != ""
    && msg.content.asker == msg.from
    && msg.from !in blocked
    && MayProcess(seen, AccessKey(msg.from, msg.content.nonce), false)
    && f.parsable && ShareCodeShaped(msg.from)
    && f.teaser.Fetched?
    && AccessGranted(f.teaser.totalBytes, f.myTotal, false)
  }

  function AccessItem(s: Loop, msg: Msg, blocked: set<string>, f: AccessFacts): Loop {
    if AttemptsGrant(s.mem.seen, msg, blocked, f) then
      Remember(s, AccessKey(msg.from, msg.content.nonce), f.outcome, AccessGrant)
    else s
  }

  function AccessPass(s: Loop, input: PollInput, n: nat): Loop
    requires n <= |input.msgs|
  {
    if n == 0 then s else AccessItem(AccessPass(s, input, n - 1), input.msgs[n - 1], input.blocked, input.facts(n - 1))
  }

  // ---------------------------------------------------------------------------------------------
  // One poll, and a run of polls.

  function FreshAsks(msgs: seq<Msg>): seq<Ask> {
    if msgs == [] then []
    else
      var m := msgs[|msgs| - 1];
      var parsed := if m.content.ManifestJson? then ParseRequest(m.content.raw) else None;
      FreshAsks(msgs[..|msgs| - 1]) + (if parsed.Some? then [Ask(m.from, parsed.value)] else [])
  }

  function Items(asks: seq<Ask>, isReplay: bool): (items: seq<Item>)
    ensures |items| == |asks|
  {
    seq(|asks|, i requires 0 <= i < |asks| => Item(asks[i], isReplay))
  }

  function Newest(stamps: seq<nat>): nat {
    if stamps == [] then 0
    else
      var rest := Newest(stamps[..|stamps| - 1]);
      if rest < stamps[|stamps| - 1] then stamps[|stamps| - 1] else rest
  }

  function AdvanceInboxCursor(newestSeen: nat, batchNewest: nat, now: nat): nat {
    var clamped := if batchNewest < now then batchNewest else now;
    if newestSeen < clamped then clamped else newestSeen
  }

  function QueueOf(s: Loop, input: PollInput): seq<Item> {
    Items(s.deferred, true) + Items(FreshAsks(input.msgs), false)
  }

  function PollOnce(s: Loop, input: PollInput): Loop {
    if input.wraps == [] then s
    else
      var t := AccessPass(s.(cursor := AdvanceInboxCursor(s.cursor, Newest(input.wraps), input.nowOuter)), input, |input.msgs|);
      var queue := QueueOf(s, input);
      Process(t.(deferred := []), queue, input.ticks, |queue|)
  }

  function Run(s: Loop, polls: seq<PollInput>): Loop {
    if polls == [] then s else PollOnce(Run(s, polls[..|polls| - 1]), polls[|polls| - 1])
  }

  // ---------------------------------------------------------------------------------------------
  // The object.

  class AutoApproveLoop {
    const caps: AutoApproveCaps
    var seenRequestIds: set<string>
    var serveAttempts: map<string, nat>
    var deferred: seq<Ask>
    var newestSeenOuter: nat
    ghost var log: seq<Event>

    ghost function View(): Loop
      reads this, caps
    {
      Loop(caps.View(), Memory(seenRequestIds, serveAttempts), deferred, newestSeenOuter, log)
    }

    constructor (loaded: set<string>)
      ensures View() == Start(loaded) && fresh(caps)
    {
      caps := new AutoApproveCaps();
      seenRequestIds, serveAttempts, deferred, newestSeenOuter := loaded, map[], [], 0;
      log := [Loaded(loaded)];
    }

    /** Applies one attempt's outcome; true when the ask is now remembered. */
    method ApplyServeOutcome(key: string, outcome: ServeOutcome, ghost source: Source) returns (remembered: bool)
      modifies this
      ensures View() == Remember(old(View()), key, outcome, source)
      ensures remembered == ApplyOutcome(old(View()).mem, key, outcome).remembered
    {
      ghost var a := ApplyOutcome(View().mem, key, outcome);
      match outcome {
        case Served =>
          serveAttempts := serveAttempts - {key};
          var _ := RememberSeen(key);
          remembered := true;
        case Failed =>
          serveAttempts := serveAttempts[key := (if key in serveAttempts then serveAttempts[key] else 0) + 1];
          var count := serveAttempts[key];
          if |serveAttempts| > SERVE_ATTEMPT_KEYS_MAX {
            serveAttempts := map[];
          }
          remembered := count >= SERVE_ATTEMPTS_MAX;
          if remembered {
            serveAttempts := serveAttempts - {key};
            var _ := RememberSeen(key);
          }
      }
      log := log + [Attempt(key, outcome, source, a.remembered, a.seenCleared, a.attemptsCleared)];
    }

    method RememberSeen(key: string) returns (isNew: bool)
      modifies this`seenRequestIds
      ensures seenRequestIds == Remembering(old(seenRequestIds), key, SEEN_REQUESTS_MAX)
      ensures isNew <==> key !in old(seenRequestIds)
    {
      seenRequestIds, isNew := RememberAnswered(seenRequestIds, key, SEEN_REQUESTS_MAX);
    }

    /** One request of the poll: consult, pace, then serve, hold or drop. */
    method Handle(item: Item, tick: Tick)
      modifies this, caps
      ensures View() == ProcessItem(old(View()), item, tick)
    {
      var key := KeyOf(item.ask);
      if !MayProcess(seenRequestIds, key, item.isReplay) {
        return;
      }
      var pair := PairOf(item.ask);
      var serveNow := caps.Allows(pair, tick.now);
      if !serveNow {
        if |deferred| >= DEFERRED_MAX {
          log := log + [Paced(item.ask, tick.now, item.isReplay, DroppedFull)];
        } else if exists i :: 0 <= i < |deferred| && KeyOf(deferred[i]) == key {
          log := log + [Paced(item.ask, tick.now, item.isReplay, AlreadyHeld)];
        } else {
          deferred := deferred + [item.ask];
          log := log + [Paced(item.ask, tick.now, item.isReplay, HeldForLater)];
        }
        return;
      }
      var outcome := if Servable(item.ask.body) then tick.outcome else Failed;
      if outcome.Served? {
        caps.Record(pair, tick.now);
      }
      var remembered := ApplyServeOutcome(key, outcome, ManifestServe(item.ask, tick.now, item.isReplay));
      if remembered {
        deferred := Retained(deferred, key);
      }
    }

    /** The body of the loop, from the fetched wraps to the end of the poll. */
    method Poll(input: PollInput)
      modifies this, caps
      ensures View() == PollOnce(old(View()), input)
    {
      if input.wraps == [] {
        return;
      }
      newestSeenOuter := AdvanceInboxCursor(newestSeenOuter, Newest(input.wraps), input.nowOuter);
      ghost var started := View();
      for i := 0 to |input.msgs|
        invariant View() == AccessPass(started, input, i)
        invariant deferred == old(deferred)
      {
        var msg := input.msgs[i];
        if AttemptsGrant(seenRequestIds, msg, input.blocked, input.facts(i)) {
          var _ := ApplyServeOutcome(AccessKey(msg.from, msg.content.nonce), input.facts(i).outcome, AccessGrant);
        }
      }
      var replays := deferred;
      deferred := [];
      ghost var drained := View();
      var queue := Items(replays, true) + Items(FreshAsks(input.msgs), false);
      for i := 0 to |queue|
        invariant View() == Process(drained, queue, input.ticks, i)
      {
        Handle(queue[i], input.ticks(i));
      }
    }
  }
}
