/** The fetch driver's refresh tier over whole lifetimes: one table of ask states, one state a
    collection, made at the collection's first stale poll and never made again. Listings and held
    fingerprints come and go; the table does not look at them. */
module FetchRefresh {
  import opened Wrappers
  import opened PeerWave
  import opened FetchDriver
  import opened FetchBudget
  import opened FetchCandidates
  import opened FetchHoldings

  /** What one poll meets. `authors` are the authors of what is held, in the order the grouping
      yields them; `listing` is what an author's listing resolves to, `None` when the author is no
      contact, has no share code, or does not resolve. `clock` is read once a stale holding. */
  datatype PollInput = PollInput(
    identity: bool,
    me: string,
    contacts: Option<seq<string>>,
    held: seq<CachedKey>,
    authors: seq<string>,
    listing: string -> Option<seq<Listed>>,
    clock: nat -> nat)

  datatype Collection = Collection(author: string, slug: string)

  datatype Sent = Sent(of: Collection, want: string, ask: AskedAt)

  /** The table, every ask sent so far, and every clock reading. */
  datatype Table = Table(states: map<Collection, Sources>, sent: seq<Sent>, clocks: seq<nat>)

  const EMPTY: Table := Table(map[], [], [])

  function KeysOf(held: seq<CachedKey>, author: string): seq<CachedKey> {
    if held == [] then []
    else KeysOf(held[..|held| - 1], author) + (if held[|held| - 1].npub == author then [held[|held| - 1]] else [])
  }

  function StaleUnder(p: PollInput, author: string): seq<StaleHolding> {
    var published := p.listing(author);
    if published.None? then [] else StaleHoldings(KeysOf(p.held, author), published.value)
  }

  /** The stale holdings of the first `n` authors. */
  function StaleIn(p: PollInput, n: nat): seq<StaleHolding>
    requires n <= |p.authors|
  {
    if n == 0 then [] else StaleIn(p, n - 1) + StaleUnder(p, p.authors[n - 1])
  }

  function CollectionOf(h: StaleHolding): Collection {
    Collection(h.author, h.slug)
  }

  function StateOf(t: Table, k: Collection, contacts: seq<string>, me: string): Sources {
    if k in t.states then t.states[k] else StartFor(contacts, k.author, me)
  }

  function SentFor(h: StaleHolding, asked: seq<string>, now: nat): (r: seq<Sent>)
    ensures |r| == |asked| && forall i :: 0 <= i < |r| ==> r[i] == Sent(CollectionOf(h), h.want, AskedAt(asked[i], now))
  {
    seq(|asked|, i requires 0 <= i < |asked| => Sent(CollectionOf(h), h.want, AskedAt(asked[i], now)))
  }

  function Refreshing(t: Table, h: StaleHolding, contacts: seq<string>, me: string, now: nat): Table {
    var s := StateOf(t, CollectionOf(h), contacts, me);
    Table(t.states[CollectionOf(h) := Polled(s, now)], t.sent + SentFor(h, AskedBy(s, now), now), t.clocks + [now])
  }

  function RefreshAll(t: Table, p: PollInput, contacts: seq<string>, stale: seq<StaleHolding>, n: nat): Table
    requires n <= |stale|
  {
    if n == 0 then t
    else Refreshing(RefreshAll(t, p, contacts, stale, n - 1), stale[n - 1], contacts, p.me, p.clock(n - 1))
  }

  function Refreshed(t: Table, p: PollInput): Table {
    if !p.identity || p.contacts.None? then t
    else
      var stale := StaleIn(p, |p.authors|);
      RefreshAll(t, p, p.contacts.value, stale, |stale|)
  }

  function Driven(t: Table, polls: seq<PollInput>): Table {
    if polls == [] then t else Refreshed(Driven(t, polls[..|polls| - 1]), polls[|polls| - 1])
  }

  class RefreshTier {
    var states: map<Collection, Sources>
    ghost var sent: seq<Sent>
    ghost var clocks: seq<nat>

    constructor ()
      ensures Contents() == EMPTY
    {
      states := map[];
      sent, clocks := [], [];
    }

    ghost function Contents(): Table
      reads this
    {
      Table(states, sent, clocks)
    }

    static method NoteAll(first: Sources, targets: seq<string>, now: nat) returns (s: Sources)
      ensures s == NotedAll(first, targets, now)
    {
      hide Noted;
      s := first;
      for i := 0 to |targets|
        invariant s == NotedAll(first, targets[..i], now)
      {
        assert targets[..i + 1][..i] == targets[..i];
        s := Noted(s, targets[i], now);
      }
      assert targets[..|targets|] == targets;
    }

    /** One stale holding: find or make its state, decide, ask, note every ask. */
    method Refresh(h: StaleHolding, contacts: seq<string>, me: string, now: nat)
      modifies this
      ensures Contents() == Refreshing(old(Contents()), h, contacts, me, now)
    {
      hide StartFor, NotedAll, Noted, Wave, Soonest;
      var k := CollectionOf(h);
      var s := if k in states then states[k] else StartFor(contacts, h.author, me);
      var targets := [];
      match NextAction(s.peers, s.author, now) {
        case Ask(sources) => targets := sources;
        case _ =>
      }
      assert targets == AskedBy(s, now);
      s := NoteAll(s, targets, now);
      states := states[k := s];
      sent := sent + SentFor(h, targets, now);
      clocks := clocks + [now];
    }

    /** One author's stale holdings, which stand at `from` among the poll's. */
    method RefreshAuthor(p: PollInput, contacts: seq<string>, stale: seq<StaleHolding>, from: nat, ghost before: Table, ghost all: seq<StaleHolding>)
      requires from + |stale| <= |all| && forall i :: 0 <= i < |stale| ==> all[from + i] == stale[i]
      requires Contents() == RefreshAll(before, p, contacts, all, from)
      modifies this
      ensures Contents() == RefreshAll(before, p, contacts, all, from + |stale|)
    {
      hide Refreshing;
      for i := 0 to |stale|
        invariant Contents() == RefreshAll(before, p, contacts, all, from + i)
      {
        Refresh(stale[i], contacts, p.me, p.clock(from + i));
      }
    }

    method PollOnce(p: PollInput)
      modifies this
      ensures Contents() == Refreshed(old(Contents()), p)
    {
      hide Refreshing, StaleUnder, RefreshAll;
      if !p.identity || p.contacts.None? {
        return;
      }
      var read := 0;
      ghost var before := Contents();
      ghost var all := StaleIn(p, |p.authors|);
      NoneRefreshed(before, p, p.contacts.value, all);
      for a := 0 to |p.authors|
        invariant read == |StaleIn(p, a)| <= |all|
        invariant Contents() == RefreshAll(before, p, p.contacts.value, all, read)
      {
        var stale := StaleUnder(p, p.authors[a]);
        StaleAt(p, a, |p.authors|);
        RefreshAuthor(p, p.contacts.value, stale, read, before, all);
        read := read + |stale|;
      }
    }
  }

  lemma NoneRefreshed(t: Table, p: PollInput, contacts: seq<string>, stale: seq<StaleHolding>)
    ensures RefreshAll(t, p, contacts, stale, 0) == t
  {
  }

  /** Where the stale holdings of the author at `a` stand among the poll's. */
  lemma {:induction false} StaleAt(p: PollInput, a: nat, n: nat)
    requires a < n <= |p.authors|
    ensures var mine, from := StaleUnder(p, p.authors[a]), |StaleIn(p, a)|;
            && |StaleIn(p, a + 1)| == from + |mine| <= |StaleIn(p, n)|
            && forall i :: 0 <= i < |mine| ==> StaleIn(p, n)[from + i] == mine[i]
  {
    hide StaleUnder;
    if a + 1 < n {
      StaleAt(p, a, n - 1);
      assert StaleIn(p, n)[..|StaleIn(p, n - 1)|] == StaleIn(p, n - 1);
    }
  }

  // ---------------------------------------------------------------------------------------------
  // Each collection by itself.

  /** The asks sent for one collection, in order. */
  function AsksFor(sent: seq<Sent>, k: Collection): seq<AskedAt> {
    if sent == [] then []
    else AsksFor(sent[..|sent| - 1], k) + (if sent[|sent| - 1].of == k then [sent[|sent| - 1].ask] else [])
  }

  lemma {:induction false} AsksForAppend(sent: seq<Sent>, more: seq<Sent>, k: Collection)
    ensures AsksFor(sent + more, k) == AsksFor(sent, k) + AsksFor(more, k)
  {
    if more == [] {
      assert sent + more == sent;
    } else {
      assert (sent + more)[..|sent + more| - 1] == sent + more[..|more| - 1];
      AsksForAppend(sent, more[..|more| - 1], k);
    }
  }

  lemma {:induction false} SentForOne(h: StaleHolding, asked: seq<string>, now: nat, k: Collection)
    ensures AsksFor(SentFor(h, asked, now), k) == if CollectionOf(h) == k then Stamp(asked, now) else []
  {
    if asked != [] {
      var n := |asked| - 1;
      SentForOne(h, asked[..n], now, k);
      assert SentFor(h, asked, now)[..n] == SentFor(h, asked[..n], now);
      assert Stamp(asked, now) == Stamp(asked[..n], now) + [AskedAt(asked[n], now)];
    }
  }

  /** The table's state of `k`, and the asks sent for it, are one collection's run: from a start
      among some poll's contacts, polled at some of the clock's readings. */
  ghost predicate IsRun(t: Table, k: Collection, contacts: seq<string>, me: string, nows: seq<nat>) {
    var s := StartFor(contacts, k.author, me);
    && k in t.states && t.states[k] == RunSources(s, nows) && AsksFor(t.sent, k) == RunLog(s, nows)
    && (Rising(t.clocks) ==> Rising(nows) && forall i :: 0 <= i < |nows| ==> nows[i] in t.clocks)
  }

  ghost predicate Untouched(t: Table, k: Collection) {
    k !in t.states && AsksFor(t.sent, k) == []
  }

  lemma FrontRises(clocks: seq<nat>, now: nat)
    requires Rising(clocks + [now])
    ensures Rising(clocks) && forall c :: c in clocks ==> c <= now
  {
    var all := clocks + [now];
    assert all[|clocks|] == now && forall i :: 0 <= i < |clocks| ==> all[i] == clocks[i];
  }

  lemma RunNext(s: Sources, nows: seq<nat>, now: nat)
    ensures RunSources(s, nows + [now]) == Polled(RunSources(s, nows), now)
    ensures RunLog(s, nows + [now]) == RunLog(s, nows) + Stamp(AskedBy(RunSources(s, nows), now), now)
  {
    assert (nows + [now])[..|nows|] == nows;
  }

  lemma ClocksNext(clocks: seq<nat>, nows: seq<nat>, now: nat)
    requires Rising(clocks) ==> Rising(nows) && forall i :: 0 <= i < |nows| ==> nows[i] in clocks
    ensures Rising(clocks + [now]) ==> Rising(nows + [now]) && forall i :: 0 <= i < |nows + [now]| ==> (nows + [now])[i] in clocks + [now]
  {
    if Rising(clocks + [now]) {
      FrontRises(clocks, now);
    }
  }

  lemma RefreshingOwn(t: Table, h: StaleHolding, contacts: seq<string>, me: string, now: nat, from: seq<string>, own: string, nows: seq<nat>)
    requires IsRun(t, CollectionOf(h), from, own, nows)
    ensures IsRun(Refreshing(t, h, contacts, me, now), CollectionOf(h), from, own, nows + [now])
  {
    var k := CollectionOf(h);
    var s := StartFor(from, k.author, own);
    RunNext(s, nows, now);
    AsksForAppend(t.sent, SentFor(h, AskedBy(RunSources(s, nows), now), now), k);
    SentForOne(h, AskedBy(RunSources(s, nows), now), now, k);
    ClocksNext(t.clocks, nows, now);
  }

  lemma RefreshingFirst(t: Table, h: StaleHolding, contacts: seq<string>, me: string, now: nat)
    requires Untouched(t, CollectionOf(h))
    ensures IsRun(Refreshing(t, h, contacts, me, now), CollectionOf(h), contacts, me, [now])
  {
    var k := CollectionOf(h);
    var s := StartFor(contacts, k.author, me);
    assert [] + [now] == [now];
    RunNext(s, [], now);
    AsksForAppend(t.sent, SentFor(h, AskedBy(s, now), now), k);
    SentForOne(h, AskedBy(s, now), now, k);
    assert RunLog(s, []) == [];
  }

  /** Another collection's turn changes nothing but the clock. */
  lemma RefreshingOther(t: Table, h: StaleHolding, contacts: seq<string>, me: string, now: nat, k: Collection)
    requires k != CollectionOf(h)
    ensures var r := Refreshing(t, h, contacts, me, now);
            && (k in r.states <==> k in t.states) && (k in t.states ==> r.states[k] == t.states[k])
            && AsksFor(r.sent, k) == AsksFor(t.sent, k) && r.clocks == t.clocks + [now]
  {
    var asked := AskedBy(StateOf(t, CollectionOf(h), contacts, me), now);
    AsksForAppend(t.sent, SentFor(h, asked, now), k);
    SentForOne(h, asked, now, k);
  }

  /** Contacts and own name as some poll found them. */
  ghost predicate Met(polls: seq<PollInput>, contacts: seq<string>, me: string) {
    exists i :: 0 <= i < |polls| && polls[i].contacts == Some(contacts) && polls[i].me == me
  }

  ghost predicate HasRun(t: Table, k: Collection, polls: seq<PollInput>) {
    exists contacts, me, nows :: Met(polls, contacts, me) && IsRun(t, k, contacts, me, nows)
  }

  ghost predicate HasOwnRun(t: Table, k: Collection, polls: seq<PollInput>) {
    Untouched(t, k) || HasRun(t, k, polls)
  }

  lemma OtherKeepsRun(t: Table, h: StaleHolding, contacts: seq<string>, me: string, now: nat, k: Collection, from: seq<string>, own: string, nows: seq<nat>)
    requires IsRun(t, k, from, own, nows) && k != CollectionOf(h)
    ensures IsRun(Refreshing(t, h, contacts, me, now), k, from, own, nows)
  {
    RefreshingOther(t, h, contacts, me, now, k);
    if Rising(t.clocks + [now]) { FrontRises(t.clocks, now); }
  }

  lemma RunKept(t: Table, h: StaleHolding, contacts: seq<string>, me: string, now: nat, k: Collection, polls: seq<PollInput>)
    requires HasRun(t, k, polls)
    ensures HasRun(Refreshing(t, h, contacts, me, now), k, polls)
  {
    hide Refreshing, IsRun, Met;
    var from, own, nows :| Met(polls, from, own) && IsRun(t, k, from, own, nows);
    if k == CollectionOf(h) {
      RefreshingOwn(t, h, contacts, me, now, from, own, nows);
    } else {
      OtherKeepsRun(t, h, contacts, me, now, k, from, own, nows);
    }
  }

  lemma RefreshingKeeps(t: Table, h: StaleHolding, contacts: seq<string>, me: string, now: nat, k: Collection, polls: seq<PollInput>)
    requires HasOwnRun(t, k, polls) && Met(polls, contacts, me)
    ensures HasOwnRun(Refreshing(t, h, contacts, me, now), k, polls)
  {
    if HasRun(t, k, polls) {
      RunKept(t, h, contacts, me, now, k, polls);
    } else if k == CollectionOf(h) {
      RefreshingFirst(t, h, contacts, me, now);
    } else {
      RefreshingOther(t, h, contacts, me, now, k);
    }
  }

  lemma {:induction false} RefreshAllKeeps(t: Table, p: PollInput, contacts: seq<string>, stale: seq<StaleHolding>, n: nat, k: Collection, polls: seq<PollInput>)
    requires n <= |stale| && HasOwnRun(t, k, polls) && Met(polls, contacts, p.me)
    ensures HasOwnRun(RefreshAll(t, p, contacts, stale, n), k, polls)
  {
    if n > 0 {
      RefreshAllKeeps(t, p, contacts, stale, n - 1, k, polls);
      RefreshingKeeps(RefreshAll(t, p, contacts, stale, n - 1), stale[n - 1], contacts, p.me, p.clock(n - 1), k, polls);
    }
  }

  lemma MoreMet(t: Table, k: Collection, front: seq<PollInput>, polls: seq<PollInput>)
    requires HasOwnRun(t, k, front) && front <= polls
    ensures HasOwnRun(t, k, polls)
  {
    if HasRun(t, k, front) {
      var contacts, me, nows :| Met(front, contacts, me) && IsRun(t, k, contacts, me, nows);
      var i :| 0 <= i < |front| && front[i].contacts == Some(contacts) && front[i].me == me;
      assert polls[i] == front[i];
      assert Met(polls, contacts, me);
    }
  }

  /** Whatever is held and listed along the way, each collection's state and asks are a run of that
      collection alone: no other collection, and no fingerprint, has a part in it. */
  lemma {:induction false} EveryCollectionRunsAlone(polls: seq<PollInput>, k: Collection)
    ensures HasOwnRun(Driven(EMPTY, polls), k, polls)
  {
    if polls == [] {
      assert Untouched(EMPTY, k);
    } else {
      var front, p := polls[..|polls| - 1], polls[|polls| - 1];
      EveryCollectionRunsAlone(front, k);
      MoreMet(Driven(EMPTY, front), k, front, polls);
      if p.identity && p.contacts.Some? {
        assert Met(polls, p.contacts.value, p.me);
        var stale := StaleIn(p, |p.authors|);
        RefreshAllKeeps(Driven(EMPTY, front), p, p.contacts.value, stale, |stale|, k, polls);
      }
    }
  }

  lemma {:induction false} OthersStayDistinct(contacts: seq<string>, author: string, me: string)
    requires NoRepeats(contacts)
    ensures NoRepeats(Others(contacts, author, me))
  {
    if contacts != [] {
      var front := contacts[..|contacts| - 1];
      OthersStayDistinct(front, author, me);
      OthersAre(front, author, me);
      assert contacts[|contacts| - 1] !in front;
    }
  }

  /** Over the whole life of the process, through any listings, a collection's source is asked for it
      at most three times, and each time a backoff later than the last. */
  lemma EveryCollectionIsBudgeted(polls: seq<PollInput>, k: Collection, i: nat)
    requires forall j :: 0 <= j < |polls| && polls[j].contacts.Some? ==> NoRepeats(polls[j].contacts.value)
    requires var t := Driven(EMPTY, polls); k in t.states && i < |All(t.states[k])|
    ensures var t := Driven(EMPTY, polls);
            && |AsksFor(t.sent, k)| <= MAX_ATTEMPTS_PER_PEER * |All(t.states[k])|
            && CountAsks(AsksFor(t.sent, k), All(t.states[k])[i].npub) <= MAX_ATTEMPTS_PER_PEER
            && (Rising(t.clocks) ==> Spaced(AsksFor(t.sent, k)))
  {
    var t := Driven(EMPTY, polls);
    EveryCollectionRunsAlone(polls, k);
    assert HasRun(t, k, polls);
    var contacts, me, nows :| Met(polls, contacts, me) && IsRun(t, k, contacts, me, nows);
    OthersStayDistinct(contacts, k.author, me);
    StartIs(contacts, k.author, me);
    var s := StartFor(contacts, k.author, me);
    RunIs(s, nows);
    assert All(s)[i].npub == All(t.states[k])[i].npub;
    AskBudget(s, nows, All(s)[i].npub);
    if Rising(t.clocks) { AsksAreSpaced(s, nows); }
  }

  // ---------------------------------------------------------------------------------------------
  // Giving up.

  ghost predicate GaveUp(t: Table, k: Collection, at: nat) {
    k in t.states && NextAction(t.states[k].peers, t.states[k].author, at).GiveUp?
  }

  /** The collection's state and asks are as they were. */
  ghost predicate Settled(t: Table, r: Table, k: Collection) {
    k in t.states && k in r.states && r.states[k] == t.states[k] && AsksFor(r.sent, k) == AsksFor(t.sent, k)
  }

  lemma RefreshingAfterGiveUp(t: Table, h: StaleHolding, contacts: seq<string>, me: string, now: nat, k: Collection, at: nat)
    requires GaveUp(t, k, at)
    ensures Settled(t, Refreshing(t, h, contacts, me, now), k)
  {
    if k == CollectionOf(h) {
      GiveUpIsAbsorbing(t.states[k], at, now);
      AsksForAppend(t.sent, SentFor(h, [], now), k);
      SentForOne(h, [], now, k);
    } else {
      RefreshingOther(t, h, contacts, me, now, k);
    }
  }

  lemma {:induction false} RefreshAllAfterGiveUp(t: Table, p: PollInput, contacts: seq<string>, stale: seq<StaleHolding>, n: nat, k: Collection, at: nat)
    requires n <= |stale| && GaveUp(t, k, at)
    ensures Settled(t, RefreshAll(t, p, contacts, stale, n), k)
  {
    hide Refreshing;
    if n > 0 {
      RefreshAllAfterGiveUp(t, p, contacts, stale, n - 1, k, at);
      RefreshingAfterGiveUp(RefreshAll(t, p, contacts, stale, n - 1), stale[n - 1], contacts, p.me, p.clock(n - 1), k, at);
    }
  }

  /** A give-up outlives every later listing: whatever new fingerprint the author publishes, whatever
      is held, and whoever becomes a contact, the collection is never asked for again in this
      process. */
  lemma {:induction false} GiveUpSurvivesNewListings(t: Table, polls: seq<PollInput>, k: Collection, at: nat)
    requires GaveUp(t, k, at)
    ensures Settled(t, Driven(t, polls), k)
  {
    if polls != [] {
      var front, p := polls[..|polls| - 1], polls[|polls| - 1];
      GiveUpSurvivesNewListings(t, front, k, at);
      if p.identity && p.contacts.Some? {
        var stale := StaleIn(p, |p.authors|);
        RefreshAllAfterGiveUp(Driven(t, front), p, p.contacts.value, stale, |stale|, k, at);
      }
    }
  }
}
