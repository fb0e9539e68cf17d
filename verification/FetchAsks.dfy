/** Which collections a refresh poll asks for, told from what is held and what the authors list. */
module FetchAsks {
  import opened Wrappers
  import opened PeerWave
  import opened FetchDriver
  import opened FetchBudget
  import opened FetchHoldings
  import opened FetchRefresh

  /** A held copy whose author lists another fingerprint for it, `want`. */
  ghost predicate IsStale(p: PollInput, copy: CachedKey, want: string) {
    && copy in p.held && copy.npub in p.authors && copy.fingerprint != want
    && p.listing(copy.npub).Some?
    && FindSlug(p.listing(copy.npub).value, copy.slug) == Some(Listed(copy.slug, Some(want)))
  }

  ghost predicate StaleCollection(p: PollInput, k: Collection, want: string) {
    exists copy: CachedKey :: copy.npub == k.author && copy.slug == k.slug && IsStale(p, copy, want)
  }

  lemma {:induction false} KeysAre(held: seq<CachedKey>, author: string, copy: CachedKey)
    ensures copy in KeysOf(held, author) <==> copy in held && copy.npub == author
  {
    if held != [] {
      KeysAre(held[..|held| - 1], author, copy);
      assert held == held[..|held| - 1] + [held[|held| - 1]];
    }
  }

  lemma StaleUnderIs(p: PollInput, author: string, h: StaleHolding)
    requires author in p.authors
    ensures h in StaleUnder(p, author) <==> h.author == author && StaleCollection(p, CollectionOf(h), h.want)
  {
    hide FindSlug, StaleHoldings, KeysOf;
    forall copy ensures copy in KeysOf(p.held, author) <==> copy in p.held && copy.npub == author {
      KeysAre(p.held, author, copy);
    }
    if p.listing(author).Some? {
      StaleIff(KeysOf(p.held, author), p.listing(author).value, h);
      if h.author == author && StaleCollection(p, CollectionOf(h), h.want) {
        var copy: CachedKey :| copy.npub == h.author && copy.slug == h.slug && IsStale(p, copy, h.want);
        assert copy in KeysOf(p.held, author);
      }
    }
  }

  lemma {:induction false} StaleInIs(p: PollInput, n: nat, h: StaleHolding)
    requires n <= |p.authors|
    ensures h in StaleIn(p, n) <==> h.author in p.authors[..n] && StaleCollection(p, CollectionOf(h), h.want)
  {
    hide StaleUnder, StaleCollection;
    if n > 0 {
      StaleInIs(p, n - 1, h);
      StaleUnderIs(p, p.authors[n - 1], h);
      assert p.authors[..n] == p.authors[..n - 1] + [p.authors[n - 1]];
    }
  }

  lemma StaleIs(p: PollInput, h: StaleHolding)
    ensures h in StaleIn(p, |p.authors|) <==> StaleCollection(p, CollectionOf(h), h.want)
  {
    StaleInIs(p, |p.authors|, h);
    assert p.authors[..|p.authors|] == p.authors;
  }

  // ---------------------------------------------------------------------------------------------
  // Nothing else is asked for.

  lemma {:induction false} SentIn(t: Table, p: PollInput, contacts: seq<string>, stale: seq<StaleHolding>, n: nat, i: nat)
    returns (m: nat)
    requires n <= |stale| && |t.sent| <= i < |RefreshAll(t, p, contacts, stale, n).sent|
    ensures var e := RefreshAll(t, p, contacts, stale, n).sent[i];
            m < n && e.of == CollectionOf(stale[m]) && e.want == stale[m].want && e.ask.at == p.clock(m)
  {
    hide Polled, AskedBy, StateOf;
    assert n > 0;
    var before := RefreshAll(t, p, contacts, stale, n - 1);
    if i < |before.sent| {
      m := SentIn(t, p, contacts, stale, n - 1, i);
    } else {
      m := n - 1;
    }
  }

  /** Whatever a poll asks for is stale: a copy of it is held, at another fingerprint than the one its
      author lists, and that one is asked for. */
  lemma OnlyTheStaleAreAsked(t: Table, p: PollInput, i: nat)
    requires |t.sent| <= i < |Refreshed(t, p).sent|
    ensures p.identity && StaleCollection(p, Refreshed(t, p).sent[i].of, Refreshed(t, p).sent[i].want)
  {
    hide RefreshAll, StaleCollection;
    var stale := StaleIn(p, |p.authors|);
    var m := SentIn(t, p, p.contacts.value, stale, |stale|, i);
    assert stale[m] in stale;
    StaleIs(p, stale[m]);
  }

  /** Over a whole run, each ask was of a collection stale at one of its polls. */
  lemma {:induction false} EveryAskIsOfAStale(polls: seq<PollInput>, i: nat) returns (j: nat)
    requires i < |Driven(EMPTY, polls).sent|
    ensures j < |polls| && StaleCollection(polls[j], Driven(EMPTY, polls).sent[i].of, Driven(EMPTY, polls).sent[i].want)
  {
    hide Refreshed, StaleCollection;
    assert polls != [];
    var n := |polls| - 1;
    var before := Driven(EMPTY, polls[..n]);
    SentGrows(before, polls[n]);
    if i < |before.sent| {
      j := EveryAskIsOfAStale(polls[..n], i);
    } else {
      j := n;
      OnlyTheStaleAreAsked(before, polls[n], i);
    }
  }

  lemma SentGrows(t: Table, p: PollInput)
    ensures t.sent <= Refreshed(t, p).sent
  {
    hide RefreshAll, StaleIn;
    if p.identity && p.contacts.Some? {
      var stale := StaleIn(p, |p.authors|);
      AllGrows(t, p, p.contacts.value, stale, 0, |stale|);
      NoneRefreshed(t, p, p.contacts.value, stale);
    }
  }

  lemma {:induction false} AllGrows(t: Table, p: PollInput, contacts: seq<string>, stale: seq<StaleHolding>, m: nat, n: nat)
    requires m <= n <= |stale|
    ensures RefreshAll(t, p, contacts, stale, m).sent <= RefreshAll(t, p, contacts, stale, n).sent
  {
    hide Polled, AskedBy, StateOf;
    if m < n { AllGrows(t, p, contacts, stale, m, n - 1); }
  }

  // ---------------------------------------------------------------------------------------------
  // Whatever is stale and can be asked for is.

  ghost predicate HasReady(s: Sources, now: nat) {
    exists c :: c in All(s) && Ready(c, now)
  }

  /** The collection's state as the poll finds it. */
  ghost predicate Finds(t: Table, p: PollInput, k: Collection, s: Sources) {
    if k in t.states then s == t.states[k] else p.contacts.Some? && s == StartFor(p.contacts.value, k.author, p.me)
  }

  lemma ReadyStaysReady(s: Sources, now: nat, later: nat)
    requires HasReady(s, now) && now <= later
    ensures AskedBy(s, later) != []
  {
    var c :| c in All(s) && Ready(c, now);
    BackoffShrinks(c, now, later);
    assert Ready(c, later);
    ReadySourceIsAsked(s, c, later);
  }

  /** Until the collection's own turn its state stays as the poll found it. */
  lemma {:induction false} WaitsItsTurn(t: Table, p: PollInput, contacts: seq<string>, stale: seq<StaleHolding>, m: nat, k: Collection)
    requires m <= |stale| && forall j :: 0 <= j < m ==> CollectionOf(stale[j]) != k
    ensures StateOf(RefreshAll(t, p, contacts, stale, m), k, contacts, p.me) == StateOf(t, k, contacts, p.me)
  {
    hide Refreshing;
    if m > 0 {
      WaitsItsTurn(t, p, contacts, stale, m - 1, k);
      RefreshingOther(RefreshAll(t, p, contacts, stale, m - 1), stale[m - 1], contacts, p.me, p.clock(m - 1), k);
    }
  }

  lemma {:induction false} FirstTurn(stale: seq<StaleHolding>, h: StaleHolding) returns (m: nat)
    requires h in stale
    ensures m < |stale| && CollectionOf(stale[m]) == CollectionOf(h)
    ensures forall j :: 0 <= j < m ==> CollectionOf(stale[j]) != CollectionOf(h)
  {
    if CollectionOf(stale[0]) == CollectionOf(h) {
      m := 0;
    } else {
      m := FirstTurn(stale[1..], h);
      m := m + 1;
      forall j | 0 <= j < m ensures CollectionOf(stale[j]) != CollectionOf(h) {
        assert j > 0 ==> stale[j] == stale[1..][j - 1];
      }
    }
  }

  /** A stale collection with a source that is ready when the poll begins, by a clock that does not go
      back, is asked for in that poll, at the fingerprint its author lists. */
  lemma TheStaleAreAsked(t: Table, p: PollInput, k: Collection, want: string, s: Sources, now: nat) returns (i: nat)
    requires p.identity && p.contacts.Some? && StaleCollection(p, k, want)
    requires Finds(t, p, k, s) && HasReady(s, now) && forall j :: now <= p.clock(j)
    ensures |t.sent| <= i < |Refreshed(t, p).sent|
    ensures Refreshed(t, p).sent[i].of == k && Refreshed(t, p).sent[i].want == want
  {
    hide StaleIn, RefreshAll, HasReady, Polled, AskedBy;
    var contacts, stale := p.contacts.value, StaleIn(p, |p.authors|);
    var h := StaleHolding(k.author, k.slug, want);
    StaleIs(p, h);
    var m := FirstTurn(stale, h);
    assert stale[m] in stale;
    StaleIs(p, stale[m]);
    WantIsListed(p, k, want, stale[m].want);
    WaitsItsTurn(t, p, contacts, stale, m, k);
    ReadyStaysReady(s, now, p.clock(m));
    var before := RefreshAll(t, p, contacts, stale, m);
    TurnSends(t, p, contacts, stale, m, s);
    i := |before.sent|;
    AllGrows(t, p, contacts, stale, 0, m);
    NoneRefreshed(t, p, contacts, stale);
    AllGrows(t, p, contacts, stale, m + 1, |stale|);
  }

  lemma WantIsListed(p: PollInput, k: Collection, want: string, other: string)
    requires StaleCollection(p, k, want) && StaleCollection(p, k, other)
    ensures want == other
  {
  }

  lemma TurnSends(t: Table, p: PollInput, contacts: seq<string>, stale: seq<StaleHolding>, m: nat, s: Sources)
    requires m < |stale| && AskedBy(s, p.clock(m)) != []
    requires s == StateOf(RefreshAll(t, p, contacts, stale, m), CollectionOf(stale[m]), contacts, p.me)
    ensures var before, after := RefreshAll(t, p, contacts, stale, m), RefreshAll(t, p, contacts, stale, m + 1);
            && |before.sent| < |after.sent|
            && after.sent[|before.sent|].of == CollectionOf(stale[m]) && after.sent[|before.sent|].want == stale[m].want
  {
    hide AskedBy, Polled, StateOf;
  }
}
