/** What the fetch driver wants: newer snapshots of what it holds, and collections it never held. */
module FetchHoldings {
  import opened Wrappers

  datatype CachedKey = CachedKey(npub: string, slug: string, fingerprint: string)
  datatype Listed = Listed(slug: string, fingerprint: Option<string>)
  datatype PeerCollection = PeerCollection(slug: string, fingerprint: Option<string>, oversized: Option<bool>)
  datatype StaleHolding = StaleHolding(author: string, slug: string, want: string)
  datatype Wanted = Wanted(slug: string, fingerprint: string)

  /** The listing both tiers compare against, without collections too large to transfer. */
  function PublishedFrom(collections: seq<PeerCollection>): seq<Listed> {
    if collections == [] then []
    else
      var c := collections[|collections| - 1];
      PublishedFrom(collections[..|collections| - 1]) + (if c.oversized == Some(true) then [] else [Listed(c.slug, c.fingerprint)])
  }

  function FindSlug(published: seq<Listed>, slug: string): Option<Listed> {
    if published == [] then None
    else if published[0].slug == slug then Some(published[0])
    else FindSlug(published[1..], slug)
  }

  function StaleOf(k: CachedKey, published: seq<Listed>): seq<StaleHolding> {
    var listed := FindSlug(published, k.slug);
    if listed.None? || listed.value.fingerprint.None? || listed.value.fingerprint.value == k.fingerprint then []
    else [StaleHolding(k.npub, k.slug, listed.value.fingerprint.value)]
  }

  function StaleHoldings(held: seq<CachedKey>, published: seq<Listed>): seq<StaleHolding> {
    if held == [] then [] else StaleHoldings(held[..|held| - 1], published) + StaleOf(held[|held| - 1], published)
  }

  predicate Holds(held: seq<CachedKey>, author: string, slug: string) {
    exists i :: 0 <= i < |held| && held[i].npub == author && held[i].slug == slug
  }

  function UnheldCollections(held: seq<CachedKey>, author: string, published: seq<Listed>): seq<Wanted> {
    if published == [] then []
    else
      var l := published[|published| - 1];
      UnheldCollections(held, author, published[..|published| - 1]) +
      (if Holds(held, author, l.slug) || l.fingerprint.None? then [] else [Wanted(l.slug, l.fingerprint.value)])
  }

  // ---------------------------------------------------------------------------------------------

  /** The entry found is the first of its slug. */
  lemma {:induction false} FindSlugIs(published: seq<Listed>, slug: string)
    ensures var r := FindSlug(published, slug);
            && (r.Some? ==> exists i :: 0 <= i < |published| && published[i] == r.value && r.value.slug == slug
                                        && forall j :: 0 <= j < i ==> published[j].slug != slug)
            && (r.None? ==> forall l :: l in published ==> l.slug != slug)
  {
    if published != [] {
      if published[0].slug == slug {
        assert published[0] == FindSlug(published, slug).value;
      } else {
        FindSlugIs(published[1..], slug);
        if FindSlug(published, slug).Some? {
          var i :| 0 <= i < |published[1..]| && published[1..][i] == FindSlug(published, slug).value
                   && forall j :: 0 <= j < i ==> published[1..][j].slug != slug;
          assert published[i + 1] == FindSlug(published, slug).value;
          forall j | 0 <= j < i + 1 ensures published[j].slug != slug {
            assert j > 0 ==> published[j] == published[1..][j - 1];
          }
        }
      }
    }
  }

  /** What makes one held copy stale. */
  ghost predicate StaleCopy(k: CachedKey, published: seq<Listed>, s: StaleHolding) {
    && k.npub == s.author && k.slug == s.slug && k.fingerprint != s.want
    && FindSlug(published, k.slug) == Some(Listed(s.slug, Some(s.want)))
  }

  lemma StaleOne(k: CachedKey, published: seq<Listed>, s: StaleHolding)
    ensures s in StaleOf(k, published) <==> StaleCopy(k, published, s)
  {
    FindSlugIs(published, k.slug);
  }

  /** A holding is stale exactly when the author's listing names another fingerprint for it: one
      that is not listed, or listed without a fingerprint, is left alone. */
  lemma {:induction false} StaleIff(held: seq<CachedKey>, published: seq<Listed>, s: StaleHolding)
    ensures s in StaleHoldings(held, published) <==>
              exists k :: k in held && k.npub == s.author && k.slug == s.slug && k.fingerprint != s.want
                          && FindSlug(published, k.slug) == Some(Listed(s.slug, Some(s.want)))
  {
    StaleCopies(held, published, s);
    if k :| k in held && k.npub == s.author && k.slug == s.slug && k.fingerprint != s.want
            && FindSlug(published, k.slug) == Some(Listed(s.slug, Some(s.want))) {
      assert StaleCopy(k, published, s);
    }
  }

  lemma {:induction false} StaleCopies(held: seq<CachedKey>, published: seq<Listed>, s: StaleHolding)
    ensures s in StaleHoldings(held, published) <==> exists k :: k in held && StaleCopy(k, published, s)
  {
    hide StaleCopy, StaleOf;
    if held != [] {
      var front, last := held[..|held| - 1], held[|held| - 1];
      StaleCopies(front, published, s);
      StaleOne(last, published, s);
      assert held == front + [last];
      assert last in held;
      if k :| k in held && StaleCopy(k, published, s) {
        assert k in front || k == last;
      }
    }
  }

  lemma {:induction false} UnheldIff(held: seq<CachedKey>, author: string, published: seq<Listed>, w: Wanted)
    ensures w in UnheldCollections(held, author, published) <==>
              Listed(w.slug, Some(w.fingerprint)) in published && !Holds(held, author, w.slug)
  {
    if published != [] {
      var front, last := published[..|published| - 1], published[|published| - 1];
      UnheldIff(held, author, front, w);
      assert published == front + [last];
    }
  }

  /** The two tiers never ask for the same collection. */
  lemma TiersAreApart(held: seq<CachedKey>, author: string, published: seq<Listed>, s: StaleHolding, w: Wanted)
    requires s in StaleHoldings(held, published) && s.author == author && w in UnheldCollections(held, author, published)
    ensures s.slug != w.slug
  {
    StaleIff(held, published, s);
    UnheldIff(held, author, published, w);
    var k :| k in held && k.npub == s.author && k.slug == s.slug;
    var i :| 0 <= i < |held| && held[i] == k;
    assert Holds(held, author, k.slug);
  }

  /** Once a collection is held, in one copy and at the listed fingerprint, neither tier asks for it
      again until the listing changes. */
  lemma ArrivalSettles(held: seq<CachedKey>, author: string, published: seq<Listed>, slug: string, fingerprint: string)
    requires CachedKey(author, slug, fingerprint) in held
    requires forall k :: k in held && k.npub == author && k.slug == slug ==> k.fingerprint == fingerprint
    requires FindSlug(published, slug) == Some(Listed(slug, Some(fingerprint)))
    ensures forall s :: s in StaleHoldings(held, published) && s.author == author ==> s.slug != slug
    ensures forall w :: w in UnheldCollections(held, author, published) ==> w.slug != slug
  {
    forall s | s in StaleHoldings(held, published) && s.author == author ensures s.slug != slug {
      StaleIff(held, published, s);
    }
    var i :| 0 <= i < |held| && held[i] == CachedKey(author, slug, fingerprint);
    assert Holds(held, author, slug);
    forall w | w in UnheldCollections(held, author, published) ensures w.slug != slug {
      UnheldIff(held, author, published, w);
    }
  }

  /** An oversized collection is never asked for by either tier. */
  lemma {:induction false} OversizedIsNotListed(collections: seq<PeerCollection>, l: Listed)
    ensures l in PublishedFrom(collections) <==>
              exists c :: c in collections && c.oversized != Some(true) && l == Listed(c.slug, c.fingerprint)
  {
    if collections != [] {
      var front, last := collections[..|collections| - 1], collections[|collections| - 1];
      OversizedIsNotListed(front, l);
      assert collections == front + [last];
      assert last in collections;
    }
  }

  /** The listing keeps the collections' order: `at` says which each entry was. */
  ghost predicate ListsInOrder(published: seq<Listed>, collections: seq<PeerCollection>, at: seq<nat>) {
    && |at| == |published| && Increasing(at)
    && (forall i :: 0 <= i < |at| ==> at[i] < |collections| && published[i] == ListedAs(collections[at[i]]))
    && forall j :: 0 <= j < |collections| ==> (j in at <==> collections[j].oversized != Some(true))
  }

  function ListedAs(c: PeerCollection): Listed {
    Listed(c.slug, c.fingerprint)
  }

  lemma SkipInOrder(published: seq<Listed>, front: seq<PeerCollection>, at: seq<nat>, c: PeerCollection)
    requires ListsInOrder(published, front, at) && c.oversized == Some(true)
    ensures ListsInOrder(published, front + [c], at)
  {
    var all := front + [c];
    assert forall j :: 0 <= j < |front| ==> all[j] == front[j];
  }

  lemma TakeInOrder(published: seq<Listed>, front: seq<PeerCollection>, at: seq<nat>, c: PeerCollection)
    requires ListsInOrder(published, front, at) && c.oversized != Some(true)
    ensures ListsInOrder(published + [ListedAs(c)], front + [c], at + [|front|])
  {
    var all, more := front + [c], at + [|front|];
    assert forall j :: 0 <= j < |front| ==> all[j] == front[j];
    forall j | 0 <= j < |all| ensures j in more <==> all[j].oversized != Some(true) {
      if j == |front| { assert more[|at|] == j; }
    }
  }

  lemma {:induction false} ListingIsInOrder(collections: seq<PeerCollection>) returns (at: seq<nat>)
    ensures ListsInOrder(PublishedFrom(collections), collections, at)
  {
    hide ListsInOrder;
    if collections == [] {
      at := [];
      NothingListed();
    } else {
      var n := |collections| - 1;
      var front, last := collections[..n], collections[n];
      at := ListingIsInOrder(front);
      assert collections == front + [last];
      if last.oversized == Some(true) {
        SkipInOrder(PublishedFrom(front), front, at, last);
        assert PublishedFrom(front) + [] == PublishedFrom(front);
      } else {
        TakeInOrder(PublishedFrom(front), front, at, last);
        at := at + [n];
      }
    }
  }

  lemma NothingListed()
    ensures ListsInOrder([], [], [])
  {
  }
}
