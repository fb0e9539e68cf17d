/** The background queue that reads the listings of contacts nobody has read yet, one contact per
    tick, oldest first. */
module EnumerationQueue {
  import opened Wrappers
  import opened TextOrder

  datatype Status = Pending | Fetched | Sealed | FetchFailed

  datatype Source = Manual | Topic

  datatype Contact = Contact(npub: string, source: Source, browseKey: Option<string>, collections: seq<string>,
                             status: Status, lastFetched: int)

  predicate LegacyStub(c: Contact) {
    c.source.Topic? && c.browseKey.None? && c.collections == [] && c.status.Fetched?
  }

  function HealedOne(c: Contact): Contact {
    if LegacyStub(c) then c.(status := Pending) else c
  }

  function Healed(contacts: seq<Contact>): (r: seq<Contact>)
    ensures |r| == |contacts| && forall i :: 0 <= i < |r| ==> r[i] == HealedOne(contacts[i])
  {
    seq(|contacts|, i requires 0 <= i < |contacts| => HealedOne(contacts[i]))
  }

  /** The first `n` contacts are healed, the rest as they were. */
  ghost predicate HealedUpTo(after: seq<Contact>, before: seq<Contact>, n: nat) {
    && |after| == |before|
    && forall i :: 0 <= i < |after| ==> after[i] == if i < n then HealedOne(before[i]) else before[i]
  }

  function CountStubs(contacts: seq<Contact>): nat {
    if contacts == [] then 0
    else CountStubs(contacts[..|contacts| - 1]) + (if LegacyStub(contacts[|contacts| - 1]) then 1 else 0)
  }

  /** The queue's order: stamp first, then name. */
  predicate Before(a: Contact, b: Contact) {
    a.lastFetched < b.lastFetched || (a.lastFetched == b.lastFetched && a.npub != b.npub && NotAfter(a.npub, b.npub))
  }

  /** The pending contact that is before all others. */
  function PickNext(contacts: seq<Contact>): Option<Contact> {
    if contacts == [] then None
    else
      var last := contacts[|contacts| - 1];
      var best := PickNext(contacts[..|contacts| - 1]);
      if !last.status.Pending? then best
      else if best.None? || Before(last, best.value) then Some(last)
      else best
  }

  /** Saving a contact replaces the stored one of that name, or adds it. */
  function Save(contacts: seq<Contact>, c: Contact): seq<Contact> {
    if contacts == [] then [c]
    else if contacts[0].npub == c.npub then [c] + contacts[1..]
    else [contacts[0]] + Save(contacts[1..], c)
  }

  function Load(contacts: seq<Contact>, npub: string): Option<Contact> {
    if contacts == [] then None
    else if contacts[0].npub == npub then Some(contacts[0])
    else Load(contacts[1..], npub)
  }

  /** What one tick meets besides the store: whether there is an identity, whether the store can be
      listed, what the production read makes of a contact (`None` when it fails), what others left in
      the store while it read, and the clock and the disk when a failed one is deferred. */
  datatype TickInput = TickInput(identity: bool, listed: bool, resolved: Contact -> Option<Contact>, later: seq<Contact>,
                                 now: int, saved: bool)

  function PickedBy(contacts: seq<Contact>, t: TickInput): Option<Contact> {
    if t.identity && t.listed then PickNext(contacts) else None
  }

  /** The later version of a contact whose read failed, at the back of the queue. */
  function Deferred(t: TickInput, npub: string): seq<Contact> {
    var theirs := Load(t.later, npub);
    if theirs.Some? && t.saved then Save(t.later, theirs.value.(lastFetched := t.now)) else t.later
  }

  function Ticked(contacts: seq<Contact>, t: TickInput): seq<Contact> {
    var next := PickedBy(contacts, t);
    if next.None? then contacts
    else if t.resolved(next.value).Some? then Save(t.later, t.resolved(next.value).value)
    else Deferred(t, next.value.npub)
  }

  ghost predicate Distinct(contacts: seq<Contact>) {
    forall i, j :: 0 <= i < j < |contacts| ==> contacts[i].npub != contacts[j].npub
  }

  class ContactStore {
    var contacts: seq<Contact>

    constructor (contacts: seq<Contact>)
      ensures this.contacts == contacts
    {
      this.contacts := contacts;
    }

    /** The one-time heal. A save that fails stops it part way. */
    method HealPendingNeverEnumerated(saveFails: nat -> bool) returns (healed: Option<nat>)
      modifies this
      ensures |contacts| == |old(contacts)|
      ensures healed.Some? <==> forall i: nat :: i < |contacts| && LegacyStub(old(contacts)[i]) ==> !saveFails(i)
      ensures healed.Some? ==> contacts == Healed(old(contacts)) && healed.value == CountStubs(old(contacts))
      ensures healed.None? ==> exists n: nat :: n < |contacts| && LegacyStub(old(contacts)[n]) && saveFails(n)
                                        && HealedUpTo(contacts, old(contacts), n)
    {
      var count := 0;
      ghost var before := contacts;
      for i := 0 to |contacts|
        invariant HealedUpTo(contacts, before, i)
        invariant forall j: nat :: j < i && LegacyStub(before[j]) ==> !saveFails(j)
        invariant count == CountStubs(before[..i])
      {
        assert before[..i + 1][..i] == before[..i];
        assert contacts[i] == before[i];
        if LegacyStub(contacts[i]) {
          if saveFails(i) {
            return None;
          }
          contacts := contacts[i := contacts[i].(status := Pending)];
          count := count + 1;
        }
      }
      assert before[..|before|] == before;
      healed := Some(count);
    }

    method EnumerateNextPending(t: TickInput) returns (outcome: Option<(string, Status)>)
      modifies this
      ensures contacts == Ticked(old(contacts), t)
      ensures Distinct(old(contacts)) && Distinct(t.later) ==> TickIs(old(contacts), contacts, t)
      ensures outcome.Some? <==> PickedBy(old(contacts), t).Some? && t.resolved(PickedBy(old(contacts), t).value).Some?
      ensures outcome.Some? ==> outcome.value.0 == PickedBy(old(contacts), t).value.npub
                                && outcome.value.1 == t.resolved(PickedBy(old(contacts), t).value).value.status
    {
      hide TickIs;
      if Distinct(contacts) && Distinct(t.later) { TickedIs(contacts, t); }
      if !t.identity || !t.listed {
        return None;
      }
      var next := PickNext(contacts);
      if next.None? {
        return None;
      }
      var updated := t.resolved(next.value);
      contacts := t.later;
      if updated.Some? {
        contacts := Save(contacts, updated.value);
        return Some((next.value.npub, updated.value.status));
      }
      var theirs := Load(contacts, next.value.npub);
      if theirs.Some? && t.saved {
        contacts := Save(contacts, theirs.value.(lastFetched := t.now));
      }
      outcome := None;
    }
  }

  // ---------------------------------------------------------------------------------------------
  // The heal.

  /** A contact is healed exactly when it was joined through a topic, has no key and no collections,
      and yet counts as fetched; only its status changes, and doing it twice is doing it once. */
  lemma HealIsExact(contacts: seq<Contact>)
    ensures Healed(Healed(contacts)) == Healed(contacts) && CountStubs(Healed(contacts)) == 0
    ensures CountStubs(contacts) == |ChangedBetween(contacts, Healed(contacts))|
    ensures forall i :: 0 <= i < |contacts| ==>
              var c := contacts[i];
              && (Healed(contacts)[i] != c <==> c.source == Topic && c.browseKey == None && c.collections == [] && c.status == Fetched)
              && Healed(contacts)[i].(status := c.status) == c
              && (Healed(contacts)[i] != c ==> Healed(contacts)[i].status == Pending)
  {
    NoStubsLeft(Healed(contacts));
    StubsAreChanged(contacts);
  }

  /** The places two stores of one size differ at. */
  ghost function ChangedBetween(before: seq<Contact>, after: seq<Contact>): set<nat>
    requires |before| == |after|
  {
    set i: nat | i < |before| && before[i] != after[i]
  }

  lemma {:induction false} StubsAreChanged(contacts: seq<Contact>)
    ensures CountStubs(contacts) == |ChangedBetween(contacts, Healed(contacts))|
  {
    if contacts == [] {
      assert ChangedBetween([], []) == {};
    } else {
      var n := |contacts| - 1;
      var front := contacts[..n];
      StubsAreChanged(front);
      var was, all := ChangedBetween(front, Healed(front)), ChangedBetween(contacts, Healed(contacts));
      assert n !in was;
      assert all == if LegacyStub(contacts[n]) then was + {n} else was;
    }
  }

  lemma {:induction false} NoStubsLeft(contacts: seq<Contact>)
    requires forall i :: 0 <= i < |contacts| ==> !LegacyStub(contacts[i])
    ensures CountStubs(contacts) == 0
  {
    if contacts != [] {
      NoStubsLeft(contacts[..|contacts| - 1]);
    }
  }

  lemma BeforeIsTotal(a: Contact, b: Contact)
    requires a.npub != b.npub
    ensures Before(a, b) || Before(b, a)
    ensures !(Before(a, b) && Before(b, a))
  {
    NotAfterTotal(a.npub, b.npub);
    if NotAfter(a.npub, b.npub) && NotAfter(b.npub, a.npub) {
      NotAfterAntisymmetric(a.npub, b.npub);
    }
  }

  lemma BeforeIsTransitive(a: Contact, b: Contact, c: Contact)
    requires Before(a, b) && Before(b, c)
    ensures Before(a, c)
  {
    if a.lastFetched == c.lastFetched {
      NotAfterTransitive(a.npub, b.npub, c.npub);
      if a.npub == c.npub {
        NotAfterAntisymmetric(a.npub, b.npub);
      }
    }
  }

  /** A pending contact is picked whenever there is one, and none is before it. So the pick does not
      depend on the order the store lists them in. */
  lemma {:induction false} PickIsFirst(contacts: seq<Contact>)
    requires Distinct(contacts)
    ensures var p := PickNext(contacts);
            && (p.None? <==> forall c :: c in contacts ==> !c.status.Pending?)
            && (p.Some? ==> p.value in contacts && p.value.status.Pending?
                            && forall c :: c in contacts && c.status.Pending? && c != p.value ==> Before(p.value, c))
  {
    if contacts != [] {
      var front, last := contacts[..|contacts| - 1], contacts[|contacts| - 1];
      PickIsFirst(front);
      assert contacts == front + [last];
      var best := PickNext(front);
      forall c | c in front ensures c.npub != last.npub {
      }
      if best.Some? {
        BeforeIsTotal(last, best.value);
        forall c | c in front && c.status.Pending? && c != best.value && Before(last, best.value) ensures Before(last, c) {
          BeforeIsTransitive(last, best.value, c);
        }
      }
    }
  }

  lemma PickIgnoresListingOrder(a: seq<Contact>, b: seq<Contact>)
    requires Distinct(a) && Distinct(b) && forall c :: c in a <==> c in b
    ensures PickNext(a) == PickNext(b)
  {
    PickIsFirst(a);
    PickIsFirst(b);
    var p, q := PickNext(a), PickNext(b);
    if p.Some? && q.Some? && p != q {
      assert Before(p.value, q.value) && Before(q.value, p.value);
      if p.value.npub != q.value.npub {
        BeforeIsTotal(p.value, q.value);
      }
    }
  }

  // ---------------------------------------------------------------------------------------------
  // What a tick does to the store.

  /** A pending contact no pending contact is older than, names deciding between equal stamps. */
  ghost predicate IsNext(contacts: seq<Contact>, p: Contact) {
    && p in contacts && p.status.Pending?
    && forall c :: c in contacts && c.status.Pending? ==>
         p.lastFetched < c.lastFetched || (p.lastFetched == c.lastFetched && NotAfter(p.npub, c.npub))
  }

  /** `c` in place of the contact of its name, or added if there is none. */
  ghost predicate StoredIn(after: seq<Contact>, before: seq<Contact>, c: Contact) {
    if forall x :: x in before ==> x.npub != c.npub then after == before + [c]
    else |after| == |before| && forall i :: 0 <= i < |after| ==> after[i] == if before[i].npub == c.npub then c else before[i]
  }

  /** The contact of that name has a new stamp; nothing else of it, and nobody else, is changed. */
  ghost predicate Restamped(after: seq<Contact>, before: seq<Contact>, npub: string, now: int) {
    && |after| == |before|
    && forall i :: 0 <= i < |after| ==> after[i] == if before[i].npub == npub then before[i].(lastFetched := now) else before[i]
  }

  /** The tick's effect, by what was pending: nothing without an identity, a listing or a pending
      contact; else the next contact's reading is stored, or the contact, still as the others left
      it, is stamped anew if the disk takes it. */
  ghost predicate TickIs(before: seq<Contact>, after: seq<Contact>, t: TickInput) {
    && (!t.identity || !t.listed || (forall c :: c in before ==> !c.status.Pending?) ==> after == before)
    && (t.identity && t.listed ==>
          forall p :: IsNext(before, p) ==>
            if t.resolved(p).Some? then StoredIn(after, t.later, t.resolved(p).value)
            else if t.saved then Restamped(after, t.later, p.npub, t.now)
            else after == t.later)
  }

  lemma {:induction false} SaveAt(contacts: seq<Contact>, c: Contact, i: nat)
    requires Distinct(contacts) && i < |contacts| && contacts[i].npub == c.npub
    ensures Save(contacts, c) == contacts[i := c] && Load(contacts, c.npub) == Some(contacts[i])
  {
    if i > 0 {
      assert contacts[0].npub != c.npub;
      SaveAt(contacts[1..], c, i - 1);
      assert [contacts[0]] + contacts[1..][i - 1 := c] == contacts[i := c];
    } else {
      assert [c] + contacts[1..] == contacts[0 := c];
    }
  }

  lemma {:induction false} SaveNew(contacts: seq<Contact>, c: Contact)
    requires forall x :: x in contacts ==> x.npub != c.npub
    ensures Save(contacts, c) == contacts + [c] && Load(contacts, c.npub) == None
  {
    if contacts != [] {
      assert contacts[0].npub != c.npub;
      SaveNew(contacts[1..], c);
      assert [contacts[0]] + (contacts[1..] + [c]) == contacts + [c];
    }
  }

  lemma {:induction false} LoadHasName(contacts: seq<Contact>, npub: string)
    ensures Load(contacts, npub).Some? ==> Load(contacts, npub).value.npub == npub
  {
    if contacts != [] { LoadHasName(contacts[1..], npub); }
  }

  lemma SaveStores(contacts: seq<Contact>, c: Contact)
    requires Distinct(contacts)
    ensures StoredIn(Save(contacts, c), contacts, c)
  {
    if i :| 0 <= i < |contacts| && contacts[i].npub == c.npub {
      SaveAt(contacts, c, i);
    } else {
      SaveNew(contacts, c);
    }
  }

  lemma DeferringRestamps(t: TickInput, npub: string)
    requires Distinct(t.later)
    ensures if t.saved then Restamped(Deferred(t, npub), t.later, npub, t.now) else Deferred(t, npub) == t.later
  {
    if i :| 0 <= i < |t.later| && t.later[i].npub == npub {
      SaveAt(t.later, t.later[i], i);
      SaveAt(t.later, t.later[i].(lastFetched := t.now), i);
    } else {
      NobodyOf(t.later, npub);
    }
  }

  lemma {:induction false} NobodyOf(contacts: seq<Contact>, npub: string)
    requires forall i :: 0 <= i < |contacts| ==> contacts[i].npub != npub
    ensures Load(contacts, npub) == None
  {
    if contacts != [] {
      assert contacts[0].npub != npub;
      NobodyOf(contacts[1..], npub);
    }
  }

  lemma NextIsPicked(contacts: seq<Contact>, p: Contact)
    requires Distinct(contacts) && IsNext(contacts, p)
    ensures PickNext(contacts) == Some(p)
  {
    PickIsFirst(contacts);
    var q := PickNext(contacts);
    if q.value != p {
      assert Before(q.value, p);
      NotAfterTotal(p.npub, q.value.npub);
      NotAfterAntisymmetric(p.npub, q.value.npub);
    }
  }

  /** What a tick leaves in the store, whatever it meets. A contact whose read failed keeps its
      status: it stays in the queue. */
  lemma TickedIs(contacts: seq<Contact>, t: TickInput)
    requires Distinct(contacts) && Distinct(t.later)
    ensures TickIs(contacts, Ticked(contacts, t), t)
  {
    hide StoredIn, Restamped, Deferred;
    PickIsFirst(contacts);
    forall p | IsNext(contacts, p) ensures PickNext(contacts) == Some(p) {
      NextIsPicked(contacts, p);
    }
    if PickedBy(contacts, t).Some? {
      var p := PickNext(contacts).value;
      DeferringRestamps(t, p.npub);
      if t.resolved(p).Some? { SaveStores(t.later, t.resolved(p).value); }
    }
  }
}
