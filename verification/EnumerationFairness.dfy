/** No pending contact waits for ever: each pick of another one leaves fewer contacts before it,
    whoever else is added meanwhile. */
module EnumerationFairness {
  import opened Wrappers
  import opened TextOrder
  import opened EnumerationQueue

  /** The pending contacts that are before `c`. */
  ghost function Ahead(contacts: seq<Contact>, c: Contact): set<Contact> {
    set x | x in contacts && x.status.Pending? && Before(x, c)
  }

  /** One tick: the store as others left it, and what the tick meets. */
  datatype Tick = Tick(world: seq<Contact>, input: TickInput)

  function After(t: Tick): seq<Contact> {
    Ticked(t.world, t.input)
  }

  function Picked(t: Tick): Option<Contact> {
    PickedBy(t.world, t.input)
  }

  /** A read classifies the contact it read. */
  ghost predicate Earns(t: Tick) {
    forall c :: t.input.resolved(c).Some? ==> t.input.resolved(c).value.npub == c.npub && !t.input.resolved(c).value.status.Pending?
  }

  /** What others may make of the store `before` by the time it is `after`: add, remove, refresh; a
      contact they leave pending that was not so before is stamped when they did that. */
  ghost predicate Others(before: seq<Contact>, after: seq<Contact>) {
    && Distinct(after)
    && (forall x, y :: x in after && x.status.Pending? && x !in before && y in before ==> y.lastFetched < x.lastFetched)
  }

  /** A tick after the store `before`: others come between, and again while it reads, and the clock
      it defers by is ahead of every stamp it found. */
  ghost predicate Between(before: seq<Contact>, t: Tick) {
    && Others(before, t.world) && Others(t.world, t.input.later)
    && (forall x :: x in before ==> x.lastFetched < t.input.now)
  }

  function StoreBefore(start: seq<Contact>, ticks: seq<Tick>, i: nat): seq<Contact>
    requires i < |ticks|
  {
    if i == 0 then start else After(ticks[i - 1])
  }

  ghost predicate Follows(start: seq<Contact>, ticks: seq<Tick>, c: Contact, i: nat)
    requires i < |ticks|
  {
    && Between(StoreBefore(start, ticks, i), ticks[i]) && Earns(ticks[i])
    && (c in StoreBefore(start, ticks, i) ==> c in ticks[i].world)
    && (c in ticks[i].world ==> c in ticks[i].input.later)
  }

  /** Ticks one after another, from the store `start`, in none of which others touch `c`. */
  ghost predicate Ticking(start: seq<Contact>, ticks: seq<Tick>, c: Contact) {
    forall i :: 0 <= i < |ticks| ==> Follows(start, ticks, c, i)
  }

  /** A tick that moves nobody: it picks none, or what it picked failed and stays where it was
      because its deferral did not reach the disk. */
  ghost predicate Wasted(t: Tick) {
    Picked(t).None? || (t.input.resolved(Picked(t).value).None? && !t.input.saved && Picked(t).value in t.input.later)
  }

  ghost function CountWasted(ticks: seq<Tick>): nat {
    if ticks == [] then 0 else (if Wasted(ticks[0]) then 1 else 0) + CountWasted(ticks[1..])
  }

  ghost predicate PickedAt(ticks: seq<Tick>, c: Contact, i: nat) {
    i < |ticks| && Picked(ticks[i]) == Some(c)
  }

  /** After a save the store holds the saved contact and whoever has another name. */
  lemma SaveIs(contacts: seq<Contact>, c: Contact)
    requires Distinct(contacts)
    ensures forall x :: x in Save(contacts, c) <==> x == c || (x in contacts && x.npub != c.npub)
  {
    if i :| 0 <= i < |contacts| && contacts[i].npub == c.npub {
      SaveAt(contacts, c, i);
      var r := Save(contacts, c);
      assert r[i] == c;
      forall x | x in contacts && x.npub != c.npub ensures x in r {
        var j :| 0 <= j < |contacts| && contacts[j] == x;
        assert r[j] == x;
      }
    } else {
      SaveNew(contacts, c);
    }
  }

  lemma LoadIs(contacts: seq<Contact>, c: Contact)
    requires Distinct(contacts) && c in contacts
    ensures Load(contacts, c.npub) == Some(c)
  {
    var i :| 0 <= i < |contacts| && contacts[i] == c;
    SaveAt(contacts, c, i);
  }

  /** What others do puts nobody ahead of `c`. */
  lemma NobodyJumpsIn(before: seq<Contact>, after: seq<Contact>, c: Contact)
    requires Others(before, after) && c in before
    ensures Ahead(after, c) <= Ahead(before, c)
  {
  }

  /** What the tick itself saves is not ahead of `c`: it is classified, or stamped last. */
  lemma SavedIsBehind(later: seq<Contact>, saved: Contact, c: Contact)
    requires Distinct(later) && c in later && saved.npub != c.npub
    requires !saved.status.Pending? || c.lastFetched < saved.lastFetched
    ensures c in Save(later, saved)
    ensures forall x :: x in Ahead(Save(later, saved), c) ==> x in Ahead(later, c) && x.npub != saved.npub
  {
    SaveIs(later, saved);
  }

  lemma PickIsAhead(t: Tick, c: Contact)
    requires Distinct(t.world) && c in t.world && c.status.Pending? && Picked(t).Some? && Picked(t) != Some(c)
    ensures Picked(t).value in Ahead(t.world, c) && Picked(t).value.npub != c.npub
  {
    PickIsFirst(t.world);
  }

  /** A tick that picks another contact leaves nobody new ahead of `c`, and the picked one only when
      it is wasted. */
  lemma TickTakesOne(t: Tick, c: Contact)
    requires Distinct(t.world) && Others(t.world, t.input.later) && Earns(t)
    requires c in t.world && c in t.input.later && c.status.Pending? && c.lastFetched < t.input.now
    requires Picked(t).Some? && Picked(t) != Some(c)
    ensures c in After(t) && Ahead(After(t), c) <= Ahead(t.world, c)
    ensures !Wasted(t) ==> Picked(t).value !in Ahead(After(t), c)
  {
    var p, later := Picked(t).value, t.input.later;
    PickIsAhead(t, c);
    NobodyJumpsIn(t.world, later, c);
    if t.input.resolved(p).Some? {
      SavedIsBehind(later, t.input.resolved(p).value, c);
    } else {
      var theirs := Load(later, p.npub);
      LoadHasName(later, p.npub);
      if theirs.Some? && t.input.saved {
        SavedIsBehind(later, theirs.value.(lastFetched := t.input.now), c);
      } else if p in later {
        LoadIs(later, p);
      }
    }
  }

  lemma TickMoves(before: seq<Contact>, t: Tick, c: Contact)
    requires Between(before, t) && Earns(t) && c in before && c.status.Pending? && c in t.world && c in t.input.later
    requires Picked(t) != Some(c)
    ensures c in After(t)
    ensures |Ahead(After(t), c)| + (if Wasted(t) then 0 else 1) <= |Ahead(before, c)|
  {
    NobodyJumpsIn(before, t.world, c);
    if Picked(t).Some? {
      TickTakesOne(t, c);
      PickIsAhead(t, c);
      SubsetSize(Ahead(After(t), c), Ahead(before, c) - (if Wasted(t) then {} else {Picked(t).value}));
    } else {
      SubsetSize(Ahead(After(t), c), Ahead(before, c));
    }
  }

  /** A pending contact is picked within as many ticks as there are pending contacts ahead of it,
      the ticks wasted until then, and one more. */
  lemma {:induction false} EveryPendingContactIsPicked(start: seq<Contact>, ticks: seq<Tick>, c: Contact)
    requires c in start && c.status.Pending? && Ticking(start, ticks, c)
    requires |ticks| > |Ahead(start, c)| + CountWasted(ticks)
    ensures exists i: nat :: PickedAt(ticks, c, i) && i <= |Ahead(start, c)| + CountWasted(ticks[..i])
    decreases |ticks|
  {
    var t, rest := ticks[0], ticks[1..];
    assert Follows(start, ticks, c, 0);
    if Picked(t) == Some(c) {
      assert PickedAt(ticks, c, 0);
    } else {
      TickMoves(start, t, c);
      TickingRest(start, ticks, c);
      EveryPendingContactIsPicked(After(t), rest, c);
      var i: nat :| PickedAt(rest, c, i) && i <= |Ahead(After(t), c)| + CountWasted(rest[..i]);
      assert PickedAt(ticks, c, i + 1);
      assert ticks[..i + 1][0] == t && ticks[..i + 1][1..] == rest[..i];
    }
  }

  lemma TickingRest(start: seq<Contact>, ticks: seq<Tick>, c: Contact)
    requires |ticks| > 0 && Ticking(start, ticks, c)
    ensures Ticking(After(ticks[0]), ticks[1..], c)
  {
    var rest := ticks[1..];
    forall i | 0 <= i < |rest| ensures Follows(After(ticks[0]), rest, c, i) {
      assert rest[i] == ticks[i + 1];
      assert Follows(start, ticks, c, i + 1);
    }
  }

  /** A failed contact as its tick left it: stamped anew if the deferral reached the disk. */
  function Retried(t: Tick, c: Contact): Contact {
    if t.input.saved then c.(lastFetched := t.input.now) else c
  }

  lemma FailedStaysPending(t: Tick, c: Contact)
    requires Distinct(t.world) && Distinct(t.input.later)
    requires Picked(t) == Some(c) && t.input.resolved(c).None? && c in t.input.later
    ensures Retried(t, c) in After(t) && Retried(t, c).status.Pending?
  {
    PickIsFirst(t.world);
    TickedIs(t.world, t.input);
    NotAfterTotal(c.npub, c.npub);
    assert IsNext(t.world, c);
    var i :| 0 <= i < |t.input.later| && t.input.later[i] == c;
    assert After(t)[i] == Retried(t, c);
  }

  /** A contact whose read fails is not given up: it is still pending, and it is picked again within
      as many ticks as there are pending contacts ahead of it then, the ticks wasted until then, and
      one more. */
  lemma FailedIsPickedAgain(ticks: seq<Tick>, c: Contact, i: nat)
    requires PickedAt(ticks, c, i)
    requires Distinct(ticks[i].world) && Distinct(ticks[i].input.later)
    requires ticks[i].input.resolved(c).None? && c in ticks[i].input.later
    requires Ticking(After(ticks[i]), ticks[i + 1..], Retried(ticks[i], c))
    requires |ticks| - i - 1 > |Ahead(After(ticks[i]), Retried(ticks[i], c))| + CountWasted(ticks[i + 1..])
    ensures Retried(ticks[i], c) in After(ticks[i]) && Retried(ticks[i], c).status.Pending?
    ensures exists j: nat :: PickedAt(ticks, Retried(ticks[i], c), j) && i < j
                             && j - i - 1 <= |Ahead(After(ticks[i]), Retried(ticks[i], c))| + CountWasted(ticks[i + 1..j])
  {
    hide Ticking, Ahead, CountWasted;
    var t, again, rest := ticks[i], Retried(ticks[i], c), ticks[i + 1..];
    FailedStaysPending(t, c);
    EveryPendingContactIsPicked(After(t), rest, again);
    var m: nat :| PickedAt(rest, again, m) && m <= |Ahead(After(t), again)| + CountWasted(rest[..m]);
    assert ticks[i + 1 + m] == rest[m] && ticks[i + 1..i + 1 + m] == rest[..m];
    assert PickedAt(ticks, again, i + 1 + m);
  }

  // ---------------------------------------------------------------------------------------------
  // Without the deferral on disk.

  function Failing(world: seq<Contact>, now: int): Tick {
    Tick(world, TickInput(true, true, _ => None, world, now, false))
  }

  function FailingTicks(world: seq<Contact>, now: int, n: nat): (r: seq<Tick>)
    ensures |r| == n && forall i :: 0 <= i < n ==> r[i] == Failing(world, now + i)
  {
    seq(n, i requires 0 <= i < n => Failing(world, now + i))
  }

  lemma FirstIsPicked(first: Contact, c: Contact)
    requires first.status.Pending? && first.npub != c.npub && Before(first, c)
    ensures PickNext([first, c]) == Some(first) && Distinct([first, c])
  {
    var world := [first, c];
    PickIsFirst(world);
    BeforeIsTotal(first, c);
    assert first in world && c in world;
  }

  lemma FailingChangesNothing(first: Contact, c: Contact, now: int)
    requires first.status.Pending? && first.npub != c.npub && Before(first, c)
    requires first.lastFetched < now && c.lastFetched < now
    ensures After(Failing([first, c], now)) == [first, c]
    ensures Between([first, c], Failing([first, c], now)) && Earns(Failing([first, c], now)) && Wasted(Failing([first, c], now))
  {
    FirstIsPicked(first, c);
  }

  lemma {:induction false} AllWasted(ticks: seq<Tick>)
    requires forall i :: 0 <= i < |ticks| ==> Wasted(ticks[i])
    ensures CountWasted(ticks) == |ticks|
  {
    if ticks != [] { AllWasted(ticks[1..]); }
  }

  /** A deferral that never reaches the disk leaves the contact first for ever: of two pending
      contacts, the later one is never picked, however long the queue runs. Every tick is wasted, so
      no bound can count fewer than the wasted ones. */
  lemma LostDeferralStarves(first: Contact, c: Contact, now: int, n: nat)
    requires first.status.Pending? && c.status.Pending? && first.npub != c.npub && Before(first, c)
    requires first.lastFetched < now && c.lastFetched < now
    ensures var ticks := FailingTicks([first, c], now, n);
            && Ticking([first, c], ticks, c) && CountWasted(ticks) == |ticks| == n
            && forall i :: !PickedAt(ticks, c, i)
  {
    var world, ticks := [first, c], FailingTicks([first, c], now, n);
    FirstIsPicked(first, c);
    forall i | 0 <= i < n ensures Follows(world, ticks, c, i) && Wasted(ticks[i]) {
      FailingChangesNothing(first, c, now + i);
      if i > 0 { FailingChangesNothing(first, c, now + i - 1); }
      assert StoreBefore(world, ticks, i) == world;
    }
    AllWasted(ticks);
  }
}
