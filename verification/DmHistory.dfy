/** What the request inbox keeps over any history of batches, and what the declined list forgets. */
module DmHistory {
  import opened Wrappers
  import opened Recency
  import opened DmQuarantine

  ghost predicate DistinctWraps(messages: seq<Message>) {
    forall i, j :: 0 <= i < j < |messages| ==> messages[i].wrapId != messages[j].wrapId
  }

  ghost predicate BucketSound(b: Bucket) {
    DistinctWraps(b.messages) && |b.messages| <= REQUEST_MSGS_PER_SENDER
  }

  /** At most 64 senders, each once, each with at most 50 messages, no wrap twice. */
  ghost predicate Sound(buckets: seq<Bucket>) {
    && |buckets| <= REQUEST_SENDER_CAP
    && (forall i, j :: 0 <= i < j < |buckets| ==> buckets[i].npub != buckets[j].npub)
    && (forall i :: 0 <= i < |buckets| ==> BucketSound(buckets[i]))
  }

  lemma DeliveredIsSound(b: Bucket, m: Message, now: nat)
    requires BucketSound(b)
    ensures BucketSound(Delivered(b, m, now))
  {
    if !HoldsWrap(b.messages, m.wrapId) {
      var all := b.messages + [m];
      forall i | 0 <= i < |b.messages| ensures all[i].wrapId != m.wrapId {
      }
      assert DistinctWraps(all);
    }
  }

  lemma {:induction false} MergedIsSound(inbox: map<string, Bucket>, incoming: seq<Incoming>, now: nat)
    requires forall n :: n in inbox ==> BucketSound(inbox[n])
    ensures forall n :: n in Merged(inbox, incoming, now) ==> BucketSound(Merged(inbox, incoming, now)[n])
  {
    if incoming != [] {
      var front, last := incoming[..|incoming| - 1], incoming[|incoming| - 1];
      MergedIsSound(inbox, front, now);
      DeliveredIsSound(Opened(Merged(inbox, front, now), last.npub, now), last.message, now);
    }
  }

  lemma {:induction false} ByNpubTakes(buckets: seq<Bucket>)
    ensures forall n :: n in ByNpub(buckets) ==> ByNpub(buckets)[n] in buckets && ByNpub(buckets)[n].npub == n
  {
    if buckets != [] {
      ByNpubTakes(buckets[..|buckets| - 1]);
    }
  }

  lemma MergeIsSound(existing: seq<Bucket>, incoming: seq<Incoming>, now: nat, r: seq<Bucket>)
    requires Sound(existing) && Merges(existing, incoming, now, r)
    ensures Sound(r)
  {
    ByNpubTakes(existing);
    MergedIsSound(ByNpub(existing), incoming, now);
  }

  datatype Batch = Batch(incoming: seq<Incoming>, now: nat)

  /** Inboxes one after another, each what its batch may leave of the one before. */
  ghost predicate History(inboxes: seq<seq<Bucket>>, batches: seq<Batch>) {
    && |inboxes| == |batches| + 1
    && forall i :: 0 <= i < |batches| ==> Merges(inboxes[i], batches[i].incoming, batches[i].now, inboxes[i + 1])
  }

  lemma {:induction false} EveryInboxIsSound(inboxes: seq<seq<Bucket>>, batches: seq<Batch>, i: nat)
    requires History(inboxes, batches) && Sound(inboxes[0]) && i < |inboxes|
    ensures Sound(inboxes[i])
  {
    if i > 0 {
      EveryInboxIsSound(inboxes, batches, i - 1);
      assert Merges(inboxes[i - 1], batches[i - 1].incoming, batches[i - 1].now, inboxes[i]);
      MergeIsSound(inboxes[i - 1], batches[i - 1].incoming, batches[i - 1].now, inboxes[i]);
    }
  }

  // ---------------------------------------------------------------------------------------------
  // One sender's messages.

  function MessagesOf(incoming: seq<Incoming>, npub: string): seq<Message> {
    if incoming == [] then []
    else
      MessagesOf(incoming[..|incoming| - 1], npub)
      + (if incoming[|incoming| - 1].npub == npub then [incoming[|incoming| - 1].message] else [])
  }

  function DeliveredAll(b: Bucket, messages: seq<Message>, now: nat): Bucket {
    if messages == [] then b else Delivered(DeliveredAll(b, messages[..|messages| - 1], now), messages[|messages| - 1], now)
  }

  /** The messages that were taken in: those whose wrap was not held when they came. */
  function Taken(b: Bucket, messages: seq<Message>, now: nat): seq<Message> {
    if messages == [] then []
    else
      var front, last := messages[..|messages| - 1], messages[|messages| - 1];
      var held := DeliveredAll(b, front, now).messages;
      Taken(b, front, now) + (if forall i :: 0 <= i < |held| ==> held[i].wrapId != last.wrapId then [last] else [])
  }

  /** Each sender's bucket depends on that sender's own messages alone. */
  lemma {:induction false} SendersAreSeparate(inbox: map<string, Bucket>, incoming: seq<Incoming>, now: nat, npub: string)
    ensures var mine := MessagesOf(incoming, npub);
            && (npub in Merged(inbox, incoming, now) <==> npub in inbox || mine != [])
            && (npub in inbox || mine != [] ==>
                  Merged(inbox, incoming, now)[npub] == DeliveredAll(Opened(inbox, npub, now), mine, now))
  {
    hide Delivered, Opened;
    OpenedOnce(inbox, inbox, npub, now);
    if incoming != [] {
      var front, last := incoming[..|incoming| - 1], incoming[|incoming| - 1];
      SendersAreSeparate(inbox, front, now, npub);
      var mine := MessagesOf(front, npub);
      if last.npub != npub {
        assert MessagesOf(incoming, npub) == mine;
      } else {
        assert MessagesOf(incoming, npub) == mine + [last.message];
        DeliveredMore(Opened(inbox, npub, now), mine, last.message, now);
        OpenedOnce(inbox, Merged(inbox, front, now), npub, now);
      }
    }
  }

  lemma DeliveredMore(b: Bucket, messages: seq<Message>, m: Message, now: nat)
    ensures DeliveredAll(b, messages + [m], now) == Delivered(DeliveredAll(b, messages, now), m, now)
  {
    hide Delivered;
    assert (messages + [m])[..|messages|] == messages;
  }

  /** A bucket that is there is opened as it is; one that neither is nor was, as at first. */
  lemma OpenedOnce(inbox: map<string, Bucket>, merged: map<string, Bucket>, npub: string, now: nat)
    ensures npub in merged ==> Opened(merged, npub, now) == merged[npub]
    ensures npub !in merged && npub !in inbox ==> Opened(merged, npub, now) == Opened(inbox, npub, now)
  {
  }

  lemma LastOfAgain(messages: seq<Message>, m: Message, n: nat)
    ensures LastOf(LastOf(messages, n) + [m], n) == LastOf(messages + [m], n)
  {
  }

  /** A bucket holds the last 50 of what it held and took in, in the order it came. */
  lemma {:induction false} OnlyTheOldestGo(b: Bucket, messages: seq<Message>, now: nat)
    requires |b.messages| <= REQUEST_MSGS_PER_SENDER
    ensures var all := b.messages + Taken(b, messages, now);
            DeliveredAll(b, messages, now).messages == all[SatSub(|all|, REQUEST_MSGS_PER_SENDER)..]
  {
    if messages == [] {
      assert b.messages + [] == b.messages;
    } else {
      var front, last := messages[..|messages| - 1], messages[|messages| - 1];
      OnlyTheOldestGo(b, front, now);
      var taken := Taken(b, front, now);
      if HoldsWrap(DeliveredAll(b, front, now).messages, last.wrapId) {
        assert taken + [] == taken;
      } else {
        assert b.messages + (taken + [last]) == (b.messages + taken) + [last];
        LastOfAgain(b.messages + taken, last, REQUEST_MSGS_PER_SENDER);
      }
    }
  }

  /** Wraps still held, delivered again, change neither the messages nor the activity. */
  lemma {:induction false} RedeliveryChangesNothing(b: Bucket, messages: seq<Message>, now: nat)
    requires forall i :: 0 <= i < |messages| ==> HoldsWrap(b.messages, messages[i].wrapId)
    ensures DeliveredAll(b, messages, now) == b && Taken(b, messages, now) == []
  {
    if messages != [] {
      var front := messages[..|messages| - 1];
      assert forall i :: 0 <= i < |front| ==> front[i] == messages[i];
      RedeliveryChangesNothing(b, front, now);
    }
  }

  // ---------------------------------------------------------------------------------------------
  // Activity, by which senders are evicted.

  /** A message taken in makes the sender active now; nothing else does, and no message changes who the
      sender is or when it was first seen. */
  lemma {:induction false} ActivityIs(b: Bucket, messages: seq<Message>, now: nat)
    ensures var r := DeliveredAll(b, messages, now);
            && r.lastMessageAt == (if Taken(b, messages, now) != [] then now else b.lastMessageAt)
            && r.firstSeen == b.firstSeen && r.npub == b.npub
  {
    if messages != [] {
      ActivityIs(b, messages[..|messages| - 1], now);
    }
  }

  ghost predicate SomeNamed(buckets: seq<Bucket>, npub: string) {
    exists i :: 0 <= i < |buckets| && buckets[i].npub == npub
  }

  /** `b` is the last bucket of its name. */
  ghost predicate LastNamed(buckets: seq<Bucket>, b: Bucket) {
    exists i :: 0 <= i < |buckets| && buckets[i] == b && forall j :: i < j < |buckets| ==> buckets[j].npub != b.npub
  }

  /** The sender's bucket when the batch begins: the last of that name, or a new one. */
  ghost predicate StartsAs(b: Bucket, existing: seq<Bucket>, now: nat, npub: string) {
    if SomeNamed(existing, npub) then b.npub == npub && LastNamed(existing, b) else b == Bucket(npub, now, now, [])
  }

  /** The bucket a batch leaves of `b`: the last 50 messages it held and took in. */
  ghost predicate BecomesOf(r: Bucket, b: Bucket, mine: seq<Message>, now: nat) {
    && r.npub == b.npub && r.firstSeen == b.firstSeen
    && r.lastMessageAt == (if Taken(b, mine, now) != [] then now else b.lastMessageAt)
    && (|b.messages| <= REQUEST_MSGS_PER_SENDER ==>
          var all := b.messages + Taken(b, mine, now); r.messages == all[SatSub(|all|, REQUEST_MSGS_PER_SENDER)..])
  }

  ghost predicate IsBucketOf(r: Bucket, existing: seq<Bucket>, incoming: seq<Incoming>, now: nat, npub: string) {
    exists b :: StartsAs(b, existing, now, npub) && BecomesOf(r, b, MessagesOf(incoming, npub), now)
  }

  lemma SomeNamedMore(front: seq<Bucket>, last: Bucket, npub: string)
    ensures SomeNamed(front + [last], npub) <==> SomeNamed(front, npub) || last.npub == npub
  {
    var all := front + [last];
    if i :| 0 <= i < |front| && front[i].npub == npub { assert all[i] == front[i]; }
    assert all[|front|] == last;
  }

  lemma LastNamedMore(front: seq<Bucket>, last: Bucket, b: Bucket)
    ensures LastNamed(front + [last], b) <==> b == last || (last.npub != b.npub && LastNamed(front, b))
  {
    var all := front + [last];
    assert all[|front|] == last;
    if LastNamed(front, b) && last.npub != b.npub {
      var i :| 0 <= i < |front| && front[i] == b && forall j :: i < j < |front| ==> front[j].npub != b.npub;
      assert all[i] == b;
    }
    if LastNamed(all, b) && b != last {
      var i :| 0 <= i < |all| && all[i] == b && forall j :: i < j < |all| ==> all[j].npub != b.npub;
      assert front[i] == b && forall j :: i < j < |front| ==> front[j] == all[j];
    }
  }

  lemma {:induction false} OpenedIs(existing: seq<Bucket>, npub: string, now: nat)
    ensures StartsAs(Opened(ByNpub(existing), npub, now), existing, now, npub)
    ensures npub in ByNpub(existing) <==> SomeNamed(existing, npub)
  {
    hide SomeNamed, LastNamed;
    if existing == [] {
      NobodyNamed(npub);
    } else {
      var front, last := existing[..|existing| - 1], existing[|existing| - 1];
      OpenedIs(front, npub, now);
      assert existing == front + [last];
      SomeNamedMore(front, last, npub);
      LastNamedMore(front, last, Opened(ByNpub(existing), npub, now));
    }
  }

  lemma NobodyNamed(npub: string)
    ensures !SomeNamed([], npub)
  {
  }

  lemma BucketIs(existing: seq<Bucket>, incoming: seq<Incoming>, now: nat, npub: string)
    requires npub in Merged(ByNpub(existing), incoming, now)
    ensures IsBucketOf(Merged(ByNpub(existing), incoming, now)[npub], existing, incoming, now, npub)
  {
    hide StartsAs;
    var b, mine := Opened(ByNpub(existing), npub, now), MessagesOf(incoming, npub);
    SendersAreSeparate(ByNpub(existing), incoming, now, npub);
    OpenedIs(existing, npub, now);
    ActivityIs(b, mine, now);
    if |b.messages| <= REQUEST_MSGS_PER_SENDER { OnlyTheOldestGo(b, mine, now); }
  }

  /** Whether the batch brings the sender a message that is not held. */
  ghost predicate Writes(existing: seq<Bucket>, incoming: seq<Incoming>, now: nat, npub: string) {
    exists b :: StartsAs(b, existing, now, npub) && Taken(b, MessagesOf(incoming, npub), now) != []
  }

  ghost predicate Known(existing: seq<Bucket>, incoming: seq<Incoming>, npub: string) {
    SomeNamed(existing, npub) || MessagesOf(incoming, npub) != []
  }

  lemma OneStart(a: Bucket, b: Bucket, existing: seq<Bucket>, now: nat, npub: string)
    requires StartsAs(a, existing, now, npub) && StartsAs(b, existing, now, npub)
    ensures a == b && a.npub == npub
  {
  }

  lemma MergedIs(existing: seq<Bucket>, incoming: seq<Incoming>, now: nat, npub: string)
    ensures npub in Merged(ByNpub(existing), incoming, now) <==> Known(existing, incoming, npub)
  {
    hide StartsAs;
    SendersAreSeparate(ByNpub(existing), incoming, now, npub);
    OpenedIs(existing, npub, now);
  }

  /** What a batch leaves of an inbox, sender by sender: whoever is in it has the bucket the sender's
      own messages make of the one before, and whoever is known and missing, when 64 are kept, was
      active no later than any of them. */
  lemma InboxAfterBatch(existing: seq<Bucket>, incoming: seq<Incoming>, now: nat, r: seq<Bucket>)
    requires Merges(existing, incoming, now, r)
    ensures forall i :: 0 <= i < |r| ==> Known(existing, incoming, r[i].npub) && IsBucketOf(r[i], existing, incoming, now, r[i].npub)
    ensures forall n :: Known(existing, incoming, n) && n !in NamesOf(r) ==>
              |r| == REQUEST_SENDER_CAP
              && exists left :: IsBucketOf(left, existing, incoming, now, n)
                                && forall i :: 0 <= i < |r| ==> left.lastMessageAt <= r[i].lastMessageAt
  {
    hide IsBucketOf, Known, Merged, KeepsRecent;
    var merged := Merged(ByNpub(existing), incoming, now);
    forall i | 0 <= i < |r| ensures Known(existing, incoming, r[i].npub) && IsBucketOf(r[i], existing, incoming, now, r[i].npub) {
      KeptIsMerged(merged, r, i);
      BucketIs(existing, incoming, now, r[i].npub);
      MergedIs(existing, incoming, now, r[i].npub);
    }
    forall n | Known(existing, incoming, n) && n !in NamesOf(r)
      ensures |r| == REQUEST_SENDER_CAP
              && exists left :: IsBucketOf(left, existing, incoming, now, n)
                                && forall i :: 0 <= i < |r| ==> left.lastMessageAt <= r[i].lastMessageAt
    {
      MergedIs(existing, incoming, now, n);
      LeftOutMeansFull(merged, r, n);
      BucketIs(existing, incoming, now, n);
      KeyedByNpub(existing, incoming, now);
      forall i | 0 <= i < |r| ensures merged[n].lastMessageAt <= r[i].lastMessageAt {
        LeftOutIsOlder(merged, r, i, n);
      }
    }
  }

  lemma KeptIsMerged(merged: map<string, Bucket>, r: seq<Bucket>, i: nat)
    requires KeepsRecent(merged, r) && i < |r|
    ensures r[i].npub in merged && r[i] == merged[r[i].npub]
  {
  }

  function NamesOf(buckets: seq<Bucket>): set<string> {
    if buckets == [] then {} else NamesOf(buckets[..|buckets| - 1]) + {buckets[|buckets| - 1].npub}
  }

  lemma NotNamedBefore(buckets: seq<Bucket>)
    requires buckets != [] && forall i, j :: 0 <= i < j < |buckets| ==> buckets[i].npub != buckets[j].npub
    ensures !SomeNamed(buckets[..|buckets| - 1], buckets[|buckets| - 1].npub)
  {
  }

  lemma {:induction false} NamesAre(buckets: seq<Bucket>)
    requires forall i, j :: 0 <= i < j < |buckets| ==> buckets[i].npub != buckets[j].npub
    ensures |NamesOf(buckets)| == |buckets|
    ensures forall n :: n in NamesOf(buckets) <==> SomeNamed(buckets, n)
  {
    hide SomeNamed;
    if buckets == [] {
      forall n ensures !SomeNamed([], n) { NobodyNamed(n); }
    } else {
      var front, last := buckets[..|buckets| - 1], buckets[|buckets| - 1];
      NamesAre(front);
      assert buckets == front + [last];
      forall n ensures SomeNamed(buckets, n) <==> SomeNamed(front, n) || last.npub == n {
        SomeNamedMore(front, last, n);
      }
      assert !SomeNamed(front, last.npub) by { NotNamedBefore(buckets); }
    }
  }

  lemma LeftOutMeansFull(merged: map<string, Bucket>, r: seq<Bucket>, npub: string)
    requires KeepsRecent(merged, r) && npub in merged && npub !in NamesOf(r)
    ensures |r| == REQUEST_SENDER_CAP && |NamesOf(r) + {npub}| == REQUEST_SENDER_CAP + 1
  {
    NamesAre(r);
    assert NamesOf(r) + {npub} <= merged.Keys;
    SubsetSize(NamesOf(r) + {npub}, merged.Keys);
    assert |merged| == |merged.Keys|;
  }

  lemma WriterIsActive(r: Bucket, existing: seq<Bucket>, incoming: seq<Incoming>, now: nat, npub: string)
    requires IsBucketOf(r, existing, incoming, now, npub)
    requires forall i :: 0 <= i < |existing| ==> existing[i].lastMessageAt < now
    requires Known(existing, incoming, npub)
    ensures r.lastMessageAt <= now && (r.lastMessageAt == now <==> Writes(existing, incoming, now, npub))
  {
    var mine := MessagesOf(incoming, npub);
    var b :| StartsAs(b, existing, now, npub) && BecomesOf(r, b, mine, now);
    forall a | StartsAs(a, existing, now, npub) ensures a == b { OneStart(a, b, existing, now, npub); }
    if forall i :: 0 <= i < |existing| ==> existing[i].npub != npub {
      FirstIsTaken(b, mine, now);
    }
  }

  lemma {:induction false} FirstIsTaken(b: Bucket, messages: seq<Message>, now: nat)
    requires b.messages == [] && messages != []
    ensures Taken(b, messages, now) != []
  {
    if |messages| > 1 {
      FirstIsTaken(b, messages[..|messages| - 1], now);
    } else {
      assert messages[..0] == [];
    }
  }

  lemma LeftOutIsOlder(merged: map<string, Bucket>, r: seq<Bucket>, i: nat, npub: string)
    requires KeepsRecent(merged, r) && i < |r| && npub in merged && npub !in NamesOf(r)
    requires merged[npub].npub == npub
    ensures merged[npub].lastMessageAt <= r[i].lastMessageAt
  {
    NamesAre(r);
    assert r[i] in r;
    assert merged[npub] !in r;
  }

  /** A sender whose message was taken in stays, however many there are, if at most 64 senders wrote in
      the batch and the clock is ahead of everything recorded before. */
  lemma WhoWritesStays(existing: seq<Bucket>, incoming: seq<Incoming>, now: nat, r: seq<Bucket>, writers: set<string>, npub: string)
    requires Merges(existing, incoming, now, r)
    requires forall i :: 0 <= i < |existing| ==> existing[i].lastMessageAt < now
    requires forall n :: n in writers <==> Writes(existing, incoming, now, n)
    requires |writers| <= REQUEST_SENDER_CAP && npub in writers
    ensures exists i :: 0 <= i < |r| && r[i].npub == npub && r[i].lastMessageAt == now
  {
    hide KeepsRecent, IsBucketOf, Known, Merged, Writes;
    InboxAfterBatch(existing, incoming, now, r);
    WritersAreKnown(existing, incoming, now, npub);
    NamesOfMerge(existing, incoming, now, r);
    if npub in NamesOf(r) {
      var i :| 0 <= i < |r| && r[i].npub == npub;
      WriterIsActive(r[i], existing, incoming, now, npub);
    } else {
      var left :| IsBucketOf(left, existing, incoming, now, npub) && forall i :: 0 <= i < |r| ==> left.lastMessageAt <= r[i].lastMessageAt;
      WriterIsActive(left, existing, incoming, now, npub);
      forall n | n in NamesOf(r) ensures n in writers {
        var i :| 0 <= i < |r| && r[i].npub == n;
        WriterIsActive(r[i], existing, incoming, now, n);
      }
      SubsetSize(NamesOf(r) + {npub}, writers);
    }
  }

  lemma NamesOfMerge(existing: seq<Bucket>, incoming: seq<Incoming>, now: nat, r: seq<Bucket>)
    requires Merges(existing, incoming, now, r)
    ensures |NamesOf(r)| == |r| && forall n :: n in NamesOf(r) <==> exists i :: 0 <= i < |r| && r[i].npub == n
  {
    NamesAre(r);
  }

  lemma WritersAreKnown(existing: seq<Bucket>, incoming: seq<Incoming>, now: nat, npub: string)
    requires Writes(existing, incoming, now, npub)
    ensures Known(existing, incoming, npub)
  {
  }

  // ---------------------------------------------------------------------------------------------
  // Declined senders.

  lemma {:induction false} DatesComeFromEntries(entries: seq<Aged>)
    ensures forall n :: n in DatesOf(entries) ==> Aged(n, DatesOf(entries)[n]) in entries
  {
    if entries != [] {
      DatesComeFromEntries(entries[..|entries| - 1]);
    }
  }

  /** The date remembered for a name: its last entry's. */
  ghost predicate LastEntry(entries: seq<Aged>, a: Aged) {
    exists i :: 0 <= i < |entries| && entries[i] == a && forall j :: i < j < |entries| ==> entries[j].name != a.name
  }

  lemma LastEntryMore(front: seq<Aged>, last: Aged, a: Aged)
    ensures LastEntry(front + [last], a) <==> a == last || (last.name != a.name && LastEntry(front, a))
  {
    var all := front + [last];
    assert all[|front|] == last;
    if LastEntry(front, a) && last.name != a.name {
      var i :| 0 <= i < |front| && front[i] == a && forall j :: i < j < |front| ==> front[j].name != a.name;
      assert all[i] == a;
    }
    if LastEntry(all, a) && a != last {
      var i :| 0 <= i < |all| && all[i] == a && forall j :: i < j < |all| ==> all[j].name != a.name;
      assert front[i] == a && forall j :: i < j < |front| ==> front[j] == all[j];
    }
  }

  lemma {:induction false} DatesAre(entries: seq<Aged>, a: Aged)
    ensures a.name in DatesOf(entries) && DatesOf(entries)[a.name] == a.at <==> LastEntry(entries, a)
  {
    hide LastEntry;
    if entries == [] {
      NoEntry(a);
    } else {
      var front, last := entries[..|entries| - 1], entries[|entries| - 1];
      DatesAre(front, a);
      assert entries == front + [last];
      LastEntryMore(front, last, a);
    }
  }

  lemma NoEntry(a: Aged)
    ensures !LastEntry([], a)
  {
  }

  /** What the list remembers after one more decline, at any clock: that one and, for every other name,
      its last date; only when 1024 are kept is anyone forgotten, and nobody declined later than one
      who is kept. */
  lemma DeclinedAfter(existing: seq<Aged>, npub: string, now: nat, r: seq<Aged>)
    requires Declines(existing, npub, now, r)
    ensures forall a :: a in r ==> a == Aged(npub, now) || (a.name != npub && LastEntry(existing, a))
    ensures forall a :: (a == Aged(npub, now) || (a.name != npub && LastEntry(existing, a))) && a !in r ==>
              |r| == DECLINED_CAP && forall b :: b in r ==> b.at >= a.at
  {
    hide LastEntry, DistinctNames, DatesOf;
    var xs :| ListsDates(xs, DatesOf(existing)[npub := now]) && KeepsNewest(xs, r, DECLINED_CAP);
    forall a ensures a in xs <==> a == Aged(npub, now) || (a.name != npub && LastEntry(existing, a)) {
      DatesAre(existing, a);
    }
    forall a | a in xs && a !in r ensures |r| == DECLINED_CAP && forall b :: b in r ==> b.at >= a.at {
      if |r| == |xs| { AllAreKept(xs, r, a); }
    }
  }

  lemma AllAreKept(xs: seq<Aged>, r: seq<Aged>, a: Aged)
    requires DistinctNames(xs) && DistinctNames(r) && |r| == |xs| && (forall b :: b in r ==> b in xs) && a in xs
    ensures a in r
  {
    EntriesCount(xs);
    EntriesCount(r);
    if a !in r { SubsetSize((set b | b in r) + {a}, set b | b in xs); }
  }

  lemma FrontIsDistinct(xs: seq<Aged>)
    requires DistinctNames(xs) && xs != []
    ensures DistinctNames(xs[..|xs| - 1]) && xs[|xs| - 1] !in xs[..|xs| - 1]
  {
  }

  lemma {:induction false} EntriesCount(xs: seq<Aged>)
    requires DistinctNames(xs)
    ensures |set a | a in xs| == |xs|
  {
    if xs != [] {
      var front, last := xs[..|xs| - 1], xs[|xs| - 1];
      FrontIsDistinct(xs);
      EntriesCount(front);
      assert xs == front + [last];
      assert (set a | a in xs) == (set a | a in front) + {last};
    } else {
      assert (set a | a in xs) == {};
    }
  }

  /** A sender just declined is remembered, at that date only, whoever has to be forgotten for it,
      when the clock is ahead of every date remembered; and the list never grows past its cap. */
  lemma DeclineIsRemembered(existing: seq<Aged>, npub: string, now: nat, r: seq<Aged>)
    requires Declines(existing, npub, now, r) && forall a :: a in existing ==> a.at < now
    ensures Aged(npub, now) in r && |r| <= DECLINED_CAP
    ensures forall a :: a in r && a.name == npub ==> a.at == now
    ensures forall a :: a in r && a.name != npub ==> a in existing
  {
    var dates := DatesOf(existing)[npub := now];
    var xs :| ListsDates(xs, dates) && KeepsNewest(xs, r, DECLINED_CAP);
    DatesComeFromEntries(existing);
    var own := Aged(npub, now);
    assert own in xs;
    forall a | a in r && a.name != npub ensures a in existing && a.at < now {
      assert a in xs;
    }
    NobodyNewerIsLeftOut(xs, r, own);
  }

  lemma NobodyNewerIsLeftOut(xs: seq<Aged>, r: seq<Aged>, own: Aged)
    requires KeepsNewest(xs, r, DECLINED_CAP) && own in xs
    requires forall a :: a in r && a.name != own.name ==> a.at < own.at
    requires forall a :: a in xs && a.name == own.name ==> a == own
    ensures own in r
  {
    assert |r| > 0;
    assert r[0] in r && r[0] in xs;
  }
}
