/** The quarantined inbox of messages from strangers: bounded per sender and in senders, and the
    bounded memory of declined senders. */
module DmQuarantine {
  import opened Wrappers
  import opened Recency

  const REQUEST_SENDER_CAP: nat := 64
  const REQUEST_MSGS_PER_SENDER: nat := 50
  const DECLINED_CAP: nat := 1024

  datatype Message = Message(wrapId: string, content: string, sentAt: string)
  datatype Bucket = Bucket(npub: string, firstSeen: nat, lastMessageAt: nat, messages: seq<Message>)
  datatype Incoming = Incoming(npub: string, message: Message)

  // ---------------------------------------------------------------------------------------------
  // The request inbox.

  predicate HoldsWrap(messages: seq<Message>, wrapId: string) {
    exists i :: 0 <= i < |messages| && messages[i].wrapId == wrapId
  }

  function LastOf(messages: seq<Message>, n: nat): seq<Message> {
    if |messages| <= n then messages else messages[|messages| - n..]
  }

  function Delivered(b: Bucket, m: Message, now: nat): Bucket {
    if HoldsWrap(b.messages, m.wrapId) then b
    else b.(messages := LastOf(b.messages + [m], REQUEST_MSGS_PER_SENDER), lastMessageAt := now)
  }

  function Opened(inbox: map<string, Bucket>, npub: string, now: nat): Bucket {
    if npub in inbox then inbox[npub] else Bucket(npub, now, now, [])
  }

  /** The inbox after a batch, before the cap on senders. */
  function Merged(inbox: map<string, Bucket>, incoming: seq<Incoming>, now: nat): map<string, Bucket> {
    if incoming == [] then inbox
    else
      var before := Merged(inbox, incoming[..|incoming| - 1], now);
      var last := incoming[|incoming| - 1];
      before[last.npub := Delivered(Opened(before, last.npub, now), last.message, now)]
  }

  /** A later bucket of the same name replaces an earlier one. */
  function ByNpub(buckets: seq<Bucket>): map<string, Bucket> {
    if buckets == [] then map[] else ByNpub(buckets[..|buckets| - 1])[buckets[|buckets| - 1].npub := buckets[|buckets| - 1]]
  }

  /** `order` lists the senders of `inbox`, each once, in whatever order the hash map gives them. */
  ghost predicate Lists(order: seq<string>, inbox: map<string, Bucket>) {
    (forall n :: n in order <==> n in inbox) && forall i, j :: 0 <= i < j < |order| ==> order[i] != order[j]
  }

  function Ages(order: seq<string>, inbox: map<string, Bucket>): (r: seq<Aged>)
    requires forall n :: n in order ==> n in inbox
    ensures |r| == |order| && forall i :: 0 <= i < |r| ==> r[i] == Aged(order[i], inbox[order[i]].lastMessageAt)
  {
    seq(|order|, i requires 0 <= i < |order| => Aged(order[i], inbox[order[i]].lastMessageAt))
  }

  /** `r` is every bucket of `merged`, or the 64 most recent. */
  ghost predicate KeepsRecent(merged: map<string, Bucket>, r: seq<Bucket>) {
    && |r| == Min(|merged|, REQUEST_SENDER_CAP)
    && (forall i :: 0 <= i < |r| ==> r[i].npub in merged && r[i] == merged[r[i].npub])
    && (forall i, j :: 0 <= i < j < |r| ==> r[i].npub != r[j].npub)
    && (forall b: Bucket, n: string :: b in r && n in merged && merged[n] !in r ==> b.lastMessageAt >= merged[n].lastMessageAt)
  }

  /** What a batch leaves of the inbox. */
  ghost predicate Merges(existing: seq<Bucket>, incoming: seq<Incoming>, now: nat, r: seq<Bucket>) {
    KeepsRecent(Merged(ByNpub(existing), incoming, now), r)
  }

  /** The keys of a map in an arbitrary order, as iterating over a hash map gives them. */
  method AnyOrder(inbox: map<string, Bucket>) returns (order: seq<string>)
    ensures Lists(order, inbox) && |order| == |inbox|
  {
    order := [];
    var left := inbox.Keys;
    while left != {}
      invariant left <= inbox.Keys
      invariant forall n :: n in order <==> n in inbox.Keys - left
      invariant forall i, j :: 0 <= i < j < |order| ==> order[i] != order[j]
      invariant |order| + |left| == |inbox|
      decreases |left|
    {
      var n :| n in left;
      assert n !in order;
      NewLast(order, n);
      order := order + [n];
      left := left - {n};
    }
  }

  lemma NewLast(order: seq<string>, n: string)
    requires n !in order && forall i, j :: 0 <= i < j < |order| ==> order[i] != order[j]
    ensures var all := order + [n];
            && (forall i, j :: 0 <= i < j < |all| ==> all[i] != all[j])
            && forall m :: m in all <==> m in order || m == n
  {
    var all := order + [n];
    forall i, j | 0 <= i < j < |all| ensures all[i] != all[j] {
      assert all[i] == order[i];
    }
  }

  /** Every message of a batch, in order, into its sender's bucket. */
  method MergeAll(existing: seq<Bucket>, incoming: seq<Incoming>, now: nat) returns (inbox: map<string, Bucket>)
    ensures inbox == Merged(ByNpub(existing), incoming, now)
  {
    inbox := ByNpub(existing);
    for i := 0 to |incoming|
      invariant inbox == Merged(ByNpub(existing), incoming[..i], now)
    {
      assert incoming[..i + 1][..i] == incoming[..i];
      var npub, msg := incoming[i].npub, incoming[i].message;
      var bucket := Opened(inbox, npub, now);
      inbox := inbox[npub := bucket];
      if !HoldsWrap(bucket.messages, msg.wrapId) {
        bucket := bucket.(messages := bucket.messages + [msg], lastMessageAt := now);
        if |bucket.messages| > REQUEST_MSGS_PER_SENDER {
          var excess := |bucket.messages| - REQUEST_MSGS_PER_SENDER;
          bucket := bucket.(messages := bucket.messages[excess..]);
        }
        inbox := inbox[npub := bucket];
      }
    }
    assert incoming[..|incoming|] == incoming;
  }

  method MergeIntoRequests(existing: seq<Bucket>, incoming: seq<Incoming>, now: nat) returns (r: seq<Bucket>)
    ensures Merges(existing, incoming, now, r)
  {
    hide KeepsRecent;
    var inbox := MergeAll(existing, incoming, now);
    KeyedByNpub(existing, incoming, now);
    var order := AnyOrder(inbox);
    var kept := Capped(Ages(order, inbox), REQUEST_SENDER_CAP);
    AgesAre(order, inbox);
    CappedKeepsNewest(Ages(order, inbox), REQUEST_SENDER_CAP);
    r := seq(|kept|, i requires 0 <= i < |kept| => inbox[kept[i].name]);
    KeptIsRecent(order, inbox, kept, r);
  }

  ghost predicate Keyed(inbox: map<string, Bucket>) {
    forall n :: n in inbox ==> inbox[n].npub == n
  }

  lemma {:induction false} ByNpubIsKeyed(buckets: seq<Bucket>)
    ensures Keyed(ByNpub(buckets))
  {
    if buckets != [] { ByNpubIsKeyed(buckets[..|buckets| - 1]); }
  }

  lemma {:induction false} MergedIsKeyed(inbox: map<string, Bucket>, incoming: seq<Incoming>, now: nat)
    requires Keyed(inbox)
    ensures Keyed(Merged(inbox, incoming, now))
  {
    if incoming != [] { MergedIsKeyed(inbox, incoming[..|incoming| - 1], now); }
  }

  lemma KeyedByNpub(existing: seq<Bucket>, incoming: seq<Incoming>, now: nat)
    ensures Keyed(Merged(ByNpub(existing), incoming, now))
  {
    ByNpubIsKeyed(existing);
    MergedIsKeyed(ByNpub(existing), incoming, now);
  }

  lemma AgesAre(order: seq<string>, inbox: map<string, Bucket>)
    requires Lists(order, inbox)
    ensures DistinctNames(Ages(order, inbox))
    ensures forall a :: a in Ages(order, inbox) <==> a.name in inbox && a.at == inbox[a.name].lastMessageAt
  {
    var ages := Ages(order, inbox);
    forall a ensures a in ages <==> a.name in inbox && a.at == inbox[a.name].lastMessageAt {
      if a.name in inbox && a.at == inbox[a.name].lastMessageAt {
        var i :| 0 <= i < |order| && order[i] == a.name;
        assert ages[i] == a;
      }
    }
  }

  lemma KeptIsRecent(order: seq<string>, inbox: map<string, Bucket>, kept: seq<Aged>, r: seq<Bucket>)
    requires Lists(order, inbox) && |order| == |inbox| && Keyed(inbox) && KeepsNewest(Ages(order, inbox), kept, REQUEST_SENDER_CAP)
    requires |r| == |kept| && forall i :: 0 <= i < |kept| ==> kept[i].name in inbox && r[i] == inbox[kept[i].name]
    ensures KeepsRecent(inbox, r)
  {
    AgesAre(order, inbox);
    forall b: Bucket, n: string | b in r && n in inbox && inbox[n] !in r ensures b.lastMessageAt >= inbox[n].lastMessageAt {
      var i :| 0 <= i < |r| && r[i] == b;
      var a := Aged(n, inbox[n].lastMessageAt);
      assert a in Ages(order, inbox);
      forall j | 0 <= j < |kept| ensures kept[j] != a {
        assert r[j] in r;
      }
      assert kept[i] in kept;
    }
  }

  // ---------------------------------------------------------------------------------------------
  // Declined senders.

  function DatesOf(entries: seq<Aged>): map<string, nat> {
    if entries == [] then map[] else DatesOf(entries[..|entries| - 1])[entries[|entries| - 1].name := entries[|entries| - 1].at]
  }

  ghost predicate ListsDates(xs: seq<Aged>, dates: map<string, nat>) {
    DistinctNames(xs) && |xs| == |dates| && forall a :: a in xs <==> a.name in dates && dates[a.name] == a.at
  }

  method AnyOrderOfDates(dates: map<string, nat>) returns (xs: seq<Aged>)
    ensures ListsDates(xs, dates)
  {
    xs := [];
    var left := dates.Keys;
    while left != {}
      invariant left <= dates.Keys
      invariant forall a :: a in xs <==> a.name in dates.Keys - left && dates[a.name] == a.at
      invariant DistinctNames(xs)
      invariant |xs| + |left| == |dates|
      decreases |left|
    {
      var n :| n in left;
      forall i | 0 <= i < |xs| ensures xs[i].name != n {
        assert xs[i] in xs;
      }
      xs := xs + [Aged(n, dates[n])];
      left := left - {n};
    }
  }

  /** The declined senders after one more, or the 1024 most recently declined of them. */
  ghost predicate Declines(existing: seq<Aged>, npub: string, now: nat, r: seq<Aged>) {
    exists xs :: ListsDates(xs, DatesOf(existing)[npub := now]) && KeepsNewest(xs, r, DECLINED_CAP)
  }

  method RecordDeclined(existing: seq<Aged>, npub: string, now: nat) returns (r: seq<Aged>)
    ensures Declines(existing, npub, now, r)
  {
    var dates: map<string, nat> := map[];
    for i := 0 to |existing|
      invariant dates == DatesOf(existing[..i])
    {
      assert existing[..i + 1][..i] == existing[..i];
      dates := dates[existing[i].name := existing[i].at];
    }
    assert existing[..|existing|] == existing;
    var xs := AnyOrderOfDates(dates[npub := now]);
    CappedKeepsNewest(xs, DECLINED_CAP);
    r := Capped(xs, DECLINED_CAP);
  }
}
