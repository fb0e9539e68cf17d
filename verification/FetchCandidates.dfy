/** When the ask budget holds: exactly when no contact is listed twice. A repeated source is noted
    once and asked twice, so its second entry never runs out of attempts. */
module FetchCandidates {
  import opened Wrappers
  import opened PeerWave
  import opened FetchDriver
  import opened FetchBudget

  /** The contacts who may be asked. */
  function Others(contacts: seq<string>, author: string, me: string): seq<string> {
    if contacts == [] then []
    else
      var last := contacts[|contacts| - 1];
      Others(contacts[..|contacts| - 1], author, me) + (if last != author && last != me then [last] else [])
  }

  lemma {:induction false} OthersAre(contacts: seq<string>, author: string, me: string)
    ensures forall n :: n in Others(contacts, author, me) <==> n in contacts && n != author && n != me
  {
    if contacts != [] {
      OthersAre(contacts[..|contacts| - 1], author, me);
      assert contacts == contacts[..|contacts| - 1] + [contacts[|contacts| - 1]];
    }
  }

  lemma {:induction false} CandidatesAre(contacts: seq<string>, author: string, me: string)
    ensures var cs, names := CandidatesFor(contacts, author, me), Others(contacts, author, me);
            |cs| == |names| && forall i :: 0 <= i < |cs| ==> cs[i] == Fresh(names[i])
  {
    if contacts != [] {
      CandidatesAre(contacts[..|contacts| - 1], author, me);
    }
  }

  /** Nobody but the author's and this node's own entries is left out, and the author is no carrier. */
  lemma StartIs(contacts: seq<string>, author: string, me: string)
    ensures var s := StartFor(contacts, author, me);
            && AllFresh(All(s))
            && (forall n :: n in Others(contacts, author, me) <==> exists i :: 0 <= i < |s.peers| && s.peers[i].npub == n)
            && (forall i :: 0 <= i < |s.peers| ==> s.peers[i].npub != author && s.peers[i].npub != me)
            && (Distinct(All(s)) <==> NoRepeats(Others(contacts, author, me)))
  {
    var s, names := StartFor(contacts, author, me), Others(contacts, author, me);
    CandidatesAre(contacts, author, me);
    OthersAre(contacts, author, me);
    forall i | 0 <= i < |s.peers| ensures s.peers[i].npub != author && s.peers[i].npub != me {
      assert names[i] in names;
    }
    if Distinct(All(s)) {
      forall i, j | 0 <= i < j < |names| ensures names[i] != names[j] {
        assert All(s)[i].npub == names[i] && All(s)[j].npub == names[j];
      }
    }
  }

  // ---------------------------------------------------------------------------------------------
  // The second entry of a repeated source.

  lemma {:induction false} BumpFirstLength(peers: seq<Candidate>, npub: string, now: nat)
    ensures |BumpFirst(peers, npub, now)| == |peers|
  {
    if peers != [] && peers[0].npub != npub {
      BumpFirstLength(peers[1..], npub, now);
    }
  }

  lemma {:induction false} BumpFirstSpares(peers: seq<Candidate>, npub: string, now: nat, i: nat, j: nat)
    requires i < j < |peers| && peers[i].npub == peers[j].npub
    ensures var r := BumpFirst(peers, npub, now);
            |r| == |peers| && r[j] == peers[j] && r[i].npub == peers[i].npub
  {
    if peers[0].npub == npub {
    } else if i == 0 {
      BumpFirstOthers(peers[1..], npub, now, j - 1);
    } else {
      BumpFirstSpares(peers[1..], npub, now, i - 1, j - 1);
    }
  }

  lemma {:induction false} BumpFirstOthers(peers: seq<Candidate>, npub: string, now: nat, j: nat)
    requires j < |peers| && peers[j].npub != npub
    ensures |BumpFirst(peers, npub, now)| == |peers| && BumpFirst(peers, npub, now)[j] == peers[j]
  {
    BumpFirstLength(peers, npub, now);
    if j > 0 && peers[0].npub != npub {
      BumpFirstOthers(peers[1..], npub, now, j - 1);
    }
  }

  ghost predicate Repeated(s: Sources, i: nat, j: nat) {
    i < j < |s.peers| && s.peers[i].npub == s.peers[j].npub && s.peers[j].attempts == 0 && s.peers[j].lastAttempt.None?
  }

  lemma {:induction false} NotedAllSpares(s: Sources, npubs: seq<string>, now: nat, i: nat, j: nat)
    requires Repeated(s, i, j)
    ensures Repeated(NotedAll(s, npubs, now), i, j)
  {
    if npubs != [] {
      var mid := NotedAll(s, npubs[..|npubs| - 1], now);
      NotedAllSpares(s, npubs[..|npubs| - 1], now, i, j);
      BumpFirstSpares(mid.peers, npubs[|npubs| - 1], now, i, j);
    }
  }

  lemma {:induction false} RepeatedKeepsAsking(s: Sources, nows: seq<nat>, i: nat, j: nat)
    requires Repeated(s, i, j)
    ensures Repeated(RunSources(s, nows), i, j) && |RunLog(s, nows)| >= |nows|
  {
    if nows != [] {
      var front, now := nows[..|nows| - 1], nows[|nows| - 1];
      RepeatedKeepsAsking(s, front, i, j);
      var r := RunSources(s, front);
      assert Ready(r.peers[j], now) && r.peers[j] in All(r);
      ReadySourceIsAsked(r, r.peers[j], now);
      NotedAllSpares(r, AskedBy(r, now), now, i, j);
    }
  }

  lemma RepeatedBreaks(s: Sources, i: nat, j: nat)
    requires Repeated(s, i, j)
    ensures exists nows :: |RunLog(s, nows)| > MAX_ATTEMPTS_PER_PEER * (|s.peers| + 1)
  {
    hide Repeated;
    var nows := seq(MAX_ATTEMPTS_PER_PEER * (|s.peers| + 1) + 1, _ => 0);
    RepeatedKeepsAsking(s, nows, i, j);
  }

  /** The driver asks at most three times per source in every run exactly when the contacts it may
      ask are distinct. */
  lemma AskBudgetIff(contacts: seq<string>, author: string, me: string)
    ensures var s := StartFor(contacts, author, me);
            NoRepeats(Others(contacts, author, me)) <==>
              forall nows :: |RunLog(s, nows)| <= MAX_ATTEMPTS_PER_PEER * (|s.peers| + 1)
  {
    hide RunLog, CandidatesFor, Others;
    var s, names := StartFor(contacts, author, me), Others(contacts, author, me);
    StartIs(contacts, author, me);
    if NoRepeats(names) {
      forall nows ensures |RunLog(s, nows)| <= MAX_ATTEMPTS_PER_PEER * (|s.peers| + 1) {
        AskBudget(s, nows, author);
      }
    } else {
      var i: nat, j: nat :| i < j < |names| && names[i] == names[j];
      CandidatesAre(contacts, author, me);
      RepeatedBreaks(s, i, j);
    }
  }
}
