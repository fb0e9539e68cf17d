/** The fetch driver's memory of one wanted collection: whom it may ask, whom it has asked. */
module FetchDriver {
  import opened Wrappers
  import opened PeerWave

  datatype Sources = Sources(peers: seq<Candidate>, author: Candidate)

  /** Every contact but the author, who is held apart, and this node. */
  function CandidatesFor(contacts: seq<string>, author: string, me: string): seq<Candidate> {
    if contacts == [] then []
    else
      var last := contacts[|contacts| - 1];
      CandidatesFor(contacts[..|contacts| - 1], author, me) + (if last != author && last != me then [Fresh(last)] else [])
  }

  function StartFor(contacts: seq<string>, author: string, me: string): Sources {
    Sources(CandidatesFor(contacts, author, me), Fresh(author))
  }

  function All(s: Sources): seq<Candidate> {
    s.peers + [s.author]
  }

  function Bump(c: Candidate, now: nat): Candidate {
    c.(attempts := c.attempts + 1, lastAttempt := Some(now))
  }

  function BumpFirst(peers: seq<Candidate>, npub: string, now: nat): seq<Candidate> {
    if peers == [] then []
    else if peers[0].npub == npub then [Bump(peers[0], now)] + peers[1..]
    else [peers[0]] + BumpFirst(peers[1..], npub, now)
  }

  lemma {:induction false} BumpFirstAt(peers: seq<Candidate>, npub: string, now: nat, i: nat)
    requires i < |peers| && peers[i].npub == npub && forall j :: 0 <= j < i ==> peers[j].npub != npub
    ensures BumpFirst(peers, npub, now) == peers[i := Bump(peers[i], now)]
  {
    if i > 0 {
      assert peers[0].npub != npub;
      BumpFirstAt(peers[1..], npub, now, i - 1);
      assert [peers[0]] + peers[1..][i - 1 := Bump(peers[i], now)] == peers[i := Bump(peers[i], now)];
    }
  }

  lemma {:induction false} BumpFirstMissing(peers: seq<Candidate>, npub: string, now: nat)
    requires forall j :: 0 <= j < |peers| ==> peers[j].npub != npub
    ensures BumpFirst(peers, npub, now) == peers
  {
    if peers != [] {
      BumpFirstMissing(peers[1..], npub, now);
    }
  }

  function Noted(s: Sources, npub: string, now: nat): Sources {
    if s.author.npub == npub then s.(author := Bump(s.author, now)) else s.(peers := BumpFirst(s.peers, npub, now))
  }

  function NotedAll(s: Sources, npubs: seq<string>, now: nat): Sources {
    if npubs == [] then s else Noted(NotedAll(s, npubs[..|npubs| - 1], now), npubs[|npubs| - 1], now)
  }

  /** Whom one poll at `now` asks. */
  function AskedBy(s: Sources, now: nat): seq<string> {
    var action := NextAction(s.peers, s.author, now);
    if action.Ask? then action.sources else []
  }

  function Polled(s: Sources, now: nat): Sources {
    NotedAll(s, AskedBy(s, now), now)
  }

  class AskState {
    var peers: seq<Candidate>
    var author: Candidate

    constructor (contacts: seq<string>, author: string, me: string)
      ensures this.Contents() == StartFor(contacts, author, me)
    {
      this.peers := CandidatesFor(contacts, author, me);
      this.author := Fresh(author);
    }

    function Contents(): Sources
      reads this
    {
      Sources(peers, author)
    }

    method NoteAttempt(npub: string, now: nat)
      modifies this
      ensures Contents() == Noted(old(Contents()), npub, now)
    {
      if author.npub == npub {
        author := Bump(author, now);
        return;
      }
      for i := 0 to |peers|
        invariant peers == old(peers) && author == old(author)
        invariant forall j :: 0 <= j < i ==> peers[j].npub != npub
      {
        if peers[i].npub == npub {
          BumpFirstAt(peers, npub, now, i);
          peers := peers[i := Bump(peers[i], now)];
          return;
        }
      }
      BumpFirstMissing(peers, npub, now);
    }

    /** One poll for this collection: decide, ask, and note every ask. */
    method Poll(now: nat) returns (asked: seq<string>)
      modifies this
      ensures asked == AskedBy(old(Contents()), now)
      ensures Contents() == Polled(old(Contents()), now)
    {
      ghost var before := Contents();
      match NextAction(peers, author, now)
      case Ask(sources) =>
        for i := 0 to |sources|
          invariant Contents() == NotedAll(before, sources[..i], now)
        {
          assert sources[..i + 1][..i] == sources[..i];
          NoteAttempt(sources[i], now);
        }
        assert sources[..|sources|] == sources;
        asked := sources;
      case _ =>
        asked := [];
    }
  }

  // ---------------------------------------------------------------------------------------------
  // Whole runs: polls at the instants `nows`.

  datatype AskedAt = AskedAt(npub: string, at: nat)

  function Stamp(npubs: seq<string>, now: nat): (r: seq<AskedAt>)
    ensures |r| == |npubs| && forall i :: 0 <= i < |r| ==> r[i] == AskedAt(npubs[i], now)
  {
    seq(|npubs|, i requires 0 <= i < |npubs| => AskedAt(npubs[i], now))
  }

  function RunSources(s: Sources, nows: seq<nat>): Sources {
    if nows == [] then s else Polled(RunSources(s, nows[..|nows| - 1]), nows[|nows| - 1])
  }

  function RunLog(s: Sources, nows: seq<nat>): seq<AskedAt> {
    if nows == [] then []
    else
      var front, now := nows[..|nows| - 1], nows[|nows| - 1];
      RunLog(s, front) + Stamp(AskedBy(RunSources(s, front), now), now)
  }

  ghost predicate Rising(nows: seq<nat>) {
    forall i, j :: 0 <= i < j < |nows| ==> nows[i] <= nows[j]
  }

  ghost predicate Distinct(cs: seq<Candidate>) {
    forall i, j :: 0 <= i < j < |cs| ==> cs[i].npub != cs[j].npub
  }

  /** Attempts the policy still allows. */
  function Remaining(cs: seq<Candidate>): nat {
    if cs == [] then 0 else Remaining(cs[..|cs| - 1]) + SatSub(MAX_ATTEMPTS_PER_PEER, cs[|cs| - 1].attempts)
  }

  function CountAsks(log: seq<AskedAt>, npub: string): nat {
    if log == [] then 0 else CountAsks(log[..|log| - 1], npub) + (if log[|log| - 1].npub == npub then 1 else 0)
  }

  function LastAsk(log: seq<AskedAt>, npub: string): Option<nat> {
    if log == [] then None
    else if log[|log| - 1].npub == npub then Some(log[|log| - 1].at)
    else LastAsk(log[..|log| - 1], npub)
  }
}
