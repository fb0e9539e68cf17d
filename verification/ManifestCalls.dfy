/** What one call of a put adds to the history: exactly its own event when it reports success, and
    nothing when it reports failure, whatever the other threads do meanwhile. */
module ManifestCalls {
  import opened Wrappers
  import opened ManifestNames
  import opened CacheFiles
  import opened ManifestConcurrent

  /** The put event one step adds, if it adds one. */
  ghost function PutIn(before: Sys, after: Sys): seq<AbsEvent> {
    if |after.hist| == |before.hist| + 1 && after.hist[|before.hist|].PutEv? then [after.hist[|before.hist|]] else []
  }

  /** The put events that thread `t`'s own steps add along a run. */
  ghost function PutsBy(s: Sys, actions: seq<Action>, t: nat): seq<AbsEvent> {
    if actions == [] then []
    else
      var front, a := actions[..|actions| - 1], actions[|actions| - 1];
      PutsBy(s, front, t) + (if a.Advance? && a.t == t then PutIn(Run(s, front), Step(Run(s, front), a)) else [])
  }

  /** Thread `t` does not return along the run. */
  ghost predicate InCall(s: Sys, actions: seq<Action>, t: nat) {
    !PcOf(Run(s, actions), t).Idle? && (actions != [] ==> InCall(s, actions[..|actions| - 1], t))
  }

  function EventOf(e: CacheEntry): AbsEvent {
    PutEv(KeyOf(e), SnapshotOf(e))
  }

  /** A call of a put of `e`, wherever it stands, with the put events it has added so far. */
  ghost predicate PutSoFar(pc: Pc, e: CacheEntry, puts: seq<AbsEvent>) {
    match pc
    case PutWaiting(e', _) => e' == e && puts == []
    case PutLocked(e', _) => e' == e && puts == []
    case PutMade(e', _) => e' == e && puts == []
    case PutStaged(e', _, _) => e' == e && puts == []
    case PutRenamed(_) => puts == [EventOf(e)]
    case PutEvicting(_) => puts == [EventOf(e)]
    case Releasing(mark, ok) => !mark && puts == (if ok then [EventOf(e)] else [])
    case _ => false
  }

  lemma OtherStep(s: Sys, a: Action, t: nat)
    requires !PcOf(s, t).Idle? && !(a.Advance? && a.t == t) && !PcOf(Step(s, a), t).Idle?
    ensures PcOf(Step(s, a), t) == PcOf(s, t)
  {
  }

  lemma RenameIsAPut(s: Sys, t: nat, c: Choice, e: CacheEntry)
    requires PutSoFar(PcOf(s, t), e, []) && PcOf(s, t).PutStaged?
    ensures PutSoFar(PcOf(Step(s, Advance(t, c)), t), e, PutIn(s, Step(s, Advance(t, c))))
  {
    hide KeyOf, SnapshotOf;
  }

  lemma OtherStepsPutNothing(s: Sys, t: nat, c: Choice, e: CacheEntry, puts: seq<AbsEvent>)
    requires PutSoFar(PcOf(s, t), e, puts) && !PcOf(s, t).PutStaged?
    ensures PutIn(s, Step(s, Advance(t, c))) == []
  {
    hide KeyOf, SnapshotOf;
  }

  lemma OwnMove(s: Sys, t: nat, c: Choice, e: CacheEntry, puts: seq<AbsEvent>)
    requires PutSoFar(PcOf(s, t), e, puts) && !PcOf(s, t).PutStaged? && !PcOf(Step(s, Advance(t, c)), t).Idle?
    ensures PutSoFar(PcOf(Step(s, Advance(t, c)), t), e, puts)
  {
    hide KeyOf, SnapshotOf;
  }

  lemma OwnStep(s: Sys, t: nat, c: Choice, e: CacheEntry, puts: seq<AbsEvent>)
    requires PutSoFar(PcOf(s, t), e, puts) && !PcOf(Step(s, Advance(t, c)), t).Idle?
    ensures PutSoFar(PcOf(Step(s, Advance(t, c)), t), e, puts + PutIn(s, Step(s, Advance(t, c))))
  {
    hide Step, PutIn;
    var put := PutIn(s, Step(s, Advance(t, c)));
    if PcOf(s, t).PutStaged? {
      RenameIsAPut(s, t, c, e);
      assert [] + put == put;
    } else {
      OtherStepsPutNothing(s, t, c, e, puts);
      OwnMove(s, t, c, e, puts);
      assert puts + [] == puts;
    }
  }

  lemma {:induction false} PutAlong(s: Sys, actions: seq<Action>, t: nat, e: CacheEntry, cap: Option<nat>)
    requires PcOf(s, t) == PutWaiting(e, cap) && InCall(s, actions, t)
    ensures PutSoFar(PcOf(Run(s, actions), t), e, PutsBy(s, actions, t))
  {
    if actions != [] {
      var front, a := actions[..|actions| - 1], actions[|actions| - 1];
      PutAlong(s, front, t, e, cap);
      if a.Advance? && a.t == t {
        OwnStep(Run(s, front), t, a.c, e, PutsBy(s, front, t));
      } else {
        OtherStep(Run(s, front), a, t);
        assert PutsBy(s, front, t) + [] == PutsBy(s, front, t);
      }
    }
  }

  /** A put that is about to report success has added its event exactly once, whatever its caller,
      the other threads and the disk did since it began; one that is about to report failure has
      added none. */
  lemma PutCountsOnce(s: Sys, actions: seq<Action>, t: nat, e: CacheEntry, cap: Option<nat>)
    requires PcOf(s, t).Idle? && InCall(Step(s, StartPut(t, e, cap)), actions, t)
    requires PcOf(Run(Step(s, StartPut(t, e, cap)), actions), t).Releasing?
    ensures var begun := Step(s, StartPut(t, e, cap));
            PutsBy(begun, actions, t) == if PcOf(Run(begun, actions), t).ok then [PutEv(KeyOf(e), SnapshotOf(e))] else []
  {
    PutAlong(Step(s, StartPut(t, e, cap)), actions, t, e, cap);
  }

  /** And no put event comes from anywhere else: the step that adds one is a put's own. */
  lemma PutEventsArePuts(s: Sys, a: Action)
    requires PutIn(s, Step(s, a)) != []
    ensures a.Advance? && PcOf(s, a.t).PutStaged? && PutIn(s, Step(s, a)) == [EventOf(PcOf(s, a.t).e)]
  {
  }
}
