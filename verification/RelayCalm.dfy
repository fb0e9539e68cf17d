/** With one wanted set of relays, a pool that stays alive and nobody resetting it, the program
    connects once, and everyone gets that one client. */
module RelayCalm {
  import opened Wrappers
  import opened RelaySets
  import opened RelayPool

  /** Every caller wants the relays of `want`, every check finds the client alive, every connect
      succeeds, and nobody resets the slot. */
  ghost predicate Calm(actions: seq<Action>, want: seq<string>) {
    forall i :: 0 <= i < |actions| ==> CalmAction(actions[i], want)
  }

  ghost predicate CalmAction(a: Action, want: seq<string>) {
    match a
    case Call(_, w) => multiset(w) == multiset(want)
    case CallReset(_) => false
    case Advance(_, live, reachable) => live && reachable
    case Cancel(_) => true
  }

  ghost predicate WantsOnly(pc: Pc, want: seq<string>) {
    && !pc.Resetting?
    && (pc.Reading? || pc.Checking? || pc.WaitingToWrite? || Writing(pc) ==> multiset(pc.want) == multiset(want))
  }

  function Connects(log: seq<Event>): nat {
    if log == [] then 0 else Connects(log[..|log| - 1]) + (if log[|log| - 1].Connected? then 1 else 0)
  }

  /** What stays true while all is calm: the slot is filled once, and everyone gets that client. */
  ghost predicate Settled(s: Sys, want: seq<string>) {
    && (forall t: nat {:trigger PcOf(s, t)} :: WantsOnly(PcOf(s, t), want))
    && (forall t: nat {:trigger PcOf(s, t)} :: PcOf(s, t).Connecting? ==> s.slot.None?)
    && (forall t: nat {:trigger PcOf(s, t)} :: PcOf(s, t).Checking? ==> s.slot == Some(PcOf(s, t).candidate))
    && Connects(s.log) == (if s.slot.Some? then 1 else 0)
    && (s.slot.Some? ==> multiset(s.slot.value.relays) == multiset(want))
    && (forall i :: 0 <= i < |s.log| && s.log[i].Returned? ==> s.slot == Some(s.log[i].client))
  }

  /** A step that only moves one caller. */
  lemma MoveStaysSettled(s: Sys, want: seq<string>, t: nat, r: Sys, pc: Pc)
    requires Settled(s, want) && r.slot == s.slot && r.log == s.log && r.pcs == s.pcs[t := pc]
    requires WantsOnly(pc, want) && (pc.Connecting? ==> s.slot.None?) && (pc.Checking? ==> s.slot == Some(pc.candidate))
    ensures Settled(r, want)
  {
    assert forall u: nat :: PcOf(r, u) == if u == t then pc else PcOf(s, u);
  }

  lemma ReturnStaysSettled(s: Sys, want: seq<string>, t: nat, wanted: seq<string>, c: Client)
    requires Settled(s, want) && s.slot == Some(c)
    ensures Settled(Leave(s, t, [Returned(wanted, c, true)]), want)
  {
    var r := Leave(s, t, [Returned(wanted, c, true)]);
    assert forall u: nat :: PcOf(r, u) == if u == t then Idle else PcOf(s, u);
    assert r.log[..|r.log| - 1] == s.log;
  }

  lemma ConnectStaysSettled(s: Sys, want: seq<string>, t: nat, c: Client, live: bool)
    requires Settled(s, want) && Guarded(s) && PcOf(s, t).Connecting? && multiset(c.relays) == multiset(want)
    ensures Settled(Leave(s.(slot := Some(c), made := s.made + 1), t, [Connected(c, None, live), Returned(c.relays, c, true)]), want)
  {
    var r := Leave(s.(slot := Some(c), made := s.made + 1), t, [Connected(c, None, live), Returned(c.relays, c, true)]);
    assert forall u: nat :: PcOf(r, u) == if u == t then Idle else PcOf(s, u);
    assert Writing(PcOf(s, t));
    assert forall u: nat :: u != t ==> !Writing(PcOf(s, u));
    assert r.log == (s.log + [Connected(c, None, live)]) + [Returned(c.relays, c, true)];
    assert r.log[..|r.log| - 1] == s.log + [Connected(c, None, live)];
    assert (s.log + [Connected(c, None, live)])[..|s.log|] == s.log;
    assert s.slot.None?;
    assert forall u: nat :: WantsOnly(PcOf(r, u), want);
    assert Connects(r.log) == 1;
    assert forall i :: 0 <= i < |r.log| && r.log[i].Returned? ==> r.slot == Some(r.log[i].client);
  }

  lemma CallStaysSettled(s: Sys, want: seq<string>, t: nat)
    requires Settled(s, want) && Guarded(s)
    ensures Settled(StepCall(s, t, true, true), want)
  {
    var pc, r := PcOf(s, t), StepCall(s, t, true, true);
    assert WantsOnly(pc, want);
    match pc
    case Checking(wanted, c) =>
      SameRelaySetIff(c.relays, wanted);
      ReturnStaysSettled(s, want, t, wanted, c);
    case Rechecking(wanted) =>
      if s.slot.Some? {
        SameRelaySetIff(s.slot.value.relays, wanted);
        ReturnStaysSettled(s, want, t, wanted, s.slot.value);
      } else {
        MoveStaysSettled(s, want, t, r, PcOf(r, t));
      }
    case Connecting(wanted, replaced, live) =>
      ConnectStaysSettled(s, want, t, Client(s.made, wanted), live);
    case Idle =>
    case _ =>
      if s.writer.None? { MoveStaysSettled(s, want, t, r, PcOf(r, t)); }
  }

  lemma StepStaysSettled(s: Sys, want: seq<string>, a: Action)
    requires Settled(s, want) && Guarded(s) && CalmAction(a, want)
    ensures Settled(Step(s, a), want)
  {
    match a
    case Call(t, w) => if PcOf(s, t).Idle? { MoveStaysSettled(s, want, t, Step(s, a), Reading(w)); }
    case Advance(t, _, _) => CallStaysSettled(s, want, t);
    case Cancel(t) =>
      assert s.log + [] == s.log;
      MoveStaysSettled(s, want, t, Step(s, a), Idle);
  }

  lemma {:induction false} CalmRunIsSettled(actions: seq<Action>, want: seq<string>)
    requires Calm(actions, want)
    ensures Settled(Run(actions), want)
  {
    if actions == [] {
      assert forall t: nat :: PcOf(Init(), t) == Idle;
    } else {
      var front := actions[..|actions| - 1];
      assert forall i :: 0 <= i < |front| ==> front[i] == actions[i];
      CalmRunIsSettled(front, want);
      RunIsGuarded(front);
      assert CalmAction(actions[|actions| - 1], want);
      StepStaysSettled(Run(front), want, actions[|actions| - 1]);
    }
  }

  /** However many callers race: one connect at most, exactly one once anybody has an answer, and
      all answers are that client. */
  lemma ConnectsOnce(actions: seq<Action>, want: seq<string>)
    requires Calm(actions, want)
    ensures var log := Run(actions).log;
            && Connects(log) <= 1
            && (forall i :: 0 <= i < |log| && log[i].Returned? ==> Connects(log) == 1)
            && (forall i, j :: 0 <= i < j < |log| && log[i].Returned? && log[j].Returned? ==> log[i].client == log[j].client)
  {
    CalmRunIsSettled(actions, want);
  }
}
