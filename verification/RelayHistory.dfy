/** The shared slot, read off the log: what it holds is the last client connected since the last reset,
    and only clients that were connected are ever handed out. */
module RelayHistory {
  import opened Wrappers
  import opened RelaySets
  import opened RelayPool

  ghost function SlotTold(log: seq<Event>): Option<Client> {
    if log == [] then None
    else
      match log[|log| - 1]
      case Connected(client, _, _) => Some(client)
      case WasReset => None
      case Returned(_, _, _) => SlotTold(log[..|log| - 1])
  }

  ghost predicate WasConnected(log: seq<Event>, client: Client) {
    exists i :: 0 <= i < |log| && log[i].Connected? && log[i].client == client
  }

  /** A connect replaces what the slot held, with a client like none before; a client handed out was
      connected before. */
  ghost predicate Follows(e: Event, before: seq<Event>) {
    match e
    case Connected(client, replaced, _) =>
      replaced == SlotTold(before) && forall i :: 0 <= i < |before| && before[i].Connected? ==> before[i].client.id != client.id
    case Returned(_, client, _) => WasConnected(before, client)
    case WasReset => true
  }

  ghost predicate EachFollows(log: seq<Event>) {
    forall i :: 0 <= i < |log| ==> Follows(log[i], log[..i])
  }

  ghost predicate Numbered(log: seq<Event>, made: nat) {
    forall i :: 0 <= i < |log| && log[i].Connected? ==> log[i].client.id < made
  }

  ghost predicate Told(s: Sys) {
    && s.slot == SlotTold(s.log) && Numbered(s.log, s.made) && EachFollows(s.log)
    && (s.slot.Some? ==> WasConnected(s.log, s.slot.value))
    && forall t: nat {:trigger PcOf(s, t)} :: PcOf(s, t).Checking? ==> WasConnected(s.log, PcOf(s, t).candidate)
  }

  lemma ConnectedStays(log: seq<Event>, e: Event, client: Client)
    requires WasConnected(log, client)
    ensures WasConnected(log + [e], client)
  {
    var i :| 0 <= i < |log| && log[i].Connected? && log[i].client == client;
    assert (log + [e])[i] == log[i];
  }

  lemma FollowsMore(log: seq<Event>, e: Event)
    requires EachFollows(log) && Follows(e, log)
    ensures EachFollows(log + [e])
  {
    hide Follows;
    forall i | 0 <= i < |log + [e]| ensures Follows((log + [e])[i], (log + [e])[..i]) {
      if i < |log| {
        assert (log + [e])[..i] == log[..i];
        assert Follows(log[i], log[..i]);
      } else {
        assert (log + [e])[..i] == log;
      }
    }
  }

  /** A step that only moves one caller. */
  lemma MoveIsTold(s: Sys, r: Sys, t: nat, pc: Pc)
    requires Told(s) && r.slot == s.slot && r.log == s.log && r.made == s.made && r.pcs == s.pcs[t := pc]
    requires pc.Checking? ==> WasConnected(s.log, pc.candidate)
    ensures Told(r)
  {
    assert forall u: nat :: PcOf(r, u) == if u == t then pc else PcOf(s, u);
  }

  /** A step that logs one event and ends the call. */
  lemma EventIsTold(s: Sys, r: Sys, t: nat, e: Event)
    requires Told(s) && Follows(e, s.log) && r.log == s.log + [e] && r.pcs == s.pcs[t := Idle]
    requires r.slot == SlotTold(r.log) && s.made <= r.made && (e.Connected? ==> e.client.id < r.made)
    requires r.slot.Some? ==> r.slot == s.slot || (e.Connected? && r.slot == Some(e.client))
    ensures Told(r)
  {
    hide Follows;
    FollowsMore(s.log, e);
    forall c: Client | WasConnected(s.log, c) ensures WasConnected(r.log, c) {
      ConnectedStays(s.log, e, c);
    }
    if e.Connected? { assert r.log[|s.log|] == e; }
    assert forall u: nat :: PcOf(r, u) == if u == t then Idle else PcOf(s, u);
  }

  lemma ToldAfter(log: seq<Event>, e: Event)
    ensures SlotTold(log + [e]) == match e
                                   case Connected(client, _, _) => Some(client)
                                   case WasReset => None
                                   case Returned(_, _, _) => SlotTold(log)
  {
    assert (log + [e])[..|log|] == log;
  }

  lemma ReturnIsTold(s: Sys, t: nat, want: seq<string>, c: Client, live: bool)
    requires Told(s) && WasConnected(s.log, c)
    ensures Told(Leave(s, t, [Returned(want, c, live)]))
  {
    ToldAfter(s.log, Returned(want, c, live));
    EventIsTold(s, Leave(s, t, [Returned(want, c, live)]), t, Returned(want, c, live));
  }

  lemma ConnectIsTold(s: Sys, t: nat, want: seq<string>, live: bool)
    requires Told(s)
    ensures var c := Client(s.made, want);
            Told(Leave(s.(slot := Some(c), made := s.made + 1), t, [Connected(c, s.slot, live), Returned(want, c, true)]))
  {
    var c := Client(s.made, want);
    var e, filled := Connected(c, s.slot, live), s.(slot := Some(c), made := s.made + 1);
    var mid := Leave(filled, t, [e]);
    ToldAfter(s.log, e);
    EventIsTold(s, mid, t, e);
    var r := Leave(filled, t, [e, Returned(want, c, true)]);
    assert r.log == mid.log + [Returned(want, c, true)];
    ToldAfter(mid.log, Returned(want, c, true));
    assert mid.log[|s.log|] == e;
    EventIsTold(mid, r, t, Returned(want, c, true));
  }

  lemma CallIsTold(s: Sys, t: nat, live: bool, reachable: bool)
    requires Told(s) && Guarded(s)
    ensures Told(StepCall(s, t, live, reachable))
  {
    hide Told;
    var pc, r := PcOf(s, t), StepCall(s, t, live, reachable);
    ToldSlot(s, t);
    match pc
    case Reading(want) => if s.writer.None? { MoveIsTold(s, r, t, PcOf(r, t)); }
    case Checking(want, c) => if Usable(Some(c), want, live) { ReturnIsTold(s, t, want, c, live); } else { MoveIsTold(s, r, t, PcOf(r, t)); }
    case WaitingToWrite(want) => if s.writer.None? { MoveIsTold(s, r, t, PcOf(r, t)); }
    case Rechecking(want) =>
      if Usable(s.slot, want, live) { ReturnIsTold(s, t, want, s.slot.value, live); } else { MoveIsTold(s, r, t, PcOf(r, t)); }
    case Connecting(want, replaced, seen) =>
      if reachable { ConnectIsTold(s, t, want, seen); } else { NothingIsTold(s, t); }
    case Resetting => if s.writer.None? { ResetIsTold(s, t); }
    case Idle =>
  }

  lemma ToldSlot(s: Sys, t: nat)
    requires Told(s)
    ensures s.slot.Some? ==> WasConnected(s.log, s.slot.value)
    ensures PcOf(s, t).Checking? ==> WasConnected(s.log, PcOf(s, t).candidate)
  {
  }

  lemma NothingIsTold(s: Sys, t: nat)
    requires Told(s)
    ensures Told(Leave(s, t, []))
  {
    assert s.log + [] == s.log;
    MoveIsTold(s, Leave(s, t, []), t, Idle);
  }

  lemma ResetIsTold(s: Sys, t: nat)
    requires Told(s)
    ensures Told(Leave(s.(slot := None), t, [WasReset]))
  {
    ToldAfter(s.log, WasReset);
    EventIsTold(s, Leave(s.(slot := None), t, [WasReset]), t, WasReset);
  }

  lemma {:induction false} RunIsTold(actions: seq<Action>)
    ensures Told(Run(actions))
  {
    hide StepCall, Leave;
    if actions == [] {
      InitIsTold();
    } else {
      var s, a := Run(actions[..|actions| - 1]), actions[|actions| - 1];
      RunIsTold(actions[..|actions| - 1]);
      RunIsGuarded(actions[..|actions| - 1]);
      match a
      case Call(t, want) => if PcOf(s, t).Idle? { MoveIsTold(s, Step(s, a), t, Reading(want)); }
      case CallReset(t) => if PcOf(s, t).Idle? { MoveIsTold(s, Step(s, a), t, Resetting); }
      case Advance(t, live, reachable) => CallIsTold(s, t, live, reachable);
      case Cancel(t) => NothingIsTold(s, t);
    }
  }

  lemma InitIsTold()
    ensures Told(Init())
  {
    assert forall t: nat :: PcOf(Init(), t) == Idle;
  }

  /** Whatever callers do: the slot holds the client connected last unless it was reset since, no two
      connects make the same client, and every client handed out was connected before. */
  lemma SlotIsTold(actions: seq<Action>)
    ensures Run(actions).slot == SlotTold(Run(actions).log) && EachFollows(Run(actions).log)
  {
    RunIsTold(actions);
  }

  // ---------------------------------------------------------------------------------------------
  // A call by itself.

  function CallRun(s: Sys, t: nat, want: seq<string>, live: bool, reachable: bool, n: nat): Sys {
    if n == 0 then Step(s, Call(t, want)) else Step(CallRun(s, t, want, live, reachable, n - 1), Advance(t, live, reachable))
  }

  lemma FiveSteps(s: Sys, t: nat, want: seq<string>, live: bool, reachable: bool)
    ensures var a := Advance(t, live, reachable);
            CallRun(s, t, want, live, reachable, 5) == Step(Step(Step(Step(Step(Step(s, Call(t, want)), a), a), a), a), a)
  {
    hide Step;
    var a := Advance(t, live, reachable);
    var first := Step(s, Call(t, want));
    assert CallRun(s, t, want, live, reachable, 1) == Step(first, a);
    assert CallRun(s, t, want, live, reachable, 3) == Step(Step(Step(first, a), a), a);
  }

  lemma LoneHit(s: Sys, t: nat, want: seq<string>, live: bool, reachable: bool)
    requires PcOf(s, t).Idle? && s.writer.None? && MayReturn(s.slot, want, live)
    ensures var r := CallRun(s, t, want, live, reachable, 5);
            PcOf(r, t).Idle? && r.writer.None? && r.slot == s.slot && r.log == s.log + [Returned(want, s.slot.value, live)]
  {
    hide SameRelaySet;
    SameRelaySetIff(s.slot.value.relays, want);
    FiveSteps(s, t, want, live, reachable);
    var a := Advance(t, live, reachable);
    var checking := Step(Step(s, Call(t, want)), a);
    assert PcOf(checking, t) == Checking(want, s.slot.value);
    IdleStays(Step(checking, a), t, live, reachable);
  }

  /** The call has the write guard and is about to look again. */
  lemma LoneWrite(s: Sys, t: nat, want: seq<string>, live: bool, reachable: bool)
    requires PcOf(s, t) == WaitingToWrite(want) && s.writer.None? && !MayReturn(s.slot, want, live)
    ensures var a := Advance(t, live, reachable);
            var r := Step(Step(Step(s, a), a), a);
            && PcOf(r, t).Idle? && r.writer.None?
            && (if !reachable then r.log == s.log && r.slot == s.slot
                else var c := Client(s.made, want);
                     r.slot == Some(c) && r.log == s.log + [Connected(c, s.slot, live), Returned(want, c, true)])
  {
    hide SameRelaySet;
    if s.slot.Some? { SameRelaySetIff(s.slot.value.relays, want); }
    var a := Advance(t, live, reachable);
    var looking := Step(s, a);
    assert PcOf(looking, t) == Rechecking(want);
    assert PcOf(Step(looking, a), t) == Connecting(want, s.slot, live);
    assert s.log + [] == s.log;
  }

  /** A call nobody interrupts hands out the slot's client if it may, and else connects. */
  lemma LoneCall(s: Sys, t: nat, want: seq<string>, live: bool, reachable: bool)
    requires PcOf(s, t).Idle? && s.writer.None?
    ensures var r := CallRun(s, t, want, live, reachable, 5);
            && PcOf(r, t).Idle? && r.writer.None?
            && (if MayReturn(s.slot, want, live) then r.log == s.log + [Returned(want, s.slot.value, live)] && r.slot == s.slot
                else if !reachable then r.log == s.log && r.slot == s.slot
                else var c := Client(s.made, want);
                     r.slot == Some(c) && r.log == s.log + [Connected(c, s.slot, live), Returned(want, c, true)])
  {
    hide SameRelaySet;
    if MayReturn(s.slot, want, live) {
      LoneHit(s, t, want, live, reachable);
    } else {
      FiveSteps(s, t, want, live, reachable);
      var a := Advance(t, live, reachable);
      var reading := Step(s, Call(t, want));
      assert PcOf(reading, t) == Reading(want);
      var next := Step(reading, a);
      if s.slot.Some? {
        SameRelaySetIff(s.slot.value.relays, want);
        assert PcOf(next, t) == Checking(want, s.slot.value);
        LoneWrite(Step(next, a), t, want, live, reachable);
      } else {
        LoneWrite(next, t, want, live, reachable);
        IdleStays(Step(Step(Step(next, a), a), a), t, live, reachable);
      }
    }
  }

  lemma IdleStays(s: Sys, t: nat, live: bool, reachable: bool)
    requires PcOf(s, t).Idle?
    ensures Step(s, Advance(t, live, reachable)) == s
  {
  }
}
