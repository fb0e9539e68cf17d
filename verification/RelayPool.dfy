/** The one relay client every command shares. It is connected on first use and again when it is
    dead or made for other relays; any number of callers may ask at once. */
module RelayPool {
  import opened Wrappers
  import opened RelaySets

  // ---------------------------------------------------------------------------------------------
  // The shared slot, one call at a time.

  /** A connected client and the relays it was made for. */
  datatype Client = Client(id: nat, relays: seq<string>)

  predicate Usable(slot: Option<Client>, want: seq<string>, live: bool) {
    slot.Some? && SameRelaySet(slot.value.relays, want) && live
  }

  /** A client may be handed out when it is for the wanted relays, in any order, and alive. */
  ghost predicate MayReturn(slot: Option<Client>, want: seq<string>, live: bool) {
    slot.Some? && multiset(slot.value.relays) == multiset(want) && live
  }

  class SharedRelay {
    var slot: Option<Client>
    var made: nat

    constructor ()
      ensures slot.None? && made == 0
    {
      slot, made := None, 0;
    }

    /** `live` is what the liveness check says, `reachable` whether a connect succeeds. */
    method GetOrConnect(want: seq<string>, live: bool, reachable: bool) returns (client: Option<Client>)
      modifies this
      ensures MayReturn(old(slot), want, live) ==> client == old(slot) && slot == old(slot) && made == old(made)
      ensures !MayReturn(old(slot), want, live) && reachable ==>
                client == Some(Client(old(made), want)) && slot == client && made == old(made) + 1
      ensures !MayReturn(old(slot), want, live) && !reachable ==> client.None? && slot == old(slot) && made == old(made)
    {
      if slot.Some? { SameRelaySetIff(slot.value.relays, want); }
      if slot.Some? && SameRelaySet(slot.value.relays, want) && live {
        return slot;
      }
      if !reachable {
        return None;
      }
      slot := Some(Client(made, want));
      made := made + 1;
      client := slot;
    }

    method Reset()
      modifies this`slot
      ensures slot.None?
    {
      slot := None;
    }
  }

  // ---------------------------------------------------------------------------------------------
  // Any number of callers.

  datatype Pc =
    | Idle
    | Reading(want: seq<string>)
    | Checking(want: seq<string>, candidate: Client)
    | WaitingToWrite(want: seq<string>)
    | Rechecking(want: seq<string>)
    | Connecting(want: seq<string>, replaced: Option<Client>, live: bool)
    | Resetting

  /** `live` is what the check that let a client through saw of it; a client just made is alive. */
  datatype Event =
    | Returned(want: seq<string>, client: Client, live: bool)
    | Connected(client: Client, replaced: Option<Client>, live: bool)
    | WasReset

  datatype Sys = Sys(slot: Option<Client>, writer: Option<nat>, pcs: map<nat, Pc>, made: nat, log: seq<Event>)

  datatype Action =
    | Call(t: nat, want: seq<string>)
    | CallReset(t: nat)
    | Advance(t: nat, live: bool, reachable: bool)
    | Cancel(t: nat)

  function PcOf(s: Sys, t: nat): Pc {
    if t in s.pcs then s.pcs[t] else Idle
  }

  function Goto(s: Sys, t: nat, pc: Pc): Sys {
    s.(pcs := s.pcs[t := pc])
  }

  function Leave(s: Sys, t: nat, events: seq<Event>): Sys {
    Goto(s.(writer := if s.writer == Some(t) then None else s.writer, log := s.log + events), t, Idle)
  }

  /** The read guard is held only while the slot is copied, so reading is one step; it waits for a
      writer. The write guard is held across the second check and the connect. */
  function StepCall(s: Sys, t: nat, live: bool, reachable: bool): Sys {
    match PcOf(s, t)
    case Reading(want) =>
      if s.writer.Some? then s
      else Goto(s, t, if s.slot.Some? then Checking(want, s.slot.value) else WaitingToWrite(want))
    case Checking(want, c) =>
      if Usable(Some(c), want, live) then Leave(s, t, [Returned(want, c, live)]) else Goto(s, t, WaitingToWrite(want))
    case WaitingToWrite(want) =>
      if s.writer.Some? then s else Goto(s.(writer := Some(t)), t, Rechecking(want))
    case Rechecking(want) =>
      if Usable(s.slot, want, live) then Leave(s, t, [Returned(want, s.slot.value, live)])
      else Goto(s, t, Connecting(want, s.slot, live))
    case Connecting(want, replaced, seen) =>
      if !reachable then Leave(s, t, [])
      else
        var c := Client(s.made, want);
        Leave(s.(slot := Some(c), made := s.made + 1), t, [Connected(c, replaced, seen), Returned(want, c, true)])
    case Resetting => if s.writer.Some? then s else Leave(s.(slot := None), t, [WasReset])
    case Idle => s
  }

  /** A caller that goes away gives its guard back. */
  function Step(s: Sys, a: Action): Sys {
    match a
    case Call(t, want) => if PcOf(s, t).Idle? then Goto(s, t, Reading(want)) else s
    case CallReset(t) => if PcOf(s, t).Idle? then Goto(s, t, Resetting) else s
    case Advance(t, live, reachable) => StepCall(s, t, live, reachable)
    case Cancel(t) => Leave(s, t, [])
  }

  function Init(): Sys {
    Sys(None, None, map[], 0, [])
  }

  function Run(actions: seq<Action>): Sys {
    if actions == [] then Init() else Step(Run(actions[..|actions| - 1]), actions[|actions| - 1])
  }

  predicate Writing(pc: Pc) {
    pc.Rechecking? || pc.Connecting?
  }

  ghost predicate Guarded(s: Sys) {
    && (forall t: nat {:trigger PcOf(s, t)} :: Writing(PcOf(s, t)) <==> s.writer == Some(t))
    && (forall t: nat {:trigger PcOf(s, t)} :: PcOf(s, t).Connecting? ==>
          PcOf(s, t).replaced == s.slot && !Usable(s.slot, PcOf(s, t).want, PcOf(s, t).live))
  }

  /** A client handed out is for the wanted relays and was not seen dead. A connect took the place of nothing, of a client seen dead, or of one for other relays. */
  ghost predicate Justified(e: Event) {
    match e
    case Returned(want, client, live) => multiset(client.relays) == multiset(want) && live
    case Connected(client, replaced, live) => replaced.None? || !live || multiset(replaced.value.relays) != multiset(client.relays)
    case WasReset => true
  }

  ghost predicate AllJustified(log: seq<Event>) {
    forall i :: 0 <= i < |log| ==> Justified(log[i])
  }

  lemma StepIsGuarded(s: Sys, a: Action)
    requires Guarded(s)
    ensures Guarded(Step(s, a))
  {
    var r := Step(s, a);
    var t := a.t;
    assert forall u: nat :: u != t ==> PcOf(r, u) == PcOf(s, u);
    assert Writing(PcOf(s, t)) <==> s.writer == Some(t);
  }

  lemma StepIsJustified(s: Sys, a: Action)
    requires Guarded(s) && AllJustified(s.log)
    ensures AllJustified(Step(s, a).log)
  {
    if a.Advance? {
      var pc := PcOf(s, a.t);
      match pc
      case Checking(want, c) => SameRelaySetIff(c.relays, want);
      case Rechecking(want) => if s.slot.Some? { SameRelaySetIff(s.slot.value.relays, want); }
      case Connecting(want, replaced, live) => if replaced.Some? { SameRelaySetIff(replaced.value.relays, want); }
      case _ =>
    }
  }

  lemma {:induction false} RunIsGuarded(actions: seq<Action>)
    ensures Guarded(Run(actions)) && AllJustified(Run(actions).log)
  {
    if actions != [] {
      RunIsGuarded(actions[..|actions| - 1]);
      StepIsGuarded(Run(actions[..|actions| - 1]), actions[|actions| - 1]);
      StepIsJustified(Run(actions[..|actions| - 1]), actions[|actions| - 1]);
    }
  }

  /** Whatever callers do, and whenever they give up: at most one connect is in flight, and while it
      is, the slot still holds what made it necessary. */
  lemma OneConnectAtATime(actions: seq<Action>, t: nat, u: nat)
    requires PcOf(Run(actions), t).Connecting? && PcOf(Run(actions), u).Connecting?
    ensures t == u && PcOf(Run(actions), t).replaced == Run(actions).slot
  {
    RunIsGuarded(actions);
  }

  /** Every client handed out is for the relays its caller wanted, in some order, and was seen alive,
      and every connect was needed. */
  lemma EveryEventIsJustified(actions: seq<Action>)
    ensures AllJustified(Run(actions).log)
  {
    RunIsGuarded(actions);
  }

  /** Nobody waits for ever on the lock alone: while a call is under way, some call can move. */
  lemma SomeCallCanMove(actions: seq<Action>, t: nat)
    requires !PcOf(Run(actions), t).Idle?
    ensures exists u: nat :: !PcOf(Run(actions), u).Idle? && PcOf(Step(Run(actions), Advance(u, true, true)), u) != PcOf(Run(actions), u)
  {
    RunIsGuarded(actions);
    var s := Run(actions);
    var u := if s.writer.Some? then s.writer.value else t;
    assert Writing(PcOf(s, u)) <==> s.writer == Some(u);
    assert PcOf(Step(s, Advance(u, true, true)), u) != PcOf(s, u);
  }
}
