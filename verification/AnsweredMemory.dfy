/** The loop's memory of answered asks and its count of failed attempts. Both are keyed by text a
    stranger chooses, so both clear themselves when they grow past a bound. */
module AnsweredMemory {
  import opened Wrappers

  const SEEN_REQUESTS_MAX: nat := 4096
  const SERVE_ATTEMPTS_MAX: nat := 36
  const SERVE_ATTEMPT_KEYS_MAX: nat := 1024

  datatype ServeOutcome = Served | Failed

  datatype Memory = Memory(seen: set<string>, attempts: map<string, nat>)

  /** What one outcome did to the memory. */
  datatype Applied = Applied(mem: Memory, remembered: bool, seenCleared: bool, attemptsCleared: bool)

  function Remembering(seen: set<string>, key: string, max: nat): set<string> {
    if |seen + {key}| > max then {} else seen + {key}
  }

  predicate Overflows(seen: set<string>, key: string, max: nat) {
    |seen + {key}| > max
  }

  function Counted(attempts: map<string, nat>, key: string): map<string, nat> {
    attempts[key := (if key in attempts then attempts[key] else 0) + 1]
  }

  function ApplyOutcome(m: Memory, key: string, outcome: ServeOutcome): Applied {
    match outcome
    case Served =>
      Applied(Memory(Remembering(m.seen, key, SEEN_REQUESTS_MAX), m.attempts - {key}), true,
              Overflows(m.seen, key, SEEN_REQUESTS_MAX), false)
    case Failed =>
      var counted := Counted(m.attempts, key);
      var full := |counted| > SERVE_ATTEMPT_KEYS_MAX;
      var attempts := if full then map[] else counted;
      if counted[key] >= SERVE_ATTEMPTS_MAX then
        Applied(Memory(Remembering(m.seen, key, SEEN_REQUESTS_MAX), attempts - {key}), true,
                Overflows(m.seen, key, SEEN_REQUESTS_MAX), full)
      else
        Applied(Memory(m.seen, attempts), false, false, full)
  }

  /** The bounds every outcome keeps, whatever the memory started with. */
  ghost predicate Bounded(m: Memory, loaded: set<string>) {
    && (|m.seen| <= SEEN_REQUESTS_MAX || m.seen == loaded)
    && |m.attempts| <= SERVE_ATTEMPT_KEYS_MAX
    && (forall k :: k in m.attempts ==> 1 <= m.attempts[k] < SERVE_ATTEMPTS_MAX)
  }

  lemma RemoveShrinks(m: map<string, nat>, key: string)
    ensures |m - {key}| <= |m|
  {
    assert (m - {key}).Keys <= m.Keys;
    SubsetSize((m - {key}).Keys, m.Keys);
  }

  lemma ApplyKeepsBounds(m: Memory, loaded: set<string>, key: string, outcome: ServeOutcome)
    requires Bounded(m, loaded)
    ensures Bounded(ApplyOutcome(m, key, outcome).mem, loaded)
  {
    if outcome.Served? {
      RemoveShrinks(m.attempts, key);
    } else {
      var counted := Counted(m.attempts, key);
      RemoveShrinks(if |counted| > SERVE_ATTEMPT_KEYS_MAX then map[] else counted, key);
    }
  }

  /** A success erases the ask's count and remembers it, unless remembering it overflowed. */
  lemma ServedForgetsCount(m: Memory, key: string)
    ensures var a := ApplyOutcome(m, key, Served);
            a.remembered && key !in a.mem.attempts && (a.seenCleared || key in a.mem.seen)
  {
  }

  /** The memory can clear away the very key it is asked to remember. */
  lemma RememberingMayForget(seen: set<string>, key: string, max: nat)
    ensures key !in Remembering(seen, key, max) <==> Overflows(seen, key, max)
  {
  }

  /** `remember_answered` on a set the caller holds. */
  method RememberAnswered(seen: set<string>, key: string, max: nat) returns (after: set<string>, isNew: bool)
    ensures isNew <==> key !in seen
    ensures after == Remembering(seen, key, max)
  {
    isNew := key !in seen;
    after := seen + {key};
    if |after| > max {
      after := {};
    }
  }
}
