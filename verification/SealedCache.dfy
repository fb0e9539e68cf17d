/** The process-wide cache of sealed owner payloads, as any number of concurrent calls use it while
    the files it depends on are being edited. Looking at a file takes two calls: its stamp now, its
    content later. Building and sealing are pure, so a payload is what it was built from. */
module SealedCache {
  import opened Wrappers

  datatype FileId = Draft(dir: string, slug: string) | Settings(dir: string)

  /** `stamp` is the length and modification time, absent with the file or when it cannot be read;
      `content` is absent with the file. */
  datatype FileState = FileState(stamp: Option<nat>, content: Option<string>)

  datatype Edit = Edit(file: FileId, state: FileState)

  datatype Key = Key(dir: string, owner: string, slug: string)

  datatype Payload = Payload(key: Key, browseKey: string, draft: Option<string>, settings: Option<string>)

  datatype Marker = Marker(draft: Option<nat>, settings: Option<nat>)

  datatype Cached = Cached(browseKey: string, marker: Marker, payload: Payload)

  function DraftOf(key: Key): FileId {
    Draft(key.dir, key.slug)
  }

  function SettingsOf(key: Key): FileId {
    Settings(key.dir)
  }

  /** A file after the edits `hist`; nothing exists before the first. */
  function StateAfter(hist: seq<Edit>, file: FileId): FileState {
    if hist == [] then FileState(None, None)
    else if hist[|hist| - 1].file == file then hist[|hist| - 1].state
    else StateAfter(hist[..|hist| - 1], file)
  }

  function StateAt(hist: seq<Edit>, file: FileId, time: nat): FileState
    requires time <= |hist|
  {
    StateAfter(hist[..time], file)
  }

  /** A call, with the moments it took its stamps. */
  datatype Pc =
    | Idle
    | StatDraft(key: Key, browseKey: string)
    | StatSettings(key: Key, browseKey: string, stamp: Option<nat>, draftAt: nat)
    | Looking(key: Key, browseKey: string, marker: Marker, draftAt: nat, settingsAt: nat)
    | ReadDraft(key: Key, browseKey: string, marker: Marker, draftAt: nat, settingsAt: nat)
    | ReadSettings(key: Key, browseKey: string, marker: Marker, draftAt: nat, settingsAt: nat, draft: Option<string>)
    | Sealing(key: Key, browseKey: string, marker: Marker, draftAt: nat, settingsAt: nat, draft: Option<string>, settings: Option<string>)

  datatype Answer = Answer(key: Key, browseKey: string, payload: Payload, hit: bool, draftAt: nat, settingsAt: nat, endAt: nat)

  datatype Sys = Sys(hist: seq<Edit>, cache: map<Key, Cached>, pcs: map<nat, Pc>, answers: seq<Answer>)

  /** `ok` is false for a build or seal that fails. */
  datatype Action = Call(t: nat, key: Key, browseKey: string) | Advance(t: nat, ok: bool) | Change(edit: Edit)

  function PcOf(s: Sys, t: nat): Pc {
    if t in s.pcs then s.pcs[t] else Idle
  }

  function Goto(s: Sys, t: nat, pc: Pc): Sys {
    s.(pcs := s.pcs[t := pc])
  }

  function CacheGet(cache: map<Key, Cached>, key: Key, browseKey: string, marker: Marker): Option<Payload> {
    if key in cache && cache[key].browseKey == browseKey && cache[key].marker == marker then Some(cache[key].payload) else None
  }

  function StepCall(s: Sys, t: nat, ok: bool): Sys {
    var now := |s.hist|;
    match PcOf(s, t)
    case StatDraft(key, bk) => Goto(s, t, StatSettings(key, bk, StateAfter(s.hist, DraftOf(key)).stamp, now))
    case StatSettings(key, bk, draft, draftAt) =>
      Goto(s, t, Looking(key, bk, Marker(draft, StateAfter(s.hist, SettingsOf(key)).stamp), draftAt, now))
    case Looking(key, bk, marker, draftAt, settingsAt) =>
      var found := CacheGet(s.cache, key, bk, marker);
      if found.Some?
      then Goto(s.(answers := s.answers + [Answer(key, bk, found.value, true, draftAt, settingsAt, now)]), t, Idle)
      else Goto(s, t, ReadDraft(key, bk, marker, draftAt, settingsAt))
    case ReadDraft(key, bk, marker, draftAt, settingsAt) =>
      if !ok then Goto(s, t, Idle)
      else Goto(s, t, ReadSettings(key, bk, marker, draftAt, settingsAt, StateAfter(s.hist, DraftOf(key)).content))
    case ReadSettings(key, bk, marker, draftAt, settingsAt, draft) =>
      if !ok then Goto(s, t, Idle)
      else Goto(s, t, Sealing(key, bk, marker, draftAt, settingsAt, draft, StateAfter(s.hist, SettingsOf(key)).content))
    case Sealing(key, bk, marker, draftAt, settingsAt, draft, settings) =>
      if !ok then Goto(s, t, Idle)
      else
        var payload := Payload(key, bk, draft, settings);
        Goto(s.(cache := s.cache[key := Cached(bk, marker, payload)],
                answers := s.answers + [Answer(key, bk, payload, false, draftAt, settingsAt, now)]), t, Idle)
    case Idle => s
  }

  function Step(s: Sys, a: Action): Sys {
    match a
    case Call(t, key, bk) => if PcOf(s, t).Idle? then Goto(s, t, StatDraft(key, bk)) else s
    case Advance(t, ok) => StepCall(s, t, ok)
    case Change(edit) => s.(hist := s.hist + [edit])
  }

  function Init(): Sys {
    Sys([], map[], map[], [])
  }

  function Run(s: Sys, actions: seq<Action>): Sys {
    if actions == [] then s else Step(Run(s, actions[..|actions| - 1]), actions[|actions| - 1])
  }

  // ---------------------------------------------------------------------------------------------
  // What an answer is worth.

  /** `content` is what the file held at some moment from `from` to `till`. */
  ghost predicate HeldBetween(hist: seq<Edit>, file: FileId, from: nat, till: nat, content: Option<string>)
    requires till <= |hist|
  {
    exists time: nat :: from <= time <= till && StateAt(hist, file, time).content == content
  }

  /** The answer is for its caller's key, built from what each file held at some moment of the call. */
  ghost predicate Current(hist: seq<Edit>, a: Answer) {
    && a.endAt <= |hist| && a.payload.key == a.key && a.payload.browseKey == a.browseKey
    && HeldBetween(hist, DraftOf(a.key), a.draftAt, a.endAt, a.payload.draft)
    && HeldBetween(hist, SettingsOf(a.key), a.settingsAt, a.endAt, a.payload.settings)
  }

  ghost predicate AllCurrent(s: Sys) {
    forall i :: 0 <= i < |s.answers| ==> Current(s.hist, s.answers[i])
  }

  /** A file never comes back to a stamp it had before its content changed. Being absent is a stamp
      like any other. */
  ghost predicate NeverReturns(hist: seq<Edit>, file: FileId) {
    forall i: nat, j: nat, k: nat :: i <= j <= k <= |hist| && StateAt(hist, file, i).stamp == StateAt(hist, file, k).stamp ==>
      StateAt(hist, file, j).content == StateAt(hist, file, k).content
  }
}
