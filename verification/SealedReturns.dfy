/** Why a returning stamp matters: a file that is edited and comes back to an earlier stamp, as one
    that is created and deleted again does, can leave the middle version cached under that stamp. */
module SealedReturns {
  import opened Wrappers
  import opened SealedCache
  import opened SealedCurrent

  function EditsOf(actions: seq<Action>): seq<Edit> {
    if actions == [] then []
    else EditsOf(actions[..|actions| - 1]) + (if actions[|actions| - 1].Change? then [actions[|actions| - 1].edit] else [])
  }

  lemma {:induction false} RunHistory(actions: seq<Action>)
    ensures Run(Init(), actions).hist == EditsOf(actions)
  {
    if actions != [] {
      RunHistory(actions[..|actions| - 1]);
    }
  }

  function Edits(script: seq<Edit>): seq<Action> {
    if script == [] then [] else Edits(script[..|script| - 1]) + [Change(script[|script| - 1])]
  }

  lemma {:induction false} RunAppend(s: Sys, xs: seq<Action>, ys: seq<Action>)
    ensures Run(s, xs + ys) == Run(Run(s, xs), ys)
  {
    if ys == [] {
      assert xs + ys == xs;
    } else {
      RunAppend(s, xs, ys[..|ys| - 1]);
      assert (xs + ys)[..|xs + ys| - 1] == xs + ys[..|ys| - 1];
    }
  }

  lemma RunMore(s: Sys, xs: seq<Action>, a: Action)
    ensures Run(s, xs + [a]) == Step(Run(s, xs), a)
  {
    assert (xs + [a])[..|xs|] == xs;
  }

  lemma {:induction false} EditsRun(s: Sys, script: seq<Edit>)
    ensures Run(s, Edits(script)) == s.(hist := s.hist + script)
  {
    if script == [] {
      assert s.hist + script == s.hist;
    } else {
      EditsRun(s, script[..|script| - 1]);
      RunMore(s, Edits(script[..|script| - 1]), Change(script[|script| - 1]));
      assert s.hist + script == s.hist + script[..|script| - 1] + [script[|script| - 1]];
    }
  }

  lemma HistoryIs(actions: seq<Action>, script: seq<Edit>)
    requires EditsOf(actions) == script
    ensures Run(Init(), actions).hist == script
  {
    RunHistory(actions);
  }

  // ---------------------------------------------------------------------------------------------
  // Building a race. Each lemma continues a run and says what it did to it.

  /** Only caller `t` moved, to `pc`; the files, the cache and the answers are as they were. */
  ghost predicate Moved(s: Sys, r: Sys, t: nat, pc: Pc) {
    && r.hist == s.hist && r.cache == s.cache && r.answers == s.answers
    && PcOf(r, t) == pc && forall u: nat :: u != t ==> PcOf(r, u) == PcOf(s, u)
  }

  lemma Editing(actions: seq<Action>, more: seq<Edit>) returns (r: seq<Action>)
    ensures var s, after := Run(Init(), actions), Run(Init(), r);
            after == s.(hist := s.hist + more)
  {
    r := actions + Edits(more);
    RunAppend(Init(), actions, Edits(more));
    EditsRun(Run(Init(), actions), more);
  }

  lemma Statting(actions: seq<Action>, t: nat, key: Key) returns (r: seq<Action>)
    requires PcOf(Run(Init(), actions), t).Idle?
    ensures var s := Run(Init(), actions);
            Moved(s, Run(Init(), r), t, StatSettings(key, "", StateAfter(s.hist, DraftOf(key)).stamp, |s.hist|))
  {
    r := actions + [Call(t, key, "")] + [Advance(t, true)];
    RunMore(Init(), actions, Call(t, key, ""));
    RunMore(Init(), actions + [Call(t, key, "")], Advance(t, true));
  }

  function MarkerNow(hist: seq<Edit>, key: Key, draft: Option<nat>): Marker {
    Marker(draft, StateAfter(hist, SettingsOf(key)).stamp)
  }

  lemma Missing(actions: seq<Action>, t: nat, key: Key, draft: Option<nat>, draftAt: nat) returns (r: seq<Action>)
    requires PcOf(Run(Init(), actions), t) == StatSettings(key, "", draft, draftAt) && Run(Init(), actions).cache == map[]
    ensures var s := Run(Init(), actions);
            Moved(s, Run(Init(), r), t, ReadDraft(key, "", MarkerNow(s.hist, key, draft), draftAt, |s.hist|))
  {
    r := actions + [Advance(t, true)] + [Advance(t, true)];
    RunMore(Init(), actions, Advance(t, true));
    RunMore(Init(), actions + [Advance(t, true)], Advance(t, true));
  }

  lemma Building(actions: seq<Action>, t: nat, key: Key, marker: Marker, draftAt: nat, settingsAt: nat) returns (r: seq<Action>)
    requires PcOf(Run(Init(), actions), t) == ReadDraft(key, "", marker, draftAt, settingsAt) && Run(Init(), actions).cache == map[]
    ensures var s, after := Run(Init(), actions), Run(Init(), r);
            && after.hist == s.hist && |after.answers| == |s.answers| + 1
            && (forall u: nat :: u != t ==> PcOf(after, u) == PcOf(s, u))
            && after.cache == map[key := Cached("", marker, ContentNow(s.hist, key))]
  {
    r := actions + [Advance(t, true)] + [Advance(t, true)] + [Advance(t, true)];
    RunMore(Init(), actions, Advance(t, true));
    RunMore(Init(), actions + [Advance(t, true)], Advance(t, true));
    RunMore(Init(), actions + [Advance(t, true)] + [Advance(t, true)], Advance(t, true));
  }

  lemma Hitting(actions: seq<Action>, t: nat, key: Key, draft: Option<nat>, draftAt: nat, payload: Payload) returns (r: seq<Action>)
    requires PcOf(Run(Init(), actions), t) == StatSettings(key, "", draft, draftAt)
    requires var s := Run(Init(), actions); s.cache == map[key := Cached("", MarkerNow(s.hist, key, draft), payload)]
    ensures var s, after := Run(Init(), actions), Run(Init(), r);
            && after.hist == s.hist
            && after.answers == s.answers + [Answer(key, "", payload, true, draftAt, |s.hist|, |s.hist|)]
  {
    r := actions + [Advance(t, true)] + [Advance(t, true)];
    RunMore(Init(), actions, Advance(t, true));
    RunMore(Init(), actions + [Advance(t, true)], Advance(t, true));
  }

  function ContentNow(hist: seq<Edit>, key: Key): Payload {
    Payload(key, "", StateAfter(hist, DraftOf(key)).content, StateAfter(hist, SettingsOf(key)).content)
  }

  lemma Continued(script: seq<Edit>, i: nat, j: nat)
    requires i <= j <= |script|
    ensures script[..i] + script[i..j] == script[..j]
  {
  }

  lemma Opening(script: seq<Edit>, n: nat) returns (r: seq<Action>)
    requires n <= |script|
    ensures var s := Run(Init(), r);
            s.hist == script[..n] && s.cache == map[] && s.answers == [] && PcOf(s, 0).Idle? && PcOf(s, 1).Idle?
  {
    r := Editing([], script[..n]);
    assert [] + script[..n] == script[..n];
  }

  /** Caller 0 stats at `a` and `b` and builds at `c`; caller 1 stats at `a2` and `b2`, and hits. */
  lemma LateRace(script: seq<Edit>, key: Key, a: nat, b: nat, c: nat, a2: nat, b2: nat) returns (r: seq<Action>)
    requires a <= b <= c <= a2 <= b2 <= |script|
    requires StateAt(script, DraftOf(key), a).stamp == StateAt(script, DraftOf(key), a2).stamp
    requires StateAt(script, SettingsOf(key), b).stamp == StateAt(script, SettingsOf(key), b2).stamp
    ensures var s := Run(Init(), r);
            && s.hist == script[..b2] && |s.answers| == 2
            && s.answers[1] == Answer(key, "", ContentNow(script[..c], key), true, a2, b2, b2)
  {
    hide Run, StateAfter, ContentNow;
    var draft := StateAt(script, DraftOf(key), a).stamp;
    r := Opening(script, a);
    r := Statting(r, 0, key);
    assert PcOf(Run(Init(), r), 1).Idle?;
    r := Editing(r, script[a..b]);
    Continued(script, a, b);
    r := Missing(r, 0, key, draft, a);
    assert PcOf(Run(Init(), r), 1).Idle?;
    r := Editing(r, script[b..c]);
    Continued(script, b, c);
    r := Building(r, 0, key, MarkerNow(script[..b], key, draft), a, b);
    assert PcOf(Run(Init(), r), 1).Idle?;
    r := Editing(r, script[c..a2]);
    Continued(script, c, a2);
    r := Statting(r, 1, key);
    r := Editing(r, script[a2..b2]);
    Continued(script, a2, b2);
    r := Hitting(r, 1, key, draft, a2, ContentNow(script[..c], key));
  }

  /** Both callers stat the draft at `b`; caller 0 stats the settings there and builds at `d`, caller 1
      stats them at `b2`, and hits. */
  lemma EarlyRace(script: seq<Edit>, key: Key, b: nat, d: nat, b2: nat) returns (r: seq<Action>)
    requires b <= d <= b2 <= |script|
    requires StateAt(script, SettingsOf(key), b).stamp == StateAt(script, SettingsOf(key), b2).stamp
    ensures var s := Run(Init(), r);
            && s.hist == script[..b2] && |s.answers| == 2
            && s.answers[1] == Answer(key, "", ContentNow(script[..d], key), true, b, b2, b2)
  {
    hide Run, StateAfter, ContentNow;
    var draft := StateAt(script, DraftOf(key), b).stamp;
    r := Opening(script, b);
    r := Statting(r, 0, key);
    r := Statting(r, 1, key);
    r := Missing(r, 0, key, draft, b);
    r := Editing(r, script[b..d]);
    Continued(script, b, d);
    r := Building(r, 0, key, MarkerNow(script[..b], key, draft), b, b);
    assert PcOf(Run(Init(), r), 1) == StatSettings(key, "", draft, b);
    r := Editing(r, script[d..b2]);
    Continued(script, d, b2);
    r := Hitting(r, 1, key, draft, b, ContentNow(script[..d], key));
  }

  // ---------------------------------------------------------------------------------------------
  // The condition.

  ghost predicate Scripted(actions: seq<Action>, script: seq<Edit>) {
    EditsOf(actions) == script
  }

  /** In every interleaving with these edits, every answer for `key` is current. */
  ghost predicate AlwaysCurrent(script: seq<Edit>, key: Key) {
    forall actions: seq<Action> :: Scripted(actions, script) ==> CurrentFor(Run(Init(), actions), key)
  }

  lemma StaleAnswer(script: seq<Edit>, key: Key, actions: seq<Action>, n: nat, x: Answer)
    requires n <= |script| && Run(Init(), actions).hist == script[..n]
    requires |Run(Init(), actions).answers| == 2 && Run(Init(), actions).answers[1] == x && x.key == key
    requires !Current(script, x)
    ensures !AlwaysCurrent(script, key)
  {
    var all := Editing(actions, script[n..]);
    assert script[..n] + script[n..] == script;
    RunHistory(all);
    assert Scripted(all, script);
    assert Run(Init(), all).answers[1] == x;
  }

  lemma ReturningDraftIsServed(script: seq<Edit>, key: Key)
    requires !DraftStays(script, key)
    ensures !AlwaysCurrent(script, key)
  {
    var a: nat, b: nat, c: nat, a2: nat, b2: nat :| DraftReturns(script, key, a, b, c, a2, b2);
    var actions := LateRace(script, key, a, b, c, a2, b2);
    StaleAnswer(script, key, actions, b2, Answer(key, "", ContentNow(script[..c], key), true, a2, b2, b2));
  }

  lemma SettingsAreGone(script: seq<Edit>, key: Key, d: nat, b: nat, b2: nat)
    requires b <= b2 <= |script| && d <= b2 && StateAt(script, SettingsOf(key), d).content != StateAt(script, SettingsOf(key), b2).content
    ensures !Current(script, Answer(key, "", ContentNow(script[..d], key), true, b, b2, b2))
  {
    hide StateAfter;
  }

  lemma ReturningSettingsAreServed(script: seq<Edit>, key: Key)
    requires !NeverReturns(script, SettingsOf(key))
    ensures !AlwaysCurrent(script, key)
  {
    hide Run, StateAfter, Current, AlwaysCurrent, ContentNow;
    var file := SettingsOf(key);
    var b: nat, d: nat, b2: nat :| b <= d <= b2 <= |script| && StateAt(script, file, b).stamp == StateAt(script, file, b2).stamp
                                   && StateAt(script, file, d).content != StateAt(script, file, b2).content;
    var actions := EarlyRace(script, key, b, d, b2);
    SettingsAreGone(script, key, d, b, b2);
    StaleAnswer(script, key, actions, b2, Answer(key, "", ContentNow(script[..d], key), true, b, b2, b2));
  }

  /** Whatever is edited, every answer for a collection is current in every interleaving exactly when
      the settings never come back to a stamp they left, and no two calls can take the same pair of
      stamps with a draft between them that the later call does not see. */
  lemma CurrentIff(script: seq<Edit>, key: Key)
    ensures NeverReturns(script, SettingsOf(key)) && DraftStays(script, key) <==> AlwaysCurrent(script, key)
  {
    if NeverReturns(script, SettingsOf(key)) && DraftStays(script, key) {
      forall actions: seq<Action> | Scripted(actions, script) ensures CurrentFor(Run(Init(), actions), key) {
        HistoryIs(actions, script);
        AnswersAreCurrent(actions, key);
      }
    } else if !DraftStays(script, key) {
      ReturningDraftIsServed(script, key);
    } else {
      ReturningSettingsAreServed(script, key);
    }
  }

  lemma {:induction false} UntouchedFile(script: seq<Edit>, file: FileId)
    requires forall e :: e in script ==> e.file != file
    ensures StateAfter(script, file) == FileState(None, None)
  {
    if script != [] {
      UntouchedFile(script[..|script| - 1], file);
    }
  }

  lemma DraftAloneReturns(script: seq<Edit>, key: Key)
    requires !NeverReturns(script, DraftOf(key)) && forall e :: e in script ==> e.file == DraftOf(key)
    ensures !DraftStays(script, key)
  {
    var file := DraftOf(key);
    var i: nat, j: nat, k: nat :| i <= j <= k <= |script| && StateAt(script, file, i).stamp == StateAt(script, file, k).stamp
                                  && StateAt(script, file, j).content != StateAt(script, file, k).content;
    UntouchedFile(script[..i], SettingsOf(key));
    UntouchedFile(script[..k], SettingsOf(key));
    assert DraftReturns(script, key, i, i, j, k, k);
  }

  /** The middle version of a file that came back is served to a call during which it is not there. */
  lemma ReturnServesTheMiddle(script: seq<Edit>, key: Key, file: FileId)
    requires (file == DraftOf(key) || file == SettingsOf(key)) && !NeverReturns(script, file)
    requires forall e :: e in script ==> e.file == file
    ensures !AlwaysCurrent(script, key)
  {
    if file == SettingsOf(key) {
      ReturningSettingsAreServed(script, key);
    } else {
      DraftAloneReturns(script, key);
      ReturningDraftIsServed(script, key);
    }
  }

  /** Settings that appear and are deleted again come back to the stamp of a missing file. */
  lemma CreatedAndDeletedReturns(dir: string, stamp: nat, text: string)
    ensures !NeverReturns([Edit(Settings(dir), FileState(Some(stamp), Some(text))), Edit(Settings(dir), FileState(None, None))], Settings(dir))
  {
    var script := [Edit(Settings(dir), FileState(Some(stamp), Some(text))), Edit(Settings(dir), FileState(None, None))];
    assert script[..0] == [];
    assert script[..1] == [script[0]];
    assert script[..2] == script;
    assert StateAt(script, Settings(dir), 0).stamp == StateAt(script, Settings(dir), 2).stamp;
    assert StateAt(script, Settings(dir), 1).content != StateAt(script, Settings(dir), 2).content;
  }
}
