/** What the sealed cache answers: whatever is edited while calls race, an answer is built from what
    the files held during the call, as long as the files do not come back to stamps they left. */
module SealedCurrent {
  import opened Wrappers
  import opened SealedCache

  // ---------------------------------------------------------------------------------------------
  // The invariant: when a payload's stamps were taken and its contents read.

  ghost predicate Stamped(hist: seq<Edit>, file: FileId, time: nat, stamp: Option<nat>) {
    time <= |hist| && StateAt(hist, file, time).stamp == stamp
  }

  ghost predicate Held(hist: seq<Edit>, file: FileId, time: nat, content: Option<string>) {
    time <= |hist| && StateAt(hist, file, time).content == content
  }

  /** A caller's two stats, at `a` and `b`, gave `marker`; its two reads, at `c` and `d`, gave the
      contents. The source takes them in this order. */
  ghost predicate Moments(hist: seq<Edit>, key: Key, marker: Marker, draft: Option<string>, settings: Option<string>, a: nat, b: nat, c: nat, d: nat) {
    && a <= b <= c <= d
    && Stamped(hist, DraftOf(key), a, marker.draft) && Stamped(hist, SettingsOf(key), b, marker.settings)
    && Held(hist, DraftOf(key), c, draft) && Held(hist, SettingsOf(key), d, settings)
  }

  ghost predicate CachedOk(hist: seq<Edit>, key: Key, x: Cached) {
    && x.payload.key == key && x.payload.browseKey == x.browseKey
    && exists a, b, c, d :: Moments(hist, key, x.marker, x.payload.draft, x.payload.settings, a, b, c, d)
  }

  ghost predicate BothStamped(hist: seq<Edit>, key: Key, marker: Marker, draftAt: nat, settingsAt: nat) {
    draftAt <= settingsAt && Stamped(hist, DraftOf(key), draftAt, marker.draft) && Stamped(hist, SettingsOf(key), settingsAt, marker.settings)
  }

  ghost predicate ReadSince(hist: seq<Edit>, file: FileId, from: nat, content: Option<string>) {
    exists time: nat :: from <= time && Held(hist, file, time, content)
  }

  ghost predicate PcOk(hist: seq<Edit>, pc: Pc) {
    match pc
    case Idle => true
    case StatDraft(_, _) => true
    case StatSettings(key, _, draft, draftAt) => Stamped(hist, DraftOf(key), draftAt, draft)
    case Looking(key, _, marker, draftAt, settingsAt) => BothStamped(hist, key, marker, draftAt, settingsAt)
    case ReadDraft(key, _, marker, draftAt, settingsAt) => BothStamped(hist, key, marker, draftAt, settingsAt)
    case ReadSettings(key, _, marker, draftAt, settingsAt, draft) =>
      BothStamped(hist, key, marker, draftAt, settingsAt) && ReadSince(hist, DraftOf(key), settingsAt, draft)
    case Sealing(key, _, marker, draftAt, settingsAt, draft, settings) =>
      exists c, d :: Moments(hist, key, marker, draft, settings, draftAt, settingsAt, c, d)
  }

  /** An answer's payload was read under the very stamps the call took, at moments up to its end. */
  ghost predicate AnswerOk(hist: seq<Edit>, x: Answer) {
    && x.endAt <= |hist| && x.settingsAt <= x.endAt && x.payload.key == x.key && x.payload.browseKey == x.browseKey
    && exists marker, a: nat, b: nat, c: nat, d: nat :: d <= x.endAt && BothStamped(hist, x.key, marker, x.draftAt, x.settingsAt)
                                    && Moments(hist, x.key, marker, x.payload.draft, x.payload.settings, a, b, c, d)
  }

  ghost predicate PcsOk(s: Sys) {
    forall t: nat {:trigger PcOf(s, t)} :: PcOk(s.hist, PcOf(s, t))
  }

  ghost predicate CacheOk(s: Sys) {
    forall key :: key in s.cache ==> CachedOk(s.hist, key, s.cache[key])
  }

  ghost predicate AnswersOk(s: Sys) {
    forall i :: 0 <= i < |s.answers| ==> AnswerOk(s.hist, s.answers[i])
  }

  ghost predicate Inv(s: Sys) {
    PcsOk(s) && CacheOk(s) && AnswersOk(s)
  }

  // ---------------------------------------------------------------------------------------------
  // Nothing that was seen is unseen.

  lemma StateAtGrows(hist: seq<Edit>, more: seq<Edit>, file: FileId, time: nat)
    requires time <= |hist|
    ensures StateAt(hist + more, file, time) == StateAt(hist, file, time)
  {
    assert (hist + more)[..time] == hist[..time];
  }

  lemma MomentsGrow(hist: seq<Edit>, more: seq<Edit>, key: Key, marker: Marker, draft: Option<string>, settings: Option<string>, a: nat, b: nat, c: nat, d: nat)
    requires Moments(hist, key, marker, draft, settings, a, b, c, d)
    ensures Moments(hist + more, key, marker, draft, settings, a, b, c, d)
  {
    StateAtGrows(hist, more, DraftOf(key), a);
    StateAtGrows(hist, more, SettingsOf(key), b);
    StateAtGrows(hist, more, DraftOf(key), c);
    StateAtGrows(hist, more, SettingsOf(key), d);
  }

  lemma StampsGrow(hist: seq<Edit>, more: seq<Edit>, key: Key, marker: Marker, draftAt: nat, settingsAt: nat)
    requires BothStamped(hist, key, marker, draftAt, settingsAt)
    ensures BothStamped(hist + more, key, marker, draftAt, settingsAt)
  {
    StateAtGrows(hist, more, DraftOf(key), draftAt);
    StateAtGrows(hist, more, SettingsOf(key), settingsAt);
  }

  lemma CachedGrows(hist: seq<Edit>, more: seq<Edit>, key: Key, x: Cached)
    requires CachedOk(hist, key, x)
    ensures CachedOk(hist + more, key, x)
  {
    var a, b, c, d :| Moments(hist, key, x.marker, x.payload.draft, x.payload.settings, a, b, c, d);
    MomentsGrow(hist, more, key, x.marker, x.payload.draft, x.payload.settings, a, b, c, d);
  }

  lemma AnswerGrows(hist: seq<Edit>, more: seq<Edit>, x: Answer)
    requires AnswerOk(hist, x)
    ensures AnswerOk(hist + more, x)
  {
    var marker, a: nat, b: nat, c: nat, d: nat :| d <= x.endAt && BothStamped(hist, x.key, marker, x.draftAt, x.settingsAt)
                              && Moments(hist, x.key, marker, x.payload.draft, x.payload.settings, a, b, c, d);
    StampsGrow(hist, more, x.key, marker, x.draftAt, x.settingsAt);
    MomentsGrow(hist, more, x.key, marker, x.payload.draft, x.payload.settings, a, b, c, d);
  }

  lemma PcGrows(hist: seq<Edit>, more: seq<Edit>, pc: Pc)
    requires PcOk(hist, pc)
    ensures PcOk(hist + more, pc)
  {
    match pc
    case StatSettings(key, _, _, draftAt) => StateAtGrows(hist, more, DraftOf(key), draftAt);
    case Looking(key, _, marker, draftAt, settingsAt) => StampsGrow(hist, more, key, marker, draftAt, settingsAt);
    case ReadDraft(key, _, marker, draftAt, settingsAt) => StampsGrow(hist, more, key, marker, draftAt, settingsAt);
    case ReadSettings(key, _, marker, draftAt, settingsAt, draft) =>
      StampsGrow(hist, more, key, marker, draftAt, settingsAt);
      var time: nat :| settingsAt <= time && Held(hist, DraftOf(key), time, draft);
      StateAtGrows(hist, more, DraftOf(key), time);
      assert Held(hist + more, DraftOf(key), time, draft);
    case Sealing(key, _, marker, draftAt, settingsAt, draft, settings) =>
      var c, d :| Moments(hist, key, marker, draft, settings, draftAt, settingsAt, c, d);
      MomentsGrow(hist, more, key, marker, draft, settings, draftAt, settingsAt, c, d);
    case _ =>
  }

  lemma EditKeeps(s: Sys, edit: Edit)
    requires Inv(s)
    ensures Inv(Step(s, Change(edit)))
  {
    var r := Step(s, Change(edit));
    forall t: nat ensures PcOk(r.hist, PcOf(r, t)) {
      assert PcOf(r, t) == PcOf(s, t);
      PcGrows(s.hist, [edit], PcOf(s, t));
    }
    forall key | key in r.cache ensures CachedOk(r.hist, key, r.cache[key]) {
      CachedGrows(s.hist, [edit], key, s.cache[key]);
    }
    forall i | 0 <= i < |r.answers| ensures AnswerOk(r.hist, r.answers[i]) {
      AnswerGrows(s.hist, [edit], s.answers[i]);
    }
  }

  // ---------------------------------------------------------------------------------------------
  // One step of a call.

  lemma NowIs(hist: seq<Edit>, file: FileId)
    ensures StateAt(hist, file, |hist|) == StateAfter(hist, file)
  {
    assert hist[..|hist|] == hist;
  }

  lemma DraftIsRead(hist: seq<Edit>, pc: Pc)
    requires pc.ReadDraft? && PcOk(hist, pc)
    ensures ReadSince(hist, DraftOf(pc.key), pc.settingsAt, StateAfter(hist, DraftOf(pc.key)).content)
  {
    NowIs(hist, DraftOf(pc.key));
    assert Held(hist, DraftOf(pc.key), |hist|, StateAfter(hist, DraftOf(pc.key)).content);
  }

  lemma SettingsAreRead(hist: seq<Edit>, pc: Pc)
    requires pc.ReadSettings? && PcOk(hist, pc)
    ensures PcOk(hist, Sealing(pc.key, pc.browseKey, pc.marker, pc.draftAt, pc.settingsAt, pc.draft, StateAfter(hist, SettingsOf(pc.key)).content))
  {
    var time: nat :| pc.settingsAt <= time && Held(hist, DraftOf(pc.key), time, pc.draft);
    NowIs(hist, SettingsOf(pc.key));
    assert Moments(hist, pc.key, pc.marker, pc.draft, StateAfter(hist, SettingsOf(pc.key)).content, pc.draftAt, pc.settingsAt, time, |hist|);
  }

  lemma CallerMoves(s: Sys, t: nat, ok: bool)
    requires PcOk(s.hist, PcOf(s, t))
    ensures PcOk(s.hist, PcOf(StepCall(s, t, ok), t))
  {
    match PcOf(s, t)
    case StatDraft(key, _) => NowIs(s.hist, DraftOf(key));
    case StatSettings(key, _, _, _) => NowIs(s.hist, SettingsOf(key));
    case ReadDraft(_, _, _, _, _) => DraftIsRead(s.hist, PcOf(s, t));
    case ReadSettings(_, _, _, _, _, _) => SettingsAreRead(s.hist, PcOf(s, t));
    case _ =>
  }

  lemma SealingCaches(hist: seq<Edit>, pc: Pc)
    requires pc.Sealing? && PcOk(hist, pc)
    ensures var payload := Payload(pc.key, pc.browseKey, pc.draft, pc.settings);
            && CachedOk(hist, pc.key, Cached(pc.browseKey, pc.marker, payload))
            && AnswerOk(hist, Answer(pc.key, pc.browseKey, payload, false, pc.draftAt, pc.settingsAt, |hist|))
  {
    var c, d :| Moments(hist, pc.key, pc.marker, pc.draft, pc.settings, pc.draftAt, pc.settingsAt, c, d);
    assert BothStamped(hist, pc.key, pc.marker, pc.draftAt, pc.settingsAt);
  }

  lemma HitAnswers(s: Sys, pc: Pc)
    requires pc.Looking? && PcOk(s.hist, pc) && CacheOk(s) && CacheGet(s.cache, pc.key, pc.browseKey, pc.marker).Some?
    ensures AnswerOk(s.hist, Answer(pc.key, pc.browseKey, CacheGet(s.cache, pc.key, pc.browseKey, pc.marker).value, true,
                                    pc.draftAt, pc.settingsAt, |s.hist|))
  {
    var x := s.cache[pc.key];
    assert CachedOk(s.hist, pc.key, x);
    var a, b, c, d :| Moments(s.hist, pc.key, x.marker, x.payload.draft, x.payload.settings, a, b, c, d);
    assert BothStamped(s.hist, pc.key, x.marker, pc.draftAt, pc.settingsAt);
  }

  lemma OthersStay(s: Sys, t: nat, ok: bool)
    requires PcsOk(s)
    ensures PcsOk(StepCall(s, t, ok))
  {
    hide PcOk;
    var r := StepCall(s, t, ok);
    assert PcOk(s.hist, PcOf(s, t));
    CallerMoves(s, t, ok);
    forall u: nat ensures PcOk(r.hist, PcOf(r, u)) {
      if u != t {
        assert PcOf(r, u) == PcOf(s, u);
        assert PcOk(s.hist, PcOf(s, u));
      }
    }
  }

  lemma CacheAndAnswersStay(s: Sys, t: nat, ok: bool)
    requires Inv(s)
    ensures CacheOk(StepCall(s, t, ok)) && AnswersOk(StepCall(s, t, ok))
  {
    hide CachedOk, AnswerOk, PcOk;
    var pc := PcOf(s, t);
    assert PcOk(s.hist, pc);
    if pc.Sealing? {
      SealingCaches(s.hist, pc);
    } else if pc.Looking? && CacheGet(s.cache, pc.key, pc.browseKey, pc.marker).Some? {
      HitAnswers(s, pc);
    }
  }

  lemma StepKeeps(s: Sys, a: Action)
    requires Inv(s)
    ensures Inv(Step(s, a))
  {
    match a
    case Call(t, key, bk) =>
      var r := Step(s, a);
      forall u: nat ensures PcOk(r.hist, PcOf(r, u)) {
        if u != t { assert PcOf(r, u) == PcOf(s, u); }
        assert PcOk(s.hist, PcOf(s, u));
      }
    case Advance(t, ok) =>
      OthersStay(s, t, ok);
      CacheAndAnswersStay(s, t, ok);
    case Change(edit) => EditKeeps(s, edit);
  }

  lemma {:induction false} RunKeeps(actions: seq<Action>)
    ensures Inv(Run(Init(), actions))
  {
    if actions == [] {
      assert forall t: nat :: PcOf(Init(), t) == Idle;
    } else {
      RunKeeps(actions[..|actions| - 1]);
      StepKeeps(Run(Init(), actions[..|actions| - 1]), actions[|actions| - 1]);
    }
  }

  // ---------------------------------------------------------------------------------------------
  // Every answer is current.

  /** One caller takes the two stamps at `a` and `b` and reads the draft at `c`; another takes the same
      two stamps at `a2` and `b2`, and the draft read at `c` is nowhere between. */
  ghost predicate DraftReturns(hist: seq<Edit>, key: Key, a: nat, b: nat, c: nat, a2: nat, b2: nat) {
    && a <= b <= c <= a2 <= b2 <= |hist|
    && StateAt(hist, DraftOf(key), a).stamp == StateAt(hist, DraftOf(key), a2).stamp
    && StateAt(hist, SettingsOf(key), b).stamp == StateAt(hist, SettingsOf(key), b2).stamp
    && !HeldBetween(hist, DraftOf(key), a2, b2, StateAt(hist, DraftOf(key), c).content)
  }

  ghost predicate DraftStays(hist: seq<Edit>, key: Key) {
    forall a: nat, b: nat, c: nat, a2: nat, b2: nat :: !DraftReturns(hist, key, a, b, c, a2, b2)
  }

  ghost predicate CurrentFor(s: Sys, key: Key) {
    forall i :: 0 <= i < |s.answers| && s.answers[i].key == key ==> Current(s.hist, s.answers[i])
  }

  lemma HeldLonger(hist: seq<Edit>, file: FileId, from: nat, till: nat, more: nat, content: Option<string>)
    requires till <= more <= |hist| && HeldBetween(hist, file, from, till, content)
    ensures HeldBetween(hist, file, from, more, content)
  {
    var time: nat :| from <= time <= till && StateAt(hist, file, time).content == content;
  }

  lemma DraftIsCurrent(hist: seq<Edit>, x: Answer, marker: Marker, a: nat, b: nat, c: nat, d: nat)
    requires x.settingsAt <= x.endAt <= |hist| && d <= x.endAt && BothStamped(hist, x.key, marker, x.draftAt, x.settingsAt)
    requires Moments(hist, x.key, marker, x.payload.draft, x.payload.settings, a, b, c, d) && DraftStays(hist, x.key)
    ensures HeldBetween(hist, DraftOf(x.key), x.draftAt, x.endAt, x.payload.draft)
  {
    if c < x.draftAt {
      assert !DraftReturns(hist, x.key, a, b, c, x.draftAt, x.settingsAt);
      HeldLonger(hist, DraftOf(x.key), x.draftAt, x.settingsAt, x.endAt, x.payload.draft);
    } else {
      assert StateAt(hist, DraftOf(x.key), c).content == x.payload.draft;
    }
  }

  lemma SettingsAreCurrent(hist: seq<Edit>, x: Answer, marker: Marker, a: nat, b: nat, c: nat, d: nat)
    requires x.settingsAt <= x.endAt <= |hist| && d <= x.endAt && BothStamped(hist, x.key, marker, x.draftAt, x.settingsAt)
    requires Moments(hist, x.key, marker, x.payload.draft, x.payload.settings, a, b, c, d) && NeverReturns(hist, SettingsOf(x.key))
    ensures HeldBetween(hist, SettingsOf(x.key), x.settingsAt, x.endAt, x.payload.settings)
  {
    var file := SettingsOf(x.key);
    if d < x.settingsAt {
      assert StateAt(hist, file, d).content == StateAt(hist, file, x.settingsAt).content;
    }
    assert StateAt(hist, file, if d < x.settingsAt then x.settingsAt else d).content == x.payload.settings;
  }

  /** Every answer for `key` is current, in every interleaving, if the settings never come back to a
      stamp they left and the draft does not under the same settings stamp. */
  lemma AnswersAreCurrent(actions: seq<Action>, key: Key)
    requires NeverReturns(Run(Init(), actions).hist, SettingsOf(key)) && DraftStays(Run(Init(), actions).hist, key)
    ensures CurrentFor(Run(Init(), actions), key)
  {
    RunKeeps(actions);
    var s := Run(Init(), actions);
    forall i | 0 <= i < |s.answers| && s.answers[i].key == key ensures Current(s.hist, s.answers[i]) {
      var x := s.answers[i];
      assert AnswerOk(s.hist, x);
      var marker, a: nat, b: nat, c: nat, d: nat :| d <= x.endAt && BothStamped(s.hist, x.key, marker, x.draftAt, x.settingsAt)
                                && Moments(s.hist, x.key, marker, x.payload.draft, x.payload.settings, a, b, c, d);
      DraftIsCurrent(s.hist, x, marker, a, b, c, d);
      SettingsAreCurrent(s.hist, x, marker, a, b, c, d);
    }
  }

  lemma NeverReturningStays(hist: seq<Edit>, key: Key)
    requires NeverReturns(hist, DraftOf(key))
    ensures DraftStays(hist, key)
  {
    forall a: nat, b: nat, c: nat, a2: nat, b2: nat ensures !DraftReturns(hist, key, a, b, c, a2, b2) {
      if a <= b <= c <= a2 <= b2 <= |hist| && StateAt(hist, DraftOf(key), a).stamp == StateAt(hist, DraftOf(key), a2).stamp {
        assert StateAt(hist, DraftOf(key), c).content == StateAt(hist, DraftOf(key), a2).content;
      }
    }
  }

  lemma EveryAnswerIsCurrent(actions: seq<Action>)
    requires forall f :: NeverReturns(Run(Init(), actions).hist, f)
    ensures AllCurrent(Run(Init(), actions))
  {
    var s := Run(Init(), actions);
    forall i | 0 <= i < |s.answers| ensures Current(s.hist, s.answers[i]) {
      NeverReturningStays(s.hist, s.answers[i].key);
      AnswersAreCurrent(actions, s.answers[i].key);
    }
  }

  ghost predicate Unedited(hist: seq<Edit>, file: FileId, from: nat, till: nat) {
    forall i :: from <= i < till && i < |hist| ==> hist[i].file != file
  }

  lemma {:induction false} UneditedIsSame(hist: seq<Edit>, file: FileId, from: nat, till: nat)
    requires from <= till <= |hist| && Unedited(hist, file, from, till)
    ensures StateAt(hist, file, till) == StateAt(hist, file, from)
    decreases till - from
  {
    if from < till {
      UneditedIsSame(hist, file, from, till - 1);
      assert hist[..till][..till - 1] == hist[..till - 1];
    }
  }

  /** With no edit during the call, a hit is what a rebuild at that moment would give. */
  lemma QuietHitIsARebuild(actions: seq<Action>, i: nat)
    requires forall f :: NeverReturns(Run(Init(), actions).hist, f)
    requires i < |Run(Init(), actions).answers|
    requires var s := Run(Init(), actions); var a := s.answers[i];
             Unedited(s.hist, DraftOf(a.key), a.draftAt, a.endAt) && Unedited(s.hist, SettingsOf(a.key), a.settingsAt, a.endAt)
    ensures var s := Run(Init(), actions); var a := s.answers[i];
            a.draftAt <= |s.hist| && a.settingsAt <= |s.hist|
            && a.payload == Payload(a.key, a.browseKey, StateAt(s.hist, DraftOf(a.key), a.draftAt).content,
                                    StateAt(s.hist, SettingsOf(a.key), a.settingsAt).content)
  {
    EveryAnswerIsCurrent(actions);
    var s := Run(Init(), actions);
    var a := s.answers[i];
    assert Current(s.hist, a);
    var m: nat :| a.draftAt <= m <= a.endAt && StateAt(s.hist, DraftOf(a.key), m).content == a.payload.draft;
    var n: nat :| a.settingsAt <= n <= a.endAt && StateAt(s.hist, SettingsOf(a.key), n).content == a.payload.settings;
    UneditedIsSame(s.hist, DraftOf(a.key), a.draftAt, m);
    UneditedIsSame(s.hist, SettingsOf(a.key), a.settingsAt, n);
  }
}
