/** A call of the sealed cache while nothing is edited and nobody else calls: it hits exactly when the
    cached payload was made with the same browse key under the stamps both files have now, and else
    builds from what both files hold now and caches that. */
module SealedAlone {
  import opened Wrappers
  import opened SealedCache

  function CallRun(s: Sys, t: nat, key: Key, browseKey: string, n: nat): Sys {
    if n == 0 then Step(s, Call(t, key, browseKey)) else Step(CallRun(s, t, key, browseKey, n - 1), Advance(t, true))
  }

  /** Both files' stamps as they are. */
  function MarkerNow(s: Sys, key: Key): Marker {
    Marker(StateAfter(s.hist, DraftOf(key)).stamp, StateAfter(s.hist, SettingsOf(key)).stamp)
  }

  /** What both files hold, sealed. */
  function BuiltNow(s: Sys, key: Key, browseKey: string): Payload {
    Payload(key, browseKey, StateAfter(s.hist, DraftOf(key)).content, StateAfter(s.hist, SettingsOf(key)).content)
  }

  ghost predicate Hits(s: Sys, key: Key, browseKey: string) {
    key in s.cache && s.cache[key].browseKey == browseKey && s.cache[key].marker == MarkerNow(s, key)
  }

  lemma Stats(s: Sys, t: nat, key: Key, browseKey: string)
    requires PcOf(s, t).Idle?
    ensures var r := CallRun(s, t, key, browseKey, 2);
            && PcOf(r, t) == Looking(key, browseKey, MarkerNow(s, key), |s.hist|, |s.hist|)
            && r.hist == s.hist && r.cache == s.cache && r.answers == s.answers
  {
    hide StateAfter, CacheGet;
    assert PcOf(CallRun(s, t, key, browseKey, 0), t) == StatDraft(key, browseKey);
    var r := CallRun(s, t, key, browseKey, 1);
    assert PcOf(r, t) == StatSettings(key, browseKey, MarkerNow(s, key).draft, |s.hist|);
  }

  lemma Builds(s: Sys, t: nat, key: Key, browseKey: string, marker: Marker, a: nat, b: nat)
    requires PcOf(s, t) == ReadDraft(key, browseKey, marker, a, b)
    ensures var r := Step(Step(Step(s, Advance(t, true)), Advance(t, true)), Advance(t, true));
            var built := BuiltNow(s, key, browseKey);
            && PcOf(r, t).Idle? && r.hist == s.hist && r.cache == s.cache[key := Cached(browseKey, marker, built)]
            && r.answers == s.answers + [Answer(key, browseKey, built, false, a, b, |s.hist|)]
  {
    hide StateAfter, CacheGet;
    var draft := Step(s, Advance(t, true));
    assert PcOf(draft, t) == ReadSettings(key, browseKey, marker, a, b, StateAfter(s.hist, DraftOf(key)).content);
  }

  lemma IdleStays(s: Sys, t: nat)
    requires PcOf(s, t).Idle?
    ensures Step(s, Advance(t, true)) == s
  {
  }

  lemma LastFour(s: Sys, t: nat, key: Key, browseKey: string)
    ensures CallRun(s, t, key, browseKey, 6) ==
            Step(Step(Step(Step(CallRun(s, t, key, browseKey, 2), Advance(t, true)), Advance(t, true)), Advance(t, true)), Advance(t, true))
  {
    hide Step;
    assert CallRun(s, t, key, browseKey, 4) == Step(Step(CallRun(s, t, key, browseKey, 2), Advance(t, true)), Advance(t, true));
  }

  lemma LoneCall(s: Sys, t: nat, key: Key, browseKey: string)
    requires PcOf(s, t).Idle?
    ensures var r := CallRun(s, t, key, browseKey, 6);
            var now := |s.hist|;
            && PcOf(r, t).Idle? && r.hist == s.hist
            && (if Hits(s, key, browseKey) then
                  r.cache == s.cache && r.answers == s.answers + [Answer(key, browseKey, s.cache[key].payload, true, now, now, now)]
                else
                  var built := BuiltNow(s, key, browseKey);
                  && r.cache == s.cache[key := Cached(browseKey, MarkerNow(s, key), built)]
                  && r.answers == s.answers + [Answer(key, browseKey, built, false, now, now, now)])
  {
    hide StateAfter;
    Stats(s, t, key, browseKey);
    LastFour(s, t, key, browseKey);
    var looking := CallRun(s, t, key, browseKey, 2);
    var next := Step(looking, Advance(t, true));
    if Hits(s, key, browseKey) {
      IdleStays(next, t);
    } else {
      assert PcOf(next, t) == ReadDraft(key, browseKey, MarkerNow(s, key), |s.hist|, |s.hist|);
      Builds(next, t, key, browseKey, MarkerNow(s, key), |s.hist|, |s.hist|);
    }
  }
}
