/** The textual keys of the serve loop: the dedup key of a manifest ask, the dedup key of an access
    request, and the key a request is paced under. Each glues attacker-influenced fields with `|`,
    so what a key tells apart depends on which fields can hold a `|`.

    A string stands for its UTF-8 bytes. */
module RequestKeys {
  import opened Wrappers

  const SLUG_MAX_BYTES: nat := 768
  const AUTHOR_NPUB_MAX_BYTES: nat := 128
  const ASK_NONCE_MAX_BYTES: nat := 128

  datatype RequestBody = RequestBody(slug: string, askNonce: Option<string>, authorNpub: Option<string>)

  /** The JSON object of a DM: each field is `None` when it is missing or not a string. */
  datatype RawBody = RawBody(hb: Option<string>, slug: Option<string>, askNonce: Option<string>, authorNpub: Option<string>)

  function NonBlank(field: Option<string>): Option<string> {
    if field == Some("") then None else field
  }

  predicate Within(field: Option<string>, max: nat) {
    field.Some? ==> |field.value| <= max
  }

  function ParseRequest(raw: RawBody): (r: Option<RequestBody>)
    ensures r.Some? ==> WellShaped(r.value)
  {
    if raw.hb != Some("manifest_request") || raw.slug.None? || |raw.slug.value| > SLUG_MAX_BYTES then None
    else
      var nonce := NonBlank(raw.askNonce);
      var author := NonBlank(raw.authorNpub);
      if !Within(nonce, ASK_NONCE_MAX_BYTES) || !Within(author, AUTHOR_NPUB_MAX_BYTES) then None
      else Some(RequestBody(raw.slug.value, nonce, author))
  }

  /** The bodies `ParseRequest` can return: bounded fields, and a blank is never present. */
  predicate WellShaped(b: RequestBody) {
    && |b.slug| <= SLUG_MAX_BYTES
    && b.askNonce != Some("") && Within(b.askNonce, ASK_NONCE_MAX_BYTES)
    && b.authorNpub != Some("") && Within(b.authorNpub, AUTHOR_NPUB_MAX_BYTES)
  }

  function DedupKey(from: string, b: RequestBody): string {
    from + "|" + b.authorNpub.GetOr("") + "|" + b.slug + "|" + b.askNonce.GetOr("")
  }

  function AccessKey(asker: string, nonce: string): string {
    asker + "|access_request|" + nonce
  }

  function PaceKey(from: string, author: Option<string>, slug: string): string {
    from + "|" + author.GetOr("self") + "|" + slug
  }

  predicate BarFree(s: string) {
    '|' !in s
  }

  /** Every shape `ParseRequest` describes is reached: the parsed bodies are exactly these. */
  lemma ParseReachesWellShaped(b: RequestBody)
    requires WellShaped(b)
    ensures exists raw: RawBody :: ParseRequest(raw) == Some(b)
  {
    assert ParseRequest(RawBody(Some("manifest_request"), Some(b.slug), b.askNonce, b.authorNpub)) == Some(b);
  }

  /** What a body says of the message it was parsed from. */
  ghost predicate IsBodyOf(b: RequestBody, raw: RawBody) {
    && raw.hb == Some("manifest_request")
    && raw.slug == Some(b.slug) && |b.slug| <= SLUG_MAX_BYTES
    && (match raw.askNonce
        case None => b.askNonce == None
        case Some(n) => b.askNonce == (if n == "" then None else Some(n)) && |n| <= ASK_NONCE_MAX_BYTES)
    && (match raw.authorNpub
        case None => b.authorNpub == None
        case Some(a) => b.authorNpub == (if a == "" then None else Some(a)) && |a| <= AUTHOR_NPUB_MAX_BYTES)
  }

  /** A message is an ask exactly when it carries the tag, a slug, and no field over its cap; the ask
      is then the one its fields spell, a blank optional field being an absent one. */
  lemma ParsesIff(raw: RawBody, b: RequestBody)
    ensures ParseRequest(raw) == Some(b) <==> IsBodyOf(b, raw)
  {
    hide WellShaped;
  }

  lemma FirstBarAt(a: string, x: string)
    requires BarFree(a)
    ensures var s := a + "|" + x;
            s[|a|] == '|' && (forall i :: 0 <= i < |a| ==> s[i] != '|') && s[..|a|] == a && s[|a| + 1..] == x
  {
  }

  /** The text before the first bar, and the text after it, are determined by the whole. */
  lemma FirstBarSplits(a: string, x: string, b: string, y: string)
    requires BarFree(a) && BarFree(b)
    requires a + "|" + x == b + "|" + y
    ensures a == b && x == y
  {
    FirstBarAt(a, x);
    FirstBarAt(b, y);
    assert |a| == |b|;
  }

  lemma DedupKeyShape(from: string, b: RequestBody)
    ensures DedupKey(from, b) == from + "|" + (b.authorNpub.GetOr("") + "|" + (b.slug + "|" + b.askNonce.GetOr("")))
  {
  }

  lemma AccessKeyShape(asker: string, nonce: string)
    ensures AccessKey(asker, nonce) == asker + "|" + ("access_request" + "|" + nonce)
  {
    assert "|access_request|" == "|" + "access_request" + "|";
  }

  /** The text between bars; `""` gives one empty part. */
  function Parts(text: string): (r: seq<string>)
    ensures |r| >= 1
  {
    if text == "" then [""]
    else
      var rest := Parts(text[1..]);
      if text[0] == '|' then [""] + rest else [[text[0]] + rest[0]] + rest[1..]
  }

  function Glued(parts: seq<string>): string
    requires |parts| >= 1
  {
    if |parts| == 1 then parts[0] else parts[0] + "|" + Glued(parts[1..])
  }

  lemma {:induction false} GluedParts(text: string)
    ensures Glued(Parts(text)) == text
  {
    if text != "" {
      GluedParts(text[1..]);
      var rest := Parts(text[1..]);
      if text[0] == '|' {
        assert ([""] + rest)[1..] == rest;
      } else {
        assert ([[text[0]] + rest[0]] + rest[1..])[1..] == rest[1..];
      }
    }
  }

  lemma {:induction false} PartsAppend(a: string, b: string)
    ensures Parts(a + "|" + b) == Parts(a) + Parts(b)
  {
    var text := a + "|" + b;
    if a == "" {
      assert text[1..] == b;
    } else {
      assert text[1..] == a[1..] + "|" + b;
      PartsAppend(a[1..], b);
    }
  }

  lemma {:induction false} BarFreeIsOnePart(text: string)
    requires BarFree(text)
    ensures Parts(text) == [text]
  {
    if text != "" {
      BarFreeIsOnePart(text[1..]);
      assert [text[0]] + text[1..] == text;
    }
  }

  /** The parts a body's author, slug and nonce contribute to its key. */
  function PartsOf(b: RequestBody): seq<string> {
    Parts(b.authorNpub.GetOr("")) + (Parts(b.slug) + Parts(b.askNonce.GetOr("")))
  }

  lemma DedupKeyParts(from: string, b: RequestBody)
    requires BarFree(from)
    ensures Parts(DedupKey(from, b)) == [from] + PartsOf(b)
  {
    var a, n := b.authorNpub.GetOr(""), b.askNonce.GetOr("");
    DedupKeyShape(from, b);
    BarFreeIsOnePart(from);
    PartsAppend(from, a + "|" + (b.slug + "|" + n));
    PartsAppend(a, b.slug + "|" + n);
    PartsAppend(b.slug, n);
  }

  /** Two asks share a dedup key exactly when they are from one sender and their authors, slugs and
      nonces, split at the bars and laid end to end, read the same. */
  lemma DedupKeyIff(f1: string, b1: RequestBody, f2: string, b2: RequestBody)
    requires BarFree(f1) && BarFree(f2)
    ensures DedupKey(f1, b1) == DedupKey(f2, b2) <==> f1 == f2 && PartsOf(b1) == PartsOf(b2)
  {
    DedupKeyParts(f1, b1);
    DedupKeyParts(f2, b2);
    GluedParts(DedupKey(f1, b1));
    GluedParts(DedupKey(f2, b2));
    assert ([f1] + PartsOf(b1))[0] == f1 && ([f1] + PartsOf(b1))[1..] == PartsOf(b1);
    assert ([f2] + PartsOf(b2))[0] == f2 && ([f2] + PartsOf(b2))[1..] == PartsOf(b2);
  }

  /** A dedup key names one ask: sender, author, slug and nonce, when the first three hold no bar.
      The nonce, last in the key, may hold anything. */
  lemma DedupKeyInjective(f1: string, b1: RequestBody, f2: string, b2: RequestBody)
    requires WellShaped(b1) && WellShaped(b2)
    requires BarFree(f1) && BarFree(b1.authorNpub.GetOr("")) && BarFree(b1.slug)
    requires BarFree(f2) && BarFree(b2.authorNpub.GetOr("")) && BarFree(b2.slug)
    requires DedupKey(f1, b1) == DedupKey(f2, b2)
    ensures f1 == f2 && b1 == b2
  {
    DedupKeyShape(f1, b1);
    DedupKeyShape(f2, b2);
    var a1, a2 := b1.authorNpub.GetOr(""), b2.authorNpub.GetOr("");
    var n1, n2 := b1.askNonce.GetOr(""), b2.askNonce.GetOr("");
    FirstBarSplits(f1, a1 + "|" + (b1.slug + "|" + n1), f2, a2 + "|" + (b2.slug + "|" + n2));
    FirstBarSplits(a1, b1.slug + "|" + n1, a2, b2.slug + "|" + n2);
    FirstBarSplits(b1.slug, n1, b2.slug, n2);
  }

  /** With a bar in the slug two different asks of one sender can share a dedup key. */
  lemma BarredSlugCollides(from: string)
    ensures var b1 := RequestBody("a|b", Some("c"), None);
            var b2 := RequestBody("a", Some("b|c"), None);
            WellShaped(b1) && WellShaped(b2) && b1 != b2 && DedupKey(from, b1) == DedupKey(from, b2)
  {
    assert "a|b" + "|" + "c" == "a" + "|" + "b|c";
    DedupKeyShape(from, RequestBody("a|b", Some("c"), None));
    DedupKeyShape(from, RequestBody("a", Some("b|c"), None));
  }

  /** `author` as the serve body reads it: what stands before the first visible character is
      trimmed away. */
  function TrimStart(text: string): string {
    if text != "" && (text[0] <= ' ' || text[0] >= '\U{7F}') then TrimStart(text[1..]) else text
  }

  predicate StartsWith(text: string, prefix: string) {
    prefix <= text
  }

  /** The shape without which no text is read as a share code. */
  predicate ShareCodeShaped(text: string) {
    var t := TrimStart(text);
    StartsWith(t, "npub1") || StartsWith(t, "hbk1") || StartsWith(t, "HBK1")
  }

  /** Whether a serve body can take the ask at all: a re-serve first reads its author. */
  predicate Servable(b: RequestBody) {
    b.authorNpub.Some? ==> ShareCodeShaped(b.authorNpub.value)
  }

  const ACCESS_MARK: string := "access_request"

  lemma MarkLetters(i: nat)
    requires i < |ACCESS_MARK|
    ensures ACCESS_MARK[i] != '|' && ACCESS_MARK[0] == 'a' && |ACCESS_MARK| == 14
  {
  }

  /** The author of an ask whose key is an access key spells the mark of access requests, or begins
      with it and a bar. */
  lemma CollidingAuthor(asker: string, nonce: string, from: string, b: RequestBody)
    requires BarFree(asker) && BarFree(from) && AccessKey(asker, nonce) == DedupKey(from, b)
    ensures var a, rest := b.authorNpub.GetOr(""), b.slug + "|" + b.askNonce.GetOr("");
            && asker == from && |a| >= 14 && a[..14] == ACCESS_MARK
            && (|a| == 14 ==> nonce == rest)
            && (|a| > 14 ==> a[14] == '|' && nonce == a[15..] + "|" + rest)
  {
    AccessKeyShape(asker, nonce);
    DedupKeyShape(from, b);
    var a, rest := b.authorNpub.GetOr(""), b.slug + "|" + b.askNonce.GetOr("");
    FirstBarSplits(asker, ACCESS_MARK + "|" + nonce, from, a + "|" + rest);
    var whole := a + "|" + rest;
    assert whole == ACCESS_MARK + "|" + nonce;
    MarkLetters(0);
    forall i | 0 <= i < 14 ensures whole[i] != '|' {
      MarkLetters(i);
      assert whole[i] == ACCESS_MARK[i];
    }
    assert whole[|a|] == '|';
    assert a[..14] == whole[..14];
    if |a| == 14 {
      assert whole[15..] == rest && whole[15..] == nonce;
    } else {
      assert a[14] == whole[14];
      assert whole[15..] == a[15..] + "|" + rest && whole[15..] == nonce;
    }
  }

  /** No serve body takes an ask whose key is an access key. */
  lemma CollidingAskIsUnservable(asker: string, nonce: string, from: string, b: RequestBody)
    requires BarFree(asker) && BarFree(from) && AccessKey(asker, nonce) == DedupKey(from, b)
    ensures !Servable(b)
  {
    CollidingAuthor(asker, nonce, from, b);
    MarkLetters(0);
    var a := b.authorNpub.GetOr("");
    assert a[0] == a[..14][0];
  }

  ghost predicate LongAuthorAt(nonce: string, j: int) {
    0 <= j < |nonce| && nonce[j] == '|' && j + 15 <= AUTHOR_NPUB_MAX_BYTES
  }

  /** `nonce` from `start` reads as a slug, a bar at `i`, and an ask nonce; what is before `start`, if
      anything, ends a long author. */
  ghost predicate TailFrom(nonce: string, start: nat, i: nat) {
    && (start == 0 || LongAuthorAt(nonce, start - 1))
    && start <= i < |nonce| && nonce[i] == '|' && i - start <= SLUG_MAX_BYTES && |nonce| - i - 1 <= ASK_NONCE_MAX_BYTES
  }

  /** Where an access nonce can be read as the `slug|nonce` tail of a manifest key. */
  ghost predicate ReadsAsTail(nonce: string) {
    exists start: nat, i: nat :: TailFrom(nonce, start, i)
  }

  lemma AccessKeyMeetsOnlyTails(asker: string, nonce: string, from: string, b: RequestBody)
    requires BarFree(asker) && BarFree(from) && WellShaped(b) && AccessKey(asker, nonce) == DedupKey(from, b)
    ensures from == asker && ReadsAsTail(nonce)
  {
    CollidingAuthor(asker, nonce, from, b);
    var a, n := b.authorNpub.GetOr(""), b.askNonce.GetOr("");
    if |a| == 14 {
      assert nonce[|b.slug|] == '|';
      assert TailFrom(nonce, 0, |b.slug|);
    } else {
      var j := |a[15..]|;
      assert nonce == a[15..] + ("|" + b.slug + "|" + n);
      assert nonce[j] == '|' && nonce[j + 1 + |b.slug|] == '|';
      assert LongAuthorAt(nonce, j) && TailFrom(nonce, j + 1, j + 1 + |b.slug|);
    }
  }

  function OptionalText(s: string): Option<string> {
    if s == "" then None else Some(s)
  }

  /** The ask that has the access key, read off the nonce. */
  lemma TailIsAnAsk(asker: string, nonce: string) returns (b: RequestBody)
    requires ReadsAsTail(nonce)
    ensures WellShaped(b) && AccessKey(asker, nonce) == DedupKey(asker, b)
  {
    AccessKeyShape(asker, nonce);
    MarkLetters(0);
    var start: nat, i: nat :| TailFrom(nonce, start, i);
    if start == 0 {
      b := RequestBody(nonce[..i], OptionalText(nonce[i + 1..]), Some(ACCESS_MARK));
      assert nonce == nonce[..i] + "|" + nonce[i + 1..];
    } else {
      var j := start - 1;
      var author := ACCESS_MARK + "|" + nonce[..j];
      b := RequestBody(nonce[j + 1..i], OptionalText(nonce[i + 1..]), Some(author));
      assert nonce == nonce[..j] + "|" + (nonce[j + 1..i] + "|" + nonce[i + 1..]);
      assert ACCESS_MARK + "|" + nonce == author + "|" + (nonce[j + 1..i] + "|" + nonce[i + 1..]);
    }
    DedupKeyShape(asker, b);
  }

  /** An access key equals the dedup key of some parsed manifest ask from a bar-free sender exactly
      when its nonce reads as a tail. */
  lemma AccessKeyCollidesIff(asker: string, nonce: string)
    requires BarFree(asker)
    ensures ReadsAsTail(nonce) <==>
            exists from: string, b: RequestBody :: BarFree(from) && WellShaped(b) && AccessKey(asker, nonce) == DedupKey(from, b)
  {
    if ReadsAsTail(nonce) {
      var b := TailIsAnAsk(asker, nonce);
    }
    forall from: string, b: RequestBody | BarFree(from) && WellShaped(b) && AccessKey(asker, nonce) == DedupKey(from, b)
      ensures ReadsAsTail(nonce)
    {
      AccessKeyMeetsOnlyTails(asker, nonce, from, b);
    }
  }

  function Bars(s: string): nat {
    if |s| == 0 then 0 else Bars(s[..|s| - 1]) + (if s[|s| - 1] == '|' then 1 else 0)
  }

  lemma {:induction false} BarsAppend(s: string, t: string)
    ensures Bars(s + t) == Bars(s) + Bars(t)
  {
    if |t| == 0 {
      assert s + t == s;
    } else {
      assert (s + t)[..|s + t| - 1] == s + t[..|t| - 1];
      BarsAppend(s, t[..|t| - 1]);
    }
  }

  lemma {:induction false} BarFreeCountsZero(s: string)
    requires BarFree(s)
    ensures Bars(s) == 0
  {
    if |s| > 0 {
      BarFreeCountsZero(s[..|s| - 1]);
    }
  }

  lemma BarsGlue(s: string, t: string)
    ensures Bars(s + "|" + t) == Bars(s) + 1 + Bars(t)
  {
    BarsAppend(s, "|");
    BarsAppend(s + "|", t);
    assert Bars("|") == 1;
  }

  /** With no bar in the asker or the nonce, an access key is no ask's dedup key, whatever the ask. */
  lemma AccessKeyApart(asker: string, nonce: string, from: string, b: RequestBody)
    requires BarFree(asker) && BarFree(nonce)
    ensures AccessKey(asker, nonce) != DedupKey(from, b)
  {
    assert Bars(DedupKey(from, b)) >= 3 by {
      var a, n := b.authorNpub.GetOr(""), b.askNonce.GetOr("");
      DedupKeyShape(from, b);
      BarsGlue(b.slug, n);
      BarsGlue(a, b.slug + "|" + n);
      BarsGlue(from, a + "|" + (b.slug + "|" + n));
    }
    assert Bars(AccessKey(asker, nonce)) == 2 by {
      AccessKeyShape(asker, nonce);
      BarsGlue("access_request", nonce);
      BarsGlue(asker, "access_request" + "|" + nonce);
      BarFreeCountsZero(asker);
      BarFreeCountsZero("access_request");
      BarFreeCountsZero(nonce);
    }
  }

  /** An own-collection ask and a re-serve share a pace key exactly when sender and slug agree and
      the re-serve names its author with the text `self`. */
  lemma PaceKeySeparates(f1: string, s1: string, f2: string, author: string, s2: string)
    requires BarFree(f1) && BarFree(f2) && BarFree(author)
    ensures PaceKey(f1, None, s1) == PaceKey(f2, Some(author), s2) <==> f1 == f2 && author == "self" && s1 == s2
  {
    assert BarFree("self");
    assert PaceKey(f1, None, s1) == f1 + "|" + ("self" + "|" + s1);
    assert PaceKey(f2, Some(author), s2) == f2 + "|" + (author + "|" + s2);
    if PaceKey(f1, None, s1) == PaceKey(f2, Some(author), s2) {
      FirstBarSplits(f1, "self" + "|" + s1, f2, author + "|" + s2);
      FirstBarSplits("self", s1, author, s2);
    }
  }
}
