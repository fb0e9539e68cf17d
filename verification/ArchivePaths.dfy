/** Names inside a backup archive: how an entry's path is taken apart, which components a restore
    accepts, and why an accepted path stays where it says. A path is taken apart by the rules of the
    system the restore runs on: Windows also separates at `\`, and knows drives. */
module ArchivePaths {
  import opened Wrappers

  /** A path below the profile's directory, component by component. */
  type Rel = seq<string>

  datatype System = Unix | Windows

  predicate Separates(system: System, c: char) {
    c == '/' || (system.Windows? && c == '\\')
  }

  predicate SeparatorFree(system: System, text: string) {
    forall i :: 0 <= i < |text| ==> !Separates(system, text[i])
  }

  datatype Component = Prefix | Root | Current | Parent | Normal(name: string)

  function Fold(c: char): char {
    if 'a' <= c <= 'z' then c - 'a' + 'A' else c
  }

  function FoldAll(s: string): (r: string)
    ensures |r| == |s|
  {
    seq(|s|, i requires 0 <= i < |s| => Fold(s[i]))
  }

  predicate EqIgnoreCase(a: string, b: string) {
    FoldAll(a) == FoldAll(b)
  }

  /** The text between separators; `""` gives one empty piece. */
  function Segments(system: System, text: string): (r: seq<string>)
    ensures |r| >= 1
  {
    if text == "" then [""]
    else
      var rest := Segments(system, text[1..]);
      if Separates(system, text[0]) then [""] + rest else [[text[0]] + rest[0]] + rest[1..]
  }

  /** An empty piece and a `.` that is not in front vanish. */
  function Classify(segments: seq<string>, front: bool): seq<Component> {
    if segments == [] then []
    else
      var s := segments[0];
      (if s == "" then []
       else if s == "." then (if front then [Current] else [])
       else if s == ".." then [Parent]
       else [Normal(s)]) + Classify(segments[1..], false)
  }

  /** A share or a verbatim prefix begins with two separators: it is read as a root, which a restore
      refuses as it refuses a prefix. */
  function RootedComponents(system: System, text: string): seq<Component> {
    if text != "" && Separates(system, text[0]) then [Root] + Classify(Segments(system, text), false)
    else Classify(Segments(system, text), true)
  }

  predicate HasDrive(system: System, text: string) {
    system.Windows? && |text| >= 2 && 'A' <= Fold(text[0]) <= 'Z' && text[1] == ':'
  }

  function ComponentsOf(system: System, text: string): seq<Component> {
    if HasDrive(system, text) then [Prefix] + RootedComponents(system, text[2..]) else RootedComponents(system, text)
  }

  function Join(rel: Rel): string {
    if rel == [] then "" else if |rel| == 1 then rel[0] else rel[0] + "/" + Join(rel[1..])
  }

  predicate NormalizesAway(name: string) {
    name != "" && (name[|name| - 1] == '.' || name[|name| - 1] == ' ')
  }

  function Stem(name: string): string {
    if name == "" || name[0] == '.' then "" else [name[0]] + Stem(name[1..])
  }

  predicate IsPort(stem: string, prefix: string) {
    |stem| == 4 && EqIgnoreCase(stem[..3], prefix) && '1' <= stem[3] <= '9'
  }

  predicate ReservedOrStream(name: string) {
    || ':' in name
    || var stem := Stem(name);
       || EqIgnoreCase(stem, "CON") || EqIgnoreCase(stem, "PRN") || EqIgnoreCase(stem, "AUX") || EqIgnoreCase(stem, "NUL")
       || IsPort(stem, "COM") || IsPort(stem, "LPT")
  }

  predicate Survives(name: string) {
    !NormalizesAway(name) && !ReservedOrStream(name)
  }

  function NormalsOf(components: seq<Component>): Rel {
    if components == [] then []
    else
      var last := components[|components| - 1];
      NormalsOf(components[..|components| - 1]) + (if last.Normal? then [last.name] else [])
  }

  predicate Harmless(c: Component) {
    c.Current? || (c.Normal? && Survives(c.name))
  }

  predicate Plain(system: System, name: string) {
    name != "" && SeparatorFree(system, name) && name != "." && name != ".."
  }

  predicate AllHarmless(components: seq<Component>) {
    forall i :: 0 <= i < |components| ==> Harmless(components[i])
  }

  predicate AllSurvive(rel: Rel) {
    forall i :: 0 <= i < |rel| ==> Survives(rel[i])
  }

  predicate AllPlain(system: System, rel: Rel) {
    forall i :: 0 <= i < |rel| ==> Plain(system, rel[i])
  }

  /** The clean relative path, if the text has one. */
  function Sanitized(system: System, text: string): Option<Rel> {
    var components := ComponentsOf(system, text);
    if AllHarmless(components) && NormalsOf(components) != []
    then Some(NormalsOf(components)) else None
  }

  lemma NormalsNext(components: seq<Component>, i: nat)
    requires i < |components|
    ensures NormalsOf(components[..i + 1]) == NormalsOf(components[..i]) + (if components[i].Normal? then [components[i].name] else [])
  {
    assert components[..i + 1][..i] == components[..i];
  }

  lemma HarmlessNext(components: seq<Component>, i: nat)
    requires i < |components| && AllHarmless(components[..i]) && Harmless(components[i])
    ensures AllHarmless(components[..i + 1])
  {
    assert components[..i + 1] == components[..i] + [components[i]];
  }

  lemma HarmRefuses(system: System, text: string, i: nat)
    requires i < |ComponentsOf(system, text)| && !Harmless(ComponentsOf(system, text)[i])
    ensures Sanitized(system, text) == None
  {
  }

  method SanitizeRel(system: System, text: string) returns (r: Option<Rel>)
    ensures r == Sanitized(system, text)
  {
    var components := ComponentsOf(system, text);
    var out: Rel := [];
    for i := 0 to |components|
      invariant out == NormalsOf(components[..i])
      invariant AllHarmless(components[..i])
    {
      NormalsNext(components, i);
      match components[i]
      case Normal(name) =>
        if NormalizesAway(name) || ReservedOrStream(name) {
          HarmRefuses(system, text, i);
          return None;
        }
        HarmlessNext(components, i);
        out := out + [name];
      case Current =>
        HarmlessNext(components, i);
      case _ =>
        HarmRefuses(system, text, i);
        return None;
    }
    assert components[..|components|] == components;
    r := if out == [] then None else Some(out);
  }

  // ---------------------------------------------------------------------------------------------
  // What acceptance means.

  lemma {:induction false} SegmentsAreSeparatorFree(system: System, text: string)
    ensures forall i :: 0 <= i < |Segments(system, text)| ==> SeparatorFree(system, Segments(system, text)[i])
  {
    if text != "" {
      SegmentsAreSeparatorFree(system, text[1..]);
    }
  }

  lemma {:induction false} ClassifyIsPlain(system: System, segments: seq<string>, front: bool)
    requires forall i :: 0 <= i < |segments| ==> SeparatorFree(system, segments[i])
    ensures forall c :: c in Classify(segments, front) && c.Normal? ==> Plain(system, c.name)
  {
    if segments != [] {
      ClassifyIsPlain(system, segments[1..], false);
    }
  }

  lemma {:induction false} NormalsComeFromComponents(components: seq<Component>)
    ensures forall name :: name in NormalsOf(components) <==> Normal(name) in components
  {
    if components != [] {
      var front, last := components[..|components| - 1], components[|components| - 1];
      NormalsComeFromComponents(front);
      assert components == front + [last];
    }
  }

  lemma RootedIsPlain(system: System, text: string)
    ensures forall c :: c in RootedComponents(system, text) && c.Normal? ==> Plain(system, c.name)
  {
    SegmentsAreSeparatorFree(system, text);
    ClassifyIsPlain(system, Segments(system, text), true);
    ClassifyIsPlain(system, Segments(system, text), false);
  }

  /** Every component of an accepted path is one plain name the file system keeps as it is. */
  lemma AcceptedIsPlain(system: System, text: string)
    requires Sanitized(system, text).Some?
    ensures var rel := Sanitized(system, text).value;
            rel != [] && AllPlain(system, rel) && AllSurvive(rel)
  {
    var components := ComponentsOf(system, text);
    RootedIsPlain(system, text);
    if HasDrive(system, text) { RootedIsPlain(system, text[2..]); }
    NormalsComeFromComponents(components);
    var rel := Sanitized(system, text).value;
    forall i | 0 <= i < |rel| ensures Plain(system, rel[i]) && Survives(rel[i]) {
      assert rel[i] in rel;
      assert Normal(rel[i]) in components;
    }
  }

  /** A reference for where a path leads. Every name is first separated by the system's rules. A `.`
      or nothing stays, `..` climbs; Windows drops the dots and spaces at a piece's end, and what is
      left empty climbs too. */
  function Trimmed(name: string): string {
    if NormalizesAway(name) then Trimmed(name[..|name| - 1]) else name
  }

  function Kept(system: System, piece: string): string {
    if system.Windows? then Trimmed(piece) else if piece == ".." then "" else piece
  }

  function Pieces(system: System, rel: Rel): seq<string> {
    if rel == [] then [] else Segments(system, rel[0]) + Pieces(system, rel[1..])
  }

  function Resolve(system: System, at: Rel, pieces: seq<string>): Rel
    decreases |pieces|
  {
    if pieces == [] then at
    else if pieces[0] == "" || pieces[0] == "." then Resolve(system, at, pieces[1..])
    else if Kept(system, pieces[0]) == "" then Resolve(system, if at == [] then [] else at[..|at| - 1], pieces[1..])
    else Resolve(system, at + [Kept(system, pieces[0])], pieces[1..])
  }

  lemma {:induction false} PlainPieces(system: System, rel: Rel)
    requires AllPlain(system, rel)
    ensures Pieces(system, rel) == rel
  {
    if rel != [] {
      assert Plain(system, rel[0]);
      SegmentsOfName(system, rel[0]);
      PlainPieces(system, rel[1..]);
    }
  }

  lemma {:induction false} SurvivorsResolveToThemselves(system: System, at: Rel, rel: Rel)
    requires AllPlain(system, rel) && AllSurvive(rel)
    ensures Resolve(system, at, rel) == at + rel
    decreases |rel|
  {
    if rel == [] {
      assert at + rel == at;
    } else {
      assert Plain(system, rel[0]) && Survives(rel[0]);
      SurvivorsResolveToThemselves(system, at + [rel[0]], rel[1..]);
      assert at + [rel[0]] + rel[1..] == at + rel;
    }
  }

  /** An accepted path, below any directory, names a file strictly inside it, by the rules of the
      system that took it apart: nothing climbs, nothing is renamed, no drive is left for, nothing
      is a device or a stream. */
  lemma AcceptedStaysInside(system: System, text: string, base: Rel)
    requires Sanitized(system, text).Some?
    ensures var rel := Sanitized(system, text).value;
            && Resolve(system, base, Pieces(system, rel)) == base + rel && rel != []
            && forall i :: 0 <= i < |rel| ==> ':' !in rel[i] && SeparatorFree(system, rel[i])
  {
    AcceptedIsPlain(system, text);
    PlainPieces(system, Sanitized(system, text).value);
    SurvivorsResolveToThemselves(system, base, Sanitized(system, text).value);
  }

  const CLIMBER: string := "..\\e"

  lemma ClimberPieces()
    ensures Segments(Unix, CLIMBER) == [CLIMBER] && Segments(Windows, CLIMBER) == ["..", "e"]
  {
    SegmentsOfName(Unix, CLIMBER);
    assert CLIMBER == ".." + ['\\'] + "e";
    SegmentsAfterName(Windows, "..", '\\', "e");
    SegmentsOfName(Windows, "e");
  }

  lemma WindowsRefusesClimber()
    ensures Sanitized(Windows, CLIMBER) == None
  {
    ClimberPieces();
    assert Classify(["..", "e"], true) == [Parent] + Classify(["..", "e"][1..], false);
    HarmRefuses(Windows, CLIMBER, 0);
  }

  lemma ClimberSurvives()
    ensures Survives(CLIMBER)
  {
    assert Stem(CLIMBER) == "" && FoldAll("") == "";
    ReservedStem("");
  }

  lemma UnixAcceptsClimber()
    ensures Sanitized(Unix, CLIMBER) == Some([CLIMBER])
  {
    ClimberSurvives();
    StoredPathReadsBack(Unix, [CLIMBER]);
  }

  lemma ClimberClimbs(base: Rel, name: string)
    ensures Resolve(Windows, base + [name], ["..", "e"]) == base + ["e"]
  {
    assert Trimmed("..") == "" by {
      assert ".."[..1] == "." && "."[..0] == "";
      assert Trimmed(".") == Trimmed("");
    }
    assert ["..", "e"][1..] == ["e"] && ["e"][1..] == [];
    assert (base + [name])[..|base|] == base;
    assert Resolve(Windows, base, ["e"]) == Resolve(Windows, base + ["e"], []);
  }

  lemma PiecesOfOne(system: System, name: string)
    ensures Pieces(system, [name]) == Segments(system, name)
  {
    assert Pieces(system, [name]) == Segments(system, name) + Pieces(system, [name][1..]);
  }

  /** The two systems' rules cannot be mixed: a path taken apart at `/` alone can climb on Windows,
      which refuses the same text. */
  lemma SlashRulesClimbOnWindows(base: Rel, name: string)
    ensures Sanitized(Windows, CLIMBER) == None && Sanitized(Unix, CLIMBER) == Some([CLIMBER])
    ensures Resolve(Windows, base + [name], Pieces(Windows, [CLIMBER])) == base + ["e"]
  {
    WindowsRefusesClimber();
    UnixAcceptsClimber();
    assert Resolve(Windows, base + [name], Pieces(Windows, [CLIMBER])) == base + ["e"] by {
      ClimberPieces();
      PiecesOfOne(Windows, CLIMBER);
      ClimberClimbs(base, name);
    }
  }

  predicate IsDevice(d: string) {
    || d in {"CON", "PRN", "AUX", "NUL"}
    || (|d| == 4 && d[..3] in {"COM", "LPT"} && '1' <= d[3] <= '9')
  }

  lemma {:induction false} StemSplits(name: string)
    ensures var n := |Stem(name)|;
            && n <= |name| && name[..n] == Stem(name) && '.' !in Stem(name)
            && (n < |name| ==> name[n] == '.')
  {
    if name != "" && name[0] != '.' {
      StemSplits(name[1..]);
    }
  }

  lemma ReservedStem(stem: string)
    ensures EqIgnoreCase(stem, "CON") || EqIgnoreCase(stem, "PRN") || EqIgnoreCase(stem, "AUX") || EqIgnoreCase(stem, "NUL")
              || IsPort(stem, "COM") || IsPort(stem, "LPT")
            <==> IsDevice(FoldAll(stem))
  {
    assert FoldAll("CON") == "CON" && FoldAll("PRN") == "PRN" && FoldAll("AUX") == "AUX" && FoldAll("NUL") == "NUL";
    assert FoldAll("COM") == "COM" && FoldAll("LPT") == "LPT";
    if |stem| == 4 {
      assert FoldAll(stem[..3]) == FoldAll(stem)[..3];
      assert FoldAll(stem)[3] == Fold(stem[3]);
    }
  }

  predicate Names(name: string, device: string) {
    IsDevice(device) && (FoldAll(name) == device || device + "." <= FoldAll(name))
  }

  lemma StemNames(name: string)
    requires IsDevice(FoldAll(Stem(name)))
    ensures Names(name, FoldAll(Stem(name)))
  {
    StemSplits(name);
    var stem, folded := Stem(name), FoldAll(name);
    assert folded[..|stem|] == FoldAll(stem);
    if |stem| < |name| {
      assert FoldAll(stem) + "." == folded[..|stem| + 1];
    }
  }

  lemma DeviceHasNoDot(d: string)
    requires IsDevice(d)
    ensures '.' !in d
  {
    if |d| == 4 {
      assert d == d[..3] + [d[3]];
    }
  }

  lemma {:induction false} FirstDotEndsStem(name: string, m: nat)
    requires m <= |name| && '.' !in name[..m] && (m < |name| ==> name[m] == '.')
    ensures Stem(name) == name[..m]
  {
    if m > 0 {
      assert name[0] == name[..m][0];
      assert name[1..][..m - 1] == name[..m][1..];
      FirstDotEndsStem(name[1..], m - 1);
    }
  }

  lemma DotEndsStem(name: string, device: string)
    requires Names(name, device)
    ensures FoldAll(Stem(name)) == device
  {
    DeviceHasNoDot(device);
    var m, folded := |device|, FoldAll(name);
    assert folded[..m] == device;
    if m < |name| {
      assert folded[m] == (device + ".")[m];
    }
    forall i | 0 <= i < m ensures name[i] != '.' {
      assert folded[i] == device[i] && device[i] in device;
    }
    FirstDotEndsStem(name, m);
    assert FoldAll(name[..m]) == folded[..m];
  }

  /** The reserved names are the 22 devices, in any case, alone or with any extension. */
  lemma ReservedIsADevice(name: string)
    ensures ReservedOrStream(name) <==> ':' in name || exists device :: Names(name, device)
  {
    ReservedStem(Stem(name));
    if IsDevice(FoldAll(Stem(name))) {
      StemNames(name);
    }
    if device :| Names(name, device) {
      DotEndsStem(name, device);
    }
  }

  // ---------------------------------------------------------------------------------------------
  // Writing a path and reading it back.

  lemma {:induction false} SegmentsOfName(system: System, name: string)
    requires SeparatorFree(system, name)
    ensures Segments(system, name) == [name]
  {
    if name != "" {
      SegmentsOfName(system, name[1..]);
      assert [name[0]] + name[1..] == name;
    }
  }

  lemma {:induction false} SegmentsAfterName(system: System, name: string, c: char, rest: string)
    requires SeparatorFree(system, name) && Separates(system, c)
    ensures Segments(system, name + [c] + rest) == [name] + Segments(system, rest)
  {
    var text := name + [c] + rest;
    if name == "" {
      assert text[1..] == rest;
    } else {
      assert text[1..] == name[1..] + [c] + rest;
      SegmentsAfterName(system, name[1..], c, rest);
      assert [name[0]] + name[1..] == name;
    }
  }

  /** Splitting a slash-joined path gives its components back, on either system. */
  lemma {:induction false} SplitUndoesJoin(system: System, rel: Rel)
    requires rel != [] && forall i :: 0 <= i < |rel| ==> SeparatorFree(system, rel[i])
    ensures Segments(system, Join(rel)) == rel
  {
    if |rel| == 1 {
      SegmentsOfName(system, rel[0]);
    } else {
      SplitUndoesJoin(system, rel[1..]);
      SegmentsAfterName(system, rel[0], '/', Join(rel[1..]));
    }
  }

  function AsNormals(rel: Rel): seq<Component> {
    seq(|rel|, i requires 0 <= i < |rel| => Normal(rel[i]))
  }

  lemma {:induction false} ClassifyPlain(system: System, rel: Rel, front: bool)
    requires AllPlain(system, rel)
    ensures Classify(rel, front) == AsNormals(rel)
  {
    if rel != [] {
      ClassifyPlain(system, rel[1..], false);
      assert Plain(system, rel[0]);
      assert AsNormals(rel) == [Normal(rel[0])] + AsNormals(rel[1..]);
    }
  }

  lemma {:induction false} NormalsOfPlain(rel: Rel)
    ensures NormalsOf(AsNormals(rel)) == rel
  {
    if rel != [] {
      var front := rel[..|rel| - 1];
      NormalsOfPlain(front);
      assert AsNormals(rel)[..|rel| - 1] == AsNormals(front);
      assert front + [rel[|rel| - 1]] == rel;
    }
  }

  lemma JoinedFront(rel: Rel)
    requires rel != [] && rel[0] != ""
    ensures Join(rel) != "" && Join(rel)[0] == rel[0][0]
  {
  }

  lemma StoredComponents(system: System, rel: Rel)
    requires rel != [] && AllPlain(system, rel)
    ensures RootedComponents(system, Join(rel)) == AsNormals(rel)
  {
    assert Plain(system, rel[0]);
    JoinedFront(rel);
    SplitUndoesJoin(system, rel);
    ClassifyPlain(system, rel, true);
  }

  lemma SlashAfterFirst(rel: Rel)
    requires rel != [] && |rel[0]| == 1 && |Join(rel)| >= 2
    ensures Join(rel)[1] == '/'
  {
  }

  /** Only a first name with a colon can pass for a drive. */
  lemma DriveHasColon(system: System, rel: Rel)
    requires rel != [] && AllPlain(system, rel) && HasDrive(system, Join(rel))
    ensures !Survives(rel[0])
  {
    assert Plain(system, rel[0]);
    var text := Join(rel);
    if |rel[0]| == 1 {
      SlashAfterFirst(rel);
    } else {
      assert text[..|rel[0]|] == rel[0];
      assert rel[0][1] == ':';
    }
  }

  lemma HarmlessNormals(rel: Rel)
    ensures AllHarmless(AsNormals(rel)) <==> AllSurvive(rel)
  {
    if AllHarmless(AsNormals(rel)) {
      forall i | 0 <= i < |rel| ensures Survives(rel[i]) {
        assert Harmless(AsNormals(rel)[i]);
      }
    }
  }

  lemma DriveIsRefused(system: System, text: string)
    requires HasDrive(system, text)
    ensures Sanitized(system, text) == None
  {
    assert !Harmless(ComponentsOf(system, text)[0]);
  }

  /** A path the writer stores is read back as itself, or refused: exactly when each name survives. */
  lemma StoredPathReadsBack(system: System, rel: Rel)
    requires rel != [] && AllPlain(system, rel)
    ensures Sanitized(system, Join(rel)) == if AllSurvive(rel) then Some(rel) else None
  {
    if HasDrive(system, Join(rel)) {
      DriveHasColon(system, rel);
      DriveIsRefused(system, Join(rel));
    } else {
      StoredComponents(system, rel);
      NormalsOfPlain(rel);
      HarmlessNormals(rel);
    }
  }

  // ---------------------------------------------------------------------------------------------
  // The identity entry.

  const IDENTITY_ENTRY: string := "identity/identity.json"

  predicate IsIdentity(rel: Rel) {
    EqIgnoreCase(Join(rel), IDENTITY_ENTRY)
  }

  const IDENTITY_REL: Rel := ["identity", "identity.json"]

  lemma IdentityIsJoined()
    ensures Join(IDENTITY_REL) == IDENTITY_ENTRY
  {
    assert IDENTITY_REL[1..] == ["identity.json"];
    assert Join(["identity.json"]) == "identity.json";
  }

  lemma {:induction false} FoldSegments(text: string)
    ensures Segments(Unix, FoldAll(text)) == seq(|Segments(Unix, text)|, i requires 0 <= i < |Segments(Unix, text)| => FoldAll(Segments(Unix, text)[i]))
  {
    if text != "" {
      FoldSegments(text[1..]);
      assert FoldAll(text)[1..] == FoldAll(text[1..]);
      assert FoldAll(text)[0] == Fold(text[0]);
      var rest := Segments(Unix, text[1..]);
      if text[0] != '/' {
        assert FoldAll([text[0]] + rest[0]) == [Fold(text[0])] + FoldAll(rest[0]);
      }
    }
  }

  lemma FoldedPair(a: string, b: string)
    ensures FoldAll(a + "/" + b) == FoldAll(a) + "/" + FoldAll(b)
  {
  }

  lemma {:induction false} FoldedSegments(rel: Rel)
    requires rel != [] && forall i :: 0 <= i < |rel| ==> SeparatorFree(Unix, rel[i])
    ensures |Segments(Unix, FoldAll(Join(rel)))| == |rel|
    ensures forall i :: 0 <= i < |rel| ==> Segments(Unix, FoldAll(Join(rel)))[i] == FoldAll(rel[i])
  {
    SplitUndoesJoin(Unix, rel);
    FoldSegments(Join(rel));
  }

  /** A path matches the identity entry exactly when its two components do, case aside. */
  lemma IdentityMatchesByComponent(system: System, rel: Rel)
    requires rel != [] && AllPlain(system, rel)
    ensures IsIdentity(rel) <==> |rel| == 2 && EqIgnoreCase(rel[0], "identity") && EqIgnoreCase(rel[1], "identity.json")
  {
    IdentityIsJoined();
    forall i | 0 <= i < |rel| ensures SeparatorFree(Unix, rel[i]) { assert Plain(system, rel[i]); }
    FoldedSegments(rel);
    FoldedSegments(IDENTITY_REL);
    if |rel| == 2 && EqIgnoreCase(rel[0], "identity") && EqIgnoreCase(rel[1], "identity.json") {
      assert Join(rel) == rel[0] + "/" + rel[1] by {
        assert rel[1..] == [rel[1]];
        assert Join([rel[1]]) == rel[1];
      }
      FoldedPair(rel[0], rel[1]);
      FoldedPair("identity", "identity.json");
    }
  }

  // ---------------------------------------------------------------------------------------------
  // Which texts are accepted, piece by piece.

  /** The pieces that name something, in their order. */
  function Named(pieces: seq<string>): Rel {
    if pieces == [] then []
    else (if pieces[0] == "" || pieces[0] == "." then [] else [pieces[0]]) + Named(pieces[1..])
  }

  lemma {:induction false} NormalsAppend(a: seq<Component>, b: seq<Component>)
    ensures NormalsOf(a + b) == NormalsOf(a) + NormalsOf(b)
  {
    if b == [] {
      assert a + b == a;
    } else {
      assert (a + b)[..|a + b| - 1] == a + b[..|b| - 1];
      NormalsAppend(a, b[..|b| - 1]);
    }
  }

  lemma OneNormal(c: Component)
    ensures NormalsOf([c]) == if c.Normal? then [c.name] else []
  {
    assert [c][..0] == [];
  }

  /** The harmless component lists are those without a climb, and their names are the named pieces. */
  lemma {:induction false} ClassifyNames(pieces: seq<string>, front: bool)
    ensures ".." !in pieces ==> NormalsOf(Classify(pieces, front)) == Named(pieces)
    ensures AllHarmless(Classify(pieces, front)) <==> ".." !in pieces && AllSurvive(Named(pieces))
  {
    hide Survives;
    if pieces != [] {
      var s, rest := pieces[0], Classify(pieces[1..], false);
      ClassifyNames(pieces[1..], false);
      assert pieces == [s] + pieces[1..];
      var head := if s == "" then [] else if s == "." then (if front then [Current] else []) else if s == ".." then [Parent] else [Normal(s)];
      assert Classify(pieces, front) == head + rest;
      NormalsAppend(head, rest);
      if head != [] { OneNormal(head[0]); }
      HarmlessTogether(head, rest);
      SurviveTogether(if s == "" || s == "." then [] else [s], Named(pieces[1..]));
    }
  }

  lemma HarmlessTogether(a: seq<Component>, b: seq<Component>)
    ensures AllHarmless(a + b) <==> AllHarmless(a) && AllHarmless(b)
  {
    hide Harmless;
    var all := a + b;
    if AllHarmless(all) {
      forall i | 0 <= i < |a| ensures Harmless(a[i]) { assert all[i] == a[i]; }
      forall i | 0 <= i < |b| ensures Harmless(b[i]) { assert all[|a| + i] == b[i]; }
    }
  }

  lemma SurviveTogether(a: Rel, b: Rel)
    ensures AllSurvive(a + b) <==> AllSurvive(a) && AllSurvive(b)
  {
    hide Survives;
    var all := a + b;
    if AllSurvive(all) {
      forall i | 0 <= i < |a| ensures Survives(a[i]) { assert all[i] == a[i]; }
      forall i | 0 <= i < |b| ensures Survives(b[i]) { assert all[|a| + i] == b[i]; }
    }
  }

  /** A path is accepted exactly when it names something, names no drive, does not start at a root,
      never climbs, and every name in it is one every file system keeps; it is then those names. */
  lemma AcceptedIff(system: System, text: string)
    ensures var pieces := Segments(system, text);
            Sanitized(system, text) ==
              if !HasDrive(system, text) && (text == "" || !Separates(system, text[0])) && ".." !in pieces
                 && Named(pieces) != [] && AllSurvive(Named(pieces))
              then Some(Named(pieces)) else None
  {
    hide Survives, Segments;
    var pieces := Segments(system, text);
    ClassifyNames(pieces, true);
    if HasDrive(system, text) {
      assert ComponentsOf(system, text)[0] == Prefix;
    } else if text != "" && Separates(system, text[0]) {
      assert ComponentsOf(system, text)[0] == Root;
    } else {
      assert ComponentsOf(system, text) == Classify(pieces, true);
    }
  }
}
