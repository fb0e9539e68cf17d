/** What the reader makes of entries the writer stored: it takes a list of files exactly when the
    list is `Readable`, and then keeps all of it. */
module ArchiveReadBack {
  import opened Wrappers
  import opened ArchivePaths
  import opened ArchiveRestore
  import opened ArchiveBackup
  import opened TextOrder

  // ---------------------------------------------------------------------------------------------
  // Files that can live in one directory tree.

  /** No file twice, and none where another has a directory. */
  ghost predicate Apart(files: seq<Written>) {
    && (forall w :: multiset(files)[w] <= 1)
    && (forall a, b :: a in files && b in files && a != b ==> !(a.rel <= b.rel))
  }

  ghost predicate Rooted(system: System, files: seq<Written>) {
    forall w :: w in files ==> w.rel != [] && AllPlain(system, w.rel)
  }

  ghost predicate NodeOk(system: System, node: Node)
    decreases node
  {
    node.Folder? ==> TreeOk(system, node.children)
  }

  /** What any file system guarantees: plain names, each once in its directory. */
  ghost predicate TreeOk(system: System, children: seq<Named>)
    decreases children
  {
    && (forall i :: 0 <= i < |children| ==> Plain(system, children[i].name) && NodeOk(system, children[i].node))
    && (forall i, j :: 0 <= i < j < |children| ==> children[i].name != children[j].name)
  }

  ghost predicate AllBelow(files: seq<Written>, path: Rel) {
    forall w :: w in files ==> path <= w.rel
  }

  lemma ApartAppend(a: seq<Written>, b: seq<Written>)
    requires Apart(a) && Apart(b)
    requires forall x, y :: x in a && y in b ==> !(x.rel <= y.rel) && !(y.rel <= x.rel)
    ensures Apart(a + b)
  {
    forall w ensures multiset(a + b)[w] <= 1 {
      assert multiset(a + b)[w] == multiset(a)[w] + multiset(b)[w];
      if w in a {
        assert w.rel <= w.rel;
        assert w !in b;
      }
    }
  }

  ghost predicate ChildOf(prefix: Rel, children: seq<Named>, w: Written) {
    exists i :: 0 <= i < |children| && prefix + [children[i].name] <= w.rel
  }

  lemma {:induction false} WalkIsApart(system: System, prefix: Rel, children: seq<Named>, skipped: Option<Rel>)
    requires TreeOk(system, children)
    ensures Apart(FilesUnder(prefix, children, skipped))
    ensures forall w :: w in FilesUnder(prefix, children, skipped) ==> ChildOf(prefix, children, w)
    decreases children
  {
    if children != [] {
      var front, last := children[..|children| - 1], children[|children| - 1];
      var a, b := FilesUnder(prefix, front, skipped), FilesAt(prefix + [last.name], last.node, skipped);
      WalkIsApart(system, prefix, front, skipped);
      assert NodeOk(system, last.node);
      NodeIsApart(system, prefix + [last.name], last.node, skipped);
      forall x, y | x in a && y in b ensures !(x.rel <= y.rel) && !(y.rel <= x.rel) {
        var i :| 0 <= i < |front| && prefix + [front[i].name] <= x.rel;
        assert x.rel[|prefix|] == front[i].name && y.rel[|prefix|] == last.name;
        assert front[i] == children[i];
      }
      ApartAppend(a, b);
      forall w | w in a + b ensures ChildOf(prefix, children, w) {
        if w in a {
          var i :| 0 <= i < |front| && prefix + [front[i].name] <= w.rel;
          assert children[i] == front[i];
        } else {
          assert prefix + [children[|children| - 1].name] <= w.rel;
        }
      }
    }
  }

  lemma {:induction false} NodeIsApart(system: System, path: Rel, node: Node, skipped: Option<Rel>)
    requires NodeOk(system, node)
    ensures Apart(FilesAt(path, node, skipped)) && AllBelow(FilesAt(path, node, skipped), path)
    decreases node
  {
    if node.Folder? {
      WalkIsApart(system, path, node.children, skipped);
      var files := FilesUnder(path, node.children, skipped);
      forall w | w in files ensures path <= w.rel {
        var i :| 0 <= i < |node.children| && path + [node.children[i].name] <= w.rel;
        assert path <= path + [node.children[i].name];
      }
    }
  }

  lemma {:induction false} WalkIsRooted(system: System, prefix: Rel, children: seq<Named>, skipped: Option<Rel>)
    requires TreeOk(system, children) && AllPlain(system, prefix)
    ensures Rooted(system, FilesUnder(prefix, children, skipped))
    decreases children
  {
    if children != [] {
      var last := children[|children| - 1];
      WalkIsRooted(system, prefix, children[..|children| - 1], skipped);
      assert Plain(system, last.name) && NodeOk(system, last.node);
      NodeIsRooted(system, prefix + [last.name], last.node, skipped);
    }
  }

  lemma {:induction false} NodeIsRooted(system: System, path: Rel, node: Node, skipped: Option<Rel>)
    requires NodeOk(system, node) && path != [] && AllPlain(system, path)
    ensures Rooted(system, FilesAt(path, node, skipped))
    decreases node
  {
    if node.Folder? {
      WalkIsRooted(system, path, node.children, skipped);
    }
  }

  lemma {:induction false} SkipDropsOne(prefix: Rel, children: seq<Named>, skipped: Rel)
    ensures forall w :: w in FilesUnder(prefix, children, Some(skipped)) <==> w in FilesUnder(prefix, children, None) && w.rel != skipped
    decreases children
  {
    if children != [] {
      var last := children[|children| - 1];
      SkipDropsOne(prefix, children[..|children| - 1], skipped);
      NodeDropsOne(prefix + [last.name], last.node, skipped);
    }
  }

  lemma {:induction false} NodeDropsOne(path: Rel, node: Node, skipped: Rel)
    ensures forall w :: w in FilesAt(path, node, Some(skipped)) <==> w in FilesAt(path, node, None) && w.rel != skipped
    decreases node
  {
    if node.Folder? {
      SkipDropsOne(path, node.children, skipped);
    }
  }

  // ---------------------------------------------------------------------------------------------
  // Lists of files as maps, and sorting them.

  ghost predicate MapOf(m: map<Rel, string>, files: seq<Written>) {
    && (forall w :: w in files ==> w.rel in m && m[w.rel] == w.data)
    && (forall r :: r in m ==> Written(r, m[r]) in files)
  }

  lemma LastIsAlone(front: seq<Written>, last: Written)
    requires Apart(front + [last])
    ensures Apart(front) && forall w :: w in front ==> w.rel != last.rel
  {
    var files := front + [last];
    assert multiset(files) == multiset(front) + multiset{last};
    assert multiset(files)[last] <= 1;
    forall w ensures multiset(front)[w] <= 1 { assert multiset(files)[w] <= 1; }
    assert forall w :: w in front ==> w in files;
    forall w | w in front ensures w.rel != last.rel {
      assert w in multiset(front) && w != last && last in files;
      assert !(w.rel <= last.rel);
    }
  }

  lemma MapOfNext(m: map<Rel, string>, front: seq<Written>, last: Written)
    requires MapOf(m, front) && forall w :: w in front ==> w.rel != last.rel
    ensures MapOf(m[last.rel := last.data], front + [last])
  {
    var all, n := front + [last], m[last.rel := last.data];
    forall w | w in all ensures w.rel in n && n[w.rel] == w.data {
      assert w == last || w in front;
    }
    forall r | r in n ensures Written(r, n[r]) in all {
      if r == last.rel { assert all[|front|] == Written(r, n[r]); } else { assert Written(r, m[r]) in front; }
    }
  }

  lemma {:induction false} FileMapIs(files: seq<Written>)
    requires Apart(files)
    ensures MapOf(FileMap(files), files)
  {
    if files != [] {
      hide Apart, MapOf;
      var front, last := files[..|files| - 1], files[|files| - 1];
      assert files == front + [last];
      LastIsAlone(front, last);
      FileMapIs(front);
      MapOfNext(FileMap(front), front, last);
    }
  }

  lemma {:induction false} InsertKeeps(sorted: seq<Written>, w: Written)
    ensures multiset(Insert(sorted, w)) == multiset(sorted) + multiset{w}
    ensures |Insert(sorted, w)| == |sorted| + 1
  {
    if !(sorted == [] || NotAfter(Join(sorted[|sorted| - 1].rel), Join(w.rel))) {
      var front, last := sorted[..|sorted| - 1], sorted[|sorted| - 1];
      InsertKeeps(front, w);
      assert sorted == front + [last];
    }
  }

  lemma {:induction false} InsertAdds(sorted: seq<Written>, w: Written)
    ensures Bytes(Insert(sorted, w)) == Bytes(sorted) + |w.data|
    ensures Components(Insert(sorted, w)) == Components(sorted) + |w.rel|
  {
    if sorted == [] || NotAfter(Join(sorted[|sorted| - 1].rel), Join(w.rel)) {
      SumsNext(sorted, w);
    } else {
      var front, last := sorted[..|sorted| - 1], sorted[|sorted| - 1];
      InsertAdds(front, w);
      SumsNext(Insert(front, w), last);
    }
  }

  lemma {:induction false} SortAdds(files: seq<Written>)
    ensures Bytes(SortedByName(files)) == Bytes(files) && Components(SortedByName(files)) == Components(files)
  {
    if files != [] {
      SortAdds(files[..|files| - 1]);
      InsertAdds(SortedByName(files[..|files| - 1]), files[|files| - 1]);
    }
  }

  lemma SortStep(files: seq<Written>)
    requires files != []
    ensures var front, last := files[..|files| - 1], files[|files| - 1];
            && multiset(SortedByName(files)) == multiset(SortedByName(front)) + multiset{last}
            && |SortedByName(files)| == |SortedByName(front)| + 1
            && multiset(files) == multiset(front) + multiset{last}
  {
    var front, last := files[..|files| - 1], files[|files| - 1];
    InsertKeeps(SortedByName(front), last);
    assert files == front + [last];
  }

  lemma {:induction false} SortKeepsAll(files: seq<Written>)
    ensures multiset(SortedByName(files)) == multiset(files) && |SortedByName(files)| == |files|
  {
    if files != [] {
      SortKeepsAll(files[..|files| - 1]);
      SortStep(files);
    }
  }

  lemma SortKeeps(files: seq<Written>)
    ensures multiset(SortedByName(files)) == multiset(files)
    ensures Bytes(SortedByName(files)) == Bytes(files) && Components(SortedByName(files)) == Components(files)
    ensures |SortedByName(files)| == |files|
  {
    SortAdds(files);
    SortKeepsAll(files);
  }

  function Components(files: seq<Written>): nat {
    if files == [] then 0 else Components(files[..|files| - 1]) + |files[|files| - 1].rel|
  }

  // ---------------------------------------------------------------------------------------------
  // What the reader makes of entries the writer stored.

  function NonIdentity(files: seq<Written>): seq<Written> {
    if files == [] then []
    else NonIdentity(files[..|files| - 1]) + (if IsIdentity(files[|files| - 1].rel) then [] else [files[|files| - 1]])
  }

  function LastIdentity(files: seq<Written>, host: Host): Option<Identity> {
    if files == [] then None
    else if IsIdentity(files[|files| - 1].rel) then ParseIdentity(files[|files| - 1].data, host)
    else LastIdentity(files[..|files| - 1], host)
  }

  function Parents(files: seq<Written>): set<Rel> {
    if files == [] then {}
    else
      var rel := files[|files| - 1].rel;
      Parents(files[..|files| - 1]) + (if rel == [] then {} else Prefixes(rel[..|rel| - 1]))
  }

  /** The reader's state once it has taken `files`. */
  function Taken(files: seq<Written>, host: Host): Extraction {
    var kept := NonIdentity(files);
    Extraction(Tree(kept, Parents(kept)), Bytes(files), Bytes(files), |files|, Components(files), LastIdentity(files, host))
  }

  predicate InCaps(files: seq<Written>) {
    Bytes(files) <= MAX_TOTAL_BYTES && |files| <= MAX_ENTRIES && Components(files) <= MAX_DIR_COMPONENTS
  }

  predicate Acceptable(w: Written, host: Host) {
    AllSurvive(w.rel) && (IsIdentity(w.rel) ==> ParseIdentity(w.data, host).Some?)
  }

  ghost predicate Readable(files: seq<Written>, host: Host) {
    InCaps(files) && forall w :: w in files ==> Acceptable(w, host)
  }

  lemma {:induction false} ParentOfSome(files: seq<Written>, p: Rel)
    requires p in Parents(files)
    ensures exists w :: w in files && p <= w.rel && p != w.rel
  {
    var front, last := files[..|files| - 1], files[|files| - 1];
    if p in Parents(front) {
      ParentOfSome(front, p);
      var w :| w in front && p <= w.rel && p != w.rel;
      assert w in files;
    } else {
      PrefixesAre(last.rel[..|last.rel| - 1]);
      assert last in files && p <= last.rel;
    }
  }

  /** Among files that can live in one tree, nothing stands in the way of the next. */
  lemma NothingInTheWay(files: seq<Written>, w: Written)
    requires Apart(files + [w]) && w.rel != []
    ensures !FileInTheWay(files, w.rel[..|w.rel| - 1]) && !IsFile(files, w.rel)
    ensures w.rel !in Parents(files) && w.rel !in Prefixes(w.rel[..|w.rel| - 1])
  {
    var all := files + [w];
    assert multiset(all) == multiset(files) + multiset{w};
    assert multiset(all)[w] <= 1;
    assert w !in multiset(files) && w in all;
    forall f | f in files ensures !(f.rel <= w.rel) && !(w.rel <= f.rel) {
      assert f in multiset(files) && f in all && f != w;
    }
    PrefixesAre(w.rel[..|w.rel| - 1]);
    forall i | 0 <= i < |files| ensures files[i].rel !in Prefixes(w.rel[..|w.rel| - 1]) {
      assert files[i] in files;
      assert !(files[i].rel <= w.rel);
    }
    forall i | 0 <= i < |files| ensures files[i].rel != w.rel {
      assert files[i] in files;
    }
    if w.rel in Parents(files) {
      ParentOfSome(files, w.rel);
    }
  }

  lemma PlaceIs(tree: Tree, w: Written)
    requires w.rel != [] && tree.dirs == Parents(tree.files) && Apart(tree.files + [w])
    ensures PlaceFile(tree, w.rel, w.data) == Some(Housing(tree, w))
  {
    NothingInTheWay(tree.files, w);
    assert Written(w.rel, w.data) == w;
  }

  /** The tree with one more file and its parents. */
  function Housing(tree: Tree, w: Written): Tree
    requires w.rel != []
  {
    Tree(tree.files + [w], tree.dirs + Prefixes(w.rel[..|w.rel| - 1]))
  }

  lemma ParentsNext(files: seq<Written>, w: Written)
    requires w.rel != []
    ensures Tree(files + [w], Parents(files + [w])) == Housing(Tree(files, Parents(files)), w)
  {
    assert (files + [w])[..|files|] == files;
  }

  predicate RoomFor(x: Extraction, w: Written) {
    && x.total + |w.data| <= MAX_TOTAL_BYTES && x.count + 1 <= MAX_ENTRIES
    && x.components + |w.rel| <= MAX_DIR_COMPONENTS
  }

  function Admitted(x: Extraction, w: Written): Extraction {
    x.(total := x.total + |w.data|, count := x.count + 1, components := x.components + |w.rel|)
  }

  lemma AdmitStored(system: System, x: Extraction, w: Written)
    requires w.rel != [] && AllPlain(system, w.rel)
    ensures Admit(x, EntryOf(w), system) == if RoomFor(x, w) && AllSurvive(w.rel) then Some((Admitted(x, w), w.rel)) else None
  {
    StoredPathReadsBack(system, w.rel);
  }

  lemma TakeStored(x: Extraction, w: Written, host: Host)
    requires w.rel != [] && AllPlain(host.system, w.rel) && x.readTotal == x.total && !host.diskFails(x.count)
    ensures ExtractEntry(x, EntryOf(w), host) ==
              if RoomFor(x, w) && AllSurvive(w.rel) then Place(Admitted(x, w), w.rel, w.data, host) else None
  {
    AdmitStored(host.system, x, w);
  }

  lemma KeptNext(front: seq<Written>, w: Written)
    ensures NonIdentity(front + [w]) == NonIdentity(front) + (if IsIdentity(w.rel) then [] else [w])
  {
    assert (front + [w])[..|front|] == front;
  }

  lemma LastNext(front: seq<Written>, w: Written, host: Host)
    ensures LastIdentity(front + [w], host) == if IsIdentity(w.rel) then ParseIdentity(w.data, host) else LastIdentity(front, host)
  {
    assert (front + [w])[..|front|] == front;
  }

  lemma SumsNext(front: seq<Written>, w: Written)
    ensures Bytes(front + [w]) == Bytes(front) + |w.data|
    ensures Components(front + [w]) == Components(front) + |w.rel|
  {
    assert (front + [w])[..|front|] == front;
  }

  /** The reader's state after it takes one more stored file. */
  function After(x: Extraction, w: Written, host: Host): Extraction
    requires w.rel != []
  {
    var y := x.(total := x.total + |w.data|, readTotal := x.readTotal + |w.data|, count := x.count + 1, components := x.components + |w.rel|);
    if IsIdentity(w.rel) then y.(pending := ParseIdentity(w.data, host))
    else y.(tree := Housing(x.tree, w))
  }

  lemma TakenNextTree(front: seq<Written>, w: Written, host: Host)
    requires w.rel != []
    ensures Taken(front + [w], host).tree == After(Taken(front, host), w, host).tree
  {
    KeptNext(front, w);
    if IsIdentity(w.rel) {
      assert NonIdentity(front) + [] == NonIdentity(front);
    } else {
      ParentsNext(NonIdentity(front), w);
    }
  }

  lemma TakenNextPending(front: seq<Written>, w: Written, host: Host)
    requires w.rel != []
    ensures Taken(front + [w], host).pending == After(Taken(front, host), w, host).pending
  {
    LastNext(front, w, host);
  }

  lemma TakenNextCounts(front: seq<Written>, w: Written, host: Host)
    requires w.rel != []
    ensures var r, x := Taken(front + [w], host), After(Taken(front, host), w, host);
            r.total == x.total && r.readTotal == x.readTotal && r.count == x.count && r.components == x.components
  {
    SumsNext(front, w);
  }

  lemma SameFields(x: Extraction, y: Extraction)
    requires x.tree == y.tree && x.pending == y.pending
    requires x.total == y.total && x.readTotal == y.readTotal && x.count == y.count && x.components == y.components
    ensures x == y
  {
  }

  lemma TakenNext(front: seq<Written>, w: Written, host: Host)
    requires w.rel != []
    ensures Taken(front + [w], host) == After(Taken(front, host), w, host)
  {
    TakenNextTree(front, w, host);
    TakenNextPending(front, w, host);
    TakenNextCounts(front, w, host);
    SameFields(Taken(front + [w], host), After(Taken(front, host), w, host));
  }

  ghost predicate ReadyFor(x: Extraction, w: Written, host: Host) {
    && w.rel != [] && AllPlain(host.system, w.rel) && x.readTotal == x.total && !host.diskFails(x.count)
    && x.tree.dirs == Parents(x.tree.files) && (!IsIdentity(w.rel) ==> Apart(x.tree.files + [w]))
  }

  lemma PlacedFile(x: Extraction, w: Written, host: Host, tree: Tree)
    requires w.rel != [] && !IsIdentity(w.rel)
    requires PlaceFile(x.tree, w.rel, w.data) == Some(tree)
    ensures Place(Admitted(x, w), w.rel, w.data, host) == Some(Admitted(x, w).(readTotal := x.readTotal + |w.data|, tree := tree))
  {
  }

  lemma PlacedIdentity(x: Extraction, w: Written, host: Host)
    requires w.rel != [] && IsIdentity(w.rel) && ParseIdentity(w.data, host).Some?
    ensures Place(Admitted(x, w), w.rel, w.data, host) == Some(After(x, w, host))
  {
  }

  lemma FilePlaced(x: Extraction, w: Written, host: Host)
    requires ReadyFor(x, w, host) && !IsIdentity(w.rel)
    ensures Place(Admitted(x, w), w.rel, w.data, host) == Some(After(x, w, host))
  {
    hide IsIdentity, AllPlain, Apart, Parents, PlaceFile, Housing;
    PlaceIs(x.tree, w);
    PlacedFile(x, w, host, Housing(x.tree, w));
  }

  lemma EntryPlaced(x: Extraction, w: Written, host: Host)
    requires ReadyFor(x, w, host) && RoomFor(x, w) && AllSurvive(w.rel) && (IsIdentity(w.rel) ==> ParseIdentity(w.data, host).Some?)
    ensures ExtractEntry(x, EntryOf(w), host) == Some(After(x, w, host))
  {
    TakeStored(x, w, host);
    if IsIdentity(w.rel) {
      PlacedIdentity(x, w, host);
    } else {
      FilePlaced(x, w, host);
    }
  }

  lemma EntryUnparsed(x: Extraction, w: Written, host: Host)
    requires ReadyFor(x, w, host) && RoomFor(x, w) && AllSurvive(w.rel) && IsIdentity(w.rel) && ParseIdentity(w.data, host).None?
    ensures ExtractEntry(x, EntryOf(w), host).None?
  {
    TakeStored(x, w, host);
  }

  lemma EntryTakes(x: Extraction, w: Written, host: Host)
    requires ReadyFor(x, w, host)
    ensures ExtractEntry(x, EntryOf(w), host) == if RoomFor(x, w) && Acceptable(w, host) then Some(After(x, w, host)) else None
  {
    hide RoomFor, AllSurvive, IsIdentity, ParseIdentity, ExtractEntry, Place, EntryOf, After, Apart, AllPlain, Parents;
    if !RoomFor(x, w) || !AllSurvive(w.rel) {
      TakeStored(x, w, host);
    } else if IsIdentity(w.rel) && ParseIdentity(w.data, host).None? {
      EntryUnparsed(x, w, host);
    } else {
      EntryPlaced(x, w, host);
    }
  }

  lemma ReadyAfter(front: seq<Written>, w: Written, host: Host)
    requires w.rel != [] && AllPlain(host.system, w.rel) && Apart(NonIdentity(front + [w])) && !host.diskFails(|front|)
    ensures ReadyFor(Taken(front, host), w, host)
  {
    hide IsIdentity, Apart, AllPlain, Parents, Bytes, Components, LastIdentity;
    KeptNext(front, w);
  }

  lemma RoomIs(front: seq<Written>, w: Written, host: Host)
    requires InCaps(front)
    ensures RoomFor(Taken(front, host), w) <==> InCaps(front + [w])
  {
    SumsNext(front, w);
  }

  lemma OneMore(front: seq<Written>, w: Written, host: Host)
    requires w.rel != [] && AllPlain(host.system, w.rel) && Apart(NonIdentity(front + [w])) && !host.diskFails(|front|) && InCaps(front)
    ensures ExtractEntry(Taken(front, host), EntryOf(w), host)
            == if InCaps(front + [w]) && Acceptable(w, host) then Some(Taken(front + [w], host)) else None
  {
    hide ReadyFor, Taken, After, RoomFor, InCaps, Acceptable, EntryOf, ExtractEntry, Apart, IsIdentity, AllPlain, NonIdentity;
    ReadyAfter(front, w, host);
    TakenNext(front, w, host);
    RoomIs(front, w, host);
    EntryTakes(Taken(front, host), w, host);
  }

  lemma SubApart(a: seq<Written>, b: seq<Written>)
    requires Apart(b) && multiset(a) <= multiset(b)
    ensures Apart(a)
  {
    forall w | w in a ensures w in b {
      assert w in multiset(a);
    }
  }

  lemma {:induction false} NonIdentityIsPart(files: seq<Written>)
    ensures multiset(NonIdentity(files)) <= multiset(files)
    ensures forall w :: w in NonIdentity(files) <==> w in files && !IsIdentity(w.rel)
  {
    hide IsIdentity;
    if files != [] {
      NonIdentityIsPart(files[..|files| - 1]);
      assert files == files[..|files| - 1] + [files[|files| - 1]];
    }
  }

  lemma ReadableFront(files: seq<Written>, host: Host)
    requires files != []
    ensures Readable(files, host) <==>
              Readable(files[..|files| - 1], host) && InCaps(files) && Acceptable(files[|files| - 1], host)
  {
    var front, w := files[..|files| - 1], files[|files| - 1];
    assert files == front + [w];
    if Readable(files, host) {
      assert w in files;
      forall v | v in front ensures Acceptable(v, host) {
        assert v in files;
      }
    }
  }

  /** The reader takes a list of stored files exactly when it is readable, and then takes it all. */
  lemma {:induction false} ExtractsIff(files: seq<Written>, host: Host)
    requires Rooted(host.system, files) && Apart(NonIdentity(files)) && forall n :: !host.diskFails(n)
    ensures ExtractAll(EntriesOf(files), host) == if Readable(files, host) then Some(Taken(files, host)) else None
  {
    if files != [] {
      var front, w := files[..|files| - 1], files[|files| - 1];
      assert files == front + [w];
      SubApart(NonIdentity(front), NonIdentity(files));
      ExtractsIff(front, host);
      var entries := EntriesOf(files);
      assert entries[..|entries| - 1] == EntriesOf(front) && entries[|entries| - 1] == EntryOf(w);
      ReadableFront(files, host);
      if Readable(front, host) {
        OneMore(front, w, host);
      }
    }
  }
}
