/** Flattening undoes building, exactly when no path starts with a slash. */
module TreeLaws {
  import opened Basics
  import opened Objects
  import opened Orders
  import opened Trees

  ghost predicate NoLeadingSlash(files: Files) {
    forall p :: p in files && p != [] ==> p[0] != SLASH
  }

  /** Takes the directory off again. */
  ghost function Strip(prefix: Path, q: Path): Path {
    if prefix == [] || |q| <= |prefix| then q else q[|prefix| + 1..]
  }

  lemma StripJoin(prefix: Path, p: Path)
    ensures Strip(prefix, Join(prefix, p)) == p
  {
  }

  lemma JoinUnder(prefix: Path, n: Name, r: Path)
    requires Join(prefix, n) != []
    ensures Join(Join(prefix, n), r) == Join(prefix, Under(n, r))
  {
    assert prefix + [SLASH] + n + [SLASH] + r == prefix + [SLASH] + (n + [SLASH] + r);
  }

  /** `m` is the path map `files` moved below a directory. */
  ghost predicate IsMoved(prefix: Path, files: Files, m: Files) {
    && (forall q {:trigger q in m} :: q in m ==>
          Join(prefix, Strip(prefix, q)) == q && Strip(prefix, q) in files && m[q] == files[Strip(prefix, q)])
    && (forall p {:trigger Join(prefix, p)} :: p in files ==> Join(prefix, p) in m)
  }

  lemma MovedNowhere(files: Files, m: Files)
    requires IsMoved([], files, m)
    ensures m == files
  {
    forall p | p in files ensures p in m { assert Join([], p) == p; }
  }

  lemma MovedUnion(prefix: Path, a: Files, b: Files, x: Files, y: Files)
    requires IsMoved(prefix, a, x) && IsMoved(prefix, b, y)
    ensures IsMoved(prefix, a + b, x + y)
  {
    forall q | q in x + y
      ensures Join(prefix, Strip(prefix, q)) == q && Strip(prefix, q) in a + b && (x + y)[q] == (a + b)[Strip(prefix, q)]
    {
      if q !in y { assert Strip(prefix, q) !in b; }
    }
  }

  /** The files whose first segment is among `ns`. */
  ghost function Part(files: Files, ns: set<Name>): Files {
    map p | p in files && Head(p) in ns :: files[p]
  }

  lemma MovedPart(prefix: Path, files: Files, ns: set<Name>, n: Name, x: Files, y: Files)
    requires IsMoved(prefix, Part(files, ns), x) && IsMoved(prefix, Part(files, {n}), y)
    ensures IsMoved(prefix, Part(files, ns + {n}), x + y)
  {
    MovedUnion(prefix, Part(files, ns), Part(files, {n}), x, y);
    assert Part(files, ns + {n}) == Part(files, ns) + Part(files, {n});
  }

  lemma HeadIsName(files: Files, p: Path)
    requires p in files
    ensures Head(p) in Blobs(files).Keys + Dirs(files)
    ensures SLASH !in p ==> Head(p) == p
  {
  }

  /** The files below one directory, seen from above. */
  lemma DirPart(prefix: Path, files: Files, n: Name, m: Files)
    requires n in Dirs(files) && n !in Blobs(files) && Join(prefix, n) != []
    requires IsMoved(Join(prefix, n), Sub(files, n), m)
    ensures IsMoved(prefix, Part(files, {n}), m)
  {
    forall q | q in m
      ensures Join(prefix, Strip(prefix, q)) == q && Strip(prefix, q) in Part(files, {n}) && m[q] == files[Strip(prefix, q)]
    {
      var r := Strip(Join(prefix, n), q);
      JoinUnder(prefix, n, r);
      SplitUnder(n, r);
      StripJoin(prefix, Under(n, r));
    }
    forall p | p in Part(files, {n}) ensures Join(prefix, p) in m {
      HeadIsName(files, p);
      assert SLASH in p by { assert p !in Blobs(files).Keys; }
      assert p == Under(n, Tail(p)) && Tail(p) in Sub(files, n);
      JoinUnder(prefix, n, Tail(p));
    }
  }

  lemma BlobPart(prefix: Path, files: Files, n: Name)
    requires n in Blobs(files) && n !in Dirs(files)
    ensures IsMoved(prefix, Part(files, {n}), map[Join(prefix, n) := files[n]])
  {
    HeadIsName(files, n);
    StripJoin(prefix, n);
    forall p | p in Part(files, {n}) ensures p == n { HeadIsName(files, p); }
  }

  /** A built tree flattens entry by entry. */
  lemma FlatOfBuilt(w: World, u: Store, files: Files, prefix: Path)
    requires w.Valid() && Intact(w, u) && Built(w, u, files)
    ensures forall e :: e in BuildEntries(w, files) ==> w.rank(e.id) < w.rank(BuildId(w, files))
    ensures FlatTree(w, u, BuildId(w, files), prefix)
            == FlatEntries(w, u, BuildEntries(w, files)[..|Names(files)|], prefix, w.rank(BuildId(w, files)))
  {
    var es := BuildEntries(w, files);
    EntryRanks(w, u, BuildId(w, files));
    assert es[..|es|] == es;
  }

  /** One more entry of a built tree, by the name it stands under. */
  lemma BuiltStep(w: World, u: Store, files: Files, prefix: Path, bound: nat, k: nat)
    requires w.Valid() && Intact(w, u) && k < |Names(files)|
    requires forall e :: e in BuildEntries(w, files) ==> w.rank(e.id) < bound
    ensures Names(files)[k] in Blobs(files).Keys + Dirs(files) && w.rank(EntryFor(w, files, Names(files)[k]).id) < bound
    ensures var before := FlatEntries(w, u, BuildEntries(w, files)[..k], prefix, bound);
            var own := FlatEntry(w, u, EntryFor(w, files, Names(files)[k]), prefix, bound);
            var after := FlatEntries(w, u, BuildEntries(w, files)[..k + 1], prefix, bound);
            (after.Some? <==> before.Some? && own.Some?) && (after.Some? ==> after.value == before.value + own.value)
  {
    var es := BuildEntries(w, files);
    assert es[k] in es && es[k] == EntryFor(w, files, Names(files)[k]);
    FlatEntriesStep(w, u, es, prefix, bound, k);
  }

  lemma AllParts(files: Files)
    ensures Part(files, Elements(Names(files)[..|Names(files)|])) == files
  {
    assert Names(files)[..|Names(files)|] == Names(files);
    forall p | p in files ensures Head(p) in Elements(Names(files)) { HeadIsName(files, p); }
    PartOfAll(files, Elements(Names(files)));
  }

  lemma PartOfAll(files: Files, ns: set<Name>)
    requires forall p :: p in files ==> Head(p) in ns
    ensures Part(files, ns) == files
  {
  }

  lemma {:induction false} BuiltFlat(w: World, u: Store, files: Files, prefix: Path)
    requires w.Valid() && Intact(w, u) && Built(w, u, files) && PrefixFree(files)
    requires prefix != [] || NoLeadingSlash(files)
    ensures FlatTree(w, u, BuildId(w, files), prefix).Some?
    ensures IsMoved(prefix, files, FlatTree(w, u, BuildId(w, files), prefix).value)
    decreases Longest(files.Keys), |Names(files)| + 1
  {
    FlatOfBuilt(w, u, files, prefix);
    BuiltFlatEntries(w, u, files, prefix, w.rank(BuildId(w, files)), |Names(files)|);
    AllParts(files);
  }

  lemma {:induction false} BuiltFlatEntries(w: World, u: Store, files: Files, prefix: Path, bound: nat, k: nat)
    requires w.Valid() && Intact(w, u) && Built(w, u, files) && PrefixFree(files)
    requires prefix != [] || NoLeadingSlash(files)
    requires k <= |Names(files)| && forall e :: e in BuildEntries(w, files) ==> w.rank(e.id) < bound
    ensures var m := FlatEntries(w, u, BuildEntries(w, files)[..k], prefix, bound);
            m.Some? && IsMoved(prefix, Part(files, Elements(Names(files)[..k])), m.value)
    decreases Longest(files.Keys), k
  {
    if k > 0 {
      BuiltFlatEntries(w, u, files, prefix, bound, k - 1);
      BuiltNameRanks(w, files, bound, k - 1);
      BuiltFlatEntry(w, u, files, prefix, bound, Names(files)[k - 1]);
      MovedStep(w, u, files, prefix, bound, k - 1);
    }
  }

  lemma BuiltNameRanks(w: World, files: Files, bound: nat, k: nat)
    requires k < |Names(files)| && forall e :: e in BuildEntries(w, files) ==> w.rank(e.id) < bound
    ensures Names(files)[k] in Blobs(files).Keys + Dirs(files) && w.rank(EntryFor(w, files, Names(files)[k]).id) < bound
  {
    var es := BuildEntries(w, files);
    assert es[k] in es && es[k] == EntryFor(w, files, Names(files)[k]);
  }

  /** The first k entries and entry k, each moved below the prefix, are the first k + 1. */
  lemma MovedStep(w: World, u: Store, files: Files, prefix: Path, bound: nat, k: nat)
    requires w.Valid() && Intact(w, u) && k < |Names(files)|
    requires forall e :: e in BuildEntries(w, files) ==> w.rank(e.id) < bound
    requires Names(files)[k] in Blobs(files).Keys + Dirs(files) && w.rank(EntryFor(w, files, Names(files)[k]).id) < bound
    requires var m := FlatEntries(w, u, BuildEntries(w, files)[..k], prefix, bound);
             m.Some? && IsMoved(prefix, Part(files, Elements(Names(files)[..k])), m.value)
    requires var own := FlatEntry(w, u, EntryFor(w, files, Names(files)[k]), prefix, bound);
             own.Some? && IsMoved(prefix, Part(files, {Names(files)[k]}), own.value)
    ensures var m := FlatEntries(w, u, BuildEntries(w, files)[..k + 1], prefix, bound);
            m.Some? && IsMoved(prefix, Part(files, Elements(Names(files)[..k + 1])), m.value)
  {
    var n := Names(files)[k];
    var x := FlatEntries(w, u, BuildEntries(w, files)[..k], prefix, bound).value;
    var y := FlatEntry(w, u, EntryFor(w, files, n), prefix, bound).value;
    BuiltStep(w, u, files, prefix, bound, k);
    MovedPart(prefix, files, Elements(Names(files)[..k]), n, x, y);
    ElementsPrefix(Names(files), k);
  }

  lemma {:induction false} BuiltFlatEntry(w: World, u: Store, files: Files, prefix: Path, bound: nat, n: Name)
    requires w.Valid() && Intact(w, u) && Built(w, u, files) && PrefixFree(files)
    requires prefix != [] || NoLeadingSlash(files)
    requires n in Blobs(files).Keys + Dirs(files) && w.rank(EntryFor(w, files, n).id) < bound
    ensures var m := FlatEntry(w, u, EntryFor(w, files, n), prefix, bound);
            m.Some? && IsMoved(prefix, Part(files, {n}), m.value)
    decreases Longest(files.Keys), 0
  {
    PrefixFreeLevels(files);
    if n in Dirs(files) {
      SubShorter(files, n);
      assert Join(prefix, n) != [] by {
        if prefix == [] {
          var p :| p in files && SLASH in p && Head(p) == n;
          assert p != [] && p[0] != SLASH;
        }
      }
      BuiltFlat(w, u, Sub(files, n), Join(prefix, n));
      DirPart(prefix, files, n, FlatTree(w, u, BuildId(w, Sub(files, n)), Join(prefix, n)).value);
    } else {
      BlobPart(prefix, files, n);
    }
  }

  /** Flattening what was built gives the path map back. */
  lemma FlattenUndoesBuild(w: World, u: Store, files: Files)
    requires w.Valid() && Intact(w, u) && Built(w, u, files) && PrefixFree(files) && NoLeadingSlash(files)
    ensures Flat(w, u, Some(BuildId(w, files))) == Some(files)
  {
    BuiltFlat(w, u, files, []);
    MovedNowhere(files, FlatTree(w, u, BuildId(w, files), []).value);
  }

  lemma EntryReadable(w: World, u: Store, es: seq<Entry>, prefix: Path, bound: nat, k: nat)
    requires w.Valid() && Intact(w, u) && k < |es|
    requires forall e :: e in es ==> w.rank(e.id) < bound
    requires FlatEntries(w, u, es, prefix, bound).Some?
    ensures w.rank(es[k].id) < bound && FlatEntry(w, u, es[k], prefix, bound).Some?
  {
    FlatEntriesPrefix(w, u, es, prefix, bound, k + 1);
    FlatEntriesStep(w, u, es, prefix, bound, k);
  }

  lemma DirReadable(w: World, u: Store, files: Files, es: seq<Entry>, prefix: Path, bound: nat, seg: Name)
    requires w.Valid() && Intact(w, u) && seg in Dirs(files) && es == BuildEntries(w, files)
    requires forall e :: e in es ==> w.rank(e.id) < bound
    requires FlatEntries(w, u, es, prefix, bound).Some?
    ensures FlatTree(w, u, BuildId(w, Sub(files, seg)), Join(prefix, seg)).Some?
  {
    var k := DirAt(files, seg);
    assert es[k] == DirEntry(w, files, seg);
    EntryReadable(w, u, es, prefix, bound, k);
  }

  lemma DirAt(files: Files, seg: Name) returns (k: nat)
    requires seg in Dirs(files)
    ensures k < |Names(files)| && Names(files)[k] == seg
  {
    assert seg in Elements(Names(files));
    k :| 0 <= k < |Names(files)| && Names(files)[k] == seg;
  }

  lemma ReadableEntries(w: World, u: Store, files: Files, prefix: Path)
    requires w.Valid() && Intact(w, u) && FlatTree(w, u, BuildId(w, files), prefix).Some?
    ensures u[BuildId(w, files)] == TreeObj(BuildEntries(w, files))
    ensures forall e :: e in BuildEntries(w, files) ==> w.rank(e.id) < w.rank(BuildId(w, files))
    ensures FlatEntries(w, u, BuildEntries(w, files), prefix, w.rank(BuildId(w, files))).Some?
  {
    var id, es := BuildId(w, files), BuildEntries(w, files);
    assert w.verifies(id, u[id]) && w.verifies(id, TreeObj(es));
    EntryRanks(w, u, id);
  }

  /** What can be flattened under the id of a path map is the tree built from that map. */
  lemma {:induction false} ReadableIsBuilt(w: World, u: Store, files: Files, prefix: Path)
    requires w.Valid() && Intact(w, u) && FlatTree(w, u, BuildId(w, files), prefix).Some?
    ensures Built(w, u, files)
    decreases Longest(files.Keys)
  {
    ReadableEntries(w, u, files, prefix);
    forall seg | seg in Dirs(files) ensures Built(w, u, Sub(files, seg)) {
      DirReadable(w, u, files, BuildEntries(w, files), prefix, w.rank(BuildId(w, files)), seg);
      SubShorter(files, seg);
      ReadableIsBuilt(w, u, Sub(files, seg), Join(prefix, seg));
    }
  }

  // ----- a leading slash does not survive -----

  ghost predicate AllBelow(prefix: Path, m: Files) {
    forall q :: q in m ==> prefix <= q
  }

  lemma {:induction false} FlatStaysBelow(w: World, u: Store, id: Id, prefix: Path)
    requires w.Valid() && Intact(w, u) && prefix != [] && FlatTree(w, u, id, prefix).Some?
    ensures AllBelow(prefix, FlatTree(w, u, id, prefix).value)
    decreases w.rank(id), 1, 0
  {
    EntryRanks(w, u, id);
    FlatEntriesStayBelow(w, u, u[id].entries, prefix, w.rank(id));
  }

  lemma {:induction false} FlatEntriesStayBelow(w: World, u: Store, es: seq<Entry>, prefix: Path, bound: nat)
    requires w.Valid() && Intact(w, u) && prefix != []
    requires forall e :: e in es ==> w.rank(e.id) < bound
    requires FlatEntries(w, u, es, prefix, bound).Some?
    ensures AllBelow(prefix, FlatEntries(w, u, es, prefix, bound).value)
    decreases bound, 0, |es|
  {
    if es != [] {
      var e := es[|es| - 1];
      FlatEntriesStayBelow(w, u, es[..|es| - 1], prefix, bound);
      if e.kind == TYPE_TREE { FlatStaysBelow(w, u, e.id, Join(prefix, e.name)); }
    }
  }

  /** If it can be read at all, no path in it starts with a slash. */
  ghost predicate NoneSlashed(m: Option<Files>) {
    m.Some? ==> NoLeadingSlash(m.value)
  }

  lemma {:induction false} EntriesDropSlash(w: World, u: Store, es: seq<Entry>, bound: nat)
    requires w.Valid() && Intact(w, u)
    requires forall e :: e in es ==> w.rank(e.id) < bound && NoneSlashed(FlatEntry(w, u, e, [], bound))
    ensures NoneSlashed(FlatEntries(w, u, es, [], bound))
    decreases |es|
  {
    if es != [] {
      var n := |es| - 1;
      EntriesDropSlash(w, u, es[..n], bound);
      assert es[n] in es;
    }
  }

  lemma {:induction false} BuiltFlatDropsSlash(w: World, u: Store, files: Files)
    requires w.Valid() && Intact(w, u) && Built(w, u, files)
    ensures NoneSlashed(FlatTree(w, u, BuildId(w, files), []))
    decreases Longest(files.Keys), 1
  {
    var es, bound := BuildEntries(w, files), w.rank(BuildId(w, files));
    EntryRanks(w, u, BuildId(w, files));
    forall e | e in es ensures w.rank(e.id) < bound && NoneSlashed(FlatEntry(w, u, e, [], bound)) {
      var k :| 0 <= k < |es| && es[k] == e;
      BuiltEntryDropsSlash(w, u, files, bound, Names(files)[k]);
    }
    EntriesDropSlash(w, u, es, bound);
  }

  lemma {:induction false} BuiltEntryDropsSlash(w: World, u: Store, files: Files, bound: nat, n: Name)
    requires w.Valid() && Intact(w, u) && Built(w, u, files)
    requires n in Blobs(files).Keys + Dirs(files) && w.rank(EntryFor(w, files, n).id) < bound
    ensures NoneSlashed(FlatEntry(w, u, EntryFor(w, files, n), [], bound))
    decreases Longest(files.Keys), 0
  {
    if n in Dirs(files) {
      SubShorter(files, n);
      BuiltDirDropsSlash(w, u, files, n);
    }
  }

  lemma {:induction false} BuiltDirDropsSlash(w: World, u: Store, files: Files, n: Name)
    requires w.Valid() && Intact(w, u) && SLASH !in n && Built(w, u, Sub(files, n))
    ensures NoneSlashed(FlatTree(w, u, BuildId(w, Sub(files, n)), n))
    decreases Longest(Sub(files, n).Keys), 2
  {
    var m := FlatTree(w, u, BuildId(w, Sub(files, n)), n);
    if n == [] {
      BuiltFlatDropsSlash(w, u, Sub(files, n));
    } else if m.Some? {
      FlatStaysBelow(w, u, BuildId(w, Sub(files, n)), n);
      forall q | q in m.value ensures q[0] != SLASH { assert n <= q && n[0] in n; }
    }
  }

  /** Flattening gives back exactly what was built if and only if no path starts with a slash. */
  lemma RoundTripExactly(w: World, u: Store, files: Files)
    requires w.Valid() && Intact(w, u) && Built(w, u, files) && PrefixFree(files)
    ensures Flat(w, u, Some(BuildId(w, files))) == Some(files) <==> NoLeadingSlash(files)
  {
    if NoLeadingSlash(files) {
      FlattenUndoesBuild(w, u, files);
    } else if Flat(w, u, Some(BuildId(w, files))).Some? {
      BuiltFlatDropsSlash(w, u, files);
    }
  }

  /** The one level of a map that holds only "/a": a directory without a name. */
  lemma SlashLevels(files: Files, f: File)
    requires files == map[Ascii("/a") := f]
    ensures Names(files) == [[]] && Dirs(files) == {[]} && Blobs(files) == map[]
    ensures Sub(files, []) == map[Ascii("a") := f]
  {
    var p := Ascii("/a");
    assert p == Under([], Ascii("a"));
    SplitUnder([], Ascii("a"));
    assert Dirs(files) == {[]} && Blobs(files) == map[];
    forall q ensures q in Sub(files, []) <==> q == Ascii("a") {
      if Under([], q) == p { assert q == Under([], q)[1..] == p[1..]; }
    }
    LessIsStrictTotal();
    AscendingUnique(Less, Names(files), [[]]);
  }

  lemma PlainFileStays(w: World, u: Store, files: Files, f: File)
    requires w.Valid() && Intact(w, u) && files == map[Ascii("a") := f] && Built(w, u, files)
    ensures Flat(w, u, Some(BuildId(w, files))) == Some(files)
  {
    assert Ascii("a")[0] != SLASH;
    FlattenUndoesBuild(w, u, files);
  }

  lemma OneFlat(w: World, u: Store, none: seq<Entry>, e: Entry, prefix: Path, bound: nat)
    requires w.Valid() && Intact(w, u) && none == [] && e.kind == TYPE_TREE && w.rank(e.id) < bound
    ensures FlatEntries(w, u, none, prefix, bound) == Some(map[])
    ensures var own := FlatEntry(w, u, e, prefix, bound);
            own == FlatTree(w, u, e.id, Join(prefix, e.name)) && (own.Some? ==> map[] + own.value == own.value)
  {
  }

  /** A map with one directory and nothing else flattens as that directory. */
  lemma OnlyDirFlat(w: World, u: Store, files: Files, n: Name)
    requires w.Valid() && Intact(w, u) && Built(w, u, files) && Names(files) == [n] && n in Dirs(files)
    ensures Flat(w, u, Some(BuildId(w, files))) == FlatTree(w, u, BuildId(w, Sub(files, n)), n)
  {
    var bound := w.rank(BuildId(w, files));
    FlatOfBuilt(w, u, files, []);
    BuiltStep(w, u, files, [], bound, 0);
    OneFlat(w, u, BuildEntries(w, files)[..0], EntryFor(w, files, n), [], bound);
  }

  /** A file whose path starts with a slash comes back without the slash. */
  lemma LeadingSlashIsLost(w: World, u: Store, files: Files, f: File)
    requires w.Valid() && Intact(w, u) && files == map[Ascii("/a") := f] && Built(w, u, files)
    ensures Flat(w, u, Some(BuildId(w, files))) == Some(map[Ascii("a") := f])
  {
    SlashLevels(files, f);
    SubShorter(files, []);
    PlainFileStays(w, u, Sub(files, []), f);
    OnlyDirFlat(w, u, files, []);
  }
}
