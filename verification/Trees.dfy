/**
  varvig/internal/merge/tree.go: flattening a tree object into a path map and building
  the tree objects of a path map.
 */
module Trees {
  import opened Basics
  import opened Objects
  import opened Orders

  const SLASH: byte := 47
  const MODE_FILE: nat := 0x81A4
  const MODE_TREE: nat := 0x4000

  type Path = Bytes

  /** fileEnt: a file in a flattened tree. */
  datatype File = File(id: Id, mode: nat)

  type Files = map<Path, File>

  function Join(prefix: Path, name: Name): Path {
    if prefix == [] then name else prefix + [SLASH] + name
  }

  // ----- flatten -----

  lemma EntryRanks(w: World, u: Store, id: Id)
    requires w.Valid() && Intact(w, u) && id in u && u[id].TreeObj?
    ensures forall e :: e in u[id].entries ==> w.rank(e.id) < w.rank(id)
  {
    forall e | e in u[id].entries ensures w.rank(e.id) < w.rank(id) {
      var k :| 0 <= k < |u[id].entries| && u[id].entries[k] == e;
      assert EntryIds(u[id].entries)[k] == e.id;
      assert e.id in Children(u[id]);
    }
  }

  /** The files under tree `id`, or none when some object on the way is not a readable tree. */
  ghost function FlatTree(w: World, u: Store, id: Id, prefix: Path): Option<Files>
    requires w.Valid() && Intact(w, u)
    decreases w.rank(id), 1, 0
  {
    if id in u && u[id].TreeObj? then
      EntryRanks(w, u, id);
      FlatEntries(w, u, u[id].entries, prefix, w.rank(id))
    else None
  }

  ghost function FlatEntries(w: World, u: Store, es: seq<Entry>, prefix: Path, bound: nat): Option<Files>
    requires w.Valid() && Intact(w, u)
    requires forall e :: e in es ==> w.rank(e.id) < bound
    decreases bound, 0, |es|
  {
    if es == [] then Some(map[])
    else
      var n := |es| - 1;
      var before := FlatEntries(w, u, es[..n], prefix, bound);
      var own := FlatEntry(w, u, es[n], prefix, bound);
      if before.None? || own.None? then None else Some(before.value + own.value)
  }

  ghost function FlatEntry(w: World, u: Store, e: Entry, prefix: Path, bound: nat): Option<Files>
    requires w.Valid() && Intact(w, u) && w.rank(e.id) < bound
    decreases bound, 0, 0
  {
    if e.kind == TYPE_TREE then FlatTree(w, u, e.id, Join(prefix, e.name))
    else Some(map[Join(prefix, e.name) := File(e.id, e.mode)])
  }

  /** A tree id may be nil: the tree without files. */
  ghost function Flat(w: World, u: Store, id: Option<Id>): Option<Files>
    requires w.Valid() && Intact(w, u)
  {
    if id.None? then Some(map[]) else FlatTree(w, u, id.value, [])
  }

  lemma {:induction false} FlatEntriesPrefix(w: World, u: Store, es: seq<Entry>, prefix: Path, bound: nat, k: nat)
    requires w.Valid() && Intact(w, u) && k <= |es|
    requires forall e :: e in es ==> w.rank(e.id) < bound
    requires FlatEntries(w, u, es, prefix, bound).Some?
    ensures FlatEntries(w, u, es[..k], prefix, bound).Some?
  {
    if k < |es| {
      var n := |es| - 1;
      FlatEntriesPrefix(w, u, es[..n], prefix, bound, k);
      assert es[..n][..k] == es[..k];
    } else {
      assert es[..k] == es;
    }
  }

  /** What is readable stays readable, with the same files, as the store grows. */
  lemma {:induction false} FlatTreeGrows(w: World, u: Store, v: Store, id: Id, prefix: Path)
    requires w.Valid() && Intact(w, u) && Intact(w, v) && Grows(u, v)
    requires FlatTree(w, u, id, prefix).Some?
    ensures FlatTree(w, v, id, prefix) == FlatTree(w, u, id, prefix)
    decreases w.rank(id), 1, 0
  {
    EntryRanks(w, u, id);
    FlatEntriesGrow(w, u, v, u[id].entries, prefix, w.rank(id));
  }

  lemma {:induction false} FlatEntriesGrow(w: World, u: Store, v: Store, es: seq<Entry>, prefix: Path, bound: nat)
    requires w.Valid() && Intact(w, u) && Intact(w, v) && Grows(u, v)
    requires forall e :: e in es ==> w.rank(e.id) < bound
    requires FlatEntries(w, u, es, prefix, bound).Some?
    ensures FlatEntries(w, v, es, prefix, bound) == FlatEntries(w, u, es, prefix, bound)
    decreases bound, 0, |es|
  {
    if es != [] {
      var n := |es| - 1;
      FlatEntriesGrow(w, u, v, es[..n], prefix, bound);
      if es[n].kind == TYPE_TREE {
        FlatTreeGrows(w, u, v, es[n].id, Join(prefix, es[n].name));
      }
    }
  }

  /** The map a flattening call fills in place. */
  class FileMap {
    var files: Files

    constructor ()
      ensures files == map[]
    {
      files := map[];
    }
  }

  lemma FlatEntriesStep(w: World, u: Store, es: seq<Entry>, prefix: Path, bound: nat, k: nat)
    requires w.Valid() && Intact(w, u) && k < |es|
    requires forall e :: e in es ==> w.rank(e.id) < bound
    ensures var before := FlatEntries(w, u, es[..k], prefix, bound);
            var own := FlatEntry(w, u, es[k], prefix, bound);
            var after := FlatEntries(w, u, es[..k + 1], prefix, bound);
            && (after.Some? <==> before.Some? && own.Some?)
            && (after.Some? ==> after.value == before.value + own.value)
            && (after.None? ==> FlatEntries(w, u, es, prefix, bound).None?)
  {
    assert es[..k + 1][..k] == es[..k];
    if FlatEntries(w, u, es, prefix, bound).Some? { FlatEntriesPrefix(w, u, es, prefix, bound, k + 1); }
  }

  /** The case of one entry in flattenInto. */
  method FlattenEntry(objs: ObjectStore, e: Entry, prefix: Path, out: FileMap, ghost bound: nat) returns (ok: bool)
    requires objs.Valid() && objs.w.rank(e.id) < bound
    modifies out
    ensures ok <==> FlatEntry(objs.w, objs.objs, e, prefix, bound).Some?
    ensures ok ==> out.files == old(out.files) + FlatEntry(objs.w, objs.objs, e, prefix, bound).value
    decreases bound, 0
  {
    var p := e.name;
    if prefix != [] { p := prefix + [SLASH] + e.name; }
    if e.kind == TYPE_TREE {
      ok := FlattenInto(objs, e.id, p, out);
    } else {
      out.files := out.files[p := File(e.id, e.mode)];
      ok := true;
    }
  }

  method FlattenInto(objs: ObjectStore, id: Id, prefix: Path, out: FileMap) returns (ok: bool)
    requires objs.Valid()
    modifies out
    ensures ok <==> FlatTree(objs.w, objs.objs, id, prefix).Some?
    ensures ok ==> out.files == old(out.files) + FlatTree(objs.w, objs.objs, id, prefix).value
    decreases objs.w.rank(id), 2
  {
    if id !in objs.objs || !objs.objs[id].TreeObj? { return false; }
    EntryRanks(objs.w, objs.objs, id);
    ok := FlattenList(objs, objs.objs[id].entries, prefix, out, objs.w.rank(id));
  }

  /** The loop over the entries of one tree. */
  method FlattenList(objs: ObjectStore, es: seq<Entry>, prefix: Path, out: FileMap, ghost bound: nat) returns (ok: bool)
    requires objs.Valid() && forall e :: e in es ==> objs.w.rank(e.id) < bound
    modifies out
    ensures ok <==> FlatEntries(objs.w, objs.objs, es, prefix, bound).Some?
    ensures ok ==> out.files == old(out.files) + FlatEntries(objs.w, objs.objs, es, prefix, bound).value
    decreases bound, 1
  {
    ghost var flat: Files := map[];
    ghost var w, u := objs.w, objs.objs;
    for k := 0 to |es|
      invariant FlatEntries(w, u, es[..k], prefix, bound) == Some(flat)
      invariant out.files == old(out.files) + flat
    {
      FlatEntriesStep(w, u, es, prefix, bound, k);
      assert es[k] in es;
      ghost var own := FlatEntry(w, u, es[k], prefix, bound);
      var sub := FlattenEntry(objs, es[k], prefix, out, bound);
      if !sub { return false; }
      MapAssociates(old(out.files), flat, own.value);
      flat := flat + own.value;
    }
    assert es[..|es|] == es;
    return true;
  }

  lemma MapAssociates<K, V>(a: map<K, V>, b: map<K, V>, c: map<K, V>)
    ensures (a + b) + c == a + (b + c)
  {
  }

  method Flatten(objs: ObjectStore, id: Option<Id>) returns (r: Option<Files>)
    requires objs.Valid()
    ensures r == Flat(objs.w, objs.objs, id)
  {
    if id.None? { return Some(map[]); }
    var out := new FileMap();
    var ok := FlattenInto(objs, id.value, [], out);
    if !ok { return None; }
    ghost var files := FlatTree(objs.w, objs.objs, id.value, []).value;
    assert map[] + files == files;
    return Some(out.files);
  }

  // ----- path maps -----

  /** strings.IndexByte(p, '/'), or the length when there is none. */
  function FirstSlash(p: Path): (i: nat)
    ensures i <= |p| && SLASH !in p[..i] && (i < |p| ==> p[i] == SLASH)
    ensures i < |p| <==> SLASH in p
  {
    if p == [] || p[0] == SLASH then 0
    else
      assert p == [p[0]] + p[1..];
      FirstSlash(p[1..]) + 1
  }

  function Head(p: Path): (n: Name)
    ensures SLASH !in n
  {
    p[..FirstSlash(p)]
  }

  /** The path of `r` inside directory `seg`. */
  function Under(seg: Path, r: Path): Path {
    seg + [SLASH] + r
  }

  function Tail(p: Path): (r: Path)
    requires SLASH in p
    ensures p == Under(Head(p), r)
  {
    p[FirstSlash(p) + 1..]
  }

  lemma {:induction false} SplitUnder(seg: Name, r: Path)
    requires SLASH !in seg
    ensures SLASH in Under(seg, r) && Head(Under(seg, r)) == seg && Tail(Under(seg, r)) == r
  {
    if seg != [] {
      SplitUnder(seg[1..], r);
      assert Under(seg, r)[1..] == Under(seg[1..], r);
      assert Under(seg, r)[0] == seg[0] != SLASH;
    }
    assert Under(seg, r)[|seg|] == SLASH;
    assert FirstSlash(Under(seg, r)) == |seg|;
  }

  lemma UnderUnder(a: Path, b: Path, c: Path)
    ensures Under(Under(a, b), c) == Under(a, Under(b, c))
  {
    assert a + [SLASH] + b + [SLASH] + c == a + [SLASH] + (b + [SLASH] + c);
  }

  /** The files directly in this directory. */
  function Blobs(files: Files): Files {
    map p | p in files && SLASH !in p :: files[p]
  }

  /** The first segments of the files further down. */
  function Dirs(files: Files): (r: set<Name>)
    ensures forall seg :: seg in r ==> SLASH !in seg
  {
    set p | p in files && SLASH in p :: Head(p)
  }

  /** The files under one first segment, without it. */
  function Sub(files: Files, seg: Name): (r: Files)
    requires SLASH !in seg
    ensures forall p :: p in r <==> Under(seg, p) in files
    ensures forall p :: p in r ==> r[p] == files[Under(seg, p)]
  {
    var tails := set p | p in files && SLASH in p && Head(p) == seg :: Tail(p);
    assert forall p :: p in tails <==> Under(seg, p) in files by {
      forall p | Under(seg, p) in files ensures p in tails { SplitUnder(seg, p); }
    }
    map p | p in tails :: files[Under(seg, p)]
  }

  /** The length of the longest path. */
  ghost function Longest(ps: set<Path>): (n: nat)
    ensures forall p :: p in ps ==> |p| <= n
    ensures ps != {} ==> exists p :: p in ps && |p| == n
  {
    if ps == {} then 0
    else
      var p :| p in ps;
      var n := Longest(ps - {p});
      assert ps == (ps - {p}) + {p};
      if n > |p| then n else |p|
  }

  lemma SubShorter(files: Files, seg: Name)
    requires SLASH !in seg && seg in Dirs(files)
    ensures Sub(files, seg).Keys != {}
    ensures Longest(Sub(files, seg).Keys) < Longest(files.Keys)
  {
    var p :| p in files && SLASH in p && Head(p) == seg;
    assert Tail(p) in Sub(files, seg);
    var q :| q in Sub(files, seg).Keys && |q| == Longest(Sub(files, seg).Keys);
    assert Under(seg, q) in files.Keys;
  }

  /** No file's path is a directory on the way to another file. */
  ghost predicate PrefixFree(files: Files) {
    forall p, r :: p in files ==> Under(p, r) !in files
  }

  lemma PrefixFreeSub(files: Files, seg: Name)
    requires PrefixFree(files) && SLASH !in seg
    ensures PrefixFree(Sub(files, seg))
  {
    forall p, r | p in Sub(files, seg) ensures Under(p, r) !in Sub(files, seg) { UnderUnder(seg, p, r); }
  }

  /** Prefix-freeness, one level at a time. */
  lemma PrefixFreeLevels(files: Files)
    ensures PrefixFree(files) <==>
            Blobs(files).Keys !! Dirs(files) && forall seg :: seg in Dirs(files) ==> PrefixFree(Sub(files, seg))
  {
    if PrefixFree(files) {
      forall seg | seg in Dirs(files) ensures seg !in Blobs(files) && PrefixFree(Sub(files, seg)) {
        var q :| q in files && SLASH in q && Head(q) == seg;
        assert q == Under(seg, Tail(q));
        PrefixFreeSub(files, seg);
      }
    } else {
      var p, r :| p in files && Under(p, r) in files;
      if SLASH !in p {
        SplitUnder(p, r);
        assert p in Blobs(files).Keys && p in Dirs(files);
      } else {
        var seg, t := Head(p), Tail(p);
        UnderUnder(seg, t, r);
        SplitUnder(seg, Under(t, r));
        assert t in Sub(files, seg) && Under(t, r) in Sub(files, seg);
        assert seg in Dirs(files);
      }
    }
  }

  // ----- buildTree -----

  /** The children of the root directory, in name order. */
  ghost function Names(files: Files): (ns: seq<Name>)
    ensures Ascending(Less, ns) && Elements(ns) == Blobs(files).Keys + Dirs(files)
  {
    SortedSet(Blobs(files).Keys + Dirs(files))
  }

  function BlobEntry(files: Files, n: Name): Entry
    requires n in Blobs(files)
  {
    Entry(n, files[n].mode, TYPE_BLOB, files[n].id)
  }

  ghost function DirEntry(w: World, files: Files, n: Name): Entry
    requires n in Dirs(files)
    decreases Longest(files.Keys), 0
  {
    SubShorter(files, n);
    Entry(n, MODE_TREE, TYPE_TREE, BuildId(w, Sub(files, n)))
  }

  ghost function EntryFor(w: World, files: Files, n: Name): (e: Entry)
    requires n in Blobs(files).Keys + Dirs(files)
    ensures e.name == n
    decreases Longest(files.Keys), 1
  {
    if n in Dirs(files) then DirEntry(w, files, n) else BlobEntry(files, n)
  }

  ghost function BuildEntries(w: World, files: Files): (es: Entries)
    ensures |es| == |Names(files)|
    ensures forall k :: 0 <= k < |es| ==> Names(files)[k] in Blobs(files).Keys + Dirs(files) && es[k] == EntryFor(w, files, Names(files)[k])
    decreases Longest(files.Keys), 2
  {
    var ns := Names(files);
    assert forall k :: 0 <= k < |ns| ==> ns[k] in Elements(ns);
    seq(|ns|, k requires 0 <= k < |ns| => EntryFor(w, files, ns[k]))
  }

  /** The id of the tree of a path map: a function of the map alone. */
  ghost function BuildId(w: World, files: Files): Id
    decreases Longest(files.Keys), 3
  {
    w.hash(TreeObj(BuildEntries(w, files)))
  }

  /** Every tree object of the path map is stored. */
  ghost predicate Built(w: World, u: Store, files: Files)
    decreases Longest(files.Keys)
  {
    && BuildId(w, files) in u
    && u[BuildId(w, files)] == TreeObj(BuildEntries(w, files))
    && (forall seg :: seg in Dirs(files) ==> (SubShorter(files, seg); Built(w, u, Sub(files, seg))))
  }

  lemma {:induction false} BuiltGrows(w: World, u: Store, v: Store, files: Files)
    requires Grows(u, v) && Built(w, u, files)
    ensures Built(w, v, files)
    decreases Longest(files.Keys)
  {
    forall seg | seg in Dirs(files) ensures Built(w, v, Sub(files, seg)) {
      SubShorter(files, seg);
      BuiltGrows(w, u, v, Sub(files, seg));
    }
  }

  /** The first level of the path map `files`, sorted into files and directories. */
  ghost predicate IsSplit(files: Files, blobs: Files, subdirs: map<Name, Files>) {
    && blobs == Blobs(files)
    && subdirs.Keys == Dirs(files)
    && forall seg :: seg in subdirs ==> subdirs[seg] == Sub(files, seg)
  }

  lemma BlobsExtend(files: Files, p: Path, f: File)
    requires p !in files
    ensures Blobs(files[p := f]) == if SLASH in p then Blobs(files) else Blobs(files)[p := f]
    ensures Dirs(files[p := f]) == if SLASH in p then Dirs(files) + {Head(p)} else Dirs(files)
  {
  }

  lemma SubExtendOther(files: Files, p: Path, f: File, seg: Name)
    requires SLASH !in seg && (SLASH in p ==> Head(p) != seg)
    ensures Sub(files[p := f], seg) == Sub(files, seg)
  {
    forall r ensures Under(seg, r) != p { SplitUnder(seg, r); }
  }

  lemma SubExtendOwn(files: Files, p: Path, f: File)
    requires SLASH in p
    ensures Sub(files[p := f], Head(p)) == Sub(files, Head(p))[Tail(p) := f]
  {
    var seg := Head(p);
    forall r ensures Under(seg, r) == p <==> r == Tail(p) { SplitUnder(seg, r); }
  }

  lemma SubOfNoDir(files: Files, seg: Name)
    requires SLASH !in seg && seg !in Dirs(files)
    ensures Sub(files, seg) == map[]
  {
    forall r ensures Under(seg, r) !in files { SplitUnder(seg, r); }
  }

  lemma SplitExtendBlob(files: Files, next: Files, blobs: Files, subdirs: map<Name, Files>, p: Path, f: File)
    requires SLASH !in p && p !in files && next == files[p := f] && IsSplit(files, blobs, subdirs)
    ensures IsSplit(next, blobs[p := f], subdirs)
  {
    BlobsExtend(files, p, f);
    forall seg | seg in subdirs ensures subdirs[seg] == Sub(next, seg) {
      SubExtendOther(files, p, f, seg);
    }
  }

  lemma SubExtended(files: Files, subdirs: map<Name, Files>, p: Path, f: File)
    requires SLASH in p && subdirs.Keys == Dirs(files) && (Head(p) in subdirs ==> subdirs[Head(p)] == Sub(files, Head(p)))
    ensures Sub(files[p := f], Head(p)) == (if Head(p) in subdirs then subdirs[Head(p)] else map[])[Tail(p) := f]
  {
    SubExtendOwn(files, p, f);
    if Head(p) !in subdirs { SubOfNoDir(files, Head(p)); }
  }

  lemma SplitExtendDir(files: Files, next: Files, blobs: Files, subdirs: map<Name, Files>, p: Path, f: File, grown: map<Name, Files>)
    requires SLASH in p && p !in files && next == files[p := f] && IsSplit(files, blobs, subdirs)
    requires grown.Keys == subdirs.Keys + {Head(p)}
    requires grown[Head(p)] == (if Head(p) in subdirs then subdirs[Head(p)] else map[])[Tail(p) := f]
    requires forall seg :: seg in subdirs && seg != Head(p) ==> grown[seg] == subdirs[seg]
    ensures IsSplit(next, blobs, grown)
  {
    BlobsExtend(files, p, f);
    SubExtended(files, subdirs, p, f);
    forall seg | seg in grown ensures grown[seg] == Sub(next, seg) {
      if seg != Head(p) { SubExtendOther(files, p, f, seg); }
    }
  }

  /** One turn of the loop that sorts paths into files of this directory and files below it. */
  method SplitPath(ghost done: Files, blobs: Files, subdirs: map<Name, Files>, p: Path, f: File)
    returns (blobs': Files, subdirs': map<Name, Files>)
    requires p !in done && IsSplit(done, blobs, subdirs)
    ensures IsSplit(done[p := f], blobs', subdirs')
  {
    blobs', subdirs' := blobs, subdirs;
    if SLASH in p {
      var seg, rest := Head(p), Tail(p);
      if seg !in subdirs { subdirs' := subdirs[seg := map[]]; }
      subdirs' := subdirs'[seg := subdirs'[seg][rest := f]];
      SplitExtendDir(done, done[p := f], blobs, subdirs, p, f, subdirs');
    } else {
      blobs' := blobs[p := f];
      SplitExtendBlob(done, done[p := f], blobs, subdirs, p, f);
    }
  }

  method SplitPaths(files: Files) returns (blobs: Files, subdirs: map<Name, Files>)
    ensures IsSplit(files, blobs, subdirs)
  {
    blobs, subdirs := map[], map[];
    var todo := files.Keys;
    ghost var done: Files := map[];
    while todo != {}
      invariant todo <= files.Keys && done == files - todo
      invariant IsSplit(done, blobs, subdirs)
    {
      var p :| p in todo;
      blobs, subdirs := SplitPath(done, blobs, subdirs, p, files[p]);
      todo := todo - {p};
      done := done[p := files[p]];
    }
    assert done == files;
  }

  lemma NamesOrder()
    ensures StrictOrder(ByName)
    ensures forall a, b, c :: ByName(a, c) ==> ByName(a, b) || ByName(b, c)
  {
    LessIsStrictTotal();
    forall a, b, c | ByName(a, c) ensures ByName(a, b) || ByName(b, c) {
      assert a.name == b.name || Less(a.name, b.name) || Less(b.name, a.name);
    }
  }

  /** object.NewTree sorts by name and panics (None) on a duplicate. */
  function NewTree(entries: seq<Entry>): (r: Option<Object>)
    ensures r.Some? ==> NamesAscending(Sort(ByName, entries)) && r.value == TreeObj(Sort(ByName, entries))
  {
    var es := Sort(ByName, entries);
    if exists i :: 0 < i < |es| && es[i].name == es[i - 1].name then None
    else
      AdjacentDiffer(entries);
      Some(TreeObj(es))
  }

  lemma AdjacentDiffer(entries: seq<Entry>)
    requires !exists i :: 0 < i < |Sort(ByName, entries)| && Sort(ByName, entries)[i].name == Sort(ByName, entries)[i - 1].name
    ensures NamesAscending(Sort(ByName, entries))
  {
    NamesOrder();
    SortSorted(ByName, entries);
    LessIsStrictTotal();
    var es := Sort(ByName, entries);
    forall i, j | 0 <= i < j < |es| ensures Less(es[i].name, es[j].name) {
      assert es[i + 1].name != es[(i + 1) - 1].name;
      assert !ByName(es[i + 1], es[i]);
      if j > i + 1 { assert !ByName(es[j], es[i + 1]); }
    }
  }

  /** The file entries collected for the names `ns`, in any order. */
  ghost predicate BlobsCollected(files: Files, ns: set<Name>, bs: seq<Entry>) {
    && ns <= Blobs(files).Keys && NoDuplicates(bs)
    && (forall e :: e in bs ==> e.name in ns && e == BlobEntry(files, e.name))
    && (forall n :: n in ns ==> BlobEntry(files, n) in bs)
  }

  /** The subdirectory entries collected for the names `ns`, in any order. */
  ghost predicate DirsCollected(w: World, files: Files, ns: set<Name>, ds: seq<Entry>) {
    && ns <= Dirs(files) && NoDuplicates(ds)
    && (forall e :: e in ds ==> e.name in ns && e == DirEntry(w, files, e.name))
    && (forall n :: n in ns ==> DirEntry(w, files, n) in ds)
  }

  /** What buildTree has in hand when it calls NewTree. */
  ghost predicate Collected(w: World, files: Files, bs: seq<Entry>, ds: seq<Entry>) {
    BlobsCollected(files, Blobs(files).Keys, bs) && DirsCollected(w, files, Dirs(files), ds)
  }

  lemma CollectBlob(files: Files, ns: set<Name>, bs: seq<Entry>, n: Name)
    requires BlobsCollected(files, ns, bs) && n in Blobs(files) && n !in ns
    ensures BlobsCollected(files, ns + {n}, bs + [BlobEntry(files, n)])
  {
    assert forall e :: e in bs + [BlobEntry(files, n)] <==> e in bs || e == BlobEntry(files, n);
  }

  lemma CollectDir(w: World, files: Files, ns: set<Name>, ds: seq<Entry>, n: Name)
    requires DirsCollected(w, files, ns, ds) && n in Dirs(files) && n !in ns
    ensures DirsCollected(w, files, ns + {n}, ds + [DirEntry(w, files, n)])
  {
    assert forall e :: e in ds + [DirEntry(w, files, n)] <==> e in ds || e == DirEntry(w, files, n);
  }

  lemma CollectedElements(w: World, files: Files, bs: seq<Entry>, ds: seq<Entry>)
    requires Collected(w, files, bs, ds) && Blobs(files).Keys !! Dirs(files)
    ensures Elements(bs + ds) == Elements(BuildEntries(w, files))
  {
    var want := BuildEntries(w, files);
    forall e ensures e in bs + ds <==> e in want {
      if e in want {
        var k :| 0 <= k < |want| && want[k] == e;
        assert e == EntryFor(w, files, e.name);
      }
      if e in bs + ds {
        assert e in bs || e in ds;
        assert e.name in Elements(Names(files)) && e == EntryFor(w, files, e.name);
        var k :| 0 <= k < |want| && Names(files)[k] == e.name;
        assert want[k] == e;
      }
    }
  }

  lemma CollectedDisjoint(w: World, files: Files, bs: seq<Entry>, ds: seq<Entry>)
    requires Collected(w, files, bs, ds) && Blobs(files).Keys !! Dirs(files)
    ensures NoDuplicates(bs + ds) && Elements(bs + ds) == Elements(BuildEntries(w, files))
    ensures TotalOn(ByName, Elements(bs + ds)) && Ascending(ByName, BuildEntries(w, files))
  {
    CollectedElements(w, files, bs, ds);
    forall i, j | 0 <= i < j < |bs + ds| ensures (bs + ds)[i] != (bs + ds)[j] {
      if i < |bs| <= j {
        assert bs[i] in bs && ds[j - |bs|] in ds;
        assert bs[i].name in Blobs(files).Keys && ds[j - |bs|].name in Dirs(files);
      }
    }
    LessIsStrictTotal();
    forall x, y | x in Elements(bs + ds) && y in Elements(bs + ds) && x != y ensures ByName(x, y) || ByName(y, x) {
      assert x in bs || x in ds;
      assert y in bs || y in ds;
      assert x == EntryFor(w, files, x.name) && y == EntryFor(w, files, y.name);
    }
  }

  lemma ClashPanics(w: World, files: Files, bs: seq<Entry>, ds: seq<Entry>, n: Name)
    requires Collected(w, files, bs, ds) && n in Blobs(files).Keys && n in Dirs(files)
    ensures NewTree(bs + ds).None?
  {
    var es := Sort(ByName, bs + ds);
    var x, y := BlobEntry(files, n), DirEntry(w, files, n);
    assert x in bs + ds && y in bs + ds;
    assert x in multiset(es) && y in multiset(es) && x != y;
    var i :| 0 <= i < |es| && es[i] == x;
    var j :| 0 <= j < |es| && es[j] == y;
    LessIrreflexive(n);
    assert !NamesAscending(es) by { assert !Less(es[i].name, es[j].name) && !Less(es[j].name, es[i].name); }
  }

  /** NewTree panics exactly when a name is both a file and a directory; otherwise order is forgotten. */
  lemma NewTreeOfCollected(w: World, files: Files, bs: seq<Entry>, ds: seq<Entry>)
    requires Collected(w, files, bs, ds)
    ensures NewTree(bs + ds).Some? <==> Blobs(files).Keys !! Dirs(files)
    ensures NewTree(bs + ds).Some? ==> NewTree(bs + ds).value == TreeObj(BuildEntries(w, files))
  {
    if n :| n in Blobs(files).Keys && n in Dirs(files) {
      ClashPanics(w, files, bs, ds, n);
    } else {
      NamesOrder();
      CollectedDisjoint(w, files, bs, ds);
      var want := BuildEntries(w, files);
      SortUnique(ByName, bs + ds, want);
      forall i | 0 < i < |want| ensures want[i].name != want[i - 1].name { LessIrreflexive(want[i].name); }
    }
  }

  method BuildBlobs(files: Files, blobs: Files) returns (bs: seq<Entry>)
    requires blobs == Blobs(files)
    ensures BlobsCollected(files, blobs.Keys, bs)
  {
    bs := [];
    var todo := blobs.Keys;
    while todo != {}
      invariant todo <= blobs.Keys && BlobsCollected(files, blobs.Keys - todo, bs)
    {
      var n :| n in todo;
      CollectBlob(files, blobs.Keys - todo, bs, n);
      bs := bs + [Entry(n, blobs[n].mode, TYPE_BLOB, blobs[n].id)];
      assert blobs.Keys - (todo - {n}) == (blobs.Keys - todo) + {n};
      todo := todo - {n};
    }
    assert blobs.Keys - {} == blobs.Keys;
  }

  method BuildTree(objs: ObjectStore, files: Files) returns (r: Option<Id>)
    requires objs.Valid()
    modifies objs
    ensures objs.Valid() && AddsFiles(old(objs.objs), objs.objs)
    ensures r.Some? <==> PrefixFree(files)
    ensures r.Some? ==> r.value == BuildId(objs.w, files) && Built(objs.w, objs.objs, files)
    decreases Longest(files.Keys), 1
  {
    var blobs, subdirs := SplitPaths(files);
    PrefixFreeLevels(files);
    var bs := BuildBlobs(files, blobs);
    var ds := BuildSubdirs(objs, files, subdirs);
    if ds.None? { return None; }
    NewTreeOfCollected(objs.w, files, bs, ds.value);
    var tree := NewTree(bs + ds.value);
    if tree.None? { return None; }
    ghost var before := objs.objs;
    var id := objs.Put(tree.value);
    forall seg | seg in Dirs(files) ensures Built(objs.w, objs.objs, Sub(files, seg)) {
      BuiltGrows(objs.w, before, objs.objs, Sub(files, seg));
    }
    return Some(id);
  }

  ghost predicate AllBuilt(w: World, u: Store, files: Files, segs: set<Name>)
    requires segs <= Dirs(files)
  {
    forall seg :: seg in segs ==> PrefixFree(Sub(files, seg)) && Built(w, u, Sub(files, seg))
  }

  lemma AllBuiltExtend(w: World, u: Store, v: Store, files: Files, segs: set<Name>, seg: Name)
    requires segs <= Dirs(files) && seg in Dirs(files)
    requires AllBuilt(w, u, files, segs) && Grows(u, v)
    requires PrefixFree(Sub(files, seg)) && Built(w, v, Sub(files, seg))
    ensures AllBuilt(w, v, files, segs + {seg})
  {
    forall s | s in segs ensures Built(w, v, Sub(files, s)) {
      BuiltGrows(w, u, v, Sub(files, s));
    }
  }

  /** The subdirectories `segs` are built and their entries collected. */
  ghost predicate DirsReady(w: World, u: Store, files: Files, segs: set<Name>, ds: seq<Entry>) {
    DirsCollected(w, files, segs, ds) && AllBuilt(w, u, files, segs)
  }

  /** One subdirectory: built, and its entry appended. */
  method BuildSubdir(objs: ObjectStore, files: Files, seg: Name, sub: Files, ds: seq<Entry>, ghost segs: set<Name>) returns (r: Option<seq<Entry>>)
    requires objs.Valid() && seg in Dirs(files) && seg !in segs && sub == Sub(files, seg)
    requires DirsReady(objs.w, objs.objs, files, segs, ds)
    modifies objs
    ensures objs.Valid() && AddsFiles(old(objs.objs), objs.objs)
    ensures r.Some? <==> PrefixFree(sub)
    ensures r.Some? ==> DirsReady(objs.w, objs.objs, files, segs + {seg}, r.value)
    decreases Longest(files.Keys), 0, 0
  {
    SubShorter(files, seg);
    CollectDir(objs.w, files, segs, ds, seg);
    ghost var before := objs.objs;
    var id := BuildTree(objs, sub);
    if id.None? { return None; }
    AllBuiltExtend(objs.w, before, objs.objs, files, segs, seg);
    return Some(ds + [Entry(seg, MODE_TREE, TYPE_TREE, id.value)]);
  }

  /** The loop that builds the subdirectories; None when one of them panics. */
  method BuildSubdirs(objs: ObjectStore, files: Files, subdirs: map<Name, Files>) returns (r: Option<seq<Entry>>)
    requires objs.Valid() && subdirs.Keys == Dirs(files) && forall seg :: seg in subdirs ==> subdirs[seg] == Sub(files, seg)
    modifies objs
    ensures objs.Valid() && AddsFiles(old(objs.objs), objs.objs)
    ensures r.Some? <==> forall seg :: seg in Dirs(files) ==> PrefixFree(Sub(files, seg))
    ensures r.Some? ==> DirsReady(objs.w, objs.objs, files, Dirs(files), r.value)
    decreases Longest(files.Keys), 0, 1
  {
    var ds: seq<Entry> := [];
    var todo := subdirs.Keys;
    ghost var w, start := objs.w, objs.objs;
    ghost var dirs, done: set<Name> := Dirs(files), {};
    while todo != {}
      invariant done + todo == dirs && done !! todo
      invariant objs.Valid() && AddsFiles(start, objs.objs)
      invariant DirsReady(w, objs.objs, files, done, ds)
    {
      var seg :| seg in todo;
      assert seg in dirs && seg !in done;
      var next := BuildSubdir(objs, files, seg, subdirs[seg], ds, done);
      if next.None? { return None; }
      ds := next.value;
      todo := todo - {seg};
      done := done + {seg};
    }
    assert done == dirs;
    return Some(ds);
  }
}
