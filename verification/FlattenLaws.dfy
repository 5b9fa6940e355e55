/**
  What flattening shows and what building stores (varvig/internal/merge/tree.go): the paths
  of a tree are its chains of entries, and a built tree has one entry for every file and directory.
 */
module FlattenLaws {
  import opened Basics
  import opened Objects
  import opened Orders
  import opened Trees

  // ----- paths are chains of entries -----

  /** Some chain of tree entries, their names joined, ends in this file at this path. */
  ghost predicate Leads(w: World, u: Store, id: Id, prefix: Path, p: Path, f: File)
    requires w.Valid() && Intact(w, u)
    decreases w.rank(id), 0
  {
    id in u && u[id].TreeObj? && exists e :: e in u[id].entries && w.rank(e.id) < w.rank(id) && EntryLeads(w, u, e, prefix, p, f, w.rank(id))
  }

  ghost predicate EntryLeads(w: World, u: Store, e: Entry, prefix: Path, p: Path, f: File, bound: nat)
    requires w.Valid() && Intact(w, u) && w.rank(e.id) < bound
    decreases w.rank(e.id), 1
  {
    if e.kind == 2 then Leads(w, u, e.id, Join(prefix, e.name), p, f)
    else p == Join(prefix, e.name) && f == File(e.id, e.mode)
  }

  /** The map holds exactly the paths that some entry of the list leads to, each with a file it leads to. */
  ghost predicate ShowsEntries(w: World, u: Store, es: seq<Entry>, prefix: Path, bound: nat, m: Files)
    requires w.Valid() && Intact(w, u) && forall e :: e in es ==> w.rank(e.id) < bound
  {
    && (forall p :: p in m ==> exists e :: e in es && EntryLeads(w, u, e, prefix, p, m[p], bound))
    && (forall e, p, f :: e in es && EntryLeads(w, u, e, prefix, p, f, bound) ==> p in m)
  }

  lemma {:induction false} FlatEntriesShow(w: World, u: Store, es: seq<Entry>, prefix: Path, bound: nat)
    requires w.Valid() && Intact(w, u) && (forall e :: e in es ==> w.rank(e.id) < bound)
    requires FlatEntries(w, u, es, prefix, bound).Some?
    ensures ShowsEntries(w, u, es, prefix, bound, FlatEntries(w, u, es, prefix, bound).value)
    decreases bound, 0, |es|
  {
    if es != [] {
      var n := |es| - 1;
      FlatEntriesShow(w, u, es[..n], prefix, bound);
      FlatEntryShows(w, u, es[n], prefix, bound);
      OneMoreShown(w, u, es, prefix, bound, FlatEntries(w, u, es[..n], prefix, bound).value, FlatEntry(w, u, es[n], prefix, bound).value);
    }
  }

  lemma OneMoreShown(w: World, u: Store, es: seq<Entry>, prefix: Path, bound: nat, before: Files, own: Files)
    requires w.Valid() && Intact(w, u) && es != [] && forall e :: e in es ==> w.rank(e.id) < bound
    requires ShowsEntries(w, u, es[..|es| - 1], prefix, bound, before) && ShowsEntries(w, u, [es[|es| - 1]], prefix, bound, own)
    ensures ShowsEntries(w, u, es, prefix, bound, before + own)
  {
    var n := |es| - 1;
    assert forall e :: e in es <==> e in es[..n] || e == es[n] by { assert es == es[..n] + [es[n]]; }
    assert forall e :: e in [es[n]] <==> e == es[n];
  }

  lemma {:induction false} FlatEntryShows(w: World, u: Store, e: Entry, prefix: Path, bound: nat)
    requires w.Valid() && Intact(w, u) && w.rank(e.id) < bound && FlatEntry(w, u, e, prefix, bound).Some?
    ensures ShowsEntries(w, u, [e], prefix, bound, FlatEntry(w, u, e, prefix, bound).value)
    decreases bound, 0, 0
  {
    var m := FlatEntry(w, u, e, prefix, bound).value;
    if e.kind == 2 {
      FlatLeads(w, u, e.id, Join(prefix, e.name));
      forall p | p in m ensures EntryLeads(w, u, e, prefix, p, m[p], bound) { assert Leads(w, u, e.id, Join(prefix, e.name), p, m[p]); }
    } else {
      forall p | p in m ensures EntryLeads(w, u, e, prefix, p, m[p], bound) {}
    }
    assert e in [e];
  }

  /** A flattened tree has a path exactly where a chain of entries leads, and a file that it leads to; kinds other than 2 are files. */
  lemma {:induction false} FlatLeads(w: World, u: Store, id: Id, prefix: Path)
    requires w.Valid() && Intact(w, u) && FlatTree(w, u, id, prefix).Some?
    ensures forall p :: p in FlatTree(w, u, id, prefix).value ==> Leads(w, u, id, prefix, p, FlatTree(w, u, id, prefix).value[p])
    ensures forall p, f :: Leads(w, u, id, prefix, p, f) ==> p in FlatTree(w, u, id, prefix).value
    decreases w.rank(id), 1, 0
  {
    EntryRanks(w, u, id);
    var m := FlatTree(w, u, id, prefix).value;
    FlatEntriesShow(w, u, u[id].entries, prefix, w.rank(id));
    forall p | p in m ensures Leads(w, u, id, prefix, p, m[p]) {
      var e :| e in u[id].entries && EntryLeads(w, u, e, prefix, p, m[p], w.rank(id));
    }
    forall p, f | Leads(w, u, id, prefix, p, f) ensures p in m {
      var e :| e in u[id].entries && w.rank(e.id) < w.rank(id) && EntryLeads(w, u, e, prefix, p, f, w.rank(id));
    }
  }

  /** Every tree that tree entries lead to is stored as one. */
  ghost predicate AllReadable(w: World, u: Store, id: Id)
    requires w.Valid() && Intact(w, u)
    decreases w.rank(id)
  {
    id in u && u[id].TreeObj? && forall e :: e in u[id].entries && e.kind == 2 && w.rank(e.id) < w.rank(id) ==> AllReadable(w, u, e.id)
  }

  lemma {:induction false} EntriesReadable(w: World, u: Store, es: seq<Entry>, prefix: Path, bound: nat)
    requires w.Valid() && Intact(w, u) && forall e :: e in es ==> w.rank(e.id) < bound
    ensures FlatEntries(w, u, es, prefix, bound).Some? <==> forall e :: e in es && e.kind == 2 ==> AllReadable(w, u, e.id)
    decreases bound, 0, |es|
  {
    if es != [] {
      var n := |es| - 1;
      EntriesReadable(w, u, es[..n], prefix, bound);
      assert es[n] in es && forall e :: e in es <==> e in es[..n] || e == es[n] by { assert es == es[..n] + [es[n]]; }
      if es[n].kind == 2 { FlatExactly(w, u, es[n].id, Join(prefix, es[n].name)); }
    }
  }

  /** Flattening fails exactly where a tree on the way is missing or is no tree. */
  lemma {:induction false} FlatExactly(w: World, u: Store, id: Id, prefix: Path)
    requires w.Valid() && Intact(w, u)
    ensures FlatTree(w, u, id, prefix).Some? <==> AllReadable(w, u, id)
    decreases w.rank(id), 1, 0
  {
    if id in u && u[id].TreeObj? {
      EntryRanks(w, u, id);
      EntriesReadable(w, u, u[id].entries, prefix, w.rank(id));
    }
  }

  // ----- what a built tree holds -----

  lemma InBuilt(w: World, files: Files, e: Entry)
    ensures e in BuildEntries(w, files) <==> e.name in Blobs(files).Keys + Dirs(files) && e == EntryFor(w, files, e.name)
  {
    var es, ns := BuildEntries(w, files), Names(files);
    if e in es {
      var k :| 0 <= k < |es| && es[k] == e;
      assert es[k] == EntryFor(w, files, ns[k]);
    }
    if e.name in Blobs(files).Keys + Dirs(files) && e == EntryFor(w, files, e.name) {
      assert e.name in Elements(ns);
      var k :| 0 <= k < |ns| && ns[k] == e.name;
      assert es[k] == EntryFor(w, files, e.name);
    }
  }

  /** One entry of kind 1 for every file of the directory, with its mode and id, one of kind 2 and mode 0o040000 for every directory. */
  lemma BuiltEntriesAre(w: World, files: Files, e: Entry)
    requires PrefixFree(files)
    ensures e in BuildEntries(w, files) <==>
            || (SLASH !in e.name && e.name in files && e == Entry(e.name, files[e.name].mode, 1, files[e.name].id))
            || (SLASH !in e.name && (exists r :: Under(e.name, r) in files) && e == Entry(e.name, 0x4000, 2, BuildId(w, Sub(files, e.name))))
  {
    InBuilt(w, files, e);
    DirsAreHeads(files, e.name);
    if e.name in Dirs(files) {
      PrefixFreeLevels(files);
      assert e.name !in files by { assert e.name !in Blobs(files).Keys; }
      assert EntryFor(w, files, e.name) == DirEntry(w, files, e.name);
    } else if e.name in Blobs(files) {
      assert EntryFor(w, files, e.name) == BlobEntry(files, e.name);
    }
  }

  lemma DirsAreHeads(files: Files, n: Name)
    ensures n in Dirs(files) <==> SLASH !in n && exists r :: Under(n, r) in files
  {
    if n in Dirs(files) {
      var p :| p in files && SLASH in p && Head(p) == n;
      assert Under(n, Tail(p)) in files;
    }
    if SLASH !in n {
      if r :| Under(n, r) in files { SplitUnder(n, r); }
    }
  }
}
