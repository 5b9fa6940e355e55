/**
  Varvig to Git and back (varvig/internal/gitport/gitport.go): exporting a tree and
  importing the result gives the same object id, and it is known exactly for which trees.
 */
module NativeRoundTrip {
  import opened Basics
  import opened Orders
  import opened Objects
  import opened GitObjects
  import opened GitTree
  import opened TypedViews
  import opened Codec
  import opened GitImport
  import opened GitExport
  import opened GitRoundTrip
  import Records
  import TreeViews

  // ----- entries -----

  /** The modes an import writes: 0o40000 for trees, 0o100644, 0o100755 and 0o120000 for blobs. */
  predicate NativeMode(e: Entry) {
    (e.kind == TYPE_TREE && e.mode == 16384)
    || (e.kind == TYPE_BLOB && (e.mode == 33188 || e.mode == 33261 || e.mode == 40960))
  }

  predicate NativeEntry(e: Entry) {
    NUL !in e.name && NativeMode(e)
  }

  lemma TreeModeValue()
    ensures ParseOctal(MODE_TREE) == 16384
  {
    ModeBytes();
    var m := MODE_TREE;
    assert m[0..] == m;
    OctalAt(m, 0, 0, 4);
    OctalAt(m, 1, 4, 32);
    OctalAt(m, 2, 32, 256);
    OctalAt(m, 3, 256, 2048);
    OctalAt(m, 4, 2048, 16384);
    assert m[5..] == [];
  }

  /** An entry comes back from Git as itself exactly when its mode is native. */
  lemma ModeSurvives(e: Entry, oid: Oid)
    ensures Convert(GitEntry(e, oid), e.id) == e <==> NativeMode(e)
  {
    TreeModeValue();
    ModeValues();
    ModesDiffer();
  }

  // ----- what comes back -----

  /** Everything under `id` is blobs and trees. */
  ghost predicate FilesOnly(p: Port, objs: RawStore, id: Id)
    decreases p.rank(id)
  {
    && id in objs && (objs[id].typ == TYPE_BLOB || objs[id].typ == TYPE_TREE)
    && (objs[id].typ == TYPE_TREE && TreeViews.TreeView(objs[id]).Some? ==>
          forall e :: e in TreeViews.TreeView(objs[id]).value ==> p.rank(e.id) < p.rank(id) && FilesOnly(p, objs, e.id))
  }

  /** Objects with no field but the one they are about, trees with native entries only. */
  ghost predicate Native(p: Port, objs: RawStore, id: Id)
    decreases p.rank(id)
  {
    && id in objs
    && if objs[id].typ == TYPE_BLOB then objs[id] == BlobRaw(OrEmpty(Lookup(objs[id].fields, TAG_CONTENT)))
       else
         && TreeViews.TreeView(objs[id]).Some?
         && objs[id] == TreeOfEntries(TreeViews.TreeView(objs[id]).value)
         && forall e :: e in TreeViews.TreeView(objs[id]).value ==> NativeEntry(e) && p.rank(e.id) < p.rank(id) && Native(p, objs, e.id)
  }

  ghost function TreeOfEntries(es: seq<Entry>): Raw {
    Raw(TYPE_TREE, [Field(TreeViews.TAG_ENTRIES, Records.EncodeList(TreeViews.ENTRIES, es))])
  }

  /** Both stores are sound, and the Git one holds what was exported. */
  ghost predicate Exchanged(p: Port, objs: RawStore, gs: GitStore) {
    && Arranges(p.arrange) && HashesApart(p) && RawIntact(p, objs) && RawAcyclic(p, objs)
    && GitIntact(p, gs) && GitAcyclic(p, gs) && OidsSound(p, gs) && Sized(p, gs)
  }

  /** Importing what `id` was exported as gives the object back. */
  ghost predicate Survives(p: Port, objs: RawStore, gs: GitStore, id: Id)
    requires id in objs
  {
    ExportOf(p, objs, id).Some? && ImportOf(p, gs, ExportOf(p, objs, id).value) == Some(objs[id])
  }

  // ----- blobs -----

  lemma BlobSurvives(p: Port, objs: RawStore, gs: GitStore, id: Id)
    requires Exchanged(p, objs, gs) && Stored(p, objs, gs, id) && objs[id].typ == TYPE_BLOB
    ensures Survives(p, objs, gs, id) <==> Native(p, objs, id)
  {
    KindsDiffer();
    var o := GitObject(KIND_BLOB, OrEmpty(Lookup(objs[id].fields, TAG_CONTENT)));
    ExportByUses(p, objs, id);
    var g := ExportOf(p, objs, id).value;
    assert p.gitHash(o) == g && gs[g] == o;
    assert References(p, o) == [] && ImportAll(p, gs, [], p.gitRank(g)) == Some([]);
    assert ImportOf(p, gs, g) == Some(BlobRaw(o.body));
  }

  // ----- trees -----

  lemma ViewAscends(o: Raw)
    requires TreeViews.TreeView(o).Some?
    ensures Ascending(ByName, TreeViews.TreeView(o).value)
  {
  }

  /** What stands in Git for a stored tree: its entries, arranged. */
  lemma TreeWritten(p: Port, objs: RawStore, gs: GitStore, id: Id) returns (es: seq<Entry>, ges: seq<TreeEntry>)
    requires Exchanged(p, objs, gs) && Stored(p, objs, gs, id) && objs[id].typ == TYPE_TREE
    ensures TreeViews.TreeView(objs[id]) == Some(es) && Ascending(ByName, es)
    ensures multiset(ges) == multiset(Returned(p, objs, es))
    ensures gs[ExportOf(p, objs, id).value] == GitObject(KIND_TREE, EncodeAll(ges))
    ensures forall e :: e in es ==> p.rank(e.id) < p.rank(id) && Stored(p, objs, gs, e.id)
  {
    es := TreeViews.TreeView(objs[id]).value;
    ges := p.arrange(Returned(p, objs, es));
    ViewAscends(objs[id]);
    UsesOfTree(objs[id], es);
    ExportByUses(p, objs, id);
    GitEntriesReturned(p, objs, es);
    assert p.gitHash(GitObject(KIND_TREE, EncodeAll(ges))) == ExportOf(p, objs, id).value;
    forall e | e in es ensures e.id in EntryIds(es) {
      var k :| 0 <= k < |es| && es[k] == e;
      assert EntryIds(es)[k] == e.id;
    }
  }

  /** Each Git entry was written for one of the entries. */
  lemma WrittenFor(p: Port, objs: RawStore, es: seq<Entry>, ges: seq<TreeEntry>, j: nat) returns (k: nat)
    requires multiset(ges) == multiset(Returned(p, objs, es)) && j < |ges|
    ensures k < |es| && ges[j] == GitEntry(es[k], ExportedAs(p, objs, es[k].id))
  {
    var rs := Returned(p, objs, es);
    MultisetElements(ges, rs);
    assert ges[j] in Elements(ges);
    k :| 0 <= k < |rs| && rs[k] == ges[j];
  }

  /** And for each entry one was written. */
  lemma WrittenAs(p: Port, objs: RawStore, es: seq<Entry>, ges: seq<TreeEntry>, k: nat) returns (j: nat)
    requires multiset(ges) == multiset(Returned(p, objs, es)) && k < |es|
    ensures j < |ges| && ges[j] == GitEntry(es[k], ExportedAs(p, objs, es[k].id))
  {
    var rs := Returned(p, objs, es);
    MultisetElements(ges, rs);
    assert rs[k] in Elements(rs);
    j :| 0 <= j < |ges| && ges[j] == rs[k];
  }

  ghost predicate NulFree(es: seq<Entry>) {
    forall e :: e in es ==> NUL !in e.name
  }

  /** Without NUL in the names the body is read as it was written. */
  lemma TreeDecodes(p: Port, objs: RawStore, gs: GitStore, es: seq<Entry>, ges: seq<TreeEntry>)
    requires Exchanged(p, objs, gs) && multiset(ges) == multiset(Returned(p, objs, es)) && NulFree(es)
    requires forall e :: e in es ==> Stored(p, objs, gs, e.id)
    ensures GitTree.AllValid(ges) && TreeOf(EncodeAll(ges)) == Some(ges)
  {
    forall j | 0 <= j < |ges| ensures GitTree.ValidEntry(ges[j]) {
      var k := WrittenFor(p, objs, es, ges, j);
      assert es[k] in es;
      ExportedIsHash(p, objs, es[k].id);
      NoSpaces(es[k]);
    }
    TreeOfEncoded(ges);
  }

  /** The names of the Git entries differ as those of the entries do. */
  lemma NamesApart(p: Port, objs: RawStore, es: seq<Entry>, ges: seq<TreeEntry>)
    requires Ascending(ByName, es) && multiset(ges) == multiset(Returned(p, objs, es))
    ensures forall i, j :: 0 <= i < j < |ges| ==> ges[i].name != ges[j].name
  {
    var rs := Returned(p, objs, es);
    LessIsStrictTotal();
    forall i, j | 0 <= i < j < |rs| ensures rs[i].name != rs[j].name { assert Less(es[i].name, es[j].name); }
    MultisetNoDuplicates(rs, ges);
    forall i, j | 0 <= i < j < |ges| ensures ges[i].name != ges[j].name {
      var a := WrittenFor(p, objs, es, ges, i);
      var b := WrittenFor(p, objs, es, ges, j);
      assert rs[a] == ges[i] && rs[b] == ges[j] && ges[i] != ges[j];
      assert a < b || b < a;
    }
  }

  /** What the import makes of a decoded tree whose children all import. */
  lemma ImportOfTree(p: Port, gs: GitStore, g: Oid, ges: seq<TreeEntry>) returns (ids: seq<Id>)
    requires GitAcyclic(p, gs) && g in gs && gs[g] == GitObject(KIND_TREE, EncodeAll(ges)) && TreeOf(EncodeAll(ges)) == Some(ges)
    requires forall j :: 0 <= j < |ges| ==> ImportOf(p, gs, ges[j].oid).Some?
    ensures |ids| == |ges| && forall j :: 0 <= j < |ges| ==> ids[j] == IdOf(p, gs, ges[j].oid)
    ensures ImportOf(p, gs, g) == if TreeViews.UniqueNames(Converted(ges, ids)) then Some(TreeRaw(Converted(ges, ids))) else None
  {
    KindsDiffer();
    var oids := Oids(ges);
    assert References(p, gs[g]) == oids;
    forall j | 0 <= j < |oids| ensures Imports(p, gs, p.gitRank(g), oids[j]) { Descends(p, gs, g, j); }
    AllImported(p, gs, oids, p.gitRank(g));
    ids := ImportAll(p, gs, oids, p.gitRank(g)).value;
    forall j | 0 <= j < |ges| ensures ids[j] == IdOf(p, gs, ges[j].oid) { EachImported(p, gs, oids, p.gitRank(g), j); }
  }

  ghost predicate EntriesSurvive(p: Port, objs: RawStore, gs: GitStore, es: seq<Entry>) {
    forall e :: e in es ==> e.id in objs && Survives(p, objs, gs, e.id)
  }

  /** A Git entry whose object survives turns back into the entry it was written for. */
  lemma EntryBack(p: Port, objs: RawStore, gs: GitStore, e: Entry, ge: TreeEntry, id: Id)
    requires RawIntact(p, objs) && NativeMode(e) && e.id in objs && Survives(p, objs, gs, e.id)
    requires ge == GitEntry(e, ExportedAs(p, objs, e.id)) && ImportOf(p, gs, ge.oid).Some? && id == IdOf(p, gs, ge.oid)
    ensures Convert(ge, id) == e
  {
    ModeSurvives(e, ge.oid);
  }

  /** With native entries whose objects survive, the entries come back, sorted by name. */
  lemma EntriesBack(p: Port, objs: RawStore, gs: GitStore, es: seq<Entry>, ges: seq<TreeEntry>, ids: seq<Id>)
    requires RawIntact(p, objs) && Ascending(ByName, es) && EntriesSurvive(p, objs, gs, es) && forall e :: e in es ==> NativeMode(e)
    requires multiset(ges) == multiset(Returned(p, objs, es)) && |ids| == |ges|
    requires forall j :: 0 <= j < |ges| ==> ImportOf(p, gs, ges[j].oid).Some? && ids[j] == IdOf(p, gs, ges[j].oid)
    ensures TreeViews.UniqueNames(Converted(ges, ids)) && Sort(ByName, Converted(ges, ids)) == es
  {
    var cs := Converted(ges, ids);
    NamesApart(p, objs, es, ges);
    forall j | 0 <= j < |cs| ensures cs[j] in es {
      var k := WrittenFor(p, objs, es, ges, j);
      assert es[k] in es;
      EntryBack(p, objs, gs, es[k], ges[j], ids[j]);
    }
    forall k | 0 <= k < |es| ensures es[k] in cs {
      var j := WrittenAs(p, objs, es, ges, k);
      assert es[k] in es;
      EntryBack(p, objs, gs, es[k], ges[j], ids[j]);
      assert cs[j] == es[k];
    }
    forall i, j | 0 <= i < j < |cs| ensures cs[i].name != cs[j].name { assert ges[i].name != ges[j].name; }
    SameEntriesSorted(cs, es);
  }

  lemma SameEntriesSorted(cs: seq<Entry>, es: seq<Entry>)
    requires TreeViews.UniqueNames(cs) && Ascending(ByName, es)
    requires (forall j :: 0 <= j < |cs| ==> cs[j] in es) && forall k :: 0 <= k < |es| ==> es[k] in cs
    ensures Sort(ByName, cs) == es
  {
    TreeViews.EntriesPrefixCode();
    SameElements(cs, es);
    NamesTotal(cs);
    SortUnique(ByName, cs, es);
  }

  lemma SameElements(cs: seq<Entry>, es: seq<Entry>)
    requires (forall j :: 0 <= j < |cs| ==> cs[j] in es) && forall k :: 0 <= k < |es| ==> es[k] in cs
    ensures Elements(cs) == Elements(es)
  {
  }

  lemma NamesTotal(cs: seq<Entry>)
    requires TreeViews.UniqueNames(cs)
    ensures NoDuplicates(cs) && TotalOn(ByName, Elements(cs))
  {
    forall x, y | x in Elements(cs) && y in Elements(cs) && x != y ensures ByName(x, y) || ByName(y, x) {
      var i :| 0 <= i < |cs| && cs[i] == x;
      var j :| 0 <= j < |cs| && cs[j] == y;
      assert i < j || j < i;
      LessTotal(x.name, y.name);
    }
  }

  /** Native trees survive. */
  lemma NativeTreeBack(p: Port, objs: RawStore, gs: GitStore, id: Id)
    requires Exchanged(p, objs, gs) && Stored(p, objs, gs, id) && objs[id].typ == TYPE_TREE && Native(p, objs, id)
    requires EntriesSurvive(p, objs, gs, TreeViews.TreeView(objs[id]).value)
    ensures Survives(p, objs, gs, id)
  {
    var es, ges := TreeWritten(p, objs, gs, id);
    TreeDecodes(p, objs, gs, es, ges);
    forall j | 0 <= j < |ges| ensures ImportOf(p, gs, ges[j].oid).Some? {
      var k := WrittenFor(p, objs, es, ges, j);
      assert es[k] in es;
    }
    var ids := ImportOfTree(p, gs, ExportOf(p, objs, id).value, ges);
    EntriesBack(p, objs, gs, es, ges, ids);
  }

  /** The view of a tree that came back: the converted entries, sorted. */
  lemma BackView(p: Port, objs: RawStore, gs: GitStore, id: Id) returns (fs: seq<TreeEntry>, ids: seq<Id>)
    requires Exchanged(p, objs, gs) && Stored(p, objs, gs, id) && objs[id].typ == TYPE_TREE && Survives(p, objs, gs, id)
    ensures var g := ExportOf(p, objs, id).value; TreeOf(gs[g].body) == Some(fs) && |ids| == |fs|
    ensures TreeViews.TreeView(objs[id]) == Some(Sort(ByName, Converted(fs, ids))) && objs[id] == TreeRaw(Converted(fs, ids))
    ensures forall j :: 0 <= j < |ids| ==> ImportOf(p, gs, fs[j].oid).Some? && ids[j] == IdOf(p, gs, fs[j].oid)
  {
    var es, ges := TreeWritten(p, objs, gs, id);
    fs, ids := TreeMadeFrom(p, gs, ExportOf(p, objs, id).value);
    forall k | 0 <= k < |ids| ensures Imported(p, gs, Oids(fs)[k]) {}
    IdsSized(p, gs, Oids(fs), ids);
    ImportedView(fs, ids);
  }

  /** An entry of a tree that came back was converted from the Git entry written for it. */
  lemma BackEntry(p: Port, objs: RawStore, gs: GitStore, es: seq<Entry>, ges: seq<TreeEntry>, ids: seq<Id>, e: Entry) returns (j: nat)
    requires Ascending(ByName, es) && multiset(ges) == multiset(Returned(p, objs, es)) && |ids| == |ges|
    requires es == Sort(ByName, Converted(ges, ids)) && e in es
    ensures j < |ges| && ges[j] == GitEntry(e, ExportedAs(p, objs, e.id)) && Convert(ges[j], ids[j]) == e
  {
    var cs := Converted(ges, ids);
    MultisetElements(cs, es);
    assert e in Elements(es);
    j :| 0 <= j < |cs| && cs[j] == e;
    var k := WrittenFor(p, objs, es, ges, j);
    var i :| 0 <= i < |es| && es[i] == e;
    assert es[k].name == ges[j].name == e.name == es[i].name;
    OneOfName(es, i, k);
  }

  lemma OneOfName(es: seq<Entry>, i: nat, k: nat)
    requires Ascending(ByName, es) && i < |es| && k < |es| && es[i].name == es[k].name
    ensures i == k
  {
    LessIrreflexive(es[i].name);
  }

  /** Only native trees survive, and only with everything in them. */
  lemma BackIsNative(p: Port, objs: RawStore, gs: GitStore, id: Id)
    requires Exchanged(p, objs, gs) && Stored(p, objs, gs, id) && objs[id].typ == TYPE_TREE && Survives(p, objs, gs, id)
    ensures TreeViews.TreeView(objs[id]).Some? && objs[id] == TreeOfEntries(TreeViews.TreeView(objs[id]).value)
    ensures EntriesSurvive(p, objs, gs, TreeViews.TreeView(objs[id]).value)
    ensures forall e :: e in TreeViews.TreeView(objs[id]).value ==> NativeEntry(e)
  {
    var es, ges := TreeWritten(p, objs, gs, id);
    var fs, ids := BackView(p, objs, gs, id);
    BackNames(es, fs, ids);
    TreeDecodes(p, objs, gs, es, ges);
    assert fs == ges;
    forall e | e in es ensures NativeEntry(e) && e.id in objs && Survives(p, objs, gs, e.id) {
      var j := BackEntry(p, objs, gs, es, ges, ids, e);
      ModeSurvives(e, ges[j].oid);
      assert Stored(p, objs, gs, e.id);
      assert p.hash(ImportOf(p, gs, ges[j].oid).value) == e.id == p.hash(objs[e.id]);
    }
  }

  lemma BackNames(es: seq<Entry>, fs: seq<TreeEntry>, ids: seq<Id>)
    requires |fs| == |ids| && GitTree.AllValid(fs) && es == Sort(ByName, Converted(fs, ids))
    ensures NulFree(es)
  {
    var cs := Converted(fs, ids);
    MultisetElements(cs, es);
    forall e | e in es ensures NUL !in e.name {
      assert e in Elements(es);
      var j :| 0 <= j < |cs| && cs[j] == e;
      assert GitTree.ValidEntry(fs[j]);
    }
  }

  // ----- the round trip -----

  /** A file tree that was exported comes back under its own id if and only if it is native. */
  lemma {:induction false} NativeSurvives(p: Port, objs: RawStore, gs: GitStore, id: Id)
    requires Exchanged(p, objs, gs) && Stored(p, objs, gs, id) && FilesOnly(p, objs, id)
    ensures Survives(p, objs, gs, id) <==> Native(p, objs, id)
    ensures Survives(p, objs, gs, id) <==>
            var back := ImportOf(p, gs, ExportOf(p, objs, id).value); back.Some? && p.hash(back.value) == id
    decreases p.rank(id)
  {
    if objs[id].typ == TYPE_BLOB {
      BlobSurvives(p, objs, gs, id);
    } else {
      var es, ges := TreeWritten(p, objs, gs, id);
      forall e | e in es ensures e.id in objs && (Survives(p, objs, gs, e.id) <==> Native(p, objs, e.id)) {
        NativeSurvives(p, objs, gs, e.id);
      }
      if Native(p, objs, id) { NativeTreeBack(p, objs, gs, id); }
      if Survives(p, objs, gs, id) { BackIsNative(p, objs, gs, id); }
    }
    assert p.hash(objs[id]) == id;
  }
}
