/**
  Git to Varvig and back (varvig/internal/gitport/gitport.go): exporting what was imported
  either fails or gives the original commit, and it is known exactly when it fails.
 */
module GitRoundTrip {
  import opened Basics
  import opened Orders
  import opened Objects
  import opened GitObjects
  import opened GitTree
  import opened TypedViews
  import opened Codec
  import opened GitImport
  import opened GitExport
  import TreeViews

  // ----- modes -----

  /** The modes that survive. */
  predicate Supported(mode: Bytes) {
    mode == MODE_FILE || mode == MODE_EXEC || mode == MODE_SYMLINK || mode == MODE_TREE
  }

  /** One octal digit that does not wrap. */
  lemma OctalAt(m: Bytes, k: nat, v: nat, w: nat)
    requires k < |m| && 48 <= m[k] <= 55 && v < 0x100_0000 && w == v * 8 + (m[k] - 48)
    ensures OctalFrom(m[k..], v) == OctalFrom(m[k + 1..], w)
  {
    assert m[k..][1..] == m[k + 1..];
    assert w < TreeViews.U32 && w % TreeViews.U32 == w;
  }

  /** The value of six octal digits, from the values of their prefixes. */
  lemma SixDigits(m: Bytes, v: seq<nat>)
    requires |m| == 6 && |v| == 7 && v[0] == 0
    requires forall k :: 0 <= k < 6 ==> 48 <= m[k] <= 55 && v[k + 1] == v[k] * 8 + (m[k] - 48) && v[k] < 0x100_0000
    ensures ParseOctal(m) == v[6]
  {
    for k := 0 to 6
      invariant OctalFrom(m[k..], v[k]) == ParseOctal(m)
    {
      OctalAt(m, k, v[k], v[k + 1]);
    }
  }

  lemma ModeBytes()
    ensures MODE_FILE == [49, 48, 48, 54, 52, 52] && MODE_EXEC == [49, 48, 48, 55, 53, 53]
    ensures MODE_SYMLINK == [49, 50, 48, 48, 48, 48] && MODE_TREE == [52, 48, 48, 48, 48]
  {
  }

  lemma ModeValues()
    ensures ParseOctal(MODE_FILE) == 33188 && ParseOctal(MODE_EXEC) == 33261 && ParseOctal(MODE_SYMLINK) == 40960
  {
    ModeBytes();
    SixDigits(MODE_FILE, [0, 1, 8, 64, 518, 4148, 33188]);
    SixDigits(MODE_EXEC, [0, 1, 8, 64, 519, 4157, 33261]);
    SixDigits(MODE_SYMLINK, [0, 1, 10, 80, 640, 5120, 40960]);
  }

  lemma ModesDiffer()
    ensures MODE_FILE != MODE_EXEC && MODE_FILE != MODE_SYMLINK && MODE_EXEC != MODE_SYMLINK
    ensures MODE_TREE != MODE_FILE && MODE_TREE != MODE_EXEC && MODE_TREE != MODE_SYMLINK
  {
    ModeBytes();
    assert MODE_FILE[3] == 54 && MODE_EXEC[3] == 55 && MODE_SYMLINK[1] == 50 && MODE_FILE[1] == 48 && MODE_EXEC[1] == 48;
  }

  /** A mode comes back unchanged exactly when it is supported. */
  lemma ModeRoundTrip(e: TreeEntry, id: Id)
    ensures GitMode(Convert(e, id)) == e.mode <==> Supported(e.mode)
  {
    ModeValues();
    ModesDiffer();
  }

  lemma NoSpaces(e: Entry)
    ensures SPACE !in GitMode(e)
  {
    ModeBytes();
  }

  // ----- order -----

  predicate TreeByName(x: TreeEntry, y: TreeEntry) {
    Less(x.name, y.name)
  }

  /** Sorting by name and then by Git's order gives the entries back. */
  predicate GitOrdered(p: Port, es: seq<TreeEntry>) {
    p.arrange(Sort(TreeByName, es)) == es
  }

  /** On plain names, that is being in Git's order. */
  lemma GitOrderedIsAscending(p: Port, es: seq<TreeEntry>)
    requires Arranges(p.arrange) && PlainNames(es)
    ensures GitOrdered(p, es) <==> Ascending(EntryLess, es)
  {
    var fs := Sort(TreeByName, es);
    PlainNamesReordered(es, fs);
    SortedInGitOrder(p.arrange, fs, es);
  }

  lemma PlainNamesReordered(es: seq<TreeEntry>, fs: seq<TreeEntry>)
    requires PlainNames(es) && multiset(es) == multiset(fs)
    ensures PlainNames(fs)
  {
    MultisetElements(es, fs);
    MultisetNoDuplicates(es, fs);
    forall k | 0 <= k < |fs| ensures PlainName(fs[k].name) {
      assert fs[k] in Elements(es);
      var i :| 0 <= i < |es| && es[i] == fs[k];
    }
    forall i, j | 0 <= i < j < |fs| ensures fs[i].name != fs[j].name {
      assert fs[i] in Elements(es) && fs[j] in Elements(es);
      var a :| 0 <= a < |es| && es[a] == fs[i];
      var b :| 0 <= b < |es| && es[b] == fs[j];
      assert a < b || b < a;
    }
  }

  lemma SameByName(bs: seq<TreeEntry>, es: seq<TreeEntry>)
    requires |bs| == |es| && forall k :: 0 <= k < |es| ==> bs[k].name == es[k].name
    requires forall i, j :: 0 <= i < j < |es| ==> es[i].name != es[j].name
    requires Elements(bs) == Elements(es)
    ensures bs == es
  {
    forall k | 0 <= k < |es| ensures bs[k] == es[k] {
      assert bs[k] in Elements(es);
      var j :| 0 <= j < |es| && es[j] == bs[k];
      assert !(j < k) && !(k < j);
    }
  }

  /** Entries with the names of `es`, sorted twice, are `es` only if they were `es`, and `es` in order. */
  lemma SortedBack(p: Port, bs: seq<TreeEntry>, es: seq<TreeEntry>)
    requires Arranges(p.arrange)
    requires |bs| == |es| && forall k :: 0 <= k < |es| ==> bs[k].name == es[k].name
    requires forall i, j :: 0 <= i < j < |es| ==> es[i].name != es[j].name
    ensures p.arrange(Sort(TreeByName, bs)) == es <==> bs == es && GitOrdered(p, es)
  {
    var once := Sort(TreeByName, bs);
    if p.arrange(once) == es {
      MultisetElements(bs, once);
      MultisetElements(once, es);
      SameByName(bs, es);
    }
  }

  // ----- what survives -----

  /** A tree that Git can be given back: supported modes, in Git's order. */
  ghost predicate FaithfulBody(p: Port, body: Bytes) {
    TreeOf(body).Some? && GitOrdered(p, TreeOf(body).value) && AllSupported(TreeOf(body).value)
  }

  ghost predicate AllSupported(es: seq<TreeEntry>) {
    forall k :: 0 <= k < |es| ==> Supported(es[k].mode)
  }

  /** The export of what `g` becomes does not fail: every tree a commit records is faithful. */
  ghost predicate Exportable(p: Port, git: GitStore, g: Oid)
    decreases p.gitRank(g), 0
  {
    && g in git
    && (forall c :: c in References(p, git[g]) ==> p.gitRank(c) < p.gitRank(g) && Exportable(p, git, c))
    && (git[g].kind == KIND_COMMIT && p.Parse(git[g].body).Some? ==>
          var t := p.Parse(git[g].body).value.tree; p.gitRank(t) < p.gitRank(g) && Faithful(p, git, t))
  }

  /** And it gives `g` back. */
  ghost predicate Faithful(p: Port, git: GitStore, g: Oid)
    decreases p.gitRank(g), 1
  {
    && Exportable(p, git, g)
    && (git[g].kind == KIND_TREE ==>
          FaithfulBody(p, git[g].body)
          && forall c :: c in References(p, git[g]) ==> p.gitRank(c) < p.gitRank(g) && Faithful(p, git, c))
  }

  /** Oids are 20 bytes, and no other object has the oid of a stored one. */
  ghost predicate OidsSound(p: Port, git: GitStore) {
    && (forall o :: |p.gitHash(o)| == 20)
    && (forall g, o :: g in git && p.gitHash(o) == g ==> o == git[g])
  }

  /** Lengths fit 64 bits. */
  ghost predicate Sized(p: Port, git: GitStore) {
    && (forall g :: g in git ==> |git[g].body| < U64 && |References(p, git[g])| < U64)
    && (forall g :: g in git && ImportOf(p, git, g).Some? ==> |IdOf(p, git, g)| < U64)
  }

  ghost predicate Ready(p: Port, git: GitStore, objs: RawStore) {
    Arranges(p.arrange) && GitIntact(p, git) && GitAcyclic(p, git) && OidsSound(p, git) && Sized(p, git) && RawAcyclic(p, objs)
  }

  /** The round trip of one object: when it succeeds, and when it is exact. */
  ghost predicate ComesBack(p: Port, git: GitStore, objs: RawStore, g: Oid)
    requires ImportOf(p, git, g).Some?
  {
    && (ExportOf(p, objs, IdOf(p, git, g)).Some? <==> Exportable(p, git, g))
    && (ExportOf(p, objs, IdOf(p, git, g)) == Some(g) <==> Faithful(p, git, g))
  }

  // ----- exporting by uses -----

  ghost function ExportedAs(p: Port, objs: RawStore, id: Id): Oid {
    if ExportOf(p, objs, id).Some? then ExportOf(p, objs, id).value else []
  }

  ghost function AllExportedAs(p: Port, objs: RawStore, ids: seq<Id>): (r: seq<Oid>)
    ensures |r| == |ids| && forall k :: 0 <= k < |ids| ==> r[k] == ExportedAs(p, objs, ids[k])
  {
    if ids == [] then [] else AllExportedAs(p, objs, ids[..|ids| - 1]) + [ExportedAs(p, objs, ids[|ids| - 1])]
  }

  ghost predicate AllExport(p: Port, objs: RawStore, ids: seq<Id>) {
    forall u :: u in ids ==> ExportOf(p, objs, u).Some?
  }

  lemma ExportByUses(p: Port, objs: RawStore, id: Id)
    requires RawAcyclic(p, objs) && id in objs && Uses(objs[id]).Some?
    ensures ExportOf(p, objs, id)
            == var ids := Uses(objs[id]).value;
               var oids := AllExportedAs(p, objs, ids);
               if !AllExport(p, objs, ids) || Written(p, objs[id], oids).None? then None
               else Some(p.gitHash(Written(p, objs[id], oids).value))
  {
    var ids := Uses(objs[id]).value;
    if AllExport(p, objs, ids) {
      ExportOfDone(p, objs, id, AllExportedAs(p, objs, ids));
    } else {
      var u :| u in ids && ExportOf(p, objs, u).None?;
      var k :| 0 <= k < |ids| && ids[k] == u;
      NotExported(p, objs, id, k);
    }
  }

  /** What an imported object was made from. */
  lemma MadeFrom(p: Port, git: GitStore, g: Oid) returns (ids: seq<Id>)
    requires ImportOf(p, git, g).Some?
    ensures g in git && |ids| == |References(p, git[g])| && Made(p, git[g], ids) == ImportOf(p, git, g)
    ensures forall k :: 0 <= k < |ids| ==>
              ImportOf(p, git, References(p, git[g])[k]).Some? && ids[k] == IdOf(p, git, References(p, git[g])[k])
  {
    ids := ImportAll(p, git, References(p, git[g]), p.gitRank(g)).value;
    forall k | 0 <= k < |ids|
      ensures ImportOf(p, git, References(p, git[g])[k]).Some? && ids[k] == IdOf(p, git, References(p, git[g])[k])
    {
      EachImported(p, git, References(p, git[g]), p.gitRank(g), k);
    }
  }

  // ----- blobs -----

  lemma BlobComesBack(p: Port, git: GitStore, objs: RawStore, g: Oid)
    requires Ready(p, git, objs) && Held(p, git, objs, g) && git[g].kind == KIND_BLOB
    ensures ComesBack(p, git, objs, g)
  {
    KindsDiffer();
    var id := IdOf(p, git, g);
    var ids := MadeFrom(p, git, g);
    assert objs[id] == BlobRaw(git[g].body);
    ExportByUses(p, objs, id);
  }

  // ----- trees -----

  /** The Git entries written for entries whose objects have been exported. */
  ghost function Returned(p: Port, objs: RawStore, es: seq<Entry>): (r: seq<TreeEntry>)
    ensures |r| == |es| && forall k :: 0 <= k < |es| ==> r[k] == GitEntry(es[k], ExportedAs(p, objs, es[k].id))
  {
    if es == [] then [] else [GitEntry(es[0], ExportedAs(p, objs, es[0].id))] + Returned(p, objs, es[1..])
  }

  lemma {:induction false} ReturnedInsert(p: Port, objs: RawStore, e: Entry, es: seq<Entry>)
    ensures Returned(p, objs, Insert(ByName, e, es))
            == Insert(TreeByName, GitEntry(e, ExportedAs(p, objs, e.id)), Returned(p, objs, es))
  {
    if es != [] {
      assert Returned(p, objs, es)[1..] == Returned(p, objs, es[1..]);
      if Less(es[0].name, e.name) {
        ReturnedInsert(p, objs, e, es[1..]);
        assert ([es[0]] + Insert(ByName, e, es[1..]))[1..] == Insert(ByName, e, es[1..]);
      } else {
        assert ([e] + es)[1..] == es;
      }
    }
  }

  /** Names are kept, so sorting by name commutes with the way back. */
  lemma {:induction false} ReturnedSorted(p: Port, objs: RawStore, es: seq<Entry>)
    ensures Returned(p, objs, Sort(ByName, es)) == Sort(TreeByName, Returned(p, objs, es))
  {
    if es != [] {
      ReturnedSorted(p, objs, es[1..]);
      ReturnedInsert(p, objs, es[0], Sort(ByName, es[1..]));
      assert Returned(p, objs, es)[1..] == Returned(p, objs, es[1..]);
    }
  }

  lemma {:induction false} EntriesShort(es: seq<TreeEntry>, k: nat)
    ensures |es| <= |EncodeAll(es)|
    ensures k < |es| ==> |es[k].name| <= |EncodeAll(es)|
  {
    if es != [] { EntriesShort(es[1..], if k > 0 then k - 1 else 0); }
  }

  lemma ConvertedEncodable(es: seq<TreeEntry>, ids: seq<Id>)
    requires |es| == |ids| && |EncodeAll(es)| < U64 && forall k :: 0 <= k < |ids| ==> |ids[k]| < U64
    ensures TreeViews.Encodable(Converted(es, ids))
  {
    var entries := Converted(es, ids);
    EntriesShort(es, 0);
    forall e | e in entries ensures TreeViews.ValidEntry(e) && e.mode < TreeViews.U32 {
      var k :| 0 <= k < |entries| && entries[k] == e;
      EntriesShort(es, k);
      OctalFits(es[k].mode, 0);
    }
  }

  /** What the view of an imported tree shows. */
  lemma ImportedView(es: seq<TreeEntry>, ids: seq<Id>)
    requires |es| == |ids| && |EncodeAll(es)| < U64 && forall k :: 0 <= k < |ids| ==> |ids[k]| < U64
    requires TreeViews.UniqueNames(Converted(es, ids))
    ensures TreeViews.TreeView(TreeRaw(Converted(es, ids))) == Some(Sort(ByName, Converted(es, ids)))
  {
    ConvertedEncodable(es, ids);
    TreeViews.TreeRoundTrip(Converted(es, ids));
  }

  lemma UsesOfTree(o: Raw, es: seq<Entry>)
    requires o.typ == TYPE_TREE && TreeViews.TreeView(o) == Some(es)
    ensures Uses(o) == Some(EntryIds(es))
  {
  }

  lemma GitEntriesReturned(p: Port, objs: RawStore, es: seq<Entry>)
    ensures GitEntries(es, AllExportedAs(p, objs, EntryIds(es))) == Returned(p, objs, es)
  {
  }

  lemma SortedIds(p: Port, objs: RawStore, es: seq<TreeEntry>, ids: seq<Id>)
    requires |es| == |ids|
    ensures AllExport(p, objs, EntryIds(Sort(ByName, Converted(es, ids)))) <==> AllExport(p, objs, ids)
  {
    var entries := Converted(es, ids);
    var sorted := Sort(ByName, entries);
    MultisetElements(entries, sorted);
    forall u ensures u in EntryIds(sorted) <==> u in ids {
      if u in ids {
        var k :| 0 <= k < |ids| && ids[k] == u;
        assert entries[k] in Elements(entries);
        var j :| 0 <= j < |sorted| && sorted[j] == entries[k];
        assert EntryIds(sorted)[j] == u;
      }
      if u in EntryIds(sorted) {
        var j :| 0 <= j < |sorted| && EntryIds(sorted)[j] == u;
        assert sorted[j] in Elements(sorted);
        var k :| 0 <= k < |entries| && entries[k] == sorted[j];
        assert ids[k] == u;
      }
    }
  }

  /** What exporting an imported tree gives. */
  lemma TreeExport(p: Port, objs: RawStore, id: Id, es: seq<TreeEntry>, ids: seq<Id>)
    requires RawAcyclic(p, objs) && id in objs && |es| == |ids| && objs[id] == TreeRaw(Converted(es, ids))
    requires |EncodeAll(es)| < U64 && (forall k :: 0 <= k < |ids| ==> |ids[k]| < U64) && TreeViews.UniqueNames(Converted(es, ids))
    ensures ExportOf(p, objs, id)
            == if !AllExport(p, objs, ids) then None
               else Some(p.gitHash(GitObject(KIND_TREE,
                           EncodeAll(p.arrange(Sort(TreeByName, Returned(p, objs, Converted(es, ids))))))))
  {
    var entries := Converted(es, ids);
    var sorted := Sort(ByName, entries);
    ImportedView(es, ids);
    UsesOfTree(objs[id], sorted);
    ExportByUses(p, objs, id);
    SortedIds(p, objs, es, ids);
    GitEntriesReturned(p, objs, sorted);
    ReturnedSorted(p, objs, entries);
  }

  lemma ReturnedValid(p: Port, objs: RawStore, es: seq<TreeEntry>, ids: seq<Id>)
    requires Arranges(p.arrange) && |es| == |ids| && GitTree.AllValid(es) && AllExport(p, objs, ids)
    requires forall k :: 0 <= k < |ids| ==> |ExportedAs(p, objs, ids[k])| == 20
    ensures GitTree.AllValid(p.arrange(Sort(TreeByName, Returned(p, objs, Converted(es, ids)))))
  {
    var bs := Returned(p, objs, Converted(es, ids));
    var once := Sort(TreeByName, bs);
    var twice := p.arrange(once);
    MultisetElements(bs, once);
    MultisetElements(once, twice);
    forall k | 0 <= k < |twice| ensures GitTree.ValidEntry(twice[k]) {
      assert twice[k] in Elements(bs);
      var j :| 0 <= j < |bs| && bs[j] == twice[k];
      NoSpaces(Converted(es, ids)[j]);
      assert GitTree.ValidEntry(es[j]);
    }
  }

  lemma ExportedIsHash(p: Port, objs: RawStore, id: Id)
    requires (forall o :: |p.gitHash(o)| == 20) && ExportOf(p, objs, id).Some?
    ensures |ExportOf(p, objs, id).value| == 20
  {
  }

  ghost predicate AllReturn(p: Port, objs: RawStore, es: seq<TreeEntry>, ids: seq<Id>)
    requires |ids| == |es|
  {
    forall k :: 0 <= k < |es| ==> ExportedAs(p, objs, ids[k]) == es[k].oid
  }

  /** Entries come back as they were when their modes are supported and their objects come back. */
  lemma EntriesReturn(p: Port, objs: RawStore, es: seq<TreeEntry>, ids: seq<Id>)
    requires |es| == |ids|
    ensures Returned(p, objs, Converted(es, ids)) == es <==> AllSupported(es) && AllReturn(p, objs, es, ids)
  {
    var bs := Returned(p, objs, Converted(es, ids));
    forall k | 0 <= k < |es| ensures bs[k] == es[k] <==> Supported(es[k].mode) && ExportedAs(p, objs, ids[k]) == es[k].oid {
      ModeRoundTrip(es[k], ids[k]);
      assert bs[k] == TreeEntry(GitMode(Convert(es[k], ids[k])), es[k].name, ExportedAs(p, objs, ids[k]));
    }
  }

  lemma HashReturns(p: Port, git: GitStore, g: Oid, es: seq<TreeEntry>, fs: seq<TreeEntry>)
    requires OidsSound(p, git) && GitIntact(p, git) && g in git && git[g] == GitObject(KIND_TREE, EncodeAll(es))
    requires GitTree.AllValid(es) && GitTree.AllValid(fs)
    ensures p.gitHash(GitObject(KIND_TREE, EncodeAll(fs))) == g <==> fs == es
  {
    if p.gitHash(GitObject(KIND_TREE, EncodeAll(fs))) == g { EncodeAllInjective(fs, es); }
  }

  lemma TwiceValid(p: Port, objs: RawStore, es: seq<TreeEntry>, ids: seq<Id>)
    requires Arranges(p.arrange) && |es| == |ids| && GitTree.AllValid(es) && AllExport(p, objs, ids) && forall o :: |p.gitHash(o)| == 20
    ensures GitTree.AllValid(p.arrange(Sort(TreeByName, Returned(p, objs, Converted(es, ids)))))
  {
    forall k | 0 <= k < |ids| ensures |ExportedAs(p, objs, ids[k])| == 20 {
      assert ids[k] in ids;
      ExportedIsHash(p, objs, ids[k]);
    }
    ReturnedValid(p, objs, es, ids);
  }

  lemma EntriesReturnInOrder(p: Port, objs: RawStore, es: seq<TreeEntry>, ids: seq<Id>)
    requires Arranges(p.arrange) && |es| == |ids| && TreeViews.UniqueNames(Converted(es, ids))
    ensures p.arrange(Sort(TreeByName, Returned(p, objs, Converted(es, ids)))) == es <==>
              GitOrdered(p, es) && AllSupported(es) && AllReturn(p, objs, es, ids)
  {
    UniqueAsEntries(es, ids);
    SortedBack(p, Returned(p, objs, Converted(es, ids)), es);
    EntriesReturn(p, objs, es, ids);
  }

  /** The body written back for a tree whose children all export. */
  lemma BodyReturns(p: Port, git: GitStore, objs: RawStore, g: Oid, es: seq<TreeEntry>, ids: seq<Id>)
    requires Arranges(p.arrange) && OidsSound(p, git) && GitIntact(p, git)
    requires g in git && git[g].kind == KIND_TREE && TreeOf(git[g].body) == Some(es)
    requires |es| == |ids| && TreeViews.UniqueNames(Converted(es, ids)) && AllExport(p, objs, ids)
    ensures var body := EncodeAll(p.arrange(Sort(TreeByName, Returned(p, objs, Converted(es, ids)))));
            p.gitHash(GitObject(KIND_TREE, body)) == g <==>
              GitOrdered(p, es) && AllSupported(es) && AllReturn(p, objs, es, ids)
  {
    TwiceValid(p, objs, es, ids);
    EntriesReturnInOrder(p, objs, es, ids);
    assert git[g] == GitObject(KIND_TREE, EncodeAll(es));
    HashReturns(p, git, g, es, p.arrange(Sort(TreeByName, Returned(p, objs, Converted(es, ids)))));
  }

  lemma UniqueAsEntries(es: seq<TreeEntry>, ids: seq<Id>)
    requires |es| == |ids| && TreeViews.UniqueNames(Converted(es, ids))
    ensures forall i, j :: 0 <= i < j < |es| ==> es[i].name != es[j].name
  {
    var entries := Converted(es, ids);
    forall i, j | 0 <= i < j < |es| ensures es[i].name != es[j].name { assert entries[i].name != entries[j].name; }
  }

  /** What `g` refers to comes back as ComesBack says. */
  ghost predicate ReferencesComeBack(p: Port, git: GitStore, objs: RawStore, g: Oid)
    requires g in git
  {
    forall c :: c in References(p, git[g]) ==> ImportOf(p, git, c).Some? && ComesBack(p, git, objs, c)
  }

  lemma AllExportable(p: Port, git: GitStore, objs: RawStore, g: Oid, ids: seq<Id>)
    requires GitAcyclic(p, git) && g in git && ReferencesComeBack(p, git, objs, g) && |ids| == |References(p, git[g])|
    requires forall k :: 0 <= k < |ids| ==> ids[k] == IdOf(p, git, References(p, git[g])[k])
    ensures AllExport(p, objs, ids) <==>
            forall c :: c in References(p, git[g]) ==> p.gitRank(c) < p.gitRank(g) && Exportable(p, git, c)
  {
    var refs := References(p, git[g]);
    if AllExport(p, objs, ids) {
      forall c | c in refs ensures Exportable(p, git, c) {
        var k :| 0 <= k < |refs| && refs[k] == c;
        assert ids[k] in ids && ComesBack(p, git, objs, c);
      }
    } else {
      var u :| u in ids && ExportOf(p, objs, u).None?;
      var k :| 0 <= k < |ids| && ids[k] == u;
      assert refs[k] in refs && ComesBack(p, git, objs, refs[k]);
    }
  }

  lemma OneFaithful(p: Port, git: GitStore, objs: RawStore, c: Oid)
    requires ImportOf(p, git, c).Some? && ComesBack(p, git, objs, c) && ExportOf(p, objs, IdOf(p, git, c)).Some?
    ensures ExportedAs(p, objs, IdOf(p, git, c)) == c <==> Faithful(p, git, c)
  {
  }

  ghost predicate ChildrenFaithful(p: Port, git: GitStore, g: Oid)
    requires g in git
  {
    forall c :: c in References(p, git[g]) ==> p.gitRank(c) < p.gitRank(g) && Faithful(p, git, c)
  }

  lemma ReturnedFaithful(p: Port, git: GitStore, objs: RawStore, g: Oid, es: seq<TreeEntry>, ids: seq<Id>, k: nat)
    requires g in git && References(p, git[g]) == Oids(es) && ReferencesComeBack(p, git, objs, g)
    requires |ids| == |es| && k < |es| && AllExport(p, objs, ids)
    requires ImportOf(p, git, es[k].oid).Some? && ids[k] == IdOf(p, git, es[k].oid)
    ensures ExportedAs(p, objs, ids[k]) == es[k].oid <==> Faithful(p, git, es[k].oid)
  {
    assert Oids(es)[k] in Oids(es) && ids[k] in ids;
    OneFaithful(p, git, objs, Oids(es)[k]);
  }

  lemma AllFaithful(p: Port, git: GitStore, objs: RawStore, g: Oid, es: seq<TreeEntry>, ids: seq<Id>)
    requires GitAcyclic(p, git) && g in git && References(p, git[g]) == Oids(es) && ReferencesComeBack(p, git, objs, g)
    requires |ids| == |es| && AllExport(p, objs, ids)
    requires forall k :: 0 <= k < |ids| ==> ImportOf(p, git, es[k].oid).Some? && ids[k] == IdOf(p, git, es[k].oid)
    ensures AllReturn(p, objs, es, ids) <==> ChildrenFaithful(p, git, g)
  {
    if AllReturn(p, objs, es, ids) { ReturnsFaithful(p, git, objs, g, es, ids); }
    if ChildrenFaithful(p, git, g) { FaithfulReturns(p, git, objs, g, es, ids); }
  }

  lemma ReturnsFaithful(p: Port, git: GitStore, objs: RawStore, g: Oid, es: seq<TreeEntry>, ids: seq<Id>)
    requires GitAcyclic(p, git) && g in git && References(p, git[g]) == Oids(es) && ReferencesComeBack(p, git, objs, g)
    requires |ids| == |es| && AllExport(p, objs, ids) && AllReturn(p, objs, es, ids)
    requires forall k :: 0 <= k < |ids| ==> ImportOf(p, git, es[k].oid).Some? && ids[k] == IdOf(p, git, es[k].oid)
    ensures ChildrenFaithful(p, git, g)
  {
    var refs := Oids(es);
    forall c | c in refs ensures p.gitRank(c) < p.gitRank(g) && Faithful(p, git, c) {
      var k :| 0 <= k < |refs| && refs[k] == c;
      Descends(p, git, g, k);
      ReturnedFaithful(p, git, objs, g, es, ids, k);
    }
  }

  lemma FaithfulReturns(p: Port, git: GitStore, objs: RawStore, g: Oid, es: seq<TreeEntry>, ids: seq<Id>)
    requires g in git && References(p, git[g]) == Oids(es) && ReferencesComeBack(p, git, objs, g)
    requires |ids| == |es| && AllExport(p, objs, ids) && ChildrenFaithful(p, git, g)
    requires forall k :: 0 <= k < |ids| ==> ImportOf(p, git, es[k].oid).Some? && ids[k] == IdOf(p, git, es[k].oid)
    ensures AllReturn(p, objs, es, ids)
  {
    forall k | 0 <= k < |es| ensures ExportedAs(p, objs, ids[k]) == es[k].oid {
      assert Oids(es)[k] in Oids(es);
      ReturnedFaithful(p, git, objs, g, es, ids, k);
    }
  }

  /** The export of a tree is the tree exactly when it and everything in it is faithful. */
  lemma TreeReturns(p: Port, git: GitStore, objs: RawStore, g: Oid, es: seq<TreeEntry>, ids: seq<Id>)
    requires Ready(p, git, objs) && g in git && git[g].kind == KIND_TREE && TreeOf(git[g].body) == Some(es)
    requires |es| == |ids| && TreeViews.UniqueNames(Converted(es, ids)) && AllExport(p, objs, ids)
    requires References(p, git[g]) == Oids(es) && ReferencesComeBack(p, git, objs, g)
    requires forall k :: 0 <= k < |ids| ==> ImportOf(p, git, es[k].oid).Some? && ids[k] == IdOf(p, git, es[k].oid)
    ensures var body := EncodeAll(p.arrange(Sort(TreeByName, Returned(p, objs, Converted(es, ids)))));
            p.gitHash(GitObject(KIND_TREE, body)) == g <==> FaithfulBody(p, git[g].body) && ChildrenFaithful(p, git, g)
  {
    BodyReturns(p, git, objs, g, es, ids);
    AllFaithful(p, git, objs, g, es, ids);
  }

  lemma TreeVerdict(p: Port, git: GitStore, g: Oid)
    requires g in git && git[g].kind == KIND_TREE
    ensures Exportable(p, git, g) <==>
            forall c :: c in References(p, git[g]) ==> p.gitRank(c) < p.gitRank(g) && Exportable(p, git, c)
    ensures Faithful(p, git, g) <==> Exportable(p, git, g) && FaithfulBody(p, git[g].body) && ChildrenFaithful(p, git, g)
  {
    KindsDiffer();
  }

  lemma TreeMadeFrom(p: Port, git: GitStore, g: Oid) returns (es: seq<TreeEntry>, ids: seq<Id>)
    requires ImportOf(p, git, g).Some? && git[g].kind == KIND_TREE
    ensures g in git && TreeOf(git[g].body) == Some(es) && References(p, git[g]) == Oids(es) && |ids| == |es|
    ensures TreeViews.UniqueNames(Converted(es, ids)) && ImportOf(p, git, g) == Some(TreeRaw(Converted(es, ids)))
    ensures forall k :: 0 <= k < |ids| ==> ImportOf(p, git, es[k].oid).Some? && ids[k] == IdOf(p, git, es[k].oid)
  {
    KindsDiffer();
    ids := MadeFrom(p, git, g);
    es := TreeOf(git[g].body).value;
  }

  lemma IdsSized(p: Port, git: GitStore, oids: seq<Oid>, ids: seq<Id>)
    requires Sized(p, git) && |oids| == |ids|
    requires forall k :: 0 <= k < |ids| ==> Imported(p, git, oids[k]) && ids[k] == IdOf(p, git, oids[k])
    ensures forall k :: 0 <= k < |ids| ==> |ids[k]| < U64
  {
  }

  lemma TreeComesBack(p: Port, git: GitStore, objs: RawStore, g: Oid)
    requires Ready(p, git, objs) && Held(p, git, objs, g) && git[g].kind == KIND_TREE && ReferencesComeBack(p, git, objs, g)
    ensures ComesBack(p, git, objs, g)
  {
    var es, ids := TreeMadeFrom(p, git, g);
    forall k | 0 <= k < |ids| ensures Imported(p, git, Oids(es)[k]) {}
    IdsSized(p, git, Oids(es), ids);
    TreeExport(p, objs, IdOf(p, git, g), es, ids);
    AllExportable(p, git, objs, g, ids);
    TreeVerdict(p, git, g);
    if AllExport(p, objs, ids) {
      TreeReturns(p, git, objs, g, es, ids);
    } else {
      assert ExportOf(p, objs, IdOf(p, git, g)) == None;
    }
  }

  ghost predicate Imported(p: Port, git: GitStore, g: Oid) {
    g in git && ImportOf(p, git, g).Some?
  }

  // ----- commits -----

  lemma {:induction false} DedupShorter(s: seq<Bytes>)
    ensures |Dedup(s)| <= |s|
  {
    if |s| > 1 { DedupShorter(s[1..]); }
  }

  /** The interop field is invisible to the view of a change. */
  lemma ViewIgnoresGitBody(fs: seq<Field>, body: Bytes)
    ensures ChangeView(Raw(TYPE_CHANGE, fs + [Field(GIT_COMMIT_BODY, body)])) == ChangeView(Raw(TYPE_CHANGE, fs))
  {
    var extra := [Field(GIT_COMMIT_BODY, body)];
    assert extra[1..] == [];
    forall tag: nat | tag != GIT_COMMIT_BODY ensures Lookup(fs + extra, tag) == Lookup(fs, tag) {
      LookupSkips(fs, extra, tag);
    }
  }

  lemma GitBodyFound(fs: seq<Field>, body: Bytes)
    requires Lookup(fs, GIT_COMMIT_BODY).None?
    ensures Lookup(fs + [Field(GIT_COMMIT_BODY, body)], GIT_COMMIT_BODY) == Some(body)
  {
    LookupSkips(fs, [Field(GIT_COMMIT_BODY, body)], GIT_COMMIT_BODY);
  }

  /** What an imported commit shows. */
  lemma CommitView(p: Port, c: CommitInfo, ids: seq<Id>, body: Bytes)
    requires ids != [] && |ids| < U64 && forall k :: 0 <= k < |ids| ==> |ids[k]| < U64
    ensures ChangeView(CommitRaw(p, c, ids, body)) == Some(Canonical(CommitChange(p, c, ids)))
    ensures Lookup(CommitRaw(p, c, ids, body).fields, GIT_COMMIT_BODY) == Some(body)
  {
    var change := CommitChange(p, c, ids);
    DedupShorter(Sort(Less, ids[1..]));
    forall id | id in change.parents ensures |id| < U64 {
      var k :| 0 <= k < |ids[1..]| && ids[1..][k] == id;
      assert ids[k + 1] == id;
    }
    ChangeRoundTrip(change);
    ViewIgnoresGitBody(ChangeFields(change), body);
    LookupInChange(change, GIT_COMMIT_BODY);
    GitBodyFound(ChangeFields(change), body);
  }

  lemma CommitUses(p: Port, objs: RawStore, c: CommitInfo, ids: seq<Id>, body: Bytes)
    requires ids != [] && |ids| < U64 && forall k :: 0 <= k < |ids| ==> |ids[k]| < U64
    ensures Uses(CommitRaw(p, c, ids, body)) == Some([ids[0]] + SortedUnique(ids[1..]))
    ensures AllExport(p, objs, [ids[0]] + SortedUnique(ids[1..])) <==> AllExport(p, objs, ids)
  {
    CommitView(p, c, ids, body);
    SortedUniqueIsAscending(ids[1..]);
    var uses := [ids[0]] + SortedUnique(ids[1..]);
    assert ids == [ids[0]] + ids[1..];
    forall u ensures u in uses <==> u in ids {
      assert u in SortedUnique(ids[1..]) <==> u in Elements(SortedUnique(ids[1..]));
      assert u in ids[1..] <==> u in Elements(ids[1..]);
    }
  }

  /** What exporting an imported commit gives: its own body, or an error. */
  lemma CommitExport(p: Port, objs: RawStore, id: Id, c: CommitInfo, ids: seq<Id>, body: Bytes)
    requires RawAcyclic(p, objs) && id in objs && p.Parse(body) == Some(c)
    requires ids != [] && |ids| < U64 && (forall k :: 0 <= k < |ids| ==> |ids[k]| < U64)
    requires objs[id] == CommitRaw(p, c, ids, body)
    ensures ExportOf(p, objs, id)
            == if AllExport(p, objs, ids) && ExportedAs(p, objs, ids[0]) == c.tree then Some(p.gitHash(GitObject(KIND_COMMIT, body)))
               else None
  {
    CommitView(p, c, ids, body);
    CommitUses(p, objs, c, ids, body);
    ExportByUses(p, objs, id);
  }

  lemma CommitVerdict(p: Port, git: GitStore, g: Oid)
    requires GitAcyclic(p, git) && g in git && git[g].kind == KIND_COMMIT && p.Parse(git[g].body).Some?
    ensures Exportable(p, git, g) <==>
            Faithful(p, git, p.Parse(git[g].body).value.tree)
            && forall c :: c in References(p, git[g]) ==> p.gitRank(c) < p.gitRank(g) && Exportable(p, git, c)
    ensures Faithful(p, git, g) <==> Exportable(p, git, g)
  {
    KindsDiffer();
    Descends(p, git, g, 0);
  }

  lemma CommitMadeFrom(p: Port, git: GitStore, g: Oid) returns (c: CommitInfo, ids: seq<Id>)
    requires ImportOf(p, git, g).Some? && git[g].kind == KIND_COMMIT
    ensures g in git && p.Parse(git[g].body) == Some(c) && References(p, git[g]) == [c.tree] + c.parents && |ids| == 1 + |c.parents|
    ensures ImportOf(p, git, g) == Some(CommitRaw(p, c, ids, git[g].body))
    ensures forall k :: 0 <= k < |ids| ==> Imported(p, git, References(p, git[g])[k]) && ids[k] == IdOf(p, git, References(p, git[g])[k])
  {
    KindsDiffer();
    ids := MadeFrom(p, git, g);
    c := p.Parse(git[g].body).value;
  }

  lemma CommitComesBack(p: Port, git: GitStore, objs: RawStore, g: Oid)
    requires Ready(p, git, objs) && Held(p, git, objs, g) && git[g].kind == KIND_COMMIT && ReferencesComeBack(p, git, objs, g)
    ensures ComesBack(p, git, objs, g)
  {
    var c, ids := CommitMadeFrom(p, git, g);
    var refs := References(p, git[g]);
    forall k | 0 <= k < |ids| ensures |ids[k]| < U64 { assert Imported(p, git, refs[k]); }
    CommitExport(p, objs, IdOf(p, git, g), c, ids, git[g].body);
    AllExportable(p, git, objs, g, ids);
    CommitVerdict(p, git, g);
    assert git[g] == GitObject(KIND_COMMIT, git[g].body);
    assert refs[0] == c.tree && refs[0] in refs && ComesBack(p, git, objs, c.tree);
    if AllExport(p, objs, ids) {
      assert ids[0] in ids;
      OneFaithful(p, git, objs, c.tree);
    }
  }

  // ----- the round trip -----

  /**
    Git to Varvig to Git: for whatever was imported, the export succeeds exactly when every
    tree that a commit records is faithful, and gives the original back exactly when the
    object itself is faithful too.
   */
  lemma {:induction false} RoundTrip(p: Port, git: GitStore, objs: RawStore, g: Oid)
    requires Ready(p, git, objs) && Held(p, git, objs, g)
    ensures ComesBack(p, git, objs, g)
    decreases p.gitRank(g)
  {
    forall c | c in References(p, git[g]) ensures ImportOf(p, git, c).Some? && ComesBack(p, git, objs, c) {
      RoundTrip(p, git, objs, c);
    }
    var ids := MadeFrom(p, git, g);
    if git[g].kind == KIND_BLOB {
      BlobComesBack(p, git, objs, g);
    } else if git[g].kind == KIND_TREE {
      TreeComesBack(p, git, objs, g);
    } else {
      CommitComesBack(p, git, objs, g);
    }
  }

  /** A commit comes back under its own id, or the export fails. */
  lemma CommitIdentity(p: Port, git: GitStore, objs: RawStore, g: Oid)
    requires Ready(p, git, objs) && Held(p, git, objs, g) && git[g].kind == KIND_COMMIT
    ensures ExportOf(p, objs, IdOf(p, git, g)) == (if Exportable(p, git, g) then Some(g) else None)
  {
    RoundTrip(p, git, objs, g);
    var c, ids := CommitMadeFrom(p, git, g);
    CommitVerdict(p, git, g);
  }

  /** Trees of plain names whose modes are supported and whose entries are in Git's order. */
  ghost predicate WellMade(body: Bytes) {
    TreeOf(body).Some? ==> PlainNames(TreeOf(body).value) && AllSupported(TreeOf(body).value) && Ascending(EntryLess, TreeOf(body).value)
  }

  /** Where Git's own rules hold for every tree, every import is exact. */
  lemma {:induction false} WellMadeIsFaithful(p: Port, git: GitStore, objs: RawStore, g: Oid)
    requires Ready(p, git, objs) && Held(p, git, objs, g)
    requires forall t :: t in git && git[t].kind == KIND_TREE ==> WellMade(git[t].body)
    ensures Faithful(p, git, g)
    decreases p.gitRank(g)
  {
    var refs := References(p, git[g]);
    forall c | c in refs ensures p.gitRank(c) < p.gitRank(g) && Faithful(p, git, c) { WellMadeIsFaithful(p, git, objs, c); }
    if git[g].kind == KIND_TREE {
      var es, ids := TreeMadeFrom(p, git, g);
      GitOrderedIsAscending(p, es);
      TreeVerdict(p, git, g);
    } else if git[g].kind == KIND_COMMIT {
      var c, ids := CommitMadeFrom(p, git, g);
      assert refs[0] == c.tree && refs[0] in refs;
      CommitVerdict(p, git, g);
    }
  }

  /** Import, then Export: the head comes back, or one of the two fails. */
  method ImportThenExport(p: Port, git: GitStore, objs: RawStore, target: GitStore, head: Oid)
    returns (id: Option<Id>, back: Option<Oid>, ghost after: RawStore)
    requires Arranges(p.arrange) && HashesApart(p) && RawIntact(p, objs) && GitIntact(p, target)
    requires GitIntact(p, git) && GitAcyclic(p, git) && OidsSound(p, git) && Sized(p, git)
    requires forall o, u :: Uses(o).Some? && u in Uses(o).value ==> p.rank(u) < p.rank(p.hash(o))
    ensures id.Some? <==> ImportOf(p, git, head).Some?
    ensures id.Some? && git[head].kind == KIND_COMMIT ==> back == (if Exportable(p, git, head) then Some(head) else None)
    ensures id.Some? ==> (back.Some? <==> Exportable(p, git, head)) && (back == Some(head) <==> Faithful(p, git, head))
  {
    var im := new Importer(p, git, objs);
    id := im.Object(head);
    back, after := None, im.objs;
    if id.None? { return; }
    assert RawAcyclic(p, im.objs) by {
      forall i, u | i in im.objs && Uses(im.objs[i]).Some? && u in Uses(im.objs[i]).value ensures p.rank(u) < p.rank(i) {
        assert p.hash(im.objs[i]) == i;
      }
    }
    var e := new Exporter(p, im.objs, target);
    back := e.Object(id.value);
    RoundTrip(p, git, im.objs, head);
    if git[head].kind == KIND_COMMIT { CommitIdentity(p, git, im.objs, head); }
  }

  // ----- an input that fails -----

  /** A tree with one file of mode 100664, which Git still reads: the export would write 100644. */
  lemma GroupWritableIsNotFaithful(p: Port, body: Bytes, name: Name, oid: Oid)
    requires NUL !in name && |oid| == 20 && body == EncodeAll([TreeEntry(Ascii("100664"), name, oid)])
    ensures !FaithfulBody(p, body)
  {
    var e := TreeEntry(Ascii("100664"), name, oid);
    var mode: Bytes := [49, 48, 48, 54, 54, 52];
    assert e.mode == mode && SPACE !in mode;
    TreeOfEncoded([e]);
    ModeBytes();
    assert mode[4] == 54;
    assert [e][0] == e;
  }

  /** The commit `g` records the tree `t`. */
  ghost predicate RecordsTree(p: Port, git: GitStore, g: Oid, t: Oid) {
    && g in git && git[g].kind == KIND_COMMIT && t in git
    && p.Parse(git[g].body).Some? && p.Parse(git[g].body).value.tree == t
  }

  /** A commit of such a tree is imported and cannot be exported. */
  lemma GroupWritableFails(p: Port, git: GitStore, objs: RawStore, g: Oid, t: Oid, name: Name, oid: Oid)
    requires RecordsTree(p, git, g, t) && git[t] == GitObject(KIND_TREE, EncodeAll([TreeEntry(Ascii("100664"), name, oid)]))
    requires NUL !in name && |oid| == 20 && Ready(p, git, objs) && Held(p, git, objs, g)
    ensures ExportOf(p, objs, IdOf(p, git, g)) == None
  {
    GroupWritableIsNotFaithful(p, git[t].body, name, oid);
    CommitVerdict(p, git, g);
    CommitIdentity(p, git, objs, g);
  }
}
