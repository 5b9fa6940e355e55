/**
  What a crossing between Git and Varvig says of each object
  (varvig/internal/gitport/gitport.go, varvig/internal/gitobj/gitobj.go): the content,
  entries and history of what is imported, and the text of what is exported.
 */
module GitLaws {
  import opened Basics
  import opened Orders
  import opened Objects
  import opened GitObjects
  import opened GitTree
  import opened TypedViews
  import opened Codec
  import opened GitImport
  import opened GitExport
  import opened GitRoundTrip
  import opened CommitText
  import TreeViews

  // ----- imported -----

  /** A blob keeps its content, as the one field of a blob. */
  lemma ImportedBlob(p: Port, git: GitStore, g: Oid)
    requires g in git && git[g].kind == Ascii("blob")
    ensures ImportOf(p, git, g) == Some(Raw(1, [Field(1, git[g].body)]))
  {
    assert References(p, git[g]) == [] by { KindsDiffer(); }
  }

  /** `id` is what the object `g` is imported as. */
  ghost predicate ImportedAs(p: Port, git: GitStore, g: Oid, id: Id) {
    ImportOf(p, git, g).Some? && id == IdOf(p, git, g)
  }

  /** The Varvig entry of a Git entry: same name, octal mode, a tree exactly for a directory. */
  ghost predicate IsImported(p: Port, git: GitStore, ge: TreeEntry, e: Entry) {
    && e.name == ge.name && e.mode == ParseOctal(ge.mode) && e.kind == (if ge.mode == Ascii("40000") then 2 else 1)
    && ImportedAs(p, git, ge.oid, e.id)
  }

  /** `es` are the imported entries of the Git tree `ges`, sorted by name. */
  ghost predicate AreImported(p: Port, git: GitStore, ges: seq<TreeEntry>, es: seq<Entry>) {
    && Ascending(ByName, es) && |es| == |ges|
    && forall e :: e in es <==> exists ge :: ge in ges && IsImported(p, git, ge, e)
  }

  lemma ConvertedAreImported(p: Port, git: GitStore, ges: seq<TreeEntry>, ids: seq<Id>, conv: seq<Entry>)
    requires |ges| == |ids| && conv == Converted(ges, ids) && TreeViews.UniqueNames(conv)
    requires forall k :: 0 <= k < |ids| ==> ImportedAs(p, git, ges[k].oid, ids[k])
    ensures AreImported(p, git, ges, Sort(ByName, conv))
  {
    var es := Sort(ByName, conv);
    TreeViews.NewTreePanics(conv);
    MultisetElements(conv, es);
    assert |es| == |multiset(es)| == |multiset(conv)|;
    forall e ensures e in es <==> exists ge :: ge in ges && IsImported(p, git, ge, e) {
      assert e in Elements(es) <==> e in Elements(conv);
      ConvertedEntries(p, git, ges, ids, e);
    }
  }

  /** An imported tree has exactly the entries of the Git tree, each imported, sorted by name. */
  lemma ImportedTree(p: Port, git: GitStore, g: Oid) returns (ges: seq<TreeEntry>, es: seq<Entry>)
    requires Sized(p, git) && Imported(p, git, g) && git[g].kind == Ascii("tree")
    ensures git[g].body == GitTree.EncodeAll(ges)
    ensures TreeViews.TreeView(ImportOf(p, git, g).value) == Some(es) && AreImported(p, git, ges, es)
  {
    var ids;
    ges, ids := TreeMadeFrom(p, git, g);
    SizedEntries(p, git, ges, ids);
    EncodedBody(git[g].body, ges);
    ImportedView(ges, ids);
    es := Sort(ByName, Converted(ges, ids));
    ConvertedAreImported(p, git, ges, ids, Converted(ges, ids));
  }

  lemma SizedEntries(p: Port, git: GitStore, ges: seq<TreeEntry>, ids: seq<Id>)
    requires Sized(p, git) && |ges| == |ids|
    requires forall k :: 0 <= k < |ids| ==> ImportedAs(p, git, ges[k].oid, ids[k])
    ensures forall k :: 0 <= k < |ids| ==> |ids[k]| < U64
  {
  }

  lemma EncodedBody(body: Bytes, ges: seq<TreeEntry>)
    requires GitTree.TreeOf(body) == Some(ges)
    ensures body == GitTree.EncodeAll(ges)
  {
  }

  lemma ConvertedEntries(p: Port, git: GitStore, ges: seq<TreeEntry>, ids: seq<Id>, e: Entry)
    requires |ges| == |ids|
    requires forall k :: 0 <= k < |ids| ==> ImportedAs(p, git, ges[k].oid, ids[k])
    ensures e in Converted(ges, ids) <==> exists ge :: ge in ges && IsImported(p, git, ge, e)
  {
    var conv := Converted(ges, ids);
    if e in conv {
      var k :| 0 <= k < |conv| && conv[k] == e;
      ConvertIsImport(p, git, ges[k], ids[k], e);
    }
    if ge :| ge in ges && IsImported(p, git, ge, e) {
      var k :| 0 <= k < |ges| && ges[k] == ge;
      ConvertIsImport(p, git, ge, ids[k], e);
      assert conv[k] == e;
    }
  }

  lemma ConvertIsImport(p: Port, git: GitStore, ge: TreeEntry, id: Id, e: Entry)
    requires ImportedAs(p, git, ge.oid, id)
    ensures Convert(ge, id) == e <==> IsImported(p, git, ge, e)
  {
  }

  /** `id` is the imported form of one of `gs`. */
  ghost predicate IsIdOfOne(p: Port, git: GitStore, gs: seq<Oid>, id: Id) {
    exists q :: q in gs && Imported(p, git, q) && id == IdOf(p, git, q)
  }

  /** What an imported commit says: the imported tree and parents, the text of the message and the identity line. */
  ghost predicate SaysCommit(p: Port, git: GitStore, c: CommitInfo, ch: Change) {
    && Imported(p, git, c.tree) && ch.tree == Some(IdOf(p, git, c.tree))
    && (forall id :: id in ch.parents <==> IsIdOfOne(p, git, c.parents, id))
    && ch.message == p.trailer(c.message).0 && ch.author == c.author && ch.timestamp == c.time
    && ch.fulfills == Present(p.trailer(c.message).1) && ch.provenance == None && ch.artifacts == []
  }

  /**
    An imported commit reads as a change with the imported tree, exactly the imported parents,
    the message and fulfilled intent that the trailer is split into, and the author and time of
    the identity line; its exact body is kept beside them under tag 0xF0000001.
   */
  lemma ImportedCommit(p: Port, git: GitStore, g: Oid) returns (c: CommitInfo, ch: Change)
    requires Sized(p, git) && Imported(p, git, g) && git[g].kind == Ascii("commit")
    ensures p.Parse(git[g].body) == Some(c) && ChangeView(ImportOf(p, git, g).value) == Some(ch) && SaysCommit(p, git, c, ch)
    ensures Lookup(ImportOf(p, git, g).value.fields, 0xF000_0001) == Some(git[g].body)
  {
    var ids;
    c, ids := CommitMadeFrom(p, git, g);
    ch := Canonical(CommitChange(p, c, ids));
    CommitReadBack(p, git, g, c, ids);
    CommitReferences(p, git, References(p, git[g]), c, ids);
    CommitSays(p, git, c, ids, CommitChange(p, c, ids));
  }

  lemma CommitReadBack(p: Port, git: GitStore, g: Oid, c: CommitInfo, ids: seq<Id>)
    requires Sized(p, git) && g in git && |References(p, git[g])| == |ids| && ids != []
    requires forall k :: 0 <= k < |ids| ==> Imported(p, git, References(p, git[g])[k]) && ids[k] == IdOf(p, git, References(p, git[g])[k])
    ensures ChangeView(CommitRaw(p, c, ids, git[g].body)) == Some(Canonical(CommitChange(p, c, ids)))
    ensures Lookup(CommitRaw(p, c, ids, git[g].body).fields, 0xF000_0001) == Some(git[g].body)
  {
    IdsSized(p, git, References(p, git[g]), ids);
    CommitView(p, c, ids, git[g].body);
  }

  lemma CommitReferences(p: Port, git: GitStore, refs: seq<Oid>, c: CommitInfo, ids: seq<Id>)
    requires refs == [c.tree] + c.parents && |ids| == |refs|
    requires forall k :: 0 <= k < |ids| ==> Imported(p, git, refs[k]) && ids[k] == IdOf(p, git, refs[k])
    ensures Imported(p, git, c.tree) && ids[0] == IdOf(p, git, c.tree)
    ensures forall k :: 0 <= k < |c.parents| ==> Imported(p, git, c.parents[k]) && ids[k + 1] == IdOf(p, git, c.parents[k])
  {
    assert refs[0] == c.tree && Imported(p, git, refs[0]);
    forall k | 0 <= k < |c.parents| ensures Imported(p, git, c.parents[k]) && ids[k + 1] == IdOf(p, git, c.parents[k]) {
      assert refs[k + 1] == c.parents[k];
    }
  }

  lemma CommitSays(p: Port, git: GitStore, c: CommitInfo, ids: seq<Id>, made: Change)
    requires |ids| == 1 + |c.parents| && made == CommitChange(p, c, ids) && Imported(p, git, c.tree) && ids[0] == IdOf(p, git, c.tree)
    requires forall k :: 0 <= k < |c.parents| ==> Imported(p, git, c.parents[k]) && ids[k + 1] == IdOf(p, git, c.parents[k])
    ensures SaysCommit(p, git, c, Canonical(made))
  {
    assert SortedUnique([]) == [];
    SortedUniqueIsAscending(ids[1..]);
    forall id ensures id in SortedUnique(ids[1..]) <==> IsIdOfOne(p, git, c.parents, id) {
      assert id in Elements(SortedUnique(ids[1..])) <==> id in Elements(ids[1..]);
      ParentIds(p, git, c.parents, ids[1..], id);
    }
  }

  lemma ParentIds(p: Port, git: GitStore, gs: seq<Oid>, ids: seq<Id>, id: Id)
    requires |ids| == |gs| && forall k :: 0 <= k < |gs| ==> Imported(p, git, gs[k]) && ids[k] == IdOf(p, git, gs[k])
    ensures id in ids <==> IsIdOfOne(p, git, gs, id)
  {
    if id in ids {
      var k :| 0 <= k < |ids| && ids[k] == id;
      assert gs[k] in gs;
    }
    if IsIdOfOne(p, git, gs, id) {
      var q :| q in gs && Imported(p, git, q) && id == IdOf(p, git, q);
      var k :| 0 <= k < |gs| && gs[k] == q;
      assert ids[k] == id;
    }
  }

  // ----- exported -----

  /** A blob is written with its content, whatever else it holds. */
  lemma ExportedBlob(p: Port, objs: RawStore, id: Id, content: Bytes)
    requires id in objs && objs[id] == Raw(1, [Field(1, content)])
    ensures ExportOf(p, objs, id) == Some(p.gitHash(GitObject(Ascii("blob"), content)))
  {
    assert ExportAll(p, objs, [], p.rank(id)) == Some([]);
  }

  /** The oids of the exports of `ids`, in order. */
  ghost predicate AreExports(p: Port, objs: RawStore, ids: seq<Id>, oids: seq<Oid>) {
    |oids| == |ids| && forall k :: 0 <= k < |ids| ==> ExportOf(p, objs, ids[k]) == Some(oids[k])
  }

  /** The export of `id` is a commit that decodes to these parts. */
  ghost predicate CommitsTo(p: Port, objs: RawStore, id: Id, tree: Oid, parents: seq<Oid>, ident: Bytes, message: Bytes) {
    exists body :: ExportOf(p, objs, id) == Some(p.gitHash(GitObject(Ascii("commit"), body)))
                   && Decoded(body) == Some(Commit(Header(tree, parents, ident), message))
  }

  /**
    A change that was never in Git and whose tree and parents are exported becomes a commit that
    names those exports, the tree first and the parents in order, with the identity line and the
    message the caller supplies. It is what any reader of the commit decodes, if that line has no line feed.
   */
  lemma ExportedNative(p: Port, objs: RawStore, id: Id, ch: Change, tree: Oid, parents: seq<Oid>)
    requires RawAcyclic(p, objs) && id in objs && objs[id].typ == 3 && ChangeView(objs[id]) == Some(ch)
    requires Lookup(objs[id].fields, 0xF000_0001) == None && ch.tree.Some?
    requires ExportOf(p, objs, ch.tree.value) == Some(tree) && AreExports(p, objs, ch.parents, parents)
    requires |tree| == 20 && (forall k :: 0 <= k < |parents| ==> |parents[k]| == 20) && LF !in p.signature(ch.author, ch.timestamp)
    ensures CommitsTo(p, objs, id, tree, parents, p.signature(ch.author, ch.timestamp), p.withTrailer(ch.message, ch.fulfills))
  {
    var uses, oids := [ch.tree.value] + ch.parents, [tree] + parents;
    forall j | 0 <= j < |uses| ensures ExportOf(p, objs, uses[j]) == Some(oids[j]) {
      if j > 0 { assert uses[j] == ch.parents[j - 1] && oids[j] == parents[j - 1]; }
    }
    assert Uses(objs[id]) == Some(uses);
    ExportOfDone(p, objs, id, oids);
    assert oids[0] == tree && oids[1..] == parents;
    assert Written(p, objs[id], oids) == Some(GitObject(KIND_COMMIT, p.Synthesize(tree, parents, ch)));
    SynthesizedReads(p, tree, parents, ch);
  }

  // ----- the text of commits and trees -----

  /** How each line of a commit header is read: an oid in hex after "tree " or "parent ", the identity after "author ", anything else skipped. */
  lemma HeaderLinesRead(h: Header, o: Oid, ident: Bytes, line: Bytes)
    requires |o| == 20
    ensures ReadLine(h, Ascii("tree ") + Hex(o)) == Some(h.(tree := o))
    ensures ReadLine(h, Ascii("parent ") + Hex(o)) == Some(h.(parents := h.parents + [o]))
    ensures ReadLine(h, Ascii("author ") + ident) == Some(h.(author := ident))
    ensures !(Ascii("tree ") <= line) && !(Ascii("parent ") <= line) && !(Ascii("author ") <= line) ==> ReadLine(h, line) == Some(h)
  {
    TreeLine(h, o);
    ParentLine(h, o);
    IdentLines(h, ident);
  }

  lemma UnhexTwo(x: byte, y: byte, rest: Bytes)
    requires HexValue(x).Some? && HexValue(y).Some? && Unhex(rest).Some?
    ensures Unhex([x, y] + rest) == Some([HexValue(x).value * 16 + HexValue(y).value] + Unhex(rest).value)
  {
    assert ([x, y] + rest)[2..] == rest;
  }

  lemma HexTwo(v: byte, rest: Bytes)
    ensures Hex([v] + rest) == [HexDigit(v / 16), HexDigit(v % 16)] + Hex(rest)
  {
    assert ([v] + rest)[1..] == rest;
  }

  /** Lower-case hex is written. */
  lemma HexWritten()
    ensures Hex([0x0f, 0xa9]) == Ascii("0fa9")
  {
    HexTwo(0x0f, [0xa9]);
    HexTwo(0xa9, []);
    assert [0x0f] + [0xa9] == [0x0f, 0xa9] && [0xa9] + [] == [0xa9];
  }

  /** Both cases are read, whole bytes only. */
  lemma HexRead()
    ensures Unhex(Ascii("0Fa9")) == Some([0x0f, 0xa9]) && Unhex(Ascii("0g")) == None && Unhex(Ascii("0")) == None
  {
    UnhexTwo(97, 57, []);
    UnhexTwo(48, 70, [97, 57]);
    assert [97, 57] + [] == [97, 57] && [48, 70] + [97, 57] == Ascii("0Fa9");
    assert Unhex([97, 57]) == Some([0xa9]) by { assert [0xa9] + [] == [0xa9]; }
    assert [0x0f] + [0xa9] == [0x0f, 0xa9];
    assert Ascii("0g")[1] == 103 && |Ascii("0")| == 1;
  }

  /** The commit written for a tree and one parent. */
  lemma CommitWritten(tree: Oid, parent: Oid, sig: Bytes, message: Bytes)
    ensures Encoded(tree, [parent], sig, message)
            == Ascii("tree ") + Hex(tree) + [10] + (Ascii("parent ") + Hex(parent) + [10]
               + (Ascii("author ") + sig + [10] + (Ascii("committer ") + sig))) + [10, 10] + message
  {
    var t, q, a, c := Ascii("tree ") + Hex(tree), Ascii("parent ") + Hex(parent), Ascii("author ") + sig, Ascii("committer ") + sig;
    assert ParentLines([]) == [];
    assert ParentLines([parent]) == ParentLines([parent][..0]) + [q] && [parent][..0] == [];
    var lines := HeaderLines(tree, [parent], sig);
    assert lines == [t, q, a, c];
    assert lines[1..] == [q, a, c] && [q, a, c][1..] == [a, c] && [a, c][1..] == [c];
    assert CommitText.JoinLines([c]) == c && CommitText.JoinLines([a, c]) == a + [10] + c;
    assert CommitText.JoinLines([q, a, c]) == q + [10] + (a + [10] + c);
  }

  /** A directory and a file after it, as a tree body holds them. */
  lemma TreeWrittenOut(dir: Oid, file: Oid)
    ensures GitTree.EncodeAll([TreeEntry(MODE_TREE, Ascii("a"), dir), TreeEntry(GitObjects.MODE_FILE, Ascii("b"), file)])
            == Ascii("40000 a") + [0] + dir + (Ascii("100644 b") + [0] + file)
  {
    var x, y := TreeEntry(MODE_TREE, Ascii("a"), dir), TreeEntry(GitObjects.MODE_FILE, Ascii("b"), file);
    assert [x, y][1..] == [y] && [y][1..] == [];
    assert GitTree.EncodeAll([y]) == GitTree.EncodeEntry(y) + [];
    assert Ascii("40000 a") == MODE_TREE + [32] + Ascii("a") && Ascii("100644 b") == GitObjects.MODE_FILE + [32] + Ascii("b");
  }

  /** Git's order around a directory "a": "a.b" before it, "a0" after it; a file "a" would stand before both. */
  lemma DirectoryOrder()
    ensures TreeLess(Ascii("a.b"), false, Ascii("a"), true) && TreeLess(Ascii("a"), true, Ascii("a0"), false)
    ensures TreeLess(Ascii("a"), false, Ascii("a.b"), false) && !TreeLess(Ascii("a"), true, Ascii("a.b"), false)
  {
    assert Ascii("a.b") == [97, 46, 98] && Ascii("a0") == [97, 48] && Ascii("a") == [97];
    assert [97, 46, 98][..1] == [97] && [97, 48][..1] == [97] && [97][..1] == [97];
  }

  // ----- modes -----

  predicate IsOctal(m: Bytes) {
    forall k :: 0 <= k < |m| ==> 48 <= m[k] <= 55
  }

  /** The number that octal digits write. */
  function OctalValue(m: Bytes): nat
    requires IsOctal(m)
  {
    if m == [] then 0 else 8 * OctalValue(m[..|m| - 1]) + (m[|m| - 1] - 48)
  }

  lemma WrappedDigit(v: nat, d: nat)
    ensures ((v % TreeViews.U32) * 8 + d) % TreeViews.U32 == (v * 8 + d) % TreeViews.U32
  {
    var q, r := v / TreeViews.U32, v % TreeViews.U32;
    assert v * 8 + d == TreeViews.U32 * (8 * q) + (r * 8 + d);
    var x := r * 8 + d;
    assert (TreeViews.U32 * (8 * q) + x) % TreeViews.U32 == x % TreeViews.U32;
  }

  lemma {:induction false} OctalSteps(m: Bytes, s: Bytes, k: nat)
    requires IsOctal(m) && m <= s && k <= |m|
    ensures ParseOctal(s) == OctalFrom(s[k..], OctalValue(m[..k]) % TreeViews.U32)
  {
    if k == 0 {
      assert s[0..] == s && m[..0] == [];
    } else {
      OctalSteps(m, s, k - 1);
      assert m[..k][..k - 1] == m[..k - 1] && m[..k][k - 1] == m[k - 1] == s[k - 1];
      assert s[k - 1..][1..] == s[k..];
      WrappedDigit(OctalValue(m[..k - 1]), m[k - 1] - 48);
    }
  }

  /** parseOctal reads the leading octal digits, in uint32, and ignores what follows them. */
  lemma OctalDigits(m: Bytes, rest: Bytes)
    requires IsOctal(m) && (rest != [] ==> !(48 <= rest[0] <= 55))
    ensures ParseOctal(m + rest) == OctalValue(m) % 0x1_0000_0000
  {
    OctalSteps(m, m + rest, |m|);
    assert m[..|m|] == m && (m + rest)[|m|..] == rest;
  }
}
