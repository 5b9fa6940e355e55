/**
  varvig/internal/gitport/gitport.go: Varvig objects turned back into Git objects. ExportOf
  is what the exporter computes without its memo.
 */
module GitExport {
  import opened Basics
  import opened Objects
  import opened GitObjects
  import opened GitTree
  import opened TreeViews
  import opened TypedViews
  import opened Codec
  import opened GitImport

  // ----- what an object becomes -----

  /** gitMode: directories by kind, files by mode, anything unknown a plain file. */
  function GitMode(e: Entry): Bytes {
    if e.kind == TYPE_TREE then MODE_TREE
    else if e.mode == 33261 then MODE_EXEC // 0o100755
    else if e.mode == 40960 then MODE_SYMLINK // 0o120000
    else MODE_FILE
  }

  function GitEntry(e: Entry, oid: Oid): TreeEntry {
    TreeEntry(GitMode(e), e.name, oid)
  }

  function GitEntries(es: seq<Entry>, oids: seq<Oid>): (r: seq<TreeEntry>)
    requires |es| == |oids|
    ensures |r| == |es| && forall k :: 0 <= k < |es| ==> r[k] == GitEntry(es[k], oids[k])
  {
    if es == [] then []
    else
      var n := |es| - 1;
      GitEntries(es[..n], oids[..n]) + [GitEntry(es[n], oids[n])]
  }

  /** The ids an object refers to: a tree's entries, or a change's tree and parents. */
  ghost function Uses(o: Raw): Option<seq<Id>> {
    if o.typ == TYPE_BLOB then Some([])
    else if o.typ == TYPE_TREE then
      if TreeView(o).Some? then Some(EntryIds(TreeView(o).value)) else None
    else if o.typ == TYPE_CHANGE && ChangeView(o).Some? && ChangeView(o).value.tree.Some? then
      Some([ChangeView(o).value.tree.value] + ChangeView(o).value.parents)
    else None
  }

  /** The Git object written for `o` once what it refers to has become `oids`; None is an error. */
  ghost function Written(p: Port, o: Raw, oids: seq<Oid>): Option<GitObject>
    requires Uses(o).Some? && |oids| == |Uses(o).value|
  {
    if o.typ == TYPE_BLOB then Some(GitObject(KIND_BLOB, OrEmpty(Lookup(o.fields, TAG_CONTENT))))
    else if o.typ == TYPE_TREE then
      Some(GitObject(KIND_TREE, EncodeAll(p.arrange(GitEntries(TreeView(o).value, oids)))))
    else
      var body := Lookup(o.fields, GIT_COMMIT_BODY);
      if body.None? then Some(GitObject(KIND_COMMIT, p.Synthesize(oids[0], oids[1..], ChangeView(o).value)))
      else if p.Parse(body.value).None? || p.Parse(body.value).value.tree != oids[0] then None
      else Some(GitObject(KIND_COMMIT, body.value))
  }

  ghost function ExportOf(p: Port, objs: RawStore, id: Id): Option<Oid>
    decreases p.rank(id), 1, 0
  {
    if id !in objs || Uses(objs[id]).None? then None
    else
      var oids := ExportAll(p, objs, Uses(objs[id]).value, p.rank(id));
      if oids.None? || Written(p, objs[id], oids.value).None? then None
      else Some(p.gitHash(Written(p, objs[id], oids.value).value))
  }

  ghost function ExportAll(p: Port, objs: RawStore, ids: seq<Id>, bound: nat): (r: Option<seq<Oid>>)
    ensures r.Some? ==> |r.value| == |ids|
    decreases bound, 0, |ids|
  {
    if ids == [] then Some([])
    else
      var n := |ids| - 1;
      var rest := ExportAll(p, objs, ids[..n], bound);
      if rest.None? || p.rank(ids[n]) >= bound || ExportOf(p, objs, ids[n]).None? then None
      else Some(rest.value + [ExportOf(p, objs, ids[n]).value])
  }

  ghost predicate Exports(p: Port, objs: RawStore, bound: nat, id: Id) {
    p.rank(id) < bound && ExportOf(p, objs, id).Some?
  }

  lemma {:induction false} AllExported(p: Port, objs: RawStore, ids: seq<Id>, bound: nat)
    requires forall k :: 0 <= k < |ids| ==> Exports(p, objs, bound, ids[k])
    ensures ExportAll(p, objs, ids, bound).Some?
  {
    if ids != [] {
      var n := |ids| - 1;
      AllExported(p, objs, ids[..n], bound);
      assert Exports(p, objs, bound, ids[n]);
    }
  }

  lemma {:induction false} EachExported(p: Port, objs: RawStore, ids: seq<Id>, bound: nat, k: nat)
    requires ExportAll(p, objs, ids, bound).Some? && k < |ids|
    ensures Exports(p, objs, bound, ids[k]) && ExportAll(p, objs, ids, bound).value[k] == ExportOf(p, objs, ids[k]).value
  {
    var n := |ids| - 1;
    if k < n {
      EachExported(p, objs, ids[..n], bound, k);
      assert ids[..n][k] == ids[k];
    }
  }

  /** What an object in the store refers to was hashed before it. */
  ghost predicate RawAcyclic(p: Port, objs: RawStore) {
    forall id, u :: id in objs && Uses(objs[id]).Some? && u in Uses(objs[id]).value ==> p.rank(u) < p.rank(id)
  }

  lemma UseDescends(p: Port, objs: RawStore, id: Id, k: nat)
    requires RawAcyclic(p, objs) && id in objs && Uses(objs[id]).Some? && k < |Uses(objs[id]).value|
    ensures p.rank(Uses(objs[id]).value[k]) < p.rank(id)
  {
    assert Uses(objs[id]).value[k] in Uses(objs[id]).value;
  }

  /** The first k of `ids` are exported, as `oids`. */
  ghost predicate AllDone(p: Port, objs: RawStore, ids: seq<Id>, k: nat, oids: seq<Oid>) {
    |oids| == k <= |ids| && forall j :: 0 <= j < k ==> ExportOf(p, objs, ids[j]) == Some(oids[j])
  }

  lemma OneMoreDone(p: Port, objs: RawStore, ids: seq<Id>, k: nat, oids: seq<Oid>, oid: Oid)
    requires AllDone(p, objs, ids, k, oids) && k < |ids| && ExportOf(p, objs, ids[k]) == Some(oid)
    ensures AllDone(p, objs, ids, k + 1, oids + [oid])
  {
  }

  lemma ExportedOids(p: Port, objs: RawStore, ids: seq<Id>, bound: nat, oids: seq<Oid>)
    requires AllDone(p, objs, ids, |ids|, oids)
    requires forall k :: 0 <= k < |ids| ==> p.rank(ids[k]) < bound
    ensures ExportAll(p, objs, ids, bound) == Some(oids)
  {
    forall k | 0 <= k < |ids| ensures Exports(p, objs, bound, ids[k]) { assert ExportOf(p, objs, ids[k]) == Some(oids[k]); }
    AllExported(p, objs, ids, bound);
    var got := ExportAll(p, objs, ids, bound).value;
    forall k | 0 <= k < |ids| ensures got[k] == oids[k] { EachExported(p, objs, ids, bound, k); }
    assert got == oids;
  }

  lemma ExportOfDone(p: Port, objs: RawStore, id: Id, oids: seq<Oid>)
    requires RawAcyclic(p, objs) && id in objs && Uses(objs[id]).Some?
    requires AllDone(p, objs, Uses(objs[id]).value, |Uses(objs[id]).value|, oids)
    ensures ExportOf(p, objs, id)
            == if Written(p, objs[id], oids).None? then None else Some(p.gitHash(Written(p, objs[id], oids).value))
  {
    var ids := Uses(objs[id]).value;
    forall k | 0 <= k < |ids| ensures p.rank(ids[k]) < p.rank(id) { UseDescends(p, objs, id, k); }
    ExportedOids(p, objs, ids, p.rank(id), oids);
  }

  lemma NotExported(p: Port, objs: RawStore, id: Id, k: nat)
    requires id in objs && Uses(objs[id]).Some? && k < |Uses(objs[id]).value|
    requires ExportOf(p, objs, Uses(objs[id]).value[k]).None?
    ensures ExportOf(p, objs, id).None?
  {
    if ExportOf(p, objs, id).Some? { EachExported(p, objs, Uses(objs[id]).value, p.rank(id), k); }
  }

  ghost predicate GitGrows(s: GitStore, t: GitStore) {
    forall g :: g in s ==> g in t && t[g] == s[g]
  }

  /** The export of `id` and of everything it refers to, near or far, is in the Git store. */
  ghost predicate Stored(p: Port, objs: RawStore, gs: GitStore, id: Id)
    decreases p.rank(id)
  {
    && id in objs && Uses(objs[id]).Some? && ExportOf(p, objs, id).Some? && ExportOf(p, objs, id).value in gs
    && forall u :: u in Uses(objs[id]).value ==> p.rank(u) < p.rank(id) && Stored(p, objs, gs, u)
  }

  lemma {:induction false} StoredGrows(p: Port, objs: RawStore, s: GitStore, t: GitStore, id: Id)
    requires GitGrows(s, t) && Stored(p, objs, s, id)
    ensures Stored(p, objs, t, id)
    decreases p.rank(id)
  {
    forall u | u in Uses(objs[id]).value ensures p.rank(u) < p.rank(id) && Stored(p, objs, t, u) { StoredGrows(p, objs, s, t, u); }
  }

  /** The first k of `ids` are stored. */
  ghost predicate AllStored(p: Port, objs: RawStore, gs: GitStore, ids: seq<Id>, k: nat) {
    k <= |ids| && forall j :: 0 <= j < k ==> Stored(p, objs, gs, ids[j])
  }

  lemma AllStoredGrows(p: Port, objs: RawStore, s: GitStore, t: GitStore, ids: seq<Id>, k: nat)
    requires GitGrows(s, t) && AllStored(p, objs, s, ids, k)
    ensures AllStored(p, objs, t, ids, k)
  {
    forall j | 0 <= j < k ensures Stored(p, objs, t, ids[j]) { StoredGrows(p, objs, s, t, ids[j]); }
  }

  /** With everything referred to stored and its own export in the store, an object is stored. */
  lemma StoredOfParts(p: Port, objs: RawStore, gs: GitStore, id: Id)
    requires RawAcyclic(p, objs) && id in objs && Uses(objs[id]).Some?
    requires ExportOf(p, objs, id).Some? && ExportOf(p, objs, id).value in gs
    requires AllStored(p, objs, gs, Uses(objs[id]).value, |Uses(objs[id]).value|)
    ensures Stored(p, objs, gs, id)
  {
    var ids := Uses(objs[id]).value;
    forall u | u in ids ensures p.rank(u) < p.rank(id) && Stored(p, objs, gs, u) {
      var k :| 0 <= k < |ids| && ids[k] == u;
      UseDescends(p, objs, id, k);
    }
  }

  lemma GitGrowsOn(s: GitStore, t: GitStore, u: GitStore)
    requires GitGrows(s, t) && GitGrows(t, u)
    ensures GitGrows(s, u)
  {
  }

  // ----- the exporter -----

  class Exporter {
    const p: Port
    const objs: RawStore
    var gs: GitStore
    var seen: map<Id, Oid>

    ghost predicate Valid()
      reads this
    {
      && RawAcyclic(p, objs) && GitIntact(p, gs)
      && forall id :: id in seen ==> ExportOf(p, objs, id) == Some(seen[id]) && Stored(p, objs, gs, id)
    }

    constructor (p: Port, objs: RawStore, gs: GitStore)
      requires RawAcyclic(p, objs) && GitIntact(p, gs)
      ensures Valid() && this.p == p && this.objs == objs && this.gs == gs && seen == map[]
    {
      this.p, this.objs, this.gs, seen := p, objs, gs, map[];
    }

    /** The Git store's Write: an object already present is left untouched. */
    method Write(o: GitObject) returns (oid: Oid)
      requires Valid()
      modifies this`gs
      ensures Valid() && GitGrows(old(gs), gs)
      ensures oid == p.gitHash(o) && oid in gs
    {
      oid := p.gitHash(o);
      if oid !in gs { gs := gs[oid := o]; }
      forall id | id in seen ensures Stored(p, objs, gs, id) { StoredGrows(p, objs, old(gs), gs, id); }
    }

    /** Writes what an object has become. */
    method WriteDone(id: Id, o: GitObject, ghost oids: seq<Oid>) returns (oid: Oid)
      requires Valid() && id in objs && Uses(objs[id]).Some?
      requires AllDone(p, objs, Uses(objs[id]).value, |Uses(objs[id]).value|, oids) && Written(p, objs[id], oids) == Some(o)
      requires AllStored(p, objs, gs, Uses(objs[id]).value, |Uses(objs[id]).value|)
      modifies this`gs
      ensures Valid() && GitGrows(old(gs), gs)
      ensures ExportOf(p, objs, id) == Some(oid) && Stored(p, objs, gs, id)
    {
      ExportOfDone(p, objs, id, oids);
      oid := Write(o);
      AllStoredGrows(p, objs, old(gs), gs, Uses(objs[id]).value, |Uses(objs[id]).value|);
      StoredOfParts(p, objs, gs, id);
    }

    /** An object, and before it everything it refers to. */
    method Object(id: Id) returns (r: Option<Oid>)
      requires Valid()
      modifies this
      ensures Valid() && GitGrows(old(gs), gs)
      ensures r == ExportOf(p, objs, id) && (r.Some? ==> Stored(p, objs, gs, id))
      decreases p.rank(id), 1, 0
    {
      if id in seen { return Some(seen[id]); }
      if id !in objs { return None; }
      var o := objs[id];
      if o.typ == TYPE_BLOB {
        var oid := WriteDone(id, GitObject(KIND_BLOB, OrEmpty(Lookup(o.fields, TAG_CONTENT))), []);
        r := Some(oid);
      } else if o.typ == TYPE_TREE {
        r := Tree(id);
      } else if o.typ == TYPE_CHANGE {
        r := Change(id);
      } else {
        return None;
      }
      if r.Some? { seen := seen[id := r.value]; }
    }

    /** The k-th object that `id` refers to, after the ones before it. */
    method Use(id: Id, u: Id, ghost k: nat, ghost oids: seq<Oid>) returns (r: Option<Oid>)
      requires Valid() && id in objs && Uses(objs[id]).Some? && k < |Uses(objs[id]).value| && u == Uses(objs[id]).value[k]
      requires AllDone(p, objs, Uses(objs[id]).value, k, oids) && AllStored(p, objs, gs, Uses(objs[id]).value, k)
      modifies this
      ensures Valid() && GitGrows(old(gs), gs)
      ensures r.None? ==> ExportOf(p, objs, id).None?
      ensures r.Some? ==> AllDone(p, objs, Uses(objs[id]).value, k + 1, oids + [r.value])
      ensures r.Some? ==> AllStored(p, objs, gs, Uses(objs[id]).value, k + 1)
      decreases p.rank(id), 0, 0
    {
      UseDescends(p, objs, id, k);
      r := Object(u);
      AllStoredGrows(p, objs, old(gs), gs, Uses(objs[id]).value, k);
      if r.None? {
        NotExported(p, objs, id, k);
      } else {
        OneMoreDone(p, objs, Uses(objs[id]).value, k, oids, r.value);
      }
    }

    method Entries(id: Id, es: seq<Entry>) returns (r: Option<seq<TreeEntry>>, ghost oids: seq<Oid>)
      requires Valid() && id in objs && Uses(objs[id]) == Some(EntryIds(es))
      modifies this
      ensures Valid() && GitGrows(old(gs), gs)
      ensures r.None? ==> ExportOf(p, objs, id).None?
      ensures r.Some? ==> AllDone(p, objs, EntryIds(es), |es|, oids) && r.value == GitEntries(es, oids)
      ensures r.Some? ==> AllStored(p, objs, gs, EntryIds(es), |es|)
      decreases p.rank(id), 0, 1
    {
      var ges: seq<TreeEntry> := [];
      oids := [];
      for k := 0 to |es|
        invariant Valid() && GitGrows(old(gs), gs)
        invariant AllDone(p, objs, EntryIds(es), k, oids) && ges == GitEntries(es[..k], oids)
        invariant AllStored(p, objs, gs, EntryIds(es), k)
      {
        ghost var before := gs;
        var child := Use(id, es[k].id, k, oids);
        GitGrowsOn(old(gs), before, gs);
        if child.None? { return None, oids; }
        GitEntriesAppend(es, oids, k, child.value);
        ges := ges + [GitEntry(es[k], child.value)];
        oids := oids + [child.value];
      }
      assert es[..|es|] == es;
      return Some(ges), oids;
    }

    method Tree(id: Id) returns (r: Option<Oid>)
      requires Valid() && id in objs && objs[id].typ == TYPE_TREE
      modifies this
      ensures Valid() && GitGrows(old(gs), gs)
      ensures r == ExportOf(p, objs, id) && (r.Some? ==> Stored(p, objs, gs, id))
      decreases p.rank(id), 0, 2
    {
      var es := TreeEntries(objs[id]);
      if es.None? { return None; }
      var ges, oids := Entries(id, es.value);
      if ges.None? { return None; }
      var body := EncodeTree(p.arrange, ges.value);
      var oid := WriteDone(id, GitObject(KIND_TREE, body), oids);
      return Some(oid);
    }

    method Parents(id: Id, parents: seq<Id>, ghost tree: Oid) returns (r: Option<seq<Oid>>)
      requires Valid() && id in objs && Uses(objs[id]).Some?
      requires |Uses(objs[id]).value| == 1 + |parents| && forall k :: 0 <= k < |parents| ==> Uses(objs[id]).value[1 + k] == parents[k]
      requires AllDone(p, objs, Uses(objs[id]).value, 1, [tree]) && AllStored(p, objs, gs, Uses(objs[id]).value, 1)
      modifies this
      ensures Valid() && GitGrows(old(gs), gs)
      ensures r.None? ==> ExportOf(p, objs, id).None?
      ensures r.Some? ==> AllDone(p, objs, Uses(objs[id]).value, 1 + |parents|, [tree] + r.value)
      ensures r.Some? ==> AllStored(p, objs, gs, Uses(objs[id]).value, 1 + |parents|)
      decreases p.rank(id), 0, 1, 0
    {
      var oids: seq<Oid> := [];
      ghost var all := [tree];
      for k := 0 to |parents|
        invariant Valid() && GitGrows(old(gs), gs)
        invariant all == [tree] + oids && AllDone(p, objs, Uses(objs[id]).value, 1 + k, all)
        invariant AllStored(p, objs, gs, Uses(objs[id]).value, 1 + k)
      {
        ghost var before := gs;
        var parent := Use(id, parents[k], 1 + k, all);
        GitGrowsOn(old(gs), before, gs);
        if parent.None? { return None; }
        oids := oids + [parent.value];
        all := all + [parent.value];
      }
      return Some(oids);
    }

    method Change(id: Id) returns (r: Option<Oid>)
      requires Valid() && id in objs && objs[id].typ == TYPE_CHANGE
      modifies this
      ensures Valid() && GitGrows(old(gs), gs)
      ensures r == ExportOf(p, objs, id) && (r.Some? ==> Stored(p, objs, gs, id))
      decreases p.rank(id), 0, 2
    {
      var ch := AsChange(objs[id]);
      if ch.None? || ch.value.tree.None? { return None; }
      var oids := TreeAndParents(id, ch.value);
      if oids.None? { return None; }
      r := WriteCommit(id, ch.value, oids.value.0, oids.value.1);
    }

    /** The tree of a change, and then its parents. */
    method TreeAndParents(id: Id, ch: Objects.Change) returns (r: Option<(Oid, seq<Oid>)>)
      requires Valid() && id in objs && ch.tree.Some? && Uses(objs[id]) == Some([ch.tree.value] + ch.parents)
      modifies this
      ensures Valid() && GitGrows(old(gs), gs)
      ensures r.None? ==> ExportOf(p, objs, id).None?
      ensures r.Some? ==> AllDone(p, objs, [ch.tree.value] + ch.parents, 1 + |ch.parents|, [r.value.0] + r.value.1)
                          && AllStored(p, objs, gs, [ch.tree.value] + ch.parents, 1 + |ch.parents|)
      decreases p.rank(id), 0, 1, 1
    {
      var tree := Use(id, ch.tree.value, 0, []);
      if tree.None? { return None; }
      assert [] + [tree.value] == [tree.value];
      var parents := Parents(id, ch.parents, tree.value);
      if parents.None? { return None; }
      return Some((tree.value, parents.value));
    }

    /** The commit of a change: the body it was imported with, if that still fits, or a new one. */
    method WriteCommit(id: Id, ch: Objects.Change, tree: Oid, parents: seq<Oid>) returns (r: Option<Oid>)
      requires Valid() && id in objs && objs[id].typ == TYPE_CHANGE && ChangeView(objs[id]) == Some(ch) && ch.tree.Some?
      requires AllDone(p, objs, [ch.tree.value] + ch.parents, 1 + |ch.parents|, [tree] + parents)
      requires AllStored(p, objs, gs, [ch.tree.value] + ch.parents, 1 + |ch.parents|)
      modifies this`gs
      ensures Valid() && GitGrows(old(gs), gs)
      ensures r == ExportOf(p, objs, id) && (r.Some? ==> Stored(p, objs, gs, id))
    {
      ExportOfDone(p, objs, id, [tree] + parents);
      assert ([tree] + parents)[1..] == parents;
      var body := Lookup(objs[id].fields, GIT_COMMIT_BODY);
      if body.Some? {
        var parsed := ParseCommit(p, body.value);
        if parsed.None? || parsed.value.tree != tree { return None; }
        var oid := WriteDone(id, GitObject(KIND_COMMIT, body.value), [tree] + parents);
        return Some(oid);
      }
      var oid := WriteDone(id, GitObject(KIND_COMMIT, p.Synthesize(tree, parents, ch)), [tree] + parents);
      return Some(oid);
    }
  }

  lemma GitEntriesAppend(es: seq<Entry>, oids: seq<Oid>, k: nat, oid: Oid)
    requires k < |es| && |oids| == k
    ensures GitEntries(es[..k + 1], oids + [oid]) == GitEntries(es[..k], oids) + [GitEntry(es[k], oid)]
  {
    var more, x, y := oids + [oid], GitEntries(es[..k + 1], oids + [oid]), GitEntries(es[..k], oids);
    forall j | 0 <= j < k ensures x[j] == y[j] { assert more[j] == oids[j]; }
    assert x == y + [x[k]];
  }
}
