/**
  varvig/internal/gitport/gitport.go: Git objects turned into Varvig objects. The importer
  remembers what it has imported; ImportOf is what it computes without remembering.
 */
module GitImport {
  import opened Basics
  import opened Orders
  import opened Objects
  import opened GitObjects
  import opened GitTree
  import opened TreeViews
  import opened TypedViews
  import opened Codec
  import CommitText
  import Varint

  const U64: nat := Varint.U64
  const TAG_CONTENT: nat := 1
  const GIT_COMMIT_BODY: nat := 0xF000_0001

  type Time = t: int | -I63 <= t < I63

  /** What DecodeCommit reads from a commit body. */
  datatype CommitInfo = CommitInfo(tree: Oid, parents: seq<Oid>, author: Bytes, time: Time, message: Bytes)

  /**
    The two hashes, and the parts of the commit format that are left to the caller: `ident`
    is parseIdent, `trailer` splitFulfillsTrailer, `signature` and `withTrailer` write the
    identity line and the message of a change that was never in Git, `arrange` is the sort
    of tree entries. The ranks say that an object is hashed after what it refers to.
   */
  datatype Port = Port(
    gitHash: GitObject -> Oid, hash: Raw -> Id,
    ident: Bytes -> (Bytes, Time), trailer: Bytes -> (Bytes, Option<Id>),
    signature: (Bytes, int) -> Bytes, withTrailer: (Bytes, Option<Id>) -> Bytes, arrange: Arrange,
    gitRank: Oid -> nat, rank: Id -> nat)
  {
    /** DecodeCommit; None is an error. */
    function Parse(body: Bytes): Option<CommitInfo> {
      var c := CommitText.Decoded(body);
      if c.None? then None else Some(Info(c.value))
    }

    function Info(c: CommitText.Commit): CommitInfo {
      var (author, time) := ident(c.header.author);
      CommitInfo(c.header.tree, c.header.parents, author, time, c.message)
    }

    /** The body of the commit written for a native change. */
    function Synthesize(tree: Oid, parents: seq<Oid>, ch: Change): Bytes {
      CommitText.Encoded(tree, parents, signature(ch.author, ch.timestamp), withTrailer(ch.message, ch.fulfills))
    }
  }

  method ParseCommit(p: Port, body: Bytes) returns (r: Option<CommitInfo>)
    ensures r == p.Parse(body)
  {
    var c := CommitText.DecodeCommit(body);
    if c.None? { return None; }
    return Some(p.Info(c.value));
  }

  /**
    A native change's commit reads back whole, its identity line included, if and only if
    that line holds no line feed; then tree, parents in order and message are those it was given.
   */
  lemma SynthesizedReads(p: Port, tree: Oid, parents: seq<Oid>, ch: Change)
    requires |tree| == 20 && (forall k :: 0 <= k < |parents| ==> |parents[k]| == 20)
    ensures CommitText.Decoded(p.Synthesize(tree, parents, ch))
            == Some(CommitText.Commit(CommitText.Header(tree, parents, p.signature(ch.author, ch.timestamp)), p.withTrailer(ch.message, ch.fulfills)))
            <==> CommitText.LF !in p.signature(ch.author, ch.timestamp)
    ensures CommitText.LF !in p.signature(ch.author, ch.timestamp) ==>
              var c := p.Parse(p.Synthesize(tree, parents, ch));
              c.Some? && c.value.tree == tree && c.value.parents == parents && c.value.message == p.withTrailer(ch.message, ch.fulfills)
  {
    CommitText.CommitRoundTrip(tree, parents, p.signature(ch.author, ch.timestamp), p.withTrailer(ch.message, ch.fulfills));
  }

  type GitStore = map<Oid, GitObject>
  type RawStore = map<Id, Raw>

  /** Reads verify the hash. */
  ghost predicate GitIntact(p: Port, git: GitStore) {
    forall g :: g in git ==> p.gitHash(git[g]) == g
  }

  ghost predicate RawIntact(p: Port, objs: RawStore) {
    forall id :: id in objs ==> p.hash(objs[id]) == id
  }

  /** What a stored object refers to comes before it. */
  ghost predicate GitAcyclic(p: Port, git: GitStore) {
    forall g, c :: g in git && c in References(p, git[g]) ==> p.gitRank(c) < p.gitRank(g)
  }

  /** Distinct objects never share an id. */
  ghost predicate HashesApart(p: Port) {
    forall x, y :: p.hash(x) == p.hash(y) ==> x == y
  }

  /** The oids an object refers to. */
  ghost function References(p: Port, o: GitObject): seq<Oid> {
    if o.kind == KIND_TREE && TreeOf(o.body).Some? then Oids(TreeOf(o.body).value)
    else if o.kind == KIND_COMMIT && p.Parse(o.body).Some? then [p.Parse(o.body).value.tree] + p.Parse(o.body).value.parents
    else []
  }

  function Oids(es: seq<TreeEntry>): (r: seq<Oid>)
    ensures |r| == |es| && forall k :: 0 <= k < |es| ==> r[k] == es[k].oid
  {
    if es == [] then [] else Oids(es[..|es| - 1]) + [es[|es| - 1].oid]
  }

  // ----- modes -----

  /** parseOctal, in uint32: stops at the first byte that is no octal digit. */
  function ParseOctal(mode: Bytes): nat {
    OctalFrom(mode, 0)
  }

  function OctalFrom(mode: Bytes, v: nat): nat {
    if mode == [] || mode[0] < 48 || mode[0] > 55 then v
    else OctalFrom(mode[1..], (v * 8 + (mode[0] - 48)) % U32)
  }

  method ParseOctalLoop(mode: Bytes) returns (v: nat)
    ensures v == ParseOctal(mode)
  {
    v := 0;
    for k := 0 to |mode|
      invariant OctalFrom(mode[k..], v) == ParseOctal(mode)
    {
      assert mode[k..][1..] == mode[k + 1..];
      if mode[k] < 48 || mode[k] > 55 { return; }
      v := (v * 8 + (mode[k] - 48)) % U32;
    }
  }

  lemma {:induction false} OctalFits(mode: Bytes, v: nat)
    requires v < U32
    ensures OctalFrom(mode, v) < U32
  {
    if mode != [] && 48 <= mode[0] <= 55 { OctalFits(mode[1..], (v * 8 + (mode[0] - 48)) % U32); }
  }

  function Convert(e: TreeEntry, id: Id): Entry {
    Entry(e.name, ParseOctal(e.mode), if e.mode == MODE_TREE then TYPE_TREE else TYPE_BLOB, id)
  }

  function Converted(es: seq<TreeEntry>, ids: seq<Id>): (r: seq<Entry>)
    requires |es| == |ids|
    ensures |r| == |es| && forall k :: 0 <= k < |es| ==> r[k] == Convert(es[k], ids[k])
  {
    if es == [] then []
    else
      var n := |es| - 1;
      Converted(es[..n], ids[..n]) + [Convert(es[n], ids[n])]
  }

  // ----- what an import makes of an object -----

  function BlobRaw(body: Bytes): Raw {
    Raw(TYPE_BLOB, [Field(TAG_CONTENT, body)])
  }

  ghost function TreeRaw(es: seq<Entry>): Raw {
    Raw(TYPE_TREE, [Field(TAG_ENTRIES, Records.EncodeList(ENTRIES, Sort(ByName, es)))])
  }

  function CommitChange(p: Port, c: CommitInfo, ids: seq<Id>): Change
    requires ids != []
  {
    var (message, fulfills) := p.trailer(c.message);
    Change(Some(ids[0]), ids[1..], message, c.time, c.author, None, [], fulfills)
  }

  ghost function CommitRaw(p: Port, c: CommitInfo, ids: seq<Id>, body: Bytes): Raw
    requires ids != []
  {
    Raw(TYPE_CHANGE, ChangeFields(CommitChange(p, c, ids)) + [Field(GIT_COMMIT_BODY, body)])
  }

  /** The object made of `o` once what it refers to has become `ids`. */
  ghost function Made(p: Port, o: GitObject, ids: seq<Id>): Option<Raw>
    requires |ids| == |References(p, o)|
  {
    if o.kind == KIND_BLOB then Some(BlobRaw(o.body))
    else if o.kind == KIND_TREE && TreeOf(o.body).Some? && UniqueNames(Converted(TreeOf(o.body).value, ids)) then
      Some(TreeRaw(Converted(TreeOf(o.body).value, ids)))
    else if o.kind == KIND_COMMIT && p.Parse(o.body).Some? then
      Some(CommitRaw(p, p.Parse(o.body).value, ids, o.body))
    else None
  }

  /** The Varvig object a Git object becomes; None is an error. */
  ghost function ImportOf(p: Port, git: GitStore, g: Oid): Option<Raw>
    decreases p.gitRank(g), 1, 0
  {
    if g !in git then None
    else
      var ids := ImportAll(p, git, References(p, git[g]), p.gitRank(g));
      if ids.None? then None else Made(p, git[g], ids.value)
  }

  ghost function ImportAll(p: Port, git: GitStore, oids: seq<Oid>, bound: nat): (r: Option<seq<Id>>)
    ensures r.Some? ==> |r.value| == |oids|
    decreases bound, 0, |oids|
  {
    if oids == [] then Some([])
    else
      var n := |oids| - 1;
      var rest := ImportAll(p, git, oids[..n], bound);
      if rest.None? || p.gitRank(oids[n]) >= bound || ImportOf(p, git, oids[n]).None? then None
      else Some(rest.value + [p.hash(ImportOf(p, git, oids[n]).value)])
  }

  /** An object that can be imported below a rank. */
  ghost predicate Imports(p: Port, git: GitStore, bound: nat, g: Oid) {
    p.gitRank(g) < bound && ImportOf(p, git, g).Some?
  }

  ghost predicate AllImport(p: Port, git: GitStore, bound: nat, oids: seq<Oid>) {
    forall k :: 0 <= k < |oids| ==> Imports(p, git, bound, oids[k])
  }

  /** The id of an imported object. */
  ghost function IdOf(p: Port, git: GitStore, g: Oid): Id
    requires ImportOf(p, git, g).Some?
  {
    p.hash(ImportOf(p, git, g).value)
  }

  lemma {:induction false} AllImported(p: Port, git: GitStore, oids: seq<Oid>, bound: nat)
    requires AllImport(p, git, bound, oids)
    ensures ImportAll(p, git, oids, bound).Some?
  {
    if oids != [] {
      var n := |oids| - 1;
      AllImported(p, git, oids[..n], bound);
      assert Imports(p, git, bound, oids[n]);
    }
  }

  lemma {:induction false} EachImported(p: Port, git: GitStore, oids: seq<Oid>, bound: nat, k: nat)
    requires ImportAll(p, git, oids, bound).Some? && k < |oids|
    ensures Imports(p, git, bound, oids[k]) && ImportAll(p, git, oids, bound).value[k] == IdOf(p, git, oids[k])
  {
    var n := |oids| - 1;
    if k < n {
      EachImported(p, git, oids[..n], bound, k);
      assert oids[..n][k] == oids[k];
    }
  }

  // ----- the importer -----

  lemma OneMoreId(first: seq<Id>, ids: seq<Id>, id: Id)
    ensures (first + ids) + [id] == first + (ids + [id])
  {
  }

  ghost predicate RawGrows(s: RawStore, t: RawStore) {
    forall id :: id in s ==> id in t && t[id] == s[id]
  }

  lemma RawGrowsOn(s: RawStore, t: RawStore, u: RawStore)
    requires RawGrows(s, t) && RawGrows(t, u)
    ensures RawGrows(s, u)
  {
  }

  /** Everything an object refers to, near or far, has been imported into the store. */
  ghost predicate Held(p: Port, git: GitStore, objs: RawStore, g: Oid)
    decreases p.gitRank(g)
  {
    && ImportOf(p, git, g).Some? && IdOf(p, git, g) in objs && objs[IdOf(p, git, g)] == ImportOf(p, git, g).value
    && forall c :: c in References(p, git[g]) ==> p.gitRank(c) < p.gitRank(g) && Held(p, git, objs, c)
  }

  lemma {:induction false} HeldGrows(p: Port, git: GitStore, s: RawStore, t: RawStore, g: Oid)
    requires RawGrows(s, t) && Held(p, git, s, g)
    ensures Held(p, git, t, g)
    decreases p.gitRank(g)
  {
    forall c | c in References(p, git[g]) ensures p.gitRank(c) < p.gitRank(g) && Held(p, git, t, c) { HeldGrows(p, git, s, t, c); }
  }

  /** The first k of `oids` are imported, as `ids`. */
  ghost predicate AllHeld(p: Port, git: GitStore, objs: RawStore, oids: seq<Oid>, k: nat, ids: seq<Id>) {
    |ids| == k <= |oids| && forall j :: 0 <= j < k ==> Held(p, git, objs, oids[j]) && ids[j] == IdOf(p, git, oids[j])
  }

  lemma AllHeldGrows(p: Port, git: GitStore, s: RawStore, t: RawStore, oids: seq<Oid>, k: nat, ids: seq<Id>)
    requires RawGrows(s, t) && AllHeld(p, git, s, oids, k, ids)
    ensures AllHeld(p, git, t, oids, k, ids)
  {
    forall j | 0 <= j < k ensures Held(p, git, t, oids[j]) { HeldGrows(p, git, s, t, oids[j]); }
  }

  lemma Descends(p: Port, git: GitStore, g: Oid, k: nat)
    requires GitAcyclic(p, git) && g in git && k < |References(p, git[g])|
    ensures p.gitRank(References(p, git[g])[k]) < p.gitRank(g)
  {
    assert References(p, git[g])[k] in References(p, git[g]);
  }

  lemma ImportedIds(p: Port, git: GitStore, objs: RawStore, oids: seq<Oid>, bound: nat, ids: seq<Id>)
    requires AllHeld(p, git, objs, oids, |oids|, ids)
    requires forall k :: 0 <= k < |oids| ==> p.gitRank(oids[k]) < bound
    ensures ImportAll(p, git, oids, bound) == Some(ids)
  {
    forall k | 0 <= k < |oids| ensures Imports(p, git, bound, oids[k]) { assert Held(p, git, objs, oids[k]); }
    AllImported(p, git, oids, bound);
    var got := ImportAll(p, git, oids, bound).value;
    forall k | 0 <= k < |oids| ensures got[k] == ids[k] { EachImported(p, git, oids, bound, k); }
    assert got == ids;
  }

  /** With everything referred to imported, the object itself is made of it. */
  lemma MadeOfHeld(p: Port, git: GitStore, objs: RawStore, g: Oid, ids: seq<Id>)
    requires GitAcyclic(p, git) && g in git
    requires AllHeld(p, git, objs, References(p, git[g]), |References(p, git[g])|, ids)
    ensures ImportOf(p, git, g) == Made(p, git[g], ids)
  {
    var refs := References(p, git[g]);
    forall k | 0 <= k < |refs| ensures p.gitRank(refs[k]) < p.gitRank(g) { Descends(p, git, g, k); }
    ImportedIds(p, git, objs, refs, p.gitRank(g), ids);
  }

  lemma HeldOfMade(p: Port, git: GitStore, objs: RawStore, g: Oid, ids: seq<Id>)
    requires GitAcyclic(p, git) && g in git
    requires AllHeld(p, git, objs, References(p, git[g]), |References(p, git[g])|, ids)
    requires Made(p, git[g], ids).Some? && p.hash(Made(p, git[g], ids).value) in objs
    requires objs[p.hash(Made(p, git[g], ids).value)] == Made(p, git[g], ids).value
    ensures Held(p, git, objs, g)
  {
    MadeOfHeld(p, git, objs, g, ids);
    var refs := References(p, git[g]);
    forall c | c in refs ensures p.gitRank(c) < p.gitRank(g) && Held(p, git, objs, c) {
      var k :| 0 <= k < |refs| && refs[k] == c;
      Descends(p, git, g, k);
    }
  }

  /** Where something referred to cannot be imported, neither can the object. */
  lemma NotMade(p: Port, git: GitStore, g: Oid, k: nat)
    requires g in git && k < |References(p, git[g])| && ImportOf(p, git, References(p, git[g])[k]).None?
    ensures ImportOf(p, git, g).None?
  {
    if ImportOf(p, git, g).Some? { EachImported(p, git, References(p, git[g]), p.gitRank(g), k); }
  }

  class Importer {
    const p: Port
    const git: GitStore
    var objs: RawStore
    var seen: map<Oid, Id>

    ghost predicate Valid()
      reads this
    {
      && HashesApart(p) && GitAcyclic(p, git) && RawIntact(p, objs)
      && forall g :: g in seen ==> Held(p, git, objs, g) && seen[g] == IdOf(p, git, g)
    }

    constructor (p: Port, git: GitStore, objs: RawStore)
      requires HashesApart(p) && GitAcyclic(p, git) && RawIntact(p, objs)
      ensures Valid() && this.p == p && this.git == git && this.objs == objs && seen == map[]
    {
      this.p, this.git, this.objs, seen := p, git, objs, map[];
    }

    /** The store's Put. */
    method Put(o: Raw) returns (id: Id)
      requires Valid()
      modifies this`objs
      ensures Valid() && RawGrows(old(objs), objs)
      ensures id == p.hash(o) && id in objs && objs[id] == o
    {
      id := p.hash(o);
      if id !in objs { objs := objs[id := o]; }
      forall g | g in seen ensures Held(p, git, objs, g) { HeldGrows(p, git, old(objs), objs, g); }
    }

    /** An object, and before it everything it refers to. */
    method Object(g: Oid) returns (r: Option<Id>)
      requires Valid()
      modifies this
      ensures Valid() && RawGrows(old(objs), objs)
      ensures r.Some? <==> ImportOf(p, git, g).Some?
      ensures r.Some? ==> Held(p, git, objs, g) && r.value == IdOf(p, git, g)
      decreases p.gitRank(g), 1, 0
    {
      if g in seen { return Some(seen[g]); }
      if g !in git { return None; }
      var o := git[g];
      if o.kind == KIND_BLOB {
        KindsDiffer();
        var id := PutMade(g, BlobRaw(o.body), []);
        r := Some(id);
      } else if o.kind == KIND_TREE {
        r := Tree(g);
      } else if o.kind == KIND_COMMIT {
        r := Commit(g);
      } else {
        MadeOfHeld(p, git, objs, g, []);
        return None;
      }
      if r.Some? { seen := seen[g := r.value]; }
    }

    /** The k-th object that `g` refers to, after the ones before it. */
    method Reference(g: Oid, ghost refs: seq<Oid>, c: Oid, ghost k: nat, ghost ids: seq<Id>) returns (r: Option<Id>)
      requires Valid() && g in git && refs == References(p, git[g]) && k < |refs| && c == refs[k]
      requires AllHeld(p, git, objs, refs, k, ids)
      modifies this
      ensures Valid() && RawGrows(old(objs), objs)
      ensures r.None? ==> ImportOf(p, git, g).None?
      ensures r.Some? ==> AllHeld(p, git, objs, refs, k + 1, ids + [r.value])
      decreases p.gitRank(g), 0, 0
    {
      Descends(p, git, g, k);
      r := Object(c);
      AllHeldGrows(p, git, old(objs), objs, refs, k, ids);
      if r.None? { NotMade(p, git, g, k); }
    }

    /** The entries of a tree, each child imported first. */
    method Entries(g: Oid, es: seq<TreeEntry>) returns (r: Option<seq<Entry>>, ghost ids: seq<Id>)
      requires Valid() && g in git && References(p, git[g]) == Oids(es)
      modifies this
      ensures Valid() && RawGrows(old(objs), objs)
      ensures r.None? ==> ImportOf(p, git, g).None?
      ensures r.Some? ==> AllHeld(p, git, objs, Oids(es), |es|, ids) && r.value == Converted(es, ids)
      decreases p.gitRank(g), 0, 1
    {
      var entries: seq<Entry> := [];
      ids := [];
      for k := 0 to |es|
        invariant Valid() && RawGrows(old(objs), objs)
        invariant AllHeld(p, git, objs, Oids(es), k, ids) && entries == Converted(es[..k], ids)
      {
        var child := Reference(g, Oids(es), es[k].oid, k, ids);
        if child.None? { return None, ids; }
        var mode := ParseOctalLoop(es[k].mode);
        ConvertedAppend(es, ids, k, child.value);
        entries := entries + [Entry(es[k].name, mode, if es[k].mode == MODE_TREE then TYPE_TREE else TYPE_BLOB, child.value)];
        ids := ids + [child.value];
      }
      assert es[..|es|] == es;
      return Some(entries), ids;
    }

    method Tree(g: Oid) returns (r: Option<Id>)
      requires Valid() && g in git && git[g].kind == KIND_TREE
      modifies this
      ensures Valid() && RawGrows(old(objs), objs)
      ensures r.Some? <==> ImportOf(p, git, g).Some?
      ensures r.Some? ==> Held(p, git, objs, g) && r.value == IdOf(p, git, g)
      decreases p.gitRank(g), 0, 2
    {
      KindsDiffer();
      var es := DecodeTree(git[g].body);
      if es.None? {
        MadeOfHeld(p, git, objs, g, []);
        return None;
      }
      TreeOfEncoded(es.value);
      var entries, ids := Entries(g, es.value);
      if entries.None? { return None; }
      MadeOfHeld(p, git, objs, g, ids);
      var raw := NewTree(entries.value);
      if raw.None? { return None; }
      var id := PutMade(g, raw.value, ids);
      return Some(id);
    }

    /** Stores what an object was made into. */
    method PutMade(g: Oid, raw: Raw, ghost ids: seq<Id>) returns (id: Id)
      requires Valid() && g in git && AllHeld(p, git, objs, References(p, git[g]), |References(p, git[g])|, ids)
      requires Made(p, git[g], ids) == Some(raw)
      modifies this`objs
      ensures Valid() && RawGrows(old(objs), objs)
      ensures Held(p, git, objs, g) && id == IdOf(p, git, g)
    {
      id := Put(raw);
      AllHeldGrows(p, git, old(objs), objs, References(p, git[g]), |ids|, ids);
      MadeOfHeld(p, git, objs, g, ids);
      HeldOfMade(p, git, objs, g, ids);
    }

    /** The parents of a commit, in order. */
    method Parents(g: Oid, ghost refs: seq<Oid>, parents: seq<Oid>, ghost tree: Id) returns (r: Option<seq<Id>>)
      requires Valid() && g in git && refs == References(p, git[g]) && |refs| == 1 + |parents|
      requires forall k :: 0 <= k < |parents| ==> parents[k] == refs[1 + k]
      requires AllHeld(p, git, objs, refs, 1, [tree])
      modifies this
      ensures Valid() && RawGrows(old(objs), objs)
      ensures r.None? ==> ImportOf(p, git, g).None?
      ensures r.Some? ==> AllHeld(p, git, objs, refs, 1 + |parents|, [tree] + r.value)
      decreases p.gitRank(g), 0, 1
    {
      var ids: seq<Id> := [];
      ghost var all := [tree];
      for k := 0 to |parents|
        invariant Valid() && RawGrows(old(objs), objs)
        invariant all == [tree] + ids && AllHeld(p, git, objs, refs, 1 + k, all)
      {
        ghost var before := objs;
        var parent := Reference(g, refs, parents[k], 1 + k, all);
        RawGrowsOn(old(objs), before, objs);
        if parent.None? { return None; }
        OneMoreId([tree], ids, parent.value);
        ids := ids + [parent.value];
        all := all + [parent.value];
      }
      return Some(ids);
    }

    /** The tree of a commit, and then its parents. */
    method TreeAndParents(g: Oid, ghost refs: seq<Oid>, c: CommitInfo) returns (r: Option<seq<Id>>)
      requires Valid() && g in git && refs == References(p, git[g]) && refs == [c.tree] + c.parents
      modifies this
      ensures Valid() && RawGrows(old(objs), objs)
      ensures r.None? ==> ImportOf(p, git, g).None?
      ensures r.Some? ==> |r.value| == |refs| && AllHeld(p, git, objs, refs, |refs|, r.value)
      decreases p.gitRank(g), 0, 2
    {
      var tree := Reference(g, refs, c.tree, 0, []);
      if tree.None? { return None; }
      assert [] + [tree.value] == [tree.value];
      var parents := Parents(g, refs, c.parents, tree.value);
      if parents.None? { return None; }
      return Some([tree.value] + parents.value);
    }

    method Commit(g: Oid) returns (r: Option<Id>)
      requires Valid() && g in git && git[g].kind == KIND_COMMIT
      modifies this
      ensures Valid() && RawGrows(old(objs), objs)
      ensures r.Some? <==> ImportOf(p, git, g).Some?
      ensures r.Some? ==> Held(p, git, objs, g) && r.value == IdOf(p, git, g)
      decreases p.gitRank(g), 0, 3
    {
      var c := ParseCommit(p, git[g].body);
      CommitRefers(p, git[g]);
      if c.None? {
        MadeOfHeld(p, git, objs, g, []);
        return None;
      }
      ghost var refs := References(p, git[g]);
      var ids := TreeAndParents(g, refs, c.value);
      if ids.None? { return None; }
      var id := CommitOf(g, c.value, ids.value);
      return Some(id);
    }

    /** The change of a commit whose tree and parents are imported. */
    method CommitOf(g: Oid, c: CommitInfo, ids: seq<Id>) returns (id: Id)
      requires Valid() && g in git && git[g].kind == KIND_COMMIT && p.Parse(git[g].body) == Some(c)
      requires AllHeld(p, git, objs, References(p, git[g]), |References(p, git[g])|, ids)
      modifies this`objs
      ensures Valid() && RawGrows(old(objs), objs)
      ensures Held(p, git, objs, g) && id == IdOf(p, git, g)
    {
      CommitMade(p, git[g], ids);
      assert ids == [ids[0]] + ids[1..];
      var raw := MakeCommit(p, c, ids[0], ids[1..], git[g].body);
      id := PutMade(g, raw, ids);
    }
  }

  lemma CommitRefers(p: Port, o: GitObject)
    requires o.kind == KIND_COMMIT
    ensures References(p, o) == if p.Parse(o.body).Some? then [p.Parse(o.body).value.tree] + p.Parse(o.body).value.parents else []
    ensures p.Parse(o.body).None? ==> Made(p, o, []).None?
  {
    KindsDiffer();
  }

  lemma CommitMade(p: Port, o: GitObject, ids: seq<Id>)
    requires o.kind == KIND_COMMIT && p.Parse(o.body).Some? && |ids| == |References(p, o)|
    ensures ids != [] && Made(p, o, ids) == Some(CommitRaw(p, p.Parse(o.body).value, ids, o.body))
  {
    KindsDiffer();
  }

  /** The change of a commit, with the commit's body attached by SetField: its tag is above all others. */
  method MakeCommit(p: Port, c: CommitInfo, tree: Id, parents: seq<Id>, body: Bytes) returns (raw: Raw)
    ensures raw == CommitRaw(p, c, [tree] + parents, body)
  {
    var (message, fulfills) := p.trailer(c.message);
    var change := Change(Some(tree), parents, message, c.time, c.author, None, [], fulfills);
    assert ([tree] + parents)[1..] == parents;
    raw := NewChange(change);
    var fields := raw.fields + [Field(GIT_COMMIT_BODY, body)];
    ChangeTags(change);
    TagsConcat(raw.fields, [Field(GIT_COMMIT_BODY, body)], 1, 10, U64);
    NewObjectSorts(fields, fields, 1, U64);
    raw := Raw(raw.typ, Sort(ByTag, fields));
  }

  lemma ConvertedAppend(es: seq<TreeEntry>, ids: seq<Id>, k: nat, id: Id)
    requires k < |es| && |ids| == k
    ensures Converted(es[..k + 1], ids + [id]) == Converted(es[..k], ids) + [Convert(es[k], id)]
  {
    var more, x, y := ids + [id], Converted(es[..k + 1], ids + [id]), Converted(es[..k], ids);
    forall j | 0 <= j < k ensures x[j] == y[j] { assert more[j] == ids[j]; }
    assert x == y + [x[k]];
  }
}
