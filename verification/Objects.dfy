/**
  The object graph every component walks: typed objects, the ids they link to
  (varvig/internal/object/links.go) and the content-addressed store.

  A World fixes what an id verifies. Two facts are taken about it: bytes that differ never
  verify under one id, and an object is hashed after everything it links to, so links
  strictly descend in rank. An object here is what its bytes read as, so many ids can
  name the same object: another digest, a signature, a field no view shows.
 */
module Objects {
  import opened Basics
  import opened Orders

  type Id = Bytes
  type Name = Bytes

  const TYPE_BLOB: nat := 1
  const TYPE_TREE: nat := 2
  const TYPE_CHANGE: nat := 3

  /** One child of a tree (varvig/internal/object/tree.go). */
  datatype Entry = Entry(name: Name, mode: nat, kind: nat, id: Id)

  predicate ByName(x: Entry, y: Entry) {
    Less(x.name, y.name)
  }

  predicate NamesAscending(es: seq<Entry>) {
    forall i, j :: 0 <= i < j < |es| ==> Less(es[i].name, es[j].name)
  }

  /** The entries a tree view can show: sorted by name, names unique. */
  type Entries = es: seq<Entry> | NamesAscending(es)

  /** The typed view of a change (varvig/internal/object/change.go). */
  datatype Change = Change(
    tree: Option<Id>, parents: seq<Id>, message: Bytes, timestamp: int, author: Bytes,
    provenance: Option<Id>, artifacts: seq<Id>, fulfills: Option<Id>)

  /**
    What stored bytes mean. `Other` is any further object type, with the ids it links
    to. `BadView` decodes but its typed view fails; `Undecodable` bytes do not decode.
   */
  datatype Object =
    | BlobObj(content: Bytes)
    | TreeObj(entries: Entries)
    | ChangeObj(change: Change)
    | ProvenanceObj(body: Bytes)
    | Other(links: seq<Id>, body: Bytes)
    | BadView(raw: Bytes)
    | Undecodable(raw: Bytes)

  function OptionIds(id: Option<Id>): seq<Id> {
    if id.Some? then [id.value] else []
  }

  function EntryIds(es: seq<Entry>): (ids: seq<Id>)
    ensures |ids| == |es| && forall k :: 0 <= k < |es| ==> ids[k] == es[k].id
  {
    seq(|es|, k requires 0 <= k < |es| => es[k].id)
  }

  /** An optional id field read back: an empty one is a nil id, that is, none. */
  function Present(id: Option<Id>): Option<Id> {
    if id == Some([]) then None else id
  }

  /** Object.Links: none when the bytes or the typed view are malformed. */
  function Links(o: Object): Option<seq<Id>> {
    match o
    case BlobObj(_) => Some([])
    case TreeObj(es) => Some(EntryIds(es))
    case ChangeObj(c) => Some(OptionIds(c.tree) + c.parents + OptionIds(Present(c.provenance)) + c.artifacts + OptionIds(Present(c.fulfills)))
    case ProvenanceObj(_) => Some([])
    case Other(ls, _) => Some(ls)
    case BadView(_) => None
    case Undecodable(_) => None
  }

  /** The change names `id` as its tree, a parent, an artifact, its intent or the intent it fulfills. */
  predicate RefersTo(c: Change, id: Id) {
    || c.tree == Some(id)
    || id in c.parents
    || id in c.artifacts
    || (id != [] && (c.provenance == Some(id) || c.fulfills == Some(id)))
  }

  /** A change links to its tree, its parents, its artifacts, its intent and the intent it fulfills, and to nothing else. */
  lemma ChangeLinks(c: Change, id: Id)
    ensures Links(ChangeObj(c)).Some?
    ensures id in Links(ChangeObj(c)).value <==>
            c.tree == Some(id) || id in c.parents || id in c.artifacts || (id != [] && c.provenance == Some(id)) || (id != [] && c.fulfills == Some(id))
    ensures id in Links(ChangeObj(c)).value <==> RefersTo(c, id)
  {
  }

  /** A tree links to what its entries name. */
  lemma TreeLinks(es: Entries, id: Id)
    ensures Links(TreeObj(es)).Some? && (id in Links(TreeObj(es)).value <==> exists e :: e in es && e.id == id)
  {
    var ids := EntryIds(es);
    if id in ids {
      var k :| 0 <= k < |ids| && ids[k] == id;
      assert es[k] in es;
    }
    if e :| e in es && e.id == id {
      var k :| 0 <= k < |es| && es[k] == e;
      assert ids[k] == id;
    }
  }

  /** Blobs and provenance link to nothing, other objects to what they say; what cannot be read has no links to give. */
  lemma LeafLinks(o: Object)
    ensures o.BlobObj? || o.ProvenanceObj? ==> Links(o) == Some([])
    ensures o.Other? ==> Links(o) == Some(o.links)
    ensures o.BadView? || o.Undecodable? <==> Links(o) == None
  {
  }

  /** The links a walk follows: a malformed object is walked up to but not through. */
  function Children(o: Object): seq<Id> {
    var ls := Links(o);
    if ls.Some? then ls.value else []
  }

  /** `verifies(id, o)`: the bytes behind `id` read as `o`. `hash(o)`: the id given to an object made from its view alone. */
  datatype World = World(hash: Object -> Id, verifies: (Id, Object) -> bool, rank: Id -> nat) {
    ghost predicate Valid() {
      && (forall o :: verifies(hash(o), o))
      && (forall id, o, p :: verifies(id, o) && verifies(id, p) ==> o == p)
      && (forall o :: !verifies([], o))
      && (forall id, o, l :: verifies(id, o) && l in Children(o) ==> rank(l) < rank(id))
    }
  }

  type Store = map<Id, Object>

  /** Every object verifies under its id: reads check integrity. */
  ghost predicate Intact(w: World, objs: Store) {
    forall id :: id in objs ==> w.verifies(id, objs[id])
  }

  ghost predicate Grows(s: Store, t: Store) {
    forall id :: id in s ==> id in t && t[id] == s[id]
  }

  /** Growth by blobs and trees alone: history is untouched. */
  ghost predicate AddsFiles(s: Store, t: Store) {
    Grows(s, t) && forall id :: id in t && id !in s ==> t[id].BlobObj? || t[id].TreeObj?
  }

  /** Two intact stores agree wherever both hold an object. */
  lemma IntactAgree(w: World, s: Store, t: Store, id: Id)
    requires w.Valid() && Intact(w, s) && Intact(w, t)
    requires id in s && id in t
    ensures s[id] == t[id]
  {
    assert w.verifies(id, s[id]) && w.verifies(id, t[id]);
  }

  /** varvig/internal/store/store.go: objects named by a hash of their bytes. */
  class ObjectStore {
    const w: World
    var objs: Store

    ghost predicate Valid()
      reads this
    {
      w.Valid() && Intact(w, objs)
    }

    constructor (w: World)
      requires w.Valid()
      ensures Valid() && this.w == w && objs == map[]
    {
      this.w := w;
      objs := map[];
    }

    /** Idempotent: an object already present is left alone. */
    method Put(o: Object) returns (id: Id)
      requires Valid()
      modifies this
      ensures Valid()
      ensures id == w.hash(o) && objs == old(objs)[id := o] && Grows(old(objs), objs)
    {
      id := w.hash(o);
      if id in objs {
        assert w.verifies(id, objs[id]) && w.verifies(id, o);
        assert objs[id := o] == objs;
      } else {
        objs := objs[id := o];
      }
    }

    /** Keeps received bytes under the id they came with, whatever its digest, if they verify. */
    method PutVerified(id: Id, o: Object) returns (ok: bool)
      requires Valid()
      modifies this
      ensures Valid()
      ensures ok <==> w.verifies(id, o)
      ensures objs == (if ok then old(objs)[id := o] else old(objs)) && Grows(old(objs), objs)
    {
      if !w.verifies(id, o) { return false; }
      if id in objs {
        assert w.verifies(id, objs[id]);
        assert objs[id := o] == objs;
      } else {
        objs := objs[id := o];
      }
      return true;
    }
  }
}
