/**
  varvig/internal/affected/affected.go: the diff of two trees that skips equal subtrees.
  What it lists is defined name by name, as the walk goes; a theorem then says exactly
  when that is the plain comparison of the two flattened path maps.
 */
module TreeDiff {
  import opened Basics
  import opened Orders
  import opened Objects
  import opened Trees

  // ----- the plain comparison -----

  /** The paths a diff lists. */
  datatype Changes = Changes(added: set<Path>, modified: set<Path>, removed: set<Path>)

  const NOTHING := Changes({}, {}, {})

  ghost function Compared(a: Files, b: Files): Changes {
    Changes(b.Keys - a.Keys, (set p | p in a && p in b && a[p].id != b[p].id), a.Keys - b.Keys)
  }

  // ----- plain names -----

  predicate PlainSegment(n: Name) {
    n != [] && SLASH !in n && n != Ascii(".") && n != Ascii("..")
  }

  /** Names are path segments, as far down as trees can be walked. */
  ghost predicate PlainBelow(w: World, u: Store, id: Id)
    decreases w.rank(id)
  {
    id in u && u[id].TreeObj? ==>
      forall e :: e in u[id].entries ==>
        PlainSegment(e.name) && (e.kind != TYPE_BLOB && w.rank(e.id) < w.rank(id) ==> PlainBelow(w, u, e.id))
  }

  ghost predicate PlainEntry(w: World, u: Store, e: Entry) {
    PlainSegment(e.name) && (e.kind != TYPE_BLOB ==> PlainBelow(w, u, e.id))
  }

  ghost predicate PlainEntries(w: World, u: Store, es: seq<Entry>, bound: nat) {
    forall e :: e in es ==> PlainEntry(w, u, e) && w.rank(e.id) < bound
  }

  lemma EntriesPlain(w: World, u: Store, id: Id)
    requires w.Valid() && Intact(w, u) && PlainBelow(w, u, id) && id in u && u[id].TreeObj?
    ensures PlainEntries(w, u, u[id].entries, w.rank(id))
  {
    EntryRanks(w, u, id);
  }

  // ----- where paths lie -----

  /** The part of a path below a prefix. */
  function Rel(prefix: Path, p: Path): Path {
    var n := if prefix == [] then 0 else |prefix| + 1;
    if n <= |p| then p[n..] else []
  }

  ghost predicate Beneath(prefix: Path, p: Path) {
    Rel(prefix, p) != [] && p == Join(prefix, Rel(prefix, p))
  }

  lemma RelOfJoin(prefix: Path, q: Path)
    ensures Rel(prefix, Join(prefix, q)) == q
  {
  }

  lemma HeadOfPlain(n: Name)
    requires SLASH !in n
    ensures Head(n) == n
  {
    assert FirstSlash(n) == |n|;
  }

  lemma BelowEntry(prefix: Path, name: Name, p: Path)
    requires PlainSegment(name) && Beneath(Join(prefix, name), p)
    ensures Beneath(prefix, p) && Head(Rel(prefix, p)) == name
  {
    var q := Rel(Join(prefix, name), p);
    SplitUnder(name, q);
    JoinUnder(prefix, name, q);
    RelOfJoin(prefix, Under(name, q));
  }

  lemma JoinUnder(prefix: Path, name: Name, q: Path)
    requires name != []
    ensures Join(Join(prefix, name), q) == Join(prefix, Under(name, q))
  {
    if prefix != [] {
      assert prefix + [SLASH] + name + [SLASH] + q == prefix + [SLASH] + (name + [SLASH] + q);
    }
  }

  /** All paths of a map lie beneath the prefix, within segment `name`. */
  ghost predicate Within(prefix: Path, name: Name, files: Files) {
    forall p :: p in files ==> Beneath(prefix, p) && Head(Rel(prefix, p)) == name
  }

  ghost predicate AllBeneath(prefix: Path, files: Files) {
    forall p :: p in files ==> Beneath(prefix, p)
  }

  /** A flattened tree lies beneath its prefix. */
  lemma {:induction false} TreeBeneath(w: World, u: Store, id: Id, prefix: Path)
    requires w.Valid() && Intact(w, u) && PlainBelow(w, u, id) && FlatTree(w, u, id, prefix).Some?
    ensures AllBeneath(prefix, FlatTree(w, u, id, prefix).value)
    decreases w.rank(id), 1, 0
  {
    EntriesPlain(w, u, id);
    EntriesBeneath(w, u, u[id].entries, prefix, w.rank(id));
  }

  lemma {:induction false} EntriesBeneath(w: World, u: Store, es: seq<Entry>, prefix: Path, bound: nat)
    requires w.Valid() && Intact(w, u) && PlainEntries(w, u, es, bound) && FlatEntries(w, u, es, prefix, bound).Some?
    ensures AllBeneath(prefix, FlatEntries(w, u, es, prefix, bound).value)
    decreases bound, 0, |es|
  {
    if es != [] {
      var n := |es| - 1;
      EntriesBeneath(w, u, es[..n], prefix, bound);
      EntryWithin(w, u, es[n], prefix, bound);
    }
  }

  lemma {:induction false} EntryWithin(w: World, u: Store, e: Entry, prefix: Path, bound: nat)
    requires w.Valid() && Intact(w, u) && PlainEntry(w, u, e) && w.rank(e.id) < bound
    requires FlatEntry(w, u, e, prefix, bound).Some?
    ensures Within(prefix, e.name, FlatEntry(w, u, e, prefix, bound).value)
    decreases bound, 0, 0
  {
    if e.kind == TYPE_TREE {
      SubtreeWithin(w, u, e, prefix);
    } else {
      RelOfJoin(prefix, e.name);
      HeadOfPlain(e.name);
    }
  }

  /** Whatever lies in the tree of an entry lies within its name. */
  lemma {:induction false} SubtreeWithin(w: World, u: Store, e: Entry, prefix: Path)
    requires w.Valid() && Intact(w, u) && PlainEntry(w, u, e) && e.kind != TYPE_BLOB && FlatTree(w, u, e.id, Join(prefix, e.name)).Some?
    ensures Within(prefix, e.name, FlatTree(w, u, e.id, Join(prefix, e.name)).value)
    decreases w.rank(e.id), 2, 0
  {
    TreeBeneath(w, u, e.id, Join(prefix, e.name));
    var files := FlatTree(w, u, e.id, Join(prefix, e.name)).value;
    forall p | p in files ensures Beneath(prefix, p) && Head(Rel(prefix, p)) == e.name { BelowEntry(prefix, e.name, p); }
  }

  // ----- a flattened tree, name by name -----

  /** The files under an entry, or none where it cannot be flattened. */
  ghost function EntryFiles(w: World, u: Store, e: Entry, prefix: Path): Files
    requires w.Valid() && Intact(w, u)
  {
    var flat := FlatEntry(w, u, e, prefix, w.rank(e.id) + 1);
    if flat.Some? then flat.value else map[]
  }

  /** `part` is what `all` holds within segment `name`. */
  ghost predicate Owns(all: Files, prefix: Path, name: Name, part: Files) {
    && (forall p :: p in part ==> p in all && all[p] == part[p] && Head(Rel(prefix, p)) == name)
    && (forall p :: p in all && Head(Rel(prefix, p)) == name ==> p in part)
  }

  /** The files under one name: those of its entry, or none. */
  ghost function NamedFiles(w: World, u: Store, es: seq<Entry>, prefix: Path, name: Name): Files
    requires w.Valid() && Intact(w, u)
  {
    if es == [] then map[]
    else
      var n := |es| - 1;
      if es[n].name == name then EntryFiles(w, u, es[n], prefix) else NamedFiles(w, u, es[..n], prefix, name)
  }

  /** Adding the files of one more segment. */
  lemma OwnsMore(all: Files, own: Files, prefix: Path, last: Name, name: Name, part: Files)
    requires Owns(all, prefix, name, part) && Within(prefix, last, own)
    ensures last != name ==> Owns(all + own, prefix, name, part)
    ensures last == name && part == map[] ==> Owns(all + own, prefix, name, own)
  {
  }

  lemma {:induction false} NoneNamed(w: World, u: Store, es: seq<Entry>, prefix: Path, name: Name)
    requires w.Valid() && Intact(w, u) && forall k :: 0 <= k < |es| ==> es[k].name != name
    ensures NamedFiles(w, u, es, prefix, name) == map[]
  {
    if es != [] { NoneNamed(w, u, es[..|es| - 1], prefix, name); }
  }

  lemma {:induction false} OneNamed(w: World, u: Store, es: seq<Entry>, prefix: Path, k: nat)
    requires w.Valid() && Intact(w, u) && NamesAscending(es) && k < |es|
    ensures NamedFiles(w, u, es, prefix, es[k].name) == EntryFiles(w, u, es[k], prefix)
  {
    var n := |es| - 1;
    if k < n {
      LessIrreflexive(es[k].name);
      assert Less(es[k].name, es[n].name);
      OneNamed(w, u, es[..n], prefix, k);
      assert es[..n][k] == es[k];
    }
  }

  lemma LastFlat(w: World, u: Store, es: seq<Entry>, prefix: Path, bound: nat)
    requires w.Valid() && Intact(w, u) && PlainEntries(w, u, es, bound) && es != [] && FlatEntries(w, u, es, prefix, bound).Some?
    ensures var n := |es| - 1;
            var before, own := FlatEntries(w, u, es[..n], prefix, bound), EntryFiles(w, u, es[n], prefix);
            before.Some? && FlatEntries(w, u, es, prefix, bound).value == before.value + own && Within(prefix, es[n].name, own)
  {
    EntryWithin(w, u, es[|es| - 1], prefix, bound);
  }

  lemma {:induction false} PartOf(w: World, u: Store, es: seq<Entry>, prefix: Path, bound: nat, name: Name)
    requires w.Valid() && Intact(w, u) && PlainEntries(w, u, es, bound) && NamesAscending(es)
    requires FlatEntries(w, u, es, prefix, bound).Some?
    ensures Owns(FlatEntries(w, u, es, prefix, bound).value, prefix, name, NamedFiles(w, u, es, prefix, name))
    decreases |es|
  {
    if es != [] {
      var n := |es| - 1;
      LastFlat(w, u, es, prefix, bound);
      PartOf(w, u, es[..n], prefix, bound, name);
      if es[n].name == name {
        forall k | 0 <= k < n ensures es[..n][k].name != name {
          LessIrreflexive(name);
          assert Less(es[k].name, es[n].name);
        }
        NoneNamed(w, u, es[..n], prefix, name);
      }
      OwnsMore(FlatEntries(w, u, es[..n], prefix, bound).value, EntryFiles(w, u, es[n], prefix), prefix, es[n].name, name,
               NamedFiles(w, u, es[..n], prefix, name));
    }
  }

  // ----- what the walk lists -----

  /** The entries of a list by name. */
  function Index(es: Entries): (m: map<Name, Entry>)
    ensures forall e :: e in es ==> e.name in m && m[e.name] == e
    ensures forall n :: n in m ==> m[n] in es && m[n].name == n
  {
    if es == [] then map[]
    else
      var k := |es| - 1;
      LastNameNew(es);
      assert es == es[..k] + [es[k]];
      Index(es[..k])[es[k].name := es[k]]
  }

  lemma LastNameNew(es: Entries)
    requires es != []
    ensures forall e :: e in es[..|es| - 1] ==> e.name != es[|es| - 1].name
  {
    forall e | e in es[..|es| - 1] ensures e.name != es[|es| - 1].name {
      var k :| 0 <= k < |es| - 1 && es[k] == e;
      LessIrreflexive(e.name);
    }
  }

  function At(m: map<Name, Entry>, name: Name): Option<Entry> {
    if name in m then Some(m[name]) else None
  }

  /** The entries of a tree object, none for a nil tree; None where there is no such tree. */
  function Listed(u: Store, id: Option<Id>): Option<Entries> {
    if id.None? then Some([])
    else if id.value in u && u[id.value].TreeObj? then Some(u[id.value].entries)
    else None
  }

  /** collect: a blob is one path, anything else is walked as a tree; None where it is not one. */
  ghost function EntryPaths(w: World, u: Store, e: Option<Entry>, prefix: Path): Option<set<Path>>
    requires w.Valid() && Intact(w, u)
  {
    if e.None? then Some({})
    else if e.value.kind == TYPE_BLOB then Some({Join(prefix, e.value.name)})
    else
      var files := FlatTree(w, u, e.value.id, Join(prefix, e.value.name));
      if files.None? then None else Some(files.value.Keys)
  }

  predicate BothAre(x: Option<Entry>, y: Option<Entry>, kind: nat) {
    x.Some? && y.Some? && x.value.kind == kind && y.value.kind == kind
  }

  /** How far down a pair of entries, or of trees, can still be walked. */
  function PairHeight(w: World, x: Option<Entry>, y: Option<Entry>): nat {
    if x.Some? && y.Some? then w.rank(x.value.id) + w.rank(y.value.id) + 2 else 0
  }

  function Height(w: World, id: Option<Id>): nat {
    if id.Some? then w.rank(id.value) + 1 else 1
  }

  lemma PairsLower(w: World, u: Store, a: Option<Id>, b: Option<Id>)
    requires w.Valid() && Intact(w, u) && Listed(u, a).Some? && Listed(u, b).Some?
    ensures forall n :: PairHeight(w, At(Index(Listed(u, a).value), n), At(Index(Listed(u, b).value), n)) < Height(w, a) + Height(w, b)
  {
    if a.Some? { EntryRanks(w, u, a.value); }
    if b.Some? { EntryRanks(w, u, b.value); }
  }

  /** What is listed under one name; None is an error. */
  ghost function NameChanges(w: World, u: Store, x: Option<Entry>, y: Option<Entry>, prefix: Path): Option<Changes>
    requires w.Valid() && Intact(w, u)
    decreases PairHeight(w, x, y), 2
  {
    if BothAre(x, y, TYPE_TREE) then
      if x.value.id == y.value.id then Some(NOTHING)
      else TreeChanges(w, u, Some(x.value.id), Some(y.value.id), Join(prefix, x.value.name))
    else if BothAre(x, y, TYPE_BLOB) then
      Some(Changes({}, if x.value.id == y.value.id then {} else {Join(prefix, x.value.name)}, {}))
    else
      var gone, come := EntryPaths(w, u, x, prefix), EntryPaths(w, u, y, prefix);
      if gone.None? || come.None? then None else Some(Changes(come.value, {}, gone.value))
  }

  type ByName = map<Name, Option<Changes>>

  /** What is listed under each name of two trees. */
  ghost function ChangesByName(w: World, u: Store, a: Option<Id>, b: Option<Id>, prefix: Path): (cs: ByName)
    requires w.Valid() && Intact(w, u) && Listed(u, a).Some? && Listed(u, b).Some?
    ensures cs.Keys == Index(Listed(u, a).value).Keys + Index(Listed(u, b).value).Keys
    decreases Height(w, a) + Height(w, b), 0
  {
    var am, bm := Index(Listed(u, a).value), Index(Listed(u, b).value);
    PairsLower(w, u, a, b);
    map n | n in am.Keys + bm.Keys :: NameChanges(w, u, At(am, n), At(bm, n), prefix)
  }

  ghost predicate NoErrors(cs: ByName, names: set<Name>) {
    forall n :: n in cs && n in names ==> cs[n].Some?
  }

  /** What is listed under the names `names`. */
  ghost function Joined(cs: ByName, names: set<Name>): Changes {
    Changes((set n, p | n in cs && n in names && cs[n].Some? && p in cs[n].value.added :: p),
            (set n, p | n in cs && n in names && cs[n].Some? && p in cs[n].value.modified :: p),
            (set n, p | n in cs && n in names && cs[n].Some? && p in cs[n].value.removed :: p))
  }

  /** What a diff of two trees lists: nothing for equal ids, which are not read. None is an error. */
  ghost function TreeChanges(w: World, u: Store, a: Option<Id>, b: Option<Id>, prefix: Path): Option<Changes>
    requires w.Valid() && Intact(w, u)
    decreases Height(w, a) + Height(w, b), 1
  {
    if a.Some? && a == b then Some(NOTHING)
    else if Listed(u, a).None? || Listed(u, b).None? then None
    else
      var cs := ChangesByName(w, u, a, b, prefix);
      if NoErrors(cs, cs.Keys) then Some(Joined(cs, cs.Keys)) else None
  }

  // ----- what is listed under a name lies within it -----

  ghost predicate ChangesWithin(prefix: Path, name: Name, c: Changes) {
    forall p :: p in c.added || p in c.modified || p in c.removed ==> Beneath(prefix, p) && Head(Rel(prefix, p)) == name
  }

  ghost predicate AllWithin(prefix: Path, cs: ByName) {
    forall n :: n in cs && cs[n].Some? ==> ChangesWithin(prefix, n, cs[n].value)
  }

  ghost predicate PlainAt(w: World, u: Store, e: Option<Entry>, name: Name) {
    e.Some? ==> PlainEntry(w, u, e.value) && e.value.name == name
  }

  /** A tree id may be nil. */
  ghost predicate PlainOpt(w: World, u: Store, id: Option<Id>) {
    id.Some? ==> PlainBelow(w, u, id.value)
  }

  lemma PlainIndex(w: World, u: Store, id: Option<Id>, name: Name)
    requires w.Valid() && Intact(w, u) && PlainOpt(w, u, id) && Listed(u, id).Some?
    ensures PlainAt(w, u, At(Index(Listed(u, id).value), name), name)
  {
    if id.Some? { EntriesPlain(w, u, id.value); }
  }

  lemma PathsWithin(w: World, u: Store, e: Option<Entry>, prefix: Path, name: Name)
    requires w.Valid() && Intact(w, u) && PlainAt(w, u, e, name) && EntryPaths(w, u, e, prefix).Some?
    ensures forall p :: p in EntryPaths(w, u, e, prefix).value ==> Beneath(prefix, p) && Head(Rel(prefix, p)) == name
  {
    if e.Some? {
      if e.value.kind == TYPE_BLOB {
        RelOfJoin(prefix, name);
        HeadOfPlain(name);
      } else {
        SubtreeWithin(w, u, e.value, prefix);
      }
    }
  }

  lemma {:induction false} NameWithin(w: World, u: Store, x: Option<Entry>, y: Option<Entry>, prefix: Path, name: Name)
    requires w.Valid() && Intact(w, u) && PlainAt(w, u, x, name) && PlainAt(w, u, y, name)
    requires NameChanges(w, u, x, y, prefix).Some?
    ensures ChangesWithin(prefix, name, NameChanges(w, u, x, y, prefix).value)
    decreases PairHeight(w, x, y), 2
  {
    if BothAre(x, y, TYPE_TREE) {
      if x.value.id != y.value.id {
        TreeWithin(w, u, Some(x.value.id), Some(y.value.id), Join(prefix, name));
        var c := NameChanges(w, u, x, y, prefix).value;
        forall p | p in c.added || p in c.modified || p in c.removed ensures Beneath(prefix, p) && Head(Rel(prefix, p)) == name {
          BelowEntry(prefix, name, p);
        }
      }
    } else if BothAre(x, y, TYPE_BLOB) {
      RelOfJoin(prefix, name);
      HeadOfPlain(name);
    } else {
      PathsWithin(w, u, x, prefix, name);
      PathsWithin(w, u, y, prefix, name);
    }
  }

  lemma {:induction false} NamesWithin(w: World, u: Store, a: Option<Id>, b: Option<Id>, prefix: Path)
    requires w.Valid() && Intact(w, u) && PlainOpt(w, u, a) && PlainOpt(w, u, b) && Listed(u, a).Some? && Listed(u, b).Some?
    ensures AllWithin(prefix, ChangesByName(w, u, a, b, prefix))
    decreases Height(w, a) + Height(w, b), 0
  {
    var cs := ChangesByName(w, u, a, b, prefix);
    PairsLower(w, u, a, b);
    forall n | n in cs && cs[n].Some? ensures ChangesWithin(prefix, n, cs[n].value) {
      PlainIndex(w, u, a, n);
      PlainIndex(w, u, b, n);
      NameWithin(w, u, At(Index(Listed(u, a).value), n), At(Index(Listed(u, b).value), n), prefix, n);
    }
  }

  lemma {:induction false} TreeWithin(w: World, u: Store, a: Option<Id>, b: Option<Id>, prefix: Path)
    requires w.Valid() && Intact(w, u) && PlainOpt(w, u, a) && PlainOpt(w, u, b) && TreeChanges(w, u, a, b, prefix).Some?
    ensures var c := TreeChanges(w, u, a, b, prefix).value;
            forall p :: p in c.added || p in c.modified || p in c.removed ==> Beneath(prefix, p)
    decreases Height(w, a) + Height(w, b), 1
  {
    if !(a.Some? && a == b) { NamesWithin(w, u, a, b, prefix); }
  }

  // ----- lists that grow -----

  /** `after` is `before` with the members of s appended, each once. */
  ghost predicate Grew(before: seq<Path>, after: seq<Path>, s: set<Path>) {
    exists more: seq<Path> :: after == before + more && NoDuplicates(more) && Elements(more) == s
  }

  lemma GrewNot(xs: seq<Path>)
    ensures Grew(xs, xs, {})
  {
    assert xs == xs + [];
  }

  lemma GrewOne(xs: seq<Path>, p: Path)
    ensures Grew(xs, xs + [p], {p})
  {
    assert Elements([p]) == {p};
  }

  lemma GrewMore(xs: seq<Path>, ys: seq<Path>, zs: seq<Path>, s: set<Path>, t: set<Path>)
    requires Grew(xs, ys, s) && Grew(ys, zs, t) && s !! t
    ensures Grew(xs, zs, s + t)
  {
    var more :| ys == xs + more && NoDuplicates(more) && Elements(more) == s;
    var again :| zs == ys + again && NoDuplicates(again) && Elements(again) == t;
    assert zs == xs + (more + again);
    forall i, j | 0 <= i < j < |more + again| ensures (more + again)[i] != (more + again)[j] {
      if i < |more| <= j { assert more[i] in Elements(more) && again[j - |more|] in Elements(again); }
    }
    forall p ensures p in Elements(more + again) <==> p in s + t {
      assert p in Elements(more) <==> p in more;
      assert p in Elements(again) <==> p in again;
    }
  }

  /** A path-level change set, filled in place. */
  class Diff {
    var added: seq<Path>
    var modified: seq<Path>
    var removed: seq<Path>

    constructor ()
      ensures added == [] && modified == [] && removed == []
    {
      added, modified, removed := [], [], [];
    }
  }

  datatype Lists = Lists(added: seq<Path>, modified: seq<Path>, removed: seq<Path>)

  function ListsOf(d: Diff): Lists
    reads d
  {
    Lists(d.added, d.modified, d.removed)
  }

  /** The paths of c have been appended. */
  ghost predicate Reported(before: Lists, after: Lists, c: Changes) {
    && Grew(before.added, after.added, c.added)
    && Grew(before.modified, after.modified, c.modified)
    && Grew(before.removed, after.removed, c.removed)
  }

  lemma ReportedNothing(l: Lists)
    ensures Reported(l, l, NOTHING)
  {
    GrewNot(l.added);
    GrewNot(l.modified);
    GrewNot(l.removed);
  }

  /** One more name: nothing listed under it was listed before. */
  lemma JoinedMore(cs: ByName, prefix: Path, names: set<Name>, name: Name)
    requires AllWithin(prefix, cs) && name in cs && cs[name].Some? && name !in names
    ensures var c, j := cs[name].value, Joined(cs, names);
            && Joined(cs, names + {name}) == Changes(j.added + c.added, j.modified + c.modified, j.removed + c.removed)
            && j.added !! c.added && j.modified !! c.modified && j.removed !! c.removed
  {
  }

  lemma ReportedMore(l0: Lists, l1: Lists, l2: Lists, cs: ByName, prefix: Path, names: set<Name>, name: Name)
    requires AllWithin(prefix, cs) && name in cs && cs[name].Some? && name !in names
    requires Reported(l0, l1, Joined(cs, names)) && Reported(l1, l2, cs[name].value)
    ensures Reported(l0, l2, Joined(cs, names + {name}))
  {
    JoinedMore(cs, prefix, names, name);
    var c, j := cs[name].value, Joined(cs, names);
    GrewMore(l0.added, l1.added, l2.added, j.added, c.added);
    GrewMore(l0.modified, l1.modified, l2.modified, j.modified, c.modified);
    GrewMore(l0.removed, l1.removed, l2.removed, j.removed, c.removed);
  }

  lemma JoinedNone(cs: ByName)
    ensures Joined(cs, {}) == NOTHING
  {
  }

  // ----- the walk -----

  method EntriesOf(objs: ObjectStore, id: Option<Id>) returns (r: Option<Entries>)
    ensures r == Listed(objs.objs, id)
  {
    if id.None? { return Some([]); }
    if id.value !in objs.objs || !objs.objs[id.value].TreeObj? { return None; }
    return Some(objs.objs[id.value].entries);
  }

  lemma IndexStep(es: Entries, k: nat)
    requires k < |es|
    ensures Index(es[..k + 1]) == Index(es[..k])[es[k].name := es[k]]
  {
    var fs: Entries := es[..k + 1];
    assert fs[..k] == es[..k] && fs[k] == es[k];
  }

  method IndexByName(es: Entries) returns (m: map<Name, Entry>)
    ensures m == Index(es)
  {
    m := map[];
    for k := 0 to |es|
      invariant m == Index(es[..k])
    {
      IndexStep(es, k);
      m := m[es[k].name := es[k]];
    }
    assert es[..|es|] == es;
  }

  /** The paths of a map appended in any order. */
  method AppendKeys(files: Files, dst: seq<Path>) returns (r: seq<Path>)
    ensures Grew(dst, r, files.Keys)
  {
    r := dst;
    var todo := files.Keys;
    GrewNot(dst);
    ghost var done: set<Path> := {};
    while todo != {}
      invariant done + todo == files.Keys && done !! todo && Grew(dst, r, done)
    {
      var p :| p in todo;
      GrewOne(r, p);
      GrewMore(dst, r, r + [p], done, {p});
      r := r + [p];
      todo := todo - {p};
      done := done + {p};
    }
  }

  /** collect: the paths under one entry. */
  method Collect(objs: ObjectStore, e: Entry, p: Path, dst: seq<Path>, ghost prefix: Path) returns (ok: bool, r: seq<Path>)
    requires objs.Valid() && p == Join(prefix, e.name)
    ensures ok <==> EntryPaths(objs.w, objs.objs, Some(e), prefix).Some?
    ensures ok ==> Grew(dst, r, EntryPaths(objs.w, objs.objs, Some(e), prefix).value)
  {
    if e.kind == TYPE_BLOB {
      GrewOne(dst, p);
      return true, dst + [p];
    }
    var sub := new FileMap();
    ok := FlattenInto(objs, e.id, p, sub);
    r := dst;
    if !ok { return; }
    r := AppendKeys(sub.files, dst);
    ghost var flat := FlatTree(objs.w, objs.objs, e.id, p).value;
    assert sub.files == map[] + flat == flat;
  }

  /** One name of the base tree against the same name of the new one. */
  method DiffEntry(objs: ObjectStore, be: Entry, ne: Option<Entry>, p: Path, d: Diff, ghost prefix: Path) returns (ok: bool)
    requires objs.Valid() && p == Join(prefix, be.name) && (ne.Some? ==> ne.value.name == be.name)
    modifies d
    ensures ok <==> NameChanges(objs.w, objs.objs, Some(be), ne, prefix).Some?
    ensures ok && PlainAt(objs.w, objs.objs, Some(be), be.name) && PlainAt(objs.w, objs.objs, ne, be.name) ==>
              Reported(old(ListsOf(d)), ListsOf(d), NameChanges(objs.w, objs.objs, Some(be), ne, prefix).value)
    decreases PairHeight(objs.w, Some(be), ne), 2
  {
    ReportedNothing(ListsOf(d));
    if ne.None? {
      ok, d.removed := Collect(objs, be, p, d.removed, prefix);
      return;
    }
    if be.kind == TYPE_TREE && ne.value.kind == TYPE_TREE {
      ok := true;
      if be.id != ne.value.id { ok := DiffInto(objs, Some(be.id), Some(ne.value.id), p, d); }
    } else if be.kind == TYPE_BLOB && ne.value.kind == TYPE_BLOB {
      if be.id != ne.value.id {
        GrewOne(d.modified, p);
        d.modified := d.modified + [p];
      }
      return true;
    } else {
      ok, d.removed := Collect(objs, be, p, d.removed, prefix);
      if !ok { return; }
      ok, d.added := Collect(objs, ne.value, p, d.added, prefix);
    }
  }

  /** Both trees are readable, their entries indexed. */
  ghost predicate Indexed(u: Store, a: Option<Id>, b: Option<Id>, bm: map<Name, Entry>, nm: map<Name, Entry>) {
    && Listed(u, a).Some? && Listed(u, b).Some?
    && bm == Index(Listed(u, a).value) && nm == Index(Listed(u, b).value)
  }

  ghost predicate Midway(cs: ByName, names: set<Name>, done: set<Name>, todo: set<Name>) {
    done + todo == names && done !! todo && names <= cs.Keys && NoErrors(cs, done)
  }

  lemma MidwayNext(cs: ByName, names: set<Name>, done: set<Name>, todo: set<Name>, name: Name)
    requires Midway(cs, names, done, todo) && name in todo
    ensures name in cs && name !in done
    ensures if cs[name].Some? then Midway(cs, names, done + {name}, todo - {name}) else !NoErrors(cs, names)
  {
  }

  /** The walk over `names`: `done` listed without an error, `todo` to come. */
  ghost predicate Walking(w: World, u: Store, a: Option<Id>, b: Option<Id>, prefix: Path, l0: Lists, l: Lists,
                          names: set<Name>, done: set<Name>, todo: set<Name>)
    requires w.Valid() && Intact(w, u) && Listed(u, a).Some? && Listed(u, b).Some?
  {
    var cs := ChangesByName(w, u, a, b, prefix);
    && Midway(cs, names, done, todo)
    && (PlainOpt(w, u, a) && PlainOpt(w, u, b) ==> Reported(l0, l, Joined(cs, done)))
  }

  /** What is listed under one name of two trees. */
  ghost function ChangesAt(w: World, u: Store, a: Option<Id>, b: Option<Id>, prefix: Path, name: Name): Option<Changes>
    requires w.Valid() && Intact(w, u) && Listed(u, a).Some? && Listed(u, b).Some?
  {
    NameChanges(w, u, At(Index(Listed(u, a).value), name), At(Index(Listed(u, b).value), name), prefix)
  }

  lemma WalkStarts(w: World, u: Store, a: Option<Id>, b: Option<Id>, prefix: Path, l0: Lists, names: set<Name>)
    requires w.Valid() && Intact(w, u) && Listed(u, a).Some? && Listed(u, b).Some? && names <= ChangesByName(w, u, a, b, prefix).Keys
    ensures Walking(w, u, a, b, prefix, l0, l0, names, {}, names)
  {
    JoinedNone(ChangesByName(w, u, a, b, prefix));
    ReportedNothing(l0);
  }

  lemma WalkNext(w: World, u: Store, a: Option<Id>, b: Option<Id>, prefix: Path, l0: Lists, l1: Lists, l2: Lists,
                 names: set<Name>, done: set<Name>, todo: set<Name>, name: Name)
    requires w.Valid() && Intact(w, u) && Listed(u, a).Some? && Listed(u, b).Some?
    requires Walking(w, u, a, b, prefix, l0, l1, names, done, todo) && name in todo
    requires ChangesAt(w, u, a, b, prefix, name).Some? && PlainOpt(w, u, a) && PlainOpt(w, u, b) ==>
               Reported(l1, l2, ChangesAt(w, u, a, b, prefix, name).value)
    ensures if ChangesAt(w, u, a, b, prefix, name).Some?
            then Walking(w, u, a, b, prefix, l0, l2, names, done + {name}, todo - {name})
            else !NoErrors(ChangesByName(w, u, a, b, prefix), names)
  {
    var cs := ChangesByName(w, u, a, b, prefix);
    MidwayNext(cs, names, done, todo, name);
    assert cs[name] == ChangesAt(w, u, a, b, prefix, name);
    if cs[name].Some? && PlainOpt(w, u, a) && PlainOpt(w, u, b) {
      NamesWithin(w, u, a, b, prefix);
      ReportedMore(l0, l1, l2, cs, prefix, done, name);
    }
  }

  /** The names of the base tree, against the new one. */
  method DiffBase(objs: ObjectStore, bm: map<Name, Entry>, nm: map<Name, Entry>, prefix: Path, d: Diff, ghost a: Option<Id>, ghost b: Option<Id>)
    returns (ok: bool)
    requires objs.Valid() && Indexed(objs.objs, a, b, bm, nm)
    modifies d
    ensures ok ==> Walking(objs.w, objs.objs, a, b, prefix, old(ListsOf(d)), ListsOf(d), bm.Keys, bm.Keys, {})
    ensures !ok ==> !NoErrors(ChangesByName(objs.w, objs.objs, a, b, prefix), bm.Keys)
    decreases Height(objs.w, a) + Height(objs.w, b), 0
  {
    ghost var w, u, l0 := objs.w, objs.objs, ListsOf(d);
    PairsLower(w, u, a, b);
    var todo := bm.Keys;
    ghost var done: set<Name> := {};
    WalkStarts(w, u, a, b, prefix, l0, todo);
    while todo != {}
      invariant Walking(w, u, a, b, prefix, l0, ListsOf(d), bm.Keys, done, todo)
    {
      var name :| name in todo;
      ghost var l1 := ListsOf(d);
      PlainIndexes(w, u, a, b, name);
      ok := DiffEntry(objs, bm[name], At(nm, name), Join(prefix, name), d, prefix);
      WalkNext(w, u, a, b, prefix, l0, l1, ListsOf(d), bm.Keys, done, todo, name);
      if !ok { return; }
      todo := todo - {name};
      done := done + {name};
    }
    assert done == bm.Keys;
    return true;
  }

  lemma PlainIndexes(w: World, u: Store, a: Option<Id>, b: Option<Id>, name: Name)
    requires w.Valid() && Intact(w, u) && Listed(u, a).Some? && Listed(u, b).Some?
    ensures PlainOpt(w, u, a) ==> PlainAt(w, u, At(Index(Listed(u, a).value), name), name)
    ensures PlainOpt(w, u, b) ==> PlainAt(w, u, At(Index(Listed(u, b).value), name), name)
  {
    if PlainOpt(w, u, a) { PlainIndex(w, u, a, name); }
    if PlainOpt(w, u, b) { PlainIndex(w, u, b, name); }
  }

  method AddEntry(objs: ObjectStore, ne: Entry, p: Path, d: Diff, ghost prefix: Path) returns (ok: bool)
    requires objs.Valid() && p == Join(prefix, ne.name)
    modifies d
    ensures ok <==> NameChanges(objs.w, objs.objs, None, Some(ne), prefix).Some?
    ensures ok ==> Reported(old(ListsOf(d)), ListsOf(d), NameChanges(objs.w, objs.objs, None, Some(ne), prefix).value)
  {
    ReportedNothing(ListsOf(d));
    ok, d.added := Collect(objs, ne, p, d.added, prefix);
  }

  /** The names only the new tree has, after those of the base tree. */
  method DiffNew(objs: ObjectStore, bm: map<Name, Entry>, nm: map<Name, Entry>, prefix: Path, d: Diff, ghost l0: Lists, ghost a: Option<Id>, ghost b: Option<Id>)
    returns (ok: bool)
    requires objs.Valid() && Indexed(objs.objs, a, b, bm, nm)
    requires Walking(objs.w, objs.objs, a, b, prefix, l0, ListsOf(d), bm.Keys, bm.Keys, {})
    modifies d
    ensures ok ==> Walking(objs.w, objs.objs, a, b, prefix, l0, ListsOf(d), bm.Keys + nm.Keys, bm.Keys + nm.Keys, {})
    ensures !ok ==> !NoErrors(ChangesByName(objs.w, objs.objs, a, b, prefix), bm.Keys + nm.Keys)
  {
    ghost var w, u := objs.w, objs.objs;
    var todo := nm.Keys - bm.Keys;
    ghost var names, done := bm.Keys + nm.Keys, bm.Keys;
    while todo != {}
      invariant Walking(w, u, a, b, prefix, l0, ListsOf(d), names, done, todo) && todo <= nm.Keys - bm.Keys
    {
      var name :| name in todo;
      ghost var l1 := ListsOf(d);
      ok := AddEntry(objs, nm[name], Join(prefix, name), d, prefix);
      assert ChangesAt(w, u, a, b, prefix, name) == NameChanges(w, u, None, Some(nm[name]), prefix);
      WalkNext(w, u, a, b, prefix, l0, l1, ListsOf(d), names, done, todo, name);
      if !ok { return; }
      todo := todo - {name};
      done := done + {name};
    }
    assert done == names;
    return true;
  }

  /** diffTrees: what the walk lists is appended, each path once in its list. */
  method DiffInto(objs: ObjectStore, base: Option<Id>, target: Option<Id>, prefix: Path, d: Diff) returns (ok: bool)
    requires objs.Valid()
    modifies d
    ensures ok <==> TreeChanges(objs.w, objs.objs, base, target, prefix).Some?
    ensures ok && PlainOpt(objs.w, objs.objs, base) && PlainOpt(objs.w, objs.objs, target) ==>
              Reported(old(ListsOf(d)), ListsOf(d), TreeChanges(objs.w, objs.objs, base, target, prefix).value)
    decreases Height(objs.w, base) + Height(objs.w, target), 1
  {
    if base.Some? && target.Some? && base == target {
      ReportedNothing(ListsOf(d));
      return true;
    }
    var bes := EntriesOf(objs, base);
    if bes.None? { return false; }
    var nes := EntriesOf(objs, target);
    if nes.None? { return false; }
    var bm := IndexByName(bes.value);
    var nm := IndexByName(nes.value);
    ghost var l0 := ListsOf(d);
    ok := DiffBase(objs, bm, nm, prefix, d, base, target);
    if !ok { return; }
    ok := DiffNew(objs, bm, nm, prefix, d, l0, base, target);
  }

  lemma SortedReport(xs: seq<Path>, s: set<Path>)
    requires Grew([], xs, s)
    ensures Sort(Less, xs) == SortedSet(s)
  {
    var more :| xs == [] + more && NoDuplicates(more) && Elements(more) == s;
    assert xs == more;
    LessIsStrictTotal();
    SortUnique(Less, xs, SortedSet(s));
  }

  /** DiffTrees: what the walk lists, each list sorted and without repeats. */
  method DiffTrees(objs: ObjectStore, base: Option<Id>, target: Option<Id>) returns (r: Option<Lists>)
    requires objs.Valid()
    ensures r.Some? <==> TreeChanges(objs.w, objs.objs, base, target, []).Some?
    ensures r.Some? && PlainOpt(objs.w, objs.objs, base) && PlainOpt(objs.w, objs.objs, target) ==>
              var c := TreeChanges(objs.w, objs.objs, base, target, []).value;
              r.value == Lists(SortedSet(c.added), SortedSet(c.modified), SortedSet(c.removed))
  {
    var d := new Diff();
    var ok := DiffInto(objs, base, target, [], d);
    if !ok { return None; }
    if PlainOpt(objs.w, objs.objs, base) && PlainOpt(objs.w, objs.objs, target) {
      ghost var c := TreeChanges(objs.w, objs.objs, base, target, []).value;
      SortedReport(d.added, c.added);
      SortedReport(d.modified, c.modified);
      SortedReport(d.removed, c.removed);
    }
    return Some(Lists(Sort(Less, d.added), Sort(Less, d.modified), Sort(Less, d.removed)));
  }

  // ----- when it is the plain comparison -----

  /** An entry of the two kinds a file tree is made of. */
  predicate Regular(e: Option<Entry>) {
    e.Some? ==> e.value.kind == TYPE_BLOB || e.value.kind == TYPE_TREE
  }

  /** A tree with no file anywhere below it. */
  ghost predicate NoFiles(w: World, u: Store, id: Id)
    decreases w.rank(id)
  {
    && id in u && u[id].TreeObj?
    && forall e :: e in u[id].entries ==> e.kind == TYPE_TREE && w.rank(e.id) < w.rank(id) && NoFiles(w, u, e.id)
  }

  /**
    Where one name gives the same in both views: blobs and trees always do; an entry of
    another kind only if both sides have it, with one id, naming a tree without files.
   */
  ghost predicate PairAgrees(w: World, u: Store, x: Option<Entry>, y: Option<Entry>)
    requires w.Valid() && Intact(w, u)
    decreases PairHeight(w, x, y), 2
  {
    if BothAre(x, y, TYPE_TREE) then x.value.id == y.value.id || TreesAgree(w, u, Some(x.value.id), Some(y.value.id))
    else if Regular(x) && Regular(y) then true
    else !Regular(x) && !Regular(y) && x.value.id == y.value.id && NoFiles(w, u, x.value.id)
  }

  /** No entry met on the way, where ids differ, gives something else. */
  ghost predicate TreesAgree(w: World, u: Store, a: Option<Id>, b: Option<Id>)
    requires w.Valid() && Intact(w, u)
    decreases Height(w, a) + Height(w, b), 1
  {
    (a.Some? && a == b)
    || (Listed(u, a).Some? && Listed(u, b).Some?
        && (PairsLower(w, u, a, b);
            forall n :: n in Index(Listed(u, a).value).Keys + Index(Listed(u, b).value).Keys ==>
              PairAgrees(w, u, At(Index(Listed(u, a).value), n), At(Index(Listed(u, b).value), n))))
  }

  ghost function FlatAt(w: World, u: Store, id: Option<Id>, prefix: Path): Option<Files>
    requires w.Valid() && Intact(w, u)
  {
    if id.None? then Some(map[]) else FlatTree(w, u, id.value, prefix)
  }

  ghost function FilesOf(w: World, u: Store, e: Option<Entry>, prefix: Path): Files
    requires w.Valid() && Intact(w, u)
  {
    if e.Some? then EntryFiles(w, u, e.value, prefix) else map[]
  }

  /** The entry can be flattened. */
  ghost predicate Flattens(w: World, u: Store, e: Option<Entry>, prefix: Path)
    requires w.Valid() && Intact(w, u)
  {
    e.Some? && e.value.kind == TYPE_TREE ==> FlatTree(w, u, e.value.id, Join(prefix, e.value.name)).Some?
  }

  lemma {:induction false} NoFilesFlat(w: World, u: Store, id: Id, prefix: Path)
    requires w.Valid() && Intact(w, u)
    ensures FlatTree(w, u, id, prefix) == Some(map[]) <==> NoFiles(w, u, id)
    decreases w.rank(id), 1, 0
  {
    if id in u && u[id].TreeObj? {
      EntryRanks(w, u, id);
      NoEntryFiles(w, u, u[id].entries, prefix, w.rank(id));
    }
  }

  lemma {:induction false} NoEntryFiles(w: World, u: Store, es: seq<Entry>, prefix: Path, bound: nat)
    requires w.Valid() && Intact(w, u) && forall e :: e in es ==> w.rank(e.id) < bound
    ensures FlatEntries(w, u, es, prefix, bound) == Some(map[]) <==> forall e :: e in es ==> e.kind == TYPE_TREE && NoFiles(w, u, e.id)
    decreases bound, 0, |es|
  {
    if es != [] {
      var n := |es| - 1;
      NoEntryFiles(w, u, es[..n], prefix, bound);
      assert es == es[..n] + [es[n]];
      assert forall e :: e in es <==> e in es[..n] || e == es[n];
      var before, own := FlatEntries(w, u, es[..n], prefix, bound), FlatEntry(w, u, es[n], prefix, bound);
      if es[n].kind == TYPE_TREE {
        NoFilesFlat(w, u, es[n].id, Join(prefix, es[n].name));
      } else {
        assert Join(prefix, es[n].name) in own.value;
      }
      if before.Some? && own.Some? { EmptyUnion(before.value, own.value); }
    }
  }

  lemma EmptyUnion(a: Files, b: Files)
    ensures a + b == map[] <==> a == map[] && b == map[]
  {
    assert (a + b).Keys == a.Keys + b.Keys;
    if a + b == map[] { assert a.Keys + b.Keys == {}; }
  }

  // ----- one name -----

  /** Nothing in the tree of an entry has the entry's own path. */
  lemma OwnPathOutside(w: World, u: Store, e: Entry, prefix: Path)
    requires w.Valid() && Intact(w, u) && PlainEntry(w, u, e) && e.kind != TYPE_BLOB
    requires FlatTree(w, u, e.id, Join(prefix, e.name)).Some?
    ensures Join(prefix, e.name) !in FlatTree(w, u, e.id, Join(prefix, e.name)).value
  {
    var p := Join(prefix, e.name);
    TreeBeneath(w, u, e.id, p);
    assert Rel(p, p) == [] && !Beneath(p, p);
  }

  lemma RegularPair(w: World, u: Store, x: Option<Entry>, y: Option<Entry>, prefix: Path, name: Name)
    requires w.Valid() && Intact(w, u) && PlainAt(w, u, x, name) && PlainAt(w, u, y, name)
    requires Flattens(w, u, x, prefix) && Flattens(w, u, y, prefix)
    requires Regular(x) && Regular(y) && !BothAre(x, y, TYPE_TREE)
    ensures NameChanges(w, u, x, y, prefix) == Some(Compared(FilesOf(w, u, x, prefix), FilesOf(w, u, y, prefix)))
  {
    var a, b := FilesOf(w, u, x, prefix), FilesOf(w, u, y, prefix);
    if BothAre(x, y, TYPE_BLOB) {
      ComparedOne(Join(prefix, name), File(x.value.id, x.value.mode), File(y.value.id, y.value.mode));
    } else {
      if x.Some? && x.value.kind == TYPE_TREE { OwnPathOutside(w, u, x.value, prefix); }
      if y.Some? && y.value.kind == TYPE_TREE { OwnPathOutside(w, u, y.value, prefix); }
      RegularPaths(w, u, x, prefix);
      RegularPaths(w, u, y, prefix);
      assert a.Keys !! b.Keys;
      ComparedApart(a, b);
    }
  }

  lemma RegularPaths(w: World, u: Store, e: Option<Entry>, prefix: Path)
    requires w.Valid() && Intact(w, u) && Flattens(w, u, e, prefix) && Regular(e)
    ensures EntryPaths(w, u, e, prefix) == Some(FilesOf(w, u, e, prefix).Keys)
  {
    if e.None? {
      assert FilesOf(w, u, e, prefix).Keys == {};
    } else if e.value.kind == TYPE_BLOB {
      assert FilesOf(w, u, e, prefix) == map[Join(prefix, e.value.name) := File(e.value.id, e.value.mode)];
      assert FilesOf(w, u, e, prefix).Keys == {Join(prefix, e.value.name)};
    }
  }

  lemma ComparedOne(p: Path, f: File, g: File)
    ensures Compared(map[p := f], map[p := g]) == Changes({}, if f.id == g.id then {} else {p}, {})
  {
  }

  lemma ComparedApart(a: Files, b: Files)
    requires a.Keys !! b.Keys
    ensures Compared(a, b) == Changes(b.Keys, {}, a.Keys)
  {
  }

  lemma ComparedSame(a: Files)
    ensures Compared(a, a) == NOTHING
  {
  }

  /** An entry of another kind is one path to the plain comparison, never one to the walk. */
  lemma OtherPaths(w: World, u: Store, e: Entry, prefix: Path)
    requires w.Valid() && Intact(w, u) && PlainEntry(w, u, e) && !Regular(Some(e))
    ensures FilesOf(w, u, Some(e), prefix) == map[Join(prefix, e.name) := File(e.id, e.mode)]
    ensures var paths := EntryPaths(w, u, Some(e), prefix);
            (paths.Some? ==> Join(prefix, e.name) !in paths.value) && (paths == Some({}) <==> NoFiles(w, u, e.id))
  {
    var p := Join(prefix, e.name);
    NoFilesFlat(w, u, e.id, p);
    var files := FlatTree(w, u, e.id, p);
    if files.Some? {
      OwnPathOutside(w, u, e, prefix);
      assert files.value.Keys == {} <==> files.value == map[];
    }
  }

  lemma OtherPair(w: World, u: Store, x: Option<Entry>, y: Option<Entry>, prefix: Path, name: Name)
    requires w.Valid() && Intact(w, u) && PlainAt(w, u, x, name) && PlainAt(w, u, y, name)
    requires Flattens(w, u, x, prefix) && Flattens(w, u, y, prefix) && !(Regular(x) && Regular(y))
    ensures NameChanges(w, u, x, y, prefix) == Some(Compared(FilesOf(w, u, x, prefix), FilesOf(w, u, y, prefix)))
            <==> !Regular(x) && !Regular(y) && x.value.id == y.value.id && NoFiles(w, u, x.value.id)
  {
    var p := Join(prefix, name);
    var c := Compared(FilesOf(w, u, x, prefix), FilesOf(w, u, y, prefix));
    if !Regular(x) { OtherPaths(w, u, x.value, prefix); }
    if !Regular(y) { OtherPaths(w, u, y.value, prefix); }
    if !Regular(x) && !Regular(y) {
      ComparedOne(p, File(x.value.id, x.value.mode), File(y.value.id, y.value.mode));
    } else if !Regular(x) {
      if y.Some? && y.value.kind == TYPE_TREE { OwnPathOutside(w, u, y.value, prefix); }
      assert p in c.removed || p !in c.added;
    } else {
      if x.Some? && x.value.kind == TYPE_TREE { OwnPathOutside(w, u, x.value, prefix); }
      assert p in c.added || p !in c.removed;
    }
  }

  lemma {:induction false} PairExact(w: World, u: Store, x: Option<Entry>, y: Option<Entry>, prefix: Path, name: Name)
    requires w.Valid() && Intact(w, u) && PlainAt(w, u, x, name) && PlainAt(w, u, y, name)
    requires Flattens(w, u, x, prefix) && Flattens(w, u, y, prefix)
    ensures NameChanges(w, u, x, y, prefix) == Some(Compared(FilesOf(w, u, x, prefix), FilesOf(w, u, y, prefix)))
            <==> PairAgrees(w, u, x, y)
    decreases PairHeight(w, x, y), 2
  {
    if BothAre(x, y, TYPE_TREE) {
      if x.value.id == y.value.id {
        ComparedSame(FilesOf(w, u, x, prefix));
      } else {
        TreesExact(w, u, Some(x.value.id), Some(y.value.id), Join(prefix, name));
      }
    } else if Regular(x) && Regular(y) {
      RegularPair(w, u, x, y, prefix, name);
    } else {
      OtherPair(w, u, x, y, prefix, name);
    }
  }

  // ----- all names -----

  /** The files of a flattened tree under one name are those of its entry, which flattens. */
  lemma NameOwns(w: World, u: Store, id: Option<Id>, prefix: Path, name: Name)
    requires w.Valid() && Intact(w, u) && PlainOpt(w, u, id) && FlatAt(w, u, id, prefix).Some?
    ensures Listed(u, id).Some? && Flattens(w, u, At(Index(Listed(u, id).value), name), prefix)
    ensures Owns(FlatAt(w, u, id, prefix).value, prefix, name, FilesOf(w, u, At(Index(Listed(u, id).value), name), prefix))
  {
    if id.Some? {
      var es := u[id.value].entries;
      EntriesPlain(w, u, id.value);
      PartOf(w, u, es, prefix, w.rank(id.value), name);
      if name in Index(es) {
        var k :| 0 <= k < |es| && es[k] == Index(es)[name];
        OneNamed(w, u, es, prefix, k);
        FlatEntriesStep(w, u, es, prefix, w.rank(id.value), k);
      } else {
        forall k | 0 <= k < |es| ensures es[k].name != name { assert es[k] in es; }
        NoneNamed(w, u, es, prefix, name);
      }
    }
  }

  /** What one name contributes to the plain comparison. */
  lemma ComparedByName(prefix: Path, name: Name, a: Files, b: Files, x: Files, y: Files, p: Path)
    requires Owns(a, prefix, name, x) && Owns(b, prefix, name, y) && Head(Rel(prefix, p)) == name
    ensures p in Compared(a, b).added <==> p in Compared(x, y).added
    ensures p in Compared(a, b).modified <==> p in Compared(x, y).modified
    ensures p in Compared(a, b).removed <==> p in Compared(x, y).removed
  {
  }

  lemma JoinedByName(cs: ByName, prefix: Path, p: Path)
    requires AllWithin(prefix, cs)
    ensures var name, j := Head(Rel(prefix, p)), Joined(cs, cs.Keys);
            && (p in j.added <==> name in cs && cs[name].Some? && p in cs[name].value.added)
            && (p in j.modified <==> name in cs && cs[name].Some? && p in cs[name].value.modified)
            && (p in j.removed <==> name in cs && cs[name].Some? && p in cs[name].value.removed)
  {
  }

  ghost function ComparedAt(w: World, u: Store, a: Option<Id>, b: Option<Id>, prefix: Path, name: Name): Changes
    requires w.Valid() && Intact(w, u) && Listed(u, a).Some? && Listed(u, b).Some?
  {
    Compared(FilesOf(w, u, At(Index(Listed(u, a).value), name), prefix), FilesOf(w, u, At(Index(Listed(u, b).value), name), prefix))
  }

  lemma ComparedParts(w: World, u: Store, a: Option<Id>, b: Option<Id>, prefix: Path, p: Path)
    requires w.Valid() && Intact(w, u) && PlainOpt(w, u, a) && PlainOpt(w, u, b)
    requires FlatAt(w, u, a, prefix).Some? && FlatAt(w, u, b, prefix).Some?
    ensures Listed(u, a).Some? && Listed(u, b).Some?
    ensures var c, own := Compared(FlatAt(w, u, a, prefix).value, FlatAt(w, u, b, prefix).value), ComparedAt(w, u, a, b, prefix, Head(Rel(prefix, p)));
            && (p in c.added <==> p in own.added) && (p in c.modified <==> p in own.modified) && (p in c.removed <==> p in own.removed)
  {
    NameOwns(w, u, a, prefix, Head(Rel(prefix, p)));
    NameOwns(w, u, b, prefix, Head(Rel(prefix, p)));
    ComparedByName(prefix, Head(Rel(prefix, p)), FlatAt(w, u, a, prefix).value, FlatAt(w, u, b, prefix).value,
                   FilesOf(w, u, At(Index(Listed(u, a).value), Head(Rel(prefix, p))), prefix),
                   FilesOf(w, u, At(Index(Listed(u, b).value), Head(Rel(prefix, p))), prefix), p);
  }

  /** The walk lists the plain comparison exactly when it does so under every name. */
  lemma JoinedExact(w: World, u: Store, a: Option<Id>, b: Option<Id>, prefix: Path)
    requires w.Valid() && Intact(w, u) && PlainOpt(w, u, a) && PlainOpt(w, u, b) && Listed(u, a).Some? && Listed(u, b).Some?
    requires FlatAt(w, u, a, prefix).Some? && FlatAt(w, u, b, prefix).Some?
    requires var cs := ChangesByName(w, u, a, b, prefix); forall n :: n in cs ==> cs[n] == Some(ComparedAt(w, u, a, b, prefix, n))
    ensures var cs := ChangesByName(w, u, a, b, prefix);
            NoErrors(cs, cs.Keys) && Joined(cs, cs.Keys) == Compared(FlatAt(w, u, a, prefix).value, FlatAt(w, u, b, prefix).value)
  {
    var cs := ChangesByName(w, u, a, b, prefix);
    var j, c := Joined(cs, cs.Keys), Compared(FlatAt(w, u, a, prefix).value, FlatAt(w, u, b, prefix).value);
    forall p ensures (p in j.added <==> p in c.added) && (p in j.modified <==> p in c.modified) && (p in j.removed <==> p in c.removed) {
      JoinedExactPath(w, u, a, b, prefix, p);
    }
    SameChanges(j, c);
  }

  lemma JoinedExactPath(w: World, u: Store, a: Option<Id>, b: Option<Id>, prefix: Path, p: Path)
    requires w.Valid() && Intact(w, u) && PlainOpt(w, u, a) && PlainOpt(w, u, b) && Listed(u, a).Some? && Listed(u, b).Some?
    requires FlatAt(w, u, a, prefix).Some? && FlatAt(w, u, b, prefix).Some?
    requires var cs, n := ChangesByName(w, u, a, b, prefix), Head(Rel(prefix, p)); n in cs ==> cs[n] == Some(ComparedAt(w, u, a, b, prefix, n))
    ensures var cs := ChangesByName(w, u, a, b, prefix);
            var j, c := Joined(cs, cs.Keys), Compared(FlatAt(w, u, a, prefix).value, FlatAt(w, u, b, prefix).value);
            (p in j.added <==> p in c.added) && (p in j.modified <==> p in c.modified) && (p in j.removed <==> p in c.removed)
  {
    NamesWithin(w, u, a, b, prefix);
    JoinedByName(ChangesByName(w, u, a, b, prefix), prefix, p);
    ComparedParts(w, u, a, b, prefix, p);
  }

  /** The comparison of one name lists paths of that name only. */
  lemma ComparedWithin(w: World, u: Store, a: Option<Id>, b: Option<Id>, prefix: Path, name: Name, p: Path)
    requires w.Valid() && Intact(w, u) && PlainOpt(w, u, a) && PlainOpt(w, u, b) && Listed(u, a).Some? && Listed(u, b).Some?
    requires FlatAt(w, u, a, prefix).Some? && FlatAt(w, u, b, prefix).Some?
    requires var c := ComparedAt(w, u, a, b, prefix, name); p in c.added || p in c.modified || p in c.removed
    ensures Head(Rel(prefix, p)) == name
  {
    NameOwns(w, u, a, prefix, name);
    NameOwns(w, u, b, prefix, name);
  }

  lemma EachExact(w: World, u: Store, a: Option<Id>, b: Option<Id>, prefix: Path, name: Name)
    requires w.Valid() && Intact(w, u) && PlainOpt(w, u, a) && PlainOpt(w, u, b) && Listed(u, a).Some? && Listed(u, b).Some?
    requires FlatAt(w, u, a, prefix).Some? && FlatAt(w, u, b, prefix).Some?
    requires var cs := ChangesByName(w, u, a, b, prefix);
             name in cs && NoErrors(cs, cs.Keys)
             && Joined(cs, cs.Keys) == Compared(FlatAt(w, u, a, prefix).value, FlatAt(w, u, b, prefix).value)
    ensures ChangesByName(w, u, a, b, prefix)[name] == Some(ComparedAt(w, u, a, b, prefix, name))
  {
    var cs := ChangesByName(w, u, a, b, prefix);
    var own, c := cs[name].value, ComparedAt(w, u, a, b, prefix, name);
    forall p ensures (p in own.added <==> p in c.added) && (p in own.modified <==> p in c.modified) && (p in own.removed <==> p in c.removed) {
      EachExactPath(w, u, a, b, prefix, name, p);
    }
    SameChanges(own, c);
  }

  lemma SameChanges(c: Changes, d: Changes)
    requires forall p :: (p in c.added <==> p in d.added) && (p in c.modified <==> p in d.modified) && (p in c.removed <==> p in d.removed)
    ensures c == d
  {
  }

  lemma EachExactPath(w: World, u: Store, a: Option<Id>, b: Option<Id>, prefix: Path, name: Name, p: Path)
    requires w.Valid() && Intact(w, u) && PlainOpt(w, u, a) && PlainOpt(w, u, b) && Listed(u, a).Some? && Listed(u, b).Some?
    requires FlatAt(w, u, a, prefix).Some? && FlatAt(w, u, b, prefix).Some?
    requires var cs := ChangesByName(w, u, a, b, prefix);
             name in cs && cs[name].Some?
             && Joined(cs, cs.Keys) == Compared(FlatAt(w, u, a, prefix).value, FlatAt(w, u, b, prefix).value)
    ensures var own, c := ChangesByName(w, u, a, b, prefix)[name].value, ComparedAt(w, u, a, b, prefix, name);
            (p in own.added <==> p in c.added) && (p in own.modified <==> p in c.modified) && (p in own.removed <==> p in c.removed)
  {
    var cs := ChangesByName(w, u, a, b, prefix);
    var own, c := cs[name].value, ComparedAt(w, u, a, b, prefix, name);
    NamesWithin(w, u, a, b, prefix);
    if Head(Rel(prefix, p)) == name {
      JoinedByName(cs, prefix, p);
      ComparedParts(w, u, a, b, prefix, p);
    } else {
      assert ChangesWithin(prefix, name, own);
      if p in c.added || p in c.modified || p in c.removed { ComparedWithin(w, u, a, b, prefix, name, p); }
    }
  }

  lemma {:induction false} NamesExact(w: World, u: Store, a: Option<Id>, b: Option<Id>, prefix: Path)
    requires w.Valid() && Intact(w, u) && PlainOpt(w, u, a) && PlainOpt(w, u, b) && Listed(u, a).Some? && Listed(u, b).Some?
    requires FlatAt(w, u, a, prefix).Some? && FlatAt(w, u, b, prefix).Some?
    ensures var am, bm, cs := Index(Listed(u, a).value), Index(Listed(u, b).value), ChangesByName(w, u, a, b, prefix);
            forall n :: n in cs ==> (cs[n] == Some(ComparedAt(w, u, a, b, prefix, n)) <==> PairAgrees(w, u, At(am, n), At(bm, n)))
    decreases Height(w, a) + Height(w, b), 0
  {
    var am, bm, cs := Index(Listed(u, a).value), Index(Listed(u, b).value), ChangesByName(w, u, a, b, prefix);
    PairsLower(w, u, a, b);
    forall n | n in cs ensures cs[n] == Some(ComparedAt(w, u, a, b, prefix, n)) <==> PairAgrees(w, u, At(am, n), At(bm, n)) {
      PlainIndex(w, u, a, n);
      PlainIndex(w, u, b, n);
      NameOwns(w, u, a, prefix, n);
      NameOwns(w, u, b, prefix, n);
      PairExact(w, u, At(am, n), At(bm, n), prefix, n);
    }
  }

  /**
    On two trees that can be flattened, the walk lists exactly the plain comparison of
    the flattened maps if and only if TreesAgree.
   */
  lemma {:induction false} TreesExact(w: World, u: Store, a: Option<Id>, b: Option<Id>, prefix: Path)
    requires w.Valid() && Intact(w, u) && PlainOpt(w, u, a) && PlainOpt(w, u, b)
    requires FlatAt(w, u, a, prefix).Some? && FlatAt(w, u, b, prefix).Some?
    ensures TreeChanges(w, u, a, b, prefix) == Some(Compared(FlatAt(w, u, a, prefix).value, FlatAt(w, u, b, prefix).value))
            <==> TreesAgree(w, u, a, b)
    decreases Height(w, a) + Height(w, b), 1
  {
    var c := Compared(FlatAt(w, u, a, prefix).value, FlatAt(w, u, b, prefix).value);
    if a.Some? && a == b {
      ComparedSame(FlatAt(w, u, a, prefix).value);
    } else {
      NamesExact(w, u, a, b, prefix);
      var cs := ChangesByName(w, u, a, b, prefix);
      if TreesAgree(w, u, a, b) {
        JoinedExact(w, u, a, b, prefix);
      } else if NoErrors(cs, cs.Keys) && Joined(cs, cs.Keys) == c {
        forall n | n in cs ensures cs[n] == Some(ComparedAt(w, u, a, b, prefix, n)) { EachExact(w, u, a, b, prefix, n); }
      }
    }
  }

  // ----- trees of files -----

  /** A tree of blobs and trees with plain names that can be read throughout. */
  ghost predicate PlainTree(w: World, u: Store, id: Id)
    decreases w.rank(id)
  {
    && id in u && u[id].TreeObj?
    && forall e :: e in u[id].entries ==>
         PlainSegment(e.name) && (e.kind == TYPE_BLOB || (e.kind == TYPE_TREE && w.rank(e.id) < w.rank(id) && PlainTree(w, u, e.id)))
  }

  lemma {:induction false} PlainTreeFlattens(w: World, u: Store, id: Id, prefix: Path)
    requires w.Valid() && Intact(w, u) && PlainTree(w, u, id)
    ensures PlainBelow(w, u, id) && FlatTree(w, u, id, prefix).Some?
    decreases w.rank(id), 1, 0
  {
    EntryRanks(w, u, id);
    forall e | e in u[id].entries && e.kind == TYPE_TREE ensures PlainBelow(w, u, e.id) { PlainTreeFlattens(w, u, e.id, []); }
    PlainEntriesFlatten(w, u, u[id].entries, prefix, w.rank(id));
  }

  lemma {:induction false} PlainEntriesFlatten(w: World, u: Store, es: seq<Entry>, prefix: Path, bound: nat)
    requires w.Valid() && Intact(w, u)
    requires forall e :: e in es ==> w.rank(e.id) < bound && (e.kind == TYPE_BLOB || (e.kind == TYPE_TREE && PlainTree(w, u, e.id)))
    ensures FlatEntries(w, u, es, prefix, bound).Some?
    decreases bound, 0, |es|
  {
    if es != [] {
      var n := |es| - 1;
      PlainEntriesFlatten(w, u, es[..n], prefix, bound);
      if es[n].kind == TYPE_TREE { PlainTreeFlattens(w, u, es[n].id, Join(prefix, es[n].name)); }
    }
  }

  lemma {:induction false} PlainTreesAgree(w: World, u: Store, a: Option<Id>, b: Option<Id>)
    requires w.Valid() && Intact(w, u)
    requires (a.Some? ==> PlainTree(w, u, a.value)) && (b.Some? ==> PlainTree(w, u, b.value))
    ensures TreesAgree(w, u, a, b)
    decreases Height(w, a) + Height(w, b)
  {
    PairsLower(w, u, a, b);
    var am, bm := Index(Listed(u, a).value), Index(Listed(u, b).value);
    forall n | n in am.Keys + bm.Keys ensures PairAgrees(w, u, At(am, n), At(bm, n)) {
      var x, y := At(am, n), At(bm, n);
      if BothAre(x, y, TYPE_TREE) { PlainTreesAgree(w, u, Some(x.value.id), Some(y.value.id)); }
    }
  }

  /** On trees of files the walk never fails and lists exactly the added, changed and removed paths. */
  lemma DiffIsComparison(w: World, u: Store, a: Option<Id>, b: Option<Id>)
    requires w.Valid() && Intact(w, u)
    requires (a.Some? ==> PlainTree(w, u, a.value)) && (b.Some? ==> PlainTree(w, u, b.value))
    ensures FlatAt(w, u, a, []).Some? && FlatAt(w, u, b, []).Some?
    ensures TreeChanges(w, u, a, b, []) == Some(Compared(FlatAt(w, u, a, []).value, FlatAt(w, u, b, []).value))
  {
    if a.Some? { PlainTreeFlattens(w, u, a.value, []); }
    if b.Some? { PlainTreeFlattens(w, u, b.value, []); }
    PlainTreesAgree(w, u, a, b);
    TreesExact(w, u, a, b, []);
  }

  /** Path by path: added are those only the target has, removed those only the base has, modified those both have with other content. */
  lemma DiffSays(w: World, u: Store, a: Option<Id>, b: Option<Id>, p: Path)
    requires w.Valid() && Intact(w, u)
    requires (a.Some? ==> PlainTree(w, u, a.value)) && (b.Some? ==> PlainTree(w, u, b.value))
    ensures Flat(w, u, a).Some? && Flat(w, u, b).Some? && TreeChanges(w, u, a, b, []).Some?
    ensures var c, fa, fb := TreeChanges(w, u, a, b, []).value, Flat(w, u, a).value, Flat(w, u, b).value;
            && (p in c.added <==> p !in fa && p in fb)
            && (p in c.removed <==> p in fa && p !in fb)
            && (p in c.modified <==> p in fa && p in fb && fa[p].id != fb[p].id)
  {
    DiffIsComparison(w, u, a, b);
  }

  // ----- where it fails -----

  /** An entry that is neither blob nor tree, on both sides and unchanged: the walk reads its id as a tree, on each side in turn. */
  lemma UnchangedOther(w: World, u: Store, e: Entry, prefix: Path)
    requires w.Valid() && Intact(w, u) && !Regular(Some(e))
    ensures var files := FlatTree(w, u, e.id, Join(prefix, e.name));
            NameChanges(w, u, Some(e), Some(e), prefix)
            == if files.None? then None else Some(Changes(files.value.Keys, {}, files.value.Keys))
  {
  }

  /** One such entry naming a blob makes the diff fail although the flattened maps differ in one added file only. */
  lemma UnchangedOtherFails(w: World, u: Store, a: Id, b: Id, x: Entry, y: Entry)
    requires w.Valid() && Intact(w, u) && a in u && b in u && a != b
    requires x.name == Ascii("a") && y.name == Ascii("b") && x.kind == 5 && y.kind == TYPE_BLOB
    requires u[a] == TreeObj([x]) && u[b] == TreeObj([x, y]) && x.id in u && u[x.id].BlobObj?
    ensures TreeChanges(w, u, Some(a), Some(b), []) == None
    ensures FlatAt(w, u, Some(a), []).Some? && FlatAt(w, u, Some(b), []).Some?
    ensures Compared(FlatAt(w, u, Some(a), []).value, FlatAt(w, u, Some(b), []).value) == Changes({Ascii("b")}, {}, {})
  {
    assert x in u[a].entries && x in u[b].entries;
    UnchangedOther(w, u, x, []);
    OneErrorFails(w, u, Some(a), Some(b), [], x.name);
    TwoFiles(w, u, a, b, x, y);
  }

  /** One name that cannot be walked fails the whole diff. */
  lemma OneErrorFails(w: World, u: Store, a: Option<Id>, b: Option<Id>, prefix: Path, name: Name)
    requires w.Valid() && Intact(w, u) && a != b && Listed(u, a).Some? && Listed(u, b).Some?
    requires name in ChangesByName(w, u, a, b, prefix) && ChangesAt(w, u, a, b, prefix, name).None?
    ensures TreeChanges(w, u, a, b, prefix) == None
  {
    assert ChangesByName(w, u, a, b, prefix)[name].None?;
  }

  lemma TwoFiles(w: World, u: Store, a: Id, b: Id, x: Entry, y: Entry)
    requires w.Valid() && Intact(w, u) && a in u && b in u
    requires x.kind == 5 && y.kind == TYPE_BLOB && NamesAscending([x, y])
    requires u[a] == TreeObj([x]) && u[b] == TreeObj([x, y])
    ensures FlatAt(w, u, Some(a), []) == Some(map[x.name := File(x.id, x.mode)])
    ensures FlatAt(w, u, Some(b), []) == Some(map[x.name := File(x.id, x.mode), y.name := File(y.id, y.mode)])
  {
    EntryRanks(w, u, a);
    EntryRanks(w, u, b);
    OneFile(w, u, x, w.rank(a));
    OneFile(w, u, x, w.rank(b));
    LessIrreflexive(x.name);
    assert [x, y][0].name != [x, y][1].name;
    OneMore(w, u, x, y, w.rank(b));
  }

  lemma OneMore(w: World, u: Store, x: Entry, y: Entry, bound: nat)
    requires w.Valid() && Intact(w, u) && w.rank(x.id) < bound && w.rank(y.id) < bound && x.name != y.name && y.kind != TYPE_TREE
    requires FlatEntries(w, u, [x], [], bound) == Some(map[x.name := File(x.id, x.mode)])
    ensures FlatEntries(w, u, [x, y], [], bound) == Some(map[x.name := File(x.id, x.mode), y.name := File(y.id, y.mode)])
  {
    assert [x, y][..1] == [x];
    assert FlatEntry(w, u, y, [], bound) == Some(map[y.name := File(y.id, y.mode)]);
    assert map[x.name := File(x.id, x.mode)] + map[y.name := File(y.id, y.mode)] == map[x.name := File(x.id, x.mode), y.name := File(y.id, y.mode)];
  }

  lemma OneFile(w: World, u: Store, x: Entry, bound: nat)
    requires w.Valid() && Intact(w, u) && x.kind != TYPE_TREE && w.rank(x.id) < bound
    ensures FlatEntries(w, u, [x], [], bound) == Some(map[x.name := File(x.id, x.mode)])
  {
    assert [x][..0] == [];
    assert FlatEntry(w, u, x, [], bound) == Some(map[x.name := File(x.id, x.mode)]);
    assert map[] + map[x.name := File(x.id, x.mode)] == map[x.name := File(x.id, x.mode)];
  }
}
