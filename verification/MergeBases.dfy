/** varvig/internal/merge/merge.go: the best common ancestors of two changes. */
module MergeBases {
  import opened Basics
  import opened Objects
  import opened Graph
  import opened Orders

  /** The ids of a list that are not nil: an empty id reads back as nil, and no walk follows it. */
  function NonNil(ids: seq<Id>): (r: seq<Id>)
    ensures forall id :: id in r <==> id in ids && id != []
  {
    if ids == [] then []
    else
      assert ids == [ids[0]] + ids[1..];
      (if ids[0] == [] then [] else [ids[0]]) + NonNil(ids[1..])
  }

  /** parents: anything that is not a readable change has none. */
  function Parents(objs: Store, id: Id): seq<Id> {
    if id in objs && objs[id].ChangeObj? then NonNil(objs[id].change.parents) else []
  }

  /** The history graph a store holds: parents are older than their change. */
  ghost function History(w: World, objs: Store): (g: Links)
    requires w.Valid() && Intact(w, objs)
    ensures Descends(g, w.rank) && forall id :: id in g ==> [] !in g[id]
  {
    var g := map id | id in objs && objs[id].ChangeObj? :: Parents(objs, id);
    assert Descends(g, w.rank) by {
      forall x, y | x in g && y in g[x] ensures w.rank(y) < w.rank(x) { assert y in Children(objs[x]); }
    }
    g
  }

  /** All parents a stored change records are followed, but for nil ones, and nothing else is. */
  lemma ParentsAreRecorded(w: World, objs: Store, x: Id, id: Id)
    requires w.Valid() && Intact(w, objs)
    ensures x in objs && objs[x].ChangeObj? ==> (id in Parents(objs, x) <==> id in objs[x].change.parents && id != [])
    ensures id in Out(History(w, objs), x) <==> x in objs && objs[x].ChangeObj? && id in objs[x].change.parents && id != []
  {
  }

  /** The ancestors of a change: itself and the ancestors of every parent it records. */
  lemma AncestorsThroughParents(w: World, objs: Store, a: Id, x: Id)
    requires w.Valid() && Intact(w, objs)
    ensures Reaches(History(w, objs), w.rank, a, x) <==>
            x == a || (a in objs && objs[a].ChangeObj? &&
                       exists p :: p in objs[a].change.parents && p != [] && Reaches(History(w, objs), w.rank, p, x))
  {
    var g := History(w, objs);
    if x != a {
      if Reaches(g, w.rank, a, x) {
        var p := ReachesFirst(g, w.rank, a, x);
        ParentsAreRecorded(w, objs, a, p);
      }
      if a in objs && objs[a].ChangeObj? {
        forall p | p in objs[a].change.parents && p != [] && Reaches(g, w.rank, p, x) ensures Reaches(g, w.rank, a, x) {
          ParentsAreRecorded(w, objs, a, p);
          ReachesStep(g, w.rank, a, p, x);
        }
      }
    }
  }

  ghost predicate Common(g: Links, rank: Id -> nat, a: Id, b: Id, x: Id)
    requires Descends(g, rank)
  {
    Reaches(g, rank, a, x) && Reaches(g, rank, b, x)
  }

  ghost predicate StrictlyBelow(g: Links, rank: Id -> nat, x: Id, y: Id)
    requires Descends(g, rank)
  {
    x != y && Reaches(g, rank, y, x)
  }

  /** The maximal elements of the common ancestors. */
  ghost function Best(g: Links, rank: Id -> nat, a: Id, b: Id): set<Id>
    requires Descends(g, rank)
  {
    set x | x in Below(g, rank, a) && x in Below(g, rank, b)
            && !exists y :: Common(g, rank, a, b, y) && StrictlyBelow(g, rank, x, y)
  }

  /** The result as the source returns it: the best bases sorted by id. */
  ghost predicate IsMergeBases(g: Links, rank: Id -> nat, a: Id, b: Id, out: seq<Id>)
    requires Descends(g, rank)
  {
    Ascending(Less, out) && Elements(out) == Best(g, rank, a, b)
  }

  /** A Go map passed by reference: every walk that is handed it marks in place. */
  class IdSet {
    var ids: set<Id>

    constructor ()
      ensures ids == {}
    {
      ids := {};
    }
  }

  /** Marks `id` and its ancestors. `stack` names the calls still open above this one. */
  method CollectAncestors(objs: ObjectStore, id: Id, visited: IdSet, ghost stack: set<Id>)
    requires objs.Valid()
    requires ClosedExcept(History(objs.w, objs.objs), visited.ids, stack)
    modifies visited
    ensures MarkedFrom(History(objs.w, objs.objs), objs.w.rank, old(visited.ids), visited.ids, stack, id)
    decreases objs.w.rank(id), 1, 0
  {
    if id in visited.ids { return; }
    visited.ids := visited.ids + {id};
    CollectParents(objs, id, Parents(objs.objs, id), visited, stack + {id});
  }

  /** The loop over the parents of `id`. */
  method CollectParents(objs: ObjectStore, ghost id: Id, ps: seq<Id>, visited: IdSet, ghost stack: set<Id>)
    requires objs.Valid() && ps == Out(History(objs.w, objs.objs), id) && id in stack
    requires ClosedExcept(History(objs.w, objs.objs), visited.ids, stack)
    modifies visited
    ensures old(visited.ids) <= visited.ids <= old(visited.ids) + Below(History(objs.w, objs.objs), objs.w.rank, id)
    ensures ClosedExcept(History(objs.w, objs.objs), visited.ids, stack)
    ensures forall p :: p in ps ==> p in visited.ids
    decreases objs.w.rank(id), 0, 1
  {
    ghost var g := History(objs.w, objs.objs);
    ghost var all := Below(g, objs.w.rank, id);
    for k := 0 to |ps|
      invariant old(visited.ids) <= visited.ids <= old(visited.ids) + all
      invariant ClosedExcept(g, visited.ids, stack)
      invariant forall i :: 0 <= i < k ==> ps[i] in visited.ids
    {
      CollectParent(objs, id, ps[k], visited, stack, all);
    }
  }

  method CollectParent(objs: ObjectStore, ghost id: Id, p: Id, visited: IdSet, ghost stack: set<Id>, ghost all: set<Id>)
    requires objs.Valid() && p in Out(History(objs.w, objs.objs), id)
    requires all == Below(History(objs.w, objs.objs), objs.w.rank, id)
    requires ClosedExcept(History(objs.w, objs.objs), visited.ids, stack)
    modifies visited
    ensures old(visited.ids) <= visited.ids <= old(visited.ids) + all && p in visited.ids
    ensures ClosedExcept(History(objs.w, objs.objs), visited.ids, stack)
    decreases objs.w.rank(id), 0, 0
  {
    BelowLink(History(objs.w, objs.objs), objs.w.rank, id, p);
    CollectAncestors(objs, p, visited, stack);
  }

  /** The strict ancestors of the members of `cs`. */
  ghost function DominatedBy(g: Links, rank: Id -> nat, cs: set<Id>): set<Id>
    requires Descends(g, rank)
  {
    set c, x | c in cs && x in Below(g, rank, c) && x != c :: x
  }

  /** collectAncestors called from outside: the visited set gains exactly what `id` reaches. */
  method Mark(objs: ObjectStore, id: Id, visited: IdSet)
    requires objs.Valid()
    requires Closed(History(objs.w, objs.objs), visited.ids)
    modifies visited
    ensures Closed(History(objs.w, objs.objs), visited.ids)
    ensures visited.ids == old(visited.ids) + Below(History(objs.w, objs.objs), objs.w.rank, id)
  {
    ghost var prior := visited.ids;
    CollectAncestors(objs, id, visited, {});
    MarkedAll(History(objs.w, objs.objs), objs.w.rank, prior, visited.ids, id);
  }

  /** Marks the strict ancestors of one change, through its parents. */
  method MarkStrictAncestors(objs: ObjectStore, c: Id, visited: IdSet)
    requires objs.Valid()
    requires Closed(History(objs.w, objs.objs), visited.ids)
    modifies visited
    ensures Closed(History(objs.w, objs.objs), visited.ids)
    ensures visited.ids == old(visited.ids) + (Below(History(objs.w, objs.objs), objs.w.rank, c) - {c})
  {
    ghost var g, rank := History(objs.w, objs.objs), objs.w.rank;
    var ps := Parents(objs.objs, c);
    assert ps == Out(g, c);
    for k := 0 to |ps|
      invariant Closed(g, visited.ids)
      invariant visited.ids == old(visited.ids) + BelowAll(g, rank, ps[..k])
    {
      Mark(objs, ps[k], visited);
      BelowAllPrefix(g, rank, ps, k);
    }
    assert ps[..|ps|] == ps;
    BelowLinks(g, rank, c);
  }

  /** Marks the strict ancestors of every common ancestor. */
  method MarkDominated(objs: ObjectStore, common: set<Id>) returns (dominated: IdSet)
    requires objs.Valid()
    ensures fresh(dominated)
    ensures dominated.ids == DominatedBy(History(objs.w, objs.objs), objs.w.rank, common)
  {
    dominated := new IdSet();
    var todo := common;
    while todo != {}
      invariant todo <= common
      invariant Closed(History(objs.w, objs.objs), dominated.ids)
      invariant dominated.ids == DominatedBy(History(objs.w, objs.objs), objs.w.rank, common - todo)
    {
      var c :| c in todo;
      MarkStrictAncestors(objs, c, dominated);
      assert common - (todo - {c}) == (common - todo) + {c};
      todo := todo - {c};
    }
    assert common - {} == common;
  }

  method FindMergeBases(objs: ObjectStore, a: Option<Id>, b: Option<Id>) returns (out: seq<Id>)
    requires objs.Valid()
    ensures a.None? || b.None? ==> out == []
    ensures a.Some? && b.Some? ==> IsMergeBases(History(objs.w, objs.objs), objs.w.rank, a.value, b.value, out)
  {
    if a.None? || b.None? { return []; }
    ghost var g, rank := History(objs.w, objs.objs), objs.w.rank;
    var ancA := new IdSet();
    var ancB := new IdSet();
    Mark(objs, a.value, ancA);
    Mark(objs, b.value, ancB);
    var common := ancA.ids * ancB.ids;
    var dominated := MarkDominated(objs, common);
    out := Undominated(common, dominated.ids);
    assert forall x :: x in common <==> Common(g, rank, a.value, b.value, x);
    BestIsUndominated(g, rank, a.value, b.value, common);
  }

  lemma BestIsUndominated(g: Links, rank: Id -> nat, a: Id, b: Id, common: set<Id>)
    requires Descends(g, rank) && forall x :: x in common <==> Common(g, rank, a, b, x)
    ensures Best(g, rank, a, b) == common - DominatedBy(g, rank, common)
  {
  }

  /** The common ancestors that are not dominated, sorted by id. */
  method Undominated(common: set<Id>, dominated: set<Id>) returns (out: seq<Id>)
    ensures Ascending(Less, out) && Elements(out) == common - dominated
  {
    out := [];
    var todo := common;
    while todo != {}
      invariant todo <= common && NoDuplicates(out)
      invariant forall x :: x in out <==> x in common - todo && x !in dominated
    {
      var x :| x in todo;
      if x !in dominated { out := out + [x]; }
      todo := todo - {x};
    }
    assert Elements(out) == common - dominated;
    SortAscendingBytes(out);
    out := Sort(Less, out);
  }

  // ----- what the best bases are -----

  /** No best base is an ancestor of another. */
  lemma BestIsAntichain(g: Links, rank: Id -> nat, a: Id, b: Id)
    requires Descends(g, rank)
    ensures forall x, y :: x in Best(g, rank, a, b) && y in Best(g, rank, a, b) && Reaches(g, rank, x, y) ==> x == y
  {
    forall x, y | x in Best(g, rank, a, b) && y in Best(g, rank, a, b) && Reaches(g, rank, x, y) ensures x == y {
      assert Common(g, rank, a, b, x);
      assert !StrictlyBelow(g, rank, y, x);
    }
  }

  /** Every common ancestor lies below some best base, so related histories have at least one. */
  lemma {:induction false} BestCovers(g: Links, rank: Id -> nat, a: Id, b: Id, x: Id) returns (m: Id)
    requires Descends(g, rank) && Common(g, rank, a, b, x)
    ensures m in Best(g, rank, a, b) && Reaches(g, rank, m, x)
    ensures rank(x) <= rank(a)
    decreases rank(a) - rank(x)
  {
    ReachesDescends(g, rank, a, x);
    if y :| Common(g, rank, a, b, y) && StrictlyBelow(g, rank, x, y) {
      ReachesDescends(g, rank, y, x);
      ReachesDescends(g, rank, a, y);
      m := BestCovers(g, rank, a, b, y);
      ReachesTransitive(g, rank, m, y, x);
    } else {
      m := x;
    }
  }

  /** The answer does not depend on the order of the arguments. */
  lemma MergeBasesSymmetric(g: Links, rank: Id -> nat, a: Id, b: Id, s: seq<Id>, t: seq<Id>)
    requires Descends(g, rank)
    requires IsMergeBases(g, rank, a, b, s) && IsMergeBases(g, rank, b, a, t)
    ensures s == t
  {
    forall x ensures Common(g, rank, a, b, x) <==> Common(g, rank, b, a, x) {}
    assert Best(g, rank, a, b) == Best(g, rank, b, a);
    LessIsStrictTotal();
    AscendingUnique(Less, s, t);
  }

  /** A change that the other descends from is the only base. */
  lemma BestOfAncestor(g: Links, rank: Id -> nat, a: Id, b: Id, s: seq<Id>)
    requires Descends(g, rank) && Reaches(g, rank, a, b)
    requires IsMergeBases(g, rank, a, b, s) || IsMergeBases(g, rank, b, a, s)
    ensures s == [b]
  {
    forall x ensures x in Elements(s) <==> x == b {
      if Common(g, rank, a, b, x) && x != b {
        assert Common(g, rank, a, b, b) && Common(g, rank, b, a, b) && StrictlyBelow(g, rank, x, b);
      }
      forall y | Common(g, rank, a, b, y) ensures !StrictlyBelow(g, rank, b, y) {
        ReachesDescends(g, rank, b, y);
        if y != b && Reaches(g, rank, y, b) { ReachesDescends(g, rank, y, b); }
      }
    }
    LessIsStrictTotal();
    AscendingUnique(Less, s, [b]);
  }

  /** Two or more bases are all strictly older than both changes: the recursion descends. */
  lemma SeveralBasesAreOlder(g: Links, rank: Id -> nat, a: Id, b: Id, s: seq<Id>)
    requires Descends(g, rank) && IsMergeBases(g, rank, a, b, s) && |s| >= 2
    ensures forall k :: 0 <= k < |s| ==> s[k] != a && s[k] != b && rank(s[k]) < rank(a) && rank(s[k]) < rank(b)
  {
    BestIsAntichain(g, rank, a, b);
    LessIsStrictTotal();
    AscendingNoDuplicates(Less, s);
    forall k | 0 <= k < |s| ensures s[k] != a && s[k] != b && rank(s[k]) < rank(a) && rank(s[k]) < rank(b) {
      var l := if k == 0 then 1 else 0;
      assert s[k] in Elements(s) && s[l] in Elements(s) && s[k] != s[l];
      assert Common(g, rank, a, b, s[k]) && Common(g, rank, a, b, s[l]);
      assert !Reaches(g, rank, s[k], s[l]);
      ReachesDescends(g, rank, a, s[k]);
      ReachesDescends(g, rank, b, s[k]);
    }
  }
}
