/**
  Closures in an object store: what is reachable through the objects present, and
  whether it is all there (varvig/internal/p2p/p2p.go: markClosure, hasClosure).
 */
module Closure {
  import opened Objects
  import opened Graph
  import G = Graph

  /** The links of the objects present; a malformed object has none. */
  function StoreLinks(objs: Store): G.Links {
    map id | id in objs :: Children(objs[id])
  }

  lemma StoreDescends(w: World, objs: Store)
    requires w.Valid() && Intact(w, objs)
    ensures Descends(StoreLinks(objs), w.rank)
  {
    forall x, y | x in objs && y in StoreLinks(objs)[x] ensures w.rank(y) < w.rank(x) {
      assert y in Children(objs[x]);
    }
  }

  ghost function Reachable(w: World, objs: Store, id: Id): (s: set<Id>)
    requires w.Valid() && Intact(w, objs)
  {
    StoreDescends(w, objs);
    Below(StoreLinks(objs), w.rank, id)
  }

  /** Present and readable. */
  predicate Sound(objs: Store, id: Id) {
    id in objs && Objects.Links(objs[id]).Some?
  }

  /** The whole closure of `id` is present and readable. */
  ghost predicate Complete(w: World, objs: Store, id: Id)
    requires w.Valid() && Intact(w, objs)
  {
    forall x :: x in Reachable(w, objs, id) ==> Sound(objs, x)
  }

  lemma CompleteLinks(w: World, objs: Store, id: Id)
    requires w.Valid() && Intact(w, objs)
    ensures Complete(w, objs, id) <==> Sound(objs, id) && forall l :: l in Children(objs[id]) ==> Complete(w, objs, l)
  {
    StoreDescends(w, objs);
    var g := StoreLinks(objs);
    if Complete(w, objs, id) {
      assert id in Reachable(w, objs, id);
      forall l | l in Children(objs[id]) ensures Complete(w, objs, l) { BelowLink(g, w.rank, id, l); }
    } else if Sound(objs, id) {
      var x :| x in Reachable(w, objs, id) && !Sound(objs, x);
      var l := ReachesFirst(g, w.rank, id, x);
      assert l in Children(objs[id]) && x in Reachable(w, objs, l);
    }
  }

  /** A stored change is complete exactly if everything it refers to is, a stored tree exactly if every entry is. */
  lemma CompleteNamed(w: World, objs: Store, id: Id)
    requires w.Valid() && Intact(w, objs) && id in objs
    ensures objs[id].ChangeObj? ==> (Complete(w, objs, id) <==> forall x :: RefersTo(objs[id].change, x) ==> Complete(w, objs, x))
    ensures objs[id].TreeObj? ==> (Complete(w, objs, id) <==> forall e :: e in objs[id].entries ==> Complete(w, objs, e.id))
    ensures Complete(w, objs, id) && objs[id].ChangeObj? ==> forall x :: RefersTo(objs[id].change, x) ==> x in objs
  {
    CompleteLinks(w, objs, id);
    var o := objs[id];
    if o.ChangeObj? {
      forall x ensures x in Children(o) <==> RefersTo(o.change, x) { ChangeLinks(o.change, x); }
      forall x | Complete(w, objs, x) ensures x in objs { assert x in Reachable(w, objs, x); }
    } else if o.TreeObj? {
      forall x ensures x in Children(o) <==> exists e :: e in o.entries && e.id == x {
        TreeLinks(o.entries, x);
      }
    }
  }

  /** hasClosure: the recursion decides exactly closure completeness. */
  method HasClosure(objs: ObjectStore, id: Id) returns (ok: bool)
    requires objs.Valid()
    ensures ok <==> Complete(objs.w, objs.objs, id)
    decreases objs.w.rank(id), 1
  {
    CompleteLinks(objs.w, objs.objs, id);
    if id !in objs.objs { return false; }
    var links := Objects.Links(objs.objs[id]);
    if links.None? { return false; }
    ChildRanks(objs.w, objs.objs, id);
    ok := HaveClosures(objs, links.value, objs.w.rank(id));
  }

  lemma ChildRanks(w: World, objs: Store, id: Id)
    requires w.Valid() && Intact(w, objs) && id in objs
    ensures forall l :: l in Children(objs[id]) ==> w.rank(l) < w.rank(id)
  {
  }

  /** The loop over the links of one object. */
  method HaveClosures(objs: ObjectStore, links: seq<Id>, ghost bound: nat) returns (ok: bool)
    requires objs.Valid() && forall l :: l in links ==> objs.w.rank(l) < bound
    ensures ok <==> forall l :: l in links ==> Complete(objs.w, objs.objs, l)
    decreases bound, 0
  {
    for k := 0 to |links|
      invariant forall i :: 0 <= i < k ==> Complete(objs.w, objs.objs, links[i])
    {
      assert links[k] in links;
      var sub := HasClosure(objs, links[k]);
      if !sub { return false; }
    }
    return true;
  }

  /** A complete closure stays complete, with the same members, as objects are added. */
  lemma {:induction false} CompleteGrows(w: World, s: Store, t: Store, id: Id)
    requires w.Valid() && Intact(w, s) && Intact(w, t) && Grows(s, t) && Complete(w, s, id)
    ensures Complete(w, t, id) && Reachable(w, t, id) == Reachable(w, s, id)
    decreases w.rank(id)
  {
    CompleteLinks(w, s, id);
    CompleteLinks(w, t, id);
    StoreDescends(w, s);
    StoreDescends(w, t);
    forall l | l in Children(s[id]) ensures Complete(w, t, l) && Reachable(w, t, l) == Reachable(w, s, l) {
      assert l in StoreLinks(s)[id];
      CompleteGrows(w, s, t, l);
    }
    assert Out(StoreLinks(s), id) == Children(s[id]) == Out(StoreLinks(t), id);
  }

  lemma CompletePart(w: World, objs: Store, a: Id, b: Id)
    requires w.Valid() && Intact(w, objs) && Complete(w, objs, a) && b in Reachable(w, objs, a)
    ensures Complete(w, objs, b)
  {
    StoreDescends(w, objs);
    forall x | x in Reachable(w, objs, b) ensures Sound(objs, x) {
      ReachesTransitive(StoreLinks(objs), w.rank, a, b, x);
    }
  }

  // ----- marking through present objects -----

  /** Every present link of a marked object outside `stack` is marked. */
  ghost predicate PresentClosed(objs: Store, s: set<Id>, stack: set<Id>) {
    forall x, y :: x in s && x !in stack && y in Out(StoreLinks(objs), x) && y in objs ==> y in s
  }

  /** What marking from `id` may do, `stack` being the calls still open. */
  ghost predicate Marked(w: World, objs: Store, before: set<Id>, after: set<Id>, stack: set<Id>, id: Id)
    requires w.Valid() && Intact(w, objs)
  {
    && before <= after && (id in objs ==> id in after)
    && after <= before + Reachable(w, objs, id) * objs.Keys
    && PresentClosed(objs, after, stack)
  }

  lemma {:induction false} PresentClosedHolds(w: World, objs: Store, s: set<Id>, a: Id, b: Id)
    requires w.Valid() && Intact(w, objs) && PresentClosed(objs, s, {})
    requires a in s && b in Reachable(w, objs, a) && b in objs
    ensures b in s
    decreases w.rank(a)
  {
    StoreDescends(w, objs);
    if a != b {
      var d := ReachesFirst(StoreLinks(objs), w.rank, a, b);
      if d in objs { PresentClosedHolds(w, objs, s, d, b); }
    }
  }

  /** With no call open, marking adds exactly the present objects reachable from `id`. */
  lemma MarkedExactly(w: World, objs: Store, before: set<Id>, after: set<Id>, id: Id)
    requires w.Valid() && Intact(w, objs) && Marked(w, objs, before, after, {}, id)
    ensures after == before + Reachable(w, objs, id) * objs.Keys
  {
    StoreDescends(w, objs);
    if id in objs {
      forall x | x in Reachable(w, objs, id) * objs.Keys ensures x in after {
        PresentClosedHolds(w, objs, after, id, x);
      }
    } else {
      assert Out(StoreLinks(objs), id) == [];
    }
  }
}
