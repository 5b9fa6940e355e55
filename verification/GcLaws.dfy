/** What a collection keeps, said of refs, logs and changes (varvig/internal/gc/gc.go). */
module GcLaws {
  import opened Basics
  import opened Objects
  import opened Graph
  import opened Closure
  import opened Gc

  /** Live is exactly the roots there are and whatever a live object links to: links descend, so nothing else fits. */
  lemma LiveExactly(w: World, objs: Store, roots: seq<Id>, x: Id)
    requires w.Valid() && Intact(w, objs)
    ensures x in Live(w, objs, roots) <==>
            x in objs && (x in roots || exists y :: y in Live(w, objs, roots) && x in Children(objs[y]))
  {
    StoreDescends(w, objs);
    var g := StoreLinks(objs);
    if x in Live(w, objs, roots) && x !in roots {
      var r :| r in roots && x in Below(g, w.rank, r);
      var y := ReachesLast(g, w.rank, r, x);
      assert y in BelowAll(g, w.rank, roots);
      assert y in Live(w, objs, roots) && x in Children(objs[y]);
    }
    if x in objs && x in roots { assert x in Below(g, w.rank, x); }
    if y :| x in objs && y in Live(w, objs, roots) && x in Children(objs[y]) {
      assert x in Out(g, y);
      LiveLink(w, objs, roots, y, x);
    }
  }

  /** The object is still stored, unchanged. */
  predicate Kept(objs: Store, swept: Store, id: Id) {
    id in objs ==> id in swept && swept[id] == objs[id]
  }

  /** A collection keeps with every change its tree, parents, artifacts, intent and fulfilled intent, and with every tree its entries. */
  lemma CollectKeepsNamed(w: World, objs: Store, roots: seq<Id>, swept: Store, id: Id)
    requires w.Valid() && Intact(w, objs) && swept == Restrict(objs, Live(w, objs, roots)) && id in swept
    ensures swept[id].ChangeObj? ==> forall x :: RefersTo(swept[id].change, x) ==> Kept(objs, swept, x)
    ensures swept[id].TreeObj? ==> forall e :: e in swept[id].entries ==> Kept(objs, swept, e.id)
  {
    var o := objs[id];
    if o.ChangeObj? {
      forall x | RefersTo(o.change, x) ensures Kept(objs, swept, x) {
        ChangeLinks(o.change, x);
        assert x in Children(o);
        LiveExactly(w, objs, roots, x);
      }
    } else if o.TreeObj? {
      forall e | e in o.entries ensures Kept(objs, swept, e.id) {
        TreeLinks(o.entries, e.id);
        assert e.id in Children(o);
        LiveExactly(w, objs, roots, e.id);
      }
    }
  }

  /** What a ref names survives unless its pin has run out; so does every id in a log, before or after, and every candidate. */
  lemma CollectKeepsRoots(w: World, objs: Store, r: RootSource, now: int, roots: seq<Id>, swept: Store)
    requires w.Valid() && Intact(w, objs) && swept == Restrict(objs, Live(w, objs, roots))
    requires forall id :: id in roots <==> IsRoot(r, now, id)
    ensures forall n :: n in r.refs && (r.pinExpiry(n).Some? ==> now < r.pinExpiry(n).value) ==> Kept(objs, swept, r.refs[n])
    ensures forall n, e :: n in r.logs && e in r.logs[n] ==>
              (e.before.Some? ==> Kept(objs, swept, e.before.value)) && (e.after.Some? ==> Kept(objs, swept, e.after.value))
    ensures forall id :: id in r.pool ==> Kept(objs, swept, id)
  {
    forall id | IsRoot(r, now, id) ensures Kept(objs, swept, id) {
      assert id in roots;
      LiveExactly(w, objs, roots, id);
    }
  }

  /** Why something is a root: a ref whose pin has not run out, a log entry, or a candidate. */
  ghost predicate Rooted(r: RootSource, now: int, x: Id) {
    || (exists n :: n in r.refs && r.refs[n] == x && (r.pinExpiry(n).Some? ==> now < r.pinExpiry(n).value))
    || (exists n, e :: n in r.logs && e in r.logs[n] && (e.before == Some(x) || e.after == Some(x)))
    || x in r.pool
  }

  lemma RootsAreRooted(r: RootSource, now: int, x: Id)
    ensures IsRoot(r, now, x) <==> Rooted(r, now, x)
  {
    if n :| n in r.refs && !Expired(r, n, now) && r.refs[n] == x {
      assert n in r.refs && r.refs[n] == x;
    }
  }

  /** An object survives only as a root or as a link of another survivor: what no ref, log or candidate leads to goes. */
  lemma CollectKeepsNothingElse(w: World, objs: Store, r: RootSource, now: int, roots: seq<Id>, swept: Store, x: Id)
    requires w.Valid() && Intact(w, objs) && swept == Restrict(objs, Live(w, objs, roots)) && x in swept
    requires forall id :: id in roots <==> IsRoot(r, now, id)
    ensures Rooted(r, now, x) || exists y :: y in swept && x in Children(swept[y])
  {
    LiveExactly(w, objs, roots, x);
    if x in roots {
      RootsAreRooted(r, now, x);
    } else {
      var y :| y in Live(w, objs, roots) && x in Children(objs[y]);
      assert y in swept && x in Children(swept[y]);
    }
  }

  /** Collect as run: every change left has all it refers to that was stored before, and nothing a ref, log or candidate names is gone. */
  method CollectSafely(objs: ObjectStore, r: RootSource, now: int) returns (rep: Option<Report>)
    requires objs.Valid()
    modifies objs
    ensures objs.Valid() && Grows(objs.objs, old(objs.objs))
    ensures forall id, x :: id in objs.objs && objs.objs[id].ChangeObj? && RefersTo(objs.objs[id].change, x) ==> Kept(old(objs.objs), objs.objs, x)
    ensures forall x :: Rooted(r, now, x) ==> Kept(old(objs.objs), objs.objs, x)
  {
    ghost var w, u := objs.w, objs.objs;
    ghost var roots;
    rep, roots := Collect(objs, r, now, false);
    if rep.None? { return; }
    forall id, x | id in objs.objs && objs.objs[id].ChangeObj? && RefersTo(objs.objs[id].change, x) ensures Kept(u, objs.objs, x) {
      CollectKeepsNamed(w, u, roots, objs.objs, id);
    }
    forall x | Rooted(r, now, x) ensures Kept(u, objs.objs, x) {
      RootsAreRooted(r, now, x);
      assert x in roots;
      LiveExactly(w, u, roots, x);
    }
  }
}
