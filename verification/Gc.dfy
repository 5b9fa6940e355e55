/** varvig/internal/gc/gc.go: mark-and-sweep from refs, reflogs and the speculation pool. */
module Gc {
  import opened Basics
  import opened Objects
  import opened Graph
  import opened Orders
  import opened Closure

  /** A reflog entry: the ids before and after a ref moved. */
  datatype LogEntry = LogEntry(before: Option<Id>, after: Option<Id>)

  /** What names roots. `pinExpiry` tells when a well-formed pin ref stops pinning. */
  datatype RootSource = RootSource(refs: map<Name, Id>, logs: map<Name, seq<LogEntry>>, pool: seq<Id>, pinExpiry: Name -> Option<int>)

  predicate Expired(r: RootSource, name: Name, now: int) {
    r.pinExpiry(name).Some? && r.pinExpiry(name).value <= now
  }

  /** Targets of unexpired refs, every id a reflog ever recorded, and live candidates. */
  ghost predicate IsRoot(r: RootSource, now: int, id: Id) {
    || (exists n :: n in r.refs && !Expired(r, n, now) && r.refs[n] == id)
    || (exists n, e :: n in r.logs && e in r.logs[n] && (e.before == Some(id) || e.after == Some(id)))
    || id in r.pool
  }

  function LogIds(es: seq<LogEntry>): (ids: seq<Id>)
    ensures forall id :: id in ids <==> exists e :: e in es && (e.before == Some(id) || e.after == Some(id))
  {
    if es == [] then []
    else
      assert es == [es[0]] + es[1..];
      var rest := LogIds(es[1..]);
      OptionIds(es[0].before) + OptionIds(es[0].after) + rest
  }

  method CollectRoots(r: RootSource, now: int) returns (roots: seq<Id>)
    ensures forall id :: id in roots <==> IsRoot(r, now, id)
  {
    roots := [];
    var names := r.refs.Keys;
    while names != {}
      invariant names <= r.refs.Keys
      invariant forall id :: id in roots <==> exists n :: n in r.refs.Keys - names && !Expired(r, n, now) && r.refs[n] == id
    {
      var n :| n in names;
      if !Expired(r, n, now) { roots := roots + [r.refs[n]]; }
      names := names - {n};
    }
    ghost var targets := roots;
    var logs := r.logs.Keys;
    while logs != {}
      invariant logs <= r.logs.Keys
      invariant forall id :: id in roots <==>
                               id in targets || exists n :: n in r.logs.Keys - logs && id in LogIds(r.logs[n])
    {
      var n :| n in logs;
      roots := roots + LogIds(r.logs[n]);
      logs := logs - {n};
    }
    roots := roots + r.pool;
  }

  /** The set of live ids, marked in place. */
  class LiveSet {
    var ids: set<Id>

    constructor ()
      ensures ids == {}
    {
      ids := {};
    }
  }

  /** Some object the walk reaches cannot be read. */
  ghost predicate ReachesMalformed(w: World, objs: Store, id: Id)
    requires w.Valid() && Intact(w, objs)
  {
    exists x :: x in Reachable(w, objs, id) && x in objs && !Sound(objs, x)
  }

  /** Everything newly marked could be read. */
  ghost predicate NewSound(objs: Store, before: set<Id>, after: set<Id>) {
    forall x :: x in after && x !in before ==> Sound(objs, x)
  }

  /** mark: false is a read error. A root that no longer exists is skipped. */
  method Mark(objs: ObjectStore, id: Id, live: LiveSet, ghost stack: set<Id>) returns (ok: bool)
    requires objs.Valid() && PresentClosed(objs.objs, live.ids, stack)
    modifies live
    ensures ok ==> Marked(objs.w, objs.objs, old(live.ids), live.ids, stack, id) && NewSound(objs.objs, old(live.ids), live.ids)
    ensures !ok ==> ReachesMalformed(objs.w, objs.objs, id)
    decreases objs.w.rank(id), 1, 0
  {
    if id in live.ids || id !in objs.objs { return true; }
    live.ids := live.ids + {id};
    var links := Objects.Links(objs.objs[id]);
    if links.None? { return false; }
    ok := MarkLinks(objs, id, links.value, live, stack + {id});
  }

  /** The loop over the links of `id`. */
  method MarkLinks(objs: ObjectStore, ghost id: Id, links: seq<Id>, live: LiveSet, ghost stack: set<Id>) returns (ok: bool)
    requires objs.Valid() && id in objs.objs && Objects.Links(objs.objs[id]) == Some(links)
    requires PresentClosed(objs.objs, live.ids, stack)
    modifies live
    ensures ok ==> old(live.ids) <= live.ids <= old(live.ids) + Reachable(objs.w, objs.objs, id) * objs.objs.Keys
    ensures ok ==> PresentClosed(objs.objs, live.ids, stack) && NewSound(objs.objs, old(live.ids), live.ids)
    ensures ok ==> forall l :: l in links && l in objs.objs ==> l in live.ids
    ensures !ok ==> ReachesMalformed(objs.w, objs.objs, id)
    decreases objs.w.rank(id), 0, 1
  {
    ghost var w, u, all := objs.w, objs.objs, Reachable(objs.w, objs.objs, id);
    StoreDescends(w, u);
    for k := 0 to |links|
      invariant old(live.ids) <= live.ids <= old(live.ids) + all * u.Keys
      invariant PresentClosed(u, live.ids, stack) && NewSound(u, old(live.ids), live.ids)
      invariant forall j :: 0 <= j < k && links[j] in u ==> links[j] in live.ids
    {
      ok := MarkLink(objs, id, links[k], live, stack, all);
      if !ok { return false; }
    }
    return true;
  }

  method MarkLink(objs: ObjectStore, ghost id: Id, l: Id, live: LiveSet, ghost stack: set<Id>, ghost all: set<Id>) returns (ok: bool)
    requires objs.Valid() && id in objs.objs && l in Children(objs.objs[id]) && all == Reachable(objs.w, objs.objs, id)
    requires PresentClosed(objs.objs, live.ids, stack)
    modifies live
    ensures ok ==> old(live.ids) <= live.ids <= old(live.ids) + all * objs.objs.Keys
    ensures ok ==> PresentClosed(objs.objs, live.ids, stack) && NewSound(objs.objs, old(live.ids), live.ids)
    ensures ok && l in objs.objs ==> l in live.ids
    ensures !ok ==> ReachesMalformed(objs.w, objs.objs, id)
    decreases objs.w.rank(id), 0, 0
  {
    StoreDescends(objs.w, objs.objs);
    ghost var g := StoreLinks(objs.objs);
    assert l in g[id];
    BelowLink(g, objs.w.rank, id, l);
    ok := Mark(objs, l, live, stack);
  }

  /** What is reachable from some root through present objects. */
  ghost function Live(w: World, objs: Store, roots: seq<Id>): set<Id>
    requires w.Valid() && Intact(w, objs)
  {
    StoreDescends(w, objs);
    BelowAll(StoreLinks(objs), w.rank, roots) * objs.Keys
  }

  method MarkRoots(objs: ObjectStore, roots: seq<Id>, live: LiveSet) returns (ok: bool)
    requires objs.Valid() && live.ids == {}
    modifies live
    ensures ok ==> live.ids == Live(objs.w, objs.objs, roots)
    ensures ok <==> forall x :: x in Live(objs.w, objs.objs, roots) ==> Sound(objs.objs, x)
  {
    StoreDescends(objs.w, objs.objs);
    for k := 0 to |roots|
      invariant live.ids == Live(objs.w, objs.objs, roots[..k])
      invariant PresentClosed(objs.objs, live.ids, {})
      invariant NewSound(objs.objs, {}, live.ids)
    {
      ghost var before := live.ids;
      ok := Mark(objs, roots[k], live, {});
      if !ok {
        assert roots[k] in roots;
        return false;
      }
      MarkedExactly(objs.w, objs.objs, before, live.ids, roots[k]);
      BelowAllPrefix(StoreLinks(objs.objs), objs.w.rank, roots, k);
    }
    assert roots[..|roots|] == roots;
    return true;
  }

  datatype Report = Report(roots: nat, scanned: nat, kept: nat, deleted: nat, deletedIds: seq<Id>)

  function Restrict(objs: Store, keep: set<Id>): Store {
    map id | id in objs && id in keep :: objs[id]
  }

  /** Walk lists every stored object, in no particular order. */
  method Doomed(objs: ObjectStore, live: set<Id>) returns (scanned: nat, doomed: seq<Id>)
    ensures scanned == |objs.objs| && NoDuplicates(doomed) && Elements(doomed) == objs.objs.Keys - live
  {
    scanned, doomed := 0, [];
    var todo := objs.objs.Keys;
    while todo != {}
      invariant todo <= objs.objs.Keys
      invariant scanned + |todo| == |objs.objs.Keys|
      invariant NoDuplicates(doomed)
      invariant forall x :: x in doomed <==> x in objs.objs.Keys - todo && x !in live
    {
      var id :| id in todo;
      scanned := scanned + 1;
      if id !in live { doomed := doomed + [id]; }
      todo := todo - {id};
    }
    assert Elements(doomed) == objs.objs.Keys - live;
  }

  lemma {:induction false} ElementsCount<T>(s: seq<T>)
    requires NoDuplicates(s)
    ensures |Elements(s)| == |s|
  {
    if s != [] {
      ElementsCount(s[1..]);
      assert Elements(s) == {s[0]} + Elements(s[1..]);
    }
  }

  /** Deletes the doomed objects one by one. */
  method Sweep(objs: ObjectStore, doomed: seq<Id>)
    requires objs.Valid()
    modifies objs
    ensures objs.Valid() && objs.objs == Restrict(old(objs.objs), old(objs.objs).Keys - Elements(doomed))
  {
    for k := 0 to |doomed|
      invariant objs.Valid() && objs.objs == Restrict(old(objs.objs), old(objs.objs).Keys - Elements(doomed[..k]))
    {
      ElementsPrefix(doomed, k);
      objs.objs := objs.objs - {doomed[k]};
    }
    assert doomed[..|doomed|] == doomed;
  }

  /** What a collection from `roots` reports about the store `objs`. */
  ghost predicate Reports(w: World, objs: Store, roots: seq<Id>, rep: Report)
    requires w.Valid() && Intact(w, objs)
  {
    var live := Live(w, objs, roots);
    && rep.roots == |roots| && rep.kept == |live|
    && rep.scanned == |objs| == rep.kept + rep.deleted
    && NoDuplicates(rep.deletedIds) && |rep.deletedIds| == rep.deleted
    && Elements(rep.deletedIds) == objs.Keys - live
  }

  /** Marks from the roots and sweeps the rest. */
  method CollectFrom(objs: ObjectStore, roots: seq<Id>, dryRun: bool) returns (rep: Option<Report>)
    requires objs.Valid()
    modifies objs
    ensures objs.Valid()
    ensures rep.Some? <==> forall x :: x in Live(objs.w, old(objs.objs), roots) ==> Sound(old(objs.objs), x)
    ensures rep.None? || dryRun ==> objs.objs == old(objs.objs)
    ensures rep.Some? && !dryRun ==> objs.objs == Restrict(old(objs.objs), Live(objs.w, old(objs.objs), roots))
    ensures rep.Some? ==> Reports(objs.w, old(objs.objs), roots, rep.value)
  {
    var live := new LiveSet();
    var ok := MarkRoots(objs, roots, live);
    if !ok { return None; }
    var scanned, doomed := Doomed(objs, live.ids);
    ElementsCount(doomed);
    SplitCount(objs.objs.Keys, live.ids);
    if !dryRun {
      assert objs.objs.Keys - (objs.objs.Keys - live.ids) == live.ids;
      Sweep(objs, doomed);
    }
    return Some(Report(|roots|, scanned, |live.ids|, |doomed|, doomed));
  }

  lemma SplitCount<T>(all: set<T>, part: set<T>)
    requires part <= all
    ensures |all| == |all - part| + |part|
  {
    assert all == (all - part) + part;
  }

  /** Collect: None is a read error, and then nothing is deleted. */
  method Collect(objs: ObjectStore, r: RootSource, now: int, dryRun: bool) returns (rep: Option<Report>, ghost roots: seq<Id>)
    requires objs.Valid()
    modifies objs
    ensures objs.Valid() && forall id :: id in roots <==> IsRoot(r, now, id)
    ensures rep.Some? <==> forall x :: x in Live(objs.w, old(objs.objs), roots) ==> Sound(old(objs.objs), x)
    ensures rep.None? || dryRun ==> objs.objs == old(objs.objs)
    ensures rep.Some? && !dryRun ==> objs.objs == Restrict(old(objs.objs), Live(objs.w, old(objs.objs), roots))
    ensures rep.Some? ==> Reports(objs.w, old(objs.objs), roots, rep.value)
  {
    var rs := CollectRoots(r, now);
    roots := rs;
    rep := CollectFrom(objs, rs, dryRun);
  }

  // ----- a second collection -----

  lemma {:induction false} SweptReachable(w: World, objs: Store, keep: set<Id>, a: Id, b: Id)
    requires w.Valid() && Intact(w, objs) && PresentClosed(objs, keep, {}) && keep <= objs.Keys
    requires a in objs ==> a in keep
    ensures b in Reachable(w, Restrict(objs, keep), a) <==> b in Reachable(w, objs, a)
    decreases w.rank(a)
  {
    var swept := Restrict(objs, keep);
    StoreDescends(w, objs);
    StoreDescends(w, swept);
    assert Out(StoreLinks(swept), a) == Out(StoreLinks(objs), a);
    forall c | c in Out(StoreLinks(objs), a) ensures b in Reachable(w, swept, c) <==> b in Reachable(w, objs, c) {
      assert c in StoreLinks(objs)[a];
      SweptReachable(w, objs, keep, c, b);
    }
  }

  lemma LiveLink(w: World, objs: Store, roots: seq<Id>, x: Id, y: Id)
    requires w.Valid() && Intact(w, objs)
    requires x in Live(w, objs, roots) && y in Out(StoreLinks(objs), x) && y in objs
    ensures y in Live(w, objs, roots)
  {
    StoreDescends(w, objs);
    var r :| r in roots && x in Below(StoreLinks(objs), w.rank, r);
    BelowClosed(StoreLinks(objs), w.rank, r);
    assert y in Below(StoreLinks(objs), w.rank, r);
  }

  lemma LiveIsClosed(w: World, objs: Store, roots: seq<Id>)
    requires w.Valid() && Intact(w, objs)
    ensures PresentClosed(objs, Live(w, objs, roots), {})
  {
    forall x, y | x in Live(w, objs, roots) && y in Out(StoreLinks(objs), x) && y in objs ensures y in Live(w, objs, roots) {
      LiveLink(w, objs, roots, x, y);
    }
  }

  /** Collecting again from the same roots finds everything live. */
  lemma CollectTwice(w: World, objs: Store, roots: seq<Id>)
    requires w.Valid() && Intact(w, objs)
    ensures var swept := Restrict(objs, Live(w, objs, roots));
            Live(w, swept, roots) == swept.Keys
  {
    var keep := Live(w, objs, roots);
    var swept := Restrict(objs, keep);
    StoreDescends(w, objs);
    StoreDescends(w, swept);
    LiveIsClosed(w, objs, roots);
    forall x | x in swept ensures x in Live(w, swept, roots) {
      var r :| r in roots && x in Below(StoreLinks(objs), w.rank, r);
      if r in objs { assert r in keep; }
      SweptReachable(w, objs, keep, r, x);
    }
  }

  lemma SameRootsLive(w: World, objs: Store, xs: seq<Id>, ys: seq<Id>)
    requires w.Valid() && Intact(w, objs) && forall id :: id in xs <==> id in ys
    ensures Live(w, objs, xs) == Live(w, objs, ys)
  {
  }

  /** What is left after a collection is live again, and readable. */
  lemma LeftIsLive(w: World, objs: Store, swept: Store, roots: seq<Id>, again: seq<Id>)
    requires w.Valid() && Intact(w, objs) && Intact(w, swept) && swept == Restrict(objs, Live(w, objs, roots))
    requires forall x :: x in Live(w, objs, roots) ==> Sound(objs, x)
    requires forall id :: id in roots <==> id in again
    ensures Live(w, swept, again) == swept.Keys && swept.Keys == Live(w, objs, roots)
    ensures forall x :: x in Live(w, swept, again) ==> Sound(swept, x)
  {
    CollectTwice(w, objs, roots);
    SameRootsLive(w, swept, roots, again);
    SweptKeys(objs, Live(w, objs, roots));
  }

  lemma SweptKeys(objs: Store, keep: set<Id>)
    requires keep <= objs.Keys
    ensures Restrict(objs, keep).Keys == keep
  {
  }

  lemma NothingToReport(w: World, swept: Store, roots: seq<Id>, rep: Report)
    requires w.Valid() && Intact(w, swept) && Reports(w, swept, roots, rep) && Live(w, swept, roots) == swept.Keys
    ensures rep.deleted == 0 && rep.deletedIds == [] && rep.scanned == rep.kept == |swept| == |swept.Keys|
    ensures Restrict(swept, Live(w, swept, roots)) == swept
  {
    assert Restrict(swept, swept.Keys) == swept;
    ElementsCount(rep.deletedIds);
  }

  /** Two collections as run: the second deletes nothing, and it fails only if the first did. */
  method CollectAgain(objs: ObjectStore, r: RootSource, now: int) returns (first: Option<Report>, second: Option<Report>)
    requires objs.Valid()
    modifies objs
    ensures objs.Valid() && (first.Some? ==> second.Some?)
    ensures first.None? ==> objs.objs == old(objs.objs)
    ensures first.Some? ==> second.value.deleted == 0 && second.value.deletedIds == []
                            && second.value.scanned == second.value.kept == first.value.kept == |objs.objs|
  {
    ghost var w, u := objs.w, objs.objs;
    ghost var roots, again;
    first, roots := Collect(objs, r, now, false);
    if first.None? { return first, None; }
    ghost var swept := objs.objs;
    second, again := Collect(objs, r, now, false);
    LeftIsLive(w, u, swept, roots, again);
    NothingToReport(w, swept, again, second.value);
  }
}
