/**
  What a recorded merge says in varvig/internal/merge/merge.go, and merging again: both
  sides are the best bases of the merge with them, and a second merge changes nothing.
 */
module Remerge {
  import opened Basics
  import opened Objects
  import opened Graph
  import opened Orders
  import opened MergeBases
  import opened Trees
  import opened TreeLaws
  import opened MergeDriver
  import opened PathLaws
  import opened ChangeMerge
  import opened MergeLaws
  import opened CrissCross

  // ----- what is recorded -----

  /** A merge change has both sides as its parents, the merged tree, no intent of its own, and the intent theirs fulfills. */
  lemma RecordedChange(u: Store, tree: Id, ours: Id, theirs: Id)
    ensures var c := MergeChange(tree, ours, theirs, ChangeFulfills(u, theirs));
            && (forall p :: p in c.parents <==> p == ours || p == theirs)
            && c.tree == Some(tree) && c.message == Ascii("merge") && c.timestamp == 0 && c.author == []
            && c.provenance == None && c.artifacts == []
            && (forall f :: c.fulfills == Some(f) <==>
                  f != [] && theirs in u && u[theirs].ChangeObj? && u[theirs].change.fulfills == Some(f))
  {
    SortedUniqueIsAscending([ours, theirs]);
    forall p ensures p in SortedUnique([ours, theirs]) <==> p == ours || p == theirs {
      assert p in Elements(SortedUnique([ours, theirs])) <==> p in Elements([ours, theirs]);
    }
  }

  /** A conflict is regenerated only from the intent the incoming change records, which is handed on with the three contents. */
  lemma RegeneratesIntent(u: Store, reg: Option<Regenerator>, theirs: Id, p: Path, base: Bytes, o: Bytes, t: Bytes)
    ensures var regen := RegenFor(reg, ChangeIntent(u, theirs));
            && (regen.Some? <==> reg.Some? && exists v, body :: RecordsIntent(u, theirs, v, body))
            && (forall v, body :: reg.Some? && RecordsIntent(u, theirs, v, body) ==> regen.value(p, base, o, t) == reg.value(body, p, base, o, t))
  {
    if ChangeIntent(u, theirs).Some? {
      assert RecordsIntent(u, theirs, u[theirs].change.provenance.value, ChangeIntent(u, theirs).value);
    }
  }

  /** The change names a stored provenance object, which reads `body`. */
  predicate RecordsIntent(u: Store, id: Id, v: Id, body: Bytes) {
    && id in u && u[id].ChangeObj? && u[id].change.provenance == Some(v) && v != []
    && v in u && u[v] == ProvenanceObj(body)
  }

  /** The path was in one of the three maps and has become this. */
  ghost predicate Turned(w: World, u: Store, regen: Option<Regenerate>, s: Sides, p: Path, how: How) {
    Becomes(w, u, regen, Inputs(s.base, s.ours, s.theirs), p, how)
  }

  /** A merge lists every path under what became of it; it names a base exactly if there is one best base; and it records a change exactly if no path conflicts. */
  lemma MergeReports(w: World, u: Store, g: Links, regen: Option<Regenerate>, ours: Id, theirs: Id, r: MergeResult, s: Sides, p: Path)
    requires w.Valid() && Intact(w, u) && Descends(g, w.rank) && TreeMerged(w, u, g, regen, ours, theirs, r) && r.Done?
    requires MergeSides(w, u, g, ours, theirs) == Some(s)
    ensures p in r.clean <==> Turned(w, u, regen, s, p, Clean)
    ensures p in r.textMerged <==> Turned(w, u, regen, s, p, Text)
    ensures p in r.regenerated <==> Turned(w, u, regen, s, p, Regenerated)
    ensures p in r.conflicts <==> Turned(w, u, regen, s, p, Conflicted)
    ensures forall c :: r.base == Some(c) <==> BasesOf(g, w.rank, ours, theirs) == [c]
    ensures r.conflicts == [] <==> NoConflict(w, u, regen, s.base, s.ours, s.theirs)
  {
    ListsReport(w, u, regen, s, r.clean, r.textMerged, r.regenerated, r.conflicts, p);
  }

  lemma ListsReport(w: World, u: Store, regen: Option<Regenerate>, s: Sides, clean: seq<Path>, text: seq<Path>, regenerated: seq<Path>, conflicts: seq<Path>, p: Path)
    requires Lists(clean, text, regenerated, conflicts) == SideLists(w, u, regen, s)
    ensures p in clean <==> Turned(w, u, regen, s, p, Clean)
    ensures p in text <==> Turned(w, u, regen, s, p, Text)
    ensures p in regenerated <==> Turned(w, u, regen, s, p, Regenerated)
    ensures p in conflicts <==> Turned(w, u, regen, s, p, Conflicted)
    ensures conflicts == [] <==> NoConflict(w, u, regen, s.base, s.ours, s.theirs)
  {
    var ps := SortedSet(AllPaths(s.base, s.ours, s.theirs));
    ListsBecome(w, u, regen, Inputs(s.base, s.ours, s.theirs), ps, p);
    NoneListed(w, u, regen, s.base, s.ours, s.theirs, ps);
  }

  // ----- the bases of a merge and its sides -----

  /** The change id a finished merge recorded. */
  ghost predicate Recorded(r: MergeResult) {
    r.Done? && r.change.Some?
  }

  lemma ReachesSides(w: World, u: Store, m: Id, tree: Id, ours: Id, theirs: Id, fulfills: Option<Id>)
    requires w.Valid() && Intact(w, u)
    requires m in u && u[m] == ChangeObj(MergeChange(tree, ours, theirs, fulfills))
    ensures ours != [] ==> Reaches(History(w, u), w.rank, m, ours)
    ensures theirs != [] ==> Reaches(History(w, u), w.rank, m, theirs)
  {
    SortedUniqueIsAscending([ours, theirs]);
    var ps := SortedUnique([ours, theirs]);
    assert ours in Elements([ours, theirs]) && theirs in Elements([ours, theirs]);
    assert ours in Elements(ps) && theirs in Elements(ps);
    AncestorsThroughParents(w, u, m, ours);
    AncestorsThroughParents(w, u, m, theirs);
  }

  /** A merge and, if it was recorded, the best bases of the merge change with either side. */
  method MergeThenBases(objs: ObjectStore, ours: Id, theirs: Id, reg: Option<Regenerator>)
    returns (r: MergeResult, oursBases: seq<Id>, theirsBases: seq<Id>)
    requires objs.Valid()
    modifies objs
    ensures objs.Valid()
    ensures Recorded(r) && ours != [] ==> oursBases == [ours]
    ensures Recorded(r) && theirs != [] ==> theirsBases == [theirs]
  {
    ghost var mid;
    ghost var u := objs.objs;
    r, mid := MergeChanges(objs, ours, theirs, reg);
    if !r.Done? || r.change.None? { return r, [], []; }
    var m := r.change.value;
    ReachesSides(objs.w, objs.objs, m, r.tree, ours, theirs, ChangeFulfills(u, theirs));
    oursBases := FindMergeBases(objs, Some(m), Some(ours));
    theirsBases := FindMergeBases(objs, Some(m), Some(theirs));
    if ours != [] { BestOfAncestor(History(objs.w, objs.objs), objs.w.rank, m, ours, oursBases); }
    if theirs != [] { BestOfAncestor(History(objs.w, objs.objs), objs.w.rank, m, theirs, theirsBases); }
  }

  // ----- merging once more -----

  /** The change has no path that starts with a slash, if it can be read at all. */
  ghost predicate PlainPaths(w: World, u: Store, id: Id)
    requires w.Valid() && Intact(w, u)
  {
    ChangeFiles(w, u, id).Some? ==> NoLeadingSlash(ChangeFiles(w, u, id).value)
  }

  lemma ChangeFilesGrow(w: World, u: Store, v: Store, id: Id)
    requires w.Valid() && Intact(w, u) && Intact(w, v) && Grows(u, v) && ChangeFiles(w, u, id).Some?
    ensures ChangeFiles(w, v, id) == ChangeFiles(w, u, id)
  {
    TreeOfGrows(u, v, id);
    MergeDriver.FlatGrows(w, u, v, TreeOf(u, id).value);
  }

  /** The recorded change has exactly the merged files. */
  lemma MergedChangeReads(w: World, u: Store, v: Store, g: Links, regen: Option<Regenerate>, ours: Id, theirs: Id,
                          r: MergeResult, m: Id, fulfills: Option<Id>) returns (files: Files)
    requires w.Valid() && Intact(w, u) && Intact(w, v) && Grows(u, v) && Descends(g, w.rank)
    requires TreeMerged(w, u, g, regen, ours, theirs, r) && r.Done?
    requires m in v && v[m] == ChangeObj(MergeChange(r.tree, ours, theirs, fulfills))
    requires PlainPaths(w, u, ours) && PlainPaths(w, u, theirs)
    ensures MergedChange(w, u, g, regen, ours, theirs) == Some(files) && r.tree == BuildId(w, files)
    ensures ChangeFiles(w, v, m) == Some(files) && ChangeFiles(w, v, theirs).Some? && PrefixFree(files)
  {
    files := MergedChange(w, u, g, regen, ours, theirs).value;
    var s := MergeSides(w, u, g, ours, theirs).value;
    ChangeFilesGrow(w, u, v, ours);
    ChangeFilesGrow(w, u, v, theirs);
    MergedIsPlain(w, u, regen, s.base, s.ours, s.theirs);
    BuiltGrows(w, u, v, files);
    FlattenUndoesBuild(w, v, files);
  }

  lemma OutcomeOverTheirs(w: World, u: Store, regen: Option<Regenerate>, o: Files, t: Files, p: Path)
    ensures OutcomeAt(w, u, regen, t, o, t, p).Some? && OutcomeAt(w, u, regen, t, o, t, p).value.file == Get(o, p)
    ensures OutcomeAt(w, u, regen, t, o, t, p).value.how != Conflicted
  {
  }

  /** Over theirs as the base, a merge keeps ours as it is, modes included. */
  lemma MergedOverTheirs(w: World, u: Store, regen: Option<Regenerate>, o: Files, t: Files)
    ensures Readable(w, u, regen, t, o, t, AllPaths(t, o, t)) && NoConflict(w, u, regen, t, o, t)
    ensures MergedFiles(w, u, regen, t, o, t) == o
  {
    var m := MergedFiles(w, u, regen, t, o, t);
    forall p
      ensures OutcomeAt(w, u, regen, t, o, t, p).Some? && !Is(w, u, regen, t, o, t, p, Conflicted)
      ensures p in AllPaths(t, o, t) ==> Get(m, p) == Get(o, p)
    {
      OutcomeOverTheirs(w, u, regen, o, t, p);
    }
    SameFiles(m, o, AllPaths(t, o, t));
  }

  lemma SameFiles(x: Files, y: Files, ps: set<Path>)
    requires x.Keys <= ps && y.Keys <= ps && forall p :: p in ps ==> Get(x, p) == Get(y, p)
    ensures x == y
  {
    forall p ensures (p in x <==> p in y) && (p in x ==> x[p] == y[p]) {
      if p in ps { assert Get(x, p) == Get(y, p); }
      assert p in x <==> p in x.Keys;
      assert p in y <==> p in y.Keys;
    }
  }

  lemma RemergeKeeps(w: World, u: Store, g: Links, regen: Option<Regenerate>, m: Id, theirs: Id, files: Files, r: MergeResult)
    requires w.Valid() && Intact(w, u) && Descends(g, w.rank) && Reaches(g, w.rank, m, theirs)
    requires ChangeFiles(w, u, m) == Some(files) && ChangeFiles(w, u, theirs).Some? && PrefixFree(files)
    requires TreeMerged(w, u, g, regen, m, theirs, r)
    ensures r.Done? && r.tree == BuildId(w, files) && r.conflicts == [] && r.base == Some(theirs)
  {
    BestOfAncestor(g, w.rank, m, theirs, BasesOf(g, w.rank, m, theirs));
    var t := ChangeFiles(w, u, theirs).value;
    assert MergeSides(w, u, g, m, theirs) == Some(Sides(t, files, t));
    MergedOverTheirs(w, u, regen, files, t);
    NoneListed(w, u, regen, t, files, t, SortedSet(AllPaths(t, files, t)));
  }

  /** Merging theirs once more into the recorded merge: the same tree, no conflict, theirs as the only base. */
  method MergeAgain(objs: ObjectStore, ours: Id, theirs: Id, reg: Option<Regenerator>) returns (first: MergeResult, second: MergeResult)
    requires objs.Valid()
    modifies objs
    ensures objs.Valid() && Grows(old(objs.objs), objs.objs)
    ensures Recorded(first) && theirs != [] && PlainPaths(objs.w, objs.objs, ours) && PlainPaths(objs.w, objs.objs, theirs) ==>
              second.Done? && second.tree == first.tree && second.conflicts == [] && second.base == Some(theirs)
  {
    ghost var mid, mid', w, u := objs.objs, objs.objs, objs.w, objs.objs;
    first, mid := MergeChanges(objs, ours, theirs, reg);
    if !first.Done? || first.change.None? { return first, Failed; }
    var m := first.change.value;
    ghost var recorded := objs.objs;
    ReachesSides(w, recorded, m, first.tree, ours, theirs, ChangeFulfills(u, theirs));
    second, mid' := MergeChanges(objs, m, theirs, reg);
    if theirs != [] && PlainPaths(w, objs.objs, ours) && PlainPaths(w, objs.objs, theirs) {
      PlainBefore(w, mid, objs.objs, ours);
      PlainBefore(w, mid, objs.objs, theirs);
      ghost var files := MergedChangeReads(w, mid, mid', History(w, u), RegenFor(reg, ChangeIntent(u, theirs)), ours, theirs,
                                           first, m, ChangeFulfills(u, theirs));
      RemergeKeeps(w, mid', History(w, recorded), RegenFor(reg, ChangeIntent(recorded, theirs)), m, theirs, files, second);
    }
  }

  lemma PlainBefore(w: World, u: Store, v: Store, id: Id)
    requires w.Valid() && Intact(w, u) && Intact(w, v) && Grows(u, v) && PlainPaths(w, v, id)
    ensures PlainPaths(w, u, id)
  {
    if ChangeFiles(w, u, id).Some? { ChangeFilesGrow(w, u, v, id); }
  }
}
