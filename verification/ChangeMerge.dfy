/**
  varvig/internal/merge/merge.go: the virtual base of several best ancestors and the
  merge of two changes. Results are read in the store the merge leaves behind.
 */
module ChangeMerge {
  import opened Basics
  import opened Objects
  import opened Graph
  import opened Orders
  import opened MergeBases
  import opened Trees
  import opened MergeDriver

  /** treeOf: a change's tree (which may be nil), or the id itself if it is no change; no tree for a nil id; None is an error. */
  function TreeOf(u: Store, id: Id): Option<Option<Id>> {
    if id == [] then Some(None)
    else if id !in u || u[id].Undecodable? || u[id].BadView? then None
    else if u[id].ChangeObj? then Some(u[id].change.tree)
    else Some(Some(id))
  }

  ghost function TreeFiles(w: World, u: Store, tree: Option<Option<Id>>): Option<Files>
    requires w.Valid() && Intact(w, u)
  {
    if tree.None? then None else Flat(w, u, tree.value)
  }

  ghost function ChangeFiles(w: World, u: Store, id: Id): Option<Files>
    requires w.Valid() && Intact(w, u)
  {
    TreeFiles(w, u, TreeOf(u, id))
  }

  /** One merge inside the virtual base: no regeneration, markers stay in the result. */
  ghost function MergeStep(w: World, u: Store, b: Option<Files>, o: Option<Files>, t: Option<Files>): Option<Files>
    requires w.Valid() && Intact(w, u)
  {
    if b.None? || o.None? || t.None? then None
    else if !Readable(w, u, None, b.value, o.value, t.value, AllPaths(b.value, o.value, t.value)) then None
    else
      var m := MergedFiles(w, u, None, b.value, o.value, t.value);
      if PrefixFree(m) then Flat(w, u, Some(BuildId(w, m))) else None
  }

  /** The best bases as a list. */
  ghost function BasesOf(g: Links, rank: Id -> nat, a: Id, b: Id): (s: seq<Id>)
    requires Descends(g, rank)
    ensures IsMergeBases(g, rank, a, b, s)
  {
    SortedSet(Best(g, rank, a, b))
  }

  /** How deep the recursion can still go. */
  ghost function Depth(rank: Id -> nat, bases: seq<Id>): nat {
    if |bases| < 2 then 0 else rank(bases[0]) + 1
  }

  /** The recursion on the bases of the first two bases always goes to older changes. */
  lemma DepthFalls(g: Links, rank: Id -> nat, bases: seq<Id>)
    requires Descends(g, rank) && |bases| >= 2
    ensures Depth(rank, BasesOf(g, rank, bases[0], bases[1])) < Depth(rank, bases)
  {
    var s := BasesOf(g, rank, bases[0], bases[1]);
    if |s| >= 2 { SeveralBasesAreOlder(g, rank, bases[0], bases[1], s); }
  }

  /** The files of the base tree for a list of bases, `g` being the history; None is an error or a panic. */
  ghost function VirtualFiles(w: World, u: Store, g: Links, bases: seq<Id>): Option<Files>
    requires w.Valid() && Intact(w, u) && Descends(g, w.rank)
    decreases Depth(w.rank, bases), 1, 0
  {
    if |bases| == 0 then Some(map[])
    else if |bases| == 1 then ChangeFiles(w, u, bases[0])
    else FoldBases(w, u, g, bases, 1, ChangeFiles(w, u, bases[0]))
  }

  /** The bases from `i` on merged into the accumulated files. */
  ghost function FoldBases(w: World, u: Store, g: Links, bases: seq<Id>, i: nat, acc: Option<Files>): Option<Files>
    requires w.Valid() && Intact(w, u) && Descends(g, w.rank) && |bases| >= 2 && 1 <= i <= |bases|
    decreases Depth(w.rank, bases), 0, |bases| - i
  {
    if i == |bases| then acc
    else
      DepthFalls(g, w.rank, bases);
      var sub := if i == 1 then VirtualFiles(w, u, g, BasesOf(g, w.rank, bases[0], bases[1])) else Some(map[]);
      FoldBases(w, u, g, bases, i + 1, MergeStep(w, u, sub, acc, ChangeFiles(w, u, bases[i])))
  }

  lemma {:induction false} FoldOfNothing(w: World, u: Store, g: Links, bases: seq<Id>, i: nat)
    requires w.Valid() && Intact(w, u) && Descends(g, w.rank) && |bases| >= 2 && 1 <= i <= |bases|
    ensures FoldBases(w, u, g, bases, i, None).None?
    decreases |bases| - i
  {
    if i < |bases| { FoldOfNothing(w, u, g, bases, i + 1); }
  }

  lemma TreeOfGrows(u: Store, v: Store, id: Id)
    requires Grows(u, v) && TreeOf(u, id).Some?
    ensures TreeOf(v, id) == TreeOf(u, id)
  {
  }

  lemma StepOfMerge(w: World, u: Store, v: Store, base: Option<Id>, ours: Option<Id>, theirs: Option<Id>, r: TreeMerge)
    requires w.Valid() && Intact(w, u) && Intact(w, v) && Grows(u, v)
    requires TreesMerged(w, u, None, base, ours, theirs, r)
    ensures r.Merge? ==> MergeStep(w, v, Flat(w, v, base), Flat(w, v, ours), Flat(w, v, theirs)) == Flat(w, v, Some(r.tree))
    ensures !r.Merge? ==> MergeStep(w, u, Flat(w, u, base), Flat(w, u, ours), Flat(w, u, theirs)).None?
  {
    if r.Merge? {
      MergeDriver.FlatGrows(w, u, v, base);
      MergeDriver.FlatGrows(w, u, v, ours);
      MergeDriver.FlatGrows(w, u, v, theirs);
      var b, o, t := Flat(w, u, base).value, Flat(w, u, ours).value, Flat(w, u, theirs).value;
      MergedOnGrows(w, u, v, None, b, o, t, AllPaths(b, o, t));
    }
  }

  /** The store `u` settles the bases at `i`: whatever it grows into, `acc` holds the fold so far. */
  ghost predicate Settled(w: World, u: Store, g: Links, bases: seq<Id>, i: nat, acc: Option<Id>)
    requires w.Valid() && Descends(g, w.rank) && |bases| >= 2 && 1 <= i <= |bases|
  {
    forall v :: Intact(w, v) && Grows(u, v) ==>
                  VirtualFiles(w, v, g, bases) == FoldBases(w, v, g, bases, i, Flat(w, v, acc))
  }

  /** The answer `r` is right in `u` and stays right as the store grows. */
  ghost predicate BaseFound(w: World, u: Store, g: Links, bases: seq<Id>, r: Option<Option<Id>>)
    requires w.Valid() && Intact(w, u) && Descends(g, w.rank)
  {
    && (r.None? ==> VirtualFiles(w, u, g, bases).None?)
    && (r.Some? ==> forall v :: Intact(w, v) && Grows(u, v) ==> VirtualFiles(w, v, g, bases) == Flat(w, v, r.value))
  }

  /** One more base, as seen in a store `v` grown from `u`. */
  lemma StepIn(w: World, u: Store, v: Store, g: Links, bases: seq<Id>, i: nat,
               acc: Option<Id>, sub: Option<Id>, tree: Option<Id>)
    requires w.Valid() && Intact(w, v) && Grows(u, v) && Descends(g, w.rank)
    requires |bases| >= 2 && 1 <= i < |bases| && VirtualFiles(w, v, g, bases) == FoldBases(w, v, g, bases, i, Flat(w, v, acc))
    requires i == 1 ==> VirtualFiles(w, v, g, BasesOf(g, w.rank, bases[0], bases[1])) == Flat(w, v, sub)
    requires i > 1 ==> sub == None
    requires TreeOf(u, bases[i]) == Some(tree)
    ensures VirtualFiles(w, v, g, bases)
            == FoldBases(w, v, g, bases, i + 1, MergeStep(w, v, Flat(w, v, sub), Flat(w, v, acc), Flat(w, v, tree)))
  {
    TreeOfGrows(u, v, bases[i]);
    DepthFalls(g, w.rank, bases);
  }

  lemma StepMerged(w: World, u: Store, u': Store, g: Links, bases: seq<Id>, i: nat,
                   acc: Option<Id>, sub: Option<Id>, tree: Option<Id>, r: TreeMerge)
    requires w.Valid() && Intact(w, u) && Intact(w, u') && Grows(u, u') && Descends(g, w.rank)
    requires |bases| >= 2 && 1 <= i < |bases| && Settled(w, u, g, bases, i, acc)
    requires i == 1 ==> BaseFound(w, u, g, BasesOf(g, w.rank, bases[0], bases[1]), Some(sub))
    requires i > 1 ==> sub == None
    requires TreeOf(u, bases[i]) == Some(tree)
    requires TreesMerged(w, u', None, sub, acc, tree, r) && r.Merge?
    ensures Settled(w, u', g, bases, i + 1, Some(r.tree))
  {
    forall v | Intact(w, v) && Grows(u', v)
      ensures VirtualFiles(w, v, g, bases) == FoldBases(w, v, g, bases, i + 1, Flat(w, v, Some(r.tree)))
    {
      assert Grows(u, v);
      StepIn(w, u, v, g, bases, i, acc, sub, tree);
      StepOfMerge(w, u', v, sub, acc, tree, r);
    }
  }

  lemma SettledIn(w: World, u: Store, v: Store, g: Links, bases: seq<Id>, i: nat, acc: Option<Id>)
    requires w.Valid() && Intact(w, v) && Grows(u, v) && Descends(g, w.rank)
    requires |bases| >= 2 && 1 <= i <= |bases| && Settled(w, u, g, bases, i, acc)
    ensures VirtualFiles(w, v, g, bases) == FoldBases(w, v, g, bases, i, Flat(w, v, acc))
  {
  }

  lemma BaseIn(w: World, u: Store, v: Store, g: Links, bases: seq<Id>, base: Option<Id>)
    requires w.Valid() && Intact(w, u) && Intact(w, v) && Grows(u, v) && Descends(g, w.rank) && BaseFound(w, u, g, bases, Some(base))
    ensures VirtualFiles(w, v, g, bases) == Flat(w, v, base)
  {
  }

  lemma FailedFold(w: World, v: Store, g: Links, bases: seq<Id>, i: nat, merged: Option<Files>)
    requires w.Valid() && Intact(w, v) && Descends(g, w.rank) && |bases| >= 2 && 1 <= i <= |bases|
    requires merged == None && VirtualFiles(w, v, g, bases) == FoldBases(w, v, g, bases, i, merged)
    ensures VirtualFiles(w, v, g, bases).None?
  {
    FoldOfNothing(w, v, g, bases, i);
  }

  lemma StepFailed(w: World, u: Store, v: Store, g: Links, bases: seq<Id>, i: nat, acc: Option<Id>, sub: Option<Id>, tree: Option<Id>)
    requires w.Valid() && Intact(w, v) && Grows(u, v) && Descends(g, w.rank)
    requires |bases| >= 2 && 1 <= i < |bases| && VirtualFiles(w, v, g, bases) == FoldBases(w, v, g, bases, i, Flat(w, v, acc))
    requires i == 1 ==> VirtualFiles(w, v, g, BasesOf(g, w.rank, bases[0], bases[1])) == Flat(w, v, sub)
    requires i > 1 ==> sub == None
    requires TreeOf(u, bases[i]) == Some(tree)
    requires MergeStep(w, v, Flat(w, v, sub), Flat(w, v, acc), Flat(w, v, tree)) == None
    ensures VirtualFiles(w, v, g, bases).None?
  {
    StepIn(w, u, v, g, bases, i, acc, sub, tree);
    FailedFold(w, v, g, bases, i + 1, MergeStep(w, v, Flat(w, v, sub), Flat(w, v, acc), Flat(w, v, tree)));
  }

  lemma HistoryKept(w: World, u: Store, v: Store)
    requires w.Valid() && Intact(w, u) && Intact(w, v) && AddsFiles(u, v)
    ensures History(w, v) == History(w, u)
  {
  }

  method VirtualBaseTree(objs: ObjectStore, bases: seq<Id>) returns (r: Option<Option<Id>>)
    requires objs.Valid()
    modifies objs
    ensures objs.Valid() && AddsFiles(old(objs.objs), objs.objs)
    ensures BaseFound(objs.w, objs.objs, History(objs.w, old(objs.objs)), bases, r)
    decreases Depth(objs.w.rank, bases), 1, 0
  {
    if |bases| == 0 { return Some(None); }
    if |bases| == 1 {
      r := TreeOf(objs.objs, bases[0]);
      return;
    }
    var acc := TreeOf(objs.objs, bases[0]);
    if acc.None? {
      FoldOfNothing(objs.w, objs.objs, History(objs.w, objs.objs), bases, 1);
      return None;
    }
    forall v | Intact(objs.w, v) && Grows(objs.objs, v) ensures TreeOf(v, bases[0]) == acc { TreeOfGrows(objs.objs, v, bases[0]); }
    r := FoldTrees(objs, bases, acc.value);
  }

  /** The virtual base of the first two bases' own merge bases. */
  method SubBase(objs: ObjectStore, bases: seq<Id>) returns (r: Option<Option<Id>>)
    requires objs.Valid() && |bases| >= 2
    modifies objs
    ensures objs.Valid() && AddsFiles(old(objs.objs), objs.objs)
    ensures BaseFound(objs.w, objs.objs, History(objs.w, old(objs.objs)),
                      BasesOf(History(objs.w, old(objs.objs)), objs.w.rank, bases[0], bases[1]), r)
    decreases Depth(objs.w.rank, bases), 0, 0
  {
    ghost var g := History(objs.w, objs.objs);
    DepthFalls(g, objs.w.rank, bases);
    var inner := FindMergeBases(objs, Some(bases[0]), Some(bases[1]));
    LessIsStrictTotal();
    AscendingUnique(Less, inner, BasesOf(g, objs.w.rank, bases[0], bases[1]));
    r := VirtualBaseTree(objs, inner);
  }

  /** One turn of the loop: base `i` merged into the accumulated tree. */
  method FoldTree(objs: ObjectStore, bases: seq<Id>, i: nat, accTree: Option<Id>, subBase: Option<Id>, ghost g: Links)
    returns (r: Option<Id>)
    requires objs.Valid() && Descends(g, objs.w.rank) && |bases| >= 2 && 1 <= i < |bases|
    requires Settled(objs.w, objs.objs, g, bases, i, accTree)
    requires i == 1 ==> BaseFound(objs.w, objs.objs, g, BasesOf(g, objs.w.rank, bases[0], bases[1]), Some(subBase))
    requires i > 1 ==> subBase == None
    modifies objs
    ensures objs.Valid() && AddsFiles(old(objs.objs), objs.objs)
    ensures r.Some? ==> Settled(objs.w, objs.objs, g, bases, i + 1, r)
    ensures r.None? ==> VirtualFiles(objs.w, objs.objs, g, bases).None?
  {
    var biTree := TreeOf(objs.objs, bases[i]);
    if biTree.None? {
      FoldOfNothing(objs.w, objs.objs, g, bases, i + 1);
      return None;
    }
    ghost var u := objs.objs;
    var mt := MergeTrees(objs, subBase, accTree, biTree.value, None);
    if !mt.Merge? {
      StepOfMerge(objs.w, objs.objs, objs.objs, subBase, accTree, biTree.value, mt);
      SettledIn(objs.w, u, objs.objs, g, bases, i, accTree);
      if i == 1 { BaseIn(objs.w, u, objs.objs, g, BasesOf(g, objs.w.rank, bases[0], bases[1]), subBase); }
      StepFailed(objs.w, u, objs.objs, g, bases, i, accTree, subBase, biTree.value);
      return None;
    }
    StepMerged(objs.w, u, objs.objs, g, bases, i, accTree, subBase, biTree.value, mt);
    return Some(mt.tree);
  }

  lemma SettledGrows(w: World, u: Store, v: Store, g: Links, bases: seq<Id>, i: nat, acc: Option<Id>)
    requires w.Valid() && Descends(g, w.rank) && |bases| >= 2 && 1 <= i <= |bases|
    requires Settled(w, u, g, bases, i, acc) && Grows(u, v)
    ensures Settled(w, v, g, bases, i, acc)
  {
  }

  lemma NoSubBase(w: World, u: Store, v: Store, g: Links, bases: seq<Id>, acc: Option<Id>)
    requires w.Valid() && Intact(w, v) && Grows(u, v) && Descends(g, w.rank) && |bases| >= 2
    requires Settled(w, u, g, bases, 1, acc)
    requires BaseFound(w, v, g, BasesOf(g, w.rank, bases[0], bases[1]), None)
    ensures VirtualFiles(w, v, g, bases).None?
  {
    FoldOfNothing(w, v, g, bases, 2);
  }

  /** The first turn's base: the virtual base of the first two. */
  method FirstBase(objs: ObjectStore, bases: seq<Id>, ghost acc: Option<Id>) returns (r: Option<Option<Id>>)
    requires objs.Valid() && |bases| >= 2
    requires Settled(objs.w, objs.objs, History(objs.w, objs.objs), bases, 1, acc)
    modifies objs
    ensures objs.Valid() && AddsFiles(old(objs.objs), objs.objs)
    ensures var g := History(objs.w, old(objs.objs));
            if r.None? then VirtualFiles(objs.w, objs.objs, g, bases).None?
            else Settled(objs.w, objs.objs, g, bases, 1, acc) && BaseFound(objs.w, objs.objs, g, BasesOf(g, objs.w.rank, bases[0], bases[1]), r)
    decreases Depth(objs.w.rank, bases), 0, 1
  {
    ghost var g, before := History(objs.w, objs.objs), objs.objs;
    r := SubBase(objs, bases);
    if r.None? {
      NoSubBase(objs.w, before, objs.objs, g, bases, acc);
    } else {
      SettledGrows(objs.w, before, objs.objs, g, bases, 1, acc);
    }
  }

  /** The loop over the second and later bases. */
  method FoldTrees(objs: ObjectStore, bases: seq<Id>, first: Option<Id>) returns (r: Option<Option<Id>>)
    requires objs.Valid() && |bases| >= 2
    requires Settled(objs.w, objs.objs, History(objs.w, objs.objs), bases, 1, first)
    modifies objs
    ensures objs.Valid() && AddsFiles(old(objs.objs), objs.objs)
    ensures BaseFound(objs.w, objs.objs, History(objs.w, old(objs.objs)), bases, r)
    decreases Depth(objs.w.rank, bases), 0, 3
  {
    ghost var w, g, u := objs.w, History(objs.w, objs.objs), objs.objs;
    var accTree := first;
    var i := 1;
    while i < |bases|
      invariant 1 <= i <= |bases| && objs.Valid() && AddsFiles(u, objs.objs)
      invariant Settled(w, objs.objs, g, bases, i, accTree)
    {
      HistoryKept(w, u, objs.objs);
      var next := FoldTurn(objs, bases, i, accTree);
      if next.None? { return None; }
      accTree := next;
      i := i + 1;
    }
    return Some(accTree);
  }

  /** One turn; only the first uses the virtual base of the first two, the others an empty one. */
  method FoldTurn(objs: ObjectStore, bases: seq<Id>, i: nat, accTree: Option<Id>) returns (r: Option<Id>)
    requires objs.Valid() && |bases| >= 2 && 1 <= i < |bases|
    requires Settled(objs.w, objs.objs, History(objs.w, objs.objs), bases, i, accTree)
    modifies objs
    ensures objs.Valid() && AddsFiles(old(objs.objs), objs.objs)
    ensures r.Some? ==> Settled(objs.w, objs.objs, History(objs.w, old(objs.objs)), bases, i + 1, r)
    ensures r.None? ==> VirtualFiles(objs.w, objs.objs, History(objs.w, old(objs.objs)), bases).None?
    decreases Depth(objs.w.rank, bases), 0, 2
  {
    ghost var g := History(objs.w, objs.objs);
    var subBase: Option<Id> := None;
    if i == 1 {
      var sub := FirstBase(objs, bases, accTree);
      if sub.None? { return None; }
      subBase := sub.value;
    }
    r := FoldTree(objs, bases, i, accTree, subBase, g);
  }

  // ----- Merge -----

  /** A regenerator before it is given the incoming intent. */
  type Regenerator = (Bytes, Path, Bytes, Bytes, Bytes) -> Option<Bytes>

  /** changeIntent: the provenance the change records, if it can be read. */
  function ChangeIntent(u: Store, id: Id): Option<Bytes> {
    if id in u && u[id].ChangeObj? && Present(u[id].change.provenance).Some?
       && u[id].change.provenance.value in u && u[u[id].change.provenance.value].ProvenanceObj?
    then Some(u[u[id].change.provenance.value].body)
    else None
  }

  function ChangeFulfills(u: Store, id: Id): Option<Id> {
    if id in u && u[id].ChangeObj? then Present(u[id].change.fulfills) else None
  }

  /** Regeneration needs both a regenerator and a recorded intent. */
  function RegenFor(reg: Option<Regenerator>, intent: Option<Bytes>): Option<Regenerate> {
    if reg.Some? && intent.Some? then Some((p, b, o, t) => reg.value(intent.value, p, b, o, t)) else None
  }

  /** The merge change recorded when nothing is left unresolved. */
  function MergeChange(tree: Id, ours: Id, theirs: Id, fulfills: Option<Id>): Change {
    Change(Some(tree), SortedUnique([ours, theirs]), Ascii("merge"), 0, [], None, [], fulfills)
  }

  datatype Sides = Sides(base: Files, ours: Files, theirs: Files)

  /** The three path maps a merge of two changes compares; None when one cannot be had. */
  ghost function MergeSides(w: World, u: Store, g: Links, ours: Id, theirs: Id): Option<Sides>
    requires w.Valid() && Intact(w, u) && Descends(g, w.rank)
  {
    var b := VirtualFiles(w, u, g, BasesOf(g, w.rank, ours, theirs));
    var o, t := ChangeFiles(w, u, ours), ChangeFiles(w, u, theirs);
    if b.None? || o.None? || t.None? then None else Some(Sides(b.value, o.value, t.value))
  }

  /** The merged path map of two changes; None is an error or a panic. */
  ghost function MergedChange(w: World, u: Store, g: Links, regen: Option<Regenerate>, ours: Id, theirs: Id): Option<Files>
    requires w.Valid() && Intact(w, u) && Descends(g, w.rank)
  {
    var s := MergeSides(w, u, g, ours, theirs);
    if s.None? || !Readable(w, u, regen, s.value.base, s.value.ours, s.value.theirs, AllPaths(s.value.base, s.value.ours, s.value.theirs)) then None
    else
      var m := MergedFiles(w, u, regen, s.value.base, s.value.ours, s.value.theirs);
      if PrefixFree(m) then Some(m) else None
  }

  /** The lists the merge of two sides reports. */
  ghost function SideLists(w: World, u: Store, regen: Option<Regenerate>, s: Sides): Lists {
    ListsFor(w, u, regen, s.base, s.ours, s.theirs, SortedSet(AllPaths(s.base, s.ours, s.theirs)))
  }

  datatype MergeResult =
    | Failed
    | Done(tree: Id, change: Option<Id>, base: Option<Id>, clean: seq<Path>, textMerged: seq<Path>, regenerated: seq<Path>, conflicts: seq<Path>)

  lemma IntentKept(u: Store, v: Store, id: Id)
    requires AddsFiles(u, v)
    ensures ChangeIntent(v, id) == ChangeIntent(u, id) && ChangeFulfills(v, id) == ChangeFulfills(u, id)
  {
  }

  /** What Merge must have done, read in the store `u` after its tree merge. */
  ghost predicate TreeMerged(w: World, u: Store, g: Links, regen: Option<Regenerate>, ours: Id, theirs: Id, r: MergeResult)
    requires w.Valid() && Intact(w, u) && Descends(g, w.rank)
  {
    var m := MergedChange(w, u, g, regen, ours, theirs);
    && (r.Failed? <==> m.None?)
    && (r.Done? ==>
          && r.tree == BuildId(w, m.value) && Built(w, u, m.value)
          && Lists(r.clean, r.textMerged, r.regenerated, r.conflicts) == SideLists(w, u, regen, MergeSides(w, u, g, ours, theirs).value)
          && var bases := BasesOf(g, w.rank, ours, theirs);
          r.base == (if |bases| == 1 then Some(bases[0]) else None))
  }

  /** The result with the merge change recorded. */
  method RecordChange(objs: ObjectStore, r: MergeResult, ours: Id, theirs: Id) returns (res: MergeResult)
    requires objs.Valid() && r.Done? && r.change.None?
    modifies objs
    ensures objs.Valid() && Grows(old(objs.objs), objs.objs)
    ensures if r.conflicts == [] then
              var c := ChangeObj(MergeChange(r.tree, ours, theirs, ChangeFulfills(old(objs.objs), theirs)));
              res == r.(change := Some(objs.w.hash(c))) && objs.objs == old(objs.objs)[objs.w.hash(c) := c]
            else res == r && objs.objs == old(objs.objs)
  {
    res := r;
    if r.conflicts == [] {
      var id := objs.Put(ChangeObj(MergeChange(r.tree, ours, theirs, ChangeFulfills(objs.objs, theirs))));
      res := r.(change := Some(id));
    }
  }

  /** The best bases of two changes and the tree of their virtual base. */
  method FindBase(objs: ObjectStore, ours: Id, theirs: Id) returns (bases: seq<Id>, baseTree: Option<Option<Id>>)
    requires objs.Valid()
    modifies objs
    ensures objs.Valid() && AddsFiles(old(objs.objs), objs.objs)
    ensures bases == BasesOf(History(objs.w, old(objs.objs)), objs.w.rank, ours, theirs)
    ensures BaseFound(objs.w, objs.objs, History(objs.w, old(objs.objs)), bases, baseTree)
  {
    bases := FindMergeBases(objs, Some(ours), Some(theirs));
    LessIsStrictTotal();
    AscendingUnique(Less, bases, BasesOf(History(objs.w, objs.objs), objs.w.rank, ours, theirs));
    baseTree := VirtualBaseTree(objs, bases);
  }

  /** Merge up to the point where the merge change is recorded. */
  method MergeIntoTree(objs: ObjectStore, ours: Id, theirs: Id, reg: Option<Regenerator>) returns (r: MergeResult)
    requires objs.Valid()
    modifies objs
    ensures objs.Valid() && AddsFiles(old(objs.objs), objs.objs)
    ensures TreeMerged(objs.w, objs.objs, History(objs.w, old(objs.objs)), RegenFor(reg, ChangeIntent(old(objs.objs), theirs)), ours, theirs, r)
    ensures r.Done? ==> r.change.None?
  {
    ghost var w, u, g := objs.w, objs.objs, History(objs.w, objs.objs);
    var bases, baseTree := FindBase(objs, ours, theirs);
    if baseTree.None? { return Failed; }
    var oursTree := TreeOf(objs.objs, ours);
    if oursTree.None? { return Failed; }
    var theirsTree := TreeOf(objs.objs, theirs);
    if theirsTree.None? { return Failed; }
    IntentKept(u, objs.objs, theirs);
    var regen := RegenFor(reg, ChangeIntent(objs.objs, theirs));
    ghost var before := objs.objs;
    var mt := MergeTrees(objs, baseTree.value, oursTree.value, theirsTree.value, regen);
    MergeRead(w, before, objs.objs, g, regen, bases, baseTree.value, ours, theirs, mt);
    return ToResult(bases, mt);
  }

  function ToResult(bases: seq<Id>, mt: TreeMerge): MergeResult {
    if !mt.Merge? then Failed
    else Done(mt.tree, None, if |bases| == 1 then Some(bases[0]) else None, mt.clean, mt.textMerged, mt.regenerated, mt.conflicts)
  }

  lemma MergeRead(w: World, u: Store, v: Store, g: Links, regen: Option<Regenerate>, bases: seq<Id>, base: Option<Id>,
                  ours: Id, theirs: Id, mt: TreeMerge)
    requires w.Valid() && Intact(w, u) && Intact(w, v) && Grows(u, v) && Descends(g, w.rank)
    requires bases == BasesOf(g, w.rank, ours, theirs) && BaseFound(w, u, g, bases, Some(base))
    requires TreeOf(u, ours).Some? && TreeOf(u, theirs).Some?
    requires TreesMerged(w, v, regen, base, TreeOf(u, ours).value, TreeOf(u, theirs).value, mt)
    ensures TreeMerged(w, v, g, regen, ours, theirs, ToResult(bases, mt))
  {
    SidesRead(w, u, v, g, bases, base, ours, theirs);
  }

  /** `mid` is the store between the tree merge and the recording of the merge change. */
  method MergeChanges(objs: ObjectStore, ours: Id, theirs: Id, reg: Option<Regenerator>)
    returns (r: MergeResult, ghost mid: Store)
    requires objs.Valid()
    modifies objs
    ensures objs.Valid() && AddsFiles(old(objs.objs), mid) && Intact(objs.w, mid) && Grows(mid, objs.objs)
    ensures TreeMerged(objs.w, mid, History(objs.w, old(objs.objs)), RegenFor(reg, ChangeIntent(old(objs.objs), theirs)), ours, theirs, r)
    ensures r.Done? ==> (r.change.Some? <==> r.conflicts == [])
    ensures if r.Done? && r.change.Some? then
              var c := ChangeObj(MergeChange(r.tree, ours, theirs, ChangeFulfills(old(objs.objs), theirs)));
              r.change.value == objs.w.hash(c) && objs.objs == mid[objs.w.hash(c) := c]
            else objs.objs == mid
  {
    ghost var u := objs.objs;
    r := MergeIntoTree(objs, ours, theirs, reg);
    mid := objs.objs;
    if r.Done? {
      IntentKept(u, mid, theirs);
      r := RecordChange(objs, r, ours, theirs);
    }
  }

  /** The trees handed to mergeTrees are the sides of the merge. */
  lemma SidesRead(w: World, u: Store, v: Store, g: Links, bases: seq<Id>, base: Option<Id>, ours: Id, theirs: Id)
    requires w.Valid() && Intact(w, u) && Intact(w, v) && Grows(u, v) && Descends(g, w.rank)
    requires bases == BasesOf(g, w.rank, ours, theirs) && BaseFound(w, u, g, bases, Some(base))
    requires TreeOf(u, ours).Some? && TreeOf(u, theirs).Some?
    ensures MergeSides(w, v, g, ours, theirs) ==
            var b, o, t := Flat(w, v, base), Flat(w, v, TreeOf(u, ours).value), Flat(w, v, TreeOf(u, theirs).value);
            if b.None? || o.None? || t.None? then None else Some(Sides(b.value, o.value, t.value))
  {
    TreeOfGrows(u, v, ours);
    TreeOfGrows(u, v, theirs);
  }
}
