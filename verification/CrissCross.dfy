/**
  What the virtual base of varvig/internal/merge/merge.go means for each path: two best
  ancestors are reconciled over their own virtual base, and a merge measures both sides
  against that.
 */
module CrissCross {
  import opened Basics
  import opened Objects
  import opened Graph
  import opened Orders
  import opened Diff3
  import opened MergeBases
  import opened Trees
  import opened TreeLaws
  import opened MergeDriver
  import opened PathLaws
  import opened ChangeMerge
  import opened MergeLaws

  /** Both lack the path, or both have it with the same content. */
  predicate SameAt(x: Files, y: Files, p: Path) {
    (p in x <==> p in y) && (p in x ==> x[p].id == y[p].id)
  }

  /** A path that one side left as in the base is taken from the other; one both agree on is as they have it. */
  ghost predicate Reconciles(base: Files, x: Files, y: Files, out: Files) {
    forall p ::
      && (SameAt(y, base, p) ==> SameAt(out, x, p))
      && (SameAt(x, base, p) ==> SameAt(out, y, p))
      && (SameAt(x, y, p) ==> SameAt(out, x, p))
  }

  /** A path on which all three differ holds the lines merge3 makes of the three contents. */
  ghost predicate MergesText(w: World, u: Store, base: Files, x: Files, y: Files, out: Files) {
    forall p, b, o, t ::
      && Diverged(Get(base, p), Get(x, p), Get(y, p))
      && Holds(u, Get(base, p), b) && Holds(u, Get(x, p), o) && Holds(u, Get(y, p), t) ==>
        p in out && out[p].id == w.hash(BlobObj(JoinLines(Merged(Lines(b), Lines(o), Lines(t)).0)))
  }

  // ----- one tree merge -----

  lemma OutcomeOutside(w: World, u: Store, regen: Option<Regenerate>, b: Files, o: Files, t: Files, p: Path)
    requires p !in AllPaths(b, o, t)
    ensures OutcomeAt(w, u, regen, b, o, t, p) == Some(Outcome(None, Absent))
  {
  }

  /** The merged map holds for every path what became of it. */
  lemma MergedAt(w: World, u: Store, regen: Option<Regenerate>, b: Files, o: Files, t: Files, p: Path)
    requires Readable(w, u, regen, b, o, t, AllPaths(b, o, t))
    ensures OutcomeAt(w, u, regen, b, o, t, p).Some?
    ensures Get(MergedFiles(w, u, regen, b, o, t), p) == OutcomeAt(w, u, regen, b, o, t, p).value.file
  {
    if p !in AllPaths(b, o, t) { OutcomeOutside(w, u, regen, b, o, t, p); }
  }

  lemma MergedReconcilesAt(w: World, u: Store, regen: Option<Regenerate>, b: Files, o: Files, t: Files, m: Files, p: Path)
    requires OutcomeAt(w, u, regen, b, o, t, p).Some? && Get(m, p) == OutcomeAt(w, u, regen, b, o, t, p).value.file
    ensures SameAt(t, b, p) ==> SameAt(m, o, p)
    ensures SameAt(o, b, p) ==> SameAt(m, t, p)
    ensures SameAt(o, t, p) ==> SameAt(m, o, p)
  {
  }

  lemma MergedReconciles(w: World, u: Store, regen: Option<Regenerate>, b: Files, o: Files, t: Files)
    requires Readable(w, u, regen, b, o, t, AllPaths(b, o, t))
    ensures Reconciles(b, o, t, MergedFiles(w, u, regen, b, o, t))
  {
    var m := MergedFiles(w, u, regen, b, o, t);
    forall p
      ensures SameAt(t, b, p) ==> SameAt(m, o, p)
      ensures SameAt(o, b, p) ==> SameAt(m, t, p)
      ensures SameAt(o, t, p) ==> SameAt(m, o, p)
    {
      MergedAt(w, u, regen, b, o, t, p);
      MergedReconcilesAt(w, u, regen, b, o, t, m, p);
    }
  }

  lemma MergedTextAt(w: World, u: Store, b: Files, o: Files, t: Files, m: Files, p: Path, base: Bytes, ours: Bytes, theirs: Bytes)
    requires Readable(w, u, None, b, o, t, AllPaths(b, o, t)) && m == MergedFiles(w, u, None, b, o, t)
    requires Diverged(Get(b, p), Get(o, p), Get(t, p))
    requires Holds(u, Get(b, p), base) && Holds(u, Get(o, p), ours) && Holds(u, Get(t, p), theirs)
    ensures p in m && m[p].id == w.hash(BlobObj(JoinLines(Merged(Lines(base), Lines(ours), Lines(theirs)).0)))
  {
    MergedAt(w, u, None, b, o, t, p);
    DivergedPath(w, u, None, p, Get(b, p), Get(o, p), Get(t, p), base, ours, theirs);
  }

  lemma MergedIsPlain(w: World, u: Store, regen: Option<Regenerate>, b: Files, o: Files, t: Files)
    requires NoLeadingSlash(o) && NoLeadingSlash(t)
    ensures NoLeadingSlash(MergedFiles(w, u, regen, b, o, t))
  {
    var m := MergedFiles(w, u, regen, b, o, t);
    forall p | p in m && p != [] ensures p[0] != SLASH { ModeOfMerged(w, u, regen, b, o, t, p); }
  }

  /** The tree of a merge inside the virtual base has the merged files, none of which starts with a slash. */
  lemma StepFiles(w: World, u: Store, b: Files, o: Files, t: Files, out: Files)
    requires w.Valid() && Intact(w, u) && MergeStep(w, u, Some(b), Some(o), Some(t)) == Some(out)
    requires NoLeadingSlash(o) && NoLeadingSlash(t)
    ensures Readable(w, u, None, b, o, t, AllPaths(b, o, t)) && out == MergedFiles(w, u, None, b, o, t) && NoLeadingSlash(out)
  {
    var m := MergedFiles(w, u, None, b, o, t);
    MergedIsPlain(w, u, None, b, o, t);
    ReadableIsBuilt(w, u, m, []);
    FlattenUndoesBuild(w, u, m);
  }

  lemma MergedTexts(w: World, u: Store, b: Files, o: Files, t: Files, m: Files)
    requires Readable(w, u, None, b, o, t, AllPaths(b, o, t)) && m == MergedFiles(w, u, None, b, o, t)
    ensures MergesText(w, u, b, o, t, m)
  {
    forall p, base, ours, theirs
      | Diverged(Get(b, p), Get(o, p), Get(t, p)) && Holds(u, Get(b, p), base) && Holds(u, Get(o, p), ours) && Holds(u, Get(t, p), theirs)
      ensures p in m && m[p].id == w.hash(BlobObj(JoinLines(Merged(Lines(base), Lines(ours), Lines(theirs)).0)))
    {
      MergedTextAt(w, u, b, o, t, m, p, base, ours, theirs);
    }
  }

  lemma StepReconciles(w: World, u: Store, b: Files, o: Files, t: Files, out: Files)
    requires w.Valid() && Intact(w, u) && MergeStep(w, u, Some(b), Some(o), Some(t)) == Some(out)
    requires NoLeadingSlash(o) && NoLeadingSlash(t)
    ensures Reconciles(b, o, t, out) && MergesText(w, u, b, o, t, out) && NoLeadingSlash(out)
  {
    StepFiles(w, u, b, o, t, out);
    MergedReconciles(w, u, None, b, o, t);
    MergedTexts(w, u, b, o, t, out);
  }

  // ----- the virtual base -----

  /** The files of a change are those of its tree, none without a tree or for a nil id; a tree stands for itself. */
  lemma FilesOfChange(w: World, u: Store, id: Id)
    requires w.Valid() && Intact(w, u)
    ensures id == [] ==> ChangeFiles(w, u, id) == Some(map[])
    ensures id in u && u[id].ChangeObj? && u[id].change.tree.Some? ==> ChangeFiles(w, u, id) == FlatTree(w, u, u[id].change.tree.value, [])
    ensures id in u && u[id].ChangeObj? && u[id].change.tree.None? ==> ChangeFiles(w, u, id) == Some(map[])
    ensures id in u && u[id].TreeObj? ==> ChangeFiles(w, u, id) == FlatTree(w, u, id, [])
    ensures id !in u && id != [] ==> ChangeFiles(w, u, id) == None
  {
    assert id in u ==> w.verifies(id, u[id]);
  }

  lemma VirtualBaseOfFew(w: World, u: Store, g: Links, c: Id)
    requires w.Valid() && Intact(w, u) && Descends(g, w.rank)
    ensures VirtualFiles(w, u, g, []) == Some(map[]) && VirtualFiles(w, u, g, [c]) == ChangeFiles(w, u, c)
  {
  }

  lemma FoldTwo(w: World, u: Store, g: Links, x: Id, y: Id)
    requires w.Valid() && Intact(w, u) && Descends(g, w.rank)
    ensures VirtualFiles(w, u, g, [x, y])
            == MergeStep(w, u, VirtualFiles(w, u, g, BasesOf(g, w.rank, x, y)), ChangeFiles(w, u, x), ChangeFiles(w, u, y))
  {
    var bases := [x, y];
    var step := MergeStep(w, u, VirtualFiles(w, u, g, BasesOf(g, w.rank, x, y)), ChangeFiles(w, u, x), ChangeFiles(w, u, y));
    assert FoldBases(w, u, g, bases, 2, step) == step;
  }

  /** Two bases x and y are merged over their own virtual base v, each contributing what it changed there. */
  lemma VirtualBaseOfTwo(w: World, u: Store, g: Links, x: Id, y: Id) returns (v: Files, fx: Files, fy: Files)
    requires w.Valid() && Intact(w, u) && Descends(g, w.rank) && VirtualFiles(w, u, g, [x, y]).Some?
    ensures VirtualFiles(w, u, g, BasesOf(g, w.rank, x, y)) == Some(v)
    ensures ChangeFiles(w, u, x) == Some(fx) && ChangeFiles(w, u, y) == Some(fy)
    ensures NoLeadingSlash(fx) && NoLeadingSlash(fy) ==>
              var out := VirtualFiles(w, u, g, [x, y]).value;
              Reconciles(v, fx, fy, out) && MergesText(w, u, v, fx, fy, out) && NoLeadingSlash(out)
  {
    FoldTwo(w, u, g, x, y);
    v, fx, fy := VirtualFiles(w, u, g, BasesOf(g, w.rank, x, y)).value, ChangeFiles(w, u, x).value, ChangeFiles(w, u, y).value;
    if NoLeadingSlash(fx) && NoLeadingSlash(fy) {
      StepReconciles(w, u, v, fx, fy, VirtualFiles(w, u, g, [x, y]).value);
    }
  }

  lemma {:induction false} FoldLast(w: World, u: Store, g: Links, bases: seq<Id>, z: Id, i: nat, acc: Option<Files>)
    requires w.Valid() && Intact(w, u) && Descends(g, w.rank) && |bases| >= 2 && 1 <= i <= |bases|
    ensures FoldBases(w, u, g, bases + [z], i, acc)
            == MergeStep(w, u, Some(map[]), FoldBases(w, u, g, bases, i, acc), ChangeFiles(w, u, z))
    decreases |bases| - i
  {
    var more := bases + [z];
    assert more[0] == bases[0] && more[1] == bases[1];
    DepthFalls(g, w.rank, bases);
    DepthFalls(g, w.rank, more);
    if i < |bases| {
      assert more[i] == bases[i];
      var sub := if i == 1 then VirtualFiles(w, u, g, BasesOf(g, w.rank, bases[0], bases[1])) else Some(map[]);
      FoldLast(w, u, g, bases, z, i + 1, MergeStep(w, u, sub, acc, ChangeFiles(w, u, bases[i])));
    } else {
      var step := MergeStep(w, u, Some(map[]), acc, ChangeFiles(w, u, z));
      assert more[i] == z && FoldBases(w, u, g, more, |more|, step) == step;
    }
  }

  /** A third or later base z is merged into the others over an empty base: what only one of them has stays. */
  lemma VirtualBaseOfMore(w: World, u: Store, g: Links, bases: seq<Id>, z: Id) returns (acc: Files, fz: Files)
    requires w.Valid() && Intact(w, u) && Descends(g, w.rank) && |bases| >= 2 && VirtualFiles(w, u, g, bases + [z]).Some?
    ensures VirtualFiles(w, u, g, bases) == Some(acc) && ChangeFiles(w, u, z) == Some(fz)
    ensures NoLeadingSlash(acc) && NoLeadingSlash(fz) ==>
              var out := VirtualFiles(w, u, g, bases + [z]).value;
              Reconciles(map[], acc, fz, out) && MergesText(w, u, map[], acc, fz, out) && NoLeadingSlash(out)
  {
    FoldLast(w, u, g, bases, z, 1, ChangeFiles(w, u, bases[0]));
    assert (bases + [z])[0] == bases[0];
    acc, fz := VirtualFiles(w, u, g, bases).value, ChangeFiles(w, u, z).value;
    if NoLeadingSlash(acc) && NoLeadingSlash(fz) {
      StepReconciles(w, u, map[], acc, fz, VirtualFiles(w, u, g, bases + [z]).value);
    }
  }

  /** Which of two bases comes first does not matter to the files, unless some path of theirs conflicts. */
  lemma VirtualBaseCommutes(w: World, u: Store, g: Links, x: Id, y: Id, v: Files, fx: Files, fy: Files, xy: Files, yx: Files)
    requires w.Valid() && Intact(w, u) && Descends(g, w.rank)
    requires VirtualFiles(w, u, g, [x, y]) == Some(xy) && VirtualFiles(w, u, g, [y, x]) == Some(yx)
    requires VirtualFiles(w, u, g, BasesOf(g, w.rank, x, y)) == Some(v)
    requires ChangeFiles(w, u, x) == Some(fx) && ChangeFiles(w, u, y) == Some(fy) && NoLeadingSlash(fx) && NoLeadingSlash(fy)
    requires NoConflict(w, u, None, v, fx, fy)
    ensures forall p :: SameAt(xy, yx, p)
  {
    FoldTwo(w, u, g, x, y);
    FoldTwo(w, u, g, y, x);
    MergeBasesSymmetric(g, w.rank, x, y, BasesOf(g, w.rank, x, y), BasesOf(g, w.rank, y, x));
    StepCommutes(w, u, v, fx, fy, xy, yx);
  }

  lemma StepCommutes(w: World, u: Store, b: Files, o: Files, t: Files, ot: Files, to: Files)
    requires w.Valid() && Intact(w, u) && NoLeadingSlash(o) && NoLeadingSlash(t)
    requires MergeStep(w, u, Some(b), Some(o), Some(t)) == Some(ot) && MergeStep(w, u, Some(b), Some(t), Some(o)) == Some(to)
    requires NoConflict(w, u, None, b, o, t)
    ensures forall p :: SameAt(ot, to, p)
  {
    StepFiles(w, u, b, o, t, ot);
    StepFiles(w, u, b, t, o, to);
    MergeOfTreesSymmetric(w, u, b, o, t);
    SameEverywhere(ot, to);
  }

  lemma SameEverywhere(x: Files, y: Files)
    requires SameIds(x, y)
    ensures forall p :: SameAt(x, y, p)
  {
    assert forall p :: p in x <==> p in x.Keys;
    assert forall p :: p in y <==> p in y.Keys;
  }

  // ----- merging over it -----

  /** A merge of two changes takes from each side what it changed against the base, whatever the history. */
  lemma MergeReconciles(w: World, u: Store, g: Links, regen: Option<Regenerate>, ours: Id, theirs: Id)
    requires w.Valid() && Intact(w, u) && Descends(g, w.rank) && MergedChange(w, u, g, regen, ours, theirs).Some?
    ensures var b, o, t := VirtualFiles(w, u, g, BasesOf(g, w.rank, ours, theirs)), ChangeFiles(w, u, ours), ChangeFiles(w, u, theirs);
            b.Some? && o.Some? && t.Some? && Reconciles(b.value, o.value, t.value, MergedChange(w, u, g, regen, ours, theirs).value)
  {
    var s := MergeSides(w, u, g, ours, theirs).value;
    MergedReconciles(w, u, regen, s.base, s.ours, s.theirs);
  }

  /** A path that only one of the two bases changed, and one side left as that base has it, is taken from the other side. */
  ghost predicate Measured(v: Files, changed: Files, kept: Files, o: Files, t: Files, m: Files) {
    forall p :: SameAt(kept, v, p) && SameAt(o, changed, p) ==> SameAt(m, t, p)
  }

  lemma MeasuredAgainst(v: Files, x: Files, y: Files, b: Files, o: Files, t: Files, m: Files)
    requires Reconciles(v, x, y, b) && Reconciles(b, o, t, m)
    ensures Measured(v, x, y, o, t, m) && Measured(v, x, y, t, o, m) && Measured(v, y, x, o, t, m) && Measured(v, y, x, t, o, m)
  {
  }

  /** Merging over a criss-cross: an edit of either base that one side has not touched since gives no conflict and is never lost. */
  lemma CrissCrossMerge(w: World, u: Store, g: Links, regen: Option<Regenerate>, ours: Id, theirs: Id, x: Id, y: Id,
                        v: Files, fx: Files, fy: Files, o: Files, t: Files)
    requires w.Valid() && Intact(w, u) && Descends(g, w.rank) && MergedChange(w, u, g, regen, ours, theirs).Some?
    requires BasesOf(g, w.rank, ours, theirs) == [x, y] && VirtualFiles(w, u, g, BasesOf(g, w.rank, x, y)) == Some(v)
    requires ChangeFiles(w, u, x) == Some(fx) && ChangeFiles(w, u, y) == Some(fy) && NoLeadingSlash(fx) && NoLeadingSlash(fy)
    requires ChangeFiles(w, u, ours) == Some(o) && ChangeFiles(w, u, theirs) == Some(t)
    ensures var m := MergedChange(w, u, g, regen, ours, theirs).value;
            && Measured(v, fx, fy, o, t, m) && Measured(v, fx, fy, t, o, m)
            && Measured(v, fy, fx, o, t, m) && Measured(v, fy, fx, t, o, m)
  {
    var v', fx', fy' := VirtualBaseOfTwo(w, u, g, x, y);
    MergeReconciles(w, u, g, regen, ours, theirs);
    MeasuredAgainst(v, fx, fy, VirtualFiles(w, u, g, [x, y]).value, o, t, MergedChange(w, u, g, regen, ours, theirs).value);
  }
}
