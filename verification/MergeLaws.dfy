/**
  Laws of the merge over path -> content id. The merge compares ids only, so modes have
  a law of their own: ModeOfMerged, by which a change of mode made by theirs alone is dropped.
 */
module MergeLaws {
  import opened Basics
  import opened Objects
  import opened Graph
  import opened Diff3
  import opened MergeBases
  import opened Trees
  import opened MergeDriver
  import opened ChangeMerge

  /** The same files with the same content. */
  ghost predicate SameIds(x: Files, y: Files) {
    x.Keys == y.Keys && forall p :: p in x ==> x[p].id == y[p].id
  }

  /** The merge is readable, leaves no conflict, and has the content ids of `want`. */
  ghost predicate Settles(w: World, u: Store, regen: Option<Regenerate>, b: Files, o: Files, t: Files, want: Files) {
    && Readable(w, u, regen, b, o, t, AllPaths(b, o, t))
    && NoConflict(w, u, regen, b, o, t)
    && SameIds(MergedFiles(w, u, regen, b, o, t), want)
  }

  /** A path outcome that is readable, without conflict, and has the content of `f`. */
  predicate SettledTo(out: Option<Outcome>, f: Option<File>) {
    out.Some? && out.value.how != Conflicted && SameAsBase(out.value.file, f)
  }

  lemma SettledAt(w: World, u: Store, regen: Option<Regenerate>, b: Files, o: Files, t: Files, want: Files, p: Path)
    requires p in AllPaths(b, o, t) && SettledTo(OutcomeAt(w, u, regen, b, o, t, p), Get(want, p))
    ensures OutcomeAt(w, u, regen, b, o, t, p).Some? && !Is(w, u, regen, b, o, t, p, Conflicted)
    ensures var m := MergedFiles(w, u, regen, b, o, t); (p in m <==> p in want) && (p in m ==> m[p].id == want[p].id)
  {
    var out := OutcomeAt(w, u, regen, b, o, t, p);
    assert p in MergedFiles(w, u, regen, b, o, t) <==> out.Some? && out.value.file.Some?;
  }

  lemma SettlesPointwise(w: World, u: Store, regen: Option<Regenerate>, b: Files, o: Files, t: Files, want: Files)
    requires forall p :: p in AllPaths(b, o, t) ==> SettledTo(OutcomeAt(w, u, regen, b, o, t, p), Get(want, p))
    requires want.Keys <= AllPaths(b, o, t)
    ensures Settles(w, u, regen, b, o, t, want)
  {
    var m := MergedFiles(w, u, regen, b, o, t);
    forall p | p in AllPaths(b, o, t)
      ensures OutcomeAt(w, u, regen, b, o, t, p).Some? && !Is(w, u, regen, b, o, t, p, Conflicted)
      ensures (p in m <==> p in want) && (p in m ==> m[p].id == want[p].id)
    {
      SettledAt(w, u, regen, b, o, t, want, p);
    }
    assert m.Keys <= AllPaths(b, o, t);
    SameIdsOn(m, want, AllPaths(b, o, t));
  }

  lemma SameIdsOn(x: Files, y: Files, ps: set<Path>)
    requires x.Keys <= ps && y.Keys <= ps
    requires forall p :: p in ps ==> (p in x <==> p in y) && (p in x ==> x[p].id == y[p].id)
    ensures SameIds(x, y)
  {
    assert forall p :: p in x ==> p in ps by { assert forall p :: p in x <==> p in x.Keys; }
    assert forall p :: p in y ==> p in ps by { assert forall p :: p in y <==> p in y.Keys; }
  }

  /** Merging into an untouched side gives the other side. */
  lemma OursUntouched(w: World, u: Store, regen: Option<Regenerate>, b: Files, o: Files, t: Files)
    requires SameIds(b, o)
    ensures Settles(w, u, regen, b, o, t, t)
  {
    SettlesPointwise(w, u, regen, b, o, t, t);
  }

  lemma TheirsUntouched(w: World, u: Store, regen: Option<Regenerate>, b: Files, o: Files, t: Files)
    requires SameIds(b, t)
    ensures Settles(w, u, regen, b, o, t, o)
  {
    SettlesPointwise(w, u, regen, b, o, t, o);
  }

  /** Sides that agree merge to what they agree on, whatever the base. */
  lemma SidesAgree(w: World, u: Store, regen: Option<Regenerate>, b: Files, o: Files, t: Files)
    requires SameIds(o, t)
    ensures Settles(w, u, regen, b, o, t, o)
  {
    SettlesPointwise(w, u, regen, b, o, t, o);
  }

  /**
    What becomes of modes: a path of the result has the mode of ours, unless ours has no such
    path or left its content at the base while theirs did not.
   */
  lemma ModeOfMerged(w: World, u: Store, regen: Option<Regenerate>, b: Files, o: Files, t: Files, p: Path)
    requires p in MergedFiles(w, u, regen, b, o, t)
    ensures p in o || p in t
    ensures var takesTheirs := p !in o || (p in b && p in t && o[p].id == b[p].id != t[p].id);
            MergedFiles(w, u, regen, b, o, t)[p].mode == (if takesTheirs then t[p] else o[p]).mode
  {
    assert OutcomeAt(w, u, regen, b, o, t, p).value.file.Some?;
  }

  /** A chmod made only by theirs is dropped: the merge of one untouched file keeps its old mode. */
  lemma ChmodByTheirsIsDropped(w: World, u: Store, regen: Option<Regenerate>, p: Path, id: Id, mode: nat, theirMode: nat)
    ensures var b, t := map[p := File(id, mode)], map[p := File(id, theirMode)];
            MergedFiles(w, u, regen, b, b, t) == map[p := File(id, mode)]
  {
    var b, t := map[p := File(id, mode)], map[p := File(id, theirMode)];
    assert AllPaths(b, b, t) == {p};
    assert OutcomeAt(w, u, regen, b, b, t, p) == Some(Outcome(Some(b[p]), Clean));
  }

  /** Outcomes of the same path with the sides swapped: as readable, as conflicted, and if clean the same content. */
  predicate Mirrors(x: Option<Outcome>, y: Option<Outcome>) {
    && (x.Some? <==> y.Some?)
    && (x.Some? ==> (x.value.how == Conflicted <==> y.value.how == Conflicted))
    && (x.Some? && x.value.how != Conflicted ==> SameAsBase(x.value.file, y.value.file))
  }

  lemma ResolvedSymmetric(p: Path, base: Bytes, ours: Bytes, theirs: Bytes)
    ensures var x, y := Resolved(None, p, base, ours, theirs), Resolved(None, p, base, theirs, ours);
            x.1 == y.1 && (x.1 != Conflicted ==> x.0 == y.0)
  {
    MergeSymmetric(Lines(base), Lines(ours), Lines(theirs));
  }

  lemma PathSymmetric(w: World, u: Store, p: Path, b: Option<File>, o: Option<File>, t: Option<File>)
    ensures Mirrors(PathOutcome(w, u, None, p, b, o, t), PathOutcome(w, u, None, p, b, t, o))
  {
    if o.Some? && t.Some? && o.value.id == t.value.id {
    } else if o.None? && t.None? {
    } else if SameAsBase(o, b) || SameAsBase(t, b) {
    } else {
      var base, ours, theirs := Content(u, b), Content(u, o), Content(u, t);
      if base.Some? && ours.Some? && theirs.Some? {
        var x, y := Resolved(None, p, base.value, ours.value, theirs.value), Resolved(None, p, base.value, theirs.value, ours.value);
        ResolvedSymmetric(p, base.value, ours.value, theirs.value);
        DivergedOutcome(w, u, p, b, o, t, x);
        DivergedOutcome(w, u, p, b, t, o, y);
      }
    }
  }

  lemma DivergedOutcome(w: World, u: Store, p: Path, b: Option<File>, o: Option<File>, t: Option<File>, r: (Bytes, How))
    requires !(o.Some? && t.Some? && o.value.id == t.value.id) && !(o.None? && t.None?)
    requires !SameAsBase(o, b) && !SameAsBase(t, b)
    requires Content(u, b).Some? && Content(u, o).Some? && Content(u, t).Some?
    requires r == Resolved(None, p, Content(u, b).value, Content(u, o).value, Content(u, t).value)
    ensures PathOutcome(w, u, None, p, b, o, t) == Some(Outcome(Some(File(w.hash(BlobObj(r.0)), PickMode(o, t))), r.1))
  {
  }

  lemma MirroredMaps(w: World, u: Store, b: Files, o: Files, t: Files, ps: set<Path>)
    requires forall p :: p in ps ==> Mirrors(OutcomeAt(w, u, None, b, o, t, p), OutcomeAt(w, u, None, b, t, o, p))
    requires forall p :: p in ps ==> !Is(w, u, None, b, o, t, p, Conflicted)
    ensures SameIds(MergedOn(w, u, None, b, o, t, ps), MergedOn(w, u, None, b, t, o, ps))
  {
    var x, y := MergedOn(w, u, None, b, o, t, ps), MergedOn(w, u, None, b, t, o, ps);
    forall p | p in ps ensures (p in x <==> p in y) && (p in x ==> x[p].id == y[p].id) {
      assert Mirrors(OutcomeAt(w, u, None, b, o, t, p), OutcomeAt(w, u, None, b, t, o, p));
      assert !Is(w, u, None, b, o, t, p, Conflicted);
    }
    assert x.Keys <= ps && y.Keys <= ps;
  }

  /** Without regeneration a merge with no conflicts does not care which side is ours. */
  lemma MergeOfTreesSymmetric(w: World, u: Store, b: Files, o: Files, t: Files)
    requires Readable(w, u, None, b, o, t, AllPaths(b, o, t))
    ensures Readable(w, u, None, b, t, o, AllPaths(b, t, o))
    ensures NoConflict(w, u, None, b, o, t) <==> NoConflict(w, u, None, b, t, o)
    ensures NoConflict(w, u, None, b, o, t) ==> SameIds(MergedFiles(w, u, None, b, o, t), MergedFiles(w, u, None, b, t, o))
  {
    var ps := AllPaths(b, o, t);
    assert ps == AllPaths(b, t, o);
    forall p | p in ps
      ensures Mirrors(OutcomeAt(w, u, None, b, o, t, p), OutcomeAt(w, u, None, b, t, o, p))
      ensures OutcomeAt(w, u, None, b, t, o, p).Some?
      ensures Is(w, u, None, b, o, t, p, Conflicted) <==> Is(w, u, None, b, t, o, p, Conflicted)
    {
      assert OutcomeAt(w, u, None, b, o, t, p).Some?;
      PathSymmetric(w, u, p, Get(b, p), Get(o, p), Get(t, p));
    }
    if NoConflict(w, u, None, b, o, t) { MirroredMaps(w, u, b, o, t, ps); }
  }

  // ----- merging changes -----

  /** The merge of two changes left nothing unresolved. */
  ghost predicate Resolves(w: World, u: Store, g: Links, regen: Option<Regenerate>, ours: Id, theirs: Id)
    requires w.Valid() && Intact(w, u) && Descends(g, w.rank)
  {
    var s := MergeSides(w, u, g, ours, theirs);
    s.Some? && NoConflict(w, u, regen, s.value.base, s.value.ours, s.value.theirs)
  }

  lemma PrefixFreeKeys(x: Files, y: Files)
    requires SameIds(x, y)
    ensures PrefixFree(x) <==> PrefixFree(y)
  {
    if PrefixFree(x) {
      forall p, r | p in y ensures Under(p, r) !in y { assert p in x; }
    } else {
      var p, r :| p in x && Under(p, r) in x;
      assert p in y && Under(p, r) in y;
    }
  }

  /** A merge settled to `want` succeeds exactly when the paths of `want` can be built into a tree. */
  lemma SettledMerge(w: World, u: Store, g: Links, regen: Option<Regenerate>, ours: Id, theirs: Id, want: Files)
    requires w.Valid() && Intact(w, u) && Descends(g, w.rank) && MergeSides(w, u, g, ours, theirs).Some?
    requires var s := MergeSides(w, u, g, ours, theirs).value; Settles(w, u, regen, s.base, s.ours, s.theirs, want)
    ensures Resolves(w, u, g, regen, ours, theirs)
    ensures MergedChange(w, u, g, regen, ours, theirs).Some? <==> PrefixFree(want)
    ensures PrefixFree(want) ==> SameIds(MergedChange(w, u, g, regen, ours, theirs).value, want)
  {
    var s := MergeSides(w, u, g, ours, theirs).value;
    PrefixFreeKeys(MergedFiles(w, u, regen, s.base, s.ours, s.theirs), want);
  }

  /** Both changes can be read and the files of `want`, one of them, form a tree. */
  ghost predicate Mergeable(w: World, u: Store, ours: Id, theirs: Id, want: Id)
    requires w.Valid() && Intact(w, u) && (want == ours || want == theirs)
  {
    ChangeFiles(w, u, ours).Some? && ChangeFiles(w, u, theirs).Some? && PrefixFree(ChangeFiles(w, u, want).value)
  }

  /** Merging a descendant of ours fast-forwards: its files, no conflict, and no failure but in reading or building them. */
  lemma FastForward(w: World, u: Store, g: Links, regen: Option<Regenerate>, ours: Id, theirs: Id)
    requires w.Valid() && Intact(w, u) && Descends(g, w.rank) && Reaches(g, w.rank, theirs, ours)
    ensures MergedChange(w, u, g, regen, ours, theirs).Some? <==> Mergeable(w, u, ours, theirs, theirs)
    ensures Mergeable(w, u, ours, theirs, theirs) ==>
              Resolves(w, u, g, regen, ours, theirs)
              && SameIds(MergedChange(w, u, g, regen, ours, theirs).value, ChangeFiles(w, u, theirs).value)
  {
    BestOfAncestor(g, w.rank, theirs, ours, BasesOf(g, w.rank, ours, theirs));
    if MergeSides(w, u, g, ours, theirs).Some? {
      var s := MergeSides(w, u, g, ours, theirs).value;
      OursUntouched(w, u, regen, s.base, s.ours, s.theirs);
      SettledMerge(w, u, g, regen, ours, theirs, s.theirs);
    }
  }

  /** Merging an ancestor changes nothing, and fails only where ours or theirs cannot be read or ours not be built. */
  lemma AlreadyMerged(w: World, u: Store, g: Links, regen: Option<Regenerate>, ours: Id, theirs: Id)
    requires w.Valid() && Intact(w, u) && Descends(g, w.rank) && Reaches(g, w.rank, ours, theirs)
    ensures MergedChange(w, u, g, regen, ours, theirs).Some? <==> Mergeable(w, u, ours, theirs, ours)
    ensures Mergeable(w, u, ours, theirs, ours) ==>
              Resolves(w, u, g, regen, ours, theirs)
              && SameIds(MergedChange(w, u, g, regen, ours, theirs).value, ChangeFiles(w, u, ours).value)
  {
    BestOfAncestor(g, w.rank, ours, theirs, BasesOf(g, w.rank, ours, theirs));
    if MergeSides(w, u, g, ours, theirs).Some? {
      var s := MergeSides(w, u, g, ours, theirs).value;
      TheirsUntouched(w, u, regen, s.base, s.ours, s.theirs);
      SettledMerge(w, u, g, regen, ours, theirs, s.ours);
    }
  }

  /** Two changes with the same files merge to those files whatever their history, criss-cross or not, once it has a base. */
  lemma SameFilesMerge(w: World, u: Store, g: Links, regen: Option<Regenerate>, ours: Id, theirs: Id)
    requires w.Valid() && Intact(w, u) && Descends(g, w.rank)
    requires ChangeFiles(w, u, ours).Some? && ChangeFiles(w, u, theirs).Some?
    requires SameIds(ChangeFiles(w, u, ours).value, ChangeFiles(w, u, theirs).value)
    ensures MergedChange(w, u, g, regen, ours, theirs).Some? <==>
              VirtualFiles(w, u, g, BasesOf(g, w.rank, ours, theirs)).Some? && PrefixFree(ChangeFiles(w, u, ours).value)
    ensures MergedChange(w, u, g, regen, ours, theirs).Some? ==>
              Resolves(w, u, g, regen, ours, theirs)
              && SameIds(MergedChange(w, u, g, regen, ours, theirs).value, ChangeFiles(w, u, ours).value)
  {
    if MergeSides(w, u, g, ours, theirs).Some? {
      var s := MergeSides(w, u, g, ours, theirs).value;
      SidesAgree(w, u, regen, s.base, s.ours, s.theirs);
      SettledMerge(w, u, g, regen, ours, theirs, s.ours);
    }
  }

  /** The merge of two changes is symmetric: same conflicts or none, and then the same files. */
  lemma MergeCommutes(w: World, u: Store, g: Links, ours: Id, theirs: Id)
    requires w.Valid() && Intact(w, u) && Descends(g, w.rank)
    requires MergedChange(w, u, g, None, ours, theirs).Some? && Resolves(w, u, g, None, ours, theirs)
    ensures MergedChange(w, u, g, None, theirs, ours).Some? && Resolves(w, u, g, None, theirs, ours)
    ensures SameIds(MergedChange(w, u, g, None, ours, theirs).value, MergedChange(w, u, g, None, theirs, ours).value)
  {
    MergeBasesSymmetric(g, w.rank, ours, theirs, BasesOf(g, w.rank, ours, theirs), BasesOf(g, w.rank, theirs, ours));
    var s := MergeSides(w, u, g, ours, theirs).value;
    assert MergeSides(w, u, g, theirs, ours) == Some(Sides(s.base, s.theirs, s.ours));
    MergeOfTreesSymmetric(w, u, s.base, s.ours, s.theirs);
    PrefixFreeKeys(MergedFiles(w, u, None, s.base, s.ours, s.theirs), MergedFiles(w, u, None, s.base, s.theirs, s.ours));
  }
}
