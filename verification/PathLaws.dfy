/**
  What becomes of one path in varvig/internal/merge/merge.go: how content is cut into lines,
  the outcome of a path both sides changed, and what the lists of a merge hold.
 */
module PathLaws {
  import opened Basics
  import opened Objects
  import opened Orders
  import opened Diff3
  import opened Trees
  import opened MergeDriver

  // ----- lines -----

  /** A line feed ends every line but the last, and stands nowhere else. */
  ghost predicate AreLines(ls: seq<Line>) {
    && (forall k :: 0 <= k < |ls| - 1 ==> EndsLine(ls[k]))
    && (ls != [] ==> NEWLINE !in ls[|ls| - 1])
  }

  predicate EndsLine(l: Line) {
    l != [] && l[|l| - 1] == NEWLINE && NEWLINE !in l[..|l| - 1]
  }

  lemma LongerLine(c: byte, l: Line)
    requires c != NEWLINE
    ensures EndsLine(l) ==> EndsLine([c] + l)
    ensures NEWLINE !in l ==> NEWLINE !in [c] + l
  {
    if EndsLine(l) { assert ([c] + l)[..|l|] == [c] + l[..|l| - 1]; }
  }

  lemma {:induction false} SplitIsLines(s: Bytes)
    ensures AreLines(SplitAfter(s))
  {
    if s != [] {
      SplitIsLines(s[1..]);
      if s[0] != NEWLINE { LongerLine(s[0], SplitAfter(s[1..])[0]); }
    }
  }

  /** Content is cut after every line feed and nowhere else; no content has no lines. */
  lemma LinesAreCut(s: Bytes)
    ensures AreLines(Lines(s)) && (Lines(s) == [] <==> s == [])
    ensures JoinLines(Lines(s)) == s
  {
    SplitIsLines(s);
    JoinOfLines(s);
  }

  // ----- a path both sides changed -----

  /** Both sides differ from the base and from each other. */
  predicate Diverged(b: Option<File>, o: Option<File>, t: Option<File>) {
    && !(o.None? && t.None?) && !(o.Some? && t.Some? && o.value.id == t.value.id)
    && !(o.Some? && b.Some? && o.value.id == b.value.id) && !(t.Some? && b.Some? && t.value.id == b.value.id)
    && !(o.None? && b.None?) && !(t.None? && b.None?)
  }

  /** What a file holds: nothing when there is no file or its id names no blob. */
  ghost predicate Holds(u: Store, f: Option<File>, content: Bytes) {
    match f
    case None => content == []
    case Some(file) =>
      && file.id in u && !u[file.id].Undecodable?
      && content == if u[file.id].BlobObj? then u[file.id].content else []
  }

  ghost predicate Unreadable(u: Store, f: Option<File>) {
    f.Some? && (f.value.id in u ==> u[f.value.id].Undecodable?)
  }

  /** A diverged path fails exactly when one of the three contents cannot be read. */
  lemma DivergedFails(w: World, u: Store, regen: Option<Regenerate>, p: Path, b: Option<File>, o: Option<File>, t: Option<File>)
    requires Diverged(b, o, t)
    ensures PathOutcome(w, u, regen, p, b, o, t).None? <==> Unreadable(u, b) || Unreadable(u, o) || Unreadable(u, t)
  {
  }

  /** What merge3 and the regenerator settle on for three contents. */
  ghost predicate SettlesOn(regen: Option<Regenerate>, p: Path, base: Bytes, ours: Bytes, theirs: Bytes, content: Bytes, how: How) {
    var (lines, conflict) := Merged(Lines(base), Lines(ours), Lines(theirs));
    if !conflict then content == JoinLines(lines) && how == Text
    else if regen.Some? && regen.value(p, base, ours, theirs).Some? then
      Some(content) == regen.value(p, base, ours, theirs) && how == Regenerated
    else content == JoinLines(lines) && how == Conflicted
  }

  lemma DivergedResolves(w: World, u: Store, regen: Option<Regenerate>, p: Path, b: Option<File>, o: Option<File>, t: Option<File>,
                         base: Bytes, ours: Bytes, theirs: Bytes)
    requires Diverged(b, o, t) && Holds(u, b, base) && Holds(u, o, ours) && Holds(u, t, theirs)
    ensures var r := Resolved(regen, p, base, ours, theirs);
            PathOutcome(w, u, regen, p, b, o, t) == Some(Outcome(Some(File(w.hash(BlobObj(r.0)), PickMode(o, t))), r.1))
  {
    assert !SameAsBase(o, b) && !SameAsBase(t, b);
    assert Content(u, b) == Some(base) && Content(u, o) == Some(ours) && Content(u, t) == Some(theirs);
  }

  /**
    A diverged path becomes the lines that merge3 makes of the three contents, joined: a text
    merge if they do not conflict, whatever the regenerator. If they do, the regenerator's
    content if it gives any, else those lines with their markers, and the path is in conflict.
   */
  lemma DivergedPath(w: World, u: Store, regen: Option<Regenerate>, p: Path, b: Option<File>, o: Option<File>, t: Option<File>,
                     base: Bytes, ours: Bytes, theirs: Bytes)
    requires Diverged(b, o, t) && Holds(u, b, base) && Holds(u, o, ours) && Holds(u, t, theirs)
    ensures exists content, how, mode ::
              && SettlesOn(regen, p, base, ours, theirs, content, how)
              && PathOutcome(w, u, regen, p, b, o, t) == Some(Outcome(Some(File(w.hash(BlobObj(content)), mode)), how))
  {
    var r := Resolved(regen, p, base, ours, theirs);
    DivergedResolves(w, u, regen, p, b, o, t, base, ours, theirs);
    assert SettlesOn(regen, p, base, ours, theirs, r.0, r.1);
  }

  lemma TextDiverged(w: World, u: Store, regen: Option<Regenerate>, p: Path, b: Option<File>, o: Option<File>, t: Option<File>)
    requires PathOutcome(w, u, regen, p, b, o, t).Some? && PathOutcome(w, u, regen, p, b, o, t).value.how == Text
    ensures Diverged(b, o, t) && !Unreadable(u, b) && !Unreadable(u, o) && !Unreadable(u, t)
  {
  }

  lemma Readably(u: Store, f: Option<File>) returns (content: Bytes)
    requires !Unreadable(u, f)
    ensures Holds(u, f, content)
  {
    content := Content(u, f).value;
  }

  /** A text merge is nothing else: the path diverged, and its lines merged without conflict. */
  lemma TextMergesOnly(w: World, u: Store, regen: Option<Regenerate>, p: Path, b: Option<File>, o: Option<File>, t: Option<File>)
    returns (base: Bytes, ours: Bytes, theirs: Bytes)
    requires PathOutcome(w, u, regen, p, b, o, t).Some? && PathOutcome(w, u, regen, p, b, o, t).value.how == Text
    ensures Diverged(b, o, t) && Holds(u, b, base) && Holds(u, o, ours) && Holds(u, t, theirs)
    ensures TextMerged(w, PathOutcome(w, u, regen, p, b, o, t).value.file, base, ours, theirs)
  {
    TextDiverged(w, u, regen, p, b, o, t);
    base := Readably(u, b);
    ours := Readably(u, o);
    theirs := Readably(u, t);
    DivergedResolves(w, u, regen, p, b, o, t, base, ours, theirs);
    TextIsClean(regen, p, base, ours, theirs);
  }

  lemma TextIsClean(regen: Option<Regenerate>, p: Path, base: Bytes, ours: Bytes, theirs: Bytes)
    ensures var r, m := Resolved(regen, p, base, ours, theirs), Merged(Lines(base), Lines(ours), Lines(theirs));
            r.1 == Text ==> r.0 == JoinLines(m.0) && !m.1
  {
  }

  /** The file is a blob of the lines the three contents merge to, without conflict. */
  ghost predicate TextMerged(w: World, f: Option<File>, base: Bytes, ours: Bytes, theirs: Bytes) {
    var (lines, conflict) := Merged(Lines(base), Lines(ours), Lines(theirs));
    !conflict && f.Some? && f.value.id == w.hash(BlobObj(JoinLines(lines)))
  }

  // ----- what a merge reports -----

  /** A list holds exactly the paths resolved that way, in the order of all paths. */
  lemma {:induction false} ListsArePaths(w: World, u: Store, regen: Option<Regenerate>, b: Files, o: Files, t: Files, ps: seq<Path>, how: How)
    requires Ascending(Less, ps)
    ensures Ascending(Less, PathsThat(w, u, regen, b, o, t, ps, how))
    ensures forall p :: p in PathsThat(w, u, regen, b, o, t, ps, how) <==> p in ps && ResolvedAs(OutcomeAt(w, u, regen, b, o, t, p), how)
  {
    if ps != [] {
      var n := |ps| - 1;
      ListsArePaths(w, u, regen, b, o, t, ps[..n], how);
      AppendAscending(ps, PathsThat(w, u, regen, b, o, t, ps[..n], how));
      IsResolved(w, u, regen, b, o, t, ps[n], how);
    }
  }

  /** A list taken from all paths but the last may be followed by the last. */
  lemma AppendAscending(ps: seq<Path>, ls: seq<Path>)
    requires ps != [] && Ascending(Less, ps) && Ascending(Less, ls) && forall p :: p in ls ==> p in ps[..|ps| - 1]
    ensures Ascending(Less, ls + [ps[|ps| - 1]])
    ensures forall p :: p in ps <==> p in ps[..|ps| - 1] || p == ps[|ps| - 1]
  {
    forall i | 0 <= i < |ls| ensures Less(ls[i], ps[|ps| - 1]) { assert ls[i] in ls; }
  }

  lemma IsResolved(w: World, u: Store, regen: Option<Regenerate>, b: Files, o: Files, t: Files, p: Path, how: How)
    ensures Is(w, u, regen, b, o, t, p, how) <==> ResolvedAs(OutcomeAt(w, u, regen, b, o, t, p), how)
  {
  }

  predicate ResolvedAs(out: Option<Outcome>, how: How) {
    out.Some? && out.value.how == how
  }

  lemma ListedExactly(w: World, u: Store, regen: Option<Regenerate>, b: Files, o: Files, t: Files, ps: seq<Path>, how: How, p: Path)
    requires ps == SortedSet(AllPaths(b, o, t))
    ensures p in PathsThat(w, u, regen, b, o, t, ps, how) <==> p in AllPaths(b, o, t) && Is(w, u, regen, b, o, t, p, how)
  {
    ListsArePaths(w, u, regen, b, o, t, ps, how);
    assert p in Elements(ps) <==> p in ps;
    IsResolved(w, u, regen, b, o, t, p, how);
  }

  /** The list of conflicts is empty exactly when no path is left with markers. */
  lemma NoneListed(w: World, u: Store, regen: Option<Regenerate>, b: Files, o: Files, t: Files, ps: seq<Path>)
    requires ps == SortedSet(AllPaths(b, o, t))
    ensures PathsThat(w, u, regen, b, o, t, ps, Conflicted) == [] <==> NoConflict(w, u, regen, b, o, t)
  {
    var ls := PathsThat(w, u, regen, b, o, t, ps, Conflicted);
    if ls == [] {
      forall p | p in AllPaths(b, o, t) ensures !Is(w, u, regen, b, o, t, p, Conflicted) {
        ListedExactly(w, u, regen, b, o, t, ps, Conflicted, p);
      }
    } else {
      assert ls[0] in ls;
      ListedExactly(w, u, regen, b, o, t, ps, Conflicted, ls[0]);
    }
  }

  /** The outcome of a path in three files. */
  ghost predicate Becomes(w: World, u: Store, regen: Option<Regenerate>, s: Inputs, p: Path, how: How) {
    (p in s.base || p in s.ours || p in s.theirs) && ResolvedAs(OutcomeAt(w, u, regen, s.base, s.ours, s.theirs, p), how)
  }

  datatype Inputs = Inputs(base: Files, ours: Files, theirs: Files)

  /** Every path is reported under what became of it, and in no other list. */
  lemma ReportedOnce(w: World, u: Store, regen: Option<Regenerate>, base: Option<Id>, ours: Option<Id>, theirs: Option<Id>,
                     r: TreeMerge, s: Inputs, p: Path)
    requires w.Valid() && Intact(w, u) && TreesMerged(w, u, regen, base, ours, theirs, r) && r.Merge?
    requires Flat(w, u, base) == Some(s.base) && Flat(w, u, ours) == Some(s.ours) && Flat(w, u, theirs) == Some(s.theirs)
    ensures p in r.clean <==> Becomes(w, u, regen, s, p, Clean)
    ensures p in r.textMerged <==> Becomes(w, u, regen, s, p, Text)
    ensures p in r.regenerated <==> Becomes(w, u, regen, s, p, Regenerated)
    ensures p in r.conflicts <==> Becomes(w, u, regen, s, p, Conflicted)
  {
    ListsBecome(w, u, regen, s, SortedSet(AllPaths(s.base, s.ours, s.theirs)), p);
  }

  lemma ListsBecome(w: World, u: Store, regen: Option<Regenerate>, s: Inputs, ps: seq<Path>, p: Path)
    requires ps == SortedSet(AllPaths(s.base, s.ours, s.theirs))
    ensures var ls := ListsFor(w, u, regen, s.base, s.ours, s.theirs, ps);
            && (p in ls.clean <==> Becomes(w, u, regen, s, p, Clean))
            && (p in ls.textMerged <==> Becomes(w, u, regen, s, p, Text))
            && (p in ls.regenerated <==> Becomes(w, u, regen, s, p, Regenerated))
            && (p in ls.conflicts <==> Becomes(w, u, regen, s, p, Conflicted))
  {
    ListedExactly(w, u, regen, s.base, s.ours, s.theirs, ps, Clean, p);
    ListedExactly(w, u, regen, s.base, s.ours, s.theirs, ps, Text, p);
    ListedExactly(w, u, regen, s.base, s.ours, s.theirs, ps, Regenerated, p);
    ListedExactly(w, u, regen, s.base, s.ours, s.theirs, ps, Conflicted, p);
    IsBecomes(w, u, regen, s, p);
  }

  lemma IsBecomes(w: World, u: Store, regen: Option<Regenerate>, s: Inputs, p: Path)
    ensures forall how :: p in AllPaths(s.base, s.ours, s.theirs) && Is(w, u, regen, s.base, s.ours, s.theirs, p, how) <==> Becomes(w, u, regen, s, p, how)
  {
    forall how ensures p in AllPaths(s.base, s.ours, s.theirs) && Is(w, u, regen, s.base, s.ours, s.theirs, p, how) <==> Becomes(w, u, regen, s, p, how) {
      IsResolved(w, u, regen, s.base, s.ours, s.theirs, p, how);
    }
  }
}
