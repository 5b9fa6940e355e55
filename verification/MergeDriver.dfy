/** varvig/internal/merge/merge.go: the merge of one path and the tree merge over all of them. */
module MergeDriver {
  import opened Basics
  import opened Objects
  import opened Orders
  import opened Diff3
  import opened Trees

  // ----- lines -----

  const NEWLINE: byte := 10

  /** strings.SplitAfter(s, "\n"). */
  function SplitAfter(s: Bytes): (ls: seq<Line>)
    ensures ls != []
  {
    if s == [] then [[]]
    else
      var rest := SplitAfter(s[1..]);
      if s[0] == NEWLINE then [[NEWLINE]] + rest
      else [[s[0]] + rest[0]] + rest[1..]
  }

  function Lines(s: Bytes): seq<Line> {
    if s == [] then [] else SplitAfter(s)
  }

  /** strings.Join(ls, ""). */
  function JoinLines(ls: seq<Line>): Bytes {
    if ls == [] then [] else ls[0] + JoinLines(ls[1..])
  }

  lemma JoinFirst(l: Line, rest: seq<Line>)
    ensures JoinLines([l] + rest) == l + JoinLines(rest)
  {
    assert ([l] + rest)[1..] == rest;
  }

  lemma JoinLonger(c: byte, rest: seq<Line>)
    requires rest != []
    ensures JoinLines([[c] + rest[0]] + rest[1..]) == [c] + JoinLines(rest)
  {
    var first, more := rest[0], rest[1..];
    JoinFirst([c] + first, more);
    assert ([c] + first) + JoinLines(more) == [c] + (first + JoinLines(more));
  }

  lemma {:induction false} JoinSplitAfter(s: Bytes)
    ensures JoinLines(SplitAfter(s)) == s
  {
    if s != [] {
      JoinSplitAfter(s[1..]);
      var rest := SplitAfter(s[1..]);
      JoinFirst([NEWLINE], rest);
      JoinLonger(s[0], rest);
      assert s == [s[0]] + s[1..];
    }
  }

  /** Splitting into lines and joining them is exact. */
  lemma JoinOfLines(s: Bytes)
    ensures JoinLines(Lines(s)) == s
  {
    JoinSplitAfter(s);
  }

  // ----- one path -----

  /** A regenerator with the incoming intent already supplied: it may decline. */
  type Regenerate = (Path, Bytes, Bytes, Bytes) -> Option<Bytes>

  datatype How = Absent | Clean | Text | Regenerated | Conflicted

  /** What becomes of one path. */
  datatype Outcome = Outcome(file: Option<File>, how: How)

  function Get(files: Files, p: Path): Option<File> {
    if p in files then Some(files[p]) else None
  }

  predicate SameAsBase(x: Option<File>, b: Option<File>) {
    match (x, b)
    case (None, None) => true
    case (Some(f), Some(g)) => f.id == g.id
    case _ => false
  }

  /** content: an absent file is empty; an object that cannot be read is an error (None). */
  function Content(u: Store, f: Option<File>): Option<Bytes> {
    if f.None? then Some([])
    else if f.value.id !in u || u[f.value.id].Undecodable? then None
    else if u[f.value.id].BlobObj? then Some(u[f.value.id].content)
    else Some([])
  }

  function PickMode(o: Option<File>, t: Option<File>): nat {
    if o.Some? then o.value.mode else if t.Some? then t.value.mode else MODE_FILE
  }

  /** The merged content of a path both sides changed, and how it came about. */
  function Resolved(regen: Option<Regenerate>, p: Path, base: Bytes, ours: Bytes, theirs: Bytes): (Bytes, How) {
    var m := Merged(Lines(base), Lines(ours), Lines(theirs));
    if !m.1 then (JoinLines(m.0), Text)
    else if regen.Some? && regen.value(p, base, ours, theirs).Some? then (regen.value(p, base, ours, theirs).value, Regenerated)
    else (JoinLines(m.0), Conflicted)
  }

  /** The switch of mergeTrees for one path; None is a read error. */
  function PathOutcome(w: World, u: Store, regen: Option<Regenerate>, p: Path,
                       b: Option<File>, o: Option<File>, t: Option<File>): Option<Outcome> {
    if o.Some? && t.Some? && o.value.id == t.value.id then Some(Outcome(o, Clean))
    else if o.None? && t.None? then Some(Outcome(None, Absent))
    else if SameAsBase(o, b) then Some(Outcome(t, Clean))
    else if SameAsBase(t, b) then Some(Outcome(o, Clean))
    else
      var base, ours, theirs := Content(u, b), Content(u, o), Content(u, t);
      if base.None? || ours.None? || theirs.None? then None
      else
        var r := Resolved(regen, p, base.value, ours.value, theirs.value);
        Some(Outcome(Some(File(w.hash(BlobObj(r.0)), PickMode(o, t))), r.1))
  }

  // ----- all paths -----

  function AllPaths(b: Files, o: Files, t: Files): set<Path> {
    b.Keys + o.Keys + t.Keys
  }

  function OutcomeAt(w: World, u: Store, regen: Option<Regenerate>, b: Files, o: Files, t: Files, p: Path): Option<Outcome> {
    PathOutcome(w, u, regen, p, Get(b, p), Get(o, p), Get(t, p))
  }

  ghost predicate Readable(w: World, u: Store, regen: Option<Regenerate>, b: Files, o: Files, t: Files, ps: set<Path>) {
    forall p :: p in ps ==> OutcomeAt(w, u, regen, b, o, t, p).Some?
  }

  /** The merged path map, restricted to the paths `ps`. */
  function MergedOn(w: World, u: Store, regen: Option<Regenerate>, b: Files, o: Files, t: Files, ps: set<Path>): Files {
    map p | p in ps && OutcomeAt(w, u, regen, b, o, t, p).Some? && OutcomeAt(w, u, regen, b, o, t, p).value.file.Some?
      :: OutcomeAt(w, u, regen, b, o, t, p).value.file.value
  }

  function MergedFiles(w: World, u: Store, regen: Option<Regenerate>, b: Files, o: Files, t: Files): Files {
    MergedOn(w, u, regen, b, o, t, AllPaths(b, o, t))
  }

  predicate Is(w: World, u: Store, regen: Option<Regenerate>, b: Files, o: Files, t: Files, p: Path, how: How) {
    var out := OutcomeAt(w, u, regen, b, o, t, p);
    out.Some? && out.value.how == how
  }

  /** The paths of `ps` resolved one particular way, in order. */
  function PathsThat(w: World, u: Store, regen: Option<Regenerate>, b: Files, o: Files, t: Files, ps: seq<Path>, how: How): seq<Path> {
    if ps == [] then []
    else
      var n := |ps| - 1;
      PathsThat(w, u, regen, b, o, t, ps[..n], how) + if Is(w, u, regen, b, o, t, ps[n], how) then [ps[n]] else []
  }

  /** No path is left with conflict markers. */
  ghost predicate NoConflict(w: World, u: Store, regen: Option<Regenerate>, b: Files, o: Files, t: Files) {
    forall p :: p in AllPaths(b, o, t) ==> !Is(w, u, regen, b, o, t, p, Conflicted)
  }

  lemma OutcomeGrows(w: World, u: Store, v: Store, regen: Option<Regenerate>, b: Files, o: Files, t: Files, p: Path)
    requires Grows(u, v) && OutcomeAt(w, u, regen, b, o, t, p).Some?
    ensures OutcomeAt(w, v, regen, b, o, t, p) == OutcomeAt(w, u, regen, b, o, t, p)
  {
    ContentGrows(u, v, Get(b, p));
    ContentGrows(u, v, Get(o, p));
    ContentGrows(u, v, Get(t, p));
  }

  lemma ContentGrows(u: Store, v: Store, f: Option<File>)
    requires Grows(u, v)
    ensures Content(u, f).Some? ==> Content(v, f) == Content(u, f)
  {
  }

  lemma {:induction false} PathsThatGrow(w: World, u: Store, v: Store, regen: Option<Regenerate>, b: Files, o: Files, t: Files, ps: seq<Path>, how: How)
    requires Grows(u, v) && forall p :: p in ps ==> OutcomeAt(w, u, regen, b, o, t, p).Some?
    ensures PathsThat(w, v, regen, b, o, t, ps, how) == PathsThat(w, u, regen, b, o, t, ps, how)
  {
    if ps != [] {
      var n := |ps| - 1;
      PathsThatGrow(w, u, v, regen, b, o, t, ps[..n], how);
      assert ps[n] in ps;
      OutcomeGrows(w, u, v, regen, b, o, t, ps[n]);
    }
  }

  lemma MergedOnGrows(w: World, u: Store, v: Store, regen: Option<Regenerate>, b: Files, o: Files, t: Files, ps: set<Path>)
    requires Grows(u, v) && Readable(w, u, regen, b, o, t, ps)
    ensures Readable(w, v, regen, b, o, t, ps)
    ensures MergedOn(w, v, regen, b, o, t, ps) == MergedOn(w, u, regen, b, o, t, ps)
  {
    forall p | p in ps ensures OutcomeAt(w, v, regen, b, o, t, p) == OutcomeAt(w, u, regen, b, o, t, p) {
      OutcomeGrows(w, u, v, regen, b, o, t, p);
    }
  }

  // ----- mergeTrees -----

  datatype TreeMerge =
    | ReadError
    | Panic
    | Merge(tree: Id, clean: seq<Path>, textMerged: seq<Path>, regenerated: seq<Path>, conflicts: seq<Path>)

  /** The lists a merge reports. */
  datatype Lists = Lists(clean: seq<Path>, textMerged: seq<Path>, regenerated: seq<Path>, conflicts: seq<Path>)

  ghost function ListsFor(w: World, u: Store, regen: Option<Regenerate>, b: Files, o: Files, t: Files, ps: seq<Path>): Lists {
    Lists(PathsThat(w, u, regen, b, o, t, ps, Clean), PathsThat(w, u, regen, b, o, t, ps, Text),
          PathsThat(w, u, regen, b, o, t, ps, Regenerated), PathsThat(w, u, regen, b, o, t, ps, Conflicted))
  }

  /** The three contents merged line by line; what conflicts is handed to the regenerator. */
  method MergeContents(regen: Option<Regenerate>, p: Path, base: Bytes, ours: Bytes, theirs: Bytes) returns (content: Bytes, how: How)
    ensures (content, how) == Resolved(regen, p, base, ours, theirs)
  {
    var mergedLines, conflict := Merge3(Lines(base), Lines(ours), Lines(theirs));
    content, how := JoinLines(mergedLines), Text;
    if conflict {
      how := Conflicted;
      if regen.Some? {
        var out := regen.value(p, base, ours, theirs);
        if out.Some? { content, how := out.value, Regenerated; }
      }
    }
  }

  /** resolveConflict: the entry put for a path that diverged on both sides; None is a read error. */
  method ResolveConflict(objs: ObjectStore, regen: Option<Regenerate>, p: Path, b: Option<File>, o: Option<File>, t: Option<File>)
    returns (r: Option<Outcome>)
    requires objs.Valid()
    modifies objs
    ensures objs.Valid() && AddsFiles(old(objs.objs), objs.objs)
    ensures var base, ours, theirs := Content(old(objs.objs), b), Content(old(objs.objs), o), Content(old(objs.objs), t);
            if base.None? || ours.None? || theirs.None? then r.None? && objs.objs == old(objs.objs)
            else
              var m := Resolved(regen, p, base.value, ours.value, theirs.value);
              r == Some(Outcome(Some(File(objs.w.hash(BlobObj(m.0)), PickMode(o, t))), m.1))
  {
    var baseC := Content(objs.objs, b);
    if baseC.None? { return None; }
    var oursC := Content(objs.objs, o);
    if oursC.None? { return None; }
    var theirsC := Content(objs.objs, t);
    if theirsC.None? { return None; }
    var content, how := MergeContents(regen, p, baseC.value, oursC.value, theirsC.value);
    var id := objs.Put(BlobObj(content));
    return Some(Outcome(Some(File(id, PickMode(o, t))), how));
  }

  /** The switch for one path. */
  method MergePath(objs: ObjectStore, regen: Option<Regenerate>, p: Path, b: Option<File>, o: Option<File>, t: Option<File>)
    returns (r: Option<Outcome>)
    requires objs.Valid()
    modifies objs
    ensures objs.Valid() && AddsFiles(old(objs.objs), objs.objs)
    ensures r == PathOutcome(objs.w, old(objs.objs), regen, p, b, o, t)
    ensures r.None? ==> objs.objs == old(objs.objs)
  {
    if o.Some? && t.Some? && o.value.id == t.value.id { return Some(Outcome(o, Clean)); }
    if o.None? && t.None? { return Some(Outcome(None, Absent)); }
    if SameAsBase(o, b) { return Some(Outcome(t, Clean)); }
    if SameAsBase(t, b) { return Some(Outcome(o, Clean)); }
    r := ResolveConflict(objs, regen, p, b, o, t);
  }

  method UnionPaths(b: Files, o: Files, t: Files) returns (ps: seq<Path>)
    ensures ps == SortedSet(AllPaths(b, o, t))
  {
    var todo := b.Keys + o.Keys + t.Keys;
    ps := [];
    while todo != {}
      invariant todo <= AllPaths(b, o, t)
      invariant NoDuplicates(ps) && Elements(ps) == AllPaths(b, o, t) - todo
    {
      var p :| p in todo;
      assert p !in Elements(ps);
      assert Elements(ps + [p]) == Elements(ps) + {p};
      ps := ps + [p];
      todo := todo - {p};
    }
    LessIsStrictTotal();
    SortAscendingBytes(ps);
    AscendingUnique(Less, Sort(Less, ps), SortedSet(AllPaths(b, o, t)));
    ps := Sort(Less, ps);
  }

  /** The state of the loop over the paths after the first `k`. */
  ghost predicate MergedUpTo(w: World, u: Store, regen: Option<Regenerate>, b: Files, o: Files, t: Files,
                             ps: seq<Path>, merged: Files, lists: Lists) {
    && Readable(w, u, regen, b, o, t, Elements(ps))
    && merged == MergedOn(w, u, regen, b, o, t, Elements(ps))
    && lists == ListsFor(w, u, regen, b, o, t, ps)
  }

  lemma MergedUpToGrows(w: World, u: Store, v: Store, regen: Option<Regenerate>, b: Files, o: Files, t: Files,
                        ps: seq<Path>, merged: Files, lists: Lists)
    requires Grows(u, v) && MergedUpTo(w, u, regen, b, o, t, ps, merged, lists)
    ensures MergedUpTo(w, v, regen, b, o, t, ps, merged, lists)
  {
    MergedOnGrows(w, u, v, regen, b, o, t, Elements(ps));
    forall p | p in ps ensures OutcomeAt(w, u, regen, b, o, t, p).Some? { assert p in Elements(ps); }
    forall how ensures PathsThat(w, v, regen, b, o, t, ps, how) == PathsThat(w, u, regen, b, o, t, ps, how) {
      PathsThatGrow(w, u, v, regen, b, o, t, ps, how);
    }
  }

  function AppendIf(ps: seq<Path>, p: Path, c: bool): seq<Path> {
    if c then ps + [p] else ps
  }

  lemma MergedUpToStep(w: World, u: Store, regen: Option<Regenerate>, b: Files, o: Files, t: Files,
                       ps: seq<Path>, merged: Files, lists: Lists, p: Path)
    requires MergedUpTo(w, u, regen, b, o, t, ps, merged, lists) && p !in ps
    requires OutcomeAt(w, u, regen, b, o, t, p).Some?
    ensures var out := OutcomeAt(w, u, regen, b, o, t, p).value;
            MergedUpTo(w, u, regen, b, o, t, ps + [p],
                       if out.file.Some? then merged[p := out.file.value] else merged,
                       Lists(AppendIf(lists.clean, p, out.how == Clean), AppendIf(lists.textMerged, p, out.how == Text),
                             AppendIf(lists.regenerated, p, out.how == Regenerated), AppendIf(lists.conflicts, p, out.how == Conflicted)))
  {
    assert Elements(ps + [p]) == Elements(ps) + {p};
    MergedOnStep(w, u, regen, b, o, t, Elements(ps), p);
    PathsThatStep(w, u, regen, b, o, t, ps, p, Clean);
    PathsThatStep(w, u, regen, b, o, t, ps, p, Text);
    PathsThatStep(w, u, regen, b, o, t, ps, p, Regenerated);
    PathsThatStep(w, u, regen, b, o, t, ps, p, Conflicted);
  }

  lemma PathsThatStep(w: World, u: Store, regen: Option<Regenerate>, b: Files, o: Files, t: Files, ps: seq<Path>, p: Path, how: How)
    requires OutcomeAt(w, u, regen, b, o, t, p).Some?
    ensures PathsThat(w, u, regen, b, o, t, ps + [p], how)
            == AppendIf(PathsThat(w, u, regen, b, o, t, ps, how), p, OutcomeAt(w, u, regen, b, o, t, p).value.how == how)
  {
    assert (ps + [p])[..|ps|] == ps;
  }

  lemma MergedOnStep(w: World, u: Store, regen: Option<Regenerate>, b: Files, o: Files, t: Files, ps: set<Path>, p: Path)
    requires OutcomeAt(w, u, regen, b, o, t, p).Some? && p !in ps
    ensures var out := OutcomeAt(w, u, regen, b, o, t, p).value;
            MergedOn(w, u, regen, b, o, t, ps + {p}) ==
            if out.file.Some? then MergedOn(w, u, regen, b, o, t, ps)[p := out.file.value] else MergedOn(w, u, regen, b, o, t, ps)
  {
  }

  /** One more path, after those `done`. */
  method MergeNext(objs: ObjectStore, regen: Option<Regenerate>, b: Files, o: Files, t: Files, ghost done: seq<Path>, p: Path, merged: Files, lists: Lists)
    returns (ok: bool, merged': Files, lists': Lists)
    requires objs.Valid() && MergedUpTo(objs.w, objs.objs, regen, b, o, t, done, merged, lists) && p !in done
    modifies objs
    ensures objs.Valid() && AddsFiles(old(objs.objs), objs.objs)
    ensures ok ==> MergedUpTo(objs.w, objs.objs, regen, b, o, t, done + [p], merged', lists')
    ensures !ok ==> OutcomeAt(objs.w, objs.objs, regen, b, o, t, p).None?
  {
    ghost var before := objs.objs;
    var out := MergePath(objs, regen, p, Get(b, p), Get(o, p), Get(t, p));
    if out.None? { return false, merged, lists; }
    MergedUpToGrows(objs.w, before, objs.objs, regen, b, o, t, done, merged, lists);
    OutcomeGrows(objs.w, before, objs.objs, regen, b, o, t, p);
    MergedUpToStep(objs.w, objs.objs, regen, b, o, t, done, merged, lists, p);
    merged' := if out.value.file.Some? then merged[p := out.value.file.value] else merged;
    lists' := Lists(AppendIf(lists.clean, p, out.value.how == Clean), AppendIf(lists.textMerged, p, out.value.how == Text),
                    AppendIf(lists.regenerated, p, out.value.how == Regenerated), AppendIf(lists.conflicts, p, out.value.how == Conflicted));
    ok := true;
  }

  /** The loop over all paths; None is a read error. */
  method MergePaths(objs: ObjectStore, regen: Option<Regenerate>, b: Files, o: Files, t: Files, paths: seq<Path>)
    returns (ok: bool, merged: Files, lists: Lists)
    requires objs.Valid() && NoDuplicates(paths)
    modifies objs
    ensures objs.Valid() && AddsFiles(old(objs.objs), objs.objs)
    ensures ok ==> MergedUpTo(objs.w, objs.objs, regen, b, o, t, paths, merged, lists)
    ensures !ok ==> !Readable(objs.w, objs.objs, regen, b, o, t, Elements(paths))
  {
    merged, lists, ok := map[], Lists([], [], [], []), true;
    var k := 0;
    while k < |paths|
      invariant 0 <= k <= |paths| && objs.Valid() && AddsFiles(old(objs.objs), objs.objs)
      invariant MergedUpTo(objs.w, objs.objs, regen, b, o, t, paths[..k], merged, lists)
    {
      ok, merged, lists := MergeNext(objs, regen, b, o, t, paths[..k], paths[k], merged, lists);
      if !ok {
        assert paths[k] in Elements(paths);
        return;
      }
      assert paths[..k + 1] == paths[..k] + [paths[k]];
      k := k + 1;
    }
    assert paths[..|paths|] == paths;
  }

  /** What mergeTrees must have done, read in the store `u` it leaves behind. */
  ghost predicate TreesMerged(w: World, u: Store, regen: Option<Regenerate>,
                              base: Option<Id>, ours: Option<Id>, theirs: Option<Id>, r: TreeMerge)
    requires w.Valid() && Intact(w, u)
  {
    var b, o, t := Flat(w, u, base), Flat(w, u, ours), Flat(w, u, theirs);
    if b.None? || o.None? || t.None? || !Readable(w, u, regen, b.value, o.value, t.value, AllPaths(b.value, o.value, t.value)) then
      r == ReadError
    else
      var m := MergedFiles(w, u, regen, b.value, o.value, t.value);
      var ls := ListsFor(w, u, regen, b.value, o.value, t.value, SortedSet(AllPaths(b.value, o.value, t.value)));
      if !PrefixFree(m) then r == Panic
      else r == Merge(BuildId(w, m), ls.clean, ls.textMerged, ls.regenerated, ls.conflicts) && Built(w, u, m)
  }

  method MergeTrees(objs: ObjectStore, baseTree: Option<Id>, oursTree: Option<Id>, theirsTree: Option<Id>, regen: Option<Regenerate>)
    returns (r: TreeMerge)
    requires objs.Valid()
    modifies objs
    ensures objs.Valid() && AddsFiles(old(objs.objs), objs.objs)
    ensures TreesMerged(objs.w, objs.objs, regen, baseTree, oursTree, theirsTree, r)
  {
    var bf := Flatten(objs, baseTree);
    if bf.None? { return ReadError; }
    var of := Flatten(objs, oursTree);
    if of.None? { return ReadError; }
    var tf := Flatten(objs, theirsTree);
    if tf.None? { return ReadError; }
    ghost var u := objs.objs;
    var paths := UnionPaths(bf.value, of.value, tf.value);
    LessIsStrictTotal();
    AscendingNoDuplicates(Less, paths);
    var ok, merged, lists := MergePaths(objs, regen, bf.value, of.value, tf.value, paths);
    FlatGrows(objs.w, u, objs.objs, baseTree);
    FlatGrows(objs.w, u, objs.objs, oursTree);
    FlatGrows(objs.w, u, objs.objs, theirsTree);
    if !ok { return ReadError; }
    ghost var v := objs.objs;
    var tree := BuildTree(objs, merged);
    FlatGrows(objs.w, v, objs.objs, baseTree);
    FlatGrows(objs.w, v, objs.objs, oursTree);
    FlatGrows(objs.w, v, objs.objs, theirsTree);
    MergedUpToGrows(objs.w, v, objs.objs, regen, bf.value, of.value, tf.value, paths, merged, lists);
    if tree.None? { return Panic; }
    return Merge(tree.value, lists.clean, lists.textMerged, lists.regenerated, lists.conflicts);
  }

  lemma FlatGrows(w: World, u: Store, v: Store, id: Option<Id>)
    requires w.Valid() && Intact(w, u) && Intact(w, v) && Grows(u, v)
    requires Flat(w, u, id).Some?
    ensures Flat(w, v, id) == Flat(w, u, id)
  {
    if id.Some? { FlatTreeGrows(w, u, v, id.value, []); }
  }
}
