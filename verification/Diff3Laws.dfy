/**
  More of varvig/internal/merge/diff3.go: where merge3 cuts its inputs, what it writes for
  every cut, and that a common beginning of the three inputs stays out of the merge.
 */
module Diff3Laws {
  import opened Basics
  import opened Diff3

  // ----- every line both sides keep is an anchor -----

  lemma {:induction false} StableCount(ma: map<nat, nat>, mb: map<nat, nat>, k: nat, n: nat)
    requires k <= n
    ensures |Stable(ma, mb, k, n)| == |set l | l in ma.Keys * mb.Keys && k <= l < n|
    decreases n - k
  {
    var both := set l | l in ma.Keys * mb.Keys && k <= l < n;
    if k < n {
      StableCount(ma, mb, k + 1, n);
      var later := set l | l in ma.Keys * mb.Keys && k + 1 <= l < n;
      assert both == if k in ma && k in mb then later + {k} else later;
    } else {
      assert both == {};
    }
  }

  lemma {:induction false} RegionPerAnchor(o: seq<Line>, a: seq<Line>, b: seq<Line>, ans: seq<Anchor>, po: nat, pa: nat, pb: nat)
    requires Advancing(o, a, b, ans, po, pa, pb)
    ensures |Regions(o, a, b, ans, po, pa, pb)| == |ans|
    decreases |ans|
  {
    if |ans| > 1 { RegionPerAnchor(o, a, b, ans[1..], ans[0].o + 1, ans[0].a + 1, ans[0].b + 1); }
  }

  /** The inputs are cut at every ancestor line that both alignments keep. */
  lemma CutAtEveryKeptLine(o: seq<Line>, a: seq<Line>, b: seq<Line>)
    ensures |RegionsOf(o, a, b)| == |Match(o, a).Keys * Match(o, b).Keys| + 1
  {
    var ma, mb := Match(o, a), Match(o, b);
    AnchorsAdvance(o, a, b);
    RegionPerAnchor(o, a, b, Anchors(o, a, b), 0, 0, 0);
    StableCount(ma, mb, 0, |o|);
    MatchIsMatching(o, a);
    assert (set l | l in ma.Keys * mb.Keys && 0 <= l < |o|) == ma.Keys * mb.Keys;
  }

  // ----- what is written for each region -----

  /** What stands in the output for one region: a side that has it, or both between the markers. */
  ghost predicate Shows(r: Region, shown: seq<Line>) {
    if r.a == r.b || r.o == r.b then shown == r.a
    else if r.o == r.a then shown == r.b
    else shown == [Ascii("<<<<<<< ours\n")] + r.a + [Ascii("=======\n")] + r.b + [Ascii(">>>>>>> theirs\n")]
  }

  lemma {:induction false} OutputSplits(rs: seq<Region>, k: nat)
    requires k <= |rs|
    ensures Output(rs) == Output(rs[..k]) + Output(rs[k..])
  {
    if k == 0 {
      assert rs[..0] == [] && rs[0..] == rs;
    } else {
      OutputSplits(rs[1..], k - 1);
      assert rs[1..][..k - 1] == rs[..k][1..] && rs[1..][k - 1..] == rs[k..];
      Reassociate(Resolve(rs[0]) + rs[0].anchor, Output(rs[..k][1..]), Output(rs[k..]));
    }
  }

  /** The output shows every region in turn, each followed by the line it was cut at. */
  lemma OutputShowsEveryRegion(rs: seq<Region>, k: nat)
    requires k < |rs|
    ensures exists shown :: Shows(rs[k], shown) && Output(rs) == Output(rs[..k]) + (shown + rs[k].anchor + Output(rs[k + 1..]))
  {
    OutputSplits(rs, k);
    assert rs[k..][1..] == rs[k + 1..];
    assert Shows(rs[k], Resolve(rs[k]));
  }

  // ----- a common beginning -----

  /** `x'` is `x` below one more element. */
  ghost predicate IsBelow<T>(x: seq<T>, x': seq<T>) {
    |x'| == |x| + 1 && forall k :: 0 <= k < |x| ==> x'[k + 1] == x[k]
  }

  ghost predicate PairsBelow(q: seq<Pair>, q': seq<Pair>) {
    |q'| == |q| && forall k :: 0 <= k < |q| ==> q'[k] == (q[k].0 + 1, q[k].1 + 1)
  }

  lemma FirstPair(q: seq<Pair>, q': seq<Pair>, i: nat, j: nat)
    requires PairsBelow(q, q')
    ensures PairsBelow([(i, j)] + q, [(i + 1, j + 1)] + q')
  {
  }

  lemma {:induction false} WalkBelow<T>(a: seq<T>, b: seq<T>, a': seq<T>, b': seq<T>, i: nat, j: nat)
    requires i <= |a| && j <= |b| && IsBelow(a, a') && IsBelow(b, b')
    ensures Len(a', b', i + 1, j + 1) == Len(a, b, i, j)
    ensures PairsBelow(Walk(a, b, i, j), Walk(a', b', i + 1, j + 1))
    decreases |a| - i + |b| - j
  {
    if i < |a| && j < |b| {
      if a[i] == b[j] {
        WalkBelow(a, b, a', b', i + 1, j + 1);
        FirstPair(Walk(a, b, i + 1, j + 1), Walk(a', b', i + 2, j + 2), i, j);
      } else {
        WalkBelow(a, b, a', b', i + 1, j);
        WalkBelow(a, b, a', b', i, j + 1);
      }
    }
  }

  /** `m'` is the matching `m` one line further down, below a first line matched with itself. */
  ghost predicate IsShifted(m: map<nat, nat>, m': map<nat, nat>) {
    && 0 in m' && m'[0] == 0
    && (forall k: nat :: k in m ==> k + 1 in m' && m'[k + 1] == m[k] + 1)
    && (forall k: nat :: k in m' && k > 0 ==> k - 1 in m)
  }

  lemma ShiftedUpdate(m: map<nat, nat>, m': map<nat, nat>, i: nat, j: nat)
    requires IsShifted(m, m')
    ensures IsShifted(m[i := j], m'[i + 1 := j + 1])
  {
  }

  lemma {:induction false} MatchFromShift(q: seq<Pair>, q': seq<Pair>, s: seq<Pair>)
    requires PairsBelow(q, q') && s == [(0, 0)] + q'
    ensures IsShifted(MatchFrom(q), MatchFrom(s))
  {
    var n := |q|;
    if n == 0 {
      assert s[..0] == [] && s[0] == (0, 0);
    } else {
      assert s[..n] == [(0, 0)] + q'[..n - 1] && s[n] == q'[n - 1];
      MatchFromShift(q[..n - 1], q'[..n - 1], s[..n]);
      ShiftedUpdate(MatchFrom(q[..n - 1]), MatchFrom(s[..n]), q[n - 1].0, q[n - 1].1);
    }
  }

  lemma MatchShift(o: seq<Line>, x: seq<Line>, o': seq<Line>, x': seq<Line>)
    requires IsBelow(o, o') && IsBelow(x, x') && o'[0] == x'[0]
    ensures IsShifted(Match(o, x), Match(o', x'))
  {
    WalkBelow(o, x, o', x', 0, 0);
    MatchFromShift(Walk(o, x, 0, 0), Walk(o', x', 1, 1), Walk(o', x', 0, 0));
  }

  function Below(an: Anchor): Anchor {
    Anchor(an.o + 1, an.a + 1, an.b + 1)
  }

  ghost predicate AnchorsBelow(ans: seq<Anchor>, ans': seq<Anchor>) {
    |ans'| == |ans| && forall k :: 0 <= k < |ans| ==> ans'[k] == Below(ans[k])
  }

  lemma FirstAnchor(ans: seq<Anchor>, ans': seq<Anchor>, an: Anchor)
    requires AnchorsBelow(ans, ans')
    ensures AnchorsBelow([an] + ans, [Below(an)] + ans') && AnchorsBelow(ans + [an], ans' + [Below(an)])
  {
  }

  lemma {:induction false} StableBelow(ma: map<nat, nat>, mb: map<nat, nat>, ma': map<nat, nat>, mb': map<nat, nat>, k: nat, n: nat)
    requires k <= n && IsShifted(ma, ma') && IsShifted(mb, mb')
    ensures AnchorsBelow(Stable(ma, mb, k, n), Stable(ma', mb', k + 1, n + 1))
    decreases n - k
  {
    if k < n {
      StableBelow(ma, mb, ma', mb', k + 1, n);
      assert (k + 1 in ma' <==> k in ma) && (k + 1 in mb' <==> k in mb);
      if k in ma && k in mb {
        FirstAnchor(Stable(ma, mb, k + 1, n), Stable(ma', mb', k + 2, n + 1), Anchor(k, ma[k], mb[k]));
      }
    }
  }

  lemma FirstStable(ma: map<nat, nat>, mb: map<nat, nat>, ma': map<nat, nat>, mb': map<nat, nat>, n: nat)
    requires IsShifted(ma, ma') && IsShifted(mb, mb')
    ensures Stable(ma', mb', 0, n + 1) == [Anchor(0, 0, 0)] + Stable(ma', mb', 1, n + 1)
  {
  }

  /** The anchors of longer inputs that start with the same line: that line, then the others one line further down. */
  lemma AnchorsShift(o: seq<Line>, a: seq<Line>, b: seq<Line>, o': seq<Line>, a': seq<Line>, b': seq<Line>) returns (rest: seq<Anchor>)
    requires IsBelow(o, o') && IsBelow(a, a') && IsBelow(b, b') && o'[0] == a'[0] == b'[0]
    ensures Anchors(o', a', b') == [Anchor(0, 0, 0)] + rest && AnchorsBelow(Anchors(o, a, b), rest)
  {
    var ma, mb, ma', mb' := Match(o, a), Match(o, b), Match(o', a'), Match(o', b');
    var end, end' := Anchor(|o|, |a|, |b|), Anchor(|o'|, |a'|, |b'|);
    MatchShift(o, a, o', a');
    MatchShift(o, b, o', b');
    StableBelow(ma, mb, ma', mb', 0, |o|);
    FirstStable(ma, mb, ma', mb', |o|);
    rest := Stable(ma', mb', 1, |o'|) + [end'];
    FirstAnchor(Stable(ma, mb, 0, |o|), Stable(ma', mb', 1, |o'|), end);
    Reassociate([Anchor(0, 0, 0)], Stable(ma', mb', 1, |o'|), [end']);
  }

  lemma SliceBelow<T>(x: seq<T>, x': seq<T>, i: nat, j: nat)
    requires IsBelow(x, x') && i <= j <= |x|
    ensures x'[i + 1..j + 1] == x[i..j]
  {
  }

  /** The inputs can be cut from `from` up to `an`. */
  ghost predicate CanCut(o: seq<Line>, a: seq<Line>, b: seq<Line>, from: Anchor, an: Anchor) {
    from.o <= an.o <= |o| && from.a <= an.a <= |a| && from.b <= an.b <= |b| && (an.o < |o| ==> an.a < |a|)
  }

  ghost function Cut(o: seq<Line>, a: seq<Line>, b: seq<Line>, from: Anchor, an: Anchor): Region
    requires CanCut(o, a, b, from, an)
  {
    Region(o[from.o..an.o], a[from.a..an.a], b[from.b..an.b], if an.o < |o| then [a[an.a]] else [])
  }

  /** Where region k begins: just after the anchor before it. */
  ghost function Start(ans: seq<Anchor>, first: Anchor, k: nat): Anchor
    requires k < |ans|
  {
    if k == 0 then first else Below(ans[k - 1])
  }

  /** Region k lies between the anchors k - 1 and k. */
  lemma {:induction false} RegionBetween(o: seq<Line>, a: seq<Line>, b: seq<Line>, ans: seq<Anchor>, first: Anchor, k: nat)
    requires Advancing(o, a, b, ans, first.o, first.a, first.b) && k < |ans|
    ensures |Regions(o, a, b, ans, first.o, first.a, first.b)| == |ans| && CanCut(o, a, b, Start(ans, first, k), ans[k])
    ensures Regions(o, a, b, ans, first.o, first.a, first.b)[k] == Cut(o, a, b, Start(ans, first, k), ans[k])
    decreases |ans|
  {
    RegionPerAnchor(o, a, b, ans, first.o, first.a, first.b);
    RegionsSplit(o, a, b, ans, first.o, first.a, first.b);
    if k > 0 {
      var rs, next := Regions(o, a, b, ans, first.o, first.a, first.b), Below(ans[0]);
      RegionBetween(o, a, b, ans[1..], next, k - 1);
      assert rs[k] == rs[1..][k - 1] && Start(ans[1..], next, k - 1) == Start(ans, first, k);
    }
  }

  /** One region cut out of the longer inputs is the region cut out of the shorter. */
  lemma CutBelow(o: seq<Line>, a: seq<Line>, b: seq<Line>, from: Anchor, an: Anchor, o': seq<Line>, a': seq<Line>, b': seq<Line>)
    requires IsBelow(o, o') && IsBelow(a, a') && IsBelow(b, b') && CanCut(o, a, b, from, an)
    ensures CanCut(o', a', b', Below(from), Below(an)) && Cut(o', a', b', Below(from), Below(an)) == Cut(o, a, b, from, an)
  {
    SliceBelow(o, o', from.o, an.o);
    SliceBelow(a, a', from.a, an.a);
    SliceBelow(b, b', from.b, an.b);
  }

  lemma {:induction false} AdvancingBelow(o: seq<Line>, a: seq<Line>, b: seq<Line>, ans: seq<Anchor>, po: nat, pa: nat, pb: nat,
                                          o': seq<Line>, a': seq<Line>, b': seq<Line>, ans': seq<Anchor>)
    requires Advancing(o, a, b, ans, po, pa, pb) && AnchorsBelow(ans, ans')
    requires IsBelow(o, o') && IsBelow(a, a') && IsBelow(b, b')
    ensures Advancing(o', a', b', ans', po + 1, pa + 1, pb + 1)
    decreases |ans|
  {
    if |ans| > 1 {
      AdvancingBelow(o, a, b, ans[1..], ans[0].o + 1, ans[0].a + 1, ans[0].b + 1, o', a', b', ans'[1..]);
    }
  }

  lemma RegionBelow(o: seq<Line>, a: seq<Line>, b: seq<Line>, ans: seq<Anchor>,
                    o': seq<Line>, a': seq<Line>, b': seq<Line>, ans': seq<Anchor>, k: nat)
    requires Advancing(o, a, b, ans, 0, 0, 0) && Advancing(o', a', b', ans', 1, 1, 1) && AnchorsBelow(ans, ans')
    requires IsBelow(o, o') && IsBelow(a, a') && IsBelow(b, b') && k < |ans|
    ensures |Regions(o, a, b, ans, 0, 0, 0)| == |Regions(o', a', b', ans', 1, 1, 1)| == |ans|
    ensures Regions(o', a', b', ans', 1, 1, 1)[k] == Regions(o, a, b, ans, 0, 0, 0)[k]
  {
    var from, from' := Anchor(0, 0, 0), Anchor(1, 1, 1);
    RegionBetween(o, a, b, ans, from, k);
    RegionBetween(o', a', b', ans', from', k);
    assert Start(ans', from', k) == Below(Start(ans, from, k)) && ans'[k] == Below(ans[k]);
    CutBelow(o, a, b, Start(ans, from, k), ans[k], o', a', b');
  }

  lemma RegionsBelow(o: seq<Line>, a: seq<Line>, b: seq<Line>, ans: seq<Anchor>,
                     o': seq<Line>, a': seq<Line>, b': seq<Line>, ans': seq<Anchor>)
    requires Advancing(o, a, b, ans, 0, 0, 0) && Advancing(o', a', b', ans', 1, 1, 1) && AnchorsBelow(ans, ans')
    requires IsBelow(o, o') && IsBelow(a, a') && IsBelow(b, b')
    ensures Regions(o', a', b', ans', 1, 1, 1) == Regions(o, a, b, ans, 0, 0, 0)
  {
    RegionBelow(o, a, b, ans, o', a', b', ans', 0);
    forall k | 0 <= k < |ans| ensures Regions(o', a', b', ans', 1, 1, 1)[k] == Regions(o, a, b, ans, 0, 0, 0)[k] {
      RegionBelow(o, a, b, ans, o', a', b', ans', k);
    }
  }

  lemma FirstRegionOf(o: seq<Line>, a: seq<Line>, b: seq<Line>, ans: seq<Anchor>)
    requires Advancing(o, a, b, ans, 0, 0, 0) && |ans| > 1 && ans[0] == Anchor(0, 0, 0)
    ensures Regions(o, a, b, ans, 0, 0, 0) == [Region([], [], [], [o[0]])] + Regions(o, a, b, ans[1..], 1, 1, 1)
  {
  }

  lemma RegionsOfShift(o: seq<Line>, a: seq<Line>, b: seq<Line>, o': seq<Line>, a': seq<Line>, b': seq<Line>)
    requires IsBelow(o, o') && IsBelow(a, a') && IsBelow(b, b') && o'[0] == a'[0] == b'[0]
    ensures RegionsOf(o', a', b') == [Region([], [], [], [o'[0]])] + RegionsOf(o, a, b)
  {
    AnchorsAdvance(o, a, b);
    AnchorsAdvance(o', a', b');
    var rest := AnchorsShift(o, a, b, o', a', b');
    AdvancingBelow(o, a, b, Anchors(o, a, b), 0, 0, 0, o', a', b', rest);
    RegionsBelow(o, a, b, Anchors(o, a, b), o', a', b', rest);
    assert Anchors(o', a', b')[1..] == rest;
    FirstRegionOf(o', a', b', Anchors(o', a', b'));
  }

  lemma OutputAfterLine(c: Line, rs: seq<Region>)
    ensures Output([Region([], [], [], [c])] + rs) == [c] + Output(rs)
    ensures AnyConflict([Region([], [], [], [c])] + rs) <==> AnyConflict(rs)
  {
    var all := [Region([], [], [], [c])] + rs;
    assert all[1..] == rs;
    ConflictSplit(all);
    assert Resolve(all[0]) + all[0].anchor == [c];
  }

  lemma MergedBelow(o: seq<Line>, a: seq<Line>, b: seq<Line>, o': seq<Line>, a': seq<Line>, b': seq<Line>)
    requires IsBelow(o, o') && IsBelow(a, a') && IsBelow(b, b') && o'[0] == a'[0] == b'[0]
    ensures Merged(o', a', b') == ([o'[0]] + Merged(o, a, b).0, Merged(o, a, b).1)
  {
    RegionsOfShift(o, a, b, o', a', b');
    OutputAfterLine(o'[0], RegionsOf(o, a, b));
  }

  /** Taking the first element of a common beginning off again. */
  lemma Prepended<T>(x: seq<T>, z: seq<T>)
    requires x != []
    ensures x + z == [x[0]] + (x[1..] + z) && IsBelow(x[1..] + z, x + z) && (x + z)[0] == x[0]
  {
  }

  /** A common beginning of all three is written out once and never enters a conflict. */
  lemma {:induction false} CommonBeginning(x: seq<Line>, o: seq<Line>, a: seq<Line>, b: seq<Line>)
    ensures Merged(x + o, x + a, x + b) == (x + Merged(o, a, b).0, Merged(o, a, b).1)
  {
    if x == [] {
      assert x + o == o && x + a == a && x + b == b && x + Merged(o, a, b).0 == Merged(o, a, b).0;
    } else {
      CommonBeginning(x[1..], o, a, b);
      Prepended(x, o);
      Prepended(x, a);
      Prepended(x, b);
      Prepended(x, Merged(o, a, b).0);
      MergedBelow(x[1..] + o, x[1..] + a, x[1..] + b, x + o, x + a, x + b);
    }
  }

  // ----- which of two longest alignments -----

  /** Between equally long alignments the walk gives up lines of the first input first: c, c against d, c keeps the second c. */
  lemma TieSkipsFirstInput(c: Line, d: Line)
    requires c != d
    ensures IsAlignment([c, c], [d, c], 0, 0, [(0, 1)]) && Walk([c, c], [d, c], 0, 0) == [(1, 1)]
  {
    var a, b := [c, c], [d, c];
    assert Len(a, b, 2, 0) == Len(a, b, 2, 1) == Len(a, b, 2, 2) == Len(a, b, 1, 2) == Len(a, b, 0, 2) == 0;
    assert Len(a, b, 1, 1) == 1 && Len(a, b, 0, 1) == 1 && Len(a, b, 1, 0) == 1;
    assert Walk(a, b, 2, 2) == [] && Walk(a, b, 1, 1) == [(1, 1)] && Walk(a, b, 1, 0) == [(1, 1)];
  }
}
