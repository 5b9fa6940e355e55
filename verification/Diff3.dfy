/**
  varvig/internal/merge/diff3.go: the longest-common-subsequence alignment and the
  line-level three-way merge built on it.
 */
module Diff3 {
  import opened Basics

  type Line = Bytes

  // ----- longest common subsequence -----

  lemma Reassociate<T>(x: seq<T>, y: seq<T>, z: seq<T>)
    ensures x + (y + z) == x + y + z
  {
  }

  type Pair = (nat, nat)

  /** `q` aligns equal elements of a[i..] and b[j..], strictly increasing in both coordinates. */
  ghost predicate IsAlignment<T>(a: seq<T>, b: seq<T>, i: nat, j: nat, q: seq<Pair>) {
    && (forall k :: 0 <= k < |q| ==> i <= q[k].0 < |a| && j <= q[k].1 < |b| && a[q[k].0] == b[q[k].1])
    && (forall k, l :: 0 <= k < l < |q| ==> q[k].0 < q[l].0 && q[k].1 < q[l].1)
  }

  /** The entry dp[i][j] of the table. */
  function Len<T(==)>(a: seq<T>, b: seq<T>, i: nat, j: nat): nat
    requires i <= |a| && j <= |b|
    decreases |a| - i + |b| - j
  {
    if i == |a| || j == |b| then 0
    else if a[i] == b[j] then Len(a, b, i + 1, j + 1) + 1
    else if Len(a, b, i + 1, j) >= Len(a, b, i, j + 1) then Len(a, b, i + 1, j)
    else Len(a, b, i, j + 1)
  }

  /** The pairs the greedy walk over the table emits from (i, j) on. */
  function Walk<T(==)>(a: seq<T>, b: seq<T>, i: nat, j: nat): (q: seq<Pair>)
    requires i <= |a| && j <= |b|
    ensures IsAlignment(a, b, i, j, q)
    ensures |q| == Len(a, b, i, j)
    decreases |a| - i + |b| - j
  {
    if i == |a| || j == |b| then []
    else if a[i] == b[j] then [(i, j)] + Walk(a, b, i + 1, j + 1)
    else if Len(a, b, i + 1, j) >= Len(a, b, i, j + 1) then Walk(a, b, i + 1, j)
    else Walk(a, b, i, j + 1)
  }

  /** No alignment is longer than the table says. */
  lemma {:induction false} LenIsMaximal<T>(a: seq<T>, b: seq<T>, i: nat, j: nat, q: seq<Pair>)
    requires i <= |a| && j <= |b| && IsAlignment(a, b, i, j, q)
    ensures |q| <= Len(a, b, i, j)
    decreases |a| - i + |b| - j
  {
    if q != [] {
      assert i <= q[0].0 < |a| && j <= q[0].1 < |b|;
      if a[i] == b[j] {
        assert forall k :: 0 < k < |q| ==> q[0].0 < q[k].0 && q[0].1 < q[k].1;
        LenIsMaximal(a, b, i + 1, j + 1, q[1..]);
      } else if q[0].0 > i {
        LenIsMaximal(a, b, i + 1, j, q);
      } else {
        LenIsMaximal(a, b, i, j + 1, q);
      }
    }
  }

  /** dp holds the table for the rows above `i`. */
  ghost predicate Filled<T>(a: seq<T>, b: seq<T>, dp: array2<nat>, i: int)
    reads dp
  {
    && dp.Length0 == |a| + 1 && dp.Length1 == |b| + 1 && -1 <= i
    && (forall k, l :: i < k <= |a| && 0 <= l <= |b| ==> dp[k, l] == Len(a, b, k, l))
  }

  /** One row of the table, right to left. */
  method FillRow<T(==)>(a: seq<T>, b: seq<T>, dp: array2<nat>, i: nat)
    requires i < |a| && Filled(a, b, dp, i) && dp[i, |b|] == 0
    modifies dp
    ensures Filled(a, b, dp, i - 1)
    ensures forall k, l :: 0 <= k <= |a| && k != i && 0 <= l <= |b| ==> dp[k, l] == old(dp[k, l])
  {
    var j := |b| - 1;
    while j >= 0
      invariant -1 <= j < |b|
      invariant forall k, l :: 0 <= k <= |a| && k != i && 0 <= l <= |b| ==> dp[k, l] == old(dp[k, l])
      invariant forall l :: j < l <= |b| ==> dp[i, l] == Len(a, b, i, l)
    {
      if a[i] == b[j] {
        dp[i, j] := dp[i + 1, j + 1] + 1;
      } else if dp[i + 1, j] >= dp[i, j + 1] {
        dp[i, j] := dp[i + 1, j];
      } else {
        dp[i, j] := dp[i, j + 1];
      }
      j := j - 1;
    }
  }

  /** The walk from the top left corner of a filled table. */
  method WalkTable<T(==)>(a: seq<T>, b: seq<T>, dp: array2<nat>) returns (pairs: seq<Pair>)
    requires Filled(a, b, dp, -1)
    ensures pairs == Walk(a, b, 0, 0)
  {
    pairs := [];
    var i, j := 0, 0;
    while i < |a| && j < |b|
      invariant 0 <= i <= |a| && 0 <= j <= |b|
      invariant pairs + Walk(a, b, i, j) == Walk(a, b, 0, 0)
      decreases |a| - i + |b| - j
    {
      if a[i] == b[j] {
        Reassociate(pairs, [(i, j)], Walk(a, b, i + 1, j + 1));
        pairs := pairs + [(i, j)];
        i, j := i + 1, j + 1;
      } else if dp[i + 1, j] >= dp[i, j + 1] {
        i := i + 1;
      } else {
        j := j + 1;
      }
    }
  }

  method LcsPairs<T(==)>(a: seq<T>, b: seq<T>) returns (pairs: seq<Pair>)
    ensures IsAlignment(a, b, 0, 0, pairs)
    ensures forall q :: IsAlignment(a, b, 0, 0, q) ==> |q| <= |pairs|
    ensures pairs == Walk(a, b, 0, 0)
  {
    var n, m := |a|, |b|;
    var dp := new nat[n + 1, m + 1]((_, _) => 0);
    var i := n - 1;
    while i >= 0
      invariant -1 <= i < n
      invariant Filled(a, b, dp, i)
      invariant forall k :: 0 <= k <= i ==> dp[k, m] == 0
    {
      FillRow(a, b, dp, i);
      i := i - 1;
    }
    pairs := WalkTable(a, b, dp);
    forall q | IsAlignment(a, b, 0, 0, q) ensures |q| <= |pairs| {
      LenIsMaximal(a, b, 0, 0, q);
    }
  }

  // ----- the anchors: ancestor lines both sides keep -----

  datatype Anchor = Anchor(o: nat, a: nat, b: nat)

  /** Ancestor index to the index of the line it is aligned with. */
  function MatchFrom(q: seq<Pair>): map<nat, nat> {
    if q == [] then map[] else MatchFrom(q[..|q| - 1])[q[|q| - 1].0 := q[|q| - 1].1]
  }

  function Match(o: seq<Line>, x: seq<Line>): map<nat, nat> {
    MatchFrom(Walk(o, x, 0, 0))
  }

  /** The anchors from ancestor line `k` on, without the end sentinel. */
  function Stable(ma: map<nat, nat>, mb: map<nat, nat>, k: nat, n: nat): seq<Anchor>
    requires k <= n
    decreases n - k
  {
    if k == n then []
    else if k in ma && k in mb then [Anchor(k, ma[k], mb[k])] + Stable(ma, mb, k + 1, n)
    else Stable(ma, mb, k + 1, n)
  }

  function Anchors(o: seq<Line>, a: seq<Line>, b: seq<Line>): seq<Anchor> {
    Stable(Match(o, a), Match(o, b), 0, |o|) + [Anchor(|o|, |a|, |b|)]
  }

  /** `m` is a strictly increasing matching of equal lines of `o` and `x`. */
  ghost predicate IsMatching(o: seq<Line>, x: seq<Line>, m: map<nat, nat>) {
    && (forall k :: k in m ==> k < |o| && m[k] < |x| && o[k] == x[m[k]])
    && (forall k, l :: k in m && l in m && k < l ==> m[k] < m[l])
  }

  lemma {:induction false} MatchFromMatching(o: seq<Line>, x: seq<Line>, q: seq<Pair>)
    requires IsAlignment(o, x, 0, 0, q)
    ensures IsMatching(o, x, MatchFrom(q))
    ensures q != [] ==> forall k :: k in MatchFrom(q) ==> k <= q[|q| - 1].0 && MatchFrom(q)[k] <= q[|q| - 1].1
  {
    if q != [] {
      MatchFromMatching(o, x, q[..|q| - 1]);
    }
  }

  lemma MatchIsMatching(o: seq<Line>, x: seq<Line>)
    ensures IsMatching(o, x, Match(o, x))
  {
    MatchFromMatching(o, x, Walk(o, x, 0, 0));
  }

  /** Anchors that advance through all three inputs from (po, pa, pb) and end at the sentinel. */
  predicate Advancing(o: seq<Line>, a: seq<Line>, b: seq<Line>, ans: seq<Anchor>, po: nat, pa: nat, pb: nat) {
    && ans != []
    && var an := ans[0];
    && po <= an.o <= |o| && pa <= an.a <= |a| && pb <= an.b <= |b|
    && if |ans| == 1 then an == Anchor(|o|, |a|, |b|)
       else
         && an.o < |o| && an.a < |a| && an.b < |b| && o[an.o] == a[an.a] == b[an.b]
         && Advancing(o, a, b, ans[1..], an.o + 1, an.a + 1, an.b + 1)
  }

  lemma {:induction false} StableAdvancing(o: seq<Line>, a: seq<Line>, b: seq<Line>,
                                           ma: map<nat, nat>, mb: map<nat, nat>, k: nat, po: nat, pa: nat, pb: nat)
    requires IsMatching(o, a, ma) && IsMatching(o, b, mb)
    requires po <= k <= |o| && pa <= |a| && pb <= |b|
    requires forall l :: l in ma && k <= l ==> pa <= ma[l]
    requires forall l :: l in mb && k <= l ==> pb <= mb[l]
    ensures Advancing(o, a, b, Stable(ma, mb, k, |o|) + [Anchor(|o|, |a|, |b|)], po, pa, pb)
    decreases |o| - k
  {
    var ans := Stable(ma, mb, k, |o|) + [Anchor(|o|, |a|, |b|)];
    if k < |o| {
      if k in ma && k in mb {
        StableAdvancing(o, a, b, ma, mb, k + 1, k + 1, ma[k] + 1, mb[k] + 1);
        assert ans[1..] == Stable(ma, mb, k + 1, |o|) + [Anchor(|o|, |a|, |b|)];
      } else {
        StableAdvancing(o, a, b, ma, mb, k + 1, po, pa, pb);
      }
    }
  }

  lemma AnchorsAdvance(o: seq<Line>, a: seq<Line>, b: seq<Line>)
    ensures Advancing(o, a, b, Anchors(o, a, b), 0, 0, 0)
  {
    MatchIsMatching(o, a);
    MatchIsMatching(o, b);
    StableAdvancing(o, a, b, Match(o, a), Match(o, b), 0, 0, 0, 0);
  }

  // ----- regions -----

  /** The stretch up to an anchor in each input, then the anchor line itself (none at the end). */
  datatype Region = Region(o: seq<Line>, a: seq<Line>, b: seq<Line>, anchor: seq<Line>)

  function Regions(o: seq<Line>, a: seq<Line>, b: seq<Line>, ans: seq<Anchor>, po: nat, pa: nat, pb: nat): seq<Region>
    requires Advancing(o, a, b, ans, po, pa, pb)
    decreases |ans|
  {
    var an := ans[0];
    var r := Region(o[po..an.o], a[pa..an.a], b[pb..an.b], if an.o < |o| then [a[an.a]] else []);
    if |ans| == 1 then [r] else [r] + Regions(o, a, b, ans[1..], an.o + 1, an.a + 1, an.b + 1)
  }

  function RegionsOf(o: seq<Line>, a: seq<Line>, b: seq<Line>): seq<Region> {
    AnchorsAdvance(o, a, b);
    Regions(o, a, b, Anchors(o, a, b), 0, 0, 0)
  }

  function MarkerOurs(): Line { Ascii("<<<<<<< ours\n") }
  function MarkerMid(): Line { Ascii("=======\n") }
  function MarkerTheirs(): Line { Ascii(">>>>>>> theirs\n") }

  predicate Conflicts(r: Region) {
    r.a != r.b && r.o != r.a && r.o != r.b
  }

  function Resolve(r: Region): seq<Line> {
    if r.a == r.b then r.a
    else if r.o == r.a then r.b
    else if r.o == r.b then r.a
    else [MarkerOurs()] + r.a + [MarkerMid()] + r.b + [MarkerTheirs()]
  }

  function Output(rs: seq<Region>): seq<Line> {
    if rs == [] then [] else Resolve(rs[0]) + rs[0].anchor + Output(rs[1..])
  }

  predicate AnyConflict(rs: seq<Region>) {
    exists k :: 0 <= k < |rs| && Conflicts(rs[k])
  }

  /** Reading one input back off the regions. */
  function ConcatO(rs: seq<Region>): seq<Line> {
    if rs == [] then [] else rs[0].o + rs[0].anchor + ConcatO(rs[1..])
  }

  function ConcatA(rs: seq<Region>): seq<Line> {
    if rs == [] then [] else rs[0].a + rs[0].anchor + ConcatA(rs[1..])
  }

  function ConcatB(rs: seq<Region>): seq<Line> {
    if rs == [] then [] else rs[0].b + rs[0].anchor + ConcatB(rs[1..])
  }

  /** The merge as a function: its output and whether any region conflicted. */
  function Merged(o: seq<Line>, a: seq<Line>, b: seq<Line>): (seq<Line>, bool) {
    var rs := RegionsOf(o, a, b);
    (Output(rs), AnyConflict(rs))
  }

  // ----- no edit is lost -----

  lemma SplitAround<T>(x: seq<T>, p: nat, q: nat)
    requires p <= q < |x|
    ensures x[p..] == x[p..q] + [x[q]] + x[q + 1..]
  {
  }

  /** The first region and the rest. */
  lemma RegionsSplit(o: seq<Line>, a: seq<Line>, b: seq<Line>, ans: seq<Anchor>, po: nat, pa: nat, pb: nat)
    requires Advancing(o, a, b, ans, po, pa, pb)
    ensures var rs, an := Regions(o, a, b, ans, po, pa, pb), ans[0];
            && rs != []
            && rs[0] == Region(o[po..an.o], a[pa..an.a], b[pb..an.b], if an.o < |o| then [a[an.a]] else [])
            && rs[1..] == if |ans| == 1 then [] else Regions(o, a, b, ans[1..], an.o + 1, an.a + 1, an.b + 1)
  {
  }

  lemma CoverO(rs: seq<Region>, own: seq<Line>, anchor: seq<Line>, rest: seq<Line>)
    requires rs != [] && rs[0].o == own && rs[0].anchor == anchor && ConcatO(rs[1..]) == rest
    ensures ConcatO(rs) == own + anchor + rest
  {
  }

  lemma CoverA(rs: seq<Region>, own: seq<Line>, anchor: seq<Line>, rest: seq<Line>)
    requires rs != [] && rs[0].a == own && rs[0].anchor == anchor && ConcatA(rs[1..]) == rest
    ensures ConcatA(rs) == own + anchor + rest
  {
  }

  lemma CoverB(rs: seq<Region>, own: seq<Line>, anchor: seq<Line>, rest: seq<Line>)
    requires rs != [] && rs[0].b == own && rs[0].anchor == anchor && ConcatB(rs[1..]) == rest
    ensures ConcatB(rs) == own + anchor + rest
  {
  }

  lemma {:induction false} RegionsCoverO(o: seq<Line>, a: seq<Line>, b: seq<Line>, ans: seq<Anchor>, po: nat, pa: nat, pb: nat)
    requires Advancing(o, a, b, ans, po, pa, pb)
    ensures ConcatO(Regions(o, a, b, ans, po, pa, pb)) == o[po..]
    decreases |ans|
  {
    RegionsSplit(o, a, b, ans, po, pa, pb);
    if |ans| > 1 {
      var an := ans[0];
      RegionsCoverO(o, a, b, ans[1..], an.o + 1, an.a + 1, an.b + 1);
      SplitAround(o, po, an.o);
      CoverO(Regions(o, a, b, ans, po, pa, pb), o[po..an.o], [o[an.o]], o[an.o + 1..]);
    } else {
      assert o[po..] + [] + [] == o[po..];
      CoverO(Regions(o, a, b, ans, po, pa, pb), o[po..], [], []);
    }
  }

  lemma {:induction false} RegionsCoverA(o: seq<Line>, a: seq<Line>, b: seq<Line>, ans: seq<Anchor>, po: nat, pa: nat, pb: nat)
    requires Advancing(o, a, b, ans, po, pa, pb)
    ensures ConcatA(Regions(o, a, b, ans, po, pa, pb)) == a[pa..]
    decreases |ans|
  {
    RegionsSplit(o, a, b, ans, po, pa, pb);
    if |ans| > 1 {
      var an := ans[0];
      RegionsCoverA(o, a, b, ans[1..], an.o + 1, an.a + 1, an.b + 1);
      SplitAround(a, pa, an.a);
      CoverA(Regions(o, a, b, ans, po, pa, pb), a[pa..an.a], [a[an.a]], a[an.a + 1..]);
    } else {
      assert a[pa..] + [] + [] == a[pa..];
      CoverA(Regions(o, a, b, ans, po, pa, pb), a[pa..], [], []);
    }
  }

  lemma {:induction false} RegionsCoverB(o: seq<Line>, a: seq<Line>, b: seq<Line>, ans: seq<Anchor>, po: nat, pa: nat, pb: nat)
    requires Advancing(o, a, b, ans, po, pa, pb)
    ensures ConcatB(Regions(o, a, b, ans, po, pa, pb)) == b[pb..]
    decreases |ans|
  {
    RegionsSplit(o, a, b, ans, po, pa, pb);
    if |ans| > 1 {
      var an := ans[0];
      RegionsCoverB(o, a, b, ans[1..], an.o + 1, an.a + 1, an.b + 1);
      SplitAround(b, pb, an.b);
      CoverB(Regions(o, a, b, ans, po, pa, pb), b[pb..an.b], [b[an.b]], b[an.b + 1..]);
    } else {
      assert b[pb..] + [] + [] == b[pb..];
      CoverB(Regions(o, a, b, ans, po, pa, pb), b[pb..], [], []);
    }
  }

  /** What a region may turn into: a side that changed it is never dropped. */
  ghost predicate KeepsEdits(r: Region, out: seq<Line>) {
    && (!Conflicts(r) ==> out == r.a || out == r.b)
    && (!Conflicts(r) && out != r.a ==> r.a == r.o)
    && (!Conflicts(r) && out != r.b ==> r.b == r.o)
    && (Conflicts(r) ==> ContainsBoth(out, r.a, r.b))
  }

  /** `x` and then `y` appear whole in `out`, without overlap. */
  ghost predicate ContainsBoth(out: seq<Line>, x: seq<Line>, y: seq<Line>) {
    exists i: nat, j: nat :: i + |x| <= j <= j + |y| <= |out| && out[i..][..|x|] == x && out[j..][..|y|] == y
  }

  lemma ResolveKeepsEdits(r: Region)
    ensures KeepsEdits(r, Resolve(r))
  {
    if Conflicts(r) {
      var out := Resolve(r);
      var i, j := 1, |r.a| + 2;
      assert out[i..][..|r.a|] == r.a && out[j..][..|r.b|] == r.b;
    }
  }

  /** The regions concatenate back to all three inputs and no region drops a one-sided edit. */
  lemma MergeLosesNothing(o: seq<Line>, a: seq<Line>, b: seq<Line>)
    ensures var rs := RegionsOf(o, a, b);
            && ConcatO(rs) == o && ConcatA(rs) == a && ConcatB(rs) == b
            && Merged(o, a, b) == (Output(rs), AnyConflict(rs))
            && (forall k :: 0 <= k < |rs| ==> KeepsEdits(rs[k], Resolve(rs[k])))
  {
    AnchorsAdvance(o, a, b);
    RegionsCoverO(o, a, b, Anchors(o, a, b), 0, 0, 0);
    RegionsCoverA(o, a, b, Anchors(o, a, b), 0, 0, 0);
    RegionsCoverB(o, a, b, Anchors(o, a, b), 0, 0, 0);
    forall r: Region ensures KeepsEdits(r, Resolve(r)) { ResolveKeepsEdits(r); }
  }

  // ----- laws -----

  lemma {:induction false} WalkSelf<T>(a: seq<T>, i: nat)
    requires i <= |a|
    ensures forall k :: 0 <= k < |Walk(a, a, i, i)| ==> Walk(a, a, i, i)[k].0 == Walk(a, a, i, i)[k].1
    decreases |a| - i
  {
    if i < |a| { WalkSelf(a, i + 1); }
  }

  lemma {:induction false} MatchFromDiagonal(q: seq<Pair>)
    requires forall k :: 0 <= k < |q| ==> q[k].0 == q[k].1
    ensures forall k :: k in MatchFrom(q) ==> MatchFrom(q)[k] == k
  {
    if q != [] { MatchFromDiagonal(q[..|q| - 1]); }
  }

  lemma MatchSelf(o: seq<Line>)
    ensures forall k :: k in Match(o, o) ==> Match(o, o)[k] == k
  {
    WalkSelf(o, 0);
    MatchFromDiagonal(Walk(o, o, 0, 0));
  }

  lemma {:induction false} StableCoordinates(ma: map<nat, nat>, mb: map<nat, nat>, k: nat, n: nat)
    requires k <= n
    ensures forall i :: 0 <= i < |Stable(ma, mb, k, n)| ==>
              var an := Stable(ma, mb, k, n)[i];
              an.o in ma && an.o in mb && an.a == ma[an.o] && an.b == mb[an.o]
    decreases n - k
  {
    if k < n { StableCoordinates(ma, mb, k + 1, n); }
  }

  lemma {:induction false} RegionsOursUntouched(o: seq<Line>, b: seq<Line>, ans: seq<Anchor>, po: nat, pb: nat)
    requires Advancing(o, o, b, ans, po, po, pb)
    requires forall k :: 0 <= k < |ans| ==> ans[k].o == ans[k].a
    ensures forall k :: 0 <= k < |Regions(o, o, b, ans, po, po, pb)| ==>
              Regions(o, o, b, ans, po, po, pb)[k].o == Regions(o, o, b, ans, po, po, pb)[k].a
    decreases |ans|
  {
    if |ans| > 1 { RegionsOursUntouched(o, b, ans[1..], ans[0].o + 1, ans[0].b + 1); }
  }

  lemma {:induction false} RegionsTheirsUntouched(o: seq<Line>, a: seq<Line>, ans: seq<Anchor>, po: nat, pa: nat)
    requires Advancing(o, a, o, ans, po, pa, po)
    requires forall k :: 0 <= k < |ans| ==> ans[k].o == ans[k].b
    ensures forall k :: 0 <= k < |Regions(o, a, o, ans, po, pa, po)| ==>
              Regions(o, a, o, ans, po, pa, po)[k].o == Regions(o, a, o, ans, po, pa, po)[k].b
    decreases |ans|
  {
    if |ans| > 1 { RegionsTheirsUntouched(o, a, ans[1..], ans[0].o + 1, ans[0].a + 1); }
  }

  lemma {:induction false} RegionsSidesEqual(o: seq<Line>, a: seq<Line>, ans: seq<Anchor>, po: nat, pa: nat)
    requires Advancing(o, a, a, ans, po, pa, pa)
    requires forall k :: 0 <= k < |ans| ==> ans[k].a == ans[k].b
    ensures forall k :: 0 <= k < |Regions(o, a, a, ans, po, pa, pa)| ==>
              Regions(o, a, a, ans, po, pa, pa)[k].a == Regions(o, a, a, ans, po, pa, pa)[k].b
    decreases |ans|
  {
    if |ans| > 1 { RegionsSidesEqual(o, a, ans[1..], ans[0].o + 1, ans[0].a + 1); }
  }

  lemma {:induction false} OutputTakesTheirs(rs: seq<Region>)
    requires forall k :: 0 <= k < |rs| ==> rs[k].o == rs[k].a
    ensures Output(rs) == ConcatB(rs) && !AnyConflict(rs)
  {
    if rs != [] { OutputTakesTheirs(rs[1..]); }
  }

  lemma {:induction false} OutputTakesOurs(rs: seq<Region>)
    requires forall k :: 0 <= k < |rs| ==> rs[k].o == rs[k].b || rs[k].a == rs[k].b
    ensures Output(rs) == ConcatA(rs) && !AnyConflict(rs)
  {
    if rs != [] { OutputTakesOurs(rs[1..]); }
  }

  /** A merge against an untouched side is the other side. */
  lemma MergeOursUntouched(o: seq<Line>, b: seq<Line>)
    ensures Merged(o, o, b) == (b, false)
  {
    AnchorsAdvance(o, o, b);
    MatchSelf(o);
    StableCoordinates(Match(o, o), Match(o, b), 0, |o|);
    RegionsOursUntouched(o, b, Anchors(o, o, b), 0, 0);
    OutputTakesTheirs(RegionsOf(o, o, b));
    MergeLosesNothing(o, o, b);
  }

  lemma MergeTheirsUntouched(o: seq<Line>, a: seq<Line>)
    ensures Merged(o, a, o) == (a, false)
  {
    AnchorsAdvance(o, a, o);
    MatchSelf(o);
    StableCoordinates(Match(o, a), Match(o, o), 0, |o|);
    RegionsTheirsUntouched(o, a, Anchors(o, a, o), 0, 0);
    OutputTakesOurs(RegionsOf(o, a, o));
    MergeLosesNothing(o, a, o);
  }

  /** Identical edits never conflict. */
  lemma MergeSidesEqual(o: seq<Line>, a: seq<Line>)
    ensures Merged(o, a, a) == (a, false)
  {
    AnchorsAdvance(o, a, a);
    StableCoordinates(Match(o, a), Match(o, a), 0, |o|);
    RegionsSidesEqual(o, a, Anchors(o, a, a), 0, 0);
    OutputTakesOurs(RegionsOf(o, a, a));
    MergeLosesNothing(o, a, a);
  }

  function SwapAnchors(ans: seq<Anchor>): seq<Anchor> {
    seq(|ans|, k requires 0 <= k < |ans| => Anchor(ans[k].o, ans[k].b, ans[k].a))
  }

  function SwapRegions(rs: seq<Region>): seq<Region> {
    seq(|rs|, k requires 0 <= k < |rs| => Region(rs[k].o, rs[k].b, rs[k].a, rs[k].anchor))
  }

  lemma {:induction false} StableSwap(ma: map<nat, nat>, mb: map<nat, nat>, k: nat, n: nat)
    requires k <= n
    ensures Stable(mb, ma, k, n) == SwapAnchors(Stable(ma, mb, k, n))
    decreases n - k
  {
    if k < n { StableSwap(ma, mb, k + 1, n); }
  }

  lemma {:induction false} RegionsSwap(o: seq<Line>, a: seq<Line>, b: seq<Line>, ans: seq<Anchor>, po: nat, pa: nat, pb: nat)
    requires Advancing(o, a, b, ans, po, pa, pb)
    ensures Advancing(o, b, a, SwapAnchors(ans), po, pb, pa)
    ensures Regions(o, b, a, SwapAnchors(ans), po, pb, pa) == SwapRegions(Regions(o, a, b, ans, po, pa, pb))
    decreases |ans|
  {
    if |ans| > 1 {
      RegionsSwap(o, a, b, ans[1..], ans[0].o + 1, ans[0].a + 1, ans[0].b + 1);
      assert SwapAnchors(ans)[1..] == SwapAnchors(ans[1..]);
    }
  }

  lemma {:induction false} OutputSwap(rs: seq<Region>)
    ensures AnyConflict(SwapRegions(rs)) == AnyConflict(rs)
    ensures !AnyConflict(rs) ==> Output(SwapRegions(rs)) == Output(rs)
  {
    var sw := SwapRegions(rs);
    if k :| 0 <= k < |rs| && Conflicts(rs[k]) { assert Conflicts(sw[k]); }
    if k :| 0 <= k < |sw| && Conflicts(sw[k]) { assert Conflicts(rs[k]); }
    if rs != [] {
      OutputSwap(rs[1..]);
      assert SwapRegions(rs)[1..] == SwapRegions(rs[1..]);
      if !AnyConflict(rs) { assert !Conflicts(rs[0]); }
    }
  }

  /** Which side is called "ours" does not decide whether there is a conflict, nor a clean result. */
  lemma MergeSymmetric(o: seq<Line>, a: seq<Line>, b: seq<Line>)
    ensures Merged(o, b, a).1 == Merged(o, a, b).1
    ensures !Merged(o, a, b).1 ==> Merged(o, b, a).0 == Merged(o, a, b).0
  {
    AnchorsAdvance(o, a, b);
    AnchorsAdvance(o, b, a);
    StableSwap(Match(o, a), Match(o, b), 0, |o|);
    assert Anchors(o, b, a) == SwapAnchors(Anchors(o, a, b));
    RegionsSwap(o, a, b, Anchors(o, a, b), 0, 0, 0);
    OutputSwap(RegionsOf(o, a, b));
  }

  // ----- the merge itself -----

  method EqualLines(x: seq<Line>, y: seq<Line>) returns (eq: bool)
    ensures eq <==> x == y
  {
    if |x| != |y| { return false; }
    for i := 0 to |x|
      invariant forall k :: 0 <= k < i ==> x[k] == y[k]
    {
      if x[i] != y[i] { return false; }
    }
    return true;
  }

  method MatchMap(o: seq<Line>, x: seq<Line>) returns (m: map<nat, nat>)
    ensures m == Match(o, x)
  {
    var pairs := LcsPairs(o, x);
    m := map[];
    for k := 0 to |pairs|
      invariant m == MatchFrom(pairs[..k])
    {
      m := m[pairs[k].0 := pairs[k].1];
      assert pairs[..k + 1][..k] == pairs[..k];
    }
    assert pairs[..|pairs|] == pairs;
  }

  /** Emits one region and the anchor line after it. */
  method EmitRegion(merged: seq<Line>, r: Region) returns (out: seq<Line>, conflict: bool)
    ensures out == merged + (Resolve(r) + r.anchor)
    ensures conflict == Conflicts(r)
  {
    var sidesEqual := EqualLines(r.a, r.b);
    var oursSame := EqualLines(r.o, r.a);
    var theirsSame := EqualLines(r.o, r.b);
    conflict := false;
    if sidesEqual {
      out := merged + r.a;
    } else if oursSame {
      out := merged + r.b;
    } else if theirsSame {
      out := merged + r.a;
    } else {
      conflict := true;
      out := merged + [MarkerOurs()];
      out := out + r.a;
      out := out + [MarkerMid()];
      out := out + r.b;
      out := out + [MarkerTheirs()];
    }
    assert out == merged + Resolve(r);
    out := out + r.anchor;
  }

  method CollectStable(ma: map<nat, nat>, mb: map<nat, nat>, n: nat) returns (anchors: seq<Anchor>)
    ensures anchors == Stable(ma, mb, 0, n)
  {
    anchors := [];
    for oi := 0 to n
      invariant anchors + Stable(ma, mb, oi, n) == Stable(ma, mb, 0, n)
    {
      if oi in ma && oi in mb {
        Reassociate(anchors, [Anchor(oi, ma[oi], mb[oi])], Stable(ma, mb, oi + 1, n));
        anchors := anchors + [Anchor(oi, ma[oi], mb[oi])];
      }
    }
  }

  method FindAnchors(o: seq<Line>, a: seq<Line>, b: seq<Line>) returns (anchors: seq<Anchor>)
    ensures anchors == Anchors(o, a, b)
  {
    var matchA := MatchMap(o, a);
    var matchB := MatchMap(o, b);
    anchors := CollectStable(matchA, matchB, |o|);
    anchors := anchors + [Anchor(|o|, |a|, |b|)];
  }

  method Merge3(o: seq<Line>, a: seq<Line>, b: seq<Line>) returns (merged: seq<Line>, conflict: bool)
    ensures (merged, conflict) == Merged(o, a, b)
  {
    var anchors := FindAnchors(o, a, b);
    AnchorsAdvance(o, a, b);
    merged, conflict := MergeRegions(o, a, b, anchors);
  }

  /** The regions still to emit when the loop stands at anchor `i`. */
  ghost predicate AtAnchor(o: seq<Line>, a: seq<Line>, b: seq<Line>, anchors: seq<Anchor>, i: nat,
                           po: nat, pa: nat, pb: nat, rest: seq<Region>) {
    && i <= |anchors|
    && (i < |anchors| ==> Advancing(o, a, b, anchors[i..], po, pa, pb) && rest == Regions(o, a, b, anchors[i..], po, pa, pb))
    && (i == |anchors| ==> rest == [])
  }

  lemma StepAnchor(o: seq<Line>, a: seq<Line>, b: seq<Line>, anchors: seq<Anchor>, i: nat,
                   po: nat, pa: nat, pb: nat, rest: seq<Region>)
    requires AtAnchor(o, a, b, anchors, i, po, pa, pb, rest) && i < |anchors|
    ensures var an := anchors[i];
            && po <= an.o <= |o| && pa <= an.a <= |a| && pb <= an.b <= |b| && (an.o < |o| ==> an.a < |a|)
            && rest != []
            && rest[0] == Region(o[po..an.o], a[pa..an.a], b[pb..an.b], if an.o < |o| then [a[an.a]] else [])
            && AtAnchor(o, a, b, anchors, i + 1, an.o + 1, an.a + 1, an.b + 1, rest[1..])
  {
    assert anchors[i..][1..] == anchors[i + 1..];
    RegionsSplit(o, a, b, anchors[i..], po, pa, pb);
  }

  /** The loop over the anchors. */
  method MergeRegions(o: seq<Line>, a: seq<Line>, b: seq<Line>, anchors: seq<Anchor>) returns (merged: seq<Line>, conflict: bool)
    requires Advancing(o, a, b, anchors, 0, 0, 0)
    ensures merged == Output(Regions(o, a, b, anchors, 0, 0, 0))
    ensures conflict == AnyConflict(Regions(o, a, b, anchors, 0, 0, 0))
  {
    ghost var all := Regions(o, a, b, anchors, 0, 0, 0);
    ghost var rest := all;
    assert anchors[0..] == anchors;
    merged, conflict := [], false;
    var prevO: int, prevA: int, prevB: int := -1, -1, -1;
    var i := 0;
    while i < |anchors|
      invariant 0 <= i <= |anchors| && prevO >= -1 && prevA >= -1 && prevB >= -1
      invariant AtAnchor(o, a, b, anchors, i, prevO + 1, prevA + 1, prevB + 1, rest)
      invariant merged + Output(rest) == Output(all)
      invariant (conflict || AnyConflict(rest)) == AnyConflict(all)
    {
      var an := anchors[i];
      StepAnchor(o, a, b, anchors, i, prevO + 1, prevA + 1, prevB + 1, rest);
      var r := Region(o[prevO + 1..an.o], a[prevA + 1..an.a], b[prevB + 1..an.b], if an.o < |o| then [a[an.a]] else []);
      FirstRegion(merged, rest);
      var conflicted: bool;
      merged, conflicted := EmitRegion(merged, r);
      conflict := conflict || conflicted;
      rest := rest[1..];
      prevO, prevA, prevB := an.o, an.a, an.b;
      i := i + 1;
    }
  }

  lemma ConflictSplit(rs: seq<Region>)
    requires rs != []
    ensures AnyConflict(rs) <==> Conflicts(rs[0]) || AnyConflict(rs[1..])
  {
    if k :| 0 <= k < |rs[1..]| && Conflicts(rs[1..][k]) { assert Conflicts(rs[k + 1]); }
    if k :| 0 <= k < |rs| && Conflicts(rs[k]) { assert k == 0 || Conflicts(rs[1..][k - 1]); }
  }

  lemma FirstRegion(merged: seq<Line>, rs: seq<Region>)
    requires rs != []
    ensures merged + Output(rs) == merged + (Resolve(rs[0]) + rs[0].anchor) + Output(rs[1..])
    ensures AnyConflict(rs) <==> Conflicts(rs[0]) || AnyConflict(rs[1..])
  {
    ConflictSplit(rs);
    Reassociate(merged, Resolve(rs[0]) + rs[0].anchor, Output(rs[1..]));
  }
}
