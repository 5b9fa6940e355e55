/**
  varvig/internal/gitobj/gitobj.go: Git tree bodies. Git compares entry names as if a
  directory's ended in '/', and everything else's in NUL; on names without those two bytes
  that is the lexicographic order of the names so extended.
 */
module GitTree {
  import opened Basics
  import opened GitObjects
  import opened Orders
  import opened Positions

  const SLASH: byte := 47
  const SPACE: byte := 32
  const NUL: byte := 0

  datatype TreeEntry = TreeEntry(mode: Bytes, name: Bytes, oid: Oid)

  // ----- the order -----

  function VirtualByte(name: Bytes, at: nat, dir: bool): nat {
    if at < |name| then name[at] else if dir then SLASH else NUL
  }

  function Min(a: nat, b: nat): nat {
    if b < a then b else a
  }

  /** treeLess. */
  predicate TreeLess(n1: Bytes, dir1: bool, n2: Bytes, dir2: bool) {
    var l := Min(|n1|, |n2|);
    if n1[..l] != n2[..l] then Less(n1[..l], n2[..l])
    else VirtualByte(n1, l, dir1) < VirtualByte(n2, l, dir2)
  }

  predicate PlainName(name: Bytes) {
    SLASH !in name && NUL !in name
  }

  /** The name as Git sorts it. */
  function Extended(name: Bytes, dir: bool): Bytes {
    name + [if dir then SLASH else NUL]
  }

  lemma {:induction false} LessOfPrefixes(a: Bytes, b: Bytes, x: Bytes, y: Bytes)
    requires |a| == |b| && a != b
    ensures Less(a + x, b + y) <==> Less(a, b)
  {
    if a[0] == b[0] {
      assert a == [a[0]] + a[1..] && b == [b[0]] + b[1..];
      assert (a + x)[1..] == a[1..] + x && (b + y)[1..] == b[1..] + y;
      LessOfPrefixes(a[1..], b[1..], x, y);
    }
  }

  lemma {:induction false} LessAfterPrefix(a: Bytes, x: Bytes, y: Bytes)
    ensures Less(a + x, a + y) <==> Less(x, y)
  {
    if a == [] {
      assert a + x == x && a + y == y;
    } else {
      assert (a + x)[1..] == a[1..] + x && (a + y)[1..] == a[1..] + y;
      LessAfterPrefix(a[1..], x, y);
    }
  }

  /** treeLess is the lexicographic order of the extended names. */
  lemma TreeLessIsLess(n1: Bytes, dir1: bool, n2: Bytes, dir2: bool)
    requires PlainName(n1) && PlainName(n2)
    ensures TreeLess(n1, dir1, n2, dir2) <==> Less(Extended(n1, dir1), Extended(n2, dir2))
  {
    var l := Min(|n1|, |n2|);
    var x, y := Extended(n1, dir1)[l..], Extended(n2, dir2)[l..];
    assert Extended(n1, dir1) == n1[..l] + x && Extended(n2, dir2) == n2[..l] + y;
    if n1[..l] != n2[..l] {
      LessOfPrefixes(n1[..l], n2[..l], x, y);
    } else {
      LessAfterPrefix(n1[..l], x, y);
      assert x[0] == VirtualByte(n1, l, dir1) && y[0] == VirtualByte(n2, l, dir2);
      assert l < |n1| ==> n1[l] in n1;
      assert l < |n2| ==> n2[l] in n2;
      if x[0] == y[0] { assert x[1..] == [] && y[1..] == []; }
    }
  }

  lemma ExtendedInjective(n1: Bytes, dir1: bool, n2: Bytes, dir2: bool)
    requires Extended(n1, dir1) == Extended(n2, dir2)
    ensures n1 == n2 && dir1 == dir2
  {
    var s := Extended(n1, dir1);
    assert n1 == s[..|s| - 1] && n2 == s[..|s| - 1];
    assert s[|s| - 1] == (if dir1 then SLASH else NUL) && s[|s| - 1] == (if dir2 then SLASH else NUL);
  }

  /** A strict total order: Git's order of tree entries is well defined. */
  lemma TreeLessTotal(n1: Bytes, dir1: bool, n2: Bytes, dir2: bool, n3: Bytes, dir3: bool)
    requires PlainName(n1) && PlainName(n2) && PlainName(n3)
    ensures !TreeLess(n1, dir1, n1, dir1)
    ensures TreeLess(n1, dir1, n2, dir2) && TreeLess(n2, dir2, n3, dir3) ==> TreeLess(n1, dir1, n3, dir3)
    ensures (n1 == n2 && dir1 == dir2) || TreeLess(n1, dir1, n2, dir2) || TreeLess(n2, dir2, n1, dir1)
  {
    TreeLessIsLess(n1, dir1, n1, dir1);
    TreeLessIsLess(n1, dir1, n2, dir2);
    TreeLessIsLess(n2, dir2, n1, dir1);
    TreeLessIsLess(n2, dir2, n3, dir3);
    TreeLessIsLess(n1, dir1, n3, dir3);
    var x, y, z := Extended(n1, dir1), Extended(n2, dir2), Extended(n3, dir3);
    LessIrreflexive(x);
    if Less(x, y) && Less(y, z) { LessTransitive(x, y, z); }
    LessTotal(x, y);
    if x == y { ExtendedInjective(n1, dir1, n2, dir2); }
  }

  // ----- bodies -----

  function EncodeEntry(e: TreeEntry): Bytes {
    e.mode + [SPACE] + e.name + [NUL] + e.oid
  }

  function EncodeAll(es: seq<TreeEntry>): Bytes {
    if es == [] then [] else EncodeEntry(es[0]) + EncodeAll(es[1..])
  }

  /** What a body can hold: the separators do not occur before their place. */
  predicate ValidEntry(e: TreeEntry) {
    SPACE !in e.mode && NUL !in e.name && |e.oid| == 20
  }

  ghost predicate AllValid(es: seq<TreeEntry>) {
    forall k :: 0 <= k < |es| ==> ValidEntry(es[k])
  }

  predicate EntryLess(x: TreeEntry, y: TreeEntry) {
    TreeLess(x.name, x.mode == MODE_TREE, y.name, y.mode == MODE_TREE)
  }

  // ----- reading bodies -----

  /** bytes.IndexByte from a position on. */
  function IndexOf(s: Bytes, from: nat, c: byte): (r: Option<nat>)
    requires from <= |s|
    ensures r.Some? ==> from <= r.value < |s| && s[r.value] == c && forall k :: from <= k < r.value ==> s[k] != c
    ensures r.None? ==> forall k :: from <= k < |s| ==> s[k] != c
    decreases |s| - from
  {
    if from == |s| then None else if s[from] == c then Some(from) else IndexOf(s, from + 1, c)
  }

  /** The entry that stands at `pos`. */
  function NextEntry(s: Bytes, pos: nat): Option<TreeEntry>
    requires pos <= |s|
  {
    var sp := IndexOf(s, pos, SPACE);
    if sp.None? then None
    else
      var nul := IndexOf(s, sp.value + 1, NUL);
      if nul.None? || nul.value + 1 + 20 > |s| then None
      else Some(TreeEntry(s[pos..sp.value], s[sp.value + 1..nul.value], s[nul.value + 1..nul.value + 1 + 20]))
  }

  lemma SliceStands(b: Bytes, s: Bytes, pos: nat)
    requires Stands(b, s, pos)
    ensures s[pos..pos + |b|] == b
  {
  }

  /** The parts of an entry, one after the other. */
  lemma EntryParts(e: TreeEntry, s: Bytes, pos: nat)
    ensures var sp := pos + |e.mode|; var nul := sp + 1 + |e.name|;
            Stands(EncodeEntry(e), s, pos) <==>
              Stands(e.mode, s, pos) && Stands([SPACE], s, sp) && Stands(e.name, s, sp + 1) && Stands([NUL], s, nul)
              && Stands(e.oid, s, nul + 1)
  {
    StandsConcat(e.mode + [SPACE] + e.name + [NUL], e.oid, s, pos);
    StandsConcat(e.mode + [SPACE] + e.name, [NUL], s, pos);
    StandsConcat(e.mode + [SPACE], e.name, s, pos);
    StandsConcat(e.mode, [SPACE], s, pos);
  }

  lemma IndexIs(s: Bytes, from: nat, c: byte, b: Bytes)
    requires Stands(b, s, from) && c !in b && Stands([c], s, from + |b|)
    ensures IndexOf(s, from, c) == Some(from + |b|)
  {
    assert s[from + |b|] == [c][0];
    forall k | from <= k < from + |b| ensures s[k] != c { assert b[k - from] in b; }
  }

  lemma NextEncodes(e: TreeEntry, s: Bytes, pos: nat)
    requires ValidEntry(e) && Stands(EncodeEntry(e), s, pos)
    ensures NextEntry(s, pos) == Some(e)
  {
    EntryParts(e, s, pos);
    var sp := pos + |e.mode|;
    var nul := sp + 1 + |e.name|;
    IndexIs(s, pos, SPACE, e.mode);
    IndexIs(s, sp + 1, NUL, e.name);
    SliceStands(e.mode, s, pos);
    SliceStands(e.name, s, sp + 1);
    SliceStands(e.oid, s, nul + 1);
  }

  lemma NextDecodes(s: Bytes, pos: nat)
    requires pos <= |s| && NextEntry(s, pos).Some?
    ensures ValidEntry(NextEntry(s, pos).value) && Stands(EncodeEntry(NextEntry(s, pos).value), s, pos)
  {
    EntryParts(NextEntry(s, pos).value, s, pos);
  }

  lemma {:induction false} EncodeAllAppend(es: seq<TreeEntry>, e: TreeEntry)
    ensures EncodeAll(es + [e]) == EncodeAll(es) + EncodeEntry(e)
  {
    var fs := es + [e];
    if es == [] {
      assert fs[1..] == [] && EncodeEntry(e) + [] == EncodeEntry(e);
    } else {
      assert fs[1..] == es[1..] + [e] && fs[0] == es[0];
      EncodeAllAppend(es[1..], e);
      Associate(EncodeEntry(es[0]), EncodeAll(es[1..]), EncodeEntry(e));
    }
  }

  lemma Associate(x: Bytes, y: Bytes, z: Bytes)
    ensures x + (y + z) == x + y + z
  {
  }

  /** The valid entries `done` stand up to `pos`. */
  ghost predicate Read(s: Bytes, done: seq<TreeEntry>, pos: nat) {
    AllValid(done) && Stands(EncodeAll(done), s, 0) && pos == |EncodeAll(done)|
  }

  lemma ReadOne(s: Bytes, done: seq<TreeEntry>, pos: nat, e: TreeEntry)
    requires Read(s, done, pos) && ValidEntry(e) && Stands(EncodeEntry(e), s, pos)
    ensures Read(s, done + [e], pos + |EncodeEntry(e)|)
  {
    EncodeAllAppend(done, e);
    StandsConcat(EncodeAll(done), EncodeEntry(e), s, 0);
  }

  /** Entries that fill `s` from `start` on go on, after those done, with one at `pos`. */
  lemma {:induction false} GoesOn(s: Bytes, start: nat, done: seq<TreeEntry>, pos: nat, es: seq<TreeEntry>)
    requires AllValid(done) && Stands(EncodeAll(done), s, start) && pos == start + |EncodeAll(done)| < |s|
    requires AllValid(es) && Stands(EncodeAll(es), s, start) && start + |EncodeAll(es)| == |s|
    ensures NextEntry(s, pos).Some?
    decreases |done|
  {
    assert es != [];
    StandsConcat(EncodeEntry(es[0]), EncodeAll(es[1..]), s, start);
    NextEncodes(es[0], s, start);
    if done != [] {
      StandsConcat(EncodeEntry(done[0]), EncodeAll(done[1..]), s, start);
      NextEncodes(done[0], s, start);
      GoesOn(s, start + |EncodeEntry(done[0])|, done[1..], pos, es[1..]);
    }
  }

  ghost predicate NoEntries(body: Bytes) {
    forall es :: AllValid(es) ==> EncodeAll(es) != body
  }

  lemma NoNext(s: Bytes, done: seq<TreeEntry>, pos: nat)
    requires Read(s, done, pos) && pos < |s| && NextEntry(s, pos).None?
    ensures NoEntries(s)
  {
    forall es | AllValid(es) ensures EncodeAll(es) != s {
      if EncodeAll(es) == s { GoesOn(s, 0, done, pos, es); }
    }
  }

  /** DecodeTree: exactly the bodies made of entries are accepted, and they give those entries. */
  method DecodeTree(body: Bytes) returns (r: Option<seq<TreeEntry>>)
    ensures r.Some? ==> AllValid(r.value) && EncodeAll(r.value) == body
    ensures r.None? ==> NoEntries(body)
  {
    var entries: seq<TreeEntry> := [];
    var i := 0;
    while i < |body|
      invariant i <= |body| && Read(body, entries, i)
      decreases |body| - i
    {
      var e, next := ReadEntry(body, i);
      if e.None? {
        NoNext(body, entries, i);
        return None;
      }
      NextDecodes(body, i);
      ReadOne(body, entries, i, e.value);
      entries := entries + [e.value];
      i := next;
    }
    SliceStands(EncodeAll(entries), body, 0);
    return Some(entries);
  }

  /** One entry and where the next one starts. */
  method ReadEntry(body: Bytes, i: nat) returns (e: Option<TreeEntry>, next: nat)
    requires i <= |body|
    ensures e == NextEntry(body, i)
    ensures e.Some? ==> next == i + |EncodeEntry(e.value)|
  {
    var sp := IndexOf(body, i, SPACE);
    if sp.None? { return None, i; }
    var mode := body[i..sp.value];
    var nul := IndexOf(body, sp.value + 1, NUL);
    if nul.None? { return None, i; }
    var name := body[sp.value + 1..nul.value];
    var at := nul.value + 1;
    if at + 20 > |body| { return None, i; }
    return Some(TreeEntry(mode, name, body[at..at + 20])), at + 20;
  }

  /** A body is at most one list of entries. */
  lemma {:induction false} EncodeAllInjective(es: seq<TreeEntry>, fs: seq<TreeEntry>)
    requires AllValid(es) && AllValid(fs) && EncodeAll(es) == EncodeAll(fs)
    ensures es == fs
  {
    if es != [] && fs != [] {
      var s := EncodeAll(es);
      StandsConcat(EncodeEntry(es[0]), EncodeAll(es[1..]), s, 0);
      StandsConcat(EncodeEntry(fs[0]), EncodeAll(fs[1..]), s, 0);
      NextEncodes(es[0], s, 0);
      NextEncodes(fs[0], s, 0);
      assert EncodeAll(es[1..]) == s[|EncodeEntry(es[0])|..] == EncodeAll(fs[1..]);
      EncodeAllInjective(es[1..], fs[1..]);
      assert es == [es[0]] + es[1..] && fs == [fs[0]] + fs[1..];
    }
  }

  /** The entries a body is made of, if it is. */
  ghost function TreeOf(body: Bytes): (r: Option<seq<TreeEntry>>)
    ensures r.Some? ==> AllValid(r.value) && EncodeAll(r.value) == body
    ensures r.None? ==> NoEntries(body)
  {
    if es :| AllValid(es) && EncodeAll(es) == body then Some(es) else None
  }

  lemma TreeOfEncoded(es: seq<TreeEntry>)
    requires AllValid(es)
    ensures TreeOf(EncodeAll(es)) == Some(es)
  {
    EncodeAllInjective(TreeOf(EncodeAll(es)).value, es);
  }

  /**
    sort.Slice under treeLess. A directory `x` and a name that starts with `x/` compare
    equal, and what sort.Slice does with equals is its own affair: it is a parameter.
   */
  type Arrange = seq<TreeEntry> -> seq<TreeEntry>

  /** What sort.Slice promises: the same entries, ascending where all names can be told apart. */
  ghost predicate Arranges(arrange: Arrange) {
    forall es :: multiset(arrange(es)) == multiset(es) && (PlainNames(es) ==> Ascending(EntryLess, arrange(es)))
  }

  method EncodeTree(arrange: Arrange, entries: seq<TreeEntry>) returns (body: Bytes)
    ensures body == EncodeAll(arrange(entries))
  {
    var es := arrange(entries);
    body := [];
    for k := 0 to |es|
      invariant body == EncodeAll(es[..k])
    {
      assert es[..k + 1] == es[..k] + [es[k]];
      EncodeAllAppend(es[..k], es[k]);
      body := body + EncodeEntry(es[k]);
    }
    assert es[..|es|] == es;
  }

  // ----- entries in Git order -----

  predicate ExtendedLess(x: TreeEntry, y: TreeEntry) {
    Less(Extended(x.name, x.mode == MODE_TREE), Extended(y.name, y.mode == MODE_TREE))
  }

  /** Names without '/' or NUL, all different. */
  ghost predicate PlainNames(es: seq<TreeEntry>) {
    && (forall k :: 0 <= k < |es| ==> PlainName(es[k].name))
    && (forall i, j :: 0 <= i < j < |es| ==> es[i].name != es[j].name)
  }

  lemma {:induction false} SortAgrees<T>(less: (T, T) -> bool, more: (T, T) -> bool, s: seq<T>)
    requires forall x, y :: x in s && y in s ==> (less(x, y) <==> more(x, y))
    ensures Sort(less, s) == Sort(more, s)
  {
    if s != [] {
      SortAgrees(less, more, s[1..]);
      var t := Sort(less, s[1..]);
      MultisetElements(s[1..], t);
      forall x | x in t ensures x in s { assert x in Elements(t); }
      InsertAgrees(less, more, s[0], t);
    }
  }

  lemma {:induction false} InsertAgrees<T>(less: (T, T) -> bool, more: (T, T) -> bool, x: T, s: seq<T>)
    requires forall y :: y in s ==> (less(y, x) <==> more(y, x))
    ensures Insert(less, x, s) == Insert(more, x, s)
  {
    if s != [] { InsertAgrees(less, more, x, s[1..]); }
  }

  /** Sorting entries with plain names gives the one arrangement in Git order. */
  lemma SortedInGitOrder(arrange: Arrange, es: seq<TreeEntry>, fs: seq<TreeEntry>)
    requires Arranges(arrange) && PlainNames(es) && multiset(es) == multiset(fs)
    ensures arrange(es) == fs <==> Ascending(EntryLess, fs)
  {
    if Ascending(EntryLess, fs) {
      var sorted := arrange(es);
      GitOrderTotal(es);
      AscendingExtended(es, sorted);
      AscendingExtended(es, fs);
      MultisetElements(es, fs);
      MultisetElements(es, sorted);
      AscendingUnique(ExtendedLess, sorted, fs);
    }
  }

  /** Among plain names both orders are one. */
  lemma AscendingExtended(es: seq<TreeEntry>, fs: seq<TreeEntry>)
    requires PlainNames(es) && multiset(es) == multiset(fs)
    ensures Ascending(EntryLess, fs) <==> Ascending(ExtendedLess, fs)
  {
    MultisetElements(es, fs);
    forall k | 0 <= k < |fs| ensures PlainName(fs[k].name) { assert fs[k] in Elements(fs); }
    forall i, j | 0 <= i < j < |fs| ensures EntryLess(fs[i], fs[j]) <==> ExtendedLess(fs[i], fs[j]) {
      TreeLessIsLess(fs[i].name, fs[i].mode == MODE_TREE, fs[j].name, fs[j].mode == MODE_TREE);
    }
  }

  /** An insertion sort, for one, keeps the promise. */
  lemma InsertionSortArranges()
    ensures Arranges(es => Sort(EntryLess, es))
  {
    forall es | PlainNames(es) ensures Ascending(EntryLess, Sort(EntryLess, es)) {
      forall x, y | x in es && y in es ensures EntryLess(x, y) <==> ExtendedLess(x, y) {
        TreeLessIsLess(x.name, x.mode == MODE_TREE, y.name, y.mode == MODE_TREE);
      }
      SortAgrees(EntryLess, ExtendedLess, es);
      GitOrderTotal(es);
      SortAscending(ExtendedLess, es);
      AscendingExtended(es, Sort(ExtendedLess, es));
    }
  }

  lemma GitOrderTotal(es: seq<TreeEntry>)
    requires PlainNames(es)
    ensures StrictOrder(ExtendedLess) && NoDuplicates(es) && TotalOn(ExtendedLess, Elements(es))
  {
    LessIsStrictTotal();
    forall x, y | x in Elements(es) && y in Elements(es) && x != y ensures ExtendedLess(x, y) || ExtendedLess(y, x) {
      var i :| 0 <= i < |es| && es[i] == x;
      var j :| 0 <= j < |es| && es[j] == y;
      assert i < j || j < i;
      LessTotal(Extended(x.name, x.mode == MODE_TREE), Extended(y.name, y.mode == MODE_TREE));
      if Extended(x.name, x.mode == MODE_TREE) == Extended(y.name, y.mode == MODE_TREE) {
        ExtendedInjective(x.name, x.mode == MODE_TREE, y.name, y.mode == MODE_TREE);
      }
    }
  }
}
