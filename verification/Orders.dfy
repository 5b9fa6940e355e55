/**
  Sorting under a caller-supplied "less than", and the byte order of Go's
  bytes.Compare and string comparison. A strictly ascending sequence is determined
  by its set of elements, which is what makes every sorted encoding canonical.
 */
module Orders {
  import opened Basics

  /** Irreflexive and transitive. */
  ghost predicate StrictOrder<T(!new)>(less: (T, T) -> bool) {
    && (forall x :: !less(x, x))
    && (forall x, y, z :: less(x, y) && less(y, z) ==> less(x, z))
  }

  ghost predicate Ascending<T>(less: (T, T) -> bool, s: seq<T>) {
    forall i, j :: 0 <= i < j < |s| ==> less(s[i], s[j])
  }

  /** No later element is below an earlier one: the result of sort.Slice. */
  ghost predicate Sorted<T>(less: (T, T) -> bool, s: seq<T>) {
    forall i, j :: 0 <= i < j < |s| ==> !less(s[j], s[i])
  }

  /** Distinct elements of `xs` are comparable. */
  ghost predicate TotalOn<T>(less: (T, T) -> bool, xs: set<T>) {
    forall x, y :: x in xs && y in xs && x != y ==> less(x, y) || less(y, x)
  }

  predicate NoDuplicates<T(==)>(s: seq<T>) {
    forall i, j :: 0 <= i < j < |s| ==> s[i] != s[j]
  }

  ghost function Elements<T>(s: seq<T>): set<T> {
    set x | x in s
  }

  function Insert<T>(less: (T, T) -> bool, x: T, s: seq<T>): (r: seq<T>)
    ensures multiset(r) == multiset(s) + multiset{x}
    ensures |r| == |s| + 1
  {
    if s == [] then [x]
    else if less(s[0], x) then
      assert s == [s[0]] + s[1..];
      [s[0]] + Insert(less, x, s[1..])
    else
      [x] + s
  }

  /** sort.Slice on elements that are equal or can be told apart, so that the algorithm does not matter. */
  function Sort<T>(less: (T, T) -> bool, s: seq<T>): (r: seq<T>)
    ensures multiset(r) == multiset(s)
    ensures |r| == |s|
  {
    if s == [] then []
    else
      assert s == [s[0]] + s[1..];
      Insert(less, s[0], Sort(less, s[1..]))
  }

  lemma SplitLast<T>(s: seq<T>)
    requires s != []
    ensures s == s[..|s| - 1] + [s[|s| - 1]]
  {
  }

  lemma NoDuplicatesAppend<T>(s: seq<T>, x: T)
    requires NoDuplicates(s) && x !in s
    ensures NoDuplicates(s + [x])
  {
  }

  lemma ElementsPrefix<T>(s: seq<T>, k: nat)
    requires k < |s|
    ensures Elements(s[..k + 1]) == Elements(s[..k]) + {s[k]}
  {
    assert s[..k + 1] == s[..k] + [s[k]];
  }

  lemma InsertElements<T>(less: (T, T) -> bool, x: T, s: seq<T>)
    ensures Elements(Insert(less, x, s)) == Elements(s) + {x}
  {
    MultisetElements(Insert(less, x, s), s + [x]);
    assert forall y :: y in s + [x] <==> y in s || y == x;
  }

  lemma MultisetElements<T>(s: seq<T>, t: seq<T>)
    requires multiset(s) == multiset(t)
    ensures Elements(s) == Elements(t)
  {
    forall x ensures x in s <==> x in t {
      assert x in multiset(s) <==> x in s;
      assert x in multiset(t) <==> x in t;
    }
  }

  lemma MultisetNoDuplicates<T>(s: seq<T>, t: seq<T>)
    requires multiset(s) == multiset(t)
    requires NoDuplicates(s)
    ensures NoDuplicates(t)
  {
    forall i, j | 0 <= i < j < |t| ensures t[i] != t[j] {
      if t[i] == t[j] {
        assert t == t[..j] + [t[j]] + t[j + 1..];
        assert t[i] in multiset(t[..j]);
        assert multiset(t)[t[i]] >= 2;
        NoDuplicatesCount(s, t[i]);
      }
    }
  }

  lemma NoDuplicatesCount<T>(s: seq<T>, x: T)
    requires NoDuplicates(s)
    ensures multiset(s)[x] <= 1
  {
    if x in s {
      var k :| 0 <= k < |s| && s[k] == x;
      assert s == s[..k] + [s[k]] + s[k + 1..];
      assert x !in multiset(s[..k]) && x !in multiset(s[k + 1..]);
    }
  }

  lemma {:induction false} InsertAscending<T(!new)>(less: (T, T) -> bool, x: T, s: seq<T>)
    requires StrictOrder(less) && Ascending(less, s)
    requires x !in s && TotalOn(less, Elements(s) + {x})
    ensures Ascending(less, Insert(less, x, s))
  {
    if s != [] {
      if less(s[0], x) {
        InsertAscending(less, x, s[1..]);
        var r := Insert(less, x, s[1..]);
        forall k | 0 <= k < |r| ensures less(s[0], r[k]) {
          assert r[k] in multiset(r);
          assert r[k] == x || r[k] in s[1..];
        }
      } else {
        assert x in Elements(s) + {x} && s[0] in Elements(s) + {x};
        assert less(x, s[0]);
        forall k | 0 <= k < |s| ensures less(x, s[k]) { if k > 0 { assert less(s[0], s[k]); } }
      }
    }
  }

  lemma {:induction false} InsertSorted<T(!new)>(less: (T, T) -> bool, x: T, s: seq<T>)
    requires StrictOrder(less) && Sorted(less, s)
    requires forall a, b, c :: less(a, c) ==> less(a, b) || less(b, c)
    ensures Sorted(less, Insert(less, x, s))
  {
    if s != [] && less(s[0], x) {
      InsertSorted(less, x, s[1..]);
      var r := Insert(less, x, s[1..]);
      forall k | 0 <= k < |r| ensures !less(r[k], s[0]) {
        assert r[k] in multiset(r);
        assert r[k] == x || r[k] in s[1..];
      }
    } else {
      forall k | 0 <= k < |s| ensures !less(s[k], x) {
        var a, b := s[k], s[0];
        assert less(a, x) ==> less(a, b) || less(b, x);
      }
    }
  }

  /** Where incomparability is transitive, sort.Slice really sorts. */
  lemma {:induction false} SortSorted<T(!new)>(less: (T, T) -> bool, s: seq<T>)
    requires StrictOrder(less)
    requires forall a, b, c :: less(a, c) ==> less(a, b) || less(b, c)
    ensures Sorted(less, Sort(less, s))
  {
    if s != [] {
      SortSorted(less, s[1..]);
      InsertSorted(less, s[0], Sort(less, s[1..]));
    }
  }

  lemma {:induction false} SortAscending<T(!new)>(less: (T, T) -> bool, s: seq<T>)
    requires StrictOrder(less) && NoDuplicates(s) && TotalOn(less, Elements(s))
    ensures Ascending(less, Sort(less, s))
    ensures Elements(Sort(less, s)) == Elements(s)
  {
    MultisetElements(s, Sort(less, s));
    if s != [] {
      FirstIsOnce(s);
      SortAscending(less, s[1..]);
      var t := Sort(less, s[1..]);
      assert s[0] !in t by { assert s[0] !in Elements(t); }
      assert Elements(t) + {s[0]} == Elements(s);
      InsertAscending(less, s[0], t);
    }
  }

  lemma FirstIsOnce<T>(s: seq<T>)
    requires s != [] && NoDuplicates(s)
    ensures NoDuplicates(s[1..]) && s[0] !in Elements(s[1..]) && Elements(s) == Elements(s[1..]) + {s[0]}
  {
    assert s == [s[0]] + s[1..];
  }

  /** A strictly ascending sequence is determined by its elements. */
  lemma {:induction false} AscendingUnique<T(!new)>(less: (T, T) -> bool, s: seq<T>, t: seq<T>)
    requires StrictOrder(less) && Ascending(less, s) && Ascending(less, t)
    requires Elements(s) == Elements(t)
    ensures s == t
  {
    assert t == [] || t[0] in Elements(t);
    if s != [] {
      assert s[0] in Elements(s) && s[0] in t;
      assert t != [] && t[0] in s;
      assert s[0] == t[0];
      forall x ensures x in s[1..] <==> x in t[1..] {
        assert x in Elements(s) <==> x in Elements(t);
        if x in s[1..] { assert less(s[0], x); }
        if x in t[1..] { assert less(t[0], x); }
      }
      AscendingUnique(less, s[1..], t[1..]);
      assert s == [s[0]] + s[1..] && t == [t[0]] + t[1..];
    }
  }

  lemma AscendingNoDuplicates<T(!new)>(less: (T, T) -> bool, s: seq<T>)
    requires StrictOrder(less) && Ascending(less, s)
    ensures NoDuplicates(s)
  {
  }

  /** Sorting depends only on the elements, not on the order they arrive in. */
  lemma SortUnique<T(!new)>(less: (T, T) -> bool, s: seq<T>, t: seq<T>)
    requires StrictOrder(less) && NoDuplicates(s) && TotalOn(less, Elements(s))
    requires Ascending(less, t) && Elements(s) == Elements(t)
    ensures Sort(less, s) == t
  {
    SortAscending(less, s);
    AscendingUnique(less, Sort(less, s), t);
  }

  // ----- the byte order -----

  /** bytes.Compare(a, b) < 0. */
  predicate Less(a: Bytes, b: Bytes) {
    b != [] && (a == [] || a[0] < b[0] || (a[0] == b[0] && Less(a[1..], b[1..])))
  }

  /** The strings agree before position k, and there `a` ends or has the smaller byte. */
  ghost predicate DiffersAt(a: Bytes, b: Bytes, k: nat) {
    k <= |a| && k < |b| && a[..k] == b[..k] && (k == |a| || a[k] < b[k])
  }

  lemma {:induction false} LessDiffers(a: Bytes, b: Bytes) returns (k: nat)
    requires Less(a, b)
    ensures DiffersAt(a, b, k)
  {
    if a == [] || a[0] < b[0] {
      k := 0;
    } else {
      var j := LessDiffers(a[1..], b[1..]);
      k := j + 1;
      assert a[..k] == [a[0]] + a[1..][..j] && b[..k] == [b[0]] + b[1..][..j];
    }
  }

  lemma {:induction false} DiffersIsLess(a: Bytes, b: Bytes, k: nat)
    requires DiffersAt(a, b, k)
    ensures Less(a, b)
  {
    if k > 0 {
      assert a[0] == a[..k][0] == b[..k][0] == b[0];
      assert a[1..][..k - 1] == a[..k][1..] && b[1..][..k - 1] == b[..k][1..];
      DiffersIsLess(a[1..], b[1..], k - 1);
    }
  }

  /** Lexicographic: at the first difference the smaller byte, or the end of the shorter string, comes first. */
  lemma LessIsLexicographic(a: Bytes, b: Bytes)
    ensures Less(a, b) <==> exists k: nat :: DiffersAt(a, b, k)
  {
    if Less(a, b) { var k := LessDiffers(a, b); }
    if k: nat :| DiffersAt(a, b, k) { DiffersIsLess(a, b, k); }
  }

  lemma {:induction false} LessTransitive(a: Bytes, b: Bytes, c: Bytes)
    requires Less(a, b) && Less(b, c)
    ensures Less(a, c)
  {
    if a != [] && a[0] == b[0] == c[0] { LessTransitive(a[1..], b[1..], c[1..]); }
  }

  lemma {:induction false} LessIrreflexive(a: Bytes)
    ensures !Less(a, a)
  {
    if a != [] { LessIrreflexive(a[1..]); }
  }

  lemma {:induction false} LessTotal(a: Bytes, b: Bytes)
    ensures a == b || Less(a, b) || Less(b, a)
  {
    if a != [] && b != [] && a[0] == b[0] {
      LessTotal(a[1..], b[1..]);
      assert a == [a[0]] + a[1..] && b == [b[0]] + b[1..];
    }
  }

  lemma LessIsStrictTotal()
    ensures StrictOrder(Less)
    ensures forall x, y :: x == y || Less(x, y) || Less(y, x)
  {
    forall x ensures !Less(x, x) { LessIrreflexive(x); }
    forall x, y, z | Less(x, y) && Less(y, z) ensures Less(x, z) { LessTransitive(x, y, z); }
    forall x, y ensures x == y || Less(x, y) || Less(y, x) { LessTotal(x, y); }
  }

  lemma SortAscendingBytes(s: seq<Bytes>)
    requires NoDuplicates(s)
    ensures Ascending(Less, Sort(Less, s)) && Elements(Sort(Less, s)) == Elements(s)
  {
    LessIsStrictTotal();
    SortAscending(Less, s);
  }

  /** The members of a set in ascending order. */
  ghost function SortedSet(s: set<Bytes>): (r: seq<Bytes>)
    ensures Ascending(Less, r) && Elements(r) == s
  {
    if s == {} then []
    else
      var x :| x in s;
      var t := SortedSet(s - {x});
      LessIsStrictTotal();
      InsertAscending(Less, x, t);
      InsertElements(Less, x, t);
      Insert(Less, x, t)
  }

  /** Keeps one of each run of equal elements. */
  function Dedup(s: seq<Bytes>): seq<Bytes> {
    if |s| <= 1 then s
    else if s[0] == s[1] then Dedup(s[1..])
    else [s[0]] + Dedup(s[1..])
  }

  lemma {:induction false} DedupElements(s: seq<Bytes>)
    ensures Elements(Dedup(s)) == Elements(s)
    ensures s != [] ==> Dedup(s) != [] && Dedup(s)[0] == s[0]
  {
    if |s| > 1 {
      DedupElements(s[1..]);
      assert Elements(s) == {s[0]} + Elements(s[1..]);
      assert s[1..][0] in Elements(s[1..]);
    }
  }

  lemma {:induction false} DedupAscending(s: seq<Bytes>)
    requires Sorted(Less, s)
    ensures Ascending(Less, Dedup(s))
  {
    if |s| > 1 {
      DedupAscending(s[1..]);
      if s[0] != s[1] {
        DedupElements(s[1..]);
        LessIsStrictTotal();
        var t := Dedup(s[1..]);
        forall k | 0 <= k < |t| ensures Less(s[0], t[k]) {
          assert t[k] in Elements(s[1..]);
          var j :| 0 <= j < |s[1..]| && s[1..][j] == t[k];
          assert !Less(s[j + 1], s[0]) && !Less(s[1], s[0]) && (j > 0 ==> !Less(s[j + 1], s[1]));
        }
      }
    }
  }

  /** Identities sorted and without duplicates, as every id list is encoded. */
  function SortedUnique(ids: seq<Bytes>): seq<Bytes> {
    Dedup(Sort(Less, ids))
  }

  lemma SortedUniqueIsAscending(ids: seq<Bytes>)
    ensures Ascending(Less, SortedUnique(ids)) && Elements(SortedUnique(ids)) == Elements(ids)
  {
    LessIsStrictTotal();
    forall a, b, c | Less(a, c) ensures Less(a, b) || Less(b, c) { LessTotal(a, b); }
    SortSorted(Less, ids);
    DedupAscending(Sort(Less, ids));
    DedupElements(Sort(Less, ids));
    MultisetElements(ids, Sort(Less, ids));
  }

  /** The list depends only on which ids occur. */
  lemma SortedUniqueCanonical(a: seq<Bytes>, b: seq<Bytes>)
    requires Elements(a) == Elements(b)
    ensures SortedUnique(a) == SortedUnique(b)
  {
    SortedUniqueIsAscending(a);
    SortedUniqueIsAscending(b);
    LessIsStrictTotal();
    AscendingUnique(Less, SortedUnique(a), SortedUnique(b));
  }
}
