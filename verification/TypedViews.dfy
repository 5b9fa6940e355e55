/** varvig/internal/object/change.go: id lists and the typed view of a change over the raw field list. */
module TypedViews {
  import opened Basics
  import opened Orders
  import opened Objects
  import opened Records
  import opened Codec
  import Varint

  // ----- id lists -----

  predicate ValidBytes(s: Bytes) {
    |s| < U64
  }

  const IDS: Shape<Bytes> := Shape(Prefixed, ValidBytes, Less)

  lemma IdsPrefixCode()
    ensures PrefixCode(IDS) && StrictOrder(Less)
  {
    LessIsStrictTotal();
    forall x: Bytes, y: Bytes, s | Starts(Prefixed(x), s) && Starts(Prefixed(y), s) ensures x == y {
      PrefixedPrefixFree(x, y, s);
    }
  }

  /** encodeHashList, and the parents list of NewChange. */
  method EncodeHashList(ids: seq<Id>) returns (b: Bytes)
    ensures b == EncodeList(IDS, ids)
  {
    b := Varint.AppendUvarint([], |ids|);
    assert b == Varint.Encode(|ids|);
    for k := 0 to |ids|
      invariant b == Varint.Encode(|ids|) + EncodeAll(IDS, ids[..k])
    {
      assert ids[..k + 1] == ids[..k] + [ids[k]];
      EncodeAllAppend(IDS, ids[..k], ids[k]);
      Varint.Associate(Varint.Encode(|ids|), EncodeAll(IDS, ids[..k]), Prefixed(ids[k]));
      b := Varint.AppendUvarint(b, |ids[k]|);
      b := b + ids[k];
    }
    assert ids[..|ids|] == ids;
  }

  /** No id list encodes to `b`. */
  ghost predicate NoIdList(b: Bytes) {
    forall ids :: ValidList(IDS, ids) ==> EncodeList(IDS, ids) != b
  }

  lemma ListBody<T(!new)>(sh: Shape<T>, b: Bytes, n: nat, rest: Bytes, xs: seq<T>)
    requires n < U64 && b == Varint.Encode(n) + rest
    requires ValidList(sh, xs) && EncodeList(sh, xs) == b
    ensures |xs| == n && EncodeAll(sh, xs) == rest
  {
    Varint.EncodePrefixFree(|xs|, n, b);
    assert EncodeAll(sh, xs) == b[|Varint.Encode(n)|..] == rest;
  }

  lemma ListStarts<T(!new)>(sh: Shape<T>, xs: seq<T>)
    requires ValidList(sh, xs)
    ensures Varint.StartsWith(EncodeList(sh, xs), |xs|)
  {
  }

  /** decodeHashList: exactly the encodings of ascending id lists are accepted, and they decode to that list. */
  method DecodeHashList(b: Bytes) returns (r: Result<seq<Id>, Malformed>)
    ensures r.Ok? ==> ValidList(IDS, r.value) && EncodeList(IDS, r.value) == b
    ensures r.Err? ==> NoIdList(b)
  {
    var c := new Cursor(b);
    assert c.Rest() == b;
    var n := c.Uvarint();
    if n.None? {
      forall ids | ValidList(IDS, ids) ensures EncodeList(IDS, ids) != b {
        if EncodeList(IDS, ids) == b { ListStarts(IDS, ids); }
      }
      return Err(BadVarint);
    }
    ghost var rest := c.Rest();
    r := ReadIds(c, n.value);
    if r.Err? {
      forall ids | ValidList(IDS, ids) ensures EncodeList(IDS, ids) != b {
        if EncodeList(IDS, ids) == b { ListBody(IDS, b, n.value, rest, ids); }
      }
    }
  }

  method ReadIds(c: Cursor, n: nat) returns (r: Result<seq<Id>, Malformed>)
    requires c.Valid() && n < U64
    modifies c
    ensures r.Ok? ==> ValidList(IDS, r.value) && |r.value| == n && EncodeAll(IDS, r.value) == old(c.Rest())
    ensures r.Err? ==> NoList(IDS, old(c.Rest()), n)
  {
    IdsPrefixCode();
    ghost var s := c.Rest();
    var out: seq<Id> := [];
    var prev: Id := [];
    for k := 0 to n
      invariant c.Valid() && |out| == k && (k > 0 ==> prev == out[k - 1])
      invariant Decoding(IDS, s, n, out, c.Rest())
    {
      ghost var rest := c.Rest();
      var id := c.TakePrefixed();
      if id.None? {
        NoRecord(IDS, s, n, out, rest);
        return Err(Truncated);
      }
      if k > 0 && !Less(prev, id.value) {
        OutOfOrder(IDS, s, n, out, rest, id.value);
        return Err(NotSorted);
      }
      AscendingAppend(Less, out, id.value);
      DecodedRecord(IDS, s, n, out, rest, id.value, c.Rest());
      out := out + [id.value];
      prev := id.value;
    }
    var done := c.Empty();
    if !done {
      Trailing(IDS, s, n, out, c.Rest());
      return Err(TrailingBytes);
    }
    return Ok(out);
  }

  /** The id list a byte string encodes, if any. */
  ghost function IdListOf(b: Bytes): (r: Option<seq<Id>>)
    ensures r.Some? ==> ValidList(IDS, r.value) && EncodeList(IDS, r.value) == b
    ensures r.None? ==> NoIdList(b)
  {
    if NoIdList(b) then None
    else
      var ids :| ValidList(IDS, ids) && EncodeList(IDS, ids) == b;
      Some(ids)
  }

  lemma IdListOfEncoding(ids: seq<Id>)
    requires ValidList(IDS, ids)
    ensures IdListOf(EncodeList(IDS, ids)) == Some(ids)
  {
    IdsPrefixCode();
    EncodeListInjective(IDS, IdListOf(EncodeList(IDS, ids)).value, ids);
  }

  // ----- changes -----

  const TAG_TREE: nat := 1
  const TAG_PARENTS: nat := 2
  const TAG_MESSAGE: nat := 3
  const TAG_TIMESTAMP: nat := 4
  const TAG_AUTHOR: nat := 5
  const TAG_PROVENANCE: nat := 6
  const TAG_ARTIFACTS: nat := 8
  const TAG_FULFILLS: nat := 9

  const I63: int := 0x8000_0000_0000_0000

  /** uint64(t) for an int64. */
  function ToU64(t: int): nat
    requires -I63 <= t < I63
  {
    if t < 0 then t + U64 else t
  }

  /** int64(v) for a uint64. */
  function ToI64(v: nat): int {
    if v < I63 then v else v - U64
  }

  function OptionalField(tag: nat, v: Option<Bytes>): seq<Field> {
    if v.Some? then [Field(tag, v.value)] else []
  }

  /** The four fields every change has. */
  function Required(parents: Bytes, message: Bytes, ts: Bytes, author: Bytes): seq<Field> {
    [Field(TAG_PARENTS, parents), Field(TAG_MESSAGE, message), Field(TAG_TIMESTAMP, ts), Field(TAG_AUTHOR, author)]
  }

  /** Required and optional fields in tag order. */
  function InOrder(must: seq<Field>, tree: Option<Bytes>, prov: Option<Bytes>, arts: Option<Bytes>, ful: Option<Bytes>): seq<Field> {
    OptionalField(TAG_TREE, tree) + must + OptionalField(TAG_PROVENANCE, prov)
    + OptionalField(TAG_ARTIFACTS, arts) + OptionalField(TAG_FULFILLS, ful)
  }

  ghost function ArtifactList(ids: seq<Id>): Option<Bytes> {
    if ids == [] then None else Some(EncodeList(IDS, SortedUnique(ids)))
  }

  /** The fields of a change in tag order. */
  ghost function ChangeFields(c: Change): seq<Field>
    requires -I63 <= c.timestamp < I63
  {
    InOrder(Required(EncodeList(IDS, SortedUnique(c.parents)), c.message, Varint.Encode(ToU64(c.timestamp)), c.author),
            c.tree, c.provenance, ArtifactList(c.artifacts), c.fulfills)
  }

  // ----- NewChange -----

  lemma {:induction false} DedupAppend(s: seq<Bytes>, x: Bytes)
    ensures Dedup(s + [x]) == (if s != [] && s[|s| - 1] == x then Dedup(s) else Dedup(s) + [x])
    ensures s != [] ==> Dedup(s) != [] && Dedup(s)[|Dedup(s)| - 1] == s[|s| - 1]
  {
    if |s| > 1 {
      assert (s + [x])[1..] == s[1..] + [x];
      DedupAppend(s[1..], x);
    } else if |s| == 1 {
      assert (s + [x])[1..] == [x];
    }
  }

  /** NewChange's parents: repeats in a sorted slice dropped in place. The kept ids are the first `n` cells. */
  method DropRepeatedParents(a: array<Id>) returns (n: nat)
    modifies a
    ensures n <= a.Length && a[..n] == Dedup(old(a[..]))
  {
    ghost var was := a[..];
    n := 0;
    for i := 0 to a.Length
      invariant n <= i && a[..n] == Dedup(was[..i])
      invariant forall k :: 0 <= k < a.Length && i - 1 <= k ==> a[k] == was[k]
    {
      assert was[..i + 1] == was[..i] + [was[i]];
      DedupAppend(was[..i], was[i]);
      if i > 0 && a[i] == a[i - 1] { continue; }
      a[n] := a[i];
      n := n + 1;
    }
    assert was[..a.Length] == was;
  }

  /** sortedUniqueHashes after its sort: compares with the last id kept instead. */
  method DropRepeatedHashes(a: array<Id>) returns (n: nat)
    requires a.Length > 0
    modifies a
    ensures n <= a.Length && a[..n] == Dedup(old(a[..]))
  {
    ghost var was := a[..];
    n := 1;
    assert was[..1] == [was[0]];
    for i := 1 to a.Length
      invariant 1 <= n <= i && a[..n] == Dedup(was[..i])
      invariant forall k :: i <= k < a.Length ==> a[k] == was[k]
    {
      assert was[..i + 1] == was[..i] + [was[i]];
      DedupAppend(was[..i], was[i]);
      assert a[n - 1] == a[..n][n - 1];
      if a[i] != a[n - 1] {
        a[n] := a[i];
        n := n + 1;
      }
    }
    assert was[..a.Length] == was;
  }

  method CopySorted(ids: seq<Id>) returns (a: array<Id>)
    ensures fresh(a) && a[..] == Sort(Less, ids)
  {
    var s := Sort(Less, ids);
    a := new Id[|s|](i requires 0 <= i < |s| => s[i]);
  }

  ghost predicate TagsWithin(fs: seq<Field>, lo: nat, hi: nat) {
    Ascending(ByTag, fs) && forall f :: f in fs ==> lo <= f.tag < hi
  }

  lemma TagsConcat(fs: seq<Field>, gs: seq<Field>, lo: nat, mid: nat, hi: nat)
    requires TagsWithin(fs, lo, mid) && TagsWithin(gs, mid, hi) && lo <= mid <= hi
    ensures TagsWithin(fs + gs, lo, hi)
  {
    forall i, j | 0 <= i < j < |fs + gs| ensures ByTag((fs + gs)[i], (fs + gs)[j]) {
      assert i < |fs| ==> fs[i] in fs;
      assert j >= |fs| ==> gs[j - |fs|] in gs;
    }
  }

  /** newObject: the fields sorted by tag. */
  lemma NewObjectSorts(fields: seq<Field>, want: seq<Field>, lo: nat, hi: nat)
    requires TagsWithin(want, lo, hi) && multiset(fields) == multiset(want)
    ensures Sort(ByTag, fields) == want
  {
    FieldsPrefixCode();
    MultisetElements(fields, want);
    MultisetNoDuplicates(want, fields);
    TagsTotal(want, fields);
    SortUnique(ByTag, fields, want);
  }

  lemma TagsTotal(want: seq<Field>, fields: seq<Field>)
    requires Ascending(ByTag, want) && Elements(fields) == Elements(want)
    ensures TotalOn(ByTag, Elements(fields))
  {
    forall x, y | x in Elements(fields) && y in Elements(fields) && x != y ensures ByTag(x, y) || ByTag(y, x) {
      assert x in Elements(want) && y in Elements(want);
      var i :| 0 <= i < |want| && want[i] == x;
      var j :| 0 <= j < |want| && want[j] == y;
      assert i < j || j < i;
    }
  }

  /** newObject on the fields of a change, in the order the source collects them. */
  method SortFields(must: seq<Field>, tree: Option<Bytes>, prov: Option<Bytes>, arts: Option<Bytes>, ful: Option<Bytes>)
    returns (fields: seq<Field>)
    requires TagsWithin(must, 2, 6)
    ensures fields == InOrder(must, tree, prov, arts, ful)
  {
    var ts, ps, ar, fs := OptionalField(TAG_TREE, tree), OptionalField(TAG_PROVENANCE, prov),
                          OptionalField(TAG_ARTIFACTS, arts), OptionalField(TAG_FULFILLS, ful);
    FieldsOfChange(must, ts, ps, ar, fs);
    fields := Sort(ByTag, must + ts + ps + ar + fs);
  }

  /** A change has only tags 1 to 9. */
  lemma ChangeTags(c: Change)
    requires -I63 <= c.timestamp < I63
    ensures TagsWithin(ChangeFields(c), 1, 10)
  {
    var must := Required(EncodeList(IDS, SortedUnique(c.parents)), c.message, Varint.Encode(ToU64(c.timestamp)), c.author);
    OrderTags(must, OptionalField(TAG_TREE, c.tree), OptionalField(TAG_PROVENANCE, c.provenance),
              OptionalField(TAG_ARTIFACTS, ArtifactList(c.artifacts)), OptionalField(TAG_FULFILLS, c.fulfills));
  }

  lemma OrderTags(must: seq<Field>, tree: seq<Field>, prov: seq<Field>, arts: seq<Field>, ful: seq<Field>)
    requires TagsWithin(tree, 1, 2) && TagsWithin(must, 2, 6) && TagsWithin(prov, 6, 7) && TagsWithin(arts, 8, 9) && TagsWithin(ful, 9, 10)
    ensures TagsWithin(tree + must + prov + arts + ful, 1, 10)
  {
    TagsConcat(tree, must, 1, 2, 6);
    TagsConcat(tree + must, prov, 1, 6, 7);
    TagsConcat(tree + must + prov, arts, 1, 8, 9);
    TagsConcat(tree + must + prov + arts, ful, 1, 9, 10);
  }

  lemma FieldsOfChange(must: seq<Field>, tree: seq<Field>, prov: seq<Field>, arts: seq<Field>, ful: seq<Field>)
    requires TagsWithin(tree, 1, 2) && TagsWithin(must, 2, 6) && TagsWithin(prov, 6, 7) && TagsWithin(arts, 8, 9) && TagsWithin(ful, 9, 10)
    ensures Sort(ByTag, must + tree + prov + arts + ful) == tree + must + prov + arts + ful
  {
    OrderTags(must, tree, prov, arts, ful);
    NewObjectSorts(must + tree + prov + arts + ful, tree + must + prov + arts + ful, 1, 10);
  }

  method ParentsValue(ids: seq<Id>) returns (v: Bytes)
    ensures v == EncodeList(IDS, SortedUnique(ids))
  {
    var parents := CopySorted(ids);
    var n := DropRepeatedParents(parents);
    v := EncodeHashList(parents[..n]);
  }

  method ArtifactsValue(ids: seq<Id>) returns (v: Option<Bytes>)
    ensures v == ArtifactList(ids)
  {
    if ids == [] { return None; }
    var cp := CopySorted(ids);
    var n := DropRepeatedHashes(cp);
    var list := EncodeHashList(cp[..n]);
    return Some(list);
  }

  lemma RequiredTags(parents: Bytes, message: Bytes, ts: Bytes, author: Bytes)
    ensures TagsWithin(Required(parents, message, ts, author), 2, 6)
  {
  }

  /** NewChange. */
  method NewChange(c: Change) returns (o: Raw)
    requires -I63 <= c.timestamp < I63
    ensures o == Raw(TYPE_CHANGE, ChangeFields(c))
  {
    var parents := ParentsValue(c.parents);
    var ts := Varint.AppendUvarint([], ToU64(c.timestamp));
    assert ts == Varint.Encode(ToU64(c.timestamp));
    var arts := ArtifactsValue(c.artifacts);
    RequiredTags(parents, c.message, ts, c.author);
    var fields := SortFields(Required(parents, c.message, ts, c.author), c.tree, c.provenance, arts, c.fulfills);
    o := Raw(TYPE_CHANGE, fields);
  }

  /** Object.Field on a value. */
  function Lookup(fs: seq<Field>, tag: nat): Option<Bytes> {
    if fs == [] then None
    else if fs[0].tag == tag then Some(fs[0].val)
    else Lookup(fs[1..], tag)
  }

  /** The timestamp a field value holds; it must be one whole varint. */
  ghost function TimestampOf(v: Option<Bytes>): (r: Option<int>)
    ensures v.Some? && r.None? ==> forall t: nat :: t < U64 ==> Varint.Encode(t) != v.value
  {
    if v.None? then Some(0)
    else if t: nat :| t < U64 && Varint.Encode(t) == v.value then Some(ToI64(t))
    else None
  }

  ghost function IdsAt(fs: seq<Field>, tag: nat): Option<seq<Id>> {
    if Lookup(fs, tag).None? then Some([]) else IdListOf(Lookup(fs, tag).value)
  }

  /** AsChange as a function; None is an error. */
  ghost function ChangeView(o: Raw): Option<Change> {
    var ts := TimestampOf(Lookup(o.fields, TAG_TIMESTAMP));
    var parents, arts := IdsAt(o.fields, TAG_PARENTS), IdsAt(o.fields, TAG_ARTIFACTS);
    if o.typ != TYPE_CHANGE || ts.None? || parents.None? || arts.None? then None
    else
      Some(Change(Lookup(o.fields, TAG_TREE), parents.value, OrEmpty(Lookup(o.fields, TAG_MESSAGE)), ts.value,
                  OrEmpty(Lookup(o.fields, TAG_AUTHOR)), Present(Lookup(o.fields, TAG_PROVENANCE)), arts.value,
                  Present(Lookup(o.fields, TAG_FULFILLS))))
  }

  function OrEmpty(v: Option<Bytes>): Bytes {
    if v.Some? then v.value else []
  }

  lemma TimestampUnique(t: nat)
    requires t < U64
    ensures TimestampOf(Some(Varint.Encode(t))) == Some(ToI64(t))
  {
    forall s: nat | s < U64 && Varint.Encode(s) == Varint.Encode(t) ensures s == t {
      Varint.EncodePrefixFree(s, t, Varint.Encode(t));
    }
  }

  method ReadTimestamp(v: Option<Bytes>) returns (r: Option<int>)
    ensures r == TimestampOf(v)
  {
    if v.None? { return Some(0); }
    var read := Varint.ReadUvarint(v.value);
    if read.None? || read.value.1 != |v.value| {
      forall t: nat | t < U64 ensures Varint.Encode(t) != v.value {
        if Varint.Encode(t) == v.value {
          assert Varint.StartsWith(v.value, t);
          if read.Some? { Varint.EncodePrefixFree(t, read.value.0, v.value); }
        }
      }
      return None;
    }
    assert v.value == Varint.Encode(read.value.0);
    TimestampUnique(read.value.0);
    return Some(ToI64(read.value.0));
  }

  method ReadIdsAt(fs: seq<Field>, tag: nat) returns (r: Option<seq<Id>>)
    ensures r == IdsAt(fs, tag)
  {
    var v := Lookup(fs, tag);
    if v.None? { return Some([]); }
    var ids := DecodeHashList(v.value);
    if ids.Err? { return None; }
    IdListOfEncoding(ids.value);
    return Some(ids.value);
  }

  method AsChange(o: Raw) returns (r: Option<Change>)
    ensures r == ChangeView(o)
  {
    if o.typ != TYPE_CHANGE { return None; }
    var ts := ReadTimestamp(Lookup(o.fields, TAG_TIMESTAMP));
    if ts.None? { return None; }
    var parents := ReadIdsAt(o.fields, TAG_PARENTS);
    if parents.None? { return None; }
    var arts := ReadIdsAt(o.fields, TAG_ARTIFACTS);
    if arts.None? { return None; }
    return Some(Change(Lookup(o.fields, TAG_TREE), parents.value, OrEmpty(Lookup(o.fields, TAG_MESSAGE)), ts.value,
                       OrEmpty(Lookup(o.fields, TAG_AUTHOR)), Present(Lookup(o.fields, TAG_PROVENANCE)), arts.value,
                       Present(Lookup(o.fields, TAG_FULFILLS))));
  }

  /** The change a change reads back as: lists sorted without duplicates, empty optional ids gone. */
  function Canonical(c: Change): Change {
    c.(parents := SortedUnique(c.parents), artifacts := SortedUnique(c.artifacts),
       provenance := Present(c.provenance), fulfills := Present(c.fulfills))
  }

  /** A change the format can hold. */
  ghost predicate Representable(c: Change) {
    && -I63 <= c.timestamp < I63
    && |SortedUnique(c.parents)| < U64 && |SortedUnique(c.artifacts)| < U64
    && (forall id :: id in c.parents || id in c.artifacts ==> |id| < U64)
  }

  lemma IdListReadsBack(ids: seq<Id>)
    requires |SortedUnique(ids)| < U64 && forall id :: id in ids ==> |id| < U64
    ensures IdListOf(EncodeList(IDS, SortedUnique(ids))) == Some(SortedUnique(ids))
  {
    SortedUniqueIsAscending(ids);
    forall id | id in SortedUnique(ids) ensures ValidBytes(id) { assert id in Elements(ids); }
    IdListOfEncoding(SortedUnique(ids));
  }

  /** What every change reads back as; nothing but order, duplicates and empty optional ids is lost. */
  lemma ChangeRoundTrip(c: Change)
    requires Representable(c)
    ensures ChangeView(Raw(TYPE_CHANGE, ChangeFields(c))) == Some(Canonical(c))
    ensures ChangeView(Raw(TYPE_CHANGE, ChangeFields(c)))
            == Some(c.(parents := SortedUnique(c.parents), artifacts := SortedUnique(c.artifacts)))
            <==> c.provenance != Some([]) && c.fulfills != Some([])
  {
    IdListReadsBack(c.parents);
    IdListReadsBack(c.artifacts);
    TimestampUnique(ToU64(c.timestamp));
    ChangeLookups(c);
  }

  lemma {:induction false} LookupSkips(fs: seq<Field>, gs: seq<Field>, tag: nat)
    ensures Lookup(fs + gs, tag) == if Lookup(fs, tag).Some? then Lookup(fs, tag) else Lookup(gs, tag)
  {
    if fs == [] {
      assert fs + gs == gs;
    } else {
      assert (fs + gs)[1..] == fs[1..] + gs;
      LookupSkips(fs[1..], gs, tag);
    }
  }

  lemma LookupOptional(tag: nat, v: Option<Bytes>, at: nat)
    ensures Lookup(OptionalField(tag, v), at) == if at == tag then v else None
  {
  }

  lemma LookupInChange(c: Change, at: nat)
    requires -I63 <= c.timestamp < I63
    ensures Lookup(ChangeFields(c), at) ==
            if at == TAG_TREE then c.tree
            else if at == TAG_PARENTS then Some(EncodeList(IDS, SortedUnique(c.parents)))
            else if at == TAG_MESSAGE then Some(c.message)
            else if at == TAG_TIMESTAMP then Some(Varint.Encode(ToU64(c.timestamp)))
            else if at == TAG_AUTHOR then Some(c.author)
            else if at == TAG_PROVENANCE then c.provenance
            else if at == TAG_ARTIFACTS then ArtifactList(c.artifacts)
            else if at == TAG_FULFILLS then c.fulfills
            else None
  {
    var arts := ArtifactList(c.artifacts);
    var head := OptionalField(TAG_TREE, c.tree);
    var must := Required(EncodeList(IDS, SortedUnique(c.parents)), c.message, Varint.Encode(ToU64(c.timestamp)), c.author);
    var upTo := head + must + OptionalField(TAG_PROVENANCE, c.provenance);
    LookupSkips(head, must, at);
    LookupSkips(head + must, OptionalField(TAG_PROVENANCE, c.provenance), at);
    LookupSkips(upTo, OptionalField(TAG_ARTIFACTS, arts), at);
    LookupSkips(upTo + OptionalField(TAG_ARTIFACTS, arts), OptionalField(TAG_FULFILLS, c.fulfills), at);
    LookupOptional(TAG_TREE, c.tree, at);
    LookupOptional(TAG_PROVENANCE, c.provenance, at);
    LookupOptional(TAG_ARTIFACTS, arts, at);
    LookupOptional(TAG_FULFILLS, c.fulfills, at);
    assert must[1..][1..][1..][1..] == [];
    LookupFour(must, at);
  }

  lemma LookupFour(fs: seq<Field>, at: nat)
    requires |fs| == 4
    ensures Lookup(fs, at) ==
            if fs[0].tag == at then Some(fs[0].val) else if fs[1].tag == at then Some(fs[1].val)
            else if fs[2].tag == at then Some(fs[2].val) else if fs[3].tag == at then Some(fs[3].val) else None
  {
    assert fs[1..][0] == fs[1] && fs[1..][1..] == fs[2..] && fs[2..][1..] == fs[3..] && fs[3..][1..] == [];
    assert Lookup(fs[3..], at) == if fs[3].tag == at then Some(fs[3].val) else None;
    assert Lookup(fs[2..], at) == if fs[2].tag == at then Some(fs[2].val) else Lookup(fs[3..], at);
    assert Lookup(fs[1..], at) == if fs[1].tag == at then Some(fs[1].val) else Lookup(fs[2..], at);
  }

  lemma ChangeLookups(c: Change)
    requires -I63 <= c.timestamp < I63
    ensures var fs := ChangeFields(c);
            && Lookup(fs, TAG_TREE) == c.tree && Lookup(fs, TAG_PROVENANCE) == c.provenance && Lookup(fs, TAG_FULFILLS) == c.fulfills
            && Lookup(fs, TAG_MESSAGE) == Some(c.message) && Lookup(fs, TAG_AUTHOR) == Some(c.author)
            && Lookup(fs, TAG_TIMESTAMP) == Some(Varint.Encode(ToU64(c.timestamp)))
            && Lookup(fs, TAG_PARENTS) == Some(EncodeList(IDS, SortedUnique(c.parents)))
            && Lookup(fs, TAG_ARTIFACTS) == ArtifactList(c.artifacts)
  {
    LookupInChange(c, TAG_TREE);
    LookupInChange(c, TAG_PARENTS);
    LookupInChange(c, TAG_MESSAGE);
    LookupInChange(c, TAG_TIMESTAMP);
    LookupInChange(c, TAG_AUTHOR);
    LookupInChange(c, TAG_PROVENANCE);
    LookupInChange(c, TAG_ARTIFACTS);
    LookupInChange(c, TAG_FULFILLS);
  }

  /** The bytes of a change ignore the order and repetition of its parents and artifacts. */
  lemma ChangeFieldsCanonical(c: Change, d: Change)
    requires -I63 <= c.timestamp < I63
    requires Elements(c.parents) == Elements(d.parents) && Elements(c.artifacts) == Elements(d.artifacts)
    requires d == c.(parents := d.parents, artifacts := d.artifacts)
    ensures ChangeFields(c) == ChangeFields(d)
  {
    SortedUniqueCanonical(c.parents, d.parents);
    SortedUniqueCanonical(c.artifacts, d.artifacts);
    assert c.artifacts == [] || c.artifacts[0] in Elements(c.artifacts);
    assert d.artifacts == [] || d.artifacts[0] in Elements(d.artifacts);
  }

  /** An empty provenance is lost on the way. */
  lemma EmptyProvenanceIsLost(c: Change)
    requires c == Change(None, [], [], 0, [], Some([]), [], None)
    ensures ChangeView(Raw(TYPE_CHANGE, ChangeFields(c))) == Some(c.(provenance := None))
  {
    assert SortedUnique([]) == [];
    ChangeRoundTrip(c);
  }

  // ----- through the bytes -----

  /** The field values have lengths that fit 64 bits. */
  ghost predicate FieldsFit(c: Change)
    requires -I63 <= c.timestamp < I63
  {
    forall f :: f in ChangeFields(c) ==> |f.val| < U64
  }

  lemma ChangeIsValid(c: Change)
    requires Representable(c) && FieldsFit(c)
    ensures Codec.Valid(Raw(TYPE_CHANGE, ChangeFields(c)))
  {
    ChangeTags(c);
    FewFields(c);
  }

  lemma FewFields(c: Change)
    requires -I63 <= c.timestamp < I63
    ensures |ChangeFields(c)| <= 8
  {
  }

  /** Decoding the bytes of an object gives the object. */
  lemma DecodesBack(o: Raw, r: Result<Raw, Malformed>)
    requires Codec.Valid(o)
    requires r.Ok? ==> Codec.Valid(r.value) && Encoding(r.value) == Encoding(o)
    requires r.Err? ==> NoObject(Encoding(o))
    ensures r == Ok(o)
  {
    if r.Ok? { EncodingInjective(r.value, o); }
  }

  /** NewChange, Encode, Decode and AsChange in a row: the change comes back in canonical form. */
  method WriteAndRead(c: Change) returns (r: Option<Change>)
    requires Representable(c) && FieldsFit(c)
    ensures r == Some(Canonical(c))
  {
    var o := NewChange(c);
    var b := EncodeFields(o.typ, o.fields);
    var d := Decode(b);
    ChangeIsValid(c);
    DecodesBack(o, d);
    r := AsChange(d.value);
    ChangeRoundTrip(c);
  }

  /** What the bytes of a change say: everything but order and repetition in its lists. */
  function Said(c: Change): Change {
    c.(parents := SortedUnique(c.parents), artifacts := SortedUnique(c.artifacts))
  }

  lemma SameIdList(x: seq<Id>, y: seq<Id>)
    requires |SortedUnique(x)| < U64 && |SortedUnique(y)| < U64
    requires (forall id :: id in x ==> |id| < U64) && forall id :: id in y ==> |id| < U64
    ensures EncodeList(IDS, SortedUnique(x)) == EncodeList(IDS, SortedUnique(y)) ==> SortedUnique(x) == SortedUnique(y)
  {
    IdListReadsBack(x);
    IdListReadsBack(y);
  }

  lemma SameTimestamp(s: int, t: int)
    requires -I63 <= s < I63 && -I63 <= t < I63 && Varint.Encode(ToU64(s)) == Varint.Encode(ToU64(t))
    ensures s == t
  {
    Varint.EncodePrefixFree(ToU64(s), ToU64(t), Varint.Encode(ToU64(s)));
  }

  lemma SameArtifacts(x: seq<Id>, y: seq<Id>)
    requires |SortedUnique(x)| < U64 && |SortedUnique(y)| < U64
    requires (forall id :: id in x ==> |id| < U64) && forall id :: id in y ==> |id| < U64
    requires ArtifactList(x) == ArtifactList(y)
    ensures SortedUnique(x) == SortedUnique(y)
  {
    if x != [] && y != [] { SameIdList(x, y); }
  }

  /** Two changes have the same bytes exactly when they say the same. */
  lemma ChangeBytesDecide(c: Change, d: Change)
    requires Representable(c) && FieldsFit(c) && Representable(d) && FieldsFit(d)
    ensures Encoding(Raw(TYPE_CHANGE, ChangeFields(c))) == Encoding(Raw(TYPE_CHANGE, ChangeFields(d))) <==> Said(c) == Said(d)
  {
    var o, p := Raw(TYPE_CHANGE, ChangeFields(c)), Raw(TYPE_CHANGE, ChangeFields(d));
    ChangeIsValid(c);
    ChangeIsValid(d);
    if Encoding(o) == Encoding(p) {
      EncodingInjective(o, p);
      SameFieldsSayTheSame(c, d);
    }
    if Said(c) == Said(d) { SaidDecides(c, d); }
  }

  lemma SameFieldsSayTheSame(c: Change, d: Change)
    requires Representable(c) && Representable(d) && ChangeFields(c) == ChangeFields(d)
    ensures Said(c) == Said(d)
  {
    ChangeLookups(c);
    ChangeLookups(d);
    SameIdList(c.parents, d.parents);
    SameTimestamp(c.timestamp, d.timestamp);
    SameArtifacts(c.artifacts, d.artifacts);
  }

  lemma SaidDecides(c: Change, d: Change)
    requires -I63 <= c.timestamp < I63 && Said(c) == Said(d)
    ensures ChangeFields(c) == ChangeFields(d)
  {
    SortedUniqueIsAscending(c.parents);
    SortedUniqueIsAscending(d.parents);
    SortedUniqueIsAscending(c.artifacts);
    SortedUniqueIsAscending(d.artifacts);
    ChangeFieldsCanonical(c, d);
  }
}
