/**
  varvig/internal/object/tree.go: tree objects and their typed view. The wire holds 64-bit
  modes and the view 32-bit ones, so reading narrows; everything else survives exactly.
 */
module TreeViews {
  import opened Basics
  import opened Orders
  import opened Objects
  import opened Records
  import opened Codec
  import opened TypedViews
  import Trees
  import Varint

  const TAG_ENTRIES: nat := 1
  const U32: nat := 0x1_0000_0000

  function EncodeEntry(e: Entry): Bytes {
    Prefixed(e.name) + (Varint.Encode(e.mode) + (Varint.Encode(e.kind) + Prefixed(e.id)))
  }

  predicate ValidEntry(e: Entry) {
    |e.name| < U64 && e.mode < U64 && e.kind < U64 && |e.id| < U64
  }

  const ENTRIES: Shape<Entry> := Shape(EncodeEntry, ValidEntry, ByName)

  /** An encoded entry at the start of a string, part by part. */
  lemma EntryParts(e: Entry, s: Bytes)
    requires Starts(EncodeEntry(e), s)
    ensures Prefixed(e.name) <= s
    ensures Varint.Encode(e.mode) <= s[|Prefixed(e.name)|..]
    ensures Varint.Encode(e.kind) <= s[|Prefixed(e.name)|..][|Varint.Encode(e.mode)|..]
    ensures Prefixed(e.id) <= s[|Prefixed(e.name)|..][|Varint.Encode(e.mode)|..][|Varint.Encode(e.kind)|..]
  {
    var t2 := Varint.Encode(e.kind) + Prefixed(e.id);
    var t1 := Varint.Encode(e.mode) + t2;
    PrefixPeel(Prefixed(e.name), t1, s);
    var s1 := s[|Prefixed(e.name)|..];
    PrefixPeel(Varint.Encode(e.mode), t2, s1);
    PrefixPeel(Varint.Encode(e.kind), Prefixed(e.id), s1[|Varint.Encode(e.mode)|..]);
  }

  lemma PrefixPeel(x: Bytes, y: Bytes, s: Bytes)
    requires x + y <= s
    ensures x <= s && y <= s[|x|..]
  {
    assert y == (x + y)[|x|..];
  }

  lemma EntryPrefixFree(x: Entry, y: Entry, s: Bytes)
    requires Starts(EncodeEntry(x), s) && Starts(EncodeEntry(y), s)
    ensures x == y
  {
    EntryParts(x, s);
    EntryParts(y, s);
    PrefixedPrefixFree(x.name, y.name, s);
    var s1 := s[|Prefixed(x.name)|..];
    Varint.EncodePrefixFree(x.mode, y.mode, s1);
    var s2 := s1[|Varint.Encode(x.mode)|..];
    Varint.EncodePrefixFree(x.kind, y.kind, s2);
    PrefixedPrefixFree(x.id, y.id, s2[|Varint.Encode(x.kind)|..]);
  }

  lemma EntriesPrefixCode()
    ensures PrefixCode(ENTRIES) && StrictOrder(ByName)
  {
    LessIsStrictTotal();
    forall x: Entry, y: Entry, s | Starts(EncodeEntry(x), s) && Starts(EncodeEntry(y), s) ensures x == y {
      EntryPrefixFree(x, y, s);
    }
  }

  // ----- NewTree -----

  method AppendEntry(b: Bytes, e: Entry) returns (r: Bytes)
    ensures r == b + EncodeEntry(e)
  {
    r := Varint.AppendUvarint(b, |e.name|);
    r := r + e.name;
    r := Varint.AppendUvarint(r, e.mode);
    r := Varint.AppendUvarint(r, e.kind);
    r := Varint.AppendUvarint(r, |e.id|);
    r := r + e.id;
    EntryAppends(b, e);
  }

  lemma EntryAppends(b: Bytes, e: Entry)
    ensures b + Varint.Encode(|e.name|) + e.name + Varint.Encode(e.mode) + Varint.Encode(e.kind) + Varint.Encode(|e.id|) + e.id
         == b + EncodeEntry(e)
  {
    var t2 := Varint.Encode(e.kind) + Prefixed(e.id);
    var t1 := Varint.Encode(e.mode) + t2;
    Varint.Associate(b, Prefixed(e.name), t1);
    Varint.Associate(b, Varint.Encode(|e.name|), e.name);
    var c := b + Prefixed(e.name);
    Varint.Associate(c, Varint.Encode(e.mode), t2);
    Varint.Associate(c + Varint.Encode(e.mode), Varint.Encode(e.kind), Prefixed(e.id));
    Varint.Associate(c + Varint.Encode(e.mode) + Varint.Encode(e.kind), Varint.Encode(|e.id|), e.id);
  }

  ghost predicate UniqueNames(es: seq<Entry>) {
    forall i, j :: 0 <= i < j < |es| ==> es[i].name != es[j].name
  }

  lemma ResortedNames(es: seq<Entry>, fs: seq<Entry>)
    requires multiset(es) == multiset(fs) && UniqueNames(es)
    ensures UniqueNames(fs)
  {
    MultisetNoDuplicates(es, fs);
    forall i, j | 0 <= i < j < |fs| ensures fs[i].name != fs[j].name {
      assert fs[i] in multiset(es) && fs[j] in multiset(es);
      var a :| 0 <= a < |es| && es[a] == fs[i];
      var b :| 0 <= b < |es| && es[b] == fs[j];
      assert a < b || b < a;
    }
  }

  /** NewTree panics exactly on a repeated name. */
  lemma NewTreePanics(es: seq<Entry>)
    ensures Trees.NewTree(es).Some? <==> UniqueNames(es)
  {
    var fs := Sort(ByName, es);
    if UniqueNames(es) { ResortedNames(es, fs); }
    if Trees.NewTree(es).Some? {
      forall i, j | 0 <= i < j < |fs| ensures fs[i].name != fs[j].name { LessIrreflexive(fs[i].name); }
      ResortedNames(fs, es);
    }
  }

  method EncodeEntries(es: seq<Entry>) returns (val: Bytes)
    ensures val == EncodeList(ENTRIES, es)
  {
    val := Varint.AppendUvarint([], |es|);
    assert val == Varint.Encode(|es|);
    for k := 0 to |es|
      invariant val == Varint.Encode(|es|) + EncodeAll(ENTRIES, es[..k])
    {
      assert es[..k + 1] == es[..k] + [es[k]];
      EncodeAllAppend(ENTRIES, es[..k], es[k]);
      Varint.Associate(Varint.Encode(|es|), EncodeAll(ENTRIES, es[..k]), EncodeEntry(es[k]));
      val := AppendEntry(val, es[k]);
    }
    assert es[..|es|] == es;
  }

  /** NewTree's bytes; None is the panic. */
  method NewTree(entries: seq<Entry>) returns (o: Option<Raw>)
    ensures o.Some? <==> UniqueNames(entries)
    ensures o.Some? ==> o.value == Raw(TYPE_TREE, [Field(TAG_ENTRIES, EncodeList(ENTRIES, Sort(ByName, entries)))])
  {
    NewTreePanics(entries);
    var tree := Trees.NewTree(entries);
    if tree.None? { return None; }
    var val := EncodeEntries(Sort(ByName, entries));
    return Some(Raw(TYPE_TREE, [Field(TAG_ENTRIES, val)]));
  }

  // ----- TreeEntries -----

  /** No entry list has these bytes. */
  ghost predicate NoEntryList(b: Bytes) {
    forall es :: ValidList(ENTRIES, es) ==> EncodeList(ENTRIES, es) != b
  }

  /** The entries on the wire, modes not yet narrowed. */
  ghost function WireEntries(b: Bytes): (r: Option<seq<Entry>>)
    ensures r.Some? ==> ValidList(ENTRIES, r.value) && EncodeList(ENTRIES, r.value) == b
    ensures r.None? ==> NoEntryList(b)
  {
    if NoEntryList(b) then None
    else
      var es :| ValidList(ENTRIES, es) && EncodeList(ENTRIES, es) == b;
      Some(es)
  }

  lemma WireOfEncoding(es: seq<Entry>)
    requires ValidList(ENTRIES, es)
    ensures WireEntries(EncodeList(ENTRIES, es)) == Some(es)
  {
    EntriesPrefixCode();
    EncodeListInjective(ENTRIES, WireEntries(EncodeList(ENTRIES, es)).value, es);
  }

  /** uint32(mode). */
  function NarrowEntry(e: Entry): Entry {
    e.(mode := e.mode % U32)
  }

  function Narrow(es: seq<Entry>): (r: seq<Entry>)
    ensures |r| == |es| && forall k :: 0 <= k < |es| ==> r[k] == NarrowEntry(es[k])
  {
    if es == [] then [] else Narrow(es[..|es| - 1]) + [NarrowEntry(es[|es| - 1])]
  }

  ghost predicate ModesFit(es: seq<Entry>) {
    forall k :: 0 <= k < |es| ==> es[k].mode < U32
  }

  /** The view of a tree object; None is an error. */
  ghost function TreeView(o: Raw): Option<seq<Entry>> {
    var v := Lookup(o.fields, TAG_ENTRIES);
    if o.typ != TYPE_TREE || v.None? || WireEntries(v.value).None? then None
    else Some(Narrow(WireEntries(v.value).value))
  }

  /** One entry record. */
  method ReadEntry(c: Cursor) returns (r: Result<Entry, Malformed>)
    requires c.Valid()
    modifies c
    ensures c.Valid()
    ensures r.Ok? ==> ValidEntry(r.value) && old(c.Rest()) == EncodeEntry(r.value) + c.Rest()
    ensures r.Err? ==> forall e :: ValidEntry(e) ==> !Starts(EncodeEntry(e), old(c.Rest()))
  {
    ghost var s := c.Rest();
    var name := c.TakePrefixed();
    if name.None? {
      forall e | ValidEntry(e) ensures !Starts(EncodeEntry(e), s) {
        if Starts(EncodeEntry(e), s) { EntryParts(e, s); }
      }
      return Err(Truncated);
    }
    ghost var s1 := c.Rest();
    var mode := c.Uvarint();
    if mode.None? {
      forall e | ValidEntry(e) ensures !Starts(EncodeEntry(e), s) {
        if Starts(EncodeEntry(e), s) {
          EntryName(e, s, name.value, s1);
          assert Varint.StartsWith(s1, e.mode);
        }
      }
      return Err(BadVarint);
    }
    ghost var s2 := c.Rest();
    var kind := c.Uvarint();
    if kind.None? {
      forall e | ValidEntry(e) ensures !Starts(EncodeEntry(e), s) {
        if Starts(EncodeEntry(e), s) {
          EntryMode(e, s, name.value, s1, mode.value, s2);
          assert Varint.StartsWith(s2, e.kind);
        }
      }
      return Err(BadVarint);
    }
    ghost var s3 := c.Rest();
    var id := c.TakePrefixed();
    if id.None? {
      forall e | ValidEntry(e) ensures !Starts(EncodeEntry(e), s) {
        if Starts(EncodeEntry(e), s) { EntryKind(e, s, name.value, s1, mode.value, s2, kind.value, s3); }
      }
      return Err(Truncated);
    }
    EntryRead(Entry(name.value, mode.value, kind.value, id.value), c.Rest());
    return Ok(Entry(name.value, mode.value, kind.value, id.value));
  }

  lemma EntryRead(e: Entry, rest: Bytes)
    ensures Prefixed(e.name) + (Varint.Encode(e.mode) + (Varint.Encode(e.kind) + (Prefixed(e.id) + rest))) == EncodeEntry(e) + rest
  {
    var t2 := Varint.Encode(e.kind) + Prefixed(e.id);
    var t1 := Varint.Encode(e.mode) + t2;
    Varint.Associate(Varint.Encode(e.kind), Prefixed(e.id), rest);
    Varint.Associate(Varint.Encode(e.mode), t2, rest);
    Varint.Associate(Prefixed(e.name), t1, rest);
  }

  lemma EntryName(e: Entry, s: Bytes, name: Bytes, s1: Bytes)
    requires Starts(EncodeEntry(e), s) && s == Prefixed(name) + s1
    ensures e.name == name && Varint.Encode(e.mode) <= s1 && Varint.Encode(e.kind) <= s1[|Varint.Encode(e.mode)|..]
    ensures Prefixed(e.id) <= s1[|Varint.Encode(e.mode)|..][|Varint.Encode(e.kind)|..]
  {
    EntryParts(e, s);
    PrefixedPrefixFree(e.name, name, s);
    assert s[|Prefixed(name)|..] == s1;
  }

  lemma EntryMode(e: Entry, s: Bytes, name: Bytes, s1: Bytes, mode: nat, s2: Bytes)
    requires Starts(EncodeEntry(e), s) && s == Prefixed(name) + s1 && s1 == Varint.Encode(mode) + s2
    ensures e.mode == mode && Varint.Encode(e.kind) <= s2 && Prefixed(e.id) <= s2[|Varint.Encode(e.kind)|..]
  {
    EntryName(e, s, name, s1);
    Varint.EncodePrefixFree(e.mode, mode, s1);
    assert s1[|Varint.Encode(mode)|..] == s2;
  }

  lemma EntryKind(e: Entry, s: Bytes, name: Bytes, s1: Bytes, mode: nat, s2: Bytes, kind: nat, s3: Bytes)
    requires Starts(EncodeEntry(e), s) && s == Prefixed(name) + s1 && s1 == Varint.Encode(mode) + s2 && s2 == Varint.Encode(kind) + s3
    ensures Prefixed(e.id) <= s3
  {
    EntryMode(e, s, name, s1, mode, s2);
    Varint.EncodePrefixFree(e.kind, kind, s2);
    assert s2[|Varint.Encode(kind)|..] == s3;
  }

  /** The entry records of a list of `n`, with the narrowed entries the view returns. */
  method ReadEntries(c: Cursor, n: nat) returns (r: Result<seq<Entry>, Malformed>, ghost wire: seq<Entry>)
    requires c.Valid() && n < U64
    modifies c
    ensures r.Ok? ==> r.value == Narrow(wire) && ValidList(ENTRIES, wire) && |wire| == n && EncodeAll(ENTRIES, wire) == old(c.Rest())
    ensures r.Err? ==> NoList(ENTRIES, old(c.Rest()), n)
  {
    EntriesPrefixCode();
    ghost var s := c.Rest();
    wire := [];
    var entries: seq<Entry> := [];
    var prev: Name := [];
    for k := 0 to n
      invariant c.Valid() && |wire| == k && entries == Narrow(wire) && (k > 0 ==> prev == wire[k - 1].name)
      invariant Decoding(ENTRIES, s, n, wire, c.Rest())
    {
      ghost var rest := c.Rest();
      var e := ReadEntry(c);
      if e.Err? {
        NoRecord(ENTRIES, s, n, wire, rest);
        return Err(e.error), wire;
      }
      if k > 0 && !Less(prev, e.value.name) {
        OutOfOrder(ENTRIES, s, n, wire, rest, e.value);
        return Err(NotSorted), wire;
      }
      AscendingAppend(ByName, wire, e.value);
      DecodedRecord(ENTRIES, s, n, wire, rest, e.value, c.Rest());
      NarrowAppend(wire, e.value);
      entries := entries + [NarrowEntry(e.value)];
      wire := wire + [e.value];
      prev := e.value.name;
    }
    var done := c.Empty();
    if !done {
      Trailing(ENTRIES, s, n, wire, c.Rest());
      return Err(TrailingBytes), wire;
    }
    return Ok(entries), wire;
  }

  lemma NarrowAppend(es: seq<Entry>, e: Entry)
    ensures Narrow(es + [e]) == Narrow(es) + [NarrowEntry(e)]
  {
  }

  /** TreeEntries accepts exactly the encodings of entry lists. */
  method TreeEntries(o: Raw) returns (r: Option<seq<Entry>>)
    ensures r == TreeView(o)
  {
    if o.typ != TYPE_TREE { return None; }
    var val := Lookup(o.fields, TAG_ENTRIES);
    if val.None? { return None; }
    ghost var b := val.value;
    var c := new Cursor(val.value);
    assert c.Rest() == b;
    var n := c.Uvarint();
    if n.None? {
      forall es | ValidList(ENTRIES, es) ensures EncodeList(ENTRIES, es) != b {
        if EncodeList(ENTRIES, es) == b { ListStarts(ENTRIES, es); }
      }
      return None;
    }
    ghost var rest := c.Rest();
    var entries, wire := ReadEntries(c, n.value);
    if entries.Err? {
      forall es | ValidList(ENTRIES, es) ensures EncodeList(ENTRIES, es) != b {
        if EncodeList(ENTRIES, es) == b { ListBody(ENTRIES, b, n.value, rest, es); }
      }
      return None;
    }
    WireOfEncoding(wire);
    return Some(entries.value);
  }

  // ----- what the two do together -----

  lemma ViewOfEncoding(fs: seq<Entry>)
    requires ValidList(ENTRIES, fs)
    ensures TreeView(Raw(TYPE_TREE, [Field(TAG_ENTRIES, EncodeList(ENTRIES, fs))])) == Some(Narrow(fs))
  {
    WireOfEncoding(fs);
  }

  lemma NarrowFits(es: seq<Entry>)
    requires ModesFit(es)
    ensures Narrow(es) == es
  {
  }

  ghost predicate Encodable(es: seq<Entry>) {
    |es| < U64 && forall e :: e in es ==> ValidEntry(e) && e.mode < U32
  }

  lemma SortedEncodable(es: seq<Entry>)
    requires UniqueNames(es) && Encodable(es)
    ensures Ascending(ByName, Sort(ByName, es)) && Encodable(Sort(ByName, es))
  {
    NewTreePanics(es);
    var fs := Sort(ByName, es);
    MultisetElements(fs, es);
    forall e | e in fs ensures e in es { assert e in Elements(fs); }
  }

  /** A tree reads back as its entries sorted by name. */
  lemma TreeRoundTrip(es: seq<Entry>)
    requires UniqueNames(es) && Encodable(es)
    ensures TreeView(Raw(TYPE_TREE, [Field(TAG_ENTRIES, EncodeList(ENTRIES, Sort(ByName, es)))])) == Some(Sort(ByName, es))
  {
    SortedEncodable(es);
    EncodableReads(Sort(ByName, es));
  }

  lemma EncodableReads(fs: seq<Entry>)
    requires Ascending(ByName, fs) && Encodable(fs)
    ensures TreeView(Raw(TYPE_TREE, [Field(TAG_ENTRIES, EncodeList(ENTRIES, fs))])) == Some(fs)
  {
    ViewOfEncoding(fs);
    NarrowFits(fs);
  }

  /** Encoding what was read gives the bytes read exactly when no mode on the wire was cut. */
  lemma TreeReencodes(b: Bytes)
    requires WireEntries(b).Some?
    ensures EncodeList(ENTRIES, Narrow(WireEntries(b).value)) == b <==> ModesFit(WireEntries(b).value)
  {
    var es := WireEntries(b).value;
    if ModesFit(es) {
      NarrowFits(es);
    } else if EncodeList(ENTRIES, Narrow(es)) == b {
      EntriesPrefixCode();
      NarrowValid(es);
      EncodeListInjective(ENTRIES, Narrow(es), es);
    }
  }

  lemma NarrowValid(es: seq<Entry>)
    requires ValidList(ENTRIES, es)
    ensures ValidList(ENTRIES, Narrow(es))
  {
    var fs := Narrow(es);
    forall f | f in fs ensures ValidEntry(f) {
      var k :| 0 <= k < |fs| && fs[k] == f;
      assert es[k] in es;
    }
  }

  /** A mode of 2^32 reads back as 0 and is written back shorter. */
  lemma WideModeIsCut(b: Bytes)
    requires b == EncodeList(ENTRIES, [Entry(Ascii("a"), U32, TYPE_BLOB, [])])
    ensures TreeView(Raw(TYPE_TREE, [Field(TAG_ENTRIES, b)])) == Some([Entry(Ascii("a"), 0, TYPE_BLOB, [])])
    ensures EncodeList(ENTRIES, [Entry(Ascii("a"), 0, TYPE_BLOB, [])]) != b
  {
    var wide, cut := [Entry(Ascii("a"), U32, TYPE_BLOB, [])], [Entry(Ascii("a"), 0, TYPE_BLOB, [])];
    assert ValidList(ENTRIES, wide);
    ViewOfEncoding(wide);
    WireOfEncoding(wide);
    assert Narrow(wide) == cut;
    assert wide[0].mode == U32;
    TreeReencodes(b);
  }
}
