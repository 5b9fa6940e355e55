/**
  The VVG1 format byte for byte: the frozen vectors of
  varvig/internal/conformance/vectors.json, and what every tag of a change means.
 */
module Vectors {
  import opened Basics
  import opened Orders
  import opened Objects
  import opened Records
  import opened Codec
  import opened RawObjects
  import opened TypedViews
  import opened TreeViews
  import Varint

  // ----- the tags of a change -----

  lemma {:induction false} LookupIsField(fs: seq<Field>, tag: nat, v: Bytes)
    requires Ascending(ByTag, fs)
    ensures Lookup(fs, tag) == Some(v) <==> Field(tag, v) in fs
  {
    if fs != [] {
      LookupIsField(fs[1..], tag, v);
      assert Field(tag, v) in fs <==> Field(tag, v) == fs[0] || Field(tag, v) in fs[1..];
      FirstTagIsLeast(fs);
    }
  }

  lemma FirstTagIsLeast(fs: seq<Field>)
    requires fs != [] && Ascending(ByTag, fs)
    ensures forall f :: f in fs[1..] ==> fs[0].tag < f.tag
  {
    forall f | f in fs[1..] ensures fs[0].tag < f.tag {
      var k :| 0 <= k < |fs[1..]| && fs[1..][k] == f;
      assert ByTag(fs[0], fs[k + 1]);
    }
  }

  /** No field has this tag. */
  predicate Lacks(fs: seq<Field>, tag: nat) {
    forall f :: f in fs ==> f.tag != tag
  }

  lemma LackedIsNone(fs: seq<Field>, tag: nat)
    requires Ascending(ByTag, fs)
    ensures Lacks(fs, tag) <==> Lookup(fs, tag).None?
  {
    if Lookup(fs, tag).Some? {
      LookupIsField(fs, tag, Lookup(fs, tag).value);
    } else {
      forall f | f in fs ensures f.tag != tag { LookupIsField(fs, f.tag, f.val); }
    }
  }

  /** Tag by tag, what NewChange writes. */
  lemma TagsWritten(c: Change, f: Field)
    requires -I63 <= c.timestamp < I63
    ensures f in ChangeFields(c) <==>
            || (f.tag == 1 && c.tree == Some(f.val))
            || (f.tag == 2 && f.val == EncodeList(IDS, SortedUnique(c.parents)))
            || (f.tag == 3 && f.val == c.message)
            || (f.tag == 4 && f.val == Varint.Encode(if c.timestamp < 0 then c.timestamp + 0x1_0000_0000_0000_0000 else c.timestamp))
            || (f.tag == 5 && f.val == c.author)
            || (f.tag == 6 && c.provenance == Some(f.val))
            || (f.tag == 8 && c.artifacts != [] && f.val == EncodeList(IDS, SortedUnique(c.artifacts)))
            || (f.tag == 9 && c.fulfills == Some(f.val))
  {
    var must := Required(EncodeList(IDS, SortedUnique(c.parents)), c.message, Varint.Encode(ToU64(c.timestamp)), c.author);
    InFiveParts(OptionalField(1, c.tree), must, OptionalField(6, c.provenance),
                OptionalField(8, ArtifactList(c.artifacts)), OptionalField(9, c.fulfills), f);
  }

  lemma InFiveParts(a: seq<Field>, b: seq<Field>, c: seq<Field>, d: seq<Field>, e: seq<Field>, f: Field)
    ensures f in a + b + c + d + e <==> f in a || f in b || f in c || f in d || f in e
  {
  }

  /** Tag by tag, what AsChange reads: a list or timestamp that is absent reads as none or 0, an empty optional id as none. */
  lemma TagsRead(o: Raw, c: Change)
    requires Ascending(ByTag, o.fields) && ChangeView(o) == Some(c)
    ensures o.typ == 3
    ensures forall v :: c.tree == Some(v) <==> Field(1, v) in o.fields
    ensures forall v :: Field(3, v) in o.fields ==> c.message == v
    ensures forall v :: Field(5, v) in o.fields ==> c.author == v
    ensures forall v :: c.provenance == Some(v) <==> v != [] && Field(6, v) in o.fields
    ensures forall v :: c.fulfills == Some(v) <==> v != [] && Field(9, v) in o.fields
    ensures Lacks(o.fields, 3) ==> c.message == []
    ensures Lacks(o.fields, 5) ==> c.author == []
  {
    forall tag, v ensures Lookup(o.fields, tag) == Some(v) <==> Field(tag, v) in o.fields { LookupIsField(o.fields, tag, v); }
    LackedIsNone(o.fields, 3);
    LackedIsNone(o.fields, 5);
  }

  lemma ListsRead(o: Raw, c: Change)
    requires Ascending(ByTag, o.fields) && ChangeView(o) == Some(c)
    ensures forall v :: Field(2, v) in o.fields ==> v == EncodeList(IDS, c.parents) && Ascending(Less, c.parents)
    ensures forall v :: Field(8, v) in o.fields ==> v == EncodeList(IDS, c.artifacts) && Ascending(Less, c.artifacts)
    ensures Lacks(o.fields, 2) ==> c.parents == []
    ensures Lacks(o.fields, 8) ==> c.artifacts == []
    ensures forall t: nat :: t < U64 && Field(4, Varint.Encode(t)) in o.fields ==> c.timestamp == if t < I63 then t else t - U64
    ensures Lacks(o.fields, 4) ==> c.timestamp == 0
  {
    forall tag, v ensures Lookup(o.fields, tag) == Some(v) <==> Field(tag, v) in o.fields { LookupIsField(o.fields, tag, v); }
    LackedIsNone(o.fields, 2);
    LackedIsNone(o.fields, 8);
    LackedIsNone(o.fields, 4);
    forall t: nat | t < U64 && Field(4, Varint.Encode(t)) in o.fields ensures c.timestamp == if t < I63 then t else t - U64 {
      TimestampUnique(t);
    }
  }

  /** The field with this tag, if there is one, holds an ascending id list. */
  ghost predicate HoldsIds(fs: seq<Field>, tag: nat) {
    forall v :: Field(tag, v) in fs ==> exists ids :: ValidList(IDS, ids) && EncodeList(IDS, ids) == v
  }

  /** The timestamp field, if there is one, holds one 64-bit varint. */
  ghost predicate HoldsTime(fs: seq<Field>) {
    forall v :: Field(4, v) in fs ==> exists t: nat :: t < 0x1_0000_0000_0000_0000 && Varint.Encode(t) == v
  }

  lemma IdsHeld(fs: seq<Field>, tag: nat)
    requires Ascending(ByTag, fs)
    ensures IdsAt(fs, tag).Some? <==> HoldsIds(fs, tag)
  {
    forall v ensures Lookup(fs, tag) == Some(v) <==> Field(tag, v) in fs { LookupIsField(fs, tag, v); }
  }

  lemma TimeHeld(fs: seq<Field>)
    requires Ascending(ByTag, fs)
    ensures TimestampOf(Lookup(fs, 4)).Some? <==> HoldsTime(fs)
  {
    forall v ensures Lookup(fs, 4) == Some(v) <==> Field(4, v) in fs { LookupIsField(fs, 4, v); }
    forall t: nat | t < U64 && Lookup(fs, 4) == Some(Varint.Encode(t)) ensures TimestampOf(Lookup(fs, 4)).Some? { TimestampUnique(t); }
  }

  /** A change can be read exactly if its type is 3 and its time and lists, where present, are well formed; no field is required. */
  lemma ReadableChange(o: Raw)
    requires Ascending(ByTag, o.fields)
    ensures ChangeView(o).Some? <==> o.typ == 3 && HoldsTime(o.fields) && HoldsIds(o.fields, 2) && HoldsIds(o.fields, 8)
  {
    TimeHeld(o.fields);
    IdsHeld(o.fields, 2);
    IdsHeld(o.fields, 8);
  }

  /** A tree can be read exactly if its type is 2 and its field 1 is there and holds an entry list, whose entries it shows with modes cut to 32 bits. */
  lemma ReadableTree(o: Raw)
    requires Ascending(ByTag, o.fields)
    ensures TreeView(o).Some? <==> o.typ == 2 && exists es: seq<Entry> :: ValidList(ENTRIES, es) && Field(1, EncodeList(ENTRIES, es)) in o.fields
    ensures forall es: seq<Entry> :: TreeView(o).Some? && ValidList(ENTRIES, es) && Field(1, EncodeList(ENTRIES, es)) in o.fields ==>
              |TreeView(o).value| == |es|
              && forall k :: 0 <= k < |es| ==> TreeView(o).value[k] == Entry(es[k].name, es[k].mode % 0x1_0000_0000, es[k].kind, es[k].id)
  {
    forall v ensures Lookup(o.fields, 1) == Some(v) <==> Field(1, v) in o.fields { LookupIsField(o.fields, 1, v); }
    forall es: seq<Entry> | ValidList(ENTRIES, es) && Field(1, EncodeList(ENTRIES, es)) in o.fields ensures WireEntries(EncodeList(ENTRIES, es)) == Some(es) {
      WireOfEncoding(es);
    }
  }

  // ----- frozen vectors -----

  /** The pieces one after the other. */
  function Pieces(ps: seq<Bytes>): Bytes {
    if ps == [] then [] else ps[0] + Pieces(ps[1..])
  }

  lemma PiecesFirst(p: Bytes, ps: seq<Bytes>)
    ensures Pieces([p] + ps) == p + Pieces(ps)
  {
    assert ([p] + ps)[1..] == ps;
  }

  /** The fields encode to these pieces, one each. */
  ghost predicate FieldsAre(fs: seq<Field>, fields: seq<Bytes>) {
    |fields| == |fs| && forall k :: 0 <= k < |fields| ==> fields[k] == EncodeField(fs[k])
  }

  /** The bytes of an object, piece by piece: magic, type, number of fields, then each field. */
  lemma ObjectPieces(o: Raw, fields: seq<Bytes>)
    requires FieldsAre(o.fields, fields)
    ensures Encoding(o) == Pieces([Ascii("VVG1"), Varint.Encode(o.typ), Varint.Encode(|o.fields|)] + fields)
  {
    FieldPieces(o.fields, fields);
    HeadAndBody(o, Varint.Encode(o.typ), Varint.Encode(|o.fields|), EncodeAll(FIELDS, o.fields), fields);
  }

  lemma HeadAndBody(o: Raw, typ: Bytes, count: Bytes, body: Bytes, fields: seq<Bytes>)
    requires typ == Varint.Encode(o.typ) && count == Varint.Encode(|o.fields|) && body == EncodeAll(FIELDS, o.fields) == Pieces(fields)
    ensures Encoding(o) == Pieces([Ascii("VVG1"), typ, count] + fields)
  {
    ThreePieces(Ascii("VVG1"), typ, count, fields);
    assert Encoding(o) == Ascii("VVG1") + (typ + (count + body));
  }

  lemma ThreePieces(x: Bytes, y: Bytes, z: Bytes, rest: seq<Bytes>)
    ensures Pieces([x, y, z] + rest) == x + (y + (z + Pieces(rest)))
  {
    assert [x, y, z] + rest == [x] + ([y] + ([z] + rest));
    PiecesFirst(z, rest);
    PiecesFirst(y, [z] + rest);
    PiecesFirst(x, [y] + ([z] + rest));
  }

  lemma {:induction false} FieldPieces(fs: seq<Field>, fields: seq<Bytes>)
    requires FieldsAre(fs, fields)
    ensures EncodeAll(FIELDS, fs) == Pieces(fields)
  {
    if fs != [] { FieldPieces(fs[1..], fields[1..]); }
  }

  /** A field whose tag and length take one byte each. */
  lemma ShortField(tag: nat, val: Bytes)
    requires tag < 0x80 && |val| < 0x80
    ensures EncodeField(Field(tag, val)) == [tag, |val|] + val
  {
    assert [tag] + ([|val|] + val) == [tag, |val|] + val;
  }

  /** An id list with no ids, and one with a single short id. */
  lemma ShortIdLists(id: Id)
    requires |id| < 0x80
    ensures EncodeList(IDS, []) == [0] && EncodeList(IDS, [id]) == [1, |id|] + id
  {
    assert EncodeAll(IDS, []) == [];
    assert EncodeAll(IDS, [id]) == Prefixed(id) + EncodeAll(IDS, [id][1..]);
    assert [1] + ([|id|] + id) == [1, |id|] + id;
  }

  /** "blob/empty" and "opaque/unknown-type". */
  lemma PlainVectors()
    ensures Encoding(Raw(1, [Field(1, [])])) == Pieces([Ascii("VVG1"), [0x01], [0x01], [0x01, 0x00]])
    ensures Encoding(Raw(9999, [Field(7, Ascii("abc"))])) == Pieces([Ascii("VVG1"), [0x8f, 0x4e], [0x01], [0x07, 0x03] + Ascii("abc")])
  {
    ShortField(1, []);
    ShortField(7, Ascii("abc"));
    ObjectPieces(Raw(1, [Field(1, [])]), [[0x01, 0x00]]);
    ObjectPieces(Raw(9999, [Field(7, Ascii("abc"))]), [[0x07, 0x03] + Ascii("abc")]);
    assert Varint.Encode(78) == [0x4e] && Varint.Encode(9999) == [0x8f] + Varint.Encode(78);
    assert Varint.Encode(9999) == [0x8f, 0x4e];
    assert [Ascii("VVG1"), Varint.Encode(1), Varint.Encode(1)] + [[0x01, 0x00]] == [Ascii("VVG1"), [0x01], [0x01], [0x01, 0x00]];
    assert [Ascii("VVG1"), Varint.Encode(9999), Varint.Encode(1)] + [[0x07, 0x03] + Ascii("abc")]
        == [Ascii("VVG1"), [0x8f, 0x4e], [0x01], [0x07, 0x03] + Ascii("abc")];
  }

  /** 1723100000, the timestamp of every vector. */
  lemma VectorTime()
    ensures Varint.Encode(1723100000) == [0xe0, 0xd6, 0xd1, 0xb5, 0x06]
  {
    assert Varint.Encode(6) == [0x06];
    assert Varint.Encode(821) == [0xb5] + Varint.Encode(6) == [0xb5, 0x06];
    assert Varint.Encode(105169) == [0xd1] + Varint.Encode(821) == [0xd1, 0xb5, 0x06];
    assert Varint.Encode(13461718) == [0xd6] + Varint.Encode(105169) == [0xd6, 0xd1, 0xb5, 0x06];
    assert Varint.Encode(1723100000) == [0xe0] + Varint.Encode(13461718);
  }

  /** The fields of a change without artifacts and fulfilled intent. */
  lemma PlainChangeFields(c: Change, time: Bytes)
    requires 0 <= c.timestamp < I63 && c.artifacts == [] && c.fulfills == None && time == Varint.Encode(c.timestamp)
    ensures ChangeFields(c) == OptionalField(1, c.tree)
                               + [Field(2, EncodeList(IDS, SortedUnique(c.parents))), Field(3, c.message), Field(4, time), Field(5, c.author)]
                               + OptionalField(6, c.provenance)
  {
  }

  /** "change/unmaterialized": no tree tag at all, an empty parent list. */
  lemma UnmaterializedVector(c: Change)
    requires c == Change(None, [], Ascii("add rate limiting to the auth module"), 1723100000, Ascii("director"), None, [], None)
    ensures Encoding(Raw(TYPE_CHANGE, ChangeFields(c))) ==
            Pieces([Ascii("VVG1"), [0x03], [0x04]]
                   + [[0x02, 0x01] + [0x00], [0x03, 0x24] + Ascii("add rate limiting to the auth module"),
                      [0x04, 0x05] + [0xe0, 0xd6, 0xd1, 0xb5, 0x06], [0x05, 0x08] + Ascii("director")])
  {
    VectorTime();
    ShortIdLists([]);
    var time := [0xe0, 0xd6, 0xd1, 0xb5, 0x06];
    assert SortedUnique([]) == [];
    PlainChangeFields(c, time);
    var fs := [Field(2, [0x00]), Field(3, c.message), Field(4, time), Field(5, c.author)];
    assert ChangeFields(c) == fs;
    ShortField(2, [0x00]);
    ShortField(3, c.message);
    ShortField(4, time);
    ShortField(5, c.author);
    ObjectPieces(Raw(TYPE_CHANGE, fs), [[0x02, 0x01] + [0x00], [0x03, 0x24] + c.message, [0x04, 0x05] + time, [0x05, 0x08] + c.author]);
  }

  /** The fields of the signed vector. */
  function SignedFields(tree: Id, parent: Id, prov: Id): seq<Field> {
    [Field(1, tree), Field(2, [0x01, 0x22] + parent), Field(3, Ascii("did the thing")), Field(4, [0xe0, 0xd6, 0xd1, 0xb5, 0x06]),
     Field(5, Ascii("agent-7")), Field(6, prov)]
  }

  lemma SignedChangeFields(c: Change, tree: Id, parent: Id, prov: Id)
    requires |parent| == 34
    requires c == Change(Some(tree), [parent], Ascii("did the thing"), 1723100000, Ascii("agent-7"), Some(prov), [], None)
    ensures ChangeFields(c) == SignedFields(tree, parent, prov)
  {
    VectorTime();
    ShortIdLists(parent);
    assert Sort(Less, [parent]) == [parent] && SortedUnique([parent]) == [parent];
    PlainChangeFields(c, [0xe0, 0xd6, 0xd1, 0xb5, 0x06]);
  }

  /** "change/signed-with-provenance", for any three 34-byte ids and five-byte signature. */
  lemma SignedVector(c: Change, tree: Id, parent: Id, prov: Id, sig: Bytes)
    requires |tree| == |parent| == |prov| == 34 && |sig| == 5
    requires c == Change(Some(tree), [parent], Ascii("did the thing"), 1723100000, Ascii("agent-7"), Some(prov), [], None)
    ensures Encoding(Raw(TYPE_CHANGE, ChangeFields(c) + [Field(7, sig)])) ==
            Pieces([Ascii("VVG1"), [0x03], [0x07]]
                   + [[0x01, 0x22] + tree, [0x02, 0x24] + ([0x01, 0x22] + parent), [0x03, 0x0d] + Ascii("did the thing"),
                      [0x04, 0x05] + [0xe0, 0xd6, 0xd1, 0xb5, 0x06], [0x05, 0x07] + Ascii("agent-7"), [0x06, 0x22] + prov, [0x07, 0x05] + sig])
  {
    SignedChangeFields(c, tree, parent, prov);
    ShortField(1, tree);
    ShortField(2, [0x01, 0x22] + parent);
    ShortField(3, c.message);
    ShortField(4, [0xe0, 0xd6, 0xd1, 0xb5, 0x06]);
    ShortField(5, c.author);
    ShortField(6, prov);
    ShortField(7, sig);
    ObjectPieces(Raw(TYPE_CHANGE, SignedFields(tree, parent, prov) + [Field(7, sig)]),
                 [[0x01, 0x22] + tree, [0x02, 0x24] + ([0x01, 0x22] + parent), [0x03, 0x0d] + c.message,
                  [0x04, 0x05] + [0xe0, 0xd6, 0xd1, 0xb5, 0x06], [0x05, 0x07] + c.author, [0x06, 0x22] + prov, [0x07, 0x05] + sig]);
  }

  /** What is signed is the object without its tag 7. */
  lemma SignedIsTheRest(typ: nat, fs: seq<Field>, sig: Bytes)
    requires Lacks(fs, 7)
    ensures Signable(Raw(typ, fs + [Field(7, sig)])) == Raw(typ, fs) == Signable(Raw(typ, fs))
  {
    KeepsAllOthers(fs, 7);
    assert (fs + [Field(7, sig)])[..|fs|] == fs;
  }

  lemma {:induction false} KeepsAllOthers(fs: seq<Field>, skip: nat)
    requires Lacks(fs, skip)
    ensures Without(fs, skip) == fs
  {
    if fs != [] {
      var n := |fs| - 1;
      KeepsAllOthers(fs[..n], skip);
      assert fs[n] in fs && fs == fs[..n] + [fs[n]];
    }
  }

  /** The modes of the entries: 0o100644 and 0o100755. */
  lemma VectorModes()
    ensures Varint.Encode(0x81a4) == [0xa4, 0x83, 0x02] && Varint.Encode(0x81ed) == [0xed, 0x83, 0x02]
  {
    assert Varint.Encode(2) == [0x02];
    assert Varint.Encode(259) == [0x83] + Varint.Encode(2) == [0x83, 0x02];
    assert Varint.Encode(0x81a4) == [0xa4] + Varint.Encode(259) && Varint.Encode(0x81ed) == [0xed] + Varint.Encode(259);
  }

  lemma TwoEntries(x: Entry, y: Entry)
    ensures EncodeList(ENTRIES, [x, y]) ==
            Pieces([[0x02]] + ([Prefixed(x.name), Varint.Encode(x.mode), Varint.Encode(x.kind), Prefixed(x.id)]
                               + ([Prefixed(y.name), Varint.Encode(y.mode), Varint.Encode(y.kind), Prefixed(y.id)] + [])))
  {
    assert [x, y][1..] == [y] && [y][1..] == [];
    assert EncodeAll(ENTRIES, [y]) == EncodeEntry(y) + EncodeAll(ENTRIES, []);
    assert EncodeAll(ENTRIES, [x, y]) == EncodeEntry(x) + EncodeAll(ENTRIES, [y]);
    var after := [Prefixed(y.name), Varint.Encode(y.mode), Varint.Encode(y.kind), Prefixed(y.id)] + [];
    EntryPieces(y, []);
    EntryPieces(x, after);
    PiecesFirst([0x02], [Prefixed(x.name), Varint.Encode(x.mode), Varint.Encode(x.kind), Prefixed(x.id)] + after);
  }

  /** "tree/two-entries", for any two 34-byte ids. */
  lemma TreeVector(a: Id, b: Id)
    requires |a| == |b| == 34
    ensures var es := [Entry(Ascii("README.md"), 0x81a4, 1, b), Entry(Ascii("run.sh"), 0x81ed, 1, a)];
            EncodeList(ENTRIES, es) ==
            Pieces([[0x02]] + ([[0x09] + Ascii("README.md"), [0xa4, 0x83, 0x02], [0x01], [0x22] + b]
                               + ([[0x06] + Ascii("run.sh"), [0xed, 0x83, 0x02], [0x01], [0x22] + a] + [])))
  {
    VectorModes();
    TwoEntries(Entry(Ascii("README.md"), 0x81a4, 1, b), Entry(Ascii("run.sh"), 0x81ed, 1, a));
  }

  lemma TwoEntryLength(a: Id, b: Id)
    requires |a| == |b| == 34
    ensures |EncodeList(ENTRIES, [Entry(Ascii("README.md"), 0x81a4, 1, b), Entry(Ascii("run.sh"), 0x81ed, 1, a)])| == 0x60
  {
    var x, y := Entry(Ascii("README.md"), 0x81a4, 1, b), Entry(Ascii("run.sh"), 0x81ed, 1, a);
    assert |Varint.Encode(259)| == 2 && |Varint.Encode(0x81a4)| == 3 && |Varint.Encode(0x81ed)| == 3;
    assert |EncodeEntry(x)| == 49 && |EncodeEntry(y)| == 46;
    assert [x, y][1..] == [y] && [y][1..] == [];
    assert EncodeAll(ENTRIES, [y]) == EncodeEntry(y) + EncodeAll(ENTRIES, []);
    assert EncodeAll(ENTRIES, [x, y]) == EncodeEntry(x) + EncodeAll(ENTRIES, [y]);
  }

  /** The object around that list: one field, 96 bytes long. */
  lemma TreeObjectVector(a: Id, b: Id)
    requires |a| == |b| == 34
    ensures var list := EncodeList(ENTRIES, [Entry(Ascii("README.md"), 0x81a4, 1, b), Entry(Ascii("run.sh"), 0x81ed, 1, a)]);
            Encoding(Raw(TYPE_TREE, [Field(TAG_ENTRIES, list)])) == Pieces([Ascii("VVG1"), [0x02], [0x01], [0x01, 0x60] + list])
  {
    var list := EncodeList(ENTRIES, [Entry(Ascii("README.md"), 0x81a4, 1, b), Entry(Ascii("run.sh"), 0x81ed, 1, a)]);
    TwoEntryLength(a, b);
    ShortField(1, list);
    ObjectPieces(Raw(TYPE_TREE, [Field(TAG_ENTRIES, list)]), [[0x01, 0x60] + list]);
    assert [Ascii("VVG1"), Varint.Encode(2), Varint.Encode(1)] + [[0x01, 0x60] + list] == [Ascii("VVG1"), [0x02], [0x01], [0x01, 0x60] + list];
  }

  lemma EntryPieces(e: Entry, rest: seq<Bytes>)
    ensures EncodeEntry(e) + Pieces(rest) == Pieces([Prefixed(e.name), Varint.Encode(e.mode), Varint.Encode(e.kind), Prefixed(e.id)] + rest)
  {
    var n, m, k, i := Prefixed(e.name), Varint.Encode(e.mode), Varint.Encode(e.kind), Prefixed(e.id);
    PiecesFirst(i, rest);
    PiecesFirst(k, [i] + rest);
    PiecesFirst(m, [k] + ([i] + rest));
    PiecesFirst(n, [m] + ([k] + ([i] + rest)));
    assert [n, m, k, i] + rest == [n] + ([m] + ([k] + ([i] + rest)));
    Varint.Associate(n, m + (k + i), Pieces(rest));
    Varint.Associate(m, k + i, Pieces(rest));
    Varint.Associate(k, i, Pieces(rest));
  }
}
