/**
  What stands in a pack, number by number (varvig/internal/gitobj/pack.go; gitformat-pack):
  the type codes, the base of a delta, the bytes of a copy instruction and of an offset.
 */
module PackLaws {
  import opened Basics
  import opened GitObjects
  import opened Delta
  import opened Offsets
  import opened Pack
  import Varint

  // ----- entries -----

  lemma PlainMeaning(g: Env, es: seq<RawEntry>, e: RawEntry, obj: GitObject)
    requires !IsDeltaType(e.typ)
    ensures Meaning(g, es, e, obj) <==> Plain(e, obj)
  {
    if Plain(e, obj) { assert Means(g, es, 0, e, obj); }
  }

  /** Types 1 to 4 are a commit, a tree, a blob and a tag with the inflated bytes as their body; other types that are no delta are nothing. */
  lemma TypeCodes(g: Env, es: seq<RawEntry>, e: RawEntry, obj: GitObject)
    ensures e.typ == 1 ==> (Meaning(g, es, e, obj) <==> obj == GitObject(Ascii("commit"), e.inflated))
    ensures e.typ == 2 ==> (Meaning(g, es, e, obj) <==> obj == GitObject(Ascii("tree"), e.inflated))
    ensures e.typ == 3 ==> (Meaning(g, es, e, obj) <==> obj == GitObject(Ascii("blob"), e.inflated))
    ensures e.typ == 4 ==> (Meaning(g, es, e, obj) <==> obj == GitObject(Ascii("tag"), e.inflated))
    ensures e.typ == 0 || e.typ == 5 || e.typ > 7 ==> !Meaning(g, es, e, obj)
  {
    if !IsDeltaType(e.typ) { PlainMeaning(g, es, e, obj); }
  }

  /** What the delta makes of the base: the same kind, and the body it patches. */
  ghost predicate Applies(base: GitObject, delta: Bytes, obj: GitObject) {
    obj.kind == base.kind && Patched(base.body, delta) == Some(obj.body)
  }

  /** The entry of the same pack at the base offset means `base`. */
  ghost predicate OffsetBase(g: Env, es: seq<RawEntry>, e: RawEntry, base: GitObject) {
    exists from :: from in es && from.pack == e.pack && from.offset == e.baseOffset && Meaning(g, es, from, base)
  }

  /** The base oid is that of `base`, a loose object or the meaning of an entry of any pack. */
  ghost predicate OidBase(g: Env, es: seq<RawEntry>, e: RawEntry, base: GitObject) {
    || (e.baseOid in g.loose && g.loose[e.baseOid] == base)
    || (g.hash(base) == e.baseOid && exists from :: from in es && Meaning(g, es, from, base))
  }

  lemma LinkedMeaning(g: Env, es: seq<RawEntry>, e: RawEntry, from: RawEntry, base: GitObject, obj: GitObject)
    requires IsDeltaType(e.typ) && BaseLink(g, es, e, Some(from), base) && Meaning(g, es, from, base) && Patches(base, e, obj)
    ensures Meaning(g, es, e, obj)
  {
    var n: nat :| Means(g, es, n, from, base);
    var link := Some(from);
    assert BaseLink(g, es, e, link, base) && Patches(base, e, obj) && (link.Some? ==> n + 1 > 0 && Means(g, es, (n + 1) - 1, link.value, base));
    assert Means(g, es, n + 1, e, obj);
  }

  lemma LooseMeaning(g: Env, es: seq<RawEntry>, e: RawEntry, base: GitObject, obj: GitObject)
    requires e.typ == 7 && e.baseOid in g.loose && g.loose[e.baseOid] == base && Patches(base, e, obj)
    ensures Meaning(g, es, e, obj)
  {
    var link: Option<RawEntry> := None;
    assert BaseLink(g, es, e, link, base) && Patches(base, e, obj);
    assert Means(g, es, 0, e, obj);
  }

  lemma MeaningLinked(g: Env, es: seq<RawEntry>, e: RawEntry, obj: GitObject) returns (from: Option<RawEntry>, base: GitObject)
    requires IsDeltaType(e.typ) && Meaning(g, es, e, obj)
    ensures BaseLink(g, es, e, from, base) && Patches(base, e, obj) && (from.Some? ==> Meaning(g, es, from.value, base))
  {
    var n: nat :| Means(g, es, n, e, obj);
    from, base := BaseOfMeaning(g, es, n, e, obj);
  }

  /** Type 6 is a delta against the entry at the base offset in the same pack. */
  lemma OfsDelta(g: Env, es: seq<RawEntry>, e: RawEntry, obj: GitObject)
    requires e.typ == 6
    ensures Meaning(g, es, e, obj) <==> exists base :: OffsetBase(g, es, e, base) && Applies(base, e.inflated, obj)
  {
    if Meaning(g, es, e, obj) {
      var from, base := MeaningLinked(g, es, e, obj);
      assert from.value in es && from.value.pack == e.pack && from.value.offset == e.baseOffset;
      assert OffsetBase(g, es, e, base) && Applies(base, e.inflated, obj);
    }
    if base :| OffsetBase(g, es, e, base) && Applies(base, e.inflated, obj) {
      var from :| from in es && from.pack == e.pack && from.offset == e.baseOffset && Meaning(g, es, from, base);
      LinkedMeaning(g, es, e, from, base, obj);
    }
  }

  /** Type 7 is a delta against the object with the base oid, loose or in any pack. */
  lemma RefDelta(g: Env, es: seq<RawEntry>, e: RawEntry, obj: GitObject)
    requires e.typ == 7
    ensures Meaning(g, es, e, obj) <==> exists base :: OidBase(g, es, e, base) && Applies(base, e.inflated, obj)
  {
    if Meaning(g, es, e, obj) {
      var from, base := MeaningLinked(g, es, e, obj);
      assert from.Some? ==> from.value in es && Meaning(g, es, from.value, base);
      assert OidBase(g, es, e, base) && Applies(base, e.inflated, obj);
    }
    if base :| OidBase(g, es, e, base) && Applies(base, e.inflated, obj) {
      if e.baseOid in g.loose && g.loose[e.baseOid] == base {
        LooseMeaning(g, es, e, base, obj);
      } else {
        var from :| from in es && Meaning(g, es, from, base);
        LinkedMeaning(g, es, e, from, base, obj);
      }
    }
  }

  // ----- copy instructions -----

  function ByteOf(o: Option<byte>): nat {
    if o.Some? then o.value else 0
  }

  /** 1 for an operand that follows. */
  function Follows(o: Option<byte>): nat {
    if o.Some? then 1 else 0
  }

  lemma FlagsFirst(o: Option<byte>, rest: seq<Option<byte>>)
    ensures Flags([o] + rest) == Follows(o) + 2 * Flags(rest)
  {
    assert ([o] + rest)[1..] == rest;
  }

  lemma NumberFirst(o: Option<byte>, rest: seq<Option<byte>>)
    ensures Number([o] + rest) == ByteOf(o) + 0x100 * Number(rest)
  {
    assert ([o] + rest)[1..] == rest;
  }

  lemma ThreeBytes(o0: Option<byte>, o1: Option<byte>, o2: Option<byte>)
    ensures Number([o0, o1, o2]) == ByteOf(o0) + 0x100 * ByteOf(o1) + 0x1_0000 * ByteOf(o2)
    ensures Flags([o0, o1, o2]) == Follows(o0) + 2 * Follows(o1) + 4 * Follows(o2)
  {
    assert [o2] == [o2] + [] && [o1, o2] == [o1] + [o2] && [o0, o1, o2] == [o0] + [o1, o2];
    NumberFirst(o2, []);
    NumberFirst(o1, [o2]);
    NumberFirst(o0, [o1, o2]);
    FlagsFirst(o2, []);
    FlagsFirst(o1, [o2]);
    FlagsFirst(o0, [o1, o2]);
  }

  lemma FourBytes(o0: Option<byte>, o1: Option<byte>, o2: Option<byte>, o3: Option<byte>, rest: seq<Option<byte>>)
    ensures Number([o0, o1, o2, o3]) == ByteOf(o0) + 0x100 * ByteOf(o1) + 0x1_0000 * ByteOf(o2) + 0x100_0000 * ByteOf(o3)
    ensures Flags([o0, o1, o2, o3] + rest) == Follows(o0) + 2 * Follows(o1) + 4 * Follows(o2) + 8 * Follows(o3) + 16 * Flags(rest)
  {
    assert [o0, o1, o2, o3] == [o0] + [o1, o2, o3];
    ThreeBytes(o1, o2, o3);
    NumberFirst(o0, [o1, o2, o3]);
    var r3, r2, r1 := [o3] + rest, [o2] + ([o3] + rest), [o1] + ([o2] + ([o3] + rest));
    assert [o0, o1, o2, o3] + rest == [o0] + r1;
    FlagsFirst(o3, rest);
    FlagsFirst(o2, r3);
    FlagsFirst(o1, r2);
    FlagsFirst(o0, r1);
  }

  /**
    A copy starts with a byte whose top bit is set and whose other bits say which of seven
    bytes follow: four of the offset, then three of the size, least significant first.
   */
  lemma CopyBytes(o0: Option<byte>, o1: Option<byte>, o2: Option<byte>, o3: Option<byte>, s0: Option<byte>, s1: Option<byte>, s2: Option<byte>)
    ensures var p := [o0, o1, o2, o3] + [s0, s1, s2];
            && EncodeOp(Copy(p)) ==
               [0x80 + Follows(o0) + 2 * Follows(o1) + 4 * Follows(o2) + 8 * Follows(o3) + 16 * Follows(s0) + 32 * Follows(s1) + 64 * Follows(s2)] + Present(p)
            && Offset(p) == ByteOf(o0) + 0x100 * ByteOf(o1) + 0x1_0000 * ByteOf(o2) + 0x100_0000 * ByteOf(o3)
            && var size := ByteOf(s0) + 0x100 * ByteOf(s1) + 0x1_0000 * ByteOf(s2);
            Size(p) == if size == 0 then 0x10000 else size
  {
    var off, size := [o0, o1, o2, o3], [s0, s1, s2];
    assert (off + size)[..4] == off && (off + size)[4..] == size;
    ThreeBytes(s0, s1, s2);
    FourBytes(o0, o1, o2, o3, size);
  }

  lemma OnlySizePresent(size: byte)
    ensures var none: Option<byte> := None; Present([none, none, none, none] + [Some(size), none, none]) == [size]
  {
    var none: Option<byte> := None;
    var tail := [Some(size), none, none];
    assert [none] == [none] + [] && [none, none] == [none] + [none] && tail[1..] == [none, none];
    AbsentFirst([]);
    AbsentFirst([none]);
    assert Present(tail) == [size] + Present([none, none]);
    assert [none, none, none, none] + tail == [none] + ([none] + ([none] + ([none] + tail)));
    AbsentFirst(tail);
    AbsentFirst([none] + tail);
    AbsentFirst([none] + ([none] + tail));
    AbsentFirst([none] + ([none] + ([none] + tail)));
  }

  lemma AbsentFirst(rest: seq<Option<byte>>)
    ensures Present([None] + rest) == Present(rest)
  {
    var none: Option<byte> := None;
    assert ([none] + rest)[1..] == rest;
  }

  /** Copy so many bytes from the start: two bytes. */
  lemma CopyFromStart(size: byte)
    requires size > 0
    ensures var none: Option<byte> := None;
            var copy := Copy([none, none, none, none] + [Some(size), none, none]);
            ValidOp(copy) && EncodeOp(copy) == [0x90, size] && Offset(copy.operands) == 0 && Size(copy.operands) == size
  {
    CopyBytes(None, None, None, None, Some(size), None, None);
    OnlySizePresent(size);
  }

  /** The delta 05 08 90 05 03 "!!!" says: from five bytes make eight, copy five from the start, insert three. */
  lemma SmallDelta()
    ensures Patched(Ascii("hello"), [0x05, 0x08, 0x90, 0x05, 0x03, 33, 33, 33]) == Some(Ascii("hello!!!"))
  {
    var none: Option<byte> := None;
    var base, copy, insert := Ascii("hello"), Copy([none, none, none, none] + [Some(5), none, none]), Insert([33, 33, 33]);
    var d := Parts([0x05], [0x08], [copy, insert]);
    CopyFromStart(5);
    TwoOps(base, copy, insert);
    SmallSizes();
    assert base[0..5] + [33, 33, 33] == Ascii("hello!!!");
    assert Encoded(d) == [0x05, 0x08, 0x90, 0x05, 0x03, 33, 33, 33];
    PatchedOfEncoded(d, base);
  }

  lemma TwoOps(base: Bytes, x: Op, y: Op)
    requires InRange(base, x) && InRange(base, y)
    ensures AllInRange(base, [x, y]) && AllValid([x, y]) && EncodeOps([x, y]) == EncodeOp(x) + EncodeOp(y)
    ensures Output(base, [x, y]) == Emits(base, x) + Emits(base, y)
  {
    assert [x, y][1..] == [y] && [y][1..] == [];
    assert EncodeOps([y]) == EncodeOp(y) + [] && Output(base, [y]) == Emits(base, y) + [];
  }

  /** A size of one byte is that byte; of two, the second counts 128. */
  lemma SmallSizes()
    ensures forall a: byte :: a < 0x80 ==> Complete([a]) && SizeOf([a]) == a
    ensures forall a: byte, b: byte :: a >= 0x80 && b < 0x80 ==> Complete([a, b]) && SizeOf([a, b]) == a - 0x80 + 0x80 * b
  {
    forall a: byte | a < 0x80 ensures Complete([a]) && SizeOf([a]) == a { OneByteSize([a], a); }
    forall a: byte, b: byte | a >= 0x80 && b < 0x80 ensures Complete([a, b]) && SizeOf([a, b]) == a - 0x80 + 0x80 * b { TwoByteSize([a, b], a, b); }
  }

  lemma OneByteSize(s: Bytes, a: byte)
    requires s == [a] && a < 0x80
    ensures Complete(s) && SizeOf(s) == a
  {
    assert Varint.Partial(s, 1) == Varint.Partial(s, 0) + Varint.Shift(s[0] % 0x80, 0);
  }

  lemma TwoByteSize(s: Bytes, a: byte, b: byte)
    requires s == [a, b] && a >= 0x80 && b < 0x80
    ensures Complete(s) && SizeOf(s) == a - 0x80 + 0x80 * b
  {
    assert Varint.Partial(s, 1) == Varint.Partial(s, 0) + Varint.Shift(s[0] % 0x80, 0);
    assert Varint.Shift(b, 1) == 0x80 * Varint.Shift(b, 0);
    assert Varint.Partial(s, 2) == Varint.Partial(s, 1) + Varint.Shift(s[1] % 0x80, 1);
  }

  /** Why an instruction cannot be carried out: 0 is reserved, a literal needs its bytes, a copy its operands and a range inside the base. */
  lemma WhyItStops(base: Bytes, s: Bytes, pos: nat)
    requires pos < |s|
    ensures s[pos] == 0 ==> Fault(base, s, pos) == Some(Reserved)
    ensures 0 < s[pos] < 0x80 ==> Fault(base, s, pos) == if pos + 1 + s[pos] > |s| then Some(InsertOutOfRange) else None
    ensures s[pos] >= 0x80 ==> (Fault(base, s, pos) == Some(Panics) <==> |s| - pos - 1 < FlagCount(s[pos], 0))
    ensures s[pos] >= 0x80 ==> Fault(base, s, pos) in [None, Some(Panics), Some(CopyOutOfRange)]
  {
    if s[pos] >= 0x80 { OperandsRunOut(s[pos], 0, s, pos + 1); }
  }

  // ----- offsets -----

  /** One byte is the distance itself; two bytes start at 128, three at 16512. */
  lemma OffsetBytes(a: byte, b: byte, c: byte)
    requires c < 0x80
    ensures Complete([c]) && OfsValue([c], 1) == c
    ensures a >= 0x80 ==> Complete([a, c]) && OfsValue([a, c], 2) == 128 + 128 * (a - 0x80) + c
    ensures a >= 0x80 && b >= 0x80 ==> Complete([a, b, c]) && OfsValue([a, b, c], 3) == 16512 + 16384 * (a - 0x80) + 128 * (b - 0x80) + c
  {
    assert OfsValue([a, b, c], 2) == 0x80 * (OfsValue([a, b, c], 1) + 1) + b % 0x80;
  }
}
