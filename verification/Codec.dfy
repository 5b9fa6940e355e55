/**
  varvig/internal/object/object.go: the VVG1 encoding. A raw object is a type and a list
  of fields sorted by tag; the encoding is a bijection between valid raw objects and the
  byte strings the decoder accepts.
 */
module Codec {
  import opened Basics
  import opened Orders
  import opened Records
  import Varint

  datatype Field = Field(tag: nat, val: Bytes)

  /** The value of an object: its type and its fields. */
  datatype Raw = Raw(typ: nat, fields: seq<Field>)

  function Magic(): Bytes { Ascii("VVG1") }

  const TAG_SIGNATURE: nat := 7

  // ----- the field list -----

  function EncodeField(f: Field): Bytes {
    Varint.Encode(f.tag) + Prefixed(f.val)
  }

  predicate ValidField(f: Field) {
    f.tag < U64 && |f.val| < U64
  }

  predicate ByTag(x: Field, y: Field) {
    x.tag < y.tag
  }

  const FIELDS: Shape<Field> := Shape(EncodeField, ValidField, ByTag)

  lemma FieldsPrefixCode()
    ensures PrefixCode(FIELDS) && StrictOrder(ByTag)
  {
    forall x: Field, y: Field, s | Starts(EncodeField(x), s) && Starts(EncodeField(y), s) ensures x == y {
      FieldPrefixFree(x, y, s);
    }
  }

  lemma FieldPrefixFree(x: Field, y: Field, s: Bytes)
    requires Starts(EncodeField(x), s) && Starts(EncodeField(y), s)
    ensures x == y
  {
    var n := |Varint.Encode(x.tag)|;
    assert Varint.Encode(x.tag) <= EncodeField(x) && Varint.Encode(y.tag) <= EncodeField(y);
    Varint.EncodePrefixFree(x.tag, y.tag, s);
    assert Prefixed(x.val) == EncodeField(x)[n..] && Prefixed(y.val) == EncodeField(y)[n..];
    PrefixedPrefixFree(x.val, y.val, s[n..]);
  }

  ghost predicate Valid(o: Raw) {
    o.typ < U64 && ValidList(FIELDS, o.fields)
  }

  /** The bytes of an object. */
  ghost function Encoding(o: Raw): Bytes {
    Magic() + (Varint.Encode(o.typ) + EncodeList(FIELDS, o.fields))
  }

  // ----- Encode -----

  method AppendField(b: Bytes, f: Field) returns (r: Bytes)
    ensures r == b + EncodeField(f)
  {
    r := Varint.AppendUvarint(b, f.tag);
    r := Varint.AppendUvarint(r, |f.val|);
    r := r + f.val;
  }

  /** Encode, or encodeWithout for the fields that are kept. */
  method EncodeFields(typ: nat, fields: seq<Field>) returns (buf: Bytes)
    ensures buf == Encoding(Raw(typ, fields))
  {
    buf := Varint.AppendUvarint(Magic(), typ);
    buf := Varint.AppendUvarint(buf, |fields|);
    ghost var header := buf;
    for k := 0 to |fields|
      invariant buf == header + EncodeAll(FIELDS, fields[..k])
    {
      assert fields[..k + 1] == fields[..k] + [fields[k]];
      EncodeAllAppend(FIELDS, fields[..k], fields[k]);
      Varint.Associate(header, EncodeAll(FIELDS, fields[..k]), EncodeField(fields[k]));
      buf := AppendField(buf, fields[k]);
    }
    assert fields[..|fields|] == fields;
  }

  // ----- Decode -----

  datatype Malformed = BadMagic | BadVarint | NotSorted | Truncated | TrailingBytes

  /** No valid object has these bytes. */
  ghost predicate NoObject(b: Bytes) {
    forall o :: Valid(o) ==> Encoding(o) != b
  }

  /** One field record. */
  method ReadField(c: Cursor) returns (r: Result<Field, Malformed>)
    requires c.Valid()
    modifies c
    ensures c.Valid()
    ensures r.Ok? ==> ValidField(r.value) && old(c.Rest()) == EncodeField(r.value) + c.Rest()
    ensures r.Err? ==> forall f :: ValidField(f) ==> !Starts(EncodeField(f), old(c.Rest()))
  {
    ghost var rest := c.Rest();
    var tag := c.Uvarint();
    if tag.None? {
      forall f | ValidField(f) ensures !Starts(EncodeField(f), rest) {
        if Starts(EncodeField(f), rest) {
          assert Varint.Encode(f.tag) <= EncodeField(f);
          FieldStarts(f, rest, f.tag);
        }
      }
      return Err(BadVarint);
    }
    ghost var after := c.Rest();
    var val := c.TakePrefixed();
    if val.None? {
      forall f | ValidField(f) ensures !Starts(EncodeField(f), rest) {
        if Starts(EncodeField(f), rest) { FieldStarts(f, rest, tag.value); }
      }
      return Err(Truncated);
    }
    Varint.Associate(Varint.Encode(tag.value), Prefixed(val.value), c.Rest());
    return Ok(Field(tag.value, val.value));
  }

  /** A field that stands at the start of a string: its tag, then its value. */
  lemma FieldStarts(f: Field, s: Bytes, tag: nat)
    requires ValidField(f) && Starts(EncodeField(f), s) && Varint.Encode(tag) <= s
    ensures Varint.StartsWith(s, f.tag) && f.tag == tag && Prefixed(f.val) <= s[|Varint.Encode(tag)|..]
  {
    assert Varint.Encode(f.tag) <= EncodeField(f) <= s;
    Varint.EncodePrefixFree(f.tag, tag, s);
    assert Prefixed(f.val) == EncodeField(f)[|Varint.Encode(tag)|..];
  }

  /** The field records of an object with `n` of them. */
  method ReadFields(c: Cursor, n: nat) returns (r: Result<seq<Field>, Malformed>)
    requires c.Valid() && n < U64
    modifies c
    ensures r.Ok? ==> ValidList(FIELDS, r.value) && |r.value| == n && EncodeAll(FIELDS, r.value) == old(c.Rest())
    ensures r.Err? ==> NoList(FIELDS, old(c.Rest()), n)
  {
    FieldsPrefixCode();
    ghost var s := c.Rest();
    var fields: seq<Field> := [];
    var prev := 0;
    for k := 0 to n
      invariant c.Valid() && |fields| == k && (k > 0 ==> prev == fields[k - 1].tag)
      invariant Decoding(FIELDS, s, n, fields, c.Rest())
    {
      ghost var rest := c.Rest();
      var f := ReadField(c);
      if f.Err? {
        NoRecord(FIELDS, s, n, fields, rest);
        return Err(f.error);
      }
      if k > 0 && f.value.tag <= prev {
        OutOfOrder(FIELDS, s, n, fields, rest, f.value);
        return Err(NotSorted);
      }
      AscendingAppend(ByTag, fields, f.value);
      DecodedRecord(FIELDS, s, n, fields, rest, f.value, c.Rest());
      fields := fields + [f.value];
      prev := f.value.tag;
    }
    var done := c.Empty();
    if !done {
      Trailing(FIELDS, s, n, fields, c.Rest());
      return Err(TrailingBytes);
    }
    return Ok(fields);
  }

  lemma HeaderOf(b: Bytes, o: Raw)
    requires Valid(o) && Encoding(o) == b
    ensures Magic() <= b
    ensures Varint.StartsWith(b[4..], o.typ) && b[4..] == Varint.Encode(o.typ) + EncodeList(FIELDS, o.fields)
    ensures var rest := b[4 + |Varint.Encode(o.typ)|..];
            rest == EncodeList(FIELDS, o.fields) && Varint.StartsWith(rest, |o.fields|)
            && EncodeAll(FIELDS, o.fields) == rest[|Varint.Encode(|o.fields|)|..]
  {
    assert |Magic()| == 4;
    assert b[4..] == Varint.Encode(o.typ) + EncodeList(FIELDS, o.fields);
  }

  /** What stands behind the magic: `typ`, then `n`, then `rest`. */
  lemma BodyDecides(b: Bytes, typ: nat, n: nat, rest: Bytes)
    requires typ < U64 && n < U64 && b == Magic() + (Varint.Encode(typ) + (Varint.Encode(n) + rest))
    ensures NoList(FIELDS, rest, n) ==> NoObject(b)
    ensures forall fs :: ValidList(FIELDS, fs) && |fs| == n && EncodeAll(FIELDS, fs) == rest ==> Encoding(Raw(typ, fs)) == b
  {
    forall o | Valid(o) && Encoding(o) == b ensures !NoList(FIELDS, rest, n) {
      HeaderOf(b, o);
      var body := b[4..];
      assert |Magic()| == 4 && body == Varint.Encode(typ) + (Varint.Encode(n) + rest);
      Varint.EncodePrefixFree(o.typ, typ, body);
      var list := body[|Varint.Encode(typ)|..];
      assert list == Varint.Encode(n) + rest && list == EncodeList(FIELDS, o.fields);
      Varint.EncodePrefixFree(|o.fields|, n, list);
      assert EncodeAll(FIELDS, o.fields) == list[|Varint.Encode(n)|..] == rest;
    }
  }

  /** Decode accepts exactly the encodings of valid objects, and gives back the object encoded. */
  method Decode(b: Bytes) returns (r: Result<Raw, Malformed>)
    ensures r.Ok? ==> Valid(r.value) && Encoding(r.value) == b
    ensures r.Err? ==> NoObject(b)
  {
    var c := new Cursor(b);
    var magic := c.Take(4);
    assert |Magic()| == 4;
    if magic.None? || magic.value != Magic() {
      forall o | Valid(o) ensures Encoding(o) != b { if Encoding(o) == b { HeaderOf(b, o); } }
      return Err(BadMagic);
    }
    ghost var body := c.Rest();
    assert body == b[4..];
    var typ := c.Uvarint();
    if typ.None? {
      forall o | Valid(o) ensures Encoding(o) != b { if Encoding(o) == b { HeaderOf(b, o); } }
      return Err(BadVarint);
    }
    ghost var list := c.Rest();
    var n := c.Uvarint();
    if n.None? {
      forall o | Valid(o) ensures Encoding(o) != b {
        if Encoding(o) == b {
          HeaderOf(b, o);
          Varint.EncodePrefixFree(o.typ, typ.value, body);
        }
      }
      return Err(BadVarint);
    }
    BodyDecides(b, typ.value, n.value, c.Rest());
    var fields := ReadFields(c, n.value);
    if fields.Err? { return Err(fields.error); }
    return Ok(Raw(typ.value, fields.value));
  }

  /** Two objects with the same bytes are the same object: with Decode, a bijection. */
  lemma EncodingInjective(o: Raw, p: Raw)
    requires Valid(o) && Valid(p) && Encoding(o) == Encoding(p)
    ensures o == p
  {
    var b := Encoding(o);
    HeaderOf(b, o);
    HeaderOf(b, p);
    Varint.EncodePrefixFree(o.typ, p.typ, b[4..]);
    FieldsPrefixCode();
    EncodeListInjective(FIELDS, o.fields, p.fields);
  }
}
