/**
  varvig/internal/object/object.go: objects edited in place, and signing over everything
  but the signature. What an object says is its set of fields; the canonical order adds
  nothing to it.
 */
module RawObjects {
  import opened Basics
  import opened Orders
  import opened Records
  import opened Codec

  /** The fields of a set other than the one tagged `tag`. */
  ghost function Others(fs: set<Field>, tag: nat): set<Field> {
    set f | f in fs && f.tag != tag
  }

  /** The canonical field list is determined by its fields. */
  lemma FieldsDetermine(fs: seq<Field>, gs: seq<Field>)
    requires Ascending(ByTag, fs) && Ascending(ByTag, gs) && Elements(fs) == Elements(gs)
    ensures fs == gs
  {
    FieldsPrefixCode();
    AscendingUnique(ByTag, fs, gs);
  }

  /** The fields other than the one tagged `skip`, in order. */
  function Without(fs: seq<Field>, skip: nat): seq<Field> {
    if fs == [] then []
    else
      var n := |fs| - 1;
      if fs[n].tag == skip then Without(fs[..n], skip) else Without(fs[..n], skip) + [fs[n]]
  }

  lemma OneMoreKept(fs: seq<Field>, rest: seq<Field>, f: Field, skip: nat)
    requires Ascending(ByTag, fs + [f]) && Ascending(ByTag, rest) && Elements(rest) == Others(Elements(fs), skip)
    ensures f.tag != skip ==> Ascending(ByTag, rest + [f]) && Elements(rest + [f]) == Others(Elements(fs + [f]), skip)
    ensures f.tag == skip ==> Elements(rest) == Others(Elements(fs + [f]), skip)
  {
    assert Elements(fs + [f]) == Elements(fs) + {f};
    assert Elements(rest + [f]) == Elements(rest) + {f};
    forall i | 0 <= i < |rest| ensures ByTag(rest[i], f) {
      assert rest[i] in Elements(rest);
      assert rest[i] in fs;
      var k :| 0 <= k < |fs| && fs[k] == rest[i];
      assert ByTag((fs + [f])[k], (fs + [f])[|fs|]);
    }
  }

  lemma {:induction false} WithoutSays(fs: seq<Field>, skip: nat)
    requires Ascending(ByTag, fs)
    ensures Ascending(ByTag, Without(fs, skip)) && |Without(fs, skip)| <= |fs|
    ensures Elements(Without(fs, skip)) == Others(Elements(fs), skip)
  {
    if fs != [] {
      var n := |fs| - 1;
      WithoutSays(fs[..n], skip);
      SplitLast(fs);
      OneMoreKept(fs[..n], Without(fs[..n], skip), fs[n], skip);
    }
  }

  /** What is signed: the object without its signature field. */
  function Signable(o: Raw): Raw {
    Raw(o.typ, Without(o.fields, TAG_SIGNATURE))
  }

  lemma SignableValid(o: Raw)
    requires Valid(o)
    ensures Valid(Signable(o))
  {
    WithoutSays(o.fields, TAG_SIGNATURE);
    forall f | f in Without(o.fields, TAG_SIGNATURE) ensures ValidField(f) {
      assert f in Elements(Without(o.fields, TAG_SIGNATURE));
      assert f in o.fields;
    }
  }

  /** Equal signed bytes mean equal objects up to the signature, and the other way round. */
  lemma SignedBytesDecide(o: Raw, p: Raw)
    requires Valid(o) && Valid(p)
    ensures Encoding(Signable(o)) == Encoding(Signable(p)) <==>
            o.typ == p.typ && Others(Elements(o.fields), TAG_SIGNATURE) == Others(Elements(p.fields), TAG_SIGNATURE)
  {
    SignableValid(o);
    SignableValid(p);
    WithoutSays(o.fields, TAG_SIGNATURE);
    WithoutSays(p.fields, TAG_SIGNATURE);
    if Encoding(Signable(o)) == Encoding(Signable(p)) { EncodingInjective(Signable(o), Signable(p)); }
    if Others(Elements(o.fields), TAG_SIGNATURE) == Others(Elements(p.fields), TAG_SIGNATURE) {
      FieldsDetermine(Without(o.fields, TAG_SIGNATURE), Without(p.fields, TAG_SIGNATURE));
    }
  }

  /** Replacing one value in place. */
  lemma Replaced(fs: seq<Field>, i: nat, val: Bytes)
    requires Ascending(ByTag, fs) && i < |fs|
    ensures var gs := fs[i := Field(fs[i].tag, val)];
            Ascending(ByTag, gs) && Elements(gs) == Others(Elements(fs), fs[i].tag) + {Field(fs[i].tag, val)}
  {
    var f, gs := Field(fs[i].tag, val), fs[i := Field(fs[i].tag, val)];
    forall g ensures g in gs <==> g in Others(Elements(fs), fs[i].tag) + {f} {
      if g in gs { var k :| 0 <= k < |gs| && gs[k] == g; }
      if g in Others(Elements(fs), fs[i].tag) {
        var k :| 0 <= k < |fs| && fs[k] == g;
        assert gs[k] == g;
      }
      assert gs[i] == f;
    }
  }

  /** Cutting one field out. */
  lemma Removed(fs: seq<Field>, i: nat)
    requires Ascending(ByTag, fs) && i < |fs|
    ensures var gs := fs[..i] + fs[i + 1..];
            Ascending(ByTag, gs) && Elements(gs) == Others(Elements(fs), fs[i].tag)
  {
    var gs := fs[..i] + fs[i + 1..];
    forall g ensures g in gs <==> g in Others(Elements(fs), fs[i].tag) {
      if g in gs { var k :| 0 <= k < |gs| && gs[k] == g; assert g == fs[if k < i then k else k + 1]; }
      if g in Others(Elements(fs), fs[i].tag) {
        var k :| 0 <= k < |fs| && fs[k] == g;
        assert g == gs[if k < i then k else k - 1];
      }
    }
  }

  /** Appending a field with a new tag and sorting. */
  lemma Inserted(fs: seq<Field>, f: Field)
    requires Ascending(ByTag, fs) && forall g :: g in fs ==> g.tag != f.tag
    ensures var gs := Sort(ByTag, fs + [f]);
            Ascending(ByTag, gs) && Elements(gs) == Others(Elements(fs), f.tag) + {f}
  {
    FieldsPrefixCode();
    AscendingNoDuplicates(ByTag, fs);
    NoDuplicatesAppend(fs, f);
    assert Elements(fs + [f]) == Elements(fs) + {f} == Others(Elements(fs), f.tag) + {f};
    forall x, y | x in Elements(fs + [f]) && y in Elements(fs + [f]) && x != y ensures ByTag(x, y) || ByTag(y, x) {
      if x in fs && y in fs {
        var i :| 0 <= i < |fs| && fs[i] == x;
        var j :| 0 <= j < |fs| && fs[j] == y;
        assert i < j || j < i;
      }
    }
    SortAscending(ByTag, fs + [f]);
  }

  lemma StaysValid(o: Raw, fs: seq<Field>)
    requires Valid(o) && Ascending(ByTag, fs) && |fs| < U64
    requires forall f :: f in Elements(fs) ==> f in Elements(o.fields) || ValidField(f)
    ensures Valid(Raw(o.typ, fs))
  {
    forall f | f in fs ensures ValidField(f) { assert f in Elements(fs); }
  }

  /** An object in memory. */
  class RawObject {
    var typ: nat
    var fields: seq<Field>

    constructor (o: Raw)
      ensures Value() == o
    {
      typ, fields := o.typ, o.fields;
    }

    function Value(): Raw
      reads this
    {
      Raw(typ, fields)
    }

    ghost predicate WellFormed()
      reads this
    {
      Valid(Value())
    }

    method Index(tag: nat) returns (i: int)
      ensures i >= 0 ==> i < |fields| && fields[i].tag == tag
      ensures i < 0 ==> forall f :: f in fields ==> f.tag != tag
    {
      i := 0;
      while i < |fields|
        invariant 0 <= i <= |fields| && forall k :: 0 <= k < i ==> fields[k].tag != tag
      {
        if fields[i].tag == tag { return i; }
        i := i + 1;
      }
      return -1;
    }

    /** Field: the value under a tag. */
    method GetField(tag: nat) returns (r: Option<Bytes>)
      requires WellFormed()
      ensures forall v :: r == Some(v) <==> Field(tag, v) in fields
    {
      var i := Index(tag);
      return if i >= 0 then Some(fields[i].val) else None;
    }

    /** Replaces or inserts one field; every other field and the order are kept. */
    method SetField(tag: nat, val: Bytes)
      requires WellFormed() && tag < U64 && |val| < U64 && |fields| + 1 < U64
      modifies this
      ensures WellFormed() && typ == old(typ)
      ensures Elements(fields) == Others(old(Elements(fields)), tag) + {Field(tag, val)}
    {
      var i := Index(tag);
      ghost var before := Value();
      if i >= 0 {
        Replaced(fields, i, val);
        fields := fields[i := Field(tag, val)];
      } else {
        Inserted(fields, Field(tag, val));
        fields := Sort(ByTag, fields + [Field(tag, val)]);
      }
      StaysValid(before, fields);
    }

    /** Removes one field if it is there; the others are kept. */
    method DeleteField(tag: nat)
      requires WellFormed()
      modifies this
      ensures WellFormed() && typ == old(typ)
      ensures Elements(fields) == Others(old(Elements(fields)), tag)
    {
      var i := Index(tag);
      if i < 0 {
        assert Others(Elements(fields), tag) == Elements(fields);
        return;
      }
      ghost var before := Value();
      Removed(fields, i);
      fields := fields[..i] + fields[i + 1..];
      StaysValid(before, fields);
    }

    method Encode() returns (b: Bytes)
      ensures b == Encoding(Value())
    {
      b := EncodeFields(typ, fields);
    }

    /** encodeWithout: the encoding with one field skipped. */
    method EncodeWithout(skip: nat) returns (b: Bytes)
      ensures b == Encoding(Raw(typ, Without(fields, skip)))
    {
      var kept: seq<Field> := [];
      for k := 0 to |fields|
        invariant kept == Without(fields[..k], skip)
      {
        assert fields[..k + 1][..k] == fields[..k];
        if fields[k].tag != skip { kept := kept + [fields[k]]; }
      }
      assert fields[..|fields|] == fields;
      b := EncodeFields(typ, kept);
    }

    method SignableBytes() returns (b: Bytes)
      ensures b == Encoding(Signable(Value()))
    {
      b := EncodeWithout(TAG_SIGNATURE);
    }

    /** Attaching a signature does not change what is signed. */
    method SetSignature(blob: Bytes)
      requires WellFormed() && |blob| < U64 && |fields| + 1 < U64
      modifies this
      ensures WellFormed() && typ == old(typ)
      ensures Elements(fields) == Others(old(Elements(fields)), TAG_SIGNATURE) + {Field(TAG_SIGNATURE, blob)}
      ensures Encoding(Signable(Value())) == old(Encoding(Signable(Value())))
    {
      ghost var before := Value();
      SetField(TAG_SIGNATURE, blob);
      assert Others(Elements(fields), TAG_SIGNATURE) == Others(Elements(before.fields), TAG_SIGNATURE);
      SignedBytesDecide(before, Value());
    }
  }

  /** Signing covers exactly the object that deleting the signature field leaves. */
  method SignedAfterDelete(o: Raw) returns (signed: Bytes, stripped: Bytes)
    requires Valid(o)
    ensures signed == stripped == Encoding(Signable(o))
  {
    var x := new RawObject(o);
    signed := x.SignableBytes();
    x.DeleteField(TAG_SIGNATURE);
    WithoutSays(o.fields, TAG_SIGNATURE);
    FieldsDetermine(x.fields, Without(o.fields, TAG_SIGNATURE));
    stripped := x.Encode();
  }
}
