/** varvig/internal/object/object.go: unsigned varints, minimal and bounded at 64 bits. */
module Varint {
  import opened Basics

  const U64: nat := 0x1_0000_0000_0000_0000

  /** The minimal little-endian base-128 form. */
  function Encode(v: nat): (b: Bytes)
    ensures |b| >= 1
  {
    if v < 0x80 then [v] else [v % 0x80 + 0x80] + Encode(v / 0x80)
  }

  /** m << 7k. */
  function Shift(m: nat, k: nat): nat {
    if k == 0 then m else 0x80 * Shift(m, k - 1)
  }

  lemma {:induction false} ShiftAdds(m: nat, n: nat, k: nat)
    ensures Shift(m + n, k) == Shift(m, k) + Shift(n, k)
  {
    if k > 0 { ShiftAdds(m, n, k - 1); }
  }

  lemma ShiftMonotone(m: nat, n: nat, k: nat)
    requires m <= n
    ensures Shift(m, k) <= Shift(n, k)
  {
    ShiftAdds(m, n - m, k);
  }

  /** Carrying: 128 in one group is one in the next. */
  lemma {:induction false} ShiftCarries(m: nat, k: nat)
    ensures Shift(0x80 * m, k) == Shift(m, k + 1)
  {
    if k > 0 { ShiftCarries(m, k - 1); }
  }

  lemma {:induction false} ShiftGrows(i: nat, j: nat)
    requires i <= j
    ensures 1 <= Shift(1, i) <= Shift(1, j)
    decreases j
  {
    if i < j { ShiftGrows(i, j - 1); }
    else if i > 0 { ShiftGrows(i - 1, i - 1); }
  }

  lemma ShiftNine(m: nat)
    ensures Shift(m, 9) == 0x8000_0000_0000_0000 * m
  {
    assert Shift(m, 1) == 0x80 * m;
    assert Shift(m, 2) == 0x80 * Shift(m, 1);
    assert Shift(m, 3) == 0x80 * Shift(m, 2);
    assert Shift(m, 4) == 0x80 * Shift(m, 3);
    assert Shift(m, 5) == 0x80 * Shift(m, 4);
    assert Shift(m, 6) == 0x80 * Shift(m, 5);
    assert Shift(m, 7) == 0x80 * Shift(m, 6);
    assert Shift(m, 8) == 0x80 * Shift(m, 7);
    assert Shift(m, 9) == 0x80 * Shift(m, 8);
  }

  lemma DivideTwice(v: nat, s: nat)
    requires s >= 1
    ensures v / (0x80 * s) == v / 0x80 / s
  {
    var q, r, t := v / 0x80 / s, v / 0x80 % s, v % 0x80;
    assert v / 0x80 == q * s + r && v == 0x80 * (v / 0x80) + t;
    assert v == (0x80 * s) * q + (0x80 * r + t);
    QuotientUnique(v, 0x80 * s, q, 0x80 * r + t);
  }

  lemma QuotientUnique(v: nat, d: nat, q: nat, r: nat)
    requires d >= 1 && r < d && v == d * q + r
    ensures v / d == q
  {
    assert v == d * (v / d) + v % d;
    Multiples(d, v / d, q);
  }

  lemma Multiples(d: nat, x: nat, y: nat)
    ensures x < y ==> d * x + d <= d * y
    ensures y < x ==> d * y + d <= d * x
  {
    assert d * (x + 1) == d * x + d && d * (y + 1) == d * y + d;
    if x < y { assert d * (x + 1) <= d * y; }
    if y < x { assert d * (y + 1) <= d * x; }
  }

  /** Byte i holds bits 7i to 7i + 6 of the value, least significant first; all bytes but the last have the top bit set. */
  lemma {:induction false} EncodeGroups(v: nat, i: nat)
    requires i < |Encode(v)|
    ensures Shift(1, i) >= 1 && Encode(v)[i] % 0x80 == v / Shift(1, i) % 0x80
    ensures Encode(v)[i] >= 0x80 <==> i < |Encode(v)| - 1
  {
    ShiftGrows(i, i);
    if i > 0 {
      EncodeGroups(v / 0x80, i - 1);
      assert Encode(v)[i] == Encode(v / 0x80)[i - 1];
      DivideTwice(v, Shift(1, i - 1));
    }
  }

  method AppendUvarint(b: Bytes, v: nat) returns (r: Bytes)
    ensures r == b + Encode(v)
  {
    r := b;
    var rest := v;
    while rest >= 0x80
      invariant r + Encode(rest) == b + Encode(v)
    {
      Associate(r, [rest % 0x80 + 0x80], Encode(rest / 0x80));
      r := r + [rest % 0x80 + 0x80];
      rest := rest / 0x80;
    }
    r := r + [rest];
  }

  lemma Associate(x: Bytes, y: Bytes, z: Bytes)
    ensures x + (y + z) == x + y + z
  {
  }

  /** No encoding is a proper prefix of another: what starts a string is unique. */
  lemma {:induction false} EncodePrefixFree(v: nat, w: nat, s: Bytes)
    requires Encode(v) <= s && Encode(w) <= s
    ensures v == w
  {
    assert Encode(v)[0] == s[0] == Encode(w)[0];
    if v >= 0x80 {
      assert Encode(v)[1..] == Encode(v / 0x80) && Encode(w)[1..] == Encode(w / 0x80);
      EncodePrefixFree(v / 0x80, w / 0x80, s[1..]);
    }
  }

  /** The value of the continuation bytes b[..i], each carrying seven bits. */
  function Partial(b: Bytes, i: nat): nat
    requires i <= |b|
  {
    if i == 0 then 0 else Partial(b, i - 1) + Shift(b[i - 1] % 0x80, i - 1)
  }

  ghost predicate Continued(b: Bytes, i: nat)
    requires i <= |b|
  {
    forall k :: 0 <= k < i ==> b[k] >= 0x80
  }

  lemma {:induction false} PartialBound(b: Bytes, i: nat)
    requires i <= |b|
    ensures Partial(b, i) < Shift(1, i)
  {
    if i > 0 {
      PartialBound(b, i - 1);
      ShiftMonotone(b[i - 1] % 0x80, 0x7f, i - 1);
      ShiftAdds(0x7f, 1, i - 1);
      ShiftCarries(1, i - 1);
    }
  }

  lemma {:induction false} PartialTail(b: Bytes, i: nat)
    requires 1 <= i <= |b|
    ensures Partial(b, i) == b[0] % 0x80 + 0x80 * Partial(b[1..], i - 1)
    decreases i
  {
    if i > 1 {
      PartialTail(b, i - 1);
      assert b[1..][i - 2] == b[i - 1];
    }
  }

  /** Continuation bytes and a final byte encode the value they add up to, if the final byte is not a padding zero. */
  lemma {:induction false} PartialEncodes(b: Bytes, i: nat)
    requires i < |b| && Continued(b, i) && b[i] < 0x80 && (b[i] == 0 ==> i == 0)
    ensures b[..i + 1] == Encode(Partial(b, i) + Shift(b[i], i))
    decreases i
  {
    if i == 0 {
      assert b[..1] == [b[0]];
    } else {
      PartialTail(b, i);
      assert b[1..][i - 1] == b[i];
      PartialEncodes(b[1..], i - 1);
      var t := Partial(b[1..], i - 1) + Shift(b[i], i - 1);
      var v := Partial(b, i) + Shift(b[i], i);
      assert v == b[0] % 0x80 + 0x80 * t;
      assert t >= 1 by {
        ShiftMonotone(1, b[i], i - 1);
        ShiftGrows(i - 1, i - 1);
      }
      QuotientUnique(v, 0x80, t, b[0] - 0x80);
      assert v / 0x80 == t && v % 0x80 == b[0] - 0x80;
      assert b[..i + 1] == [b[0]] + b[1..][..i];
    }
  }

  /** An encoding that starts `b` ends at the first byte without the continuation bit. */
  lemma {:induction false} EncodingEnds(b: Bytes, i: nat, v: nat)
    requires i < |b| && Continued(b, i) && b[i] < 0x80 && Encode(v) <= b
    ensures |Encode(v)| == i + 1 && (b[i] == 0 ==> i == 0)
    ensures v == Partial(b, i) + Shift(b[i], i)
    decreases i
  {
    assert Encode(v)[0] == b[0];
    if i > 0 {
      assert b[0] >= 0x80;
      assert Encode(v)[1..] == Encode(v / 0x80);
      assert b[1..][i - 1] == b[i];
      EncodingEnds(b[1..], i - 1, v / 0x80);
      PartialTail(b, i);
    }
  }

  /** An encoding that starts `b` is not all continuation bytes. */
  lemma {:induction false} EncodingStops(b: Bytes, v: nat) returns (i: nat)
    requires Encode(v) <= b
    ensures i < |b| && Continued(b, i) && b[i] < 0x80
  {
    if v < 0x80 {
      i := 0;
    } else {
      assert Encode(v)[1..] == Encode(v / 0x80);
      var j := EncodingStops(b[1..], v / 0x80);
      assert b[0] == Encode(v)[0] >= 0x80;
      i := j + 1;
      forall k | 0 <= k < i ensures b[k] >= 0x80 { if k > 0 { assert b[k] == b[1..][k - 1]; } }
    }
  }

  /** A value below 2^64 takes at most ten bytes, the tenth being at most one. */
  lemma BelowU64(b: Bytes, i: nat)
    requires i < |b| && Continued(b, i) && b[i] < 0x80 && (b[i] == 0 ==> i == 0)
    ensures Partial(b, i) + Shift(b[i], i) < U64 <==> i < 9 || (i == 9 && b[i] <= 1)
  {
    ShiftNine(1);
    ShiftNine(b[i]);
    PartialBound(b, i);
    if i < 9 {
      ShiftMonotone(b[i], 0x7f, i);
      ShiftAdds(0x7f, 1, i);
      ShiftCarries(1, i);
      ShiftGrows(i + 1, 9);
    } else if i > 9 {
      ShiftGrows(10, i);
      ShiftMonotone(1, b[i], i);
    }
  }

  /** What can stand at the start of `b`: the encoding of a 64-bit value. */
  ghost predicate StartsWith(b: Bytes, v: nat) {
    v < U64 && Encode(v) <= b
  }

  /** readUvarint: the value at the start of `b` and its length; None is an error. */
  method ReadUvarint(b: Bytes) returns (r: Option<(nat, nat)>)
    ensures r.Some? ==> StartsWith(b, r.value.0) && r.value.1 == |Encode(r.value.0)|
    ensures r.None? ==> forall v :: !StartsWith(b, v)
  {
    var x: nat := 0;
    var i := 0;
    while i < |b|
      invariant 0 <= i <= |b| && i <= 10
      invariant Continued(b, i) && x == Partial(b, i)
    {
      var ch := b[i];
      if i == 10 {
        forall v ensures !StartsWith(b, v) { if StartsWith(b, v) { TooLong(b, v); } }
        return None;
      }
      if ch < 0x80 {
        if (i == 9 && ch > 1) || (ch == 0 && i != 0) {
          forall v ensures !StartsWith(b, v) { if StartsWith(b, v) { BadEnd(b, i, v); } }
          return None;
        }
        PartialEncodes(b, i);
        BelowU64(b, i);
        return Some((x + Shift(ch, i), i + 1));
      }
      x := x + Shift(ch % 0x80, i);
      i := i + 1;
    }
    forall v ensures !StartsWith(b, v) { if StartsWith(b, v) { var j := EncodingStops(b, v); } }
    return None;
  }

  lemma BadEnd(b: Bytes, i: nat, v: nat)
    requires i < |b| && Continued(b, i) && b[i] < 0x80 && ((i == 9 && b[i] > 1) || (b[i] == 0 && i != 0))
    ensures !StartsWith(b, v)
  {
    if Encode(v) <= b {
      EncodingEnds(b, i, v);
      BelowU64(b, i);
    }
  }

  lemma TooLong(b: Bytes, v: nat)
    requires |b| > 10 && Continued(b, 10)
    ensures !StartsWith(b, v)
  {
    if Encode(v) <= b {
      var i := EncodingStops(b, v);
      EncodingEnds(b, i, v);
      BelowU64(b, i);
    }
  }
}
