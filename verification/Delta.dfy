/**
  varvig/internal/gitobj/pack.go: Git's delta instructions and the offsets of
  OFS_DELTA (gitformat-pack, "Deltified representation"). Sizes and offsets are
  int64 in the source: what wraps there wraps here.
 */
module Delta {
  import opened Basics
  import opened Positions
  import Varint

  const U64: nat := Varint.U64
  const I63: nat := 0x8000_0000_0000_0000

  /** An int64 from the low 64 bits of v. */
  function Int64(v: nat): int {
    var w := v % U64;
    if w < I63 then w else w - U64
  }

  // ----- sizes -----

  /** Continuation bytes and one final byte. */
  ghost predicate Complete(b: Bytes) {
    b != [] && Varint.Continued(b, |b| - 1) && b[|b| - 1] < 0x80
  }

  /** The size a complete byte string stands for; padding zeros are allowed. */
  function SizeOf(b: Bytes): int {
    Int64(Varint.Partial(b, |b|))
  }

  lemma {:induction false} PartialPrefix(b: Bytes, c: Bytes, n: nat)
    requires n <= |b| && n <= |c| && b[..n] == c[..n]
    ensures Varint.Partial(b, n) == Varint.Partial(c, n)
  {
    if n > 0 {
      assert b[n - 1] == b[..n][n - 1] == c[n - 1];
      assert b[..n - 1] == b[..n][..n - 1] == c[..n - 1];
      PartialPrefix(b, c, n - 1);
    }
  }

  /** The low 64 bits of the first k groups. */
  function SizeBits(s: Bytes, k: nat): nat
    requires k <= |s|
  {
    Varint.Partial(s, k) % U64
  }

  lemma SizeStep(s: Bytes, k: nat)
    requires k < |s|
    ensures (SizeBits(s, k) + Varint.Shift(s[k] % 0x80, k)) % U64 == SizeBits(s, k + 1)
  {
    AddModulo(Varint.Partial(s, k), Varint.Shift(s[k] % 0x80, k));
  }

  lemma AddModulo(a: nat, b: nat)
    ensures (a % U64 + b) % U64 == (a + b) % U64
  {
    var q := a / U64;
    assert a == U64 * q + a % U64;
  }

  lemma SizeEnds(delta: Bytes, start: nat, k: nat)
    requires start + k < |delta| && Varint.Continued(delta[start..], k) && delta[start + k] < 0x80
    ensures Complete(delta[start..start + k + 1])
    ensures SizeOf(delta[start..start + k + 1]) == Int64(SizeBits(delta[start..], k + 1))
  {
    var s, t := delta[start..], delta[start..start + k + 1];
    assert t == s[..k + 1];
    PartialPrefix(s, t, k + 1);
  }

  /** readSize: the size at `start` and where it ends. */
  method ReadSize(delta: Bytes, start: nat) returns (r: Option<(int, nat)>)
    requires start <= |delta|
    ensures r.Some? ==> start < r.value.1 <= |delta| && Complete(delta[start..r.value.1]) && r.value.0 == SizeOf(delta[start..r.value.1])
    ensures r.None? ==> Varint.Continued(delta[start..], |delta| - start)
  {
    ghost var s := delta[start..];
    var k: nat := 0;
    var size: nat := 0;
    while start + k < |delta|
      invariant start + k <= |delta| && Varint.Continued(s, k) && size == SizeBits(s, k)
    {
      var c := delta[start + k];
      assert c == s[k];
      SizeStep(s, k);
      size := (size + Varint.Shift(c % 0x80, k)) % U64;
      if c < 0x80 {
        SizeEnds(delta, start, k);
        return Some((Int64(size), start + k + 1));
      }
      k := k + 1;
    }
    return None;
  }

  /** Only one complete size starts a string. */
  lemma CompleteUnique(x: Bytes, y: Bytes, s: Bytes)
    requires Complete(x) && Complete(y) && x <= s && y <= s
    ensures x == y
  {
    CompleteNotShorter(x, y, s);
    CompleteNotShorter(y, x, s);
  }

  lemma CompleteNotShorter(x: Bytes, y: Bytes, s: Bytes)
    requires Complete(x) && Complete(y) && x <= s && y <= s
    ensures |x| >= |y|
  {
    ContinuesAt(y, s, |x| - 1);
    assert s[|x| - 1] == x[|x| - 1];
  }

  lemma ContinuesAt(y: Bytes, s: Bytes, i: nat)
    requires Complete(y) && y <= s && i < |s|
    ensures i < |y| - 1 ==> s[i] >= 0x80
  {
    assert i < |y| ==> s[i] == y[i];
  }

  // ----- instructions -----

  /**
    Copy holds the seven optional operand bytes, four of the offset and three of the
    size, least significant first; Insert holds a literal.
   */
  datatype Op = Copy(operands: seq<Option<byte>>) | Insert(literal: Bytes)

  predicate ValidOp(x: Op) {
    if x.Copy? then |x.operands| == 7 else 1 <= |x.literal| < 0x80
  }

  /** op & (1 << k) != 0. */
  predicate Flag(op: nat, k: nat) {
    if k == 0 then op % 2 == 1 else Flag(op / 2, k - 1)
  }

  function Bit(k: nat): nat {
    if k == 0 then 1 else 2 * Bit(k - 1)
  }

  /** The flags of the operands present, bit 0 first. */
  function Flags(operands: seq<Option<byte>>): (r: nat)
    ensures r < Bit(|operands|)
  {
    if operands == [] then 0
    else (if operands[0].Some? then 1 else 0) + 2 * Flags(operands[1..])
  }

  /** A flag says whether its operand is present. */
  lemma {:induction false} FlagSays(operands: seq<Option<byte>>, k: nat)
    requires k < |operands|
    ensures Flag(Flags(operands), k) <==> operands[k].Some?
  {
    var op := Flags(operands);
    assert op / 2 == Flags(operands[1..]) && op % 2 == if operands[0].Some? then 1 else 0;
    if k > 0 { FlagSays(operands[1..], k - 1); }
  }

  function Present(operands: seq<Option<byte>>): Bytes {
    if operands == [] then []
    else (if operands[0].Some? then [operands[0].value] else []) + Present(operands[1..])
  }

  function EncodeOp(x: Op): Bytes {
    match x
    case Copy(p) => [if Flags(p) < 0x80 then Flags(p) + 0x80 else 0] + Present(p)
    case Insert(lit) => [if |lit| < 0x80 then |lit| else 0] + lit
  }

  function EncodeOps(xs: seq<Op>): Bytes {
    if xs == [] then [] else EncodeOp(xs[0]) + EncodeOps(xs[1..])
  }

  function Value(p: Option<byte>): nat {
    if p.Some? then p.value else 0
  }

  /** The little-endian number of the operand bytes, absent ones being zero. */
  function Number(operands: seq<Option<byte>>): nat {
    if operands == [] then 0 else Value(operands[0]) + 0x100 * Number(operands[1..])
  }

  function Offset(operands: seq<Option<byte>>): nat
    requires |operands| == 7
  {
    Number(operands[..4])
  }

  /** Size zero means 0x10000. */
  function Size(operands: seq<Option<byte>>): nat
    requires |operands| == 7
  {
    var n := Number(operands[4..]);
    if n == 0 then 0x10000 else n
  }

  predicate InRange(base: Bytes, x: Op) {
    ValidOp(x) && (x.Copy? ==> Offset(x.operands) + Size(x.operands) <= |base|)
  }

  predicate AllInRange(base: Bytes, xs: seq<Op>) {
    forall k :: 0 <= k < |xs| ==> InRange(base, xs[k])
  }

  /** What an instruction appends. */
  function Emits(base: Bytes, x: Op): Bytes
    requires InRange(base, x)
  {
    match x
    case Copy(p) => base[Offset(p)..Offset(p) + Size(p)]
    case Insert(lit) => lit
  }

  function Output(base: Bytes, xs: seq<Op>): Bytes
    requires AllInRange(base, xs)
  {
    if xs == [] then [] else Emits(base, xs[0]) + Output(base, xs[1..])
  }

  /** Every 32-bit offset and 24-bit size has operands; zero bytes may be left out. */
  function OperandsFor(v: nat, n: nat): (r: seq<Option<byte>>)
    ensures |r| == n
  {
    if n == 0 then [] else [if v % 0x100 == 0 then None else Some(v % 0x100)] + OperandsFor(v / 0x100, n - 1)
  }

  /** v << 8n. */
  function Shl(v: nat, n: nat): nat {
    if n == 0 then v else 0x100 * Shl(v, n - 1)
  }

  lemma {:induction false} OperandsExpress(v: nat, n: nat)
    requires v < Shl(1, n)
    ensures Number(OperandsFor(v, n)) == v
  {
    if n > 0 {
      OperandsExpress(v / 0x100, n - 1);
      assert OperandsFor(v, n)[1..] == OperandsFor(v / 0x100, n - 1);
    }
  }

  function CopyOf(off: nat, size: nat): Op {
    Copy(OperandsFor(off, 4) + OperandsFor(if size == 0x10000 then 0 else size, 3))
  }

  /** A copy of any 24-bit size from any 32-bit offset can be written, 0x10000 as no size at all. */
  lemma CopyExpressed(off: nat, size: nat)
    requires off < 0x1_0000_0000 && 0 < size < 0x100_0000
    ensures ValidOp(CopyOf(off, size))
    ensures Offset(CopyOf(off, size).operands) == off && Size(CopyOf(off, size).operands) == size
  {
    assert Shl(1, 2) == 0x1_0000 && Shl(1, 3) == 0x100_0000 && Shl(1, 4) == 0x1_0000_0000;
    var v := if size == 0x10000 then 0 else size;
    OperandsExpress(off, 4);
    OperandsExpress(v, 3);
    var p := CopyOf(off, size).operands;
    assert p[..4] == OperandsFor(off, 4) && p[4..] == OperandsFor(v, 3);
  }

  // ----- one instruction from a byte string -----

  datatype DeltaError = BaseMismatch | TruncatedSize | CopyOutOfRange | InsertOutOfRange | Reserved | ResultMismatch
    | Panics // a copy operand past the end of the delta, read without a bounds check

  function Prepend(p: seq<Option<byte>>, rest: Option<seq<Option<byte>>>): Option<seq<Option<byte>>> {
    if rest.Some? then Some(p + rest.value) else None
  }

  /** The operands flagged in `op` from bit k on, standing at `pos`; None when the bytes run out. */
  function Operands(op: nat, k: nat, s: Bytes, pos: nat): (r: Option<seq<Option<byte>>>)
    requires k <= 7 && pos <= |s|
    ensures r.Some? ==> |r.value| == 7 - k
    decreases 7 - k
  {
    if k == 7 then Some([])
    else if !Flag(op, k) then Prepend([None], Operands(op, k + 1, s, pos))
    else if pos == |s| then None
    else Prepend([Some(s[pos])], Operands(op, k + 1, s, pos + 1))
  }

  function NextOp(s: Bytes, pos: nat): Result<Op, DeltaError>
    requires pos < |s|
  {
    var op := s[pos];
    if op >= 0x80 then
      var p := Operands(op, 0, s, pos + 1);
      if p.None? then Err(Panics) else Ok(Copy(p.value))
    else if op != 0 then
      if pos + 1 + op > |s| then Err(InsertOutOfRange) else Ok(Insert(s[pos + 1..pos + 1 + op]))
    else Err(Reserved)
  }

  lemma {:induction false} OperandsEncode(op: nat, p: seq<Option<byte>>, k: nat, s: Bytes, pos: nat)
    requires |p| == 7 && k <= 7 && Stands(Present(p[k..]), s, pos)
    requires forall j :: 0 <= j < 7 ==> (Flag(op, j) <==> p[j].Some?)
    ensures Operands(op, k, s, pos) == Some(p[k..])
    decreases 7 - k
  {
    if k < 7 {
      var rest := Present(p[k + 1..]);
      assert p[k..][1..] == p[k + 1..] && p[k..] == [p[k]] + p[k + 1..];
      if p[k].Some? {
        StandsConcat([p[k].value], rest, s, pos);
        assert s[pos] == [p[k].value][0];
        OperandsEncode(op, p, k + 1, s, pos + 1);
      } else {
        assert Present(p[k..]) == rest;
        OperandsEncode(op, p, k + 1, s, pos);
      }
    }
  }

  lemma {:induction false} OperandsDecode(op: nat, k: nat, s: Bytes, pos: nat)
    requires k <= 7 && pos <= |s| && Operands(op, k, s, pos).Some?
    ensures Stands(Present(Operands(op, k, s, pos).value), s, pos)
    ensures forall j :: k <= j < 7 ==> (Flag(op, j) <==> Operands(op, k, s, pos).value[j - k].Some?)
    decreases 7 - k
  {
    if k < 7 {
      var at := if Flag(op, k) then pos + 1 else pos;
      OperandsDecode(op, k + 1, s, at);
      var p, q := Operands(op, k, s, pos).value, Operands(op, k + 1, s, at).value;
      assert p[1..] == q;
      if Flag(op, k) { StandsConcat([s[pos]], Present(q), s, pos); } else { assert Present(p) == Present(q); }
      forall j | k <= j < 7 ensures Flag(op, j) <==> p[j - k].Some? { if j > k { assert p[j - k] == q[j - k - 1]; } }
    }
  }

  /** Seven flags determine the low seven bits. */
  lemma {:induction false} FlagsOf(op: nat, p: seq<Option<byte>>)
    requires op < Bit(|p|)
    requires forall j :: 0 <= j < |p| ==> (Flag(op, j) <==> p[j].Some?)
    ensures Flags(p) == op
  {
    if p != [] {
      assert Flag(op, 0) <==> p[0].Some?;
      forall j | 0 <= j < |p[1..]| ensures Flag(op / 2, j) <==> p[1..][j].Some? { assert Flag(op, j + 1) <==> p[j + 1].Some?; }
      FlagsOf(op / 2, p[1..]);
    }
  }

  lemma {:induction false} FlagShift(m: nat, n: nat, j: nat)
    requires j < n
    ensures Flag(m + Bit(n), j) <==> Flag(m, j)
  {
    assert Bit(n) == 2 * Bit(n - 1) && (m + Bit(n)) / 2 == m / 2 + Bit(n - 1);
    if j > 0 { FlagShift(m / 2, n - 1, j - 1); }
  }

  /** The top bit is none of the seven flags. */
  lemma FlagLow(m: nat, j: nat)
    requires j < 7
    ensures Flag(m + 0x80, j) <==> Flag(m, j)
  {
    assert Bit(7) == 0x80;
    FlagShift(m, 7, j);
  }

  lemma NextEncodes(x: Op, s: Bytes, pos: nat)
    requires ValidOp(x) && Stands(EncodeOp(x), s, pos)
    ensures pos < |s| && NextOp(s, pos) == Ok(x)
  {
    match x
    case Copy(p) =>
      assert Bit(7) == 0x80;
      StandsConcat([Flags(p) + 0x80], Present(p), s, pos);
      assert s[pos] == [Flags(p) + 0x80][0];
      forall j | 0 <= j < 7 ensures Flag(Flags(p) + 0x80, j) <==> p[j].Some? {
        FlagSays(p, j);
        FlagLow(Flags(p), j);
      }
      assert p[0..] == p;
      OperandsEncode(Flags(p) + 0x80, p, 0, s, pos + 1);
    case Insert(lit) =>
      StandsConcat([|lit|], lit, s, pos);
      assert s[pos] == [|lit|][0];
      assert s[pos + 1..pos + 1 + |lit|] == lit;
  }

  lemma CopyDecodes(s: Bytes, pos: nat)
    requires pos < |s| && s[pos] >= 0x80 && Operands(s[pos], 0, s, pos + 1).Some?
    ensures Stands(EncodeOp(Copy(Operands(s[pos], 0, s, pos + 1).value)), s, pos)
  {
    var p := Operands(s[pos], 0, s, pos + 1).value;
    OperandsDecode(s[pos], 0, s, pos + 1);
    assert Bit(7) == 0x80;
    var low := s[pos] - 0x80;
    forall j | 0 <= j < 7 ensures Flag(low, j) <==> p[j].Some? { FlagLow(low, j); }
    FlagsOf(low, p);
    StandsConcat([s[pos]], Present(p), s, pos);
  }

  lemma NextDecodes(s: Bytes, pos: nat)
    requires pos < |s| && NextOp(s, pos).Ok?
    ensures ValidOp(NextOp(s, pos).value) && Stands(EncodeOp(NextOp(s, pos).value), s, pos)
  {
    if s[pos] >= 0x80 {
      CopyDecodes(s, pos);
    } else {
      var lit := s[pos + 1..pos + 1 + s[pos]];
      StandsConcat([s[pos]], lit, s, pos);
    }
  }

  // ----- all instructions -----

  ghost predicate AllValid(xs: seq<Op>) {
    forall k :: 0 <= k < |xs| ==> ValidOp(xs[k])
  }

  /** `s` ends with the encoding of `xs`, from `pos` on. */
  ghost predicate Ends(xs: seq<Op>, s: Bytes, pos: nat) {
    Stands(EncodeOps(xs), s, pos) && pos + |EncodeOps(xs)| == |s|
  }

  lemma {:induction false} EncodeOpsAppend(xs: seq<Op>, x: Op)
    ensures EncodeOps(xs + [x]) == EncodeOps(xs) + EncodeOp(x)
  {
    var ys := xs + [x];
    if xs == [] {
      assert ys[1..] == [] && EncodeOp(x) + [] == EncodeOp(x);
    } else {
      assert ys[1..] == xs[1..] + [x] && ys[0] == xs[0];
      EncodeOpsAppend(xs[1..], x);
      Varint.Associate(EncodeOp(xs[0]), EncodeOps(xs[1..]), EncodeOp(x));
    }
  }

  lemma {:induction false} OutputAppend(base: Bytes, xs: seq<Op>, x: Op)
    requires AllInRange(base, xs) && InRange(base, x)
    ensures AllInRange(base, xs + [x]) && Output(base, xs + [x]) == Output(base, xs) + Emits(base, x)
  {
    var ys := xs + [x];
    if xs == [] {
      assert ys[1..] == [] && Emits(base, x) + [] == Emits(base, x);
    } else {
      assert ys[1..] == xs[1..] + [x] && ys[0] == xs[0];
      OutputAppend(base, xs[1..], x);
      Varint.Associate(Emits(base, xs[0]), Output(base, xs[1..]), Emits(base, x));
    }
  }

  /** The instructions `done` stand from `start` to `pos` and have emitted `out`. */
  ghost predicate Ran(base: Bytes, s: Bytes, start: nat, done: seq<Op>, pos: nat, out: Bytes) {
    && AllInRange(base, done) && out == Output(base, done)
    && Stands(EncodeOps(done), s, start) && pos == start + |EncodeOps(done)|
  }

  lemma RanOne(base: Bytes, s: Bytes, start: nat, done: seq<Op>, pos: nat, out: Bytes, x: Op)
    requires Ran(base, s, start, done, pos, out) && InRange(base, x) && Stands(EncodeOp(x), s, pos)
    ensures Ran(base, s, start, done + [x], pos + |EncodeOp(x)|, out + Emits(base, x))
  {
    EncodeOpsAppend(done, x);
    StandsConcat(EncodeOps(done), EncodeOp(x), s, start);
    OutputAppend(base, done, x);
  }

  /** Only one instruction stands at a position. */
  lemma OneOp(x: Op, y: Op, s: Bytes, pos: nat)
    requires ValidOp(x) && ValidOp(y) && Stands(EncodeOp(x), s, pos) && Stands(EncodeOp(y), s, pos)
    ensures x == y
  {
    NextEncodes(x, s, pos);
    NextEncodes(y, s, pos);
  }

  lemma OpsStep(xs: seq<Op>, s: Bytes, pos: nat, at: nat)
    requires xs != [] && Stands(EncodeOps(xs), s, pos) && at == pos + |EncodeOp(xs[0])|
    ensures Stands(EncodeOp(xs[0]), s, pos) && Stands(EncodeOps(xs[1..]), s, at)
    ensures at + |EncodeOps(xs[1..])| == pos + |EncodeOps(xs)|
  {
    StandsConcat(EncodeOp(xs[0]), EncodeOps(xs[1..]), s, pos);
  }

  lemma FirstOp(xs: seq<Op>, s: Bytes, pos: nat)
    requires xs != [] && Stands(EncodeOps(xs), s, pos)
    ensures Stands(EncodeOp(xs[0]), s, pos)
  {
    StandsConcat(EncodeOp(xs[0]), EncodeOps(xs[1..]), s, pos);
  }

  lemma AllValidTail(xs: seq<Op>)
    requires xs != [] && AllValid(xs)
    ensures ValidOp(xs[0]) && AllValid(xs[1..])
  {
  }

  lemma EndsNonempty(ys: seq<Op>, s: Bytes, pos: nat)
    requires Ends(ys, s, pos) && pos < |s|
    ensures ys != []
  {
  }

  /** Whatever instructions `s` holds from `start` on begin with those done, and go on with the one at `pos`. */
  lemma {:induction false} GoesOn(s: Bytes, start: nat, done: seq<Op>, pos: nat, ys: seq<Op>) returns (y: Op)
    requires AllValid(done) && Stands(EncodeOps(done), s, start) && pos == start + |EncodeOps(done)|
    requires AllValid(ys) && Ends(ys, s, start) && pos < |s|
    ensures y in ys && ValidOp(y) && Stands(EncodeOp(y), s, pos)
    decreases |done|
  {
    EndsNonempty(ys, s, start);
    AllValidTail(ys);
    FirstOp(ys, s, start);
    if done == [] {
      y := ys[0];
    } else {
      AllValidTail(done);
      FirstOp(done, s, start);
      OneOp(done[0], ys[0], s, start);
      var at := start + |EncodeOp(done[0])|;
      OpsStep(done, s, start, at);
      OpsStep(ys, s, start, at);
      y := GoesOn(s, at, done[1..], pos, ys[1..]);
    }
  }

  /** `s` holds from `start` on no instructions that can run on `base`. */
  ghost predicate CannotRun(base: Bytes, s: Bytes, start: nat) {
    forall ys :: AllInRange(base, ys) ==> !Ends(ys, s, start)
  }

  /** Why the instruction at `pos` cannot be carried out, if it cannot. */
  function Fault(base: Bytes, s: Bytes, pos: nat): Option<DeltaError>
    requires pos < |s|
  {
    var x := NextOp(s, pos);
    if x.Err? then Some(x.error) else if !InRange(base, x.value) then Some(CopyOutOfRange) else None
  }

  /** The instructions `done` run, and the one after them at `pos` cannot. */
  ghost predicate StopsAt(base: Bytes, s: Bytes, start: nat, done: seq<Op>, pos: nat, e: DeltaError) {
    && AllInRange(base, done) && Stands(EncodeOps(done), s, start) && pos == start + |EncodeOps(done)|
    && pos < |s| && Fault(base, s, pos) == Some(e)
  }

  ghost predicate Stops(base: Bytes, s: Bytes, start: nat, e: DeltaError) {
    exists done, pos: nat :: StopsAt(base, s, start, done, pos, e)
  }

  lemma StopsCannotRun(base: Bytes, s: Bytes, start: nat, e: DeltaError)
    requires Stops(base, s, start, e)
    ensures CannotRun(base, s, start)
  {
    var done, pos :| StopsAt(base, s, start, done, pos, e);
    forall ys | AllInRange(base, ys) ensures !Ends(ys, s, start) {
      if Ends(ys, s, start) {
        var y := GoesOn(s, start, done, pos, ys);
        NextEncodes(y, s, pos);
      }
    }
  }

  lemma RunsFirst(base: Bytes, xs: seq<Op>, s: Bytes, start: nat)
    requires xs != [] && AllInRange(base, xs) && Stands(EncodeOps(xs), s, start)
    ensures start < |s| && Fault(base, s, start) == None
  {
    FirstOp(xs, s, start);
    NextEncodes(xs[0], s, start);
  }

  /** Instructions stop for one reason only. */
  lemma {:induction false} StopsOnce(base: Bytes, s: Bytes, start: nat, xs: seq<Op>, pos: nat, e: DeltaError, ys: seq<Op>, at: nat, f: DeltaError)
    requires StopsAt(base, s, start, xs, pos, e) && StopsAt(base, s, start, ys, at, f)
    ensures e == f
    decreases |xs|
  {
    if xs != [] { RunsFirst(base, xs, s, start); }
    if ys != [] { RunsFirst(base, ys, s, start); }
    if xs != [] && ys != [] {
      FirstOp(xs, s, start);
      FirstOp(ys, s, start);
      OneOp(xs[0], ys[0], s, start);
      var next := start + |EncodeOp(xs[0])|;
      OpsStep(xs, s, start, next);
      OpsStep(ys, s, start, next);
      StopsOnce(base, s, next, xs[1..], pos, e, ys[1..], at, f);
    }
  }

  /** How many operands the flags of `op` announce, from bit k on. */
  function FlagCount(op: nat, k: nat): nat
    decreases 7 - k
  {
    if k >= 7 then 0 else (if Flag(op, k) then 1 else 0) + FlagCount(op, k + 1)
  }

  lemma {:induction false} OperandsRunOut(op: nat, k: nat, s: Bytes, pos: nat)
    requires k <= 7 && pos <= |s|
    ensures Operands(op, k, s, pos).None? <==> |s| - pos < FlagCount(op, k)
    decreases 7 - k
  {
    if k < 7 {
      if !Flag(op, k) { OperandsRunOut(op, k + 1, s, pos); }
      else if pos < |s| { OperandsRunOut(op, k + 1, s, pos + 1); }
    }
  }

  /** The copy at `pos` is cut short: fewer bytes follow than it announces operands. */
  predicate CutCopy(s: Bytes, pos: nat) {
    pos < |s| && s[pos] >= 0x80 && |s| - pos - 1 < FlagCount(s[pos], 0)
  }

  /** Instructions in range, and then a copy cut short. */
  ghost predicate CutShort(base: Bytes, s: Bytes, start: nat) {
    exists done :: AllInRange(base, done) && Stands(EncodeOps(done), s, start) && CutCopy(s, start + |EncodeOps(done)|)
  }

  lemma CutShortStops(base: Bytes, s: Bytes, start: nat)
    ensures CutShort(base, s, start) <==> Stops(base, s, start, Panics)
  {
    forall pos: nat | pos < |s| ensures CutCopy(s, pos) <==> Fault(base, s, pos) == Some(Panics) {
      OperandsRunOut(s[pos], 0, s, pos + 1);
    }
    if CutShort(base, s, start) {
      var done :| AllInRange(base, done) && Stands(EncodeOps(done), s, start) && CutCopy(s, start + |EncodeOps(done)|);
      assert StopsAt(base, s, start, done, start + |EncodeOps(done)|, Panics);
    }
  }

  // ----- the loops -----

  lemma PrependStep(p: seq<Option<byte>>, x: Option<byte>, rest: Option<seq<Option<byte>>>)
    ensures Prepend(p, Prepend([x], rest)) == Prepend(p + [x], rest)
  {
    if rest.Some? { assert p + ([x] + rest.value) == p + [x] + rest.value; }
  }

  lemma PrependNothing(rest: Option<seq<Option<byte>>>)
    ensures Prepend([], rest) == rest
  {
    if rest.Some? { assert [] + rest.value == rest.value; }
  }

  lemma {:induction false} ShlZero(n: nat)
    ensures Shl(0, n) == 0
  {
    if n > 0 { ShlZero(n - 1); }
  }

  lemma {:induction false} NumberAppend(p: seq<Option<byte>>, x: Option<byte>)
    ensures Number(p + [x]) == Number(p) + Shl(Value(x), |p|)
  {
    var q := p + [x];
    if p == [] {
      assert q[1..] == [];
    } else {
      assert q[1..] == p[1..] + [x] && q[0] == p[0];
      NumberAppend(p[1..], x);
    }
  }

  lemma {:induction false} PresentConcat(p: seq<Option<byte>>, q: seq<Option<byte>>)
    ensures |Present(p + q)| == |Present(p)| + |Present(q)|
  {
    if p == [] {
      assert p + q == q;
    } else {
      assert (p + q)[1..] == p[1..] + q;
      PresentConcat(p[1..], q);
    }
  }

  lemma PresentAppend(p: seq<Option<byte>>, x: Option<byte>)
    ensures |Present(p + [x])| == |Present(p)| + if x.Some? then 1 else 0
  {
    PresentConcat(p, [x]);
    assert [x][1..] == [];
  }

  /** The operands from bit `first` on, of which `p` are read, the rest starting at `pos`. */
  ghost predicate Reading(op: nat, first: nat, s: Bytes, start: nat, p: seq<Option<byte>>, pos: nat) {
    && start <= pos <= |s| && first + |p| <= 7 && pos == start + |Present(p)|
    && Operands(op, first, s, start) == Prepend(p, Operands(op, first + |p|, s, pos))
  }

  lemma OperandPresent(op: nat, k: nat, s: Bytes, pos: nat)
    requires k < 7 && pos <= |s| && Flag(op, k)
    ensures pos == |s| ==> Operands(op, k, s, pos).None?
    ensures pos < |s| ==> Operands(op, k, s, pos) == Prepend([Some(s[pos])], Operands(op, k + 1, s, pos + 1))
  {
  }

  lemma ReadPresent(op: nat, first: nat, s: Bytes, start: nat, p: seq<Option<byte>>, pos: nat)
    requires Reading(op, first, s, start, p, pos) && first + |p| < 7 && Flag(op, first + |p|)
    ensures pos == |s| ==> Operands(op, first, s, start).None?
    ensures pos < |s| ==> Reading(op, first, s, start, p + [Some(s[pos])], pos + 1)
  {
    OperandPresent(op, first + |p|, s, pos);
    if pos < |s| {
      PresentAppend(p, Some(s[pos]));
      PrependStep(p, Some(s[pos]), Operands(op, first + |p| + 1, s, pos + 1));
    }
  }

  lemma ReadAbsent(op: nat, first: nat, s: Bytes, start: nat, p: seq<Option<byte>>, pos: nat)
    requires Reading(op, first, s, start, p, pos) && first + |p| < 7 && !Flag(op, first + |p|)
    ensures Reading(op, first, s, start, p + [None], pos)
  {
    PrependStep(p, None, Operands(op, first + |p| + 1, s, pos));
    PresentAppend(p, None);
  }

  /** `count` operands of one copy from bit `first` on: their number and where the next byte is. */
  method ReadOperands(delta: Bytes, start: nat, op: byte, first: nat, count: nat)
    returns (ok: bool, v: nat, pos: nat, ghost p: seq<Option<byte>>)
    requires start <= |delta| && first + count <= 7
    ensures !ok ==> Operands(op, first, delta, start).None?
    ensures ok ==> |p| == count && v == Number(p) && Reading(op, first, delta, start, p, pos)
  {
    pos, v, p := start, 0, [];
    PrependNothing(Operands(op, first, delta, start));
    for b := 0 to count
      invariant |p| == b && v == Number(p) && Reading(op, first, delta, start, p, pos)
    {
      if Flag(op, first + b) {
        ReadPresent(op, first, delta, start, p, pos);
        if pos >= |delta| { return false, v, pos, p; }
        NumberAppend(p, Some(delta[pos]));
        v := v + Shl(delta[pos], b);
        p := p + [Some(delta[pos])];
        pos := pos + 1;
      } else {
        ReadAbsent(op, first, delta, start, p, pos);
        NumberAppend(p, None);
        ShlZero(b);
        p := p + [None];
      }
    }
    return true, v, pos, p;
  }

  /** Both operands of the copy at `pos`. */
  method ReadCopy(delta: Bytes, pos: nat) returns (ok: bool, off: nat, size: nat, end: nat, ghost p: seq<Option<byte>>)
    requires pos < |delta| && delta[pos] >= 0x80
    ensures !ok ==> NextOp(delta, pos) == Err(Panics)
    ensures ok ==> |p| == 7 && NextOp(delta, pos) == Ok(Copy(p)) && off == Offset(p) && size == Size(p)
    ensures ok ==> Stands(EncodeOp(Copy(p)), delta, pos) && end == pos + |EncodeOp(Copy(p))|
  {
    ghost var p0, p1;
    var op := delta[pos];
    ok, off, end, p0 := ReadOperands(delta, pos + 1, op, 0, 4);
    p, size := [], 0;
    if !ok { return; }
    ok, size, end, p1 := ReadOperands(delta, end, op, 4, 3);
    if !ok { return; }
    p := p0 + p1;
    PresentConcat(p0, p1);
    assert p[..4] == p0 && p[4..] == p1 && p1 + [] == p1;
    CopyDecodes(delta, pos);
    if size == 0 { size := 0x10000; }
  }

  /** One copy instruction. */
  method RunCopy(base: Bytes, delta: Bytes, start: nat, ghost done: seq<Op>, pos: nat, out: Bytes)
    returns (error: Option<DeltaError>, next: nat, more: Bytes, ghost x: Op)
    requires pos < |delta| && delta[pos] >= 0x80 && Ran(base, delta, start, done, pos, out)
    ensures error.None? ==> pos < next <= |delta| && Ran(base, delta, start, done + [x], next, more)
    ensures error.Some? ==> StopsAt(base, delta, start, done, pos, error.value)
  {
    next, more, x := pos, out, Insert([]);
    var ok, off, size, end, p := ReadCopy(delta, pos);
    if !ok {
      error := Some(Panics);
      return;
    }
    x := Copy(p);
    if off + size > |base| {
      error := Some(CopyOutOfRange);
      return;
    }
    RanOne(base, delta, start, done, pos, out, x);
    return None, end, out + base[off..off + size], x;
  }

  /** One insert instruction. */
  method RunInsert(base: Bytes, delta: Bytes, start: nat, ghost done: seq<Op>, pos: nat, out: Bytes)
    returns (error: Option<DeltaError>, next: nat, more: Bytes, ghost x: Op)
    requires pos < |delta| && 0 < delta[pos] < 0x80 && Ran(base, delta, start, done, pos, out)
    ensures error.None? ==> pos < next <= |delta| && Ran(base, delta, start, done + [x], next, more)
    ensures error.Some? ==> StopsAt(base, delta, start, done, pos, error.value)
  {
    var op := delta[pos];
    next, more, x := pos, out, Insert([]);
    if pos + 1 + op > |delta| {
      error := Some(InsertOutOfRange);
      return;
    }
    x := Insert(delta[pos + 1..pos + 1 + op]);
    NextDecodes(delta, pos);
    RanOne(base, delta, start, done, pos, out, x);
    return None, pos + 1 + op, out + delta[pos + 1..pos + 1 + op], x;
  }

  /** The instructions, run: those of a byte string are found, or the one it stops at and why. */
  method RunInstructions(base: Bytes, delta: Bytes, start: nat) returns (r: Result<Bytes, DeltaError>, ghost done: seq<Op>)
    requires start <= |delta|
    ensures r.Ok? ==> AllInRange(base, done) && Ends(done, delta, start) && r.value == Output(base, done)
    ensures r.Err? ==> Stops(base, delta, start, r.error)
  {
    var pos := start;
    var out: Bytes := [];
    done := [];
    while pos < |delta|
      invariant pos <= |delta| && Ran(base, delta, start, done, pos, out)
      decreases |delta| - pos
    {
      var op := delta[pos];
      var error: Option<DeltaError>;
      ghost var x, at := Insert([]), pos;
      if op >= 0x80 {
        error, pos, out, x := RunCopy(base, delta, start, done, pos, out);
      } else if op != 0 {
        error, pos, out, x := RunInsert(base, delta, start, done, pos, out);
      } else {
        assert StopsAt(base, delta, start, done, pos, Reserved);
        return Err(Reserved), done;
      }
      if error.Some? {
        assert StopsAt(base, delta, start, done, at, error.value);
        return Err(error.value), done;
      }
      done := done + [x];
    }
    return Ok(out), done;
  }

  // ----- applyDelta -----

  /** The parts of a delta: two complete sizes and its instructions. */
  datatype Parts = Parts(baseSize: Bytes, resultSize: Bytes, ops: seq<Op>)

  ghost predicate IsDelta(d: Parts) {
    Complete(d.baseSize) && Complete(d.resultSize) && AllValid(d.ops)
  }

  function Encoded(d: Parts): Bytes {
    d.baseSize + (d.resultSize + EncodeOps(d.ops))
  }

  /** A delta meant for `base`: its sizes are right and its copies in range. */
  ghost predicate Fits(d: Parts, base: Bytes) {
    IsDelta(d) && AllInRange(base, d.ops) && SizeOf(d.baseSize) == |base| && SizeOf(d.resultSize) == |Output(base, d.ops)|
  }

  lemma Peel(x: Bytes, y: Bytes, s: Bytes)
    requires s == x + y
    ensures x <= s && s[|x|..] == y
  {
  }

  lemma {:induction false} OpsInjective(xs: seq<Op>, ys: seq<Op>)
    requires AllValid(xs) && AllValid(ys) && EncodeOps(xs) == EncodeOps(ys)
    ensures xs == ys
  {
    if xs != [] && ys != [] {
      Peel(EncodeOp(xs[0]), EncodeOps(xs[1..]), EncodeOps(xs));
      Peel(EncodeOp(ys[0]), EncodeOps(ys[1..]), EncodeOps(ys));
      OneOp(xs[0], ys[0], EncodeOps(xs), 0);
      OpsInjective(xs[1..], ys[1..]);
      assert xs == [xs[0]] + xs[1..] && ys == [ys[0]] + ys[1..];
    }
  }

  /** A byte string is at most one delta. */
  lemma DeltaInjective(d: Parts, e: Parts)
    requires IsDelta(d) && IsDelta(e) && Encoded(d) == Encoded(e)
    ensures d == e
  {
    var s := Encoded(d);
    Peel(d.baseSize, d.resultSize + EncodeOps(d.ops), s);
    Peel(e.baseSize, e.resultSize + EncodeOps(e.ops), s);
    CompleteUnique(d.baseSize, e.baseSize, s);
    var t := s[|d.baseSize|..];
    Peel(d.resultSize, EncodeOps(d.ops), t);
    Peel(e.resultSize, EncodeOps(e.ops), t);
    CompleteUnique(d.resultSize, e.resultSize, t);
    OpsInjective(d.ops, e.ops);
  }

  /** What a byte string read as a delta makes of `base`; None when it is no delta for it. */
  ghost function Patched(base: Bytes, delta: Bytes): Option<Bytes> {
    if d :| Fits(d, base) && Encoded(d) == delta then Some(Output(base, d.ops)) else None
  }

  /** Encoding instructions and applying them is running them; any success has the declared length. */
  lemma PatchedOfEncoded(d: Parts, base: Bytes)
    requires IsDelta(d)
    ensures Fits(d, base) ==> Patched(base, Encoded(d)) == Some(Output(base, d.ops))
    ensures Patched(base, Encoded(d)).Some? <==> Fits(d, base)
    ensures Patched(base, Encoded(d)).Some? ==> |Patched(base, Encoded(d)).value| == SizeOf(d.resultSize)
  {
    forall e | Fits(e, base) && Encoded(e) == Encoded(d) ensures e == d { DeltaInjective(e, d); }
  }

  lemma SplitAt(s: Bytes, i: nat, j: nat)
    requires i <= j <= |s|
    ensures s[i..] == s[i..j] + s[j..]
  {
  }

  /** The first size read is the delta's. */
  lemma FirstSize(delta: Bytes, n: nat, d: Parts)
    requires n <= |delta| && Complete(delta[..n]) && IsDelta(d) && Encoded(d) == delta
    ensures d.baseSize == delta[..n] && delta[n..] == d.resultSize + EncodeOps(d.ops)
  {
    Peel(d.baseSize, d.resultSize + EncodeOps(d.ops), delta);
    CompleteUnique(d.baseSize, delta[..n], delta);
  }

  lemma BothSizes(delta: Bytes, n: nat, m: nat, d: Parts)
    requires n <= m <= |delta| && Complete(delta[..n]) && Complete(delta[n..m]) && IsDelta(d) && Encoded(d) == delta
    ensures d.baseSize == delta[..n] && d.resultSize == delta[n..m] && Ends(d.ops, delta, m)
  {
    FirstSize(delta, n, d);
    var t := delta[n..];
    Peel(d.resultSize, EncodeOps(d.ops), t);
    SplitAt(delta, n, m);
    Peel(delta[n..m], delta[m..], t);
    CompleteUnique(d.resultSize, delta[n..m], t);
  }

  lemma NoSize(s: Bytes, x: Bytes)
    requires Varint.Continued(s, |s|) && Complete(x)
    ensures !(x <= s)
  {
  }

  /** Once both sizes are read, the instructions decide. */
  lemma DeltaFits(base: Bytes, delta: Bytes, n: nat, m: nat, xs: seq<Op>)
    requires n <= m <= |delta| && Complete(delta[..n]) && Complete(delta[n..m]) && SizeOf(delta[..n]) == |base|
    requires AllInRange(base, xs) && Ends(xs, delta, m)
    ensures Patched(base, delta) == if |Output(base, xs)| == SizeOf(delta[n..m]) then Some(Output(base, xs)) else None
  {
    var d := Parts(delta[..n], delta[n..m], xs);
    SplitAt(delta, 0, n);
    SplitAt(delta, n, m);
    assert Encoded(d) == delta && IsDelta(d);
    PatchedOfEncoded(d, base);
  }

  lemma DeltaFails(base: Bytes, delta: Bytes, n: nat, m: nat)
    requires n <= m <= |delta| && Complete(delta[..n]) && Complete(delta[n..m])
    requires CannotRun(base, delta, m) || SizeOf(delta[n..m]) < 0
    ensures Patched(base, delta) == None
  {
    forall d | Fits(d, base) ensures Encoded(d) != delta { if Encoded(d) == delta { BothSizes(delta, n, m, d); } }
  }

  /** The two sizes end at n and m, the first is the base's, and what follows is read past its end or sized below zero. */
  ghost predicate OverrunsAt(base: Bytes, delta: Bytes, n: nat, m: nat) {
    && n <= m <= |delta| && Complete(delta[..n]) && Complete(delta[n..m]) && SizeOf(delta[..n]) == |base|
    && (SizeOf(delta[n..m]) < 0 || CutShort(base, delta, m))
  }

  /** Where the source panics: a buffer of negative capacity, or an operand past the end of the delta. */
  ghost predicate Overruns(base: Bytes, delta: Bytes) {
    exists n: nat, m: nat :: OverrunsAt(base, delta, n, m)
  }

  /** Only one pair of sizes starts a string. */
  lemma SizesUnique(delta: Bytes, n: nat, m: nat, n': nat, m': nat)
    requires n <= m <= |delta| && Complete(delta[..n]) && Complete(delta[n..m])
    requires n' <= m' <= |delta| && Complete(delta[..n']) && Complete(delta[n'..m'])
    ensures n == n' && m == m'
  {
    CompleteUnique(delta[..n], delta[..n'], delta);
    assert |delta[..n]| == n && |delta[..n']| == n';
    var t := delta[n..];
    SplitAt(delta, n, m);
    SplitAt(delta, n, m');
    CompleteUnique(delta[n..m], delta[n..m'], t);
    assert |delta[n..m]| == m - n && |delta[n..m']| == m' - n;
  }

  /** Once both sizes are read, the source panics exactly if one of them is negative or the instructions are cut short. */
  lemma OverrunsAfterSizes(base: Bytes, delta: Bytes, n: nat, m: nat)
    requires n <= m <= |delta| && Complete(delta[..n]) && Complete(delta[n..m]) && SizeOf(delta[..n]) == |base|
    ensures Overruns(base, delta) <==> SizeOf(delta[n..m]) < 0 || CutShort(base, delta, m)
  {
    forall n': nat, m': nat | OverrunsAt(base, delta, n', m') ensures n' == n && m' == m { SizesUnique(delta, n, m, n', m'); }
    if SizeOf(delta[n..m]) < 0 || CutShort(base, delta, m) { assert OverrunsAt(base, delta, n, m); }
  }

  lemma EndIsNoStop(base: Bytes, delta: Bytes, m: nat, xs: seq<Op>)
    requires AllInRange(base, xs) && Ends(xs, delta, m)
    ensures !CutShort(base, delta, m)
  {
    CutShortStops(base, delta, m);
    if Stops(base, delta, m, Panics) { StopsCannotRun(base, delta, m, Panics); }
  }

  lemma StopIsOverrun(base: Bytes, delta: Bytes, m: nat, e: DeltaError)
    requires Stops(base, delta, m, e)
    ensures CutShort(base, delta, m) <==> e == Panics
  {
    CutShortStops(base, delta, m);
    if Stops(base, delta, m, Panics) {
      var xs, pos :| StopsAt(base, delta, m, xs, pos, e);
      var ys, at :| StopsAt(base, delta, m, ys, at, Panics);
      StopsOnce(base, delta, m, xs, pos, e, ys, at, Panics);
    }
  }

  lemma NoSizes(base: Bytes, delta: Bytes)
    requires forall d :: Fits(d, base) ==> Encoded(d) != delta
    requires forall n: nat, m: nat :: !OverrunsAt(base, delta, n, m)
    ensures Patched(base, delta) == None && !Overruns(base, delta)
  {
  }

  /**
    applyDelta succeeds exactly on the deltas that fit the base, with what their
    instructions emit, and panics exactly where it reads past the end or the result is sized below zero.
   */
  method ApplyDelta(base: Bytes, delta: Bytes) returns (r: Result<Bytes, DeltaError>)
    ensures r.Ok? ==> Patched(base, delta) == Some(r.value)
    ensures r.Err? ==> Patched(base, delta) == None
    ensures r == Err(Panics) <==> Overruns(base, delta)
  {
    var first := ReadSize(delta, 0);
    assert delta[0..] == delta;
    if first.None? {
      forall d | IsDelta(d) ensures Encoded(d) != delta { NoSize(delta, d.baseSize); }
      forall n: nat, m: nat ensures !OverrunsAt(base, delta, n, m) { if OverrunsAt(base, delta, n, m) { NoSize(delta, delta[..n]); } }
      NoSizes(base, delta);
      return Err(BaseMismatch);
    }
    var (baseSize, n) := first.value;
    assert delta[0..n] == delta[..n];
    if baseSize != |base| {
      forall d | Fits(d, base) ensures Encoded(d) != delta { if Encoded(d) == delta { FirstSize(delta, n, d); } }
      forall n': nat, m': nat ensures !OverrunsAt(base, delta, n', m') {
        if OverrunsAt(base, delta, n', m') { CompleteUnique(delta[..n], delta[..n'], delta); }
      }
      NoSizes(base, delta);
      return Err(BaseMismatch);
    }
    var second := ReadSize(delta, n);
    if second.None? {
      NoSecondSize(base, delta, n);
      return Err(TruncatedSize);
    }
    var (resultSize, m) := second.value;
    OverrunsAfterSizes(base, delta, n, m);
    if resultSize < 0 {
      DeltaFails(base, delta, n, m);
      return Err(Panics);
    }
    var ran, ops := RunInstructions(base, delta, m);
    if ran.Err? {
      StopsCannotRun(base, delta, m, ran.error);
      StopIsOverrun(base, delta, m, ran.error);
      DeltaFails(base, delta, n, m);
      return ran;
    }
    EndIsNoStop(base, delta, m, ops);
    DeltaFits(base, delta, n, m, ops);
    if |ran.value| != resultSize { return Err(ResultMismatch); }
    return ran;
  }

  lemma NoSecondSize(base: Bytes, delta: Bytes, n: nat)
    requires n <= |delta| && Complete(delta[..n]) && Varint.Continued(delta[n..], |delta| - n)
    ensures Patched(base, delta) == None && !Overruns(base, delta)
  {
    forall d | IsDelta(d) ensures Encoded(d) != delta {
      if Encoded(d) == delta {
        FirstSize(delta, n, d);
        NoSize(delta[n..], d.resultSize);
      }
    }
    forall n': nat, m': nat ensures !OverrunsAt(base, delta, n', m') {
      if OverrunsAt(base, delta, n', m') {
        CompleteUnique(delta[..n], delta[..n'], delta);
        assert |delta[..n]| == n && |delta[..n']| == n';
        SplitAt(delta, n, m');
        NoSize(delta[n..], delta[n..m']);
      }
    }
  }

  // ----- inputs that panic -----

  lemma {:induction false} ZeroGroups(b: Bytes, n: nat)
    requires n <= |b| && forall k :: 0 <= k < n ==> b[k] == 0x80
    ensures Varint.Partial(b, n) == 0
  {
    if n > 0 {
      ZeroGroups(b, n - 1);
      ZeroShift(n - 1);
    }
  }

  lemma {:induction false} ZeroShift(k: nat)
    ensures Varint.Shift(0, k) == 0
  {
    if k > 0 { ZeroShift(k - 1); }
  }

  lemma OneByteSize(b: byte)
    requires b < 0x80
    ensures Complete([b]) && SizeOf([b]) == b
  {
    assert Varint.Partial([b], 1) == Varint.Partial([b], 0) + Varint.Shift(b % 0x80, 0);
  }

  /** A well-formed delta for the empty base whose declared result size is -2^63. */
  lemma NegativeSizePanics()
    ensures var d := Parts([0], [0x80, 0x80, 0x80, 0x80, 0x80, 0x80, 0x80, 0x80, 0x80, 1], []);
            IsDelta(d) && Overruns([], Encoded(d))
  {
    var x: Bytes, y: Bytes := [0], [0x80, 0x80, 0x80, 0x80, 0x80, 0x80, 0x80, 0x80, 0x80, 1];
    var delta := Encoded(Parts(x, y, []));
    assert delta == x + y && delta[..1] == x && delta[1..11] == y;
    OneByteSize(0);
    ZeroGroups(y, 9);
    assert Varint.Shift(1, 9) == I63;
    assert Varint.Partial(y, 10) == I63 && SizeOf(y) < 0;
    assert OverrunsAt([], delta, 1, 11);
  }

  /** A copy that announces one operand byte and ends there. */
  lemma MissingOperandPanics(base: Bytes)
    requires |base| < 0x80
    ensures Overruns(base, [|base|, 0, 0x81])
  {
    var delta: Bytes := [|base|, 0, 0x81];
    assert delta[..1] == [|base|] && delta[1..2] == [0];
    OneByteSize(|base|);
    OneByteSize(0);
    assert Stands(EncodeOps([]), delta, 2) && AllInRange(base, []);
    assert Flag(0x81, 0);
    assert CutCopy(delta, 2 + |EncodeOps([])|);
    assert OverrunsAt(base, delta, 1, 2);
  }
}
