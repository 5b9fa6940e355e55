/**
  varvig/internal/gitobj/gitobj.go: the text of Git commits, as far as Varvig reads it. The
  body written for a native change decodes to what it was written from.
 */
module CommitText {
  import opened Basics
  import opened GitObjects
  import opened Orders

  const LF: byte := 10

  // ----- hex -----

  function HexDigit(v: nat): byte
    requires v < 16
  {
    if v < 10 then 48 + v else 87 + v
  }

  /** OID.Hex. */
  function Hex(o: Bytes): Bytes {
    if o == [] then [] else [HexDigit(o[0] / 16), HexDigit(o[0] % 16)] + Hex(o[1..])
  }

  /** Both cases are read. */
  function HexValue(c: byte): (r: Option<nat>)
    ensures r.Some? ==> r.value < 16
  {
    if 48 <= c <= 57 then Some(c - 48)
    else if 97 <= c <= 102 then Some(c - 87)
    else if 65 <= c <= 70 then Some(c - 55)
    else None
  }

  function Unhex(s: Bytes): Option<Bytes> {
    if s == [] then Some([])
    else if |s| == 1 || HexValue(s[0]).None? || HexValue(s[1]).None? || Unhex(s[2..]).None? then None
    else Some([HexValue(s[0]).value * 16 + HexValue(s[1]).value] + Unhex(s[2..]).value)
  }

  function ParseOid(s: Bytes): Option<Oid> {
    var b := Unhex(s);
    if b.None? || |b.value| != 20 then None else b
  }

  lemma {:induction false} HexRoundTrip(o: Bytes)
    ensures Unhex(Hex(o)) == Some(o) && LF !in Hex(o)
  {
    if o != [] {
      HexRoundTrip(o[1..]);
      var s := Hex(o);
      assert s[2..] == Hex(o[1..]);
      assert HexValue(s[0]) == Some(o[0] / 16) && HexValue(s[1]) == Some(o[0] % 16);
      assert o == [o[0]] + o[1..];
    }
  }

  // ----- DecodeCommit -----

  /** What the header says; `author` is the whole identity line. */
  datatype Header = Header(tree: Oid, parents: seq<Oid>, author: Bytes)

  datatype Commit = Commit(header: Header, message: Bytes)

  const NO_OID: Oid := [0, 0, 0, 0, 0, 0, 0, 0, 0, 0, 0, 0, 0, 0, 0, 0, 0, 0, 0, 0]

  function Tree(): Bytes { Ascii("tree ") }
  function Parent(): Bytes { Ascii("parent ") }
  function Author(): Bytes { Ascii("author ") }
  function Committer(): Bytes { Ascii("committer ") }

  /** bytes.Index(body, "\n\n") from i on. */
  function BlankLine(body: Bytes, i: nat): (r: Option<nat>)
    requires i <= |body|
    ensures r.Some? ==> i <= r.value && r.value + 2 <= |body| && body[r.value] == LF && body[r.value + 1] == LF
    ensures r.Some? ==> forall k :: i <= k < r.value ==> !(body[k] == LF && body[k + 1] == LF)
    ensures r.None? ==> forall k :: i <= k < |body| - 1 ==> !(body[k] == LF && body[k + 1] == LF)
    decreases |body| - i
  {
    if i + 2 > |body| then None else if body[i] == LF && body[i + 1] == LF then Some(i) else BlankLine(body, i + 1)
  }

  /** bytes.Split(s, "\n"). */
  function SplitLines(s: Bytes): (ls: seq<Bytes>)
    ensures ls != []
  {
    if s == [] then [[]]
    else
      var rest := SplitLines(s[1..]);
      if s[0] == LF then [[]] + rest else [[s[0]] + rest[0]] + rest[1..]
  }

  /** One header line. */
  function ReadLine(h: Header, line: Bytes): Option<Header> {
    if Tree() <= line then
      var o := ParseOid(line[5..]);
      if o.None? then None else Some(h.(tree := o.value))
    else if Parent() <= line then
      var o := ParseOid(line[7..]);
      if o.None? then None else Some(h.(parents := h.parents + [o.value]))
    else if Author() <= line then Some(h.(author := line[7..]))
    else Some(h)
  }

  function ReadLines(h: Header, lines: seq<Bytes>): Option<Header> {
    if lines == [] then Some(h)
    else
      var before := ReadLines(h, lines[..|lines| - 1]);
      if before.None? then None else ReadLine(before.value, lines[|lines| - 1])
  }

  const EMPTY: Header := Header(NO_OID, [], [])

  /** What a commit body says; None is an error. */
  function Decoded(body: Bytes): Option<Commit> {
    var sep := BlankLine(body, 0);
    if sep.None? then None
    else
      var h := ReadLines(EMPTY, SplitLines(body[..sep.value]));
      if h.None? then None else Some(Commit(h.value, body[sep.value + 2..]))
  }

  lemma {:induction false} ReadLinesStops(h: Header, lines: seq<Bytes>, k: nat)
    requires k <= |lines| && ReadLines(h, lines[..k]).None?
    ensures ReadLines(h, lines).None?
    decreases |lines|
  {
    if k < |lines| {
      assert lines[..|lines| - 1][..k] == lines[..k];
      ReadLinesStops(h, lines[..|lines| - 1], k);
    } else {
      assert lines[..k] == lines;
    }
  }

  /** The loop over the header lines. */
  method ReadHeader(lines: seq<Bytes>) returns (r: Option<Header>)
    ensures r == ReadLines(EMPTY, lines)
  {
    var h := EMPTY;
    for k := 0 to |lines|
      invariant ReadLines(EMPTY, lines[..k]) == Some(h)
    {
      var line := lines[k];
      assert lines[..k + 1][..k] == lines[..k];
      assert ReadLines(EMPTY, lines[..k + 1]) == ReadLine(h, line);
      if ReadLine(h, line).None? { ReadLinesStops(EMPTY, lines, k + 1); }
      if Tree() <= line {
        var o := ParseOid(line[5..]);
        if o.None? { return None; }
        h := h.(tree := o.value);
      } else if Parent() <= line {
        var o := ParseOid(line[7..]);
        if o.None? { return None; }
        h := h.(parents := h.parents + [o.value]);
      } else if Author() <= line {
        h := h.(author := line[7..]);
      }
    }
    assert lines[..|lines|] == lines;
    return Some(h);
  }

  method DecodeCommit(body: Bytes) returns (r: Option<Commit>)
    ensures r == Decoded(body)
  {
    var sep := BlankLine(body, 0);
    if sep.None? { return None; }
    var h := ReadHeader(SplitLines(body[..sep.value]));
    if h.None? { return None; }
    return Some(Commit(h.value, body[sep.value + 2..]));
  }

  // ----- EncodeCommit -----

  function JoinLines(ls: seq<Bytes>): Bytes
    requires ls != []
  {
    if |ls| == 1 then ls[0] else ls[0] + [LF] + JoinLines(ls[1..])
  }

  function ParentLines(parents: seq<Oid>): (r: seq<Bytes>)
    ensures |r| == |parents| && forall k :: 0 <= k < |r| ==> r[k] == Parent() + Hex(parents[k])
  {
    if parents == [] then []
    else
      var n := |parents| - 1;
      ParentLines(parents[..n]) + [Parent() + Hex(parents[n])]
  }

  /** The header lines of a synthesized commit; `sig` is the identity with its time and zone. */
  function HeaderLines(tree: Oid, parents: seq<Oid>, sig: Bytes): seq<Bytes> {
    [Tree() + Hex(tree)] + ParentLines(parents) + [Author() + sig, Committer() + sig]
  }

  /** EncodeCommit. */
  function Encoded(tree: Oid, parents: seq<Oid>, sig: Bytes, message: Bytes): Bytes {
    JoinLines(HeaderLines(tree, parents, sig)) + [LF, LF] + message
  }

  method EncodeCommit(tree: Oid, parents: seq<Oid>, sig: Bytes, message: Bytes) returns (body: Bytes)
    ensures body == Encoded(tree, parents, sig, message)
  {
    var lines := HeaderLines(tree, parents, sig);
    body := Tree() + Hex(tree);
    assert lines[0] == body && lines[..1] == [body];
    for k := 0 to |parents|
      invariant body == JoinLines(lines[..k + 1])
    {
      assert lines[k + 1] == ParentLines(parents)[k];
      assert lines[..k + 2] == lines[..k + 1] + [lines[k + 1]];
      JoinAppend(lines[..k + 1], lines[k + 1]);
      body := body + [LF] + (Parent() + Hex(parents[k]));
    }
    var n := |parents|;
    assert lines[..n + 2] == lines[..n + 1] + [lines[n + 1]] && lines[..n + 3] == lines[..n + 2] + [lines[n + 2]] && lines[..n + 3] == lines;
    JoinAppend(lines[..n + 1], lines[n + 1]);
    JoinAppend(lines[..n + 2], lines[n + 2]);
    body := body + [LF] + (Author() + sig);
    body := body + [LF] + (Committer() + sig);
    body := body + [LF, LF] + message;
  }

  lemma {:induction false} JoinAppend(ls: seq<Bytes>, l: Bytes)
    requires ls != []
    ensures JoinLines(ls + [l]) == JoinLines(ls) + [LF] + l
  {
    assert (ls + [l])[1..] == ls[1..] + [l];
    if |ls| > 1 {
      JoinAppend(ls[1..], l);
      assert ls[0] + [LF] + (JoinLines(ls[1..]) + [LF] + l) == ls[0] + [LF] + JoinLines(ls[1..]) + [LF] + l;
    } else {
      assert (ls + [l])[1] == l;
    }
  }

  // ----- back again -----

  /** Lines without line feeds, none empty. */
  ghost predicate RealLines(ls: seq<Bytes>) {
    forall k :: 0 <= k < |ls| ==> ls[k] != [] && LF !in ls[k]
  }

  lemma {:induction false} SplitAfterLine(l: Bytes, s: Bytes)
    requires LF !in l
    ensures SplitLines(l + [LF] + s) == [l] + SplitLines(s)
  {
    var x := l + [LF] + s;
    if l == [] {
      assert x[1..] == s;
    } else {
      assert x[1..] == l[1..] + [LF] + s && x[0] == l[0];
      assert l[0] in l;
      SplitAfterLine(l[1..], s);
      assert SplitLines(x[1..])[0] == l[1..] && SplitLines(x[1..])[1..] == SplitLines(s);
      assert [l[0]] + l[1..] == l;
    }
  }

  lemma {:induction false} SplitOneLine(l: Bytes)
    requires LF !in l
    ensures SplitLines(l) == [l]
  {
    if l != [] {
      assert l[0] in l;
      SplitOneLine(l[1..]);
      assert [l[0]] + l[1..] == l;
    }
  }

  /** Joined lines split into themselves. */
  lemma {:induction false} SplitJoined(ls: seq<Bytes>)
    requires ls != [] && RealLines(ls)
    ensures SplitLines(JoinLines(ls)) == ls
  {
    if |ls| == 1 {
      SplitOneLine(ls[0]);
    } else {
      SplitJoined(ls[1..]);
      SplitAfterLine(ls[0], JoinLines(ls[1..]));
      assert ls == [ls[0]] + ls[1..];
    }
  }

  /** There is no blank line before the end of joined lines, and they end in no line feed. */
  lemma {:induction false} NoBlankInside(ls: seq<Bytes>)
    requires ls != [] && RealLines(ls)
    ensures var s := JoinLines(ls);
            s != [] && s[0] != LF && s[|s| - 1] != LF && forall k :: 0 <= k < |s| - 1 ==> !(s[k] == LF && s[k + 1] == LF)
  {
    var l := ls[0];
    assert l[0] in l && l[|l| - 1] in l;
    if |ls| > 1 {
      NoBlankInside(ls[1..]);
      var rest := JoinLines(ls[1..]);
      var s := l + [LF] + rest;
      forall k | 0 <= k < |s| - 1 ensures !(s[k] == LF && s[k + 1] == LF) {
        if k < |l| { assert s[k] == l[k] && l[k] in l; }
        else if k == |l| { assert s[k + 1] == rest[0]; }
        else { assert s[k] == rest[k - |l| - 1] && s[k + 1] == rest[k - |l|]; }
      }
    } else {
      forall k | 0 <= k < |l| - 1 ensures l[k] != LF { assert l[k] in l; }
    }
  }

  lemma BlankFound(body: Bytes, i: nat, n: nat)
    requires i <= n && n + 2 <= |body| && body[n] == LF && body[n + 1] == LF
    requires forall k :: i <= k < n ==> !(body[k] == LF && body[k + 1] == LF)
    ensures BlankLine(body, i) == Some(n)
  {
  }

  lemma Tags()
    ensures |Tree()| == 5 && |Parent()| == 7 && |Author()| == 7 && |Committer()| == 10
    ensures Tree()[0] == 116 && Parent()[0] == 112 && Author()[0] == 97 && Committer()[0] == 99
    ensures LF !in Tree() && LF !in Parent() && LF !in Author() && LF !in Committer()
  {
  }

  lemma TreeLine(h: Header, o: Oid)
    requires |o| == 20
    ensures ReadLine(h, Tree() + Hex(o)) == Some(h.(tree := o))
  {
    Tags();
    HexRoundTrip(o);
    assert (Tree() + Hex(o))[5..] == Hex(o);
  }

  lemma ParentLine(h: Header, o: Oid)
    requires |o| == 20
    ensures ReadLine(h, Parent() + Hex(o)) == Some(h.(parents := h.parents + [o]))
  {
    Tags();
    HexRoundTrip(o);
    var line := Parent() + Hex(o);
    assert line[7..] == Hex(o) && line[0] == 112;
  }

  lemma IdentLines(h: Header, sig: Bytes)
    ensures ReadLine(h, Author() + sig) == Some(h.(author := sig))
    ensures ReadLine(h, Committer() + sig) == Some(h)
  {
    Tags();
    var a, c := Author() + sig, Committer() + sig;
    assert a[7..] == sig && a[0] == 97 && c[0] == 99;
  }

  lemma OneMoreLine(h: Header, lines: seq<Bytes>, line: Bytes)
    ensures ReadLines(h, lines + [line])
            == if ReadLines(h, lines).None? then None else ReadLine(ReadLines(h, lines).value, line)
  {
    assert (lines + [line])[..|lines|] == lines;
  }

  lemma {:induction false} ReadParents(tree: Oid, parents: seq<Oid>)
    requires |tree| == 20 && forall k :: 0 <= k < |parents| ==> |parents[k]| == 20
    ensures ReadLines(EMPTY, [Tree() + Hex(tree)] + ParentLines(parents)) == Some(Header(tree, parents, []))
  {
    if parents == [] {
      assert [Tree() + Hex(tree)] + ParentLines(parents) == [] + [Tree() + Hex(tree)];
      OneMoreLine(EMPTY, [], Tree() + Hex(tree));
      TreeLine(EMPTY, tree);
    } else {
      var n := |parents| - 1;
      var before := [Tree() + Hex(tree)] + ParentLines(parents[..n]);
      ReadParents(tree, parents[..n]);
      assert [Tree() + Hex(tree)] + ParentLines(parents) == before + [Parent() + Hex(parents[n])];
      OneMoreLine(EMPTY, before, Parent() + Hex(parents[n]));
      ParentLine(Header(tree, parents[..n], []), parents[n]);
      SplitLast(parents);
    }
  }

  lemma ReadAll(tree: Oid, parents: seq<Oid>, sig: Bytes)
    requires |tree| == 20 && forall k :: 0 <= k < |parents| ==> |parents[k]| == 20
    ensures ReadLines(EMPTY, HeaderLines(tree, parents, sig)) == Some(Header(tree, parents, sig))
  {
    var start := [Tree() + Hex(tree)] + ParentLines(parents);
    var a, c := Author() + sig, Committer() + sig;
    ReadParents(tree, parents);
    OneMoreLine(EMPTY, start, a);
    OneMoreLine(EMPTY, start + [a], c);
    IdentLines(Header(tree, parents, []), sig);
    IdentLines(Header(tree, parents, sig), sig);
    assert HeaderLines(tree, parents, sig) == start + [a] + [c];
  }

  lemma RealHeader(tree: Oid, parents: seq<Oid>, sig: Bytes)
    requires LF !in sig
    ensures RealLines(HeaderLines(tree, parents, sig))
  {
    Tags();
    HexRoundTrip(tree);
    forall k | 0 <= k < |parents| ensures LF !in Parent() + Hex(parents[k]) { HexRoundTrip(parents[k]); }
  }

  // ----- an identity with a line feed -----

  lemma {:induction false} LinesHaveNoLF(s: Bytes)
    ensures forall k :: 0 <= k < |SplitLines(s)| ==> LF !in SplitLines(s)[k]
  {
    if s != [] { LinesHaveNoLF(s[1..]); }
  }

  lemma {:induction false} AuthorHasNoLF(lines: seq<Bytes>)
    requires (forall k :: 0 <= k < |lines| ==> LF !in lines[k]) && ReadLines(EMPTY, lines).Some?
    ensures LF !in ReadLines(EMPTY, lines).value.author
  {
    if lines != [] { AuthorHasNoLF(lines[..|lines| - 1]); }
  }

  /** No commit body says that its author has a line feed. */
  lemma DecodedAuthor(body: Bytes)
    requires Decoded(body).Some?
    ensures LF !in Decoded(body).value.header.author
  {
    var lines := SplitLines(body[..BlankLine(body, 0).value]);
    LinesHaveNoLF(body[..BlankLine(body, 0).value]);
    AuthorHasNoLF(lines);
  }

  /**
    A synthesized commit decodes to the tree, the parents in order, the identity line and
    the message if and only if the identity holds no line feed.
   */
  lemma CommitRoundTrip(tree: Oid, parents: seq<Oid>, sig: Bytes, message: Bytes)
    requires |tree| == 20 && (forall k :: 0 <= k < |parents| ==> |parents[k]| == 20)
    ensures Decoded(Encoded(tree, parents, sig, message)) == Some(Commit(Header(tree, parents, sig), message)) <==> LF !in sig
  {
    if LF !in sig {
      CommitReads(tree, parents, sig, message);
    } else if Decoded(Encoded(tree, parents, sig, message)).Some? {
      DecodedAuthor(Encoded(tree, parents, sig, message));
    }
  }

  lemma CommitReads(tree: Oid, parents: seq<Oid>, sig: Bytes, message: Bytes)
    requires |tree| == 20 && (forall k :: 0 <= k < |parents| ==> |parents[k]| == 20) && LF !in sig
    ensures Decoded(Encoded(tree, parents, sig, message)) == Some(Commit(Header(tree, parents, sig), message))
  {
    var lines := HeaderLines(tree, parents, sig);
    var h := JoinLines(lines);
    var body := h + [LF, LF] + message;
    RealHeader(tree, parents, sig);
    NoBlankInside(lines);
    forall k | 0 <= k < |h| ensures !(body[k] == LF && body[k + 1] == LF) {
      if k + 1 < |h| { assert body[k] == h[k] && body[k + 1] == h[k + 1]; } else { assert body[k] == h[|h| - 1]; }
    }
    BlankFound(body, 0, |h|);
    assert body[..|h|] == h && body[|h| + 2..] == message;
    SplitJoined(lines);
    ReadAll(tree, parents, sig);
  }
}
