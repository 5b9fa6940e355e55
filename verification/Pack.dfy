/**
  varvig/internal/gitobj/pack.go, loadPacks: deltas resolved by repeated passes over the
  entries of every pack. What an entry means is defined by its chain of bases alone, so
  the result cannot depend on the order of packs, entries or passes.
 */
module Pack {
  import opened Basics
  import opened GitObjects
  import opened Orders
  import Delta

  const OFS_DELTA: nat := 6
  const REF_DELTA: nat := 7

  /** One object as it stands in a pack. */
  datatype RawEntry = RawEntry(pack: nat, offset: int, typ: nat, inflated: Bytes, baseOffset: int, baseOid: Oid)

  function PkKind(typ: nat): Option<Kind> {
    if typ == 1 then Some(KIND_COMMIT)
    else if typ == 2 then Some(KIND_TREE)
    else if typ == 3 then Some(KIND_BLOB)
    else if typ == 4 then Some(KIND_TAG)
    else None
  }

  predicate IsDeltaType(typ: nat) {
    typ == OFS_DELTA || typ == REF_DELTA
  }

  /** The hash, and the loose objects, whose reads verify the hash. */
  datatype Env = Env(hash: GitObject -> Oid, loose: map<Oid, GitObject>) {
    ghost predicate Valid() {
      && (forall x, y :: hash(x) == hash(y) ==> x == y)
      && (forall oid :: oid in loose ==> hash(loose[oid]) == oid)
    }
  }

  type Key = (nat, int)

  function KeyOf(e: RawEntry): Key {
    (e.pack, e.offset)
  }

  /** parsePack reads entries at increasing offsets. */
  ghost predicate KeysDistinct(es: seq<RawEntry>) {
    forall i, j :: 0 <= i < j < |es| ==> KeyOf(es[i]) != KeyOf(es[j])
  }

  lemma SameKey(es: seq<RawEntry>, e: RawEntry, f: RawEntry)
    requires KeysDistinct(es) && e in es && f in es && KeyOf(e) == KeyOf(f)
    ensures e == f
  {
    var i :| 0 <= i < |es| && es[i] == e;
    var j :| 0 <= j < |es| && es[j] == f;
    assert !(i < j) && !(j < i);
  }

  // ----- what an entry means -----

  /** Where a delta's base comes from: an entry, or None for a loose object. */
  ghost predicate BaseLink(g: Env, es: seq<RawEntry>, e: RawEntry, from: Option<RawEntry>, base: GitObject) {
    if from.None? then e.typ == REF_DELTA && e.baseOid in g.loose && base == g.loose[e.baseOid]
    else
      && from.value in es
      && if e.typ == OFS_DELTA then KeyOf(from.value) == (e.pack, e.baseOffset) else g.hash(base) == e.baseOid
  }

  ghost predicate Patches(base: GitObject, e: RawEntry, obj: GitObject) {
    Delta.Patched(base.body, e.inflated) == Some(obj.body) && obj.kind == base.kind
  }

  ghost predicate Plain(e: RawEntry, obj: GitObject) {
    !IsDeltaType(e.typ) && PkKind(e.typ) == Some(obj.kind) && obj.body == e.inflated
  }

  /** Entry `e` is `obj` by a chain of at most n bases. */
  ghost predicate Means(g: Env, es: seq<RawEntry>, n: nat, e: RawEntry, obj: GitObject) {
    if !IsDeltaType(e.typ) then Plain(e, obj)
    else exists from, base :: BaseLink(g, es, e, from, base) && Patches(base, e, obj)
                              && (from.Some? ==> n > 0 && Means(g, es, n - 1, from.value, base))
  }

  ghost predicate BaseMeans(g: Env, es: seq<RawEntry>, n: nat, from: Option<RawEntry>, base: GitObject) {
    from.Some? ==> n > 0 && Means(g, es, n - 1, from.value, base)
  }

  /** The meaning of an entry: the end of its chain with every delta applied. */
  ghost predicate Meaning(g: Env, es: seq<RawEntry>, e: RawEntry, obj: GitObject) {
    exists n: nat :: Means(g, es, n, e, obj)
  }

  lemma BaseOfMeaning(g: Env, es: seq<RawEntry>, n: nat, e: RawEntry, obj: GitObject) returns (from: Option<RawEntry>, base: GitObject)
    requires IsDeltaType(e.typ) && Means(g, es, n, e, obj)
    ensures BaseLink(g, es, e, from, base) && Patches(base, e, obj) && BaseMeans(g, es, n, from, base)
  {
    from, base :| BaseLink(g, es, e, from, base) && Patches(base, e, obj)
                  && (from.Some? ==> n > 0 && Means(g, es, n - 1, from.value, base));
  }

  /** An entry has at most one meaning. */
  lemma {:induction false} MeansUnique(g: Env, es: seq<RawEntry>, n: nat, m: nat, e: RawEntry, x: GitObject, y: GitObject)
    requires g.Valid() && KeysDistinct(es) && Means(g, es, n, e, x) && Means(g, es, m, e, y)
    ensures x == y
    decreases n, 1
  {
    if IsDeltaType(e.typ) {
      var from, b := BaseOfMeaning(g, es, n, e, x);
      var from', c := BaseOfMeaning(g, es, m, e, y);
      BaseUnique(g, es, n, m, e, from, b, from', c);
    }
  }

  lemma {:induction false} BaseUnique(g: Env, es: seq<RawEntry>, n: nat, m: nat, e: RawEntry,
                                      from: Option<RawEntry>, x: GitObject, from': Option<RawEntry>, y: GitObject)
    requires g.Valid() && KeysDistinct(es) && BaseLink(g, es, e, from, x) && BaseLink(g, es, e, from', y)
    requires BaseMeans(g, es, n, from, x) && BaseMeans(g, es, m, from', y)
    ensures x == y
    decreases n, 0
  {
    if e.typ == OFS_DELTA {
      SameKey(es, from.value, from'.value);
      MeansUnique(g, es, n - 1, m - 1, from.value, x, y);
    } else {
      assert g.hash(x) == e.baseOid == g.hash(y);
    }
  }

  lemma MeaningUnique(g: Env, es: seq<RawEntry>, e: RawEntry, x: GitObject, y: GitObject)
    requires g.Valid() && KeysDistinct(es) && Meaning(g, es, e, x) && Meaning(g, es, e, y)
    ensures x == y
  {
    var n: nat :| Means(g, es, n, e, x);
    var m: nat :| Means(g, es, m, e, y);
    MeansUnique(g, es, n, m, e, x, y);
  }

  ghost predicate Meaningful(g: Env, es: seq<RawEntry>, e: RawEntry) {
    exists obj :: Meaning(g, es, e, obj)
  }

  /** Every chain is grounded and every delta applies. */
  ghost predicate AllMeaningful(g: Env, es: seq<RawEntry>) {
    forall e :: e in es ==> Meaningful(g, es, e)
  }

  /** `out` holds the meanings of the entries under their hashes, and nothing else. */
  ghost predicate Resolved(g: Env, es: seq<RawEntry>, out: map<Oid, GitObject>) {
    && (forall oid :: oid in out ==> g.hash(out[oid]) == oid && exists e :: e in es && Meaning(g, es, e, out[oid]))
    && (forall e, obj :: e in es && Meaning(g, es, e, obj) ==> g.hash(obj) in out)
  }

  // ----- one entry, against what is resolved so far -----

  type Resolutions = map<Key, GitObject>
  type Objects = map<Oid, GitObject>

  /** The base of a delta, where it is available. */
  function BaseOf(g: Env, e: RawEntry, at: Resolutions, out: Objects): Option<GitObject> {
    if e.typ == OFS_DELTA then
      if (e.pack, e.baseOffset) in at then Some(at[(e.pack, e.baseOffset)]) else None
    else if e.baseOid in out then Some(out[e.baseOid])
    else if e.baseOid in g.loose then Some(g.loose[e.baseOid])
    else None
  }

  datatype Step = Done(obj: GitObject) | Waiting | Failed

  /** The `done` entries are resolved, and only they. */
  ghost predicate Progress(g: Env, es: seq<RawEntry>, done: set<RawEntry>, at: Resolutions, out: Objects) {
    DoneHeld(g, es, done, at, out) && KeysDone(done, at) && ObjectsDone(g, done, at, out)
  }

  /** What a step says about the entry it looked at. */
  ghost predicate StepSays(g: Env, es: seq<RawEntry>, e: RawEntry, at: Resolutions, out: Objects, s: Step) {
    match s
    case Done(obj) => Meaning(g, es, e, obj)
    case Waiting => IsDeltaType(e.typ) && BaseOf(g, e, at, out).None?
    case Failed => !Meaningful(g, es, e)
  }

  lemma BaseMeaning(g: Env, es: seq<RawEntry>, done: set<RawEntry>, at: Resolutions, out: Objects, e: RawEntry)
    returns (from: Option<RawEntry>, n: nat)
    requires g.Valid() && Progress(g, es, done, at, out) && IsDeltaType(e.typ) && BaseOf(g, e, at, out).Some?
    ensures BaseLink(g, es, e, from, BaseOf(g, e, at, out).value) && BaseMeans(g, es, n, from, BaseOf(g, e, at, out).value)
  {
    from, n := None, 0;
    if e.typ == OFS_DELTA {
      var b :| b in done && KeyOf(b) == (e.pack, e.baseOffset);
      var m: nat :| Means(g, es, m, b, at[KeyOf(b)]);
      from, n := Some(b), m + 1;
    } else if e.baseOid in out {
      var b :| b in done && out[e.baseOid] == at[KeyOf(b)];
      var m: nat :| Means(g, es, m, b, at[KeyOf(b)]);
      from, n := Some(b), m + 1;
    }
  }

  lemma PatchedMeaning(g: Env, es: seq<RawEntry>, n: nat, e: RawEntry, from: Option<RawEntry>, base: GitObject, obj: GitObject)
    requires IsDeltaType(e.typ) && BaseLink(g, es, e, from, base) && BaseMeans(g, es, n, from, base) && Patches(base, e, obj)
    ensures Meaning(g, es, e, obj)
  {
    assert Means(g, es, n, e, obj);
  }

  lemma Unpatchable(g: Env, es: seq<RawEntry>, n: nat, e: RawEntry, from: Option<RawEntry>, base: GitObject)
    requires g.Valid() && KeysDistinct(es) && IsDeltaType(e.typ)
    requires BaseLink(g, es, e, from, base) && BaseMeans(g, es, n, from, base)
    requires Delta.Patched(base.body, e.inflated).None?
    ensures !Meaningful(g, es, e)
  {
    forall obj, m: nat ensures !Means(g, es, m, e, obj) {
      if Means(g, es, m, e, obj) {
        var from', c := BaseOfMeaning(g, es, m, e, obj);
        BaseUnique(g, es, n, m, e, from, base, from', c);
      }
    }
  }

  /** One entry of a pass. */
  method Resolve(g: Env, ghost es: seq<RawEntry>, ghost done: set<RawEntry>, e: RawEntry, at: Resolutions, out: Objects) returns (s: Step)
    requires g.Valid() && KeysDistinct(es) && Progress(g, es, done, at, out) && e in es
    ensures StepSays(g, es, e, at, out, s)
  {
    if e.typ != OFS_DELTA && e.typ != REF_DELTA {
      var kind := PkKind(e.typ);
      if kind.None? { return Failed; }
      assert Means(g, es, 0, e, GitObject(kind.value, e.inflated));
      return Done(GitObject(kind.value, e.inflated));
    }
    var base := BaseOf(g, e, at, out);
    if base.None? { return Waiting; }
    ghost var from, n := BaseMeaning(g, es, done, at, out, e);
    var body := Delta.ApplyDelta(base.value.body, e.inflated);
    if body.Err? {
      Unpatchable(g, es, n, e, from, base.value);
      return Failed;
    }
    PatchedMeaning(g, es, n, e, from, base.value, GitObject(base.value.kind, body.value));
    return Done(GitObject(base.value.kind, body.value));
  }

  // ----- passes -----

  ghost predicate DoneHeld(g: Env, es: seq<RawEntry>, done: set<RawEntry>, at: Resolutions, out: Objects) {
    forall e :: e in done ==> e in es && KeyOf(e) in at && Meaning(g, es, e, at[KeyOf(e)]) && g.hash(at[KeyOf(e)]) in out
  }

  ghost predicate KeysDone(done: set<RawEntry>, at: Resolutions) {
    forall k :: k in at ==> exists e :: e in done && KeyOf(e) == k
  }

  ghost predicate ObjectsDone(g: Env, done: set<RawEntry>, at: Resolutions, out: Objects)
    requires forall e :: e in done ==> KeyOf(e) in at
  {
    forall oid :: oid in out ==> g.hash(out[oid]) == oid && exists e :: e in done && out[oid] == at[KeyOf(e)]
  }

  lemma RecordedKeys(done: set<RawEntry>, at: Resolutions, e: RawEntry, obj: GitObject)
    requires KeysDone(done, at)
    ensures KeysDone(done + {e}, at[KeyOf(e) := obj])
  {
    var at' := at[KeyOf(e) := obj];
    forall k | k in at' ensures exists f :: f in done + {e} && KeyOf(f) == k {
      if k == KeyOf(e) { assert e in done + {e}; }
      else { var f :| f in done && KeyOf(f) == k; assert f in done + {e}; }
    }
  }

  lemma RecordedObjects(g: Env, done: set<RawEntry>, at: Resolutions, out: Objects, e: RawEntry, obj: GitObject)
    requires forall f :: f in done ==> KeyOf(f) in at && KeyOf(f) != KeyOf(e)
    requires ObjectsDone(g, done, at, out)
    ensures ObjectsDone(g, done + {e}, at[KeyOf(e) := obj], out[g.hash(obj) := obj])
  {
    var at', out' := at[KeyOf(e) := obj], out[g.hash(obj) := obj];
    forall oid | oid in out' ensures exists f :: f in done + {e} && out'[oid] == at'[KeyOf(f)] {
      if oid == g.hash(obj) { assert e in done + {e}; }
      else { var f :| f in done && out[oid] == at[KeyOf(f)]; assert f in done + {e}; }
    }
  }

  lemma RecordedHeld(g: Env, es: seq<RawEntry>, done: set<RawEntry>, at: Resolutions, out: Objects, e: RawEntry, obj: GitObject)
    requires DoneHeld(g, es, done, at, out) && e in es && Meaning(g, es, e, obj)
    requires forall f :: f in done ==> KeyOf(f) != KeyOf(e)
    ensures DoneHeld(g, es, done + {e}, at[KeyOf(e) := obj], out[g.hash(obj) := obj])
  {
  }

  lemma Recorded(g: Env, es: seq<RawEntry>, done: set<RawEntry>, at: Resolutions, out: Objects, e: RawEntry, obj: GitObject)
    requires KeysDistinct(es) && Progress(g, es, done, at, out)
    requires e in es && e !in done && Meaning(g, es, e, obj)
    ensures Progress(g, es, done + {e}, at[KeyOf(e) := obj], out[g.hash(obj) := obj])
  {
    forall f | f in done ensures KeyOf(f) != KeyOf(e) { if KeyOf(f) == KeyOf(e) { SameKey(es, e, f); } }
    RecordedHeld(g, es, done, at, out, e, obj);
    RecordedKeys(done, at, e, obj);
    RecordedObjects(g, done, at, out, e, obj);
  }

  lemma BaseAvailable(g: Env, es: seq<RawEntry>, done: set<RawEntry>, at: Resolutions, out: Objects, e: RawEntry,
                      from: Option<RawEntry>, base: GitObject)
    requires g.Valid() && KeysDistinct(es) && Progress(g, es, done, at, out) && IsDeltaType(e.typ)
    requires BaseLink(g, es, e, from, base)
    requires from.Some? ==> from.value in done && Meaning(g, es, from.value, base)
    ensures BaseOf(g, e, at, out).Some?
  {
    if from.Some? { MeaningUnique(g, es, from.value, base, at[KeyOf(from.value)]); }
  }

  /** Where nothing more can be resolved, the waiting entries mean nothing. */
  lemma {:induction false} Stuck(g: Env, es: seq<RawEntry>, done: set<RawEntry>, at: Resolutions, out: Objects, n: nat, e: RawEntry, obj: GitObject)
    requires g.Valid() && KeysDistinct(es) && Progress(g, es, done, at, out)
    requires AllWaiting(g, es, done, at, out)
    requires e in es && e !in done
    ensures !Means(g, es, n, e, obj)
    decreases n
  {
    if Means(g, es, n, e, obj) {
      assert StepSays(g, es, e, at, out, Waiting);
      var from, base := BaseOfMeaning(g, es, n, e, obj);
      if from.Some? && from.value !in done {
        Stuck(g, es, done, at, out, n - 1, from.value, base);
      } else {
        BaseAvailable(g, es, done, at, out, e, from, base);
      }
    }
  }

  ghost predicate AllWaiting(g: Env, es: seq<RawEntry>, done: set<RawEntry>, at: Resolutions, out: Objects) {
    forall f :: f in es && f !in done ==> StepSays(g, es, f, at, out, Waiting)
  }

  /** One pass over the pending entries; `failed` is an error return. */
  method Pass(g: Env, ghost es: seq<RawEntry>, ghost done: set<RawEntry>, pending: seq<RawEntry>, at: Resolutions, out: Objects)
    returns (failed: bool, still: seq<RawEntry>, at': Resolutions, out': Objects, ghost done': set<RawEntry>, progress: bool)
    requires g.Valid() && KeysDistinct(es) && Progress(g, es, done, at, out)
    requires NoDuplicates(pending) && done !! Elements(pending) && done + Elements(pending) == Elements(es)
    ensures failed ==> !AllMeaningful(g, es)
    ensures !failed ==> Progress(g, es, done', at', out') && NoDuplicates(still) && done' !! Elements(still)
                        && done' + Elements(still) == Elements(es)
    ensures !failed && progress ==> |still| < |pending|
    ensures !failed && !progress ==> AllWaiting(g, es, done', at', out')
  {
    at', out', done', still, progress, failed := at, out, done, [], false, false;
    for i := 0 to |pending|
      invariant Progress(g, es, done', at', out') && Passed(es, pending, i, done', still)
      invariant progress ==> |still| < i
      invariant !progress ==> forall f :: f in still ==> StepSays(g, es, f, at', out', Waiting)
    {
      var e := pending[i];
      PassedNext(es, pending, i, done', still);
      var s := Resolve(g, es, done', e, at', out');
      match s
      case Failed =>
        failed := true;
        return;
      case Waiting =>
        still := still + [e];
      case Done(obj) =>
        Recorded(g, es, done', at', out', e, obj);
        at' := at'[KeyOf(e) := obj];
        out' := out'[g.hash(obj) := obj];
        done' := done' + {e};
        progress := true;
    }
    assert pending[|pending|..] == [];
  }

  /** The first i pending entries are done or wait again. */
  ghost predicate Passed(es: seq<RawEntry>, pending: seq<RawEntry>, i: nat, done: set<RawEntry>, still: seq<RawEntry>)
    requires i <= |pending|
  {
    && |still| <= i && NoDuplicates(still) && NoDuplicates(pending[i..])
    && done !! Elements(still) && done !! Elements(pending[i..]) && Elements(still) !! Elements(pending[i..])
    && done + Elements(still) + Elements(pending[i..]) == Elements(es)
  }

  lemma PassedNext(es: seq<RawEntry>, pending: seq<RawEntry>, i: nat, done: set<RawEntry>, still: seq<RawEntry>)
    requires i < |pending| && Passed(es, pending, i, done, still)
    ensures pending[i] in es && pending[i] !in done
    ensures Passed(es, pending, i + 1, done, still + [pending[i]])
    ensures Passed(es, pending, i + 1, done + {pending[i]}, still)
  {
    var e, rest := pending[i], pending[i..];
    assert rest[0] == e && rest[1..] == pending[i + 1..] && rest == [e] + pending[i + 1..];
    assert e in Elements(rest);
    assert e in Elements(es);
    assert Elements(rest) == {e} + Elements(pending[i + 1..]);
    assert e !in pending[i + 1..];
    NoDuplicatesAppend(still, e);
    assert Elements(still + [e]) == Elements(still) + {e};
  }

  /**
    loadPacks: it ends, succeeds exactly when every entry has a meaning, and then holds
    exactly those meanings.
   */
  method LoadPacks(g: Env, entries: seq<RawEntry>) returns (r: Option<Objects>)
    requires g.Valid() && KeysDistinct(entries)
    ensures r.Some? <==> AllMeaningful(g, entries)
    ensures r.Some? ==> Resolved(g, entries, r.value)
  {
    var at: Resolutions := map[];
    var out: Objects := map[];
    var pending := entries;
    ghost var done: set<RawEntry> := {};
    if entries == [] { return Some(out); }
    while true
      invariant Progress(g, entries, done, at, out)
      invariant NoDuplicates(pending) && done !! Elements(pending) && done + Elements(pending) == Elements(entries)
      decreases |pending|
    {
      var failed, still, progress;
      failed, still, at, out, done, progress := Pass(g, entries, done, pending, at, out);
      if failed { return None; }
      var before := |pending|;
      pending := still;
      if |pending| == 0 { break; }
      if !progress {
        NoMeaning(g, entries, done, at, out, pending[0]);
        return None;
      }
    }
    assert forall e :: e in entries ==> e in Elements(entries);
    AllResolved(g, entries, done, at, out);
    return Some(out);
  }

  lemma NoMeaning(g: Env, es: seq<RawEntry>, done: set<RawEntry>, at: Resolutions, out: Objects, e: RawEntry)
    requires g.Valid() && KeysDistinct(es) && Progress(g, es, done, at, out)
    requires AllWaiting(g, es, done, at, out)
    requires e in es && e !in done
    ensures !Meaningful(g, es, e)
  {
    forall obj, n: nat ensures !Means(g, es, n, e, obj) { Stuck(g, es, done, at, out, n, e, obj); }
  }

  lemma EntryResolved(g: Env, es: seq<RawEntry>, done: set<RawEntry>, at: Resolutions, out: Objects, e: RawEntry, obj: GitObject)
    requires g.Valid() && KeysDistinct(es) && DoneHeld(g, es, done, at, out) && e in done && Meaning(g, es, e, obj)
    ensures g.hash(obj) in out
  {
    MeaningUnique(g, es, e, obj, at[KeyOf(e)]);
  }

  lemma HeldMeaning(g: Env, es: seq<RawEntry>, done: set<RawEntry>, at: Resolutions, out: Objects, e: RawEntry)
    requires DoneHeld(g, es, done, at, out) && e in done
    ensures Meaningful(g, es, e)
  {
    assert Meaning(g, es, e, at[KeyOf(e)]);
  }

  lemma ObjectResolved(g: Env, es: seq<RawEntry>, done: set<RawEntry>, at: Resolutions, out: Objects, oid: Oid)
    requires DoneHeld(g, es, done, at, out) && ObjectsDone(g, done, at, out) && oid in out
    ensures g.hash(out[oid]) == oid && exists e :: e in es && Meaning(g, es, e, out[oid])
  {
    var e :| e in done && out[oid] == at[KeyOf(e)];
    assert e in es && Meaning(g, es, e, out[oid]);
  }

  lemma AllResolved(g: Env, es: seq<RawEntry>, done: set<RawEntry>, at: Resolutions, out: Objects)
    requires g.Valid() && KeysDistinct(es) && Progress(g, es, done, at, out)
    requires forall e :: e in es ==> e in done
    ensures AllMeaningful(g, es) && Resolved(g, es, out)
  {
    forall e | e in es ensures Meaningful(g, es, e) { HeldMeaning(g, es, done, at, out, e); }
    forall e, obj | e in es && Meaning(g, es, e, obj) ensures g.hash(obj) in out { EntryResolved(g, es, done, at, out, e, obj); }
    forall oid | oid in out ensures g.hash(out[oid]) == oid && exists e :: e in es && Meaning(g, es, e, out[oid]) {
      ObjectResolved(g, es, done, at, out, oid);
    }
  }

  // ----- order does not matter -----

  /** The entry when its pack has another place in the list of packs. */
  function Moved(f: nat -> nat, e: RawEntry): RawEntry {
    e.(pack := f(e.pack))
  }

  /** `fs` holds the entries of `es`, in any order and with the packs renumbered by `f`. */
  ghost predicate Reordered(f: nat -> nat, es: seq<RawEntry>, fs: seq<RawEntry>) {
    && (forall d, e :: d in es && e in es && f(d.pack) == f(e.pack) ==> d.pack == e.pack)
    && (forall e :: e in es ==> Moved(f, e) in fs)
    && (forall x :: x in fs ==> exists e :: e in es && x == Moved(f, e))
  }

  /** Moving the packs moves the link from a delta to its base. */
  lemma LinkMoved(g: Env, f: nat -> nat, es: seq<RawEntry>, fs: seq<RawEntry>, e: RawEntry, from: RawEntry, base: GitObject)
    requires Reordered(f, es, fs) && e in es && from in es
    ensures BaseLink(g, es, e, Some(from), base) <==> BaseLink(g, fs, Moved(f, e), Some(Moved(f, from)), base)
  {
  }

  lemma {:induction false} MeansMoved(g: Env, f: nat -> nat, es: seq<RawEntry>, fs: seq<RawEntry>, n: nat, e: RawEntry, obj: GitObject)
    requires Reordered(f, es, fs) && e in es && Means(g, es, n, e, obj)
    ensures Means(g, fs, n, Moved(f, e), obj)
    decreases n
  {
    if IsDeltaType(e.typ) {
      var from, base := BaseOfMeaning(g, es, n, e, obj);
      var to := if from.Some? then Some(Moved(f, from.value)) else None;
      if from.Some? {
        MeansMoved(g, f, es, fs, n - 1, from.value, base);
        LinkMoved(g, f, es, fs, e, from.value, base);
      }
      assert BaseLink(g, fs, Moved(f, e), to, base) && BaseMeans(g, fs, n, to, base) && Patches(base, Moved(f, e), obj);
    }
  }

  lemma {:induction false} MeansMovedBack(g: Env, f: nat -> nat, es: seq<RawEntry>, fs: seq<RawEntry>, n: nat, e: RawEntry, obj: GitObject)
    requires Reordered(f, es, fs) && e in es && Means(g, fs, n, Moved(f, e), obj)
    ensures Means(g, es, n, e, obj)
    decreases n
  {
    if IsDeltaType(e.typ) {
      var to, base := BaseOfMeaning(g, fs, n, Moved(f, e), obj);
      var from: Option<RawEntry> := None;
      if to.Some? {
        var d :| d in es && to.value == Moved(f, d);
        from := Some(d);
        MeansMovedBack(g, f, es, fs, n - 1, d, base);
        LinkMoved(g, f, es, fs, e, d, base);
      }
      assert BaseLink(g, es, e, from, base) && BaseMeans(g, es, n, from, base) && Patches(base, e, obj);
    }
  }

  lemma MeaningMoved(g: Env, f: nat -> nat, es: seq<RawEntry>, fs: seq<RawEntry>, e: RawEntry, obj: GitObject)
    requires Reordered(f, es, fs) && e in es
    ensures Meaning(g, es, e, obj) <==> Meaning(g, fs, Moved(f, e), obj)
  {
    if n: nat :| Means(g, es, n, e, obj) { MeansMoved(g, f, es, fs, n, e, obj); }
    if n: nat :| Means(g, fs, n, Moved(f, e), obj) { MeansMovedBack(g, f, es, fs, n, e, obj); }
  }

  lemma MeaningfulMoved(g: Env, f: nat -> nat, es: seq<RawEntry>, fs: seq<RawEntry>, e: RawEntry)
    requires Reordered(f, es, fs) && e in es
    ensures Meaningful(g, es, e) <==> Meaningful(g, fs, Moved(f, e))
  {
    forall obj ensures Meaning(g, es, e, obj) <==> Meaning(g, fs, Moved(f, e), obj) { MeaningMoved(g, f, es, fs, e, obj); }
  }

  lemma AllMeaningfulMoved(g: Env, f: nat -> nat, es: seq<RawEntry>, fs: seq<RawEntry>)
    requires Reordered(f, es, fs)
    ensures AllMeaningful(g, es) <==> AllMeaningful(g, fs)
  {
    if AllMeaningful(g, es) {
      forall d | d in fs ensures Meaningful(g, fs, d) {
        var e :| e in es && d == Moved(f, e);
        MeaningfulMoved(g, f, es, fs, e);
      }
    } else {
      var e :| e in es && !Meaningful(g, es, e);
      MeaningfulMoved(g, f, es, fs, e);
      assert Moved(f, e) in fs;
    }
  }

  lemma ObjectMoved(g: Env, f: nat -> nat, es: seq<RawEntry>, fs: seq<RawEntry>, x: Objects, y: Objects, oid: Oid)
    requires g.Valid() && Reordered(f, es, fs) && Resolved(g, es, x) && Resolved(g, fs, y)
    ensures oid in x <==> oid in y
    ensures oid in x ==> x[oid] == y[oid]
  {
    if oid in x {
      var e :| e in es && Meaning(g, es, e, x[oid]);
      MeaningMoved(g, f, es, fs, e, x[oid]);
    }
    if oid in y {
      var d :| d in fs && Meaning(g, fs, d, y[oid]);
      var e :| e in es && d == Moved(f, e);
      MeaningMoved(g, f, es, fs, e, y[oid]);
    }
  }

  /**
    The same entries resolve to the same objects, or fail, whatever the order of the
    packs and of the entries: renumbering the packs renumbers every entry.
   */
  lemma OrderIrrelevant(g: Env, f: nat -> nat, es: seq<RawEntry>, fs: seq<RawEntry>, x: Objects, y: Objects)
    requires g.Valid() && Reordered(f, es, fs)
    ensures AllMeaningful(g, es) <==> AllMeaningful(g, fs)
    ensures Resolved(g, es, x) && Resolved(g, fs, y) ==> x == y
  {
    AllMeaningfulMoved(g, f, es, fs);
    if Resolved(g, es, x) && Resolved(g, fs, y) {
      forall oid ensures (oid in x <==> oid in y) && (oid in x ==> x[oid] == y[oid]) { ObjectMoved(g, f, es, fs, x, y, oid); }
    }
  }
}
