/**
  varvig/internal/p2p/refsync.go: replicating refs between two peers by structure alone,
  a fetch pass that advances local refs and a push pass that advances the peer's.
 */
module RefSync {
  import opened Basics
  import opened Objects
  import opened Graph
  import opened Orders
  import opened Closure
  import opened Refs
  import opened Sync

  /** A repository: its objects and its refs. */
  class Peer {
    const objs: ObjectStore
    const refs: RefStore

    constructor (objs: ObjectStore, refs: RefStore)
      ensures this.objs == objs && this.refs == refs
    {
      this.objs := objs;
      this.refs := refs;
    }
  }

  /** Two different repositories under the same hash and the same naming rules. */
  ghost predicate Paired(local: Peer, remote: Peer)
    reads local.objs, remote.objs
  {
    && local.objs.Valid() && remote.objs.Valid()
    && local.objs.w == remote.objs.w && local.refs.rules == remote.refs.rules
    && local.objs != remote.objs && local.refs != remote.refs
  }

  /** Stored ref values are well-formed ids: every swap checks them. */
  ghost predicate IdsValid(rules: Rules, refs: RefMap) {
    forall n :: n in refs ==> rules.validId(refs[n])
  }

  // ----- reaches -----

  /** reaches: does `from` extend what `target` names, as far as this store can show. */
  method Reaches(objs: ObjectStore, from: Id, target: Id) returns (r: bool)
    requires objs.Valid()
    ensures r <==> target in Reachable(objs.w, objs.objs, from)
  {
    ghost var w, u := objs.w, objs.objs;
    ghost var g, all := StoreLinks(u), Reachable(w, u, from);
    StoreDescends(w, u);
    BelowClosed(g, w.rank, from);
    var seen: set<Id> := {};
    var queue := [from];
    while |queue| > 0
      invariant Searching(g, all, from, target, seen, queue)
      decreases |all - seen|, |queue|
    {
      var id, rest := queue[|queue| - 1], queue[..|queue| - 1];
      SplitLast(queue);
      if id == target {
        assert id in queue;
        return true;
      }
      if id in seen {
        SearchSeen(g, all, from, target, seen, rest, id);
        queue := rest;
      } else {
        SearchNew(g, all, from, target, seen, rest, id);
        seen := seen + {id};
        var links := ReadLinks(objs, id);
        queue := rest + links;
      }
    }
    SearchDone(w, u, from, target, seen);
    return false;
  }

  /** What an object links to; nothing when it is missing or malformed. */
  method ReadLinks(objs: ObjectStore, id: Id) returns (links: seq<Id>)
    ensures links == Out(StoreLinks(objs.objs), id)
  {
    if id !in objs.objs || Objects.Links(objs.objs[id]).None? { return []; }
    return Objects.Links(objs.objs[id]).value;
  }

  /** The search within `all`: what was seen is walked through, everything else pending is queued. */
  ghost predicate Searching(g: Graph.Links, all: set<Id>, from: Id, target: Id, seen: set<Id>, queue: seq<Id>) {
    && seen <= all && target !in seen
    && (forall q :: q in queue ==> q in all)
    && (from in seen || from in queue)
    && (forall x, y :: x in seen && y in Out(g, x) ==> y in seen || y in queue)
  }

  lemma SearchSeen(g: Graph.Links, all: set<Id>, from: Id, target: Id, seen: set<Id>, rest: seq<Id>, id: Id)
    requires Searching(g, all, from, target, seen, rest + [id]) && id in seen
    ensures Searching(g, all, from, target, seen, rest)
  {
    assert forall q :: q in rest + [id] <==> q in rest || q == id;
  }

  lemma SearchNew(g: Graph.Links, all: set<Id>, from: Id, target: Id, seen: set<Id>, rest: seq<Id>, id: Id)
    requires Searching(g, all, from, target, seen, rest + [id]) && Closed(g, all) && id !in seen && id != target
    ensures Searching(g, all, from, target, seen + {id}, rest + Out(g, id))
    ensures |all - (seen + {id})| < |all - seen|
  {
    var out := Out(g, id);
    assert forall q :: q in rest + [id] <==> q in rest || q == id;
    assert forall q :: q in rest + out <==> q in rest || q in out;
    assert all - (seen + {id}) == (all - seen) - {id};
  }

  lemma SearchDone(w: World, objs: Store, from: Id, target: Id, seen: set<Id>)
    requires w.Valid() && Intact(w, objs) && Searching(StoreLinks(objs), Reachable(w, objs, from), from, target, seen, [])
    ensures target !in Reachable(w, objs, from)
  {
    StoreDescends(w, objs);
    var g := StoreLinks(objs);
    assert from in seen && Closed(g, seen);
    if Graph.Reaches(g, w.rank, from, target) {
      ClosedHolds(g, w.rank, seen, from, target);
    }
  }

  // ----- what a pass does to one ref -----

  /** Our value after a fetch pass, from our value and the one advertised; `u` is our store after the transfer. */
  ghost function AfterFetch(w: World, u: Store, rules: Rules, n: Name, ours: Option<Id>, theirs: Option<Id>): Option<Id>
    requires w.Valid() && Intact(w, u)
  {
    if theirs.None? || !rules.replicated(n) || !rules.validName(n) || !rules.validId(theirs.value) then ours
    else if ours.None? then theirs
    else if ours.value in Reachable(w, u, theirs.value) then theirs
    else ours
  }

  /** The peer's value after a push pass; `u` is our store. */
  ghost function AfterPush(w: World, u: Store, rules: Rules, n: Name, ours: Option<Id>, theirs: Option<Id>): Option<Id>
    requires w.Valid() && Intact(w, u)
  {
    if ours.None? || !rules.replicated(n) || !rules.validName(n) then theirs
    else if theirs.None? then ours
    else if theirs.value in Reachable(w, u, ours.value) then ours
    else theirs
  }

  // ----- the fetch pass -----

  datatype Advert = Advert(name: Name, id: Id)

  /** `adv` lists the refs `theirs`, each once. */
  ghost predicate Lists(theirs: RefMap, adv: seq<Advert>) {
    && (forall a :: a in adv <==> a.name in theirs && theirs[a.name] == a.id)
    && (forall i, j :: 0 <= i < j < |adv| ==> adv[i].name != adv[j].name)
  }

  /** What a peer that keeps to the rules advertises: its refs that resolve. */
  function Advertised(rules: Rules, refs: RefMap): RefMap {
    map n | n in refs && rules.validName(n) :: refs[n]
  }

  /** serveListRefs: every ref that resolves. */
  method ListRefs(p: Peer) returns (out: seq<Advert>)
    ensures Lists(Advertised(p.refs.rules, p.refs.refs), out)
  {
    out := [];
    var todo := p.refs.refs.Keys;
    while todo != {}
      invariant todo <= p.refs.refs.Keys
      invariant forall a :: a in out <==> a.name in p.refs.refs.Keys - todo && p.refs.rules.validName(a.name) && p.refs.refs[a.name] == a.id
      invariant forall i, j :: 0 <= i < j < |out| ==> out[i].name != out[j].name
    {
      var n :| n in todo;
      assert forall i :: 0 <= i < |out| ==> out[i] in out;
      if p.refs.rules.validName(n) { out := out + [Advert(n, p.refs.refs[n])]; }
      todo := todo - {n};
    }
  }

  datatype Candidate = Candidate(name: Name, local: Option<Id>, their: Id)

  /** A ref the fetch pass has to look at. */
  predicate IsCandidate(rules: Rules, lrefs: RefMap, a: Advert) {
    && rules.replicated(a.name) && rules.validName(a.name) && rules.validId(a.id)
    && Current(lrefs, a.name) != Some(a.id)
  }

  /** Everything the peer may be asked for: the candidates, their ids, and what we hold in their place. */
  ghost predicate Selected(rules: Rules, lrefs: RefMap, adv: seq<Advert>, cands: seq<Candidate>, want: seq<Id>, have: seq<Id>) {
    && (forall c :: c in cands <==> Advert(c.name, c.their) in adv && IsCandidate(rules, lrefs, Advert(c.name, c.their)) && c.local == Current(lrefs, c.name))
    && (forall x :: x in want <==> exists c :: c in cands && c.their == x)
    && (forall x :: x in have <==> exists c :: c in cands && c.local == Some(x))
  }

  lemma SelectedStep(rules: Rules, lrefs: RefMap, adv: seq<Advert>, cands: seq<Candidate>, want: seq<Id>, have: seq<Id>, a: Advert)
    requires Selected(rules, lrefs, adv, cands, want, have)
    ensures !IsCandidate(rules, lrefs, a) ==> Selected(rules, lrefs, adv + [a], cands, want, have)
    ensures IsCandidate(rules, lrefs, a) ==>
              var local := Current(lrefs, a.name);
              Selected(rules, lrefs, adv + [a], cands + [Candidate(a.name, local, a.id)], want + [a.id], have + OptionIds(local))
  {
    assert forall b :: b in adv + [a] <==> b in adv || b == a;
    if IsCandidate(rules, lrefs, a) {
      var c := Candidate(a.name, Current(lrefs, a.name), a.id);
      assert forall d :: d in cands + [c] <==> d in cands || d == c;
      assert forall x :: x in want + [a.id] <==> x in want || x == a.id;
      assert forall x :: x in have + OptionIds(c.local) <==> x in have || Some(x) == c.local;
    }
  }

  predicate IsRefused(rules: Rules, a: Advert) {
    rules.replicated(a.name) && !(rules.validName(a.name) && rules.validId(a.id))
  }

  /** The names refused are those of replicated adverts with a bad name or id. */
  ghost predicate RefusedIn(rules: Rules, adv: seq<Advert>, refused: seq<Name>) {
    NoDuplicates(refused) && forall n :: n in refused <==> exists a :: a in adv && a.name == n && IsRefused(rules, a)
  }

  lemma RefusedStep(rules: Rules, adv: seq<Advert>, refused: seq<Name>, a: Advert)
    requires RefusedIn(rules, adv, refused) && forall b :: b in adv ==> b.name != a.name
    ensures RefusedIn(rules, adv + [a], if IsRefused(rules, a) then refused + [a.name] else refused)
  {
    assert forall b :: b in adv + [a] <==> b in adv || b == a;
    assert a.name !in refused;
    NoDuplicatesAppend(refused, a.name);
  }

  /** The candidates have different names, all of them advertised. */
  ghost predicate Distinct(adv: seq<Advert>, cands: seq<Candidate>) {
    && (forall i, j :: 0 <= i < j < |cands| ==> cands[i].name != cands[j].name)
    && (forall i :: 0 <= i < |cands| ==> IsAdvertised(adv, cands[i].name))
  }

  ghost predicate IsAdvertised(adv: seq<Advert>, n: Name) {
    exists j :: 0 <= j < |adv| && adv[j].name == n
  }

  lemma DistinctStep(adv: seq<Advert>, cands: seq<Candidate>, k: nat, c: Candidate)
    requires k < |adv| && forall i, j :: 0 <= i < j < |adv| ==> adv[i].name != adv[j].name
    requires Distinct(adv[..k], cands) && c.name == adv[k].name
    ensures Distinct(adv[..k + 1], cands) && Distinct(adv[..k + 1], cands + [c])
  {
    forall i | 0 <= i < |cands| ensures cands[i].name != c.name && IsAdvertised(adv[..k + 1], cands[i].name) {
      var j :| 0 <= j < |adv[..k]| && adv[..k][j].name == cands[i].name;
      assert adv[..k + 1][j] == adv[j];
    }
    assert adv[..k + 1][k] == adv[k];
  }

  ghost predicate Selecting(rules: Rules, lrefs: RefMap, adv: seq<Advert>, cands: seq<Candidate>, want: seq<Id>, have: seq<Id>, refused: seq<Name>) {
    Selected(rules, lrefs, adv, cands, want, have) && Distinct(adv, cands) && RefusedIn(rules, adv, refused)
  }

  lemma SelectingStep(rules: Rules, lrefs: RefMap, adv: seq<Advert>, k: nat, cands: seq<Candidate>, want: seq<Id>, have: seq<Id>, refused: seq<Name>)
    requires k < |adv| && forall i, j :: 0 <= i < j < |adv| ==> adv[i].name != adv[j].name
    requires Selecting(rules, lrefs, adv[..k], cands, want, have, refused)
    ensures var a, local := adv[k], Current(lrefs, adv[k].name);
            if IsRefused(rules, a) then Selecting(rules, lrefs, adv[..k + 1], cands, want, have, refused + [a.name])
            else if IsCandidate(rules, lrefs, a) then
              Selecting(rules, lrefs, adv[..k + 1], cands + [Candidate(a.name, local, a.id)], want + [a.id], have + OptionIds(local), refused)
            else Selecting(rules, lrefs, adv[..k + 1], cands, want, have, refused)
  {
    var a := adv[k];
    assert adv[..k + 1] == adv[..k] + [a];
    forall b | b in adv[..k] ensures b.name != a.name {
      var i :| 0 <= i < k && adv[i] == b;
    }
    SelectedStep(rules, lrefs, adv[..k], cands, want, have, a);
    RefusedStep(rules, adv[..k], refused, a);
    DistinctStep(adv, cands, k, Candidate(a.name, Current(lrefs, a.name), a.id));
  }

  method SelectCandidates(rules: Rules, refs: RefStore, adv: seq<Advert>)
    returns (cands: seq<Candidate>, want: seq<Id>, have: seq<Id>, refused: seq<Name>)
    requires forall i, j :: 0 <= i < j < |adv| ==> adv[i].name != adv[j].name
    ensures Selected(rules, refs.refs, adv, cands, want, have)
    ensures Distinct(adv, cands) && RefusedIn(rules, adv, refused)
  {
    cands, want, have, refused := [], [], [], [];
    for k := 0 to |adv|
      invariant Selecting(rules, refs.refs, adv[..k], cands, want, have, refused)
    {
      var a := adv[k];
      SelectingStep(rules, refs.refs, adv, k, cands, want, have, refused);
      if !rules.replicated(a.name) { continue; }
      if !rules.validName(a.name) || !rules.validId(a.id) {
        refused := refused + [a.name];
        continue;
      }
      var local := Current(refs.refs, a.name);
      if local == Some(a.id) { continue; }
      cands := cands + [Candidate(a.name, local, a.id)];
      want := want + [a.id];
      have := have + OptionIds(local);
    }
    assert adv[..|adv|] == adv;
  }

  datatype RefReport = RefReport(updated: seq<Name>, diverged: seq<Name>, refused: seq<Name>)

  /** Both sides hold the ref and the fetch pass cannot advance ours to theirs. */
  ghost predicate FetchDiverges(w: World, u: Store, rules: Rules, n: Name, ours: Option<Id>, theirs: Option<Id>)
    requires w.Valid() && Intact(w, u)
  {
    && theirs.Some? && ours.Some? && rules.replicated(n) && rules.validName(n) && rules.validId(theirs.value)
    && AfterFetch(w, u, rules, n, ours, theirs) != theirs
  }

  /** The names `done` have been dealt with: their refs are as AfterFetch says and the report names them. */
  ghost predicate FetchedOn(w: World, u: Store, rules: Rules, before: RefMap, theirs: RefMap, after: RefMap,
                            done: iset<Name>, updated: seq<Name>, diverged: seq<Name>)
    requires w.Valid() && Intact(w, u)
  {
    && (forall n :: Current(after, n) ==
          if n in done then AfterFetch(w, u, rules, n, Current(before, n), Current(theirs, n)) else Current(before, n))
    && NoDuplicates(updated) && NoDuplicates(diverged)
    && (forall n :: n in updated <==>
          n in done && AfterFetch(w, u, rules, n, Current(before, n), Current(theirs, n)) != Current(before, n))
    && (forall n :: n in diverged <==> n in done && FetchDiverges(w, u, rules, n, Current(before, n), Current(theirs, n)))
  }

  /** Refused: advertised under a replicating name that is malformed, or with a malformed id. */
  ghost predicate FetchRefuses(rules: Rules, theirs: RefMap, n: Name) {
    n in theirs && IsRefused(rules, Advert(n, theirs[n]))
  }

  /** What the fetch pass leaves, for every name there is. */
  ghost predicate Fetched(w: World, u: Store, rules: Rules, before: RefMap, theirs: RefMap, after: RefMap, rep: RefReport)
    requires w.Valid() && Intact(w, u)
  {
    && (forall n :: Current(after, n) == AfterFetch(w, u, rules, n, Current(before, n), Current(theirs, n)))
    && Ascending(Less, rep.updated) && Ascending(Less, rep.diverged) && Ascending(Less, rep.refused)
    && (forall n :: n in rep.refused <==> FetchRefuses(rules, theirs, n))
    && (forall n :: n in rep.updated <==> Current(after, n) != Current(before, n))
    && (forall n :: n in rep.diverged <==> FetchDiverges(w, u, rules, n, Current(before, n), Current(theirs, n)))
  }

  lemma FetchedStep(w: World, u: Store, rules: Rules, before: RefMap, theirs: RefMap, refs: RefMap, refs': RefMap,
                    done: iset<Name>, updated: seq<Name>, diverged: seq<Name>, n: Name)
    requires w.Valid() && Intact(w, u) && FetchedOn(w, u, rules, before, theirs, refs, done, updated, diverged) && n !in done
    requires var v := AfterFetch(w, u, rules, n, Current(before, n), Current(theirs, n));
             Current(refs', n) == v && forall m :: m != n ==> Current(refs', m) == Current(refs, m)
    ensures var v := AfterFetch(w, u, rules, n, Current(before, n), Current(theirs, n));
            FetchedOn(w, u, rules, before, theirs, refs', done + iset{n},
                      if v != Current(before, n) then updated + [n] else updated,
                      if FetchDiverges(w, u, rules, n, Current(before, n), Current(theirs, n)) then diverged + [n] else diverged)
  {
    assert n !in updated && n !in diverged;
    NoDuplicatesAppend(updated, n);
    NoDuplicatesAppend(diverged, n);
  }

  /** One candidate: create the ref, report divergence, or advance it. */
  method ApplyCandidate(objs: ObjectStore, refs: RefStore, c: Candidate) returns (moved: bool)
    requires objs.Valid() && refs.rules.validName(c.name) && refs.rules.validId(c.their)
    requires Current(refs.refs, c.name) == c.local
    modifies refs
    ensures moved <==> c.local.None? || c.local.value in Reachable(objs.w, objs.objs, c.their)
    ensures refs.refs == if moved then old(refs.refs)[c.name := c.their] else old(refs.refs)
  {
    if c.local.Some? {
      var r := Reaches(objs, c.their, c.local.value);
      if !r { return false; }
    }
    moved := refs.CompareAndSwap(c.name, c.local, Some(c.their), BySync);
  }

  ghost function NamesOf(cands: seq<Candidate>): iset<Name> {
    iset c | c in cands :: c.name
  }

  lemma NamesStep(cands: seq<Candidate>, k: nat)
    requires k < |cands| && forall i, j :: 0 <= i < j < |cands| ==> cands[i].name != cands[j].name
    ensures cands[k] in cands && cands[k].name !in NamesOf(cands[..k])
    ensures NamesOf(cands[..k + 1]) == NamesOf(cands[..k]) + iset{cands[k].name}
  {
    assert cands[..k + 1] == cands[..k] + [cands[k]];
  }

  method ApplyCandidates(objs: ObjectStore, refs: RefStore, cands: seq<Candidate>, ghost theirs: RefMap)
    returns (updated: seq<Name>, diverged: seq<Name>)
    requires objs.Valid()
    requires forall i, j :: 0 <= i < j < |cands| ==> cands[i].name != cands[j].name
    requires forall c :: c in cands ==> refs.rules.replicated(c.name) && refs.rules.validName(c.name) && refs.rules.validId(c.their)
                                        && Current(theirs, c.name) == Some(c.their) && Current(refs.refs, c.name) == c.local != Some(c.their)
    modifies refs
    ensures FetchedOn(objs.w, objs.objs, refs.rules, old(refs.refs), theirs, refs.refs, NamesOf(cands), updated, diverged)
  {
    updated, diverged := [], [];
    for k := 0 to |cands|
      invariant FetchedOn(objs.w, objs.objs, refs.rules, old(refs.refs), theirs, refs.refs, NamesOf(cands[..k]), updated, diverged)
    {
      var c := cands[k];
      ghost var before, done := refs.refs, NamesOf(cands[..k]);
      NamesStep(cands, k);
      assert Current(refs.refs, c.name) == c.local;
      var moved := ApplyCandidate(objs, refs, c);
      FetchedStep(objs.w, objs.objs, refs.rules, old(refs.refs), theirs, before, refs.refs, done, updated, diverged, c.name);
      if moved {
        updated := updated + [c.name];
      } else {
        diverged := diverged + [c.name];
      }
    }
    assert cands[..|cands|] == cands;
  }

  lemma SortKeeps(s: seq<Name>)
    requires NoDuplicates(s)
    ensures Ascending(Less, Sort(Less, s)) && forall n :: n in Sort(Less, s) <==> n in s
  {
    SortAscendingBytes(s);
    forall n ensures n in Sort(Less, s) <==> n in s { assert n in Elements(s) <==> n in Elements(Sort(Less, s)); }
  }

  lemma FetchedAll(w: World, u: Store, rules: Rules, before: RefMap, theirs: RefMap, after: RefMap,
                   done: iset<Name>, updated: seq<Name>, diverged: seq<Name>, refused: seq<Name>)
    requires w.Valid() && Intact(w, u) && FetchedOn(w, u, rules, before, theirs, after, done, updated, diverged)
    requires forall n :: n !in done ==>
               AfterFetch(w, u, rules, n, Current(before, n), Current(theirs, n)) == Current(before, n)
               && !FetchDiverges(w, u, rules, n, Current(before, n), Current(theirs, n))
    requires NoDuplicates(refused) && forall n :: n in refused <==> FetchRefuses(rules, theirs, n)
    ensures Fetched(w, u, rules, before, theirs, after, RefReport(Sort(Less, updated), Sort(Less, diverged), Sort(Less, refused)))
  {
    SortKeeps(updated);
    SortKeeps(diverged);
    SortKeeps(refused);
  }

  lemma RefusedNames(rules: Rules, theirs: RefMap, adv: seq<Advert>, refused: seq<Name>)
    requires Lists(theirs, adv) && RefusedIn(rules, adv, refused)
    ensures forall n :: n in refused <==> FetchRefuses(rules, theirs, n)
  {
    forall n ensures n in refused <==> FetchRefuses(rules, theirs, n) {
      if n in theirs { assert Advert(n, theirs[n]) in adv; }
    }
  }

  /** A ref that is no candidate is settled already. */
  lemma NonCandidate(w: World, u: Store, rules: Rules, lrefs: RefMap, theirs: RefMap, adv: seq<Advert>,
                     cands: seq<Candidate>, want: seq<Id>, have: seq<Id>, n: Name)
    requires w.Valid() && Intact(w, u) && Lists(theirs, adv)
    requires Selected(rules, lrefs, adv, cands, want, have)
    requires forall c :: c in cands ==> c.name != n
    ensures AfterFetch(w, u, rules, n, Current(lrefs, n), Current(theirs, n)) == Current(lrefs, n)
    ensures !FetchDiverges(w, u, rules, n, Current(lrefs, n), Current(theirs, n))
    ensures n in theirs && rules.replicated(n) && rules.validName(n) && rules.validId(theirs[n]) ==> Current(lrefs, n) == Current(theirs, n)
  {
    if n in theirs {
      var c := Candidate(n, Current(lrefs, n), theirs[n]);
      assert c in cands <==> Advert(n, theirs[n]) in adv && IsCandidate(rules, lrefs, Advert(n, theirs[n]));
    }
  }

  /** Every replicating ref names a complete closure. */
  ghost predicate CompleteRefs(w: World, objs: Store, rules: Rules, refs: RefMap)
    requires w.Valid() && Intact(w, objs)
  {
    forall n :: n in refs && rules.replicated(n) && rules.validName(n) ==> Complete(w, objs, refs[n])
  }

  /** So does every well-formed advert, whatever else is advertised. */
  ghost predicate CompleteAdverts(w: World, objs: Store, rules: Rules, theirs: RefMap)
    requires w.Valid() && Intact(w, objs)
  {
    forall n :: n in theirs && rules.replicated(n) && rules.validName(n) && rules.validId(theirs[n]) ==> Complete(w, objs, theirs[n])
  }

  lemma CompleteRefsGrow(w: World, s: Store, t: Store, rules: Rules, refs: RefMap)
    requires w.Valid() && Intact(w, s) && Intact(w, t) && Grows(s, t) && CompleteRefs(w, s, rules, refs)
    ensures CompleteRefs(w, t, rules, refs)
  {
    forall n | n in refs && rules.replicated(n) && rules.validName(n) ensures Complete(w, t, refs[n]) {
      CompleteGrows(w, s, t, refs[n]);
    }
  }

  /** What the transfer is asked for is complete at the peer, what we claim to have is complete here. */
  lemma SelectedComplete(w: World, l: Store, r: Store, rules: Rules, lrefs: RefMap, theirs: RefMap, adv: seq<Advert>,
                         cands: seq<Candidate>, want: seq<Id>, have: seq<Id>)
    requires w.Valid() && Intact(w, l) && Intact(w, r) && Lists(theirs, adv)
    requires Selected(rules, lrefs, adv, cands, want, have)
    ensures CompleteAdverts(w, r, rules, theirs) ==> HoldsAll(w, r, want)
    ensures CompleteRefs(w, l, rules, lrefs) ==> HoldsAll(w, l, have)
  {
    if CompleteAdverts(w, r, rules, theirs) {
      forall x | x in want ensures Complete(w, r, x) {
        var c :| c in cands && c.their == x;
        assert Advert(c.name, c.their) in adv;
      }
    }
    if CompleteRefs(w, l, rules, lrefs) {
      forall x | x in have ensures Complete(w, l, x) {
        var c :| c in cands && c.local == Some(x);
        assert c.name in lrefs && lrefs[c.name] == x;
      }
    }
  }

  /** After the transfer both our refs and the well-formed adverts name closures we hold. */
  lemma FetchedComplete(w: World, u: Store, rules: Rules, lrefs: RefMap, theirs: RefMap, after: RefMap, adv: seq<Advert>,
                        cands: seq<Candidate>, want: seq<Id>, have: seq<Id>)
    requires w.Valid() && Intact(w, u) && Lists(theirs, adv)
    requires Selected(rules, lrefs, adv, cands, want, have)
    requires HoldsAll(w, u, want) && CompleteRefs(w, u, rules, lrefs)
    requires forall n :: Current(after, n) == AfterFetch(w, u, rules, n, Current(lrefs, n), Current(theirs, n))
    ensures CompleteAdverts(w, u, rules, theirs) && CompleteRefs(w, u, rules, after)
  {
    forall n | n in theirs && rules.replicated(n) && rules.validName(n) && rules.validId(theirs[n]) ensures Complete(w, u, theirs[n]) {
      if c :| c in cands && c.name == n {
        assert Advert(c.name, c.their) in adv && c.their == theirs[n];
      } else {
        NonCandidate(w, u, rules, lrefs, theirs, adv, cands, want, have, n);
        assert lrefs[n] == theirs[n];
      }
    }
    forall n | n in after && rules.replicated(n) && rules.validName(n) ensures Complete(w, u, after[n]) {
      assert Current(after, n) == AfterFetch(w, u, rules, n, Current(lrefs, n), Current(theirs, n));
    }
  }

  /** The transfer and the moves, once the candidates are known; None is a transfer failure. */
  method FetchAndApply(local: Peer, remote: Peer, ghost theirs: RefMap, ghost adv: seq<Advert>, cands: seq<Candidate>, want: seq<Id>, have: seq<Id>)
    returns (r: Option<(seq<Name>, seq<Name>)>)
    requires Paired(local, remote) && Lists(theirs, adv)
    requires Selected(local.refs.rules, local.refs.refs, adv, cands, want, have)
    requires forall i, j :: 0 <= i < j < |cands| ==> cands[i].name != cands[j].name
    modifies local.objs, local.refs
    ensures Paired(local, remote) && Grows(old(local.objs.objs), local.objs.objs)
    ensures r.Some? ==> HoldsAll(local.objs.w, local.objs.objs, want)
    ensures r.Some? ==> FetchedOn(local.objs.w, local.objs.objs, local.refs.rules, old(local.refs.refs), theirs, local.refs.refs,
                                  (iset c | c in cands :: c.name), r.value.0, r.value.1)
    ensures r.None? ==> local.refs.refs == old(local.refs.refs)
    ensures HoldsAll(remote.objs.w, remote.objs.objs, want) && HoldsAll(local.objs.w, old(local.objs.objs), have) ==> r.Some?
  {
    var ok := Fetch(local.objs, remote.objs, want, have);
    if !ok { return None; }
    forall c | c in cands ensures c.name in theirs && theirs[c.name] == c.their {
      assert Advert(c.name, c.their) in adv;
    }
    var updated, diverged := ApplyCandidates(local.objs, local.refs, cands, theirs);
    return Some((updated, diverged));
  }

  /**
    ReplicateRefsFetch, from whatever the peer answered to LISTREFS: `adv` may name refs it
    does not have and hold malformed names and ids, which are refused without stopping the
    rest. None is a transfer failure, and then no ref moved.
   */
  method ReplicateRefsFetch(local: Peer, remote: Peer, adv: seq<Advert>, ghost theirs: RefMap) returns (rep: Option<RefReport>)
    requires Paired(local, remote) && Lists(theirs, adv)
    modifies local.objs, local.refs
    ensures Paired(local, remote) && Grows(old(local.objs.objs), local.objs.objs)
    ensures rep.Some? ==> Fetched(local.objs.w, local.objs.objs, local.refs.rules, old(local.refs.refs), theirs, local.refs.refs, rep.value)
    ensures rep.None? ==> local.refs.refs == old(local.refs.refs)
    ensures CompleteAdverts(remote.objs.w, remote.objs.objs, local.refs.rules, theirs)
            && CompleteRefs(local.objs.w, old(local.objs.objs), local.refs.rules, old(local.refs.refs))
            ==> rep.Some? && CompleteRefs(local.objs.w, local.objs.objs, local.refs.rules, local.refs.refs)
                && CompleteAdverts(local.objs.w, local.objs.objs, local.refs.rules, theirs)
  {
    ghost var w, rules, l, lrefs := local.objs.w, local.refs.rules, local.objs.objs, local.refs.refs;
    var cands, want, have, refused := SelectCandidates(local.refs.rules, local.refs, adv);
    RefusedNames(rules, theirs, adv, refused);
    SelectedComplete(w, l, remote.objs.objs, rules, lrefs, theirs, adv, cands, want, have);
    var moved: Option<(seq<Name>, seq<Name>)> := Some(([], []));
    if |cands| > 0 {
      moved := FetchAndApply(local, remote, theirs, adv, cands, want, have);
      if moved.None? { return None; }
    }
    var names := iset c | c in cands :: c.name;
    forall n | n !in names
      ensures AfterFetch(w, local.objs.objs, rules, n, Current(lrefs, n), Current(theirs, n)) == Current(lrefs, n)
      ensures !FetchDiverges(w, local.objs.objs, rules, n, Current(lrefs, n), Current(theirs, n))
    {
      NonCandidate(w, local.objs.objs, rules, lrefs, theirs, adv, cands, want, have, n);
    }
    FetchedAll(w, local.objs.objs, rules, lrefs, theirs, local.refs.refs, names, moved.value.0, moved.value.1, refused);
    if CompleteRefs(w, l, rules, lrefs) {
      CompleteRefsGrow(w, l, local.objs.objs, rules, lrefs);
      FetchedComplete(w, local.objs.objs, rules, lrefs, theirs, local.refs.refs, adv, cands, want, have);
    }
    return Some(RefReport(Sort(Less, moved.value.0), Sort(Less, moved.value.1), Sort(Less, refused)));
  }

  // ----- the push pass -----

  /** A ref-update hook: it may veto. */
  type Hook = (Name, Option<Id>, Id) -> bool

  /** servePush: the closure check, the hook, the swap. */
  method ServePush(remote: Peer, hook: Hook, name: Name, expected: Option<Id>, tip: Id) returns (ok: bool)
    requires remote.objs.Valid()
    modifies remote.refs
    ensures ok <==> Complete(remote.objs.w, remote.objs.objs, tip) && hook(name, expected, tip)
                    && CanSwap(remote.refs.rules, old(remote.refs.refs), name, expected, Some(tip))
    ensures remote.refs.refs == if ok then old(remote.refs.refs)[name := tip] else old(remote.refs.refs)
  {
    var whole := HasClosure(remote.objs, tip);
    if !whole { return false; }
    if !hook(name, expected, tip) { return false; }
    ok := remote.refs.CompareAndSwap(name, expected, Some(tip), ByPush);
  }

  /** Client.Push: sends what the peer lacks of the tip's closure, then asks it to swap. */
  method Push(objs: ObjectStore, remote: Peer, hook: Hook, name: Name, expected: Option<Id>, tip: Id) returns (ok: bool)
    requires objs.Valid() && remote.objs.Valid() && objs.w == remote.objs.w && objs != remote.objs
    modifies remote.objs, remote.refs
    ensures remote.objs.Valid() && Grows(old(remote.objs.objs), remote.objs.objs)
    ensures remote.refs.refs == if ok then old(remote.refs.refs)[name := tip] else old(remote.refs.refs)
    ensures ok ==> Complete(remote.objs.w, remote.objs.objs, tip) && Current(old(remote.refs.refs), name) == expected
    ensures forall x :: x in remote.objs.objs && x !in old(remote.objs.objs) ==> Needed(objs.w, objs.objs, [tip], OptionIds(expected), x)
    ensures (Complete(objs.w, objs.objs, tip) && HoldsAll(remote.objs.w, old(remote.objs.objs), OptionIds(expected))
             && hook(name, expected, tip) && CanSwap(remote.refs.rules, old(remote.refs.refs), name, expected, Some(tip))) ==> ok
  {
    var have := OptionIds(expected);
    var prune := MarkAll(objs, have);
    var sent, done := SendMissing(objs, [tip], prune);
    if done && HoldsAll(remote.objs.w, remote.objs.objs, have) {
      TransferCompletes(objs.w, objs.objs, remote.objs.objs, [tip], have, sent);
      assert tip in [tip];
    }
    SentIsNeeded(objs.w, objs.objs, [tip], have, sent);
    Receive(remote.objs, objs.objs, sent);
    if !done { return false; }
    ok := ServePush(remote, hook, name, expected, tip);
  }

  /** Both sides hold the ref and the push pass cannot advance the peer's to ours. */
  ghost predicate PushDiverges(w: World, u: Store, rules: Rules, n: Name, ours: Option<Id>, theirs: Option<Id>)
    requires w.Valid() && Intact(w, u)
  {
    && theirs.Some? && ours.Some? && rules.replicated(n) && rules.validName(n)
    && AfterPush(w, u, rules, n, ours, theirs) != ours
  }

  /** The names `done` have been pushed or reported; the peer's other refs are as before. */
  ghost predicate PushedOn(w: World, u: Store, rules: Rules, ours: RefMap, before: RefMap, after: RefMap,
                           done: set<Name>, updated: seq<Name>, diverged: seq<Name>)
    requires w.Valid() && Intact(w, u)
  {
    && (forall n :: Current(after, n) ==
          if n in done then AfterPush(w, u, rules, n, Current(ours, n), Current(before, n)) else Current(before, n))
    && NoDuplicates(updated) && NoDuplicates(diverged)
    && (forall n :: n in updated <==>
          n in done && AfterPush(w, u, rules, n, Current(ours, n), Current(before, n)) != Current(before, n))
    && (forall n :: n in diverged <==> n in done && PushDiverges(w, u, rules, n, Current(ours, n), Current(before, n)))
  }

  lemma PushedStep(w: World, u: Store, rules: Rules, ours: RefMap, before: RefMap, refs: RefMap, refs': RefMap,
                   done: set<Name>, updated: seq<Name>, diverged: seq<Name>, n: Name)
    requires w.Valid() && Intact(w, u) && PushedOn(w, u, rules, ours, before, refs, done, updated, diverged) && n !in done
    requires var v := AfterPush(w, u, rules, n, Current(ours, n), Current(before, n));
             Current(refs', n) == v && forall m :: m != n ==> Current(refs', m) == Current(refs, m)
    ensures var v := AfterPush(w, u, rules, n, Current(ours, n), Current(before, n));
            PushedOn(w, u, rules, ours, before, refs', done + {n},
                     if v != Current(before, n) then updated + [n] else updated,
                     if PushDiverges(w, u, rules, n, Current(ours, n), Current(before, n)) then diverged + [n] else diverged)
  {
    assert n !in updated && n !in diverged;
    NoDuplicatesAppend(updated, n);
    NoDuplicatesAppend(diverged, n);
  }

  datatype Pushed = Skipped | Advanced | Diverged | Refused | PushFailed

  /** The body of the loop for one local ref; `theirs` is what the peer advertised for it. */
  method PushRef(local: Peer, remote: Peer, hook: Hook, name: Name, theirs: Option<Id>) returns (r: Pushed)
    requires Paired(local, remote) && name in local.refs.refs
    requires local.refs.rules.validName(name) ==> Current(remote.refs.refs, name) == theirs
    modifies remote.objs, remote.refs
    ensures Paired(local, remote) && Grows(old(remote.objs.objs), remote.objs.objs)
    ensures forall m :: m != name ==> Current(remote.refs.refs, m) == Current(old(remote.refs.refs), m)
    ensures var rules, ours, before := local.refs.rules, Current(local.refs.refs, name), Current(old(remote.refs.refs), name);
            var v := AfterPush(local.objs.w, local.objs.objs, rules, name, ours, before);
            && Current(remote.refs.refs, name) == (if r.PushFailed? then before else v)
            && (r.Advanced? ==> v == ours != before && Complete(remote.objs.w, remote.objs.objs, local.refs.refs[name]))
            && (r.Skipped? || r.Diverged? || r.Refused? ==> v == before)
            && (r.Diverged? <==> PushDiverges(local.objs.w, local.objs.objs, rules, name, ours, before))
            && (r.Refused? <==> rules.replicated(name) && !rules.validName(name))
            && (r.PushFailed? ==> rules.replicated(name) && rules.validName(name))
    ensures (Complete(local.objs.w, local.objs.objs, local.refs.refs[name])
             && HoldsAll(remote.objs.w, old(remote.objs.objs), OptionIds(theirs))
             && hook(name, theirs, local.refs.refs[name]) && local.refs.rules.validId(local.refs.refs[name])) ==> !r.PushFailed?
  {
    if !local.refs.rules.replicated(name) { return Skipped; }
    if !local.refs.rules.validName(name) { return Refused; }
    var tip := local.refs.refs[name];
    if theirs == Some(tip) { return Skipped; }
    if theirs.Some? {
      var ahead := Reaches(local.objs, tip, theirs.value);
      if !ahead { return Diverged; }
    }
    var ok := Push(local.objs, remote, hook, name, theirs, tip);
    return if ok then Advanced else PushFailed;
  }

  /** The refs the peer advertised, by name. */
  method Theirs(adv: seq<Advert>, ghost listed: RefMap) returns (theirs: RefMap)
    requires Lists(listed, adv)
    ensures theirs == listed
  {
    theirs := map[];
    for k := 0 to |adv|
      invariant forall n :: n in theirs ==> n in listed && theirs[n] == listed[n]
      invariant forall i :: 0 <= i < k ==> adv[i].name in theirs
    {
      assert adv[k] in adv;
      theirs := theirs[adv[k].name := adv[k].id];
    }
    forall n | n in listed ensures n in theirs {
      var a := Advert(n, listed[n]);
      assert a in adv;
      var i :| 0 <= i < |adv| && adv[i] == a;
    }
  }

  method SortedNames(refs: RefMap) returns (names: seq<Name>)
    ensures Ascending(Less, names) && forall n :: n in names <==> n in refs
  {
    names := [];
    var todo := refs.Keys;
    while todo != {}
      invariant todo <= refs.Keys && NoDuplicates(names)
      invariant forall n :: n in names <==> n in refs.Keys - todo
    {
      var n :| n in todo;
      NoDuplicatesAppend(names, n);
      names := names + [n];
      todo := todo - {n};
    }
    SortKeeps(names);
    names := Sort(Less, names);
  }

  /** What the push pass leaves, for every name there is. */
  ghost predicate PushedAll(w: World, u: Store, rules: Rules, ours: RefMap, before: RefMap, after: RefMap, rep: RefReport)
    requires w.Valid() && Intact(w, u)
  {
    && (forall n :: Current(after, n) == AfterPush(w, u, rules, n, Current(ours, n), Current(before, n)))
    && Ascending(Less, rep.updated) && Ascending(Less, rep.diverged) && Ascending(Less, rep.refused)
    && (forall n :: n in rep.refused <==> n in ours && rules.replicated(n) && !rules.validName(n))
    && (forall n :: n in rep.updated <==> Current(after, n) != Current(before, n))
    && (forall n :: n in rep.diverged <==> PushDiverges(w, u, rules, n, Current(ours, n), Current(before, n)))
  }

  /** What a push pass leaves that failed at `stop`: our refs before that name pushed, all others as they were. */
  ghost predicate PushedUntil(w: World, u: Store, rules: Rules, ours: RefMap, before: RefMap, after: RefMap, stop: Name)
    requires w.Valid() && Intact(w, u)
  {
    && stop in ours && rules.replicated(stop) && rules.validName(stop)
    && (forall n :: Current(after, n) ==
          if n in ours && Less(n, stop) then AfterPush(w, u, rules, n, Current(ours, n), Current(before, n)) else Current(before, n))
  }

  /** Nothing stands in the way of a push: complete closures on both sides, well-formed ids, no veto. */
  ghost predicate Unhindered(w: World, l: Store, r: Store, rules: Rules, lrefs: RefMap, rrefs: RefMap, hook: Hook)
    requires w.Valid() && Intact(w, l) && Intact(w, r)
  {
    && CompleteRefs(w, l, rules, lrefs) && CompleteRefs(w, r, rules, rrefs) && IdsValid(rules, lrefs)
    && (forall n, e, t :: hook(n, e, t))
  }

  lemma PushKeepsComplete(w: World, r: Store, r': Store, rules: Rules, refs: RefMap, refs': RefMap, n: Name)
    requires w.Valid() && Intact(w, r) && Intact(w, r') && Grows(r, r') && CompleteRefs(w, r, rules, refs)
    requires forall m :: m != n ==> Current(refs', m) == Current(refs, m)
    requires Current(refs', n) == Current(refs, n) || (n in refs' && Complete(w, r', refs'[n]))
    ensures CompleteRefs(w, r', rules, refs')
  {
    CompleteRefsGrow(w, r, r', rules, refs);
    forall m | m in refs' && rules.replicated(m) && rules.validName(m) ensures Complete(w, r', refs'[m]) {
      if m != n { assert Current(refs', m) == Current(refs, m); }
    }
  }

  /** ReplicateRefsPush: None is a failed push; what was pushed before it stays pushed. */
  method ReplicateRefsPush(local: Peer, remote: Peer, hook: Hook) returns (rep: Option<RefReport>)
    requires Paired(local, remote)
    modifies remote.objs, remote.refs
    ensures Paired(local, remote) && Grows(old(remote.objs.objs), remote.objs.objs)
    ensures rep.Some? ==> PushedAll(local.objs.w, local.objs.objs, local.refs.rules, local.refs.refs, old(remote.refs.refs), remote.refs.refs, rep.value)
    ensures rep.None? ==> exists stop :: PushedUntil(local.objs.w, local.objs.objs, local.refs.rules, local.refs.refs, old(remote.refs.refs), remote.refs.refs, stop)
    ensures Unhindered(local.objs.w, local.objs.objs, old(remote.objs.objs), local.refs.rules, local.refs.refs, old(remote.refs.refs), hook)
            ==> rep.Some? && CompleteRefs(remote.objs.w, remote.objs.objs, local.refs.rules, remote.refs.refs)
  {
    var adv := ListRefs(remote);
    var theirs := Theirs(adv, Advertised(remote.refs.rules, remote.refs.refs));
    var names := SortedNames(local.refs.refs);
    rep := PushNames(local, remote, hook, names, theirs);
  }

  /** The names among `done` that a push pass refuses to use. */
  ghost predicate PushRefused(rules: Rules, done: set<Name>, refused: seq<Name>) {
    NoDuplicates(refused) && forall n :: n in refused <==> n in done && rules.replicated(n) && !rules.validName(n)
  }

  lemma PushRefusedStep(rules: Rules, done: set<Name>, refused: seq<Name>, n: Name)
    requires PushRefused(rules, done, refused) && n !in done
    ensures PushRefused(rules, done + {n}, if rules.replicated(n) && !rules.validName(n) then refused + [n] else refused)
  {
    assert n !in refused;
    NoDuplicatesAppend(refused, n);
  }

  /** The loop over the local refs. */
  method PushNames(local: Peer, remote: Peer, hook: Hook, names: seq<Name>, theirs: RefMap) returns (rep: Option<RefReport>)
    requires Paired(local, remote) && Ascending(Less, names) && forall n :: n in names <==> n in local.refs.refs
    requires forall n :: Current(theirs, n) == if remote.refs.rules.validName(n) then Current(remote.refs.refs, n) else None
    modifies remote.objs, remote.refs
    ensures Paired(local, remote) && Grows(old(remote.objs.objs), remote.objs.objs)
    ensures rep.Some? ==> PushedAll(local.objs.w, local.objs.objs, local.refs.rules, local.refs.refs, old(remote.refs.refs), remote.refs.refs, rep.value)
    ensures rep.None? ==> exists stop :: PushedUntil(local.objs.w, local.objs.objs, local.refs.rules, local.refs.refs, old(remote.refs.refs), remote.refs.refs, stop)
    ensures Unhindered(local.objs.w, local.objs.objs, old(remote.objs.objs), local.refs.rules, local.refs.refs, old(remote.refs.refs), hook)
            ==> rep.Some? && CompleteRefs(remote.objs.w, remote.objs.objs, local.refs.rules, remote.refs.refs)
  {
    ghost var w, u, rules, ours, before := local.objs.w, local.objs.objs, local.refs.rules, local.refs.refs, remote.refs.refs;
    ghost var free := Unhindered(w, u, remote.objs.objs, rules, ours, before, hook);
    LessIsStrictTotal();
    AscendingNoDuplicates(Less, names);
    var updated: seq<Name>, diverged: seq<Name>, refused: seq<Name> := [], [], [];
    for k := 0 to |names|
      invariant Paired(local, remote) && Grows(old(remote.objs.objs), remote.objs.objs)
      invariant PushedOn(w, u, rules, ours, before, remote.refs.refs, Elements(names[..k]), updated, diverged)
      invariant PushRefused(rules, Elements(names[..k]), refused)
      invariant free ==> CompleteRefs(w, remote.objs.objs, rules, remote.refs.refs)
    {
      var n := names[k];
      assert n in names && n !in Elements(names[..k]);
      ghost var r, refs := remote.objs.objs, remote.refs.refs;
      var out := PushRef(local, remote, hook, n, if n in theirs then Some(theirs[n]) else None);
      if out.PushFailed? {
        assert !free by { if free { FreePush(w, u, r, rules, ours, refs, theirs, hook, n); } }
        StoppedAt(w, u, rules, ours, before, refs, remote.refs.refs, names, k, updated, diverged);
        return None;
      }
      PushedStep(w, u, rules, ours, before, refs, remote.refs.refs, Elements(names[..k]), updated, diverged, n);
      if free { PushKeepsComplete(w, r, remote.objs.objs, rules, refs, remote.refs.refs, n); }
      if out.Advanced? { updated := updated + [n]; }
      if out.Diverged? { diverged := diverged + [n]; }
      PushRefusedStep(rules, Elements(names[..k]), refused, n);
      if out.Refused? { refused := refused + [n]; }
      ElementsPrefix(names, k);
    }
    assert names[..|names|] == names;
    PushedEverywhere(w, u, rules, ours, before, remote.refs.refs, names, updated, diverged, refused);
    return Some(RefReport(Sort(Less, updated), Sort(Less, diverged), Sort(Less, refused)));
  }

  /** Every local ref dealt with: what holds for the names done holds for all names. */
  lemma PushedEachName(w: World, u: Store, rules: Rules, ours: RefMap, before: RefMap, after: RefMap,
                       done: set<Name>, updated: seq<Name>, diverged: seq<Name>, n: Name)
    requires w.Valid() && Intact(w, u) && (n in done <==> n in ours)
    requires PushedOn(w, u, rules, ours, before, after, done, updated, diverged)
    ensures Current(after, n) == AfterPush(w, u, rules, n, Current(ours, n), Current(before, n))
    ensures n in updated <==> Current(after, n) != Current(before, n)
    ensures n in diverged <==> PushDiverges(w, u, rules, n, Current(ours, n), Current(before, n))
  {
  }

  lemma PushedEverywhere(w: World, u: Store, rules: Rules, ours: RefMap, before: RefMap, after: RefMap,
                         names: seq<Name>, updated: seq<Name>, diverged: seq<Name>, refused: seq<Name>)
    requires w.Valid() && Intact(w, u) && forall n :: n in names <==> n in ours
    requires PushedOn(w, u, rules, ours, before, after, Elements(names), updated, diverged) && PushRefused(rules, Elements(names), refused)
    ensures PushedAll(w, u, rules, ours, before, after, RefReport(Sort(Less, updated), Sort(Less, diverged), Sort(Less, refused)))
  {
    SortKeeps(updated);
    SortKeeps(diverged);
    SortKeeps(refused);
    forall n
      ensures Current(after, n) == AfterPush(w, u, rules, n, Current(ours, n), Current(before, n))
      ensures n in Sort(Less, updated) <==> Current(after, n) != Current(before, n)
      ensures n in Sort(Less, diverged) <==> PushDiverges(w, u, rules, n, Current(ours, n), Current(before, n))
      ensures n in Sort(Less, refused) <==> n in ours && rules.replicated(n) && !rules.validName(n)
    {
      assert n in Elements(names) <==> n in names;
      PushedEachName(w, u, rules, ours, before, after, Elements(names), updated, diverged, n);
    }
  }

  lemma BeforeIn(names: seq<Name>, i: nat, k: nat)
    requires Ascending(Less, names) && i < |names| && k < |names|
    ensures Less(names[i], names[k]) <==> i < k
  {
    LessIsStrictTotal();
  }

  /** A push that fails at the k-th name leaves the names before it pushed and nothing else. */
  lemma StoppedAt(w: World, u: Store, rules: Rules, ours: RefMap, before: RefMap, refs: RefMap, after: RefMap,
                  names: seq<Name>, k: nat, updated: seq<Name>, diverged: seq<Name>)
    requires w.Valid() && Intact(w, u) && k < |names| && Ascending(Less, names) && forall n :: n in names <==> n in ours
    requires PushedOn(w, u, rules, ours, before, refs, Elements(names[..k]), updated, diverged)
    requires forall n :: Current(after, n) == Current(refs, n)
    requires rules.replicated(names[k]) && rules.validName(names[k])
    ensures PushedUntil(w, u, rules, ours, before, after, names[k])
  {
    forall n ensures n in Elements(names[..k]) <==> n in ours && Less(n, names[k]) {
      if n in names {
        var i :| 0 <= i < |names| && names[i] == n;
        BeforeIn(names, i, k);
        if i < k { assert names[..k][i] in names[..k]; }
        if n in names[..k] {
          var j :| 0 <= j < k && names[j] == n;
          BeforeIn(names, j, k);
        }
      }
    }
    assert names[k] in names;
  }

  lemma FreePush(w: World, u: Store, r: Store, rules: Rules, ours: RefMap, refs: RefMap, theirs: RefMap, hook: Hook, n: Name)
    requires w.Valid() && Intact(w, u) && Intact(w, r) && n in ours && rules.replicated(n) && rules.validName(n)
    requires CompleteRefs(w, u, rules, ours) && IdsValid(rules, ours) && (forall n, e, t :: hook(n, e, t))
    requires CompleteRefs(w, r, rules, refs) && Current(theirs, n) == Current(refs, n)
    ensures Complete(w, u, ours[n]) && rules.validId(ours[n]) && HoldsAll(w, r, OptionIds(Current(theirs, n)))
    ensures hook(n, Current(theirs, n), ours[n])
  {
  }

  // ----- convergence -----

  /** After both passes a ref is equal on both sides, or untouched on both and neither value extends the other. */
  ghost predicate ConvergedAt(w: World, u: Store, ours: Option<Id>, theirs: Option<Id>, ours': Option<Id>, theirs': Option<Id>)
    requires w.Valid() && Intact(w, u)
  {
    || ours' == theirs'
    || (&& ours' == ours && theirs' == theirs && ours.Some? && theirs.Some?
        && Complete(w, u, ours.value) && Complete(w, u, theirs.value)
        && ours.value !in Reachable(w, u, theirs.value) && theirs.value !in Reachable(w, u, ours.value))
  }

  /** Every replicating ref with a well-formed name has converged. */
  ghost predicate Converged(w: World, u: Store, rules: Rules, ours: RefMap, theirs: RefMap, ours': RefMap, theirs': RefMap)
    requires w.Valid() && Intact(w, u)
  {
    && (forall n :: rules.replicated(n) && rules.validName(n) ==>
          ConvergedAt(w, u, Current(ours, n), Current(theirs, n), Current(ours', n), Current(theirs', n)))
    && (forall n :: !(rules.replicated(n) && rules.validName(n)) ==>
          Current(ours', n) == Current(ours, n) && Current(theirs', n) == Current(theirs, n))
  }

  lemma PassesConverge(w: World, u: Store, rules: Rules, ours: RefMap, theirs: RefMap, ours': RefMap, theirs': RefMap)
    requires w.Valid() && Intact(w, u)
    requires IdsValid(rules, theirs)
    requires forall n :: Current(ours', n) == AfterFetch(w, u, rules, n, Current(ours, n), Current(theirs, n))
    requires forall n :: Current(theirs', n) == AfterPush(w, u, rules, n, Current(ours', n), Current(theirs, n))
    requires CompleteRefs(w, u, rules, ours') && CompleteRefs(w, u, rules, theirs)
    ensures Converged(w, u, rules, ours, theirs, ours', theirs')
    ensures ours.Keys <= ours'.Keys && theirs.Keys <= theirs'.Keys
  {
    forall n | rules.replicated(n) && rules.validName(n)
      ensures ConvergedAt(w, u, Current(ours, n), Current(theirs, n), Current(ours', n), Current(theirs', n))
    {
    }
    forall n | n in ours ensures n in ours' { assert Current(ours', n) != None; }
    forall n | n in theirs ensures n in theirs' { assert Current(theirs', n) != None; }
  }

  /** Once both passes have run, running them again, over any larger store, moves nothing. */
  lemma SecondPassMovesNothing(w: World, u: Store, v: Store, rules: Rules, ours: RefMap, theirs: RefMap, ours': RefMap, theirs': RefMap, n: Name)
    requires w.Valid() && Intact(w, u) && Intact(w, v) && Grows(u, v)
    requires Converged(w, u, rules, ours, theirs, ours', theirs')
    ensures AfterFetch(w, v, rules, n, Current(ours', n), Current(theirs', n)) == Current(ours', n)
    ensures AfterPush(w, v, rules, n, Current(ours', n), Current(theirs', n)) == Current(theirs', n)
  {
    var o, t := Current(ours', n), Current(theirs', n);
    if rules.replicated(n) && rules.validName(n) && o != t {
      assert ConvergedAt(w, u, Current(ours, n), Current(theirs, n), o, t);
      CompleteGrows(w, u, v, o.value);
      CompleteGrows(w, u, v, t.value);
    }
  }

  /** A fetch pass only ever moves a ref to a value that extends the old one, and drops none. */
  lemma FetchOnlyAdvances(w: World, u: Store, rules: Rules, before: RefMap, theirs: RefMap, after: RefMap, rep: RefReport, n: Name)
    requires w.Valid() && Intact(w, u) && Fetched(w, u, rules, before, theirs, after, rep)
    ensures n in before ==> n in after && (after[n] == before[n] || before[n] in Reachable(w, u, after[n]))
    ensures n in rep.updated ==> n in theirs && n in after && after[n] == theirs[n]
  {
    assert Current(after, n) == AfterFetch(w, u, rules, n, Current(before, n), Current(theirs, n));
  }

  /** The refs after a fetch pass and a push pass, each by its own rule; `u` is our store afterwards. */
  ghost predicate Synced(w: World, u: Store, rules: Rules, ours: RefMap, theirs: RefMap, ours': RefMap, theirs': RefMap)
    requires w.Valid() && Intact(w, u)
  {
    && (forall n :: Current(ours', n) == AfterFetch(w, u, rules, n, Current(ours, n), Current(theirs, n)))
    && (forall n :: Current(theirs', n) == AfterPush(w, u, rules, n, Current(ours', n), Current(theirs, n)))
  }

  /** A fetch pass and then a push pass, with no writer in between and no veto. */
  method SyncPeers(local: Peer, remote: Peer, hook: Hook) returns (ok: bool)
    requires Paired(local, remote)
    requires IdsValid(local.refs.rules, local.refs.refs) && IdsValid(remote.refs.rules, remote.refs.refs)
    requires CompleteRefs(local.objs.w, local.objs.objs, local.refs.rules, local.refs.refs)
    requires CompleteRefs(remote.objs.w, remote.objs.objs, remote.refs.rules, remote.refs.refs)
    requires forall n, e, t :: hook(n, e, t)
    modifies local.objs, local.refs, remote.objs, remote.refs
    ensures Paired(local, remote) && ok
    ensures Grows(old(local.objs.objs), local.objs.objs) && Grows(old(remote.objs.objs), remote.objs.objs)
    ensures Converged(local.objs.w, local.objs.objs, local.refs.rules,
                      old(local.refs.refs), old(remote.refs.refs), local.refs.refs, remote.refs.refs)
    ensures Synced(local.objs.w, local.objs.objs, local.refs.rules,
                   old(local.refs.refs), old(remote.refs.refs), local.refs.refs, remote.refs.refs)
    ensures old(local.refs.refs).Keys <= local.refs.refs.Keys && old(remote.refs.refs).Keys <= remote.refs.refs.Keys
    ensures IdsValid(local.refs.rules, local.refs.refs) && IdsValid(remote.refs.rules, remote.refs.refs)
    ensures CompleteRefs(local.objs.w, local.objs.objs, local.refs.rules, local.refs.refs)
    ensures CompleteRefs(remote.objs.w, remote.objs.objs, remote.refs.rules, remote.refs.refs)
  {
    ghost var w, rules, ours, theirs := local.objs.w, local.refs.rules, local.refs.refs, remote.refs.refs;
    var adv := ListRefs(remote);
    var fetched := ReplicateRefsFetch(local, remote, adv, Advertised(rules, theirs));
    if fetched.None? { return false; }
    FetchedHonestly(w, local.objs.objs, rules, ours, theirs, local.refs.refs);
    var pushed := ReplicateRefsPush(local, remote, hook);
    if pushed.None? { return false; }
    PassesConverge(w, local.objs.objs, rules, ours, theirs, local.refs.refs, remote.refs.refs);
    PushedIdsValid(w, local.objs.objs, rules, local.refs.refs, theirs, remote.refs.refs);
    return true;
  }

  lemma PushedIdsValid(w: World, u: Store, rules: Rules, ours: RefMap, theirs: RefMap, after: RefMap)
    requires w.Valid() && Intact(w, u) && IdsValid(rules, ours) && IdsValid(rules, theirs)
    requires forall n :: Current(after, n) == AfterPush(w, u, rules, n, Current(ours, n), Current(theirs, n))
    ensures IdsValid(rules, after)
  {
    forall n | n in after ensures rules.validId(after[n]) {
      assert Current(after, n) == Current(ours, n) || Current(after, n) == Current(theirs, n);
    }
  }

  lemma SyncRests(w: World, u: Store, v: Store, rules: Rules, ours: RefMap, theirs: RefMap,
                  ours': RefMap, theirs': RefMap, ours'': RefMap, theirs'': RefMap)
    requires w.Valid() && Intact(w, u) && Intact(w, v) && Grows(u, v)
    requires Converged(w, u, rules, ours, theirs, ours', theirs') && Synced(w, v, rules, ours', theirs', ours'', theirs'')
    ensures ours'' == ours' && theirs'' == theirs'
  {
    forall n ensures Current(ours'', n) == Current(ours', n) && Current(theirs'', n) == Current(theirs', n) {
      SecondPassMovesNothing(w, u, v, rules, ours, theirs, ours', theirs', n);
      assert Current(ours'', n) == AfterFetch(w, v, rules, n, Current(ours', n), Current(theirs', n));
    }
    SameRefs(ours', ours'');
    SameRefs(theirs', theirs'');
  }

  lemma SameRefs(x: RefMap, y: RefMap)
    requires forall n :: Current(x, n) == Current(y, n)
    ensures x == y
  {
    forall n ensures (n in x <==> n in y) && (n in x ==> x[n] == y[n]) { assert Current(x, n) == Current(y, n); }
  }

  /** Syncing twice in a row: the second time no ref moves on either side. */
  method SyncTwice(local: Peer, remote: Peer, hook: Hook) returns (ours: RefMap, theirs: RefMap)
    requires Paired(local, remote)
    requires IdsValid(local.refs.rules, local.refs.refs) && IdsValid(remote.refs.rules, remote.refs.refs)
    requires CompleteRefs(local.objs.w, local.objs.objs, local.refs.rules, local.refs.refs)
    requires CompleteRefs(remote.objs.w, remote.objs.objs, remote.refs.rules, remote.refs.refs)
    requires forall n, e, t :: hook(n, e, t)
    modifies local.objs, local.refs, remote.objs, remote.refs
    ensures Paired(local, remote)
    ensures Converged(local.objs.w, local.objs.objs, local.refs.rules, old(local.refs.refs), old(remote.refs.refs), ours, theirs)
    ensures local.refs.refs == ours && remote.refs.refs == theirs
  {
    ghost var w, rules, ours0, theirs0 := local.objs.w, local.refs.rules, local.refs.refs, remote.refs.refs;
    var _ := SyncPeers(local, remote, hook);
    ours, theirs := local.refs.refs, remote.refs.refs;
    ghost var u := local.objs.objs;
    var _ := SyncPeers(local, remote, hook);
    SyncRests(w, u, local.objs.objs, rules, ours0, theirs0, ours, theirs, local.refs.refs, remote.refs.refs);
    ConvergedGrows(w, u, local.objs.objs, rules, ours0, theirs0, ours, theirs);
  }

  lemma ConvergedGrows(w: World, u: Store, v: Store, rules: Rules, ours: RefMap, theirs: RefMap, ours': RefMap, theirs': RefMap)
    requires w.Valid() && Intact(w, u) && Intact(w, v) && Grows(u, v) && Converged(w, u, rules, ours, theirs, ours', theirs')
    ensures Converged(w, v, rules, ours, theirs, ours', theirs')
  {
    forall n | rules.replicated(n) && rules.validName(n)
      ensures ConvergedAt(w, v, Current(ours, n), Current(theirs, n), Current(ours', n), Current(theirs', n))
    {
      var o, t := Current(ours', n), Current(theirs', n);
      assert ConvergedAt(w, u, Current(ours, n), Current(theirs, n), o, t);
      if o != t {
        CompleteGrows(w, u, v, o.value);
        CompleteGrows(w, u, v, t.value);
      }
    }
  }

  /** From an honest listing, the pass follows the peer's refs themselves and keeps ids well formed. */
  lemma FetchedHonestly(w: World, u: Store, rules: Rules, ours: RefMap, theirs: RefMap, after: RefMap)
    requires w.Valid() && Intact(w, u) && IdsValid(rules, ours) && IdsValid(rules, theirs)
    requires forall n :: Current(after, n) == AfterFetch(w, u, rules, n, Current(ours, n), Current(Advertised(rules, theirs), n))
    ensures forall n :: Current(after, n) == AfterFetch(w, u, rules, n, Current(ours, n), Current(theirs, n))
    ensures IdsValid(rules, after)
    ensures CompleteAdverts(w, u, rules, Advertised(rules, theirs)) ==> CompleteRefs(w, u, rules, theirs)
  {
    forall n ensures Current(after, n) == AfterFetch(w, u, rules, n, Current(ours, n), Current(theirs, n)) {
      assert Current(after, n) == AfterFetch(w, u, rules, n, Current(ours, n), Current(Advertised(rules, theirs), n));
    }
    forall n | n in after ensures rules.validId(after[n]) {
      assert Current(after, n) == Current(ours, n) || Current(after, n) == Current(theirs, n);
    }
    if CompleteAdverts(w, u, rules, Advertised(rules, theirs)) {
      forall n | n in theirs && rules.replicated(n) && rules.validName(n) ensures Complete(w, u, theirs[n]) {
        assert n in Advertised(rules, theirs);
      }
    }
  }
}
