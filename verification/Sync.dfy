/**
  varvig/internal/p2p/p2p.go: the pruned reachability transfer, received by a peer that
  verifies every object and then checks the closures it asked for.
 */
module Sync {
  import opened Objects
  import opened Graph
  import opened Orders
  import opened Closure

  /** The prune set, marked in place. */
  class PruneSet {
    var ids: set<Id>

    constructor ()
      ensures ids == {}
    {
      ids := {};
    }
  }

  /** markClosure: an unreadable object is marked but not walked through. */
  method MarkClosure(objs: ObjectStore, id: Id, prune: PruneSet, ghost stack: set<Id>)
    requires objs.Valid() && PresentClosed(objs.objs, prune.ids, stack)
    modifies prune
    ensures Marked(objs.w, objs.objs, old(prune.ids), prune.ids, stack, id)
    decreases objs.w.rank(id), 1, 0
  {
    if id in prune.ids || id !in objs.objs { return; }
    prune.ids := prune.ids + {id};
    MarkLinks(objs, id, Children(objs.objs[id]), prune, stack + {id});
  }

  method MarkLinks(objs: ObjectStore, ghost id: Id, links: seq<Id>, prune: PruneSet, ghost stack: set<Id>)
    requires objs.Valid() && id in objs.objs && links == Children(objs.objs[id])
    requires PresentClosed(objs.objs, prune.ids, stack)
    modifies prune
    ensures old(prune.ids) <= prune.ids <= old(prune.ids) + Reachable(objs.w, objs.objs, id) * objs.objs.Keys
    ensures PresentClosed(objs.objs, prune.ids, stack)
    ensures forall l :: l in links && l in objs.objs ==> l in prune.ids
    decreases objs.w.rank(id), 0, 1
  {
    ghost var w, u, all := objs.w, objs.objs, Reachable(objs.w, objs.objs, id);
    StoreDescends(w, u);
    for k := 0 to |links|
      invariant old(prune.ids) <= prune.ids <= old(prune.ids) + all * u.Keys
      invariant PresentClosed(u, prune.ids, stack)
      invariant forall j :: 0 <= j < k && links[j] in u ==> links[j] in prune.ids
    {
      MarkLink(objs, id, links[k], prune, stack, all);
    }
  }

  method MarkLink(objs: ObjectStore, ghost id: Id, l: Id, prune: PruneSet, ghost stack: set<Id>, ghost all: set<Id>)
    requires objs.Valid() && id in objs.objs && l in Children(objs.objs[id]) && all == Reachable(objs.w, objs.objs, id)
    requires PresentClosed(objs.objs, prune.ids, stack)
    modifies prune
    ensures old(prune.ids) <= prune.ids <= old(prune.ids) + all * objs.objs.Keys
    ensures PresentClosed(objs.objs, prune.ids, stack)
    ensures l in objs.objs ==> l in prune.ids
    decreases objs.w.rank(id), 0, 0
  {
    StoreDescends(objs.w, objs.objs);
    ghost var g := StoreLinks(objs.objs);
    assert l in g[id];
    BelowLink(g, objs.w.rank, id, l);
    MarkClosure(objs, l, prune, stack);
  }

  /** Everything a store holds of the closures of `ids`. */
  ghost function Held(w: World, objs: Store, ids: seq<Id>): set<Id>
    requires w.Valid() && Intact(w, objs)
  {
    StoreDescends(w, objs);
    BelowAll(StoreLinks(objs), w.rank, ids) * objs.Keys
  }

  method MarkAll(objs: ObjectStore, ids: seq<Id>) returns (prune: set<Id>)
    requires objs.Valid()
    ensures prune == Held(objs.w, objs.objs, ids)
  {
    StoreDescends(objs.w, objs.objs);
    var marks := new PruneSet();
    for k := 0 to |ids|
      invariant marks.ids == Held(objs.w, objs.objs, ids[..k])
      invariant PresentClosed(objs.objs, marks.ids, {})
    {
      ghost var before := marks.ids;
      MarkClosure(objs, ids[k], marks, {});
      MarkedExactly(objs.w, objs.objs, before, marks.ids, ids[k]);
      BelowAllPrefix(StoreLinks(objs.objs), objs.w.rank, ids, k);
    }
    assert ids[..|ids|] == ids;
    return marks.ids;
  }

  // ----- the walk that sends -----

  /** `sent` and `prune` cover the wants and the links of everything sent. */
  ghost predicate Covers(objs: Store, want: seq<Id>, prune: set<Id>, sent: seq<Id>, queue: seq<Id>) {
    && (forall x :: x in want ==> x in sent || x in prune || x in queue)
    && (forall x, l :: x in sent && l in Out(StoreLinks(objs), x) ==> l in sent || l in prune || l in queue)
  }

  /** Every id of the list is reachable from a want. */
  ghost predicate Wanted(w: World, objs: Store, want: seq<Id>, ids: seq<Id>)
    requires w.Valid() && Intact(w, objs)
  {
    forall q :: q in ids ==> exists x :: x in want && q in Reachable(w, objs, x)
  }

  /** What a sender that finished has sent: each object once, readable, none pruned, nothing missing. */
  ghost predicate SentAll(objs: Store, want: seq<Id>, prune: set<Id>, sent: seq<Id>) {
    && NoDuplicates(sent)
    && (forall x :: x in sent ==> Sound(objs, x) && x !in prune)
    && Covers(objs, want, prune, sent, [])
  }

  /** The state of the walk. */
  ghost predicate Walking(w: World, objs: Store, want: seq<Id>, prune: set<Id>, sent: seq<Id>, queue: seq<Id>)
    requires w.Valid() && Intact(w, objs)
  {
    && NoDuplicates(sent)
    && (forall x :: x in sent ==> Sound(objs, x) && x !in prune)
    && Covers(objs, want, prune, sent, queue)
    && Wanted(w, objs, want, queue) && Wanted(w, objs, want, sent)
  }

  lemma WalkSkips(w: World, objs: Store, want: seq<Id>, prune: set<Id>, sent: seq<Id>, queue: seq<Id>, rest: seq<Id>, id: Id)
    requires w.Valid() && Intact(w, objs) && Walking(w, objs, want, prune, sent, queue)
    requires queue == rest + [id] && (id in prune || id in sent)
    ensures Walking(w, objs, want, prune, sent, rest)
  {
    assert forall q :: q in queue <==> q in rest || q == id;
  }

  lemma WalkSends(w: World, objs: Store, want: seq<Id>, prune: set<Id>, sent: seq<Id>, queue: seq<Id>, rest: seq<Id>, id: Id)
    requires w.Valid() && Intact(w, objs) && Walking(w, objs, want, prune, sent, queue)
    requires queue == rest + [id] && id !in prune && id !in sent && Sound(objs, id)
    ensures Walking(w, objs, want, prune, sent + [id], rest + Children(objs[id]))
    ensures |objs.Keys - Elements(sent + [id])| < |objs.Keys - Elements(sent)|
  {
    CoversSends(objs, want, prune, sent, queue, rest, id);
    SentShrinks(objs, sent, id);
    WantedLink(w, objs, want, queue, rest, id);
    assert id in queue;
    WantedSent(w, objs, want, queue, sent, id);
    SoundSends(objs, prune, sent, id);
  }

  lemma SoundSends(objs: Store, prune: set<Id>, sent: seq<Id>, id: Id)
    requires NoDuplicates(sent) && (forall x :: x in sent ==> Sound(objs, x) && x !in prune)
    requires Sound(objs, id) && id !in prune && id !in sent
    ensures NoDuplicates(sent + [id]) && forall x :: x in sent + [id] ==> Sound(objs, x) && x !in prune
  {
    NoDuplicatesAppend(sent, id);
  }

  lemma CoversSends(objs: Store, want: seq<Id>, prune: set<Id>, sent: seq<Id>, queue: seq<Id>, rest: seq<Id>, id: Id)
    requires Covers(objs, want, prune, sent, queue) && queue == rest + [id] && id in objs
    ensures Covers(objs, want, prune, sent + [id], rest + Children(objs[id]))
  {
    var sent', queue' := sent + [id], rest + Children(objs[id]);
    assert forall x :: x in sent' <==> x in sent || x == id;
    assert forall q :: q in queue <==> q in rest || q == id;
    assert forall q :: q in queue' <==> q in rest || q in Children(objs[id]);
    assert Out(StoreLinks(objs), id) == Children(objs[id]);
  }

  lemma WantedSent(w: World, objs: Store, want: seq<Id>, queue: seq<Id>, sent: seq<Id>, id: Id)
    requires w.Valid() && Intact(w, objs) && Wanted(w, objs, want, queue) && Wanted(w, objs, want, sent) && id in queue
    ensures Wanted(w, objs, want, sent + [id])
  {
  }

  lemma WantedLink(w: World, objs: Store, want: seq<Id>, queue: seq<Id>, rest: seq<Id>, id: Id)
    requires w.Valid() && Intact(w, objs) && Wanted(w, objs, want, queue) && id in objs && queue == rest + [id]
    ensures Wanted(w, objs, want, rest + Children(objs[id]))
  {
    StoreDescends(w, objs);
    assert id in queue;
    var x :| x in want && id in Reachable(w, objs, x);
    BelowClosed(StoreLinks(objs), w.rank, x);
    forall q | q in rest + Children(objs[id]) ensures exists y :: y in want && q in Reachable(w, objs, y) {
      if q in Children(objs[id]) {
        assert q in Out(StoreLinks(objs), id);
        assert q in Reachable(w, objs, x);
      } else {
        assert q in queue;
      }
    }
  }

  lemma WantedIncomplete(w: World, objs: Store, want: seq<Id>, queue: seq<Id>, id: Id)
    requires w.Valid() && Intact(w, objs) && Wanted(w, objs, want, queue) && id in queue && !Sound(objs, id)
    ensures exists x :: x in want && !Complete(w, objs, x)
  {
    var x :| x in want && id in Reachable(w, objs, x);
    assert !Complete(w, objs, x);
  }

  /** Each object once, none of them pruned. */
  ghost predicate Sendable(objs: Store, prune: set<Id>, sent: seq<Id>) {
    NoDuplicates(sent) && forall x :: x in sent ==> x in objs && x !in prune
  }

  lemma SendableAppend(objs: Store, prune: set<Id>, sent: seq<Id>, id: Id)
    requires Sendable(objs, prune, sent) && id in objs && id !in prune && id !in sent
    ensures Sendable(objs, prune, sent + [id])
  {
    NoDuplicatesAppend(sent, id);
  }

  /** Sends the wants' closures in last-in first-out order; done is false on a missing or unreadable object. */
  method SendMissing(objs: ObjectStore, want: seq<Id>, prune: set<Id>) returns (sent: seq<Id>, done: bool)
    requires objs.Valid()
    ensures done ==> SentAll(objs.objs, want, prune, sent)
    ensures !done ==> exists x :: x in want && !Complete(objs.w, objs.objs, x)
    ensures Sendable(objs.objs, prune, sent) && Wanted(objs.w, objs.objs, want, sent)
  {
    ghost var w, u := objs.w, objs.objs;
    sent := [];
    var queue := want;
    while |queue| > 0
      invariant Walking(w, u, want, prune, sent, queue)
      decreases |u.Keys - Elements(sent)|, |queue|
    {
      var id, rest := queue[|queue| - 1], queue[..|queue| - 1];
      SplitLast(queue);
      if id in prune || id in sent {
        WalkSkips(w, u, want, prune, sent, queue, rest, id);
        queue := rest;
      } else {
        if !Sound(objs.objs, id) {
          WantedIncomplete(w, u, want, queue, id);
          if id in objs.objs {
            SendableAppend(u, prune, sent, id);
            WantedSent(w, u, want, queue, sent, id);
            sent := sent + [id];
          }
          return sent, false;
        }
        WalkSends(w, u, want, prune, sent, queue, rest, id);
        sent, queue := sent + [id], rest + Objects.Links(objs.objs[id]).value;
      }
    }
    return sent, true;
  }

  lemma SentShrinks(objs: Store, sent: seq<Id>, id: Id)
    requires id in objs && id !in sent
    ensures |objs.Keys - Elements(sent + [id])| < |objs.Keys - Elements(sent)|
  {
    assert Elements(sent + [id]) == Elements(sent) + {id};
    assert objs.Keys - Elements(sent + [id]) == (objs.Keys - Elements(sent)) - {id};
  }

  // ----- the receiving side -----

  /** The store after the sender's objects `sent` have been received. */
  function Received(local: Store, remote: Store, sent: seq<Id>): Store
    requires forall x :: x in sent ==> x in remote
  {
    map id | id in local.Keys + (set x | x in sent) :: if id in sent then remote[id] else local[id]
  }

  /** Receives one object after the other, each verified against its id. */
  method Receive(objs: ObjectStore, sender: Store, sent: seq<Id>)
    requires objs.Valid() && Intact(objs.w, sender) && forall x :: x in sent ==> x in sender
    modifies objs
    ensures objs.Valid() && Grows(old(objs.objs), objs.objs)
    ensures objs.objs == Received(old(objs.objs), sender, sent)
  {
    for k := 0 to |sent|
      invariant objs.Valid() && Grows(old(objs.objs), objs.objs)
      invariant objs.objs == Received(old(objs.objs), sender, sent[..k])
    {
      assert sent[k] in sent && sent[..k + 1] == sent[..k] + [sent[k]];
      var ok := objs.PutVerified(sent[k], sender[sent[k]]);
      ReceivedStep(old(objs.objs), sender, sent[..k], sent[k]);
    }
    assert sent[..|sent|] == sent;
  }

  lemma ReceivedStep(local: Store, remote: Store, sent: seq<Id>, id: Id)
    requires id in remote && forall x :: x in sent ==> x in remote
    ensures Received(local, remote, sent + [id]) == Received(local, remote, sent)[id := remote[id]]
  {
  }

  /** Where the receiver holds a complete closure, the sender's walk stays inside it. */
  lemma {:induction false} ReachableAcross(w: World, s: Store, t: Store, a: Id, b: Id)
    requires w.Valid() && Intact(w, s) && Intact(w, t) && Complete(w, t, a) && b in Reachable(w, s, a)
    ensures b in Reachable(w, t, a)
    decreases w.rank(a)
  {
    StoreDescends(w, s);
    StoreDescends(w, t);
    if a != b {
      var c := ReachesFirst(StoreLinks(s), w.rank, a, b);
      CompleteLinks(w, t, a);
      IntactAgree(w, s, t, a);
      assert c in Out(StoreLinks(t), a);
      ReachableAcross(w, s, t, c, b);
      ReachesStep(StoreLinks(t), w.rank, a, c, b);
    }
  }

  /** What the receiver advertised it really has, closures and all. */
  ghost predicate HoldsAll(w: World, objs: Store, ids: seq<Id>)
    requires w.Valid() && Intact(w, objs)
  {
    forall x :: x in ids ==> Complete(w, objs, x)
  }

  lemma PrunedIsComplete(w: World, sender: Store, local: Store, have: seq<Id>, x: Id)
    requires w.Valid() && Intact(w, sender) && Intact(w, local)
    requires HoldsAll(w, local, have) && x in Held(w, sender, have)
    ensures Complete(w, local, x)
  {
    StoreDescends(w, sender);
    var h :| h in have && x in Below(StoreLinks(sender), w.rank, h);
    ReachableAcross(w, sender, local, h, x);
    CompletePart(w, local, h, x);
  }

  lemma ReceivedGrows(w: World, sender: Store, local: Store, sent: seq<Id>)
    requires w.Valid() && Intact(w, sender) && Intact(w, local) && forall x :: x in sent ==> x in sender
    ensures Intact(w, Received(local, sender, sent)) && Grows(local, Received(local, sender, sent))
  {
    forall id | id in local && id in sent ensures sender[id] == local[id] { IntactAgree(w, local, sender, id); }
  }

  lemma {:induction false} SentIsComplete(w: World, sender: Store, local: Store, want: seq<Id>, have: seq<Id>, sent: seq<Id>, x: Id)
    requires w.Valid() && Intact(w, sender) && Intact(w, local)
    requires SentAll(sender, want, Held(w, sender, have), sent) && HoldsAll(w, local, have)
    requires x in sent || x in Held(w, sender, have)
    ensures Intact(w, Received(local, sender, sent)) && Grows(local, Received(local, sender, sent))
    ensures Complete(w, Received(local, sender, sent), x)
    decreases w.rank(x)
  {
    var after := Received(local, sender, sent);
    ReceivedGrows(w, sender, local, sent);
    if x in Held(w, sender, have) {
      PrunedIsComplete(w, sender, local, have, x);
      CompleteGrows(w, local, after, x);
    } else {
      assert after[x] == sender[x];
      forall l | l in Children(after[x]) ensures Complete(w, after, l) {
        assert l in Out(StoreLinks(sender), x);
        StoreDescends(w, sender);
        SentIsComplete(w, sender, local, want, have, sent, l);
      }
      CompleteLinks(w, after, x);
    }
  }

  /** The transfer leaves the receiver with every want's full closure. */
  lemma TransferCompletes(w: World, sender: Store, local: Store, want: seq<Id>, have: seq<Id>, sent: seq<Id>)
    requires w.Valid() && Intact(w, sender) && Intact(w, local)
    requires SentAll(sender, want, Held(w, sender, have), sent) && HoldsAll(w, local, have)
    ensures Intact(w, Received(local, sender, sent))
    ensures HoldsAll(w, Received(local, sender, sent), want)
  {
    forall id | id in Received(local, sender, sent) ensures w.verifies(id, Received(local, sender, sent)[id]) {}
    forall x | x in want ensures Complete(w, Received(local, sender, sent), x) {
      SentIsComplete(w, sender, local, want, have, sent, x);
    }
  }

  /** Every want's closure is present. */
  method CheckClosures(objs: ObjectStore, want: seq<Id>) returns (ok: bool)
    requires objs.Valid()
    ensures ok <==> HoldsAll(objs.w, objs.objs, want)
  {
    for k := 0 to |want|
      invariant forall i :: 0 <= i < k ==> Complete(objs.w, objs.objs, want[i])
    {
      ok := HasClosure(objs, want[k]);
      if !ok { return false; }
    }
    return true;
  }

  /** The sender has the object, some want leads to it, and no have does. */
  ghost predicate Needed(w: World, sender: Store, want: seq<Id>, have: seq<Id>, x: Id)
    requires w.Valid() && Intact(w, sender)
  {
    && x in sender
    && (exists y :: y in want && x in Reachable(w, sender, y))
    && (forall h :: h in have ==> x !in Reachable(w, sender, h))
  }

  /** Nothing is sent that was not asked for, nor anything the haves lead to. */
  lemma SentIsNeeded(w: World, sender: Store, want: seq<Id>, have: seq<Id>, sent: seq<Id>)
    requires w.Valid() && Intact(w, sender) && Sendable(sender, Held(w, sender, have), sent) && Wanted(w, sender, want, sent)
    ensures forall x :: x in sent ==> Needed(w, sender, want, have, x)
  {
    StoreDescends(w, sender);
    forall x | x in sent ensures Needed(w, sender, want, have, x) {
      forall h | h in have ensures x !in Reachable(w, sender, h) {
        assert Below(StoreLinks(sender), w.rank, h) <= BelowAll(StoreLinks(sender), w.rank, have);
      }
    }
  }

  /** serveGetObjects at the sender, Client.Fetch at the receiver. */
  method Fetch(local: ObjectStore, remote: ObjectStore, want: seq<Id>, have: seq<Id>) returns (ok: bool)
    requires local.Valid() && remote.Valid() && local.w == remote.w && local != remote
    modifies local
    ensures local.Valid() && Grows(old(local.objs), local.objs)
    ensures forall x :: x in local.objs && x !in old(local.objs) ==> Needed(remote.w, remote.objs, want, have, x)
    ensures ok ==> HoldsAll(local.w, local.objs, want)
    ensures HoldsAll(remote.w, remote.objs, want) && HoldsAll(local.w, old(local.objs), have) ==> ok
  {
    var prune := MarkAll(remote, have);
    var sent, done := SendMissing(remote, want, prune);
    if done && HoldsAll(local.w, local.objs, have) { TransferCompletes(local.w, remote.objs, local.objs, want, have, sent); }
    SentIsNeeded(remote.w, remote.objs, want, have, sent);
    Receive(local, remote.objs, sent);
    if !done { return false; }
    ok := CheckClosures(local, want);
  }
}
