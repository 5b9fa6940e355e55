/**
  One pass of varvig/internal/p2p/refsync.go on its own, ref by ref: what it moves, what
  it leaves, and that neither pass ever takes a ref back.
 */
module RefSyncLaws {
  import opened Basics
  import opened Objects
  import Orders
  import opened Closure
  import opened Refs
  import opened RefSync

  /** `n` is missing on the side that would move, or what it has there is reachable from the other side's value `tip`. */
  ghost predicate MayMove(w: World, u: Store, refs: RefMap, n: Name, tip: Id)
    requires w.Valid() && Intact(w, u)
  {
    n in refs ==> refs[n] in Reachable(w, u, tip)
  }

  /** A ref stays where it was or moves to something that reaches where it was. */
  ghost predicate Advances(w: World, u: Store, before: RefMap, after: RefMap, n: Name)
    requires w.Valid() && Intact(w, u)
  {
    n in before ==> n in after && (after[n] == before[n] || before[n] in Reachable(w, u, after[n]))
  }

  /** Both maps lack the name or agree on it. */
  predicate Unmoved(before: RefMap, after: RefMap, n: Name) {
    (n in before <==> n in after) && (n in before ==> after[n] == before[n])
  }

  lemma CurrentSame(before: RefMap, after: RefMap, n: Name)
    ensures Current(after, n) == Current(before, n) <==> Unmoved(before, after, n)
  {
  }

  /** What the push rule does to one ref. */
  lemma PushRule(w: World, u: Store, rules: Rules, ours: RefMap, before: RefMap, after: RefMap, n: Name)
    requires w.Valid() && Intact(w, u)
    requires Current(after, n) == AfterPush(w, u, rules, n, Current(ours, n), Current(before, n))
    ensures Advances(w, u, before, after, n)
    ensures n in ours && rules.replicated(n) && rules.validName(n) && MayMove(w, u, before, n, ours[n]) ==> n in after && after[n] == ours[n]
    ensures !(n in ours && rules.replicated(n) && rules.validName(n) && MayMove(w, u, before, n, ours[n])) ==> Unmoved(before, after, n)
  {
    CurrentSame(before, after, n);
  }

  /**
    A push pass gives the peer our value wherever the peer has none or ours reaches it, and
    leaves every other ref alone: run by itself it never takes a ref of the peer back. A name
    is reported as diverged exactly when both hold it and ours does not reach the peer's, also
    where the peer is ahead, and then it keeps its value.
   */
  lemma PushOnlyAdvances(w: World, u: Store, rules: Rules, ours: RefMap, before: RefMap, after: RefMap, rep: RefReport, n: Name)
    requires w.Valid() && Intact(w, u) && PushedAll(w, u, rules, ours, before, after, rep)
    ensures n in before ==> n in after && (after[n] == before[n] || before[n] in Reachable(w, u, after[n]))
    ensures n in ours && rules.replicated(n) && rules.validName(n) && MayMove(w, u, before, n, ours[n]) ==> n in after && after[n] == ours[n]
    ensures n in rep.updated <==> !Unmoved(before, after, n)
    ensures n in rep.updated ==> n in ours && n in after && after[n] == ours[n]
    ensures n in rep.diverged <==>
              n in ours && n in before && rules.replicated(n) && rules.validName(n) && before[n] !in Reachable(w, u, ours[n])
    ensures n in rep.diverged || n in rep.refused ==> Unmoved(before, after, n)
  {
    assert Current(after, n) == AfterPush(w, u, rules, n, Current(ours, n), Current(before, n));
    PushRule(w, u, rules, ours, before, after, n);
    CurrentSame(before, after, n);
    if n in ours && n in before && ours[n] == before[n] { assert before[n] in Reachable(w, u, ours[n]); }
  }

  /** A push pass that fails halfway has taken no ref back either, and touched nothing from the failing name on. */
  lemma FailedPushOnlyAdvances(w: World, u: Store, rules: Rules, ours: RefMap, before: RefMap, after: RefMap, stop: Name, n: Name)
    requires w.Valid() && Intact(w, u) && PushedUntil(w, u, rules, ours, before, after, stop)
    ensures n in before ==> n in after && (after[n] == before[n] || before[n] in Reachable(w, u, after[n]))
    ensures !Orders.Less(n, stop) ==> Unmoved(before, after, n)
    ensures !Unmoved(before, after, n) ==> n in ours && rules.replicated(n) && rules.validName(n) && n in after && after[n] == ours[n]
    ensures n in ours && Orders.Less(n, stop) && rules.replicated(n) && rules.validName(n) && MayMove(w, u, before, n, ours[n]) ==>
              n in after && after[n] == ours[n]
  {
    CurrentSame(before, after, n);
    if n in ours && Orders.Less(n, stop) {
      assert Current(after, n) == AfterPush(w, u, rules, n, Current(ours, n), Current(before, n));
      PushRule(w, u, rules, ours, before, after, n);
    } else {
      assert Current(after, n) == Current(before, n);
    }
  }

  /** A push pass run alone: every ref of the peer stays or moves forward, whether the pass succeeds or fails; what is reported as diverged stays. */
  method PushAlone(local: Peer, remote: Peer, hook: Hook) returns (rep: Option<RefReport>)
    requires Paired(local, remote)
    modifies remote.objs, remote.refs
    ensures Paired(local, remote) && Grows(old(remote.objs.objs), remote.objs.objs)
    ensures forall n :: Advances(local.objs.w, local.objs.objs, old(remote.refs.refs), remote.refs.refs, n)
    ensures rep.Some? ==> forall n :: n in rep.value.diverged ==> Unmoved(old(remote.refs.refs), remote.refs.refs, n)
  {
    ghost var w, u, rules, ours, before := local.objs.w, local.objs.objs, local.refs.rules, local.refs.refs, remote.refs.refs;
    rep := ReplicateRefsPush(local, remote, hook);
    if rep.Some? {
      forall n ensures Advances(w, u, before, remote.refs.refs, n) && (n in rep.value.diverged ==> Unmoved(before, remote.refs.refs, n)) {
        PushOnlyAdvances(w, u, rules, ours, before, remote.refs.refs, rep.value, n);
      }
    } else {
      ghost var stop :| PushedUntil(w, u, rules, ours, before, remote.refs.refs, stop);
      forall n ensures Advances(w, u, before, remote.refs.refs, n) {
        FailedPushOnlyAdvances(w, u, rules, ours, before, remote.refs.refs, stop, n);
      }
    }
  }

  /**
    A fetch pass takes the advertised value wherever it is well formed and we have none or it
    reaches ours, and leaves every other ref alone. Diverged are exactly the names on which the
    advertised value, well formed and another than ours, does not reach ours, also where we are ahead.
   */
  lemma FetchMovesExactly(w: World, u: Store, rules: Rules, before: RefMap, theirs: RefMap, after: RefMap, rep: RefReport, n: Name)
    requires w.Valid() && Intact(w, u) && Fetched(w, u, rules, before, theirs, after, rep)
    ensures var good := n in theirs && rules.replicated(n) && rules.validName(n) && rules.validId(theirs[n]);
            && (good && MayMove(w, u, before, n, theirs[n]) ==> n in after && after[n] == theirs[n])
            && (!(good && MayMove(w, u, before, n, theirs[n])) ==> Unmoved(before, after, n))
            && (n in rep.updated <==> !Unmoved(before, after, n))
            && (n in rep.diverged <==> good && n in before && before[n] !in Reachable(w, u, theirs[n]))
            && (n in rep.refused <==> n in theirs && rules.replicated(n) && !(rules.validName(n) && rules.validId(theirs[n])))
  {
    assert Current(after, n) == AfterFetch(w, u, rules, n, Current(before, n), Current(theirs, n));
    CurrentSame(before, after, n);
    if n in theirs && n in before && theirs[n] == before[n] { assert before[n] in Reachable(w, u, theirs[n]); }
  }
}
