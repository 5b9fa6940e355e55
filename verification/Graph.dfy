/**
  Reachability over a finite acyclic link graph, and the closed-set argument behind
  every marking walk in the repository.
 */
module Graph {
  import opened Objects

  /** The nodes present and what each links to. A node outside the map has no links. */
  type Links = map<Id, seq<Id>>

  function Out(g: Links, id: Id): seq<Id> {
    if id in g then g[id] else []
  }

  ghost predicate Descends(g: Links, rank: Id -> nat) {
    forall x, y :: x in g && y in g[x] ==> rank(y) < rank(x)
  }

  /** Everything reachable from `a`, itself included. */
  ghost function Below(g: Links, rank: Id -> nat, a: Id): (s: set<Id>)
    requires Descends(g, rank)
    ensures a in s
    decreases rank(a)
  {
    {a} + set c, x | c in Out(g, a) && x in Below(g, rank, c) :: x
  }

  ghost predicate Reaches(g: Links, rank: Id -> nat, a: Id, b: Id)
    requires Descends(g, rank)
  {
    b in Below(g, rank, a)
  }

  /** Everything reachable from some member of `ids`. */
  ghost function BelowAll(g: Links, rank: Id -> nat, ids: seq<Id>): set<Id>
    requires Descends(g, rank)
  {
    set a, x | a in ids && x in Below(g, rank, a) :: x
  }

  lemma BelowAllPrefix(g: Links, rank: Id -> nat, ids: seq<Id>, k: nat)
    requires Descends(g, rank) && k < |ids|
    ensures BelowAll(g, rank, ids[..k + 1]) == BelowAll(g, rank, ids[..k]) + Below(g, rank, ids[k])
  {
    assert ids[..k + 1] == ids[..k] + [ids[k]];
  }

  /** The strict descendants of a node are what its links reach. */
  lemma BelowLinks(g: Links, rank: Id -> nat, a: Id)
    requires Descends(g, rank)
    ensures Below(g, rank, a) - {a} == BelowAll(g, rank, Out(g, a))
  {
    forall x ensures x in Below(g, rank, a) - {a} <==> x in BelowAll(g, rank, Out(g, a)) {
      if x in BelowAll(g, rank, Out(g, a)) {
        var d :| d in Out(g, a) && x in Below(g, rank, d);
        ReachesStep(g, rank, a, d, x);
        ReachesDescends(g, rank, d, x);
      }
    }
  }

  ghost predicate Closed(g: Links, s: set<Id>) {
    forall x, y :: x in s && y in Out(g, x) ==> y in s
  }

  lemma ReachesStep(g: Links, rank: Id -> nat, a: Id, c: Id, b: Id)
    requires Descends(g, rank) && c in Out(g, a) && Reaches(g, rank, c, b)
    ensures Reaches(g, rank, a, b)
  {
  }

  lemma BelowLink(g: Links, rank: Id -> nat, a: Id, c: Id)
    requires Descends(g, rank) && c in Out(g, a)
    ensures Below(g, rank, c) <= Below(g, rank, a)
  {
  }

  /** Reaching something other than itself starts with one of its links. */
  lemma ReachesFirst(g: Links, rank: Id -> nat, a: Id, b: Id) returns (c: Id)
    requires Descends(g, rank) && Reaches(g, rank, a, b) && a != b
    ensures c in Out(g, a) && Reaches(g, rank, c, b)
  {
    c :| c in Out(g, a) && b in Below(g, rank, c);
  }

  /** Reaching something other than itself ends with a link to it. */
  lemma {:induction false} ReachesLast(g: Links, rank: Id -> nat, a: Id, b: Id) returns (d: Id)
    requires Descends(g, rank) && Reaches(g, rank, a, b) && a != b
    ensures Reaches(g, rank, a, d) && b in Out(g, d)
    decreases rank(a)
  {
    var c := ReachesFirst(g, rank, a, b);
    if c == b {
      d := a;
    } else {
      d := ReachesLast(g, rank, c, b);
      ReachesStep(g, rank, a, c, d);
    }
  }

  lemma {:induction false} ReachesTransitive(g: Links, rank: Id -> nat, a: Id, b: Id, c: Id)
    requires Descends(g, rank) && Reaches(g, rank, a, b) && Reaches(g, rank, b, c)
    ensures Reaches(g, rank, a, c)
    decreases rank(a)
  {
    if a != b {
      var d := ReachesFirst(g, rank, a, b);
      ReachesTransitive(g, rank, d, b, c);
    }
  }

  lemma {:induction false} ReachesDescends(g: Links, rank: Id -> nat, a: Id, b: Id)
    requires Descends(g, rank) && Reaches(g, rank, a, b)
    ensures a == b || rank(b) < rank(a)
    decreases rank(a)
  {
    if a != b {
      var d := ReachesFirst(g, rank, a, b);
      ReachesDescends(g, rank, d, b);
    }
  }

  /** A closed set holds everything its members reach. */
  lemma {:induction false} ClosedHolds(g: Links, rank: Id -> nat, s: set<Id>, a: Id, b: Id)
    requires Descends(g, rank) && Closed(g, s) && a in s && Reaches(g, rank, a, b)
    ensures b in s
    decreases rank(a)
  {
    if a != b {
      var d := ReachesFirst(g, rank, a, b);
      ClosedHolds(g, rank, s, d, b);
    }
  }

  lemma BelowClosed(g: Links, rank: Id -> nat, a: Id)
    requires Descends(g, rank)
    ensures Closed(g, Below(g, rank, a))
  {
    forall x, y | x in Below(g, rank, a) && y in Out(g, x) ensures y in Below(g, rank, a) {
      ReachesStep(g, rank, x, y, y);
      ReachesTransitive(g, rank, a, x, y);
    }
  }

  // ----- depth-first marking with a shared visited set -----

  /** Every marked node outside `stack` has all its links marked. */
  ghost predicate ClosedExcept(g: Links, s: set<Id>, stack: set<Id>) {
    forall x, y :: x in s && x !in stack && y in Out(g, x) ==> y in s
  }

  /** What a marking walk from `id` may do to the visited set, `stack` being the calls still open. */
  ghost predicate MarkedFrom(g: Links, rank: Id -> nat, before: set<Id>, after: set<Id>, stack: set<Id>, id: Id)
    requires Descends(g, rank)
  {
    && before <= after && id in after
    && after <= before + Below(g, rank, id)
    && ClosedExcept(g, after, stack)
  }

  /** With no call open, marking from `id` adds exactly what `id` reaches. */
  lemma MarkedAll(g: Links, rank: Id -> nat, before: set<Id>, after: set<Id>, id: Id)
    requires Descends(g, rank) && MarkedFrom(g, rank, before, after, {}, id)
    ensures after == before + Below(g, rank, id)
  {
    forall x | x in Below(g, rank, id) ensures x in after {
      ClosedHolds(g, rank, after, id, x);
    }
  }
}
