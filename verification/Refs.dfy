/** varvig/internal/refs/refs.go: named refs with atomic compare-and-swap and a reflog. */
module Refs {
  import opened Basics
  import opened Objects

  /** Which names and ids are well formed, and which names replicate between peers. */
  datatype Rules = Rules(validName: Name -> bool, validId: Id -> bool, replicated: Name -> bool)

  datatype Actor = ByPush | BySync | ByOther

  /** A reflog entry. */
  datatype Move = Move(name: Name, before: Option<Id>, after: Option<Id>, actor: Actor)

  type RefMap = map<Name, Id>

  function Current(refs: RefMap, name: Name): Option<Id> {
    if name in refs then Some(refs[name]) else None
  }

  /** A nil value deletes the ref. */
  function Assign(refs: RefMap, name: Name, value: Option<Id>): RefMap {
    if value.Some? then refs[name := value.value] else refs - {name}
  }

  /** The precondition of a swap: the expected value is the current one. */
  predicate CanSwap(rules: Rules, refs: RefMap, name: Name, oldval: Option<Id>, newval: Option<Id>) {
    && rules.validName(name)
    && Current(refs, name) == oldval
    && (newval.Some? ==> rules.validId(newval.value))
  }

  /** The refs after the moves of a log. */
  function Replay(refs: RefMap, log: seq<Move>): RefMap {
    if log == [] then refs
    else
      var m := log[|log| - 1];
      Assign(Replay(refs, log[..|log| - 1]), m.name, m.after)
  }

  /** Every move replaced exactly the value it names as the one before. */
  ghost predicate Honest(refs: RefMap, log: seq<Move>) {
    forall i :: 0 <= i < |log| ==> Current(Replay(refs, log[..i]), log[i].name) == log[i].before
  }

  lemma HonestAppend(refs: RefMap, log: seq<Move>, m: Move)
    requires Honest(refs, log) && Current(Replay(refs, log), m.name) == m.before
    ensures Honest(refs, log + [m]) && Replay(refs, log + [m]) == Assign(Replay(refs, log), m.name, m.after)
  {
    assert (log + [m])[..|log|] == log;
    forall i | 0 <= i < |log| ensures (log + [m])[..i] == log[..i] {}
  }

  class RefStore {
    const rules: Rules
    var refs: RefMap
    var log: seq<Move>

    constructor (rules: Rules)
      ensures this.rules == rules && refs == map[] && log == []
    {
      this.rules := rules;
      refs, log := map[], [];
    }

    method CompareAndSwap(name: Name, oldval: Option<Id>, newval: Option<Id>, actor: Actor) returns (ok: bool)
      modifies this
      ensures ok <==> CanSwap(rules, old(refs), name, oldval, newval)
      ensures refs == if ok then Assign(old(refs), name, newval) else old(refs)
      ensures log == if ok then old(log) + [Move(name, oldval, newval, actor)] else old(log)
      ensures ok <==> && rules.validName(name) && (newval.Some? ==> rules.validId(newval.value))
                      && (if oldval.Some? then name in old(refs) && old(refs)[name] == oldval.value else name !in old(refs))
      ensures ok ==> (name in refs <==> newval.Some?) && (newval.Some? ==> refs[name] == newval.value)
      ensures forall n :: n != name || !ok ==> (n in refs <==> n in old(refs)) && (n in refs ==> refs[n] == old(refs)[n])
    {
      if !rules.validName(name) { return false; }
      var present := name in refs;
      if oldval.None? && present { return false; }
      if oldval.Some? && !present { return false; }
      if oldval.Some? && refs[name] != oldval.value { return false; }
      if newval.None? {
        refs := refs - {name};
      } else {
        if !rules.validId(newval.value) { return false; }
        refs := refs[name := newval.value];
      }
      log := log + [Move(name, oldval, newval, actor)];
      return true;
    }
  }
}
