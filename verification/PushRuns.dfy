/**
  varvig/internal/p2p/p2p.go: servePush and recvObject as steps of one server shared by
  any number of connections. The closure check, the hook and the swap of one push are
  separate steps; steps of other connections and of local writers come in between.
 */
module PushRuns {
  import opened Basics
  import opened Objects
  import opened Closure
  import opened Refs

  type Conn = nat

  /** A push that passed the closure check and waits for its hook and its swap. */
  datatype Pending = Pending(name: Name, expected: Option<Id>, tip: Id)

  datatype Server = Server(objs: Store, refs: RefMap, log: seq<Move>, pending: map<Conn, Pending>)

  datatype Event =
    | ReceiveObject(conn: Conn, id: Id, o: Object)
    | ReceivePush(conn: Conn, name: Name, expected: Option<Id>, tip: Id)
    | HookVetoes(conn: Conn)
    | SwapPushed(conn: Conn)
    | LocalPut(id: Id, o: Object)
    | LocalSwap(name: Name, expected: Option<Id>, value: Option<Id>)

  /** One compare-and-swap on the server. */
  function Swap(rules: Rules, s: Server, name: Name, expected: Option<Id>, value: Option<Id>, actor: Actor): Server {
    if CanSwap(rules, s.refs, name, expected, value) then
      s.(refs := Assign(s.refs, name, value), log := s.log + [Move(name, expected, value, actor)])
    else s
  }

  /** One step; an event its connection is not ready for does nothing. */
  ghost function Step(w: World, rules: Rules, s: Server, e: Event): Server
    requires w.Valid() && Intact(w, s.objs)
  {
    match e
    case ReceiveObject(c, id, o) =>
      if c !in s.pending && w.verifies(id, o) then s.(objs := s.objs[id := o]) else s
    case ReceivePush(c, name, expected, tip) =>
      if c !in s.pending && Complete(w, s.objs, tip) then s.(pending := s.pending[c := Pending(name, expected, tip)]) else s
    case HookVetoes(c) =>
      s.(pending := s.pending - {c})
    case SwapPushed(c) =>
      if c in s.pending then
        var p := s.pending[c];
        Swap(rules, s, p.name, p.expected, Some(p.tip), ByPush).(pending := s.pending - {c})
      else s
    case LocalPut(id, o) =>
      if w.verifies(id, o) then s.(objs := s.objs[id := o]) else s
    case LocalSwap(name, expected, value) =>
      Swap(rules, s, name, expected, value, ByOther)
  }

  /** The invariant, `start` being the refs before the run. */
  ghost predicate Inv(w: World, start: RefMap, s: Server) {
    && w.Valid() && Intact(w, s.objs)
    && s.refs == Replay(start, s.log) && Honest(start, s.log)
    && (forall c :: c in s.pending ==> Complete(w, s.objs, s.pending[c].tip))
    && (forall i :: 0 <= i < |s.log| && s.log[i].actor == ByPush ==> s.log[i].after.Some? && Complete(w, s.objs, s.log[i].after.value))
  }

  lemma InvGrows(w: World, start: RefMap, s: Server, id: Id, o: Object)
    requires Inv(w, start, s) && w.verifies(id, o)
    ensures Inv(w, start, s.(objs := s.objs[id := o])) && Grows(s.objs, s.objs[id := o])
  {
    var objs := s.objs[id := o];
    assert Grows(s.objs, objs) by {
      if id in s.objs { assert w.verifies(id, s.objs[id]); }
    }
    forall c | c in s.pending ensures Complete(w, objs, s.pending[c].tip) {
      CompleteGrows(w, s.objs, objs, s.pending[c].tip);
    }
    forall i | 0 <= i < |s.log| && s.log[i].actor == ByPush ensures Complete(w, objs, s.log[i].after.value) {
      CompleteGrows(w, s.objs, objs, s.log[i].after.value);
    }
  }

  lemma InvSwap(w: World, rules: Rules, start: RefMap, s: Server, name: Name, expected: Option<Id>, value: Option<Id>, actor: Actor)
    requires Inv(w, start, s)
    requires actor == ByPush ==> value.Some? && Complete(w, s.objs, value.value)
    ensures Inv(w, start, Swap(rules, s, name, expected, value, actor))
  {
    if CanSwap(rules, s.refs, name, expected, value) {
      HonestAppend(start, s.log, Move(name, expected, value, actor));
    }
  }

  lemma StepKeepsInv(w: World, rules: Rules, start: RefMap, s: Server, e: Event)
    requires Inv(w, start, s)
    ensures Inv(w, start, Step(w, rules, s, e)) && Grows(s.objs, Step(w, rules, s, e).objs)
  {
    match e
    case ReceiveObject(c, id, o) => if w.verifies(id, o) { InvGrows(w, start, s, id, o); }
    case ReceivePush(c, name, expected, tip) =>
    case HookVetoes(c) =>
    case SwapPushed(c) =>
      if c in s.pending {
        var p := s.pending[c];
        InvSwap(w, rules, start, s, p.name, p.expected, Some(p.tip), ByPush);
      }
    case LocalPut(id, o) => if w.verifies(id, o) { InvGrows(w, start, s, id, o); }
    case LocalSwap(name, expected, value) => InvSwap(w, rules, start, s, name, expected, value, ByOther);
  }

  /** The server after a whole run of events, in the order they interleave. */
  ghost function Run(w: World, rules: Rules, start: Server, es: seq<Event>): (s: Server)
    requires Inv(w, start.refs, start)
    ensures Inv(w, start.refs, s) && Grows(start.objs, s.objs)
    decreases |es|
  {
    if es == [] then start
    else
      var before := Run(w, rules, start, es[..|es| - 1]);
      StepKeepsInv(w, rules, start.refs, before, es[|es| - 1]);
      Step(w, rules, before, es[|es| - 1])
  }

  /** The ref `name` was last moved by a push. */
  ghost predicate LastMovedByPush(log: seq<Move>, name: Name) {
    exists i :: 0 <= i < |log| && log[i].name == name && log[i].actor == ByPush
                && forall j :: i < j < |log| ==> log[j].name != name
  }

  lemma {:induction false} LastMoveDecides(refs: RefMap, log: seq<Move>, i: nat)
    requires i < |log| && forall j :: i < j < |log| ==> log[j].name != log[i].name
    ensures Current(Replay(refs, log), log[i].name) == log[i].after
  {
    if i < |log| - 1 { LastMoveDecides(refs, log[..|log| - 1], i); }
  }

  /** No push is under way and nothing has been logged yet. */
  ghost predicate AtRest(w: World, start: Server) {
    w.Valid() && Intact(w, start.objs) && start.log == [] && start.pending == map[]
  }

  /** In every interleaving, from a server at rest, pushed refs name complete closures and each push replaced what it named. */
  lemma PushesAreSafe(w: World, rules: Rules, start: Server, es: seq<Event>)
    requires AtRest(w, start)
    ensures Inv(w, start.refs, start)
    ensures var s := Run(w, rules, start, es);
            && s.refs == Replay(start.refs, s.log) && Honest(start.refs, s.log)
            && (forall n :: LastMovedByPush(s.log, n) ==> n in s.refs && Complete(w, s.objs, s.refs[n]))
            && Grows(start.objs, s.objs)
  {
    var s := Run(w, rules, start, es);
    forall n | LastMovedByPush(s.log, n) ensures n in s.refs && Complete(w, s.objs, s.refs[n]) {
      var i :| 0 <= i < |s.log| && s.log[i].name == n && s.log[i].actor == ByPush
               && forall j :: i < j < |s.log| ==> s.log[j].name != n;
      LastMoveDecides(start.refs, s.log, i);
    }
  }

  // ----- what becomes of one push -----

  /** The event is one of connection `c`. */
  predicate IsFrom(e: Event, c: Conn) {
    match e
    case ReceiveObject(d, _, _) => d == c
    case ReceivePush(d, _, _, _) => d == c
    case HookVetoes(d) => d == c
    case SwapPushed(d) => d == c
    case LocalPut(_, _) => false
    case LocalSwap(_, _, _) => false
  }

  lemma RunOneMore(w: World, rules: Rules, start: Server, es: seq<Event>, e: Event)
    requires AtRest(w, start)
    ensures Run(w, rules, start, es + [e]) == Step(w, rules, Run(w, rules, start, es), e)
  {
    assert (es + [e])[..|es|] == es;
  }

  /** Connection `c` waits with the same push, or with none, in both. */
  ghost predicate SamePending(s: Server, t: Server, c: Conn) {
    (c in t.pending <==> c in s.pending) && (c in s.pending ==> t.pending[c] == s.pending[c])
  }

  lemma OthersLeavePending(w: World, rules: Rules, s: Server, e: Event, c: Conn)
    requires w.Valid() && Intact(w, s.objs) && !IsFrom(e, c)
    ensures SamePending(s, Step(w, rules, s, e), c)
  {
  }

  lemma LastOf(first: seq<Event>, es: seq<Event>)
    requires es != []
    ensures first + es == (first + es[..|es| - 1]) + [es[|es| - 1]] && es[|es| - 1] in es
    ensures forall e :: e in es[..|es| - 1] ==> e in es
  {
  }

  /** A checked push waits for its own connection, whatever the others do. */
  lemma {:induction false} PushWaits(w: World, rules: Rules, start: Server, first: seq<Event>, es: seq<Event>, c: Conn)
    requires AtRest(w, start) && forall e :: e in es ==> !IsFrom(e, c)
    ensures SamePending(Run(w, rules, start, first), Run(w, rules, start, first + es), c)
    decreases |es|
  {
    if es == [] {
      assert first + es == first;
    } else {
      var last, before := es[|es| - 1], es[..|es| - 1];
      LastOf(first, es);
      PushWaits(w, rules, start, first, before, c);
      RunOneMore(w, rules, start, first + before, last);
      OthersLeavePending(w, rules, Run(w, rules, start, first + before), last, c);
    }
  }

  lemma SwapPending(w: World, rules: Rules, s: Server, c: Conn, p: Pending)
    requires w.Valid() && Intact(w, s.objs) && c in s.pending && s.pending[c] == p
    ensures var swapped, vetoed := Step(w, rules, s, SwapPushed(c)), Step(w, rules, s, HookVetoes(c));
            && (swapped.refs == if rules.validName(p.name) && rules.validId(p.tip) && Current(s.refs, p.name) == p.expected then s.refs[p.name := p.tip] else s.refs)
            && swapped.objs == vetoed.objs == s.objs && vetoed.refs == s.refs && vetoed.log == s.log
            && c !in swapped.pending && c !in vetoed.pending
  {
  }

  lemma CheckedWaits(w: World, rules: Rules, s: Server, c: Conn, p: Pending)
    requires w.Valid() && Intact(w, s.objs) && c !in s.pending && Complete(w, s.objs, p.tip)
    ensures var t := Step(w, rules, s, ReceivePush(c, p.name, p.expected, p.tip)); c in t.pending && t.pending[c] == p
  {
  }

  /**
    A push of a complete tip, with any events of other connections and local writers after its
    check, moves the ref when it is swapped, provided the ref is then what the client expected
    and name and id are well formed; otherwise, and on a veto, no ref moves. Either way it is over.
   */
  lemma PushLands(w: World, rules: Rules, start: Server, first: seq<Event>, es: seq<Event>, c: Conn, p: Pending)
    requires AtRest(w, start) && (forall e :: e in es ==> !IsFrom(e, c)) && c !in Run(w, rules, start, first).pending
    requires Complete(w, Run(w, rules, start, first).objs, p.tip)
    ensures var run := first + [ReceivePush(c, p.name, p.expected, p.tip)] + es;
            var s := Run(w, rules, start, run);
            var swapped, vetoed := Run(w, rules, start, run + [SwapPushed(c)]), Run(w, rules, start, run + [HookVetoes(c)]);
            && (swapped.refs == if rules.validName(p.name) && rules.validId(p.tip) && Current(s.refs, p.name) == p.expected then s.refs[p.name := p.tip] else s.refs)
            && swapped.objs == vetoed.objs == s.objs && vetoed.refs == s.refs && vetoed.log == s.log
            && c !in swapped.pending && c !in vetoed.pending
  {
    var push := ReceivePush(c, p.name, p.expected, p.tip);
    RunOneMore(w, rules, start, first, push);
    CheckedWaits(w, rules, Run(w, rules, start, first), c, p);
    PushWaits(w, rules, start, first + [push], es, c);
    SwapPending(w, rules, Run(w, rules, start, first + [push] + es), c, p);
    RunOneMore(w, rules, start, first + [push] + es, SwapPushed(c));
    RunOneMore(w, rules, start, first + [push] + es, HookVetoes(c));
  }

  /** A push whose closure is not all there is refused: nothing waits and nothing moves. */
  lemma IncompletePushRefused(w: World, rules: Rules, start: Server, first: seq<Event>, c: Conn, name: Name, expected: Option<Id>, tip: Id)
    requires AtRest(w, start) && c !in Run(w, rules, start, first).pending && !Complete(w, Run(w, rules, start, first).objs, tip)
    ensures Run(w, rules, start, first + [ReceivePush(c, name, expected, tip), SwapPushed(c)]) == Run(w, rules, start, first)
  {
    RunOneMore(w, rules, start, first, ReceivePush(c, name, expected, tip));
    RunOneMore(w, rules, start, first + [ReceivePush(c, name, expected, tip)], SwapPushed(c));
    assert first + [ReceivePush(c, name, expected, tip), SwapPushed(c)] == first + [ReceivePush(c, name, expected, tip)] + [SwapPushed(c)];
  }

  /** An object is kept exactly if it verifies under its id, from a connection only between pushes. */
  lemma ObjectLands(w: World, rules: Rules, start: Server, first: seq<Event>, c: Conn, id: Id, o: Object)
    requires AtRest(w, start) && c !in Run(w, rules, start, first).pending
    ensures var s, t := Run(w, rules, start, first), Run(w, rules, start, first + [ReceiveObject(c, id, o)]);
            if w.verifies(id, o) then id in t.objs && t.objs[id] == o && t.refs == s.refs else t == s
  {
    RunOneMore(w, rules, start, first, ReceiveObject(c, id, o));
  }

  /** A local writer moves a ref exactly if it holds what the writer expected and name and id are well formed. */
  lemma LocalSwapLands(w: World, rules: Rules, start: Server, first: seq<Event>, name: Name, expected: Option<Id>, value: Option<Id>)
    requires AtRest(w, start)
    ensures var s, t := Run(w, rules, start, first), Run(w, rules, start, first + [LocalSwap(name, expected, value)]);
            && t.objs == s.objs && t.pending == s.pending
            && if rules.validName(name) && (value.Some? ==> rules.validId(value.value)) && Current(s.refs, name) == expected
               then t.refs == (if value.Some? then s.refs[name := value.value] else s.refs - {name})
               else t.refs == s.refs && t.log == s.log
  {
    RunOneMore(w, rules, start, first, LocalSwap(name, expected, value));
  }
}
