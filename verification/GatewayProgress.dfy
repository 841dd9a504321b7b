/** The gateway never gets stuck (crates/cli/src/gateway.rs): a thread that is not
    through can always move on, or waits for a lock whose holder can. */
module GatewayProgress {
  import opened Text
  import opened Gateway

  predicate IsDone(pc: Pc) { pc.Unowned? || pc.Finished? || pc.Handed? }

  function Unfinished(s: State): set<nat> {
    set id | id in s.threads && !IsDone(s.threads[id])
  }

  predicate HoldsLock(pc: Pc) { pc.Holding? || pc.Ready? }

  /** What a thread does next; the upstreams may answer as they like, here they
      do not answer at all. */
  function NextAction(cfg: Config, pc: Pc, id: nat): Action
    requires !IsDone(pc)
  {
    match pc
    case Owned(_, _) => CheckTrust(id)
    case Vouched(_, _) => CheckPolicy(id)
    case Allowed(_, _) => TakeLock(id)
    case Holding(_, _) => CheckRefs(id)
    case Ready(_, _) => Exchange(id, false, TimedOut)
    case Answered(_, _, _) => LogResult(id)
    case Listing => ReadCache(id)
    case Discovering(next, _) =>
      if next == |cfg.upstreams| then Publish(id) else ListUpstream(id, false, TimedOut, [])
  }

  /** The lock a thread waits for before its next action. */
  function Awaits(cfg: Config, pc: Pc): Option<nat> {
    match pc
    case Allowed(slot, _) => Some(slot)
    case Discovering(next, _) => if next < |cfg.upstreams| then Some(next) else None
    case _ => None
  }

  /** A thread can take its next action unless it waits for a lock that is held. */
  lemma {:induction false} CanMove(cfg: Config, s: State, id: nat)
    requires Inv(cfg, s) && id in Unfinished(s)
    ensures var w := Awaits(cfg, s.threads[id]);
            w.None? || (w.value < |s.locks| && s.locks[w.value].None?)
            ==> Enabled(cfg, s, NextAction(cfg, s.threads[id], id))
    ensures Awaits(cfg, s.threads[id]).Some? ==> Awaits(cfg, s.threads[id]).value < |s.locks|
  {
    assert Earned(cfg, s.threads[id]);
  }

  /** In every state the invariant allows, if some thread is not through then some
      such thread can take its next action: no deadlock. */
  lemma {:induction false} SomeoneCanMove(cfg: Config, s: State, id: nat) returns (mover: nat)
    requires Inv(cfg, s) && id in Unfinished(s)
    ensures mover in Unfinished(s) && Enabled(cfg, s, NextAction(cfg, s.threads[mover], mover))
  {
    CanMove(cfg, s, id);
    var w := Awaits(cfg, s.threads[id]);
    if w.None? || s.locks[w.value].None? {
      mover := id;
    } else {
      mover := s.locks[w.value].value;
      assert Holds(s.threads[mover], w.value);
      CanMove(cfg, s, mover);
    }
  }

  // ------------------------------------------------------ running to the end --

  /** How many actions a thread has ahead of it. */
  function Ahead(cfg: Config, pc: Pc): nat {
    match pc
    case Owned(_, _) => 6
    case Vouched(_, _) => 5
    case Allowed(_, _) => 4
    case Holding(_, _) => 3
    case Ready(_, _) => 2
    case Answered(_, _, _) => 1
    case Listing => |cfg.upstreams| + 2
    case Discovering(next, _) => if next <= |cfg.upstreams| then |cfg.upstreams| - next + 1 else 0
    case _ => 0
  }

  /** No lock is in this thread's way, now or later. */
  ghost predicate IsFree(s: State, id: nat) {
    && id in s.threads
    && (|| HoldsLock(s.threads[id]) || s.threads[id].Answered?
        || forall k :: 0 <= k < |s.locks| ==> s.locks[k].None?)
  }

  /** Only this thread moved, and every lock is as it was or free. */
  ghost predicate OnlyMoved(s: State, s': State, id: nat) {
    && id in s'.threads && s'.threads == s.threads[id := s'.threads[id]]
    && |s'.locks| == |s.locks|
    && forall k :: 0 <= k < |s.locks| && s'.locks[k].Some? ==> s'.locks[k] == s.locks[k] || s'.locks[k] == Some(id)
  }

  predicate IsListing(pc: Pc) { pc.Listing? || pc.Discovering? }

  predicate IsEarly(pc: Pc) { pc.Owned? || pc.Vouched? || pc.Allowed? }

  lemma {:induction false} EarlyMoves(cfg: Config, s: State, id: nat)
    requires Inv(cfg, s) && id in Unfinished(s) && IsFree(s, id) && IsEarly(s.threads[id])
    requires Enabled(cfg, s, NextAction(cfg, s.threads[id], id))
    ensures var s' := Apply(cfg, s, NextAction(cfg, s.threads[id], id));
            && OnlyMoved(s, s', id)
            && Ahead(cfg, s'.threads[id]) < Ahead(cfg, s.threads[id])
            && (IsDone(s'.threads[id]) || IsFree(s', id))
  {
  }

  lemma {:induction false} LateMoves(cfg: Config, s: State, id: nat)
    requires Inv(cfg, s) && id in Unfinished(s) && !IsEarly(s.threads[id]) && !IsListing(s.threads[id])
    requires Enabled(cfg, s, NextAction(cfg, s.threads[id], id))
    ensures var s' := Apply(cfg, s, NextAction(cfg, s.threads[id], id));
            && OnlyMoved(s, s', id)
            && Ahead(cfg, s'.threads[id]) < Ahead(cfg, s.threads[id])
            && (IsDone(s'.threads[id]) || IsFree(s', id))
  {
  }

  lemma {:induction false} ListMoves(cfg: Config, s: State, id: nat)
    requires Inv(cfg, s) && id in Unfinished(s) && IsFree(s, id) && IsListing(s.threads[id])
    requires Enabled(cfg, s, NextAction(cfg, s.threads[id], id))
    ensures var s' := Apply(cfg, s, NextAction(cfg, s.threads[id], id));
            && OnlyMoved(s, s', id)
            && Ahead(cfg, s'.threads[id]) < Ahead(cfg, s.threads[id])
            && (IsDone(s'.threads[id]) || IsFree(s', id))
  {
  }

  /** A free thread's next action is enabled, brings it nearer to its end, and
      leaves it free. */
  lemma {:induction false} StepOn(cfg: Config, s: State, id: nat)
    requires Inv(cfg, s) && id in Unfinished(s) && IsFree(s, id)
    ensures var a := NextAction(cfg, s.threads[id], id);
            && Enabled(cfg, s, a)
            && var s' := Apply(cfg, s, a);
               && OnlyMoved(s, s', id)
               && Ahead(cfg, s'.threads[id]) < Ahead(cfg, s.threads[id])
               && (IsDone(s'.threads[id]) || IsFree(s', id))
  {
    CanMove(cfg, s, id);
    if IsListing(s.threads[id]) {
      ListMoves(cfg, s, id);
    } else if IsEarly(s.threads[id]) {
      EarlyMoves(cfg, s, id);
    } else {
      LateMoves(cfg, s, id);
    }
  }

  lemma {:induction false} RunFrom(cfg: Config, s: State, a: Action, rest: seq<Action>)
    requires Enabled(cfg, s, a) && Legal(cfg, Apply(cfg, s, a), rest)
    ensures Legal(cfg, s, [a] + rest) && After(cfg, s, [a] + rest) == After(cfg, Apply(cfg, s, a), rest)
  {
    assert ([a] + rest)[1..] == rest;
  }

  lemma MovedTwice(s: State, s': State, s'': State, id: nat)
    requires OnlyMoved(s, s', id) && OnlyMoved(s', s'', id)
    ensures OnlyMoved(s, s'', id)
  {
    assert s''.threads == s.threads[id := s''.threads[id]];
  }

  /** So it can be run to its end by itself. */
  lemma {:induction false} Finish(cfg: Config, s: State, id: nat) returns (run: seq<Action>)
    requires Inv(cfg, s) && id in s.threads && (id in Unfinished(s) ==> IsFree(s, id))
    ensures Legal(cfg, s, run)
    ensures var s' := After(cfg, s, run); OnlyMoved(s, s', id) && IsDone(s'.threads[id])
    decreases Ahead(cfg, s.threads[id])
  {
    if id !in Unfinished(s) {
      run := [];
      assert s.threads == s.threads[id := s.threads[id]];
    } else {
      var a := NextAction(cfg, s.threads[id], id);
      StepOn(cfg, s, id);
      StepInv(cfg, s, a);
      var s' := Apply(cfg, s, a);
      var rest := Finish(cfg, s', id);
      run := [a] + rest;
      RunFrom(cfg, s, a, rest);
      MovedTwice(s, s', After(cfg, s', rest), id);
    }
  }

  /** A thread nothing is in the way of: one that holds a lock, or any when no lock
      is held. */
  lemma {:induction false} FreeThread(cfg: Config, s: State) returns (id: nat)
    requires Inv(cfg, s) && Unfinished(s) != {}
    ensures id in Unfinished(s) && IsFree(s, id)
  {
    if k :| 0 <= k < |s.locks| && s.locks[k].Some? {
      id := s.locks[k].value;
      assert Holds(s.threads[id], k);
    } else {
      id :| id in Unfinished(s);
    }
  }

  lemma {:induction false} LegalAppend(cfg: Config, s: State, a: seq<Action>, b: seq<Action>)
    requires Legal(cfg, s, a) && Legal(cfg, After(cfg, s, a), b)
    ensures Legal(cfg, s, a + b) && After(cfg, s, a + b) == After(cfg, After(cfg, s, a), b)
    decreases |a|
  {
    if a == [] {
      assert a + b == b;
    } else {
      assert (a + b)[1..] == a[1..] + b;
      LegalAppend(cfg, Apply(cfg, s, a[0]), a[1..], b);
    }
  }

  /** From every reachable state some run brings every thread to its end. */
  lemma {:induction false} EveryRunCanEnd(cfg: Config, s: State) returns (run: seq<Action>)
    requires Inv(cfg, s)
    ensures Legal(cfg, s, run) && Unfinished(After(cfg, s, run)) == {}
    decreases |Unfinished(s)|
  {
    if Unfinished(s) == {} {
      run := [];
    } else {
      var id := FreeThread(cfg, s);
      var first := Finish(cfg, s, id);
      var s' := After(cfg, s, first);
      RunInv(cfg, s, first);
      OneFewer(s, s', id);
      var rest := EveryRunCanEnd(cfg, s');
      LegalAppend(cfg, s, first, rest);
      run := first + rest;
    }
  }

  lemma {:induction false} OneFewer(s: State, s': State, id: nat)
    requires OnlyMoved(s, s', id) && id in Unfinished(s) && IsDone(s'.threads[id])
    ensures |Unfinished(s')| < |Unfinished(s)|
  {
    assert Unfinished(s') == Unfinished(s) - {id};
  }

  /** So every run from an initial state extends to one in which all threads are done. */
  lemma {:induction false} EveryRunExtends(cfg: Config, s0: State, run: seq<Action>) returns (more: seq<Action>)
    requires IsInitial(cfg, s0) && Legal(cfg, s0, run)
    ensures Legal(cfg, s0, run + more) && Unfinished(After(cfg, s0, run + more)) == {}
  {
    RunInv(cfg, s0, run);
    more := EveryRunCanEnd(cfg, After(cfg, s0, run));
    LegalAppend(cfg, s0, run, more);
  }
}
