/** The gateway object itself (crates/cli/src/gateway.rs): its methods update the
    client slots, the tool cache and the audit log, and each one is a run of the
    state machine with no other thread in between. */
module GatewayServer {
  import opened Text
  import opened Gateway

  function Unlocked(n: nat): (r: seq<Option<nat>>)
    ensures |r| == n && forall i :: 0 <= i < n ==> r[i] == None
  {
    if n == 0 then [] else [None] + Unlocked(n - 1)
  }

  /** What one upstream does when it is asked to list its tools. */
  datatype Listing = Listing(connects: bool, reply: Reply, tools: seq<Tool>)

  /** What a lone discovery finds in the first `n` upstreams, in order. */
  function Discovered(cfg: Config, connected: seq<bool>, answers: nat -> Listing, n: nat): seq<Listed>
    requires n <= |cfg.upstreams| == |connected|
  {
    if n == 0 then []
    else
      var before, a := Discovered(cfg, connected, answers, n - 1), answers(n - 1);
      if (connected[n - 1] || a.connects) && a.reply.Answer? then before + Visible(cfg, n - 1, a.tools) else before
  }

  /** The upstream at `k` is reached and answers. */
  predicate Answers(connected: seq<bool>, answers: nat -> Listing, k: nat) {
    k < |connected| && (connected[k] || answers(k).connects) && answers(k).reply.Answer?
  }

  /** A lone discovery finds exactly the permitted, cleanly named tools of the
      upstreams that answer. */
  lemma {:induction false} DiscoveredExactly(
    cfg: Config, connected: seq<bool>, answers: nat -> Listing, n: nat, x: Listed)
    requires n <= |cfg.upstreams| == |connected|
    ensures x in Discovered(cfg, connected, answers, n)
            <==> && x.slot < n && Answers(connected, answers, x.slot) && x.tool in answers(x.slot).tools
                 && IsPermitted(cfg, x)
  {
    if n == 0 {
    } else {
      DiscoveredExactly(cfg, connected, answers, n - 1, x);
      VisibleExactly(cfg, n - 1, answers(n - 1).tools, x);
    }
  }

  lemma {:induction false} AllDiscovered(cfg: Config, connected: seq<bool>, answers: nat -> Listing)
    requires |cfg.upstreams| == |connected|
    ensures forall x :: x in Discovered(cfg, connected, answers, |cfg.upstreams|)
              <==> && x.slot < |cfg.upstreams| && Answers(connected, answers, x.slot)
                   && x.tool in answers(x.slot).tools && IsPermitted(cfg, x)
  {
    forall x
      ensures x in Discovered(cfg, connected, answers, |cfg.upstreams|)
              <==> && x.slot < |cfg.upstreams| && Answers(connected, answers, x.slot)
                   && x.tool in answers(x.slot).tools && IsPermitted(cfg, x)
    {
      DiscoveredExactly(cfg, connected, answers, |cfg.upstreams|, x);
    }
  }

  lemma {:induction false} VisibleExactly(cfg: Config, slot: nat, tools: seq<Tool>, x: Listed)
    requires slot < |cfg.upstreams|
    ensures x in Visible(cfg, slot, tools) <==> x.slot == slot && x.tool in tools && IsPermitted(cfg, x)
  {
    if tools == [] {
    } else {
      VisibleExactly(cfg, slot, tools[1..], x);
      assert forall t :: t in tools <==> t == tools[0] || t in tools[1..];
    }
  }

  /** The client slots it leaves behind. */
  function Reconnected(cfg: Config, connected: seq<bool>, answers: nat -> Listing, n: nat): (r: seq<bool>)
    requires n <= |cfg.upstreams| == |connected|
    ensures |r| == |connected| && forall i :: n <= i < |r| ==> r[i] == connected[i]
  {
    if n == 0 then connected
    else
      var a := answers(n - 1);
      Reconnected(cfg, connected, answers, n - 1)[n - 1 := StillConnected(connected[n - 1], a.connects, a.reply)]
  }

  function ListContacts(id: nat, n: nat): seq<Contact> {
    if n == 0 then [] else ListContacts(id, n - 1) + [ListContact(id, n - 1)]
  }

  // --------------------------------------------- one listing, uninterrupted --

  /** The machine after a lone discovery has asked `n` upstreams. */
  function Midway(cfg: Config, s: State, id: nat, answers: nat -> Listing, n: nat): State
    requires n <= |cfg.upstreams| == |s.connected|
  {
    Goto(s.(vouched := s.vouched + {id},
            connected := Reconnected(cfg, s.connected, answers, n),
            contacts := s.contacts + ListContacts(id, n)),
         id, Discovering(n, Discovered(cfg, s.connected, answers, n)))
  }

  function ListRun(id: nat, answers: nat -> Listing, n: nat): seq<Action> {
    if n == 0 then [List(id)] + [ReadCache(id)]
    else ListRun(id, answers, n - 1)
         + [ListUpstream(id, answers(n - 1).connects, answers(n - 1).reply, answers(n - 1).tools)]
  }

  lemma {:induction false} DiscoveryIsARun(cfg: Config, s: State, id: nat, answers: nat -> Listing, n: nat)
    requires Quiescent(cfg, s) && n <= |cfg.upstreams| == |s.connected| && id !in s.threads
    requires TrustHolds(cfg, s) && s.cache.None?
    ensures var run := ListRun(id, answers, n);
            Legal(cfg, s, run) && After(cfg, s, run) == Midway(cfg, s, id, answers, n)
  {
    if n == 0 {
      DiscoveryStarts(cfg, s, id, answers);
    } else {
      DiscoveryIsARun(cfg, s, id, answers, n - 1);
      DiscoveryGoesOn(cfg, s, id, answers, n - 1, ListRun(id, answers, n - 1));
    }
  }

  lemma {:induction false} DiscoveryGoesOn(
    cfg: Config, s: State, id: nat, answers: nat -> Listing, n: nat, run: seq<Action>)
    requires Quiescent(cfg, s) && n < |cfg.upstreams| == |s.connected|
    requires Legal(cfg, s, run) && After(cfg, s, run) == Midway(cfg, s, id, answers, n)
    ensures var next := run + [ListUpstream(id, answers(n).connects, answers(n).reply, answers(n).tools)];
            Legal(cfg, s, next) && After(cfg, s, next) == Midway(cfg, s, id, answers, n + 1)
  {
    MidwayStep(cfg, s, id, answers, n);
    AfterSnoc(cfg, s, run, ListUpstream(id, answers(n).connects, answers(n).reply, answers(n).tools));
  }

  lemma {:induction false} DiscoveryStarts(cfg: Config, s: State, id: nat, answers: nat -> Listing)
    requires |cfg.upstreams| == |s.connected| && id !in s.threads && TrustHolds(cfg, s) && s.cache.None?
    ensures var run := [List(id)] + [ReadCache(id)];
            Legal(cfg, s, run) && After(cfg, s, run) == Midway(cfg, s, id, answers, 0)
  {
    var s1 := Apply(cfg, s, List(id));
    Once(cfg, s1, ReadCache(id));
    Then(cfg, s, List(id), [ReadCache(id)]);
    var m := Midway(cfg, s, id, answers, 0);
    assert s.contacts + [] == s.contacts;
    assert Apply(cfg, s1, ReadCache(id)).threads == m.threads;
  }

  lemma {:induction false} MidwayStep(cfg: Config, s: State, id: nat, answers: nat -> Listing, n: nat)
    requires Quiescent(cfg, s) && n < |cfg.upstreams| == |s.connected|
    ensures var a := ListUpstream(id, answers(n).connects, answers(n).reply, answers(n).tools);
            && Enabled(cfg, Midway(cfg, s, id, answers, n), a)
            && Apply(cfg, Midway(cfg, s, id, answers, n), a) == Midway(cfg, s, id, answers, n + 1)
  {
    var m, m' := Midway(cfg, s, id, answers, n), Midway(cfg, s, id, answers, n + 1);
    var a := ListUpstream(id, answers(n).connects, answers(n).reply, answers(n).tools);
    var got := Apply(cfg, m, a);
    assert m.connected[n] == s.connected[n];
    assert got.contacts == m'.contacts;
    var found := Discovered(cfg, s.connected, answers, n);
    assert found + [] == found;
    assert got.threads == m'.threads;
  }

  /** Where an uninterrupted listing leads. */
  function ListEnd(cfg: Config, s: State, id: nat, answers: nat -> Listing): State
    requires |cfg.upstreams| == |s.connected|
  {
    if !TrustHolds(cfg, s) then Goto(s, id, Handed([]))
    else if s.cache.Some? then Goto(s.(vouched := s.vouched + {id}), id, Handed(s.cache.value))
    else
      var m := Midway(cfg, s, id, answers, |cfg.upstreams|);
      var found := Discovered(cfg, s.connected, answers, |cfg.upstreams|);
      Goto(m.(cache := Some(found)), id, Handed(found))
  }

  /** An uninterrupted listing is a run of the machine. */
  lemma {:induction false} ListIsARun(cfg: Config, s: State, id: nat, answers: nat -> Listing)
    returns (run: seq<Action>)
    requires Quiescent(cfg, s) && |cfg.upstreams| == |s.connected| && id !in s.threads
    ensures Legal(cfg, s, run) && After(cfg, s, run) == ListEnd(cfg, s, id, answers)
  {
    if !TrustHolds(cfg, s) {
      run := [List(id)];
      Once(cfg, s, List(id));
    } else if s.cache.Some? {
      var s1 := Apply(cfg, s, List(id));
      Once(cfg, s1, ReadCache(id));
      Then(cfg, s, List(id), [ReadCache(id)]);
      run := [List(id)] + [ReadCache(id)];
      assert Apply(cfg, s1, ReadCache(id)).threads == ListEnd(cfg, s, id, answers).threads;
    } else {
      var n := |cfg.upstreams|;
      DiscoveryIsARun(cfg, s, id, answers, n);
      AfterSnoc(cfg, s, ListRun(id, answers, n), Publish(id));
      run := ListRun(id, answers, n) + [Publish(id)];
    }
  }

  lemma {:induction false} ListKeepsInv(cfg: Config, s: State, id: nat, answers: nat -> Listing)
    requires Inv(cfg, s.(trusted := true)) && Quiescent(cfg, s) && id !in s.threads
    ensures Inv(cfg, ListEnd(cfg, s, id, answers).(trusted := true))
  {
    InvIgnoresTrust(cfg, s.(trusted := true), s.trusted);
    var run := ListIsARun(cfg, s, id, answers);
    RunInv(cfg, s, run);
    InvIgnoresTrust(cfg, ListEnd(cfg, s, id, answers), true);
  }

  // ------------------------------------------------ one call, uninterrupted --

  function LockedRun(cfg: Config, slot: nat, id: nat, connects: bool, reply: Reply): seq<Action>
    requires slot < |cfg.upstreams|
  {
    if cfg.upstreams[slot].unresolved then [TakeLock(id)] + ([CheckRefs(id)] + [LogResult(id)])
    else [TakeLock(id)] + ([CheckRefs(id)] + ([Exchange(id, connects, reply)] + [LogResult(id)]))
  }

  function PolicyRun(cfg: Config, slot: nat, tool: string, id: nat, connects: bool, reply: Reply): seq<Action>
    requires slot < |cfg.upstreams|
  {
    if !cfg.allows(cfg.upstreams[slot].name, tool) then [CheckPolicy(id)]
    else [CheckPolicy(id)] + LockedRun(cfg, slot, id, connects, reply)
  }

  /** The steps an uninterrupted call takes. */
  function CallRun(cfg: Config, trusted: bool, id: nat, name: string, connects: bool, reply: Reply): seq<Action> {
    var owner := Owner(cfg, name);
    if owner.None? then [Call(id, name)]
    else if cfg.anchored && !trusted then [Call(id, name)] + [CheckTrust(id)]
    else [Call(id, name)]
         + ([CheckTrust(id)] + PolicyRun(cfg, owner.value.0, owner.value.1, id, connects, reply))
  }

  function LockedEnd(cfg: Config, s: State, slot: nat, tool: string, id: nat, connects: bool, reply: Reply): State
    requires slot < |cfg.upstreams| == |s.connected|
  {
    if cfg.upstreams[slot].unresolved then Note(s, id, slot, tool, Error)
    else
      var up := s.connected[slot] || connects;
      Note(s.(connected := s.connected[slot := StillConnected(s.connected[slot], connects, reply)],
              contacts := s.contacts + [CallContact(id, slot, tool)]),
           id, slot, tool, if up && reply.Answer? then Ok else Error)
  }

  /** Where they lead: at most one audit row, at most one contact, and only the
      addressed slot's client touched. */
  function CallEnd(cfg: Config, s: State, id: nat, name: string, connects: bool, reply: Reply): State
    requires |s.connected| == |cfg.upstreams|
  {
    var owner := Owner(cfg, name);
    if owner.None? then Goto(s, id, Unowned)
    else
      var slot, tool := owner.value.0, owner.value.1;
      if !TrustHolds(cfg, s) then Note(s, id, slot, tool, TrustRefused)
      else
        var v := s.(vouched := s.vouched + {id});
        if !cfg.allows(cfg.upstreams[slot].name, tool) then Note(v, id, slot, tool, Denied)
        else LockedEnd(cfg, v, slot, tool, id, connects, reply)
  }

  ghost predicate Quiescent(cfg: Config, s: State) { s.locks == Unlocked(|cfg.upstreams|) }

  lemma {:induction false} Then(cfg: Config, s: State, a: Action, rest: seq<Action>)
    requires Enabled(cfg, s, a) && Legal(cfg, Apply(cfg, s, a), rest)
    ensures Legal(cfg, s, [a] + rest)
    ensures After(cfg, s, [a] + rest) == After(cfg, Apply(cfg, s, a), rest)
  {
    assert ([a] + rest)[1..] == rest;
  }

  lemma {:induction false} Once(cfg: Config, s: State, a: Action)
    requires Enabled(cfg, s, a)
    ensures Legal(cfg, s, [a]) && After(cfg, s, [a]) == Apply(cfg, s, a)
  {
    assert [a][1..] == [];
  }

  /** The part behind the lock, from a state that differs from `s` only in where
      this thread stands. */
  lemma {:induction false} LockedPart(cfg: Config, s: State, s1: State, slot: nat, tool: string,
                                      id: nat, connects: bool, reply: Reply)
    requires Quiescent(cfg, s) && slot < |cfg.upstreams| == |s.connected|
    requires s1 == Goto(s, id, Allowed(slot, tool))
    ensures var run := LockedRun(cfg, slot, id, connects, reply);
            Legal(cfg, s1, run) && After(cfg, s1, run) == LockedEnd(cfg, s, slot, tool, id, connects, reply)
  {
    var s2 := Apply(cfg, s1, TakeLock(id));
    assert s2.threads == s.threads[id := Holding(slot, tool)];
    if cfg.upstreams[slot].unresolved {
      RefusedPart(cfg, s, s2, slot, tool, id, connects, reply);
      Then(cfg, s1, TakeLock(id), [CheckRefs(id)] + [LogResult(id)]);
    } else {
      ResolvedPart(cfg, s, s2, slot, tool, id, connects, reply);
      Then(cfg, s1, TakeLock(id), [CheckRefs(id)] + ([Exchange(id, connects, reply)] + [LogResult(id)]));
    }
  }

  lemma {:induction false} RefusedPart(cfg: Config, s: State, s2: State, slot: nat, tool: string,
                                       id: nat, connects: bool, reply: Reply)
    requires Quiescent(cfg, s) && slot < |cfg.upstreams| == |s.connected| && cfg.upstreams[slot].unresolved
    requires s2 == Goto(s, id, Holding(slot, tool)).(locks := s.locks[slot := Some(id)])
    ensures var run := [CheckRefs(id)] + [LogResult(id)];
            Legal(cfg, s2, run) && After(cfg, s2, run) == LockedEnd(cfg, s, slot, tool, id, connects, reply)
  {
    var s3 := Apply(cfg, s2, CheckRefs(id));
    SameLocks(s.locks, slot, id);
    Once(cfg, s3, LogResult(id));
    Then(cfg, s2, CheckRefs(id), [LogResult(id)]);
  }

  lemma {:induction false} ResolvedPart(cfg: Config, s: State, s2: State, slot: nat, tool: string,
                                        id: nat, connects: bool, reply: Reply)
    requires Quiescent(cfg, s) && slot < |cfg.upstreams| == |s.connected| && !cfg.upstreams[slot].unresolved
    requires s2 == Goto(s, id, Holding(slot, tool)).(locks := s.locks[slot := Some(id)])
    ensures var run := [CheckRefs(id)] + ([Exchange(id, connects, reply)] + [LogResult(id)]);
            Legal(cfg, s2, run) && After(cfg, s2, run) == LockedEnd(cfg, s, slot, tool, id, connects, reply)
  {
    var s3 := Apply(cfg, s2, CheckRefs(id));
    assert s3.threads == s.threads[id := Ready(slot, tool)];
    ExchangePart(cfg, s, s3, slot, tool, id, connects, reply);
    Then(cfg, s2, CheckRefs(id), [Exchange(id, connects, reply)] + [LogResult(id)]);
  }

  lemma {:induction false} ExchangePart(cfg: Config, s: State, s3: State, slot: nat, tool: string,
                                        id: nat, connects: bool, reply: Reply)
    requires Quiescent(cfg, s) && slot < |cfg.upstreams| == |s.connected| && !cfg.upstreams[slot].unresolved
    requires s3 == Goto(s, id, Ready(slot, tool)).(locks := s.locks[slot := Some(id)])
    ensures var run := [Exchange(id, connects, reply)] + [LogResult(id)];
            Legal(cfg, s3, run) && After(cfg, s3, run) == LockedEnd(cfg, s, slot, tool, id, connects, reply)
  {
    var x := Exchange(id, connects, reply);
    var s4 := Apply(cfg, s3, x);
    SameLocks(s.locks, slot, id);
    Once(cfg, s4, LogResult(id));
    Then(cfg, s3, x, [LogResult(id)]);
  }

  lemma {:induction false} PolicyPart(cfg: Config, s: State, s2: State, slot: nat, tool: string,
                                      id: nat, connects: bool, reply: Reply)
    requires Quiescent(cfg, s) && slot < |cfg.upstreams| == |s.connected|
    requires s2 == Goto(s, id, Vouched(slot, tool))
    ensures var run := PolicyRun(cfg, slot, tool, id, connects, reply);
            && Legal(cfg, s2, run)
            && After(cfg, s2, run)
               == if !cfg.allows(cfg.upstreams[slot].name, tool) then Note(s, id, slot, tool, Denied)
                  else LockedEnd(cfg, s, slot, tool, id, connects, reply)
  {
    var s3 := Apply(cfg, s2, CheckPolicy(id));
    if !cfg.allows(cfg.upstreams[slot].name, tool) {
      Once(cfg, s2, CheckPolicy(id));
    } else {
      assert s3.threads == s.threads[id := Allowed(slot, tool)];
      LockedPart(cfg, s, s3, slot, tool, id, connects, reply);
      Then(cfg, s2, CheckPolicy(id), LockedRun(cfg, slot, id, connects, reply));
    }
  }

  /** An uninterrupted call is a run of the machine, and ends where it should. */
  lemma {:induction false} CallIsARun(cfg: Config, s: State, id: nat, name: string, connects: bool, reply: Reply)
    requires Quiescent(cfg, s) && |s.connected| == |cfg.upstreams| && id !in s.threads
    ensures var run := CallRun(cfg, s.trusted, id, name, connects, reply);
            Legal(cfg, s, run) && After(cfg, s, run) == CallEnd(cfg, s, id, name, connects, reply)
  {
    var call := Call(id, name);
    var s1 := Apply(cfg, s, call);
    var owner := Owner(cfg, name);
    if owner.None? {
      Once(cfg, s, call);
    } else {
      var slot, tool := owner.value.0, owner.value.1;
      var s2 := Apply(cfg, s1, CheckTrust(id));
      if !TrustHolds(cfg, s) {
        Once(cfg, s1, CheckTrust(id));
        Then(cfg, s, call, [CheckTrust(id)]);
      } else {
        var v := s.(vouched := s.vouched + {id});
        assert s2.threads == v.threads[id := Vouched(slot, tool)];
        PolicyPart(cfg, v, s2, slot, tool, id, connects, reply);
        var rest := PolicyRun(cfg, slot, tool, id, connects, reply);
        Then(cfg, s1, CheckTrust(id), rest);
        Then(cfg, s, call, [CheckTrust(id)] + rest);
      }
    }
  }

  class Dispatcher {
    const cfg: Config
    var cache: Option<seq<Listed>>
    var connected: seq<bool>
    var records: seq<Record>
    ghost var contacts: seq<Contact>
    ghost var threads: map<nat, Pc>
    ghost var vouched: set<nat>

    /** The machine state this object stands for, between calls. */
    ghost function Abs(trusted: bool): State
      reads this
    {
      State(trusted, cache, connected, Unlocked(|cfg.upstreams|), threads, vouched, records, contacts)
    }

    ghost predicate Valid()
      reads this
    {
      Inv(cfg, Abs(true))
    }

    constructor (cfg: Config)
      ensures this.cfg == cfg && Valid()
      ensures forall trusted :: IsInitial(cfg, Abs(trusted))
      ensures cache == None && records == []
    {
      this.cfg := cfg;
      cache, records, contacts, threads, vouched := None, [], [], map[], {};
      connected := seq(|cfg.upstreams|, _ => false);
    }

    /** `ensure_client` */
    method EnsureClient(slot: nat, connects: bool) returns (ok: bool)
      requires slot < |connected|
      modifies `connected
      ensures ok == (old(connected[slot]) || connects)
      ensures connected == old(connected)[slot := ok]
    {
      ok := true;
      if !connected[slot] {
        if !connects {
          return false;
        }
        connected := connected[slot := true];
      }
    }

    /** `discard_dead_client`: a timeout deliberately keeps the client. */
    method DiscardDeadClient(slot: nat, reply: Reply)
      requires slot < |connected|
      modifies `connected
      ensures connected == if reply.TransportDied? then old(connected)[slot := false] else old(connected)
    {
      if reply.TransportDied? {
        connected := connected[slot := false];
      }
    }

    /** A round trip with one upstream, behind its lock: connect if needed, ask,
        drop a dead session. */
    method RoundTrip(slot: nat, connects: bool, reply: Reply) returns (ok: bool)
      requires slot < |connected|
      modifies `connected
      ensures ok == ((old(connected[slot]) || connects) && reply.Answer?)
      ensures connected == old(connected)[slot := StillConnected(old(connected[slot]), connects, reply)]
    {
      ok := EnsureClient(slot, connects);
      if ok {
        DiscardDeadClient(slot, reply);
        ok := reply.Answer?;
      }
    }

    /** `try_call`: the whole dispatch path. `None` means the name is not ours. */
    method TryCall(id: nat, name: string, trusted: bool, connects: bool, reply: Reply)
      returns (result: Option<bool>)
      requires Valid() && id !in threads
      modifies this
      ensures Abs(trusted) == CallEnd(cfg, old(Abs(trusted)), id, name, connects, reply)
      ensures Valid()
      ensures result.None? <==> Owner(cfg, name).None?
      ensures result.Some? ==> |records| == |old(records)| + 1
                               && (result.value <==> records[|old(records)|].outcome.Ok?)
    {
      ghost var s0 := Abs(trusted);
      CallKeepsInv(cfg, s0, id, name, connects, reply);
      var owner := Owner(cfg, name);
      if owner.None? {
        threads := threads[id := Unowned];
        return None;
      }
      var slot, tool := owner.value.0, owner.value.1;
      var server := cfg.upstreams[slot].name;
      if cfg.anchored && !trusted {
        Log(id, slot, tool, TrustRefused);
        return Some(false);
      }
      vouched := vouched + {id};
      if !cfg.allows(server, tool) {
        Log(id, slot, tool, Denied);
        return Some(false);
      }
      var ok := Dispatch(id, slot, tool, trusted, connects, reply);
      return Some(ok);
    }

    /** `Upstream::call_tool` and the row it leaves: an unresolved reference stops
        the call before anything is contacted. */
    method Dispatch(id: nat, slot: nat, tool: string, ghost trusted: bool, connects: bool, reply: Reply)
      returns (ok: bool)
      requires slot < |cfg.upstreams| == |connected|
      modifies `connected, `contacts, `records, `threads
      ensures Abs(trusted) == LockedEnd(cfg, old(Abs(trusted)), slot, tool, id, connects, reply)
      ensures records == old(records) + [Record(id, slot, tool, if ok then Ok else Error)]
    {
      ok := false;
      if !cfg.upstreams[slot].unresolved {
        contacts := contacts + [CallContact(id, slot, tool)];
        ok := RoundTrip(slot, connects, reply);
      }
      Log(id, slot, tool, if ok then Ok else Error);
    }

    /** `namespaced_tools`: the cached list, or one discovery over every upstream.
        Without trust the surface is empty and the cache is left alone. */
    method NamespacedTools(ghost id: nat, trusted: bool, answers: nat -> Listing) returns (list: seq<Listed>)
      requires Valid() && id !in threads
      modifies this
      ensures Abs(trusted) == ListEnd(cfg, old(Abs(trusted)), id, answers)
      ensures Valid()
      ensures threads[id] == Handed(list) && AllPermitted(cfg, list)
      ensures old(cache).None? && (!cfg.anchored || trusted) ==>
                forall x :: x in list <==>
                  && x.slot < |cfg.upstreams| && Answers(old(connected), answers, x.slot)
                  && x.tool in answers(x.slot).tools && IsPermitted(cfg, x)
    {
      ListKeepsInv(cfg, Abs(trusted), id, answers);
      AllDiscovered(cfg, connected, answers);
      ghost var end := ListEnd(cfg, Abs(trusted), id, answers);
      assert Earned(cfg, end.threads[id]);
      list := HandOut(id, trusted, answers);
    }

    /** The three ways a list is handed out. */
    method HandOut(ghost id: nat, trusted: bool, answers: nat -> Listing) returns (list: seq<Listed>)
      requires |connected| == |cfg.upstreams|
      modifies `connected, `contacts, `cache, `threads, `vouched
      ensures Abs(trusted) == ListEnd(cfg, old(Abs(trusted)), id, answers)
      ensures threads[id] == Handed(list)
      ensures old(cache).None? && (!cfg.anchored || trusted) ==>
                list == Discovered(cfg, old(connected), answers, |cfg.upstreams|)
    {
      if cfg.anchored && !trusted {
        threads := threads[id := Handed([])];
        return [];
      }
      vouched := vouched + {id};
      if cache.Some? {
        threads := threads[id := Handed(cache.value)];
        return cache.value;
      }
      list := FirstDiscovery(id, answers);
    }

    /** One discovery over every upstream, published and handed out. */
    method FirstDiscovery(ghost id: nat, answers: nat -> Listing) returns (list: seq<Listed>)
      requires |connected| == |cfg.upstreams|
      modifies `connected, `contacts, `cache, `threads
      ensures list == Discovered(cfg, old(connected), answers, |cfg.upstreams|)
      ensures cache == Some(list) && threads == old(threads)[id := Handed(list)]
      ensures connected == Reconnected(cfg, old(connected), answers, |cfg.upstreams|)
      ensures contacts == old(contacts) + ListContacts(id, |cfg.upstreams|)
    {
      list := Discover(id, answers);
      cache := Some(list);
      threads := threads[id := Handed(list)];
    }

    /** The discovery loop, one upstream at a time. */
    method Discover(ghost id: nat, answers: nat -> Listing) returns (list: seq<Listed>)
      requires |connected| == |cfg.upstreams|
      modifies `connected, `contacts
      ensures contacts == old(contacts) + ListContacts(id, |cfg.upstreams|)
      ensures connected == Reconnected(cfg, old(connected), answers, |cfg.upstreams|)
      ensures list == Discovered(cfg, old(connected), answers, |cfg.upstreams|)
    {
      list := [];
      for k := 0 to |cfg.upstreams|
        invariant contacts == old(contacts) + ListContacts(id, k)
        invariant connected == Reconnected(cfg, old(connected), answers, k)
        invariant list == Discovered(cfg, old(connected), answers, k)
      {
        var a := answers(k);
        contacts := contacts + [ListContact(id, k)];
        var ok := RoundTrip(k, a.connects, a.reply);
        if ok {
          var seen := FilterTools(cfg, k, a.tools);
          list := list + seen;
        }
      }
    }

    /** `log_call`: one audit row, and the call is over. */
    method Log(id: nat, slot: nat, tool: string, outcome: Outcome)
      modifies `records, `threads
      ensures records == old(records) + [Record(id, slot, tool, outcome)]
      ensures threads == old(threads)[id := Finished(slot, tool, outcome)]
    {
      records := records + [Record(id, slot, tool, outcome)];
      threads := threads[id := Finished(slot, tool, outcome)];
    }
  }

  lemma SameLocks(locks: seq<Option<nat>>, slot: nat, id: nat)
    requires slot < |locks| && locks[slot] == None
    ensures locks[slot := Some(id)][slot := None] == locks
  {
  }

  /** The invariant does not depend on the current trust verdict. */
  lemma InvIgnoresTrust(cfg: Config, s: State, trusted: bool)
    requires Inv(cfg, s)
    ensures Inv(cfg, s.(trusted := trusted))
  {
    var s' := s.(trusted := trusted);
    assert forall i :: 0 <= i < |s'.contacts| ==>
             ContactOk(cfg, s, s.contacts[i]) && ContactOk(cfg, s', s'.contacts[i]);
    assert forall id :: RecordsFor(s.records, id) == RowsDue(s.threads, id);
  }

  lemma {:induction false} CallKeepsInv(cfg: Config, s: State, id: nat, name: string, connects: bool, reply: Reply)
    requires Inv(cfg, s.(trusted := true)) && Quiescent(cfg, s) && id !in s.threads
    ensures Inv(cfg, CallEnd(cfg, s, id, name, connects, reply).(trusted := true))
  {
    InvIgnoresTrust(cfg, s.(trusted := true), s.trusted);
    CallIsARun(cfg, s, id, name, connects, reply);
    RunInv(cfg, s, CallRun(cfg, s.trusted, id, name, connects, reply));
    InvIgnoresTrust(cfg, CallEnd(cfg, s, id, name, connects, reply), true);
  }
}
