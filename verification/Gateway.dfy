/** Gateway dispatch and discovery (crates/cli/src/gateway.rs) as a state machine:
    every public call is a thread of small steps, interleaved with the others
    and with trust changes made outside the process. */
module Gateway {
  import opened Text
  import opened Namespace

  // ---------------------------------------------------------- configuration --

  /** A proxied upstream; `unresolved` when some `${REF}` did not resolve. */
  datatype Upstream = Upstream(name: string, unresolved: bool)

  /** Fixed at construction: the upstreams, whether a trust anchor was captured,
      the compiled tool policy, and the names `sanitize_line` would change. */
  datatype Config = Config(
    upstreams: seq<Upstream>,
    anchored: bool,
    allows: (string, string) -> bool,
    hostile: string -> bool)

  ghost predicate DistinctNames(cfg: Config) {
    forall i, j :: 0 <= i < j < |cfg.upstreams| ==> cfg.upstreams[i].name != cfg.upstreams[j].name
  }

  /** The first upstream of that name. */
  function FindSlot(ups: seq<Upstream>, name: string): (r: Option<nat>)
    ensures r.Some? ==> r.value < |ups| && ups[r.value].name == name
    ensures r.None? ==> forall i :: 0 <= i < |ups| ==> ups[i].name != name
  {
    if ups == [] then None
    else if ups[0].name == name then Some(0)
    else match FindSlot(ups[1..], name)
      case Some(i) => Some(i + 1)
      case None => assert forall i :: 1 <= i < |ups| ==> ups[i] == ups[1..][i - 1]; None
  }

  /** Which upstream and tool a name addresses, when the gateway owns it. */
  function Owner(cfg: Config, name: string): (r: Option<(nat, string)>)
    ensures r.Some? ==> r.value.0 < |cfg.upstreams|
  {
    match SplitOnce(name)
    case None => None
    case Some(p) =>
      match FindSlot(cfg.upstreams, p.0)
      case None => None
      case Some(i) => Some((i, p.1))
  }

  // -------------------------------------------------------------- discovery --

  /** A tool as an upstream reports it: its name may be missing. */
  datatype Tool = Tool(name: Option<string>)

  /** A tool as the gateway lists it: the upstream it came from and its public name. */
  datatype Listed = Listed(slot: nat, tool: Tool, name: string)

  /** The name policy is asked about, and the name the tool is listed under. */
  function PolicyName(t: Tool): string { if t.name.Some? then t.name.value else "" }

  function BareName(t: Tool): string { if t.name.Some? then t.name.value else "tool" }

  /** The filter of one upstream's answer: denied and hostile names are invisible. */
  function Visible(cfg: Config, slot: nat, tools: seq<Tool>): seq<Listed>
    requires slot < |cfg.upstreams|
  {
    if tools == [] then []
    else
      var server := cfg.upstreams[slot].name;
      if cfg.allows(server, PolicyName(tools[0])) && !cfg.hostile(BareName(tools[0]))
      then [Listed(slot, tools[0], Qualify(server, BareName(tools[0])))] + Visible(cfg, slot, tools[1..])
      else Visible(cfg, slot, tools[1..])
  }

  /** A permitted tool of one of this gateway's upstreams, under its own name. */
  predicate IsPermitted(cfg: Config, t: Listed) {
    && t.slot < |cfg.upstreams|
    && cfg.allows(cfg.upstreams[t.slot].name, PolicyName(t.tool))
    && !cfg.hostile(BareName(t.tool))
    && t.name == Qualify(cfg.upstreams[t.slot].name, BareName(t.tool))
  }

  predicate AllPermitted(cfg: Config, ts: seq<Listed>) {
    forall i :: 0 <= i < |ts| ==> IsPermitted(cfg, ts[i])
  }

  /** The listing loop over one upstream's answer. */
  method FilterTools(cfg: Config, slot: nat, tools: seq<Tool>) returns (out: seq<Listed>)
    requires slot < |cfg.upstreams|
    ensures out == Visible(cfg, slot, tools)
  {
    out := [];
    var server := cfg.upstreams[slot].name;
    for i := 0 to |tools|
      invariant out + Visible(cfg, slot, tools[i..]) == Visible(cfg, slot, tools)
    {
      ghost var rest := tools[i..];
      assert rest[0] == tools[i] && rest[1..] == tools[i + 1..];
      if !cfg.allows(server, PolicyName(tools[i])) {
        continue;
      }
      if !cfg.hostile(BareName(tools[i])) {
        var t := Listed(slot, tools[i], Qualify(server, BareName(tools[i])));
        assert out + ([t] + Visible(cfg, slot, rest[1..])) == (out + [t]) + Visible(cfg, slot, rest[1..]);
        out := out + [t];
      }
    }
  }

  lemma {:induction false} VisibleIsPermitted(cfg: Config, slot: nat, tools: seq<Tool>)
    requires slot < |cfg.upstreams|
    ensures AllPermitted(cfg, Visible(cfg, slot, tools))
  {
    if tools == [] {
    } else {
      VisibleIsPermitted(cfg, slot, tools[1..]);
    }
  }

  /** Nothing permitted is dropped. */
  lemma {:induction false} VisibleIsComplete(cfg: Config, slot: nat, tools: seq<Tool>, t: Tool)
    requires slot < |cfg.upstreams| && t in tools
    requires cfg.allows(cfg.upstreams[slot].name, PolicyName(t)) && !cfg.hostile(BareName(t))
    ensures Listed(slot, t, Qualify(cfg.upstreams[slot].name, BareName(t))) in Visible(cfg, slot, tools)
  {
    if tools[0] != t {
      VisibleIsComplete(cfg, slot, tools[1..], t);
    }
  }

  // ---------------------------------------------------------------- routing --

  lemma {:induction false} FindSlotIs(ups: seq<Upstream>, i: nat)
    requires i < |ups|
    requires forall a, b :: 0 <= a < b < |ups| ==> ups[a].name != ups[b].name
    ensures FindSlot(ups, ups[i].name) == Some(i)
  {
    if i == 0 {
    } else {
      assert ups[0].name != ups[i].name;
      FindSlotIs(ups[1..], i - 1);
    }
  }

  /** A listed tool dispatches to the upstream that listed it, under the bare
      name it was listed with, exactly when that server's name is routable. */
  lemma {:induction false} ListedToolRoutes(cfg: Config, t: Listed)
    requires DistinctNames(cfg) && IsPermitted(cfg, t)
    ensures Owner(cfg, t.name) == Some((t.slot, BareName(t.tool))) <==> IsRoutable(cfg.upstreams[t.slot].name)
  {
    var server, bare := cfg.upstreams[t.slot].name, BareName(t.tool);
    SplitQualified(server, bare);
    FindSlotIs(cfg.upstreams, t.slot);
  }

  /** What the call path asks policy about such a tool agrees with what the
      listing asked exactly when the tool has a name, or policy cannot tell the
      empty name from `tool`. */
  lemma {:induction false} ListedToolIsCallable(cfg: Config, t: Listed)
    requires IsPermitted(cfg, t)
    ensures var server := cfg.upstreams[t.slot].name;
            cfg.allows(server, BareName(t.tool)) <==> t.tool.name.Some? || cfg.allows(server, "tool")
  {
  }

  /** A nameless tool can be listed under a name the same policy denies. */
  lemma {:induction false} NamelessToolListedButDenied(server: string)
    ensures var cfg := Config([Upstream(server, false)], false, (s, t) => t == "", n => false);
            && Visible(cfg, 0, [Tool(None)]) == [Listed(0, Tool(None), Qualify(server, "tool"))]
            && !cfg.allows(server, "tool")
  {
    assert [Tool(None)][1..] == [];
  }

  // ------------------------------------------------------------ the machine --

  /** How far one thread has come. The first eight are a tool call, in order;
      the last three a listing. */
  datatype Pc =
    | Unowned                                          // not ours: returned nothing
    | Owned(slot: nat, tool: string)
    | Vouched(slot: nat, tool: string)                 // trust holds
    | Allowed(slot: nat, tool: string)                 // policy allows
    | Holding(slot: nat, tool: string)                 // the upstream's lock is ours
    | Ready(slot: nat, tool: string)                   // every reference resolved
    | Answered(slot: nat, tool: string, ok: bool)      // lock released
    | Finished(slot: nat, tool: string, outcome: Outcome)
    | Listing                                          // trust holds
    | Discovering(next: nat, found: seq<Listed>)
    | Handed(list: seq<Listed>)

  datatype Outcome = TrustRefused | Denied | Ok | Error

  datatype Record = Record(id: nat, slot: nat, tool: string, outcome: Outcome)

  /** Bytes sent to an upstream on behalf of a thread. */
  datatype Contact = CallContact(id: nat, slot: nat, tool: string) | ListContact(id: nat, slot: nat)

  /** `vouched` remembers the threads whose trust check passed. */
  datatype State = State(
    trusted: bool,
    cache: Option<seq<Listed>>,
    connected: seq<bool>,
    locks: seq<Option<nat>>,
    threads: map<nat, Pc>,
    vouched: set<nat>,
    records: seq<Record>,
    contacts: seq<Contact>)

  /** How an upstream answers: a timeout or a tool error leaves the session up,
      a transport failure ends it. */
  datatype Reply = Answer | ToolError | TimedOut | TransportDied

  datatype Action =
    | TrustChange(now: bool)
    | Call(id: nat, name: string)
    | CheckTrust(id: nat)
    | CheckPolicy(id: nat)
    | TakeLock(id: nat)
    | CheckRefs(id: nat)
    | Exchange(id: nat, connects: bool, reply: Reply)
    | LogResult(id: nat)
    | List(id: nat)
    | ReadCache(id: nat)
    | ListUpstream(id: nat, connects: bool, reply: Reply, tools: seq<Tool>)
    | Publish(id: nat)

  ghost predicate IsInitial(cfg: Config, s: State) {
    && s.threads == map[] && s.vouched == {} && s.records == [] && s.contacts == []
    && |s.connected| == |s.locks| == |cfg.upstreams|
    && (forall i :: 0 <= i < |s.locks| ==> s.locks[i].None?)
    && (s.cache.Some? ==> AllPermitted(cfg, s.cache.value))
  }

  predicate TrustHolds(cfg: Config, s: State) { !cfg.anchored || s.trusted }

  predicate Enabled(cfg: Config, s: State, a: Action) {
    match a
    case TrustChange(_) => true
    case Call(id, _) => id !in s.threads
    case List(id) => id !in s.threads
    case CheckTrust(id) => id in s.threads && s.threads[id].Owned?
    case CheckPolicy(id) => id in s.threads && s.threads[id].Vouched?
    case TakeLock(id) =>
      && id in s.threads && s.threads[id].Allowed?
      && s.threads[id].slot < |s.locks| && s.locks[s.threads[id].slot].None?
    case CheckRefs(id) =>
      && id in s.threads && s.threads[id].Holding?
      && s.threads[id].slot < |s.locks| && s.threads[id].slot < |cfg.upstreams|
    case Exchange(id, _, _) =>
      && id in s.threads && s.threads[id].Ready?
      && s.threads[id].slot < |s.locks| && s.threads[id].slot < |s.connected|
    case LogResult(id) => id in s.threads && s.threads[id].Answered?
    case ReadCache(id) => id in s.threads && s.threads[id].Listing?
    case ListUpstream(id, _, _, _) =>
      && id in s.threads && s.threads[id].Discovering?
      && s.threads[id].next < |cfg.upstreams| && s.threads[id].next < |s.locks|
      && s.threads[id].next < |s.connected| && s.locks[s.threads[id].next].None?
    case Publish(id) =>
      id in s.threads && s.threads[id].Discovering? && s.threads[id].next == |cfg.upstreams|
  }

  function Goto(s: State, id: nat, pc: Pc): State { s.(threads := s.threads[id := pc]) }

  function Note(s: State, id: nat, slot: nat, tool: string, outcome: Outcome): State {
    Goto(s, id, Finished(slot, tool, outcome)).(records := s.records + [Record(id, slot, tool, outcome)])
  }

  /** Whether the slot holds a client after a connect attempt and a reply. */
  function StillConnected(before: bool, connects: bool, reply: Reply): bool {
    (before || connects) && !reply.TransportDied?
  }

  function Apply(cfg: Config, s: State, a: Action): State
    requires Enabled(cfg, s, a)
  {
    match a
    case TrustChange(now) => s.(trusted := now)
    case Call(id, name) =>
      (match Owner(cfg, name)
       case None => Goto(s, id, Unowned)
       case Some(p) => Goto(s, id, Owned(p.0, p.1)))
    case CheckTrust(id) =>
      var t := s.threads[id];
      if TrustHolds(cfg, s) then Goto(s, id, Vouched(t.slot, t.tool)).(vouched := s.vouched + {id})
      else Note(s, id, t.slot, t.tool, TrustRefused)
    case CheckPolicy(id) =>
      var t := s.threads[id];
      if t.slot < |cfg.upstreams| && cfg.allows(cfg.upstreams[t.slot].name, t.tool)
      then Goto(s, id, Allowed(t.slot, t.tool))
      else Note(s, id, t.slot, t.tool, Denied)
    case TakeLock(id) =>
      var t := s.threads[id];
      Goto(s, id, Holding(t.slot, t.tool)).(locks := s.locks[t.slot := Some(id)])
    case CheckRefs(id) =>
      var t := s.threads[id];
      if cfg.upstreams[t.slot].unresolved
      then Goto(s, id, Answered(t.slot, t.tool, false)).(locks := s.locks[t.slot := None])
      else Goto(s, id, Ready(t.slot, t.tool))
    case Exchange(id, connects, reply) =>
      var t := s.threads[id];
      var up := s.connected[t.slot] || connects;
      Goto(s, id, Answered(t.slot, t.tool, up && reply.Answer?)).(
        locks := s.locks[t.slot := None],
        connected := s.connected[t.slot := StillConnected(s.connected[t.slot], connects, reply)],
        contacts := s.contacts + [CallContact(id, t.slot, t.tool)])
    case LogResult(id) =>
      var t := s.threads[id];
      Note(s, id, t.slot, t.tool, if t.ok then Ok else Error)
    case List(id) =>
      if TrustHolds(cfg, s) then Goto(s, id, Listing).(vouched := s.vouched + {id})
      else Goto(s, id, Handed([]))
    case ReadCache(id) =>
      if s.cache.Some? then Goto(s, id, Handed(s.cache.value)) else Goto(s, id, Discovering(0, []))
    case ListUpstream(id, connects, reply, tools) =>
      var t := s.threads[id];
      var up := s.connected[t.next] || connects;
      var seen := if up && reply.Answer? then Visible(cfg, t.next, tools) else [];
      Goto(s, id, Discovering(t.next + 1, t.found + seen)).(
        connected := s.connected[t.next := StillConnected(s.connected[t.next], connects, reply)],
        contacts := s.contacts + [ListContact(id, t.next)])
    case Publish(id) =>
      Goto(s, id, Handed(s.threads[id].found)).(cache := Some(s.threads[id].found))
  }

  /** Every step of the run can be taken where it stands. */
  ghost predicate Legal(cfg: Config, s: State, run: seq<Action>)
    decreases |run|
  {
    run == [] || (Enabled(cfg, s, run[0]) && Legal(cfg, Apply(cfg, s, run[0]), run[1..]))
  }

  ghost function After(cfg: Config, s: State, run: seq<Action>): State
    requires Legal(cfg, s, run)
    decreases |run|
  {
    if run == [] then s else After(cfg, Apply(cfg, s, run[0]), run[1..])
  }

  // --------------------------------------------------------- what runs keep --

  /** A thread that holds its upstream's lock. */
  predicate Holds(pc: Pc, slot: nat) { (pc.Holding? || pc.Ready?) && pc.slot == slot }

  /** What having come this far proves about a thread. */
  predicate Earned(cfg: Config, pc: Pc) {
    match pc
    case Unowned => true
    case Owned(slot, _) => slot < |cfg.upstreams|
    case Vouched(slot, _) => slot < |cfg.upstreams|
    case Allowed(slot, tool) => slot < |cfg.upstreams| && cfg.allows(cfg.upstreams[slot].name, tool)
    case Holding(slot, tool) => slot < |cfg.upstreams| && cfg.allows(cfg.upstreams[slot].name, tool)
    case Ready(slot, tool) =>
      slot < |cfg.upstreams| && cfg.allows(cfg.upstreams[slot].name, tool) && !cfg.upstreams[slot].unresolved
    case Answered(slot, tool, ok) =>
      && slot < |cfg.upstreams| && cfg.allows(cfg.upstreams[slot].name, tool)
      && (ok ==> !cfg.upstreams[slot].unresolved)
    case Finished(slot, tool, outcome) =>
      && slot < |cfg.upstreams|
      && (outcome.TrustRefused? ==> cfg.anchored)
      && (outcome.Denied? <==> !outcome.TrustRefused? && !cfg.allows(cfg.upstreams[slot].name, tool))
    case Listing => true
    case Discovering(next, found) => next <= |cfg.upstreams| && AllPermitted(cfg, found)
    case Handed(list) => AllPermitted(cfg, list)
  }

  function RecordsFor(records: seq<Record>, id: nat): seq<Record> {
    if records == [] then []
    else
      var rest := RecordsFor(records[..|records| - 1], id);
      var last := records[|records| - 1];
      if last.id == id then rest + [last] else rest
  }

  /** The trust check is behind this thread, and it passed. */
  predicate PastTrust(pc: Pc) {
    || pc.Vouched? || pc.Allowed? || pc.Holding? || pc.Ready? || pc.Answered?
    || (pc.Finished? && !pc.outcome.TrustRefused?)
    || pc.Listing? || pc.Discovering? || (pc.Handed? && pc.list != [])
  }

  ghost predicate ThreadsOk(cfg: Config, s: State) {
    && (forall id :: id in s.threads ==>
          Earned(cfg, s.threads[id]) && (PastTrust(s.threads[id]) ==> id in s.vouched))
    && (forall id :: id in s.vouched ==> id in s.threads)
  }

  /** The rows a thread must have left: one when an owned call is over, none before. */
  function RowsDue(threads: map<nat, Pc>, id: nat): seq<Record> {
    if id in threads && threads[id].Finished?
    then [Record(id, threads[id].slot, threads[id].tool, threads[id].outcome)] else []
  }

  ghost predicate AuditOk(s: State) {
    forall id :: RecordsFor(s.records, id) == RowsDue(s.threads, id)
  }

  /** A lock is held by exactly the thread that works behind it. */
  ghost predicate LocksOk(cfg: Config, s: State) {
    && |s.connected| == |s.locks| == |cfg.upstreams|
    && (forall k :: 0 <= k < |s.locks| && s.locks[k].Some? ==>
          s.locks[k].value in s.threads && Holds(s.threads[s.locks[k].value], k))
    && (forall id, k :: id in s.threads && 0 <= k < |s.locks| && Holds(s.threads[id], k) ==> s.locks[k] == Some(id))
  }

  /** Every contact was made by a thread whose checks had all passed. */
  predicate ContactOk(cfg: Config, s: State, c: Contact) {
    && c.id in s.vouched && c.id in s.threads && c.slot < |cfg.upstreams|
    && (c.CallContact? ==>
          && cfg.allows(cfg.upstreams[c.slot].name, c.tool)
          && !cfg.upstreams[c.slot].unresolved
          && (|| (s.threads[c.id].Answered? && s.threads[c.id].slot == c.slot && s.threads[c.id].tool == c.tool)
              || s.threads[c.id] == Finished(c.slot, c.tool, Ok)
              || s.threads[c.id] == Finished(c.slot, c.tool, Error)))
    && (c.ListContact? ==> s.threads[c.id].Discovering? || s.threads[c.id].Handed?)
  }

  ghost predicate ContactsOk(cfg: Config, s: State) {
    forall i :: 0 <= i < |s.contacts| ==> ContactOk(cfg, s, s.contacts[i])
  }

  ghost predicate CacheOk(cfg: Config, s: State) { s.cache.Some? ==> AllPermitted(cfg, s.cache.value) }

  ghost predicate Inv(cfg: Config, s: State) {
    ThreadsOk(cfg, s) && AuditOk(s) && LocksOk(cfg, s) && ContactsOk(cfg, s) && CacheOk(cfg, s)
  }

  lemma InitialInv(cfg: Config, s: State)
    requires IsInitial(cfg, s)
    ensures Inv(cfg, s)
  {
  }

  /** Nothing but one thread, and perhaps its entry in `vouched`, moves. */
  lemma MoveThread(cfg: Config, s: State, s': State, id: nat, pc: Pc)
    requires ThreadsOk(cfg, s) && s'.threads == s.threads[id := pc]
    requires s.vouched <= s'.vouched <= s.vouched + {id}
    requires Earned(cfg, pc) && (PastTrust(pc) ==> id in s'.vouched)
    ensures ThreadsOk(cfg, s')
  {
  }

  lemma FoundGrows(cfg: Config, found: seq<Listed>, slot: nat, tools: seq<Tool>)
    requires slot < |cfg.upstreams| && AllPermitted(cfg, found)
    ensures AllPermitted(cfg, found + Visible(cfg, slot, tools))
  {
    VisibleIsPermitted(cfg, slot, tools);
  }

  /** The thread a step leaves behind: still sound, and vouched for when it must be. */
  ghost predicate LeavesSound(cfg: Config, s: State, s': State, id: nat) {
    && id in s'.threads && s'.threads == s.threads[id := s'.threads[id]]
    && Earned(cfg, s'.threads[id])
    && (PastTrust(s'.threads[id]) ==> id in s'.vouched)
    && s.vouched <= s'.vouched <= s.vouched + {id}
  }

  lemma {:induction false} CallStepEarned(cfg: Config, s: State, a: Action)
    requires ThreadsOk(cfg, s) && Enabled(cfg, s, a)
    requires a.Call? || a.CheckTrust? || a.CheckPolicy? || a.TakeLock? || a.CheckRefs? || a.Exchange? || a.LogResult?
    ensures LeavesSound(cfg, s, Apply(cfg, s, a), a.id)
  {
    assert a.id in s.threads ==> Earned(cfg, s.threads[a.id]) && (PastTrust(s.threads[a.id]) ==> a.id in s.vouched);
  }

  lemma {:induction false} ListStepEarned(cfg: Config, s: State, a: Action)
    requires ThreadsOk(cfg, s) && CacheOk(cfg, s) && Enabled(cfg, s, a)
    requires a.List? || a.ReadCache? || a.ListUpstream? || a.Publish?
    ensures LeavesSound(cfg, s, Apply(cfg, s, a), a.id)
  {
    assert a.id in s.threads ==> Earned(cfg, s.threads[a.id]) && (PastTrust(s.threads[a.id]) ==> a.id in s.vouched);
    if a.ListUpstream? {
      FoundGrows(cfg, s.threads[a.id].found, s.threads[a.id].next, a.tools);
      assert s.threads[a.id].found + [] == s.threads[a.id].found;
    }
  }

  lemma {:induction false} StepThreads(cfg: Config, s: State, a: Action)
    requires Inv(cfg, s) && Enabled(cfg, s, a)
    ensures ThreadsOk(cfg, Apply(cfg, s, a))
  {
    if !a.TrustChange? {
      if a.List? || a.ReadCache? || a.ListUpstream? || a.Publish? {
        ListStepEarned(cfg, s, a);
      } else {
        CallStepEarned(cfg, s, a);
      }
      var s' := Apply(cfg, s, a);
      MoveThread(cfg, s, s', a.id, s'.threads[a.id]);
    }
  }

  lemma RecordsForSnoc(records: seq<Record>, r: Record, id: nat)
    ensures RecordsFor(records + [r], id)
            == if r.id == id then RecordsFor(records, id) + [r] else RecordsFor(records, id)
  {
    assert (records + [r])[..|records|] == records;
  }

  lemma {:induction false} NoteAudit(s: State, id: nat, slot: nat, tool: string, outcome: Outcome)
    requires AuditOk(s) && id in s.threads && !s.threads[id].Finished?
    ensures AuditOk(Note(s, id, slot, tool, outcome))
  {
    var r := Record(id, slot, tool, outcome);
    var t := s.threads[id := Finished(slot, tool, outcome)];
    forall x ensures RecordsFor(s.records + [r], x) == RowsDue(t, x) {
      RecordsForSnoc(s.records, r, x);
      assert RecordsFor(s.records, x) == RowsDue(s.threads, x);
    }
  }

  lemma {:induction false} MoveAudit(s: State, id: nat, pc: Pc)
    requires AuditOk(s) && !pc.Finished? && (id in s.threads ==> !s.threads[id].Finished?)
    ensures AuditOk(Goto(s, id, pc))
  {
    forall x ensures RecordsFor(s.records, x) == RowsDue(s.threads[id := pc], x) {
      assert RecordsFor(s.records, x) == RowsDue(s.threads, x);
    }
  }

  lemma {:induction false} StepAudit(cfg: Config, s: State, a: Action)
    requires Inv(cfg, s) && Enabled(cfg, s, a)
    ensures AuditOk(Apply(cfg, s, a))
  {
    if !a.TrustChange? {
      var s' := Apply(cfg, s, a);
      var pc := s'.threads[a.id];
      if pc.Finished? {
        NoteAudit(s, a.id, pc.slot, pc.tool, pc.outcome);
      } else {
        MoveAudit(s, a.id, pc);
      }
    }
  }

  lemma MoveFree(cfg: Config, s: State, s': State, id: nat, pc: Pc)
    requires LocksOk(cfg, s) && s'.threads == s.threads[id := pc]
    requires s'.locks == s.locks && |s'.connected| == |s.connected|
    requires forall k :: 0 <= k < |s.locks| ==> (Holds(pc, k) <==> id in s.threads && Holds(s.threads[id], k))
    ensures LocksOk(cfg, s')
  {
  }

  lemma MoveTake(cfg: Config, s: State, s': State, id: nat, pc: Pc)
    requires LocksOk(cfg, s) && s'.threads == s.threads[id := pc] && |s'.connected| == |s.connected|
    requires id in s.threads && s.threads[id].Allowed?
    requires pc.Holding? && pc.slot < |s.locks| && s.locks[pc.slot].None? && s'.locks == s.locks[pc.slot := Some(id)]
    ensures LocksOk(cfg, s')
  {
  }

  lemma MoveRelease(cfg: Config, s: State, s': State, id: nat, pc: Pc)
    requires LocksOk(cfg, s) && s'.threads == s.threads[id := pc] && |s'.connected| == |s.connected|
    requires id in s.threads && (s.threads[id].Holding? || s.threads[id].Ready?) && s.threads[id].slot < |s.locks|
    requires pc.Answered? && s'.locks == s.locks[s.threads[id].slot := None]
    ensures LocksOk(cfg, s')
  {
    assert s.locks[s.threads[id].slot] == Some(id);
  }

  lemma {:induction false} StepLocks(cfg: Config, s: State, a: Action)
    requires Inv(cfg, s) && Enabled(cfg, s, a)
    ensures LocksOk(cfg, Apply(cfg, s, a))
  {
    if !a.TrustChange? {
      var s' := Apply(cfg, s, a);
      var pc := s'.threads[a.id];
      if a.TakeLock? {
        MoveTake(cfg, s, s', a.id, pc);
      } else if (a.CheckRefs? && pc.Answered?) || a.Exchange? {
        MoveRelease(cfg, s, s', a.id, pc);
      } else {
        MoveFree(cfg, s, s', a.id, pc);
      }
    }
  }

  /** A contact stays accounted for while threads only move forward. */
  lemma {:induction false} KeepContact(cfg: Config, s: State, a: Action, c: Contact)
    requires Enabled(cfg, s, a) && ContactOk(cfg, s, c)
    ensures ContactOk(cfg, Apply(cfg, s, a), c)
  {
  }

  lemma {:induction false} StepContacts(cfg: Config, s: State, a: Action)
    requires Inv(cfg, s) && Enabled(cfg, s, a)
    ensures ContactsOk(cfg, Apply(cfg, s, a))
  {
    var s' := Apply(cfg, s, a);
    forall i | 0 <= i < |s.contacts| ensures ContactOk(cfg, s', s.contacts[i]) {
      KeepContact(cfg, s, a, s.contacts[i]);
    }
    if a.Exchange? || a.ListUpstream? {
      assert ContactOk(cfg, s', s'.contacts[|s.contacts|]);
    }
  }

  /** Every step keeps the invariant, whatever the other threads, the upstreams
      and the outside world do. */
  lemma {:induction false} StepInv(cfg: Config, s: State, a: Action)
    requires Inv(cfg, s) && Enabled(cfg, s, a)
    ensures Inv(cfg, Apply(cfg, s, a))
  {
    StepThreads(cfg, s, a);
    StepAudit(cfg, s, a);
    StepLocks(cfg, s, a);
    StepContacts(cfg, s, a);
    if a.Publish? {
      assert Earned(cfg, s.threads[a.id]);
    }
  }

  lemma {:induction false} RunInv(cfg: Config, s: State, run: seq<Action>)
    requires Inv(cfg, s) && Legal(cfg, s, run)
    ensures Inv(cfg, After(cfg, s, run))
    decreases |run|
  {
    if run == [] {
    } else {
      StepInv(cfg, s, run[0]);
      RunInv(cfg, Apply(cfg, s, run[0]), run[1..]);
    }
  }

  // --------------------------------------------------------------- theorems --

  /** No two threads work behind one upstream's lock. */
  ghost predicate MutuallyExclusive(s: State) {
    forall a, b, k | a in s.threads && b in s.threads && 0 <= k < |s.locks| ::
      Holds(s.threads[a], k) && Holds(s.threads[b], k) ==> a == b
  }

  /** In every run, whatever the interleaving: an upstream is contacted, for a call
      or a listing, only by a thread whose trust check passed, and for a call only
      after its policy and reference checks passed too; every finished owned call
      has left exactly one audit row and every other thread none; every list
      handed out or cached holds only permitted tools, and one that is not empty
      went to a thread whose trust check passed; and no two threads work behind
      one upstream's lock. */
  lemma {:induction false} EveryRunIsSafe(cfg: Config, s0: State, run: seq<Action>)
    requires IsInitial(cfg, s0) && Legal(cfg, s0, run)
    ensures var s := After(cfg, s0, run);
            && (forall c :: c in s.contacts ==>
                  && c.id in s.vouched && c.slot < |cfg.upstreams|
                  && (c.CallContact? ==> cfg.allows(cfg.upstreams[c.slot].name, c.tool)
                                         && !cfg.upstreams[c.slot].unresolved))
            && (forall id :: RecordsFor(s.records, id) == RowsDue(s.threads, id))
            && (forall id :: id in s.threads && s.threads[id].Handed? ==>
                  AllPermitted(cfg, s.threads[id].list) && (s.threads[id].list != [] ==> id in s.vouched))
            && (s.cache.Some? ==> AllPermitted(cfg, s.cache.value))
            && MutuallyExclusive(s)
  {
    InitialInv(cfg, s0);
    RunInv(cfg, s0, run);
    var s := After(cfg, s0, run);
    forall c | c in s.contacts ensures ContactOk(cfg, s, c) {
      var i :| 0 <= i < |s.contacts| && s.contacts[i] == c;
    }
    forall id | id in s.threads && s.threads[id].Handed?
      ensures AllPermitted(cfg, s.threads[id].list) && (s.threads[id].list != [] ==> id in s.vouched)
    {
      assert Earned(cfg, s.threads[id]) && (PastTrust(s.threads[id]) ==> id in s.vouched);
    }
    forall a, b, k | a in s.threads && b in s.threads && 0 <= k < |s.locks|
                     && Holds(s.threads[a], k) && Holds(s.threads[b], k)
      ensures a == b
    {
      assert s.locks[k] == Some(a) && s.locks[k] == Some(b);
    }
  }

  lemma {:induction false} AfterSnoc(cfg: Config, s: State, run: seq<Action>, a: Action)
    requires Legal(cfg, s, run) && Enabled(cfg, After(cfg, s, run), a)
    ensures Legal(cfg, s, run + [a])
    ensures After(cfg, s, run + [a]) == Apply(cfg, After(cfg, s, run), a)
    decreases |run|
  {
    if run == [] {
      assert (run + [a])[1..] == [];
    } else {
      AfterSnoc(cfg, Apply(cfg, s, run[0]), run[1..], a);
      assert (run + [a])[1..] == run[1..] + [a];
    }
  }

  /** A vouched thread's own check ran at a moment when trust held. */
  lemma {:induction false} VouchedWasTrusted(cfg: Config, s: State, run: seq<Action>, id: nat) returns (i: nat)
    requires Legal(cfg, s, run) && id !in s.vouched && id in After(cfg, s, run).vouched
    ensures i < |run| && (run[i] == CheckTrust(id) || run[i] == List(id))
    ensures Legal(cfg, s, run[..i]) && TrustHolds(cfg, After(cfg, s, run[..i]))
    decreases |run|
  {
    var next := Apply(cfg, s, run[0]);
    if id in next.vouched {
      i := 0;
    } else {
      var k := VouchedWasTrusted(cfg, next, run[1..], id);
      i := k + 1;
      assert run[..i][1..] == run[1..][..k];
    }
  }

  // ------------------------------------------------- what the rows report --

  /** The outcome a step decides for a call, read off the state it is taken in: a
      refusal, or how the exchange with the upstream went. */
  function Decides(cfg: Config, s: State, a: Action, id: nat): Option<Outcome> {
    if !Enabled(cfg, s, a) then None
    else match a
      case CheckTrust(x) => if x == id && !TrustHolds(cfg, s) then Some(TrustRefused) else None
      case CheckPolicy(x) => if x == id && !PolicyAllows(cfg, s.threads[id]) then Some(Denied) else None
      case CheckRefs(x) => if x == id && cfg.upstreams[s.threads[id].slot].unresolved then Some(Error) else None
      case Exchange(x, connects, reply) =>
        if x != id then None
        else if (s.connected[s.threads[id].slot] || connects) && reply.Answer? then Some(Ok)
        else Some(Error)
      case _ => None
  }

  predicate PolicyAllows(cfg: Config, pc: Pc)
    requires pc.Vouched?
  {
    pc.slot < |cfg.upstreams| && cfg.allows(cfg.upstreams[pc.slot].name, pc.tool)
  }

  /** All the decisions of a run about one call, in order. */
  ghost function Decisions(cfg: Config, s: State, run: seq<Action>, id: nat): seq<Outcome>
    requires Legal(cfg, s, run)
    decreases |run|
  {
    if run == [] then []
    else
      var d := Decides(cfg, s, run[0], id);
      (if d.Some? then [d.value] else []) + Decisions(cfg, Apply(cfg, s, run[0]), run[1..], id)
  }

  /** What has been decided about a call that has come this far. */
  function Decided(threads: map<nat, Pc>, id: nat): seq<Outcome> {
    if id !in threads then []
    else match threads[id]
      case Answered(_, _, ok) => [if ok then Ok else Error]
      case Finished(_, _, outcome) => [outcome]
      case _ => []
  }

  lemma {:induction false} StepDecides(cfg: Config, s: State, a: Action, id: nat)
    requires Enabled(cfg, s, a)
    ensures var d := Decides(cfg, s, a, id);
            Decided(Apply(cfg, s, a).threads, id)
            == if d.Some? then [d.value] else Decided(s.threads, id)
    ensures Decides(cfg, s, a, id).Some? ==> Decided(s.threads, id) == []
  {
  }

  /** Every run decides each call at most once, and what the call reports is what
      the run decided. */
  lemma {:induction false} DecidedOnce(cfg: Config, s: State, run: seq<Action>, id: nat)
    requires Legal(cfg, s, run)
    ensures Decided(After(cfg, s, run).threads, id) == Decided(s.threads, id) + Decisions(cfg, s, run, id)
    decreases |run|
  {
    if run == [] {
    } else {
      StepDecides(cfg, s, run[0], id);
      DecidedOnce(cfg, Apply(cfg, s, run[0]), run[1..], id);
    }
  }

  /** Step `i` of the run decides `o` for the call. */
  ghost predicate DecidedAt(cfg: Config, s: State, run: seq<Action>, i: nat, id: nat, o: Outcome) {
    i < |run| && Legal(cfg, s, run[..i]) && Decides(cfg, After(cfg, s, run[..i]), run[i], id) == Some(o)
  }

  lemma {:induction false} DecidedNextAt(cfg: Config, s: State, run: seq<Action>, i: nat, id: nat, o: Outcome)
    requires Legal(cfg, s, run) && run != []
    ensures DecidedAt(cfg, s, run, i + 1, id, o) <==> DecidedAt(cfg, Apply(cfg, s, run[0]), run[1..], i, id, o)
  {
    if i < |run[1..]| {
      assert run[..i + 1][0] == run[0] && run[..i + 1][1..] == run[1..][..i];
    }
  }

  lemma {:induction false} DecisionsAreSteps(cfg: Config, s: State, run: seq<Action>, id: nat, o: Outcome)
    requires Legal(cfg, s, run)
    ensures o in Decisions(cfg, s, run, id) <==> exists i: nat :: DecidedAt(cfg, s, run, i, id, o)
    decreases |run|
  {
    if run == [] {
    } else {
      var next, rest := Apply(cfg, s, run[0]), run[1..];
      DecisionsAreSteps(cfg, next, rest, id, o);
      assert run[..0] == [];
      assert DecidedAt(cfg, s, run, 0, id, o) <==> Decides(cfg, s, run[0], id) == Some(o);
      if i: nat :| DecidedAt(cfg, next, rest, i, id, o) {
        DecidedNextAt(cfg, s, run, i, id, o);
      }
      if i: nat :| DecidedAt(cfg, s, run, i, id, o) {
        if i > 0 {
          DecidedNextAt(cfg, s, run, i - 1, id, o);
        }
      }
    }
  }

  /** In every run, the row a call leaves reports what happened: its outcome is `o`
      if and only if some step of the run decided `o` for it: `TrustRefused` by a
      trust check that failed, `Denied` by a policy check that failed, `Error` by
      an unresolved reference or a failed exchange, and `Ok` by an exchange with a
      live client that answered. */
  lemma {:induction false} RowsTellTheTruth(cfg: Config, s0: State, run: seq<Action>, r: Record, o: Outcome)
    requires IsInitial(cfg, s0) && Legal(cfg, s0, run) && r in After(cfg, s0, run).records
    ensures r.outcome == o <==> exists i: nat :: DecidedAt(cfg, s0, run, i, r.id, o)
  {
    var s := After(cfg, s0, run);
    EveryRunIsSafe(cfg, s0, run);
    RowIsFound(s.records, r);
    assert RecordsFor(s.records, r.id) == RowsDue(s.threads, r.id) == [r];
    DecidedOnce(cfg, s0, run, r.id);
    assert Decisions(cfg, s0, run, r.id) == [r.outcome];
    DecisionsAreSteps(cfg, s0, run, r.id, o);
  }

  lemma {:induction false} RowIsFound(records: seq<Record>, r: Record)
    requires r in records
    ensures r in RecordsFor(records, r.id)
    decreases |records|
  {
    var n := |records| - 1;
    if records[n] != r {
      assert records == records[..n] + [records[n]];
      RowIsFound(records[..n], r);
    }
  }

  /** No discovery is under way. */
  ghost predicate Settled(s: State) {
    s.cache.Some? && forall id :: id in s.threads ==> !s.threads[id].Discovering?
  }

  /** Racing first discoveries may each publish; once none is under way the cache
      never changes again. */
  lemma {:induction false} CacheSettles(cfg: Config, s: State, run: seq<Action>)
    requires Settled(s) && Legal(cfg, s, run)
    ensures After(cfg, s, run).cache == s.cache
    decreases |run|
  {
    if run == [] {
    } else {
      var next := Apply(cfg, s, run[0]);
      assert next.cache == s.cache && Settled(next);
      CacheSettles(cfg, next, run[1..]);
    }
  }

  lemma {:induction false} AfterSplit(cfg: Config, s: State, run: seq<Action>, i: nat)
    requires Legal(cfg, s, run) && i <= |run|
    ensures Legal(cfg, s, run[..i]) && Legal(cfg, After(cfg, s, run[..i]), run[i..])
    ensures After(cfg, s, run) == After(cfg, After(cfg, s, run[..i]), run[i..])
    decreases i
  {
    if i == 0 {
      assert run[..0] == [] && run[0..] == run;
    } else {
      AfterSplit(cfg, Apply(cfg, s, run[0]), run[1..], i - 1);
      assert run[..i][1..] == run[1..][..i - 1] && run[i..] == run[1..][i - 1..];
    }
  }

  /** A thread that was handed its list is through. */
  lemma {:induction false} HandedStays(cfg: Config, s: State, run: seq<Action>, id: nat, list: seq<Listed>)
    requires Legal(cfg, s, run) && id in s.threads && s.threads[id] == Handed(list)
    ensures id in After(cfg, s, run).threads && After(cfg, s, run).threads[id] == Handed(list)
    ensures id in After(cfg, s, run).vouched <==> id in s.vouched
    decreases |run|
  {
    if run == [] {
    } else {
      HandedStays(cfg, Apply(cfg, s, run[0]), run[1..], id, list);
    }
  }

  /** A listing that starts while trust does not hold: in every run it ends with the
      empty list, is never vouched for, contacts nobody, and has not touched the
      cache. */
  lemma {:induction false} UntrustedListing(cfg: Config, s0: State, run: seq<Action>, i: nat, id: nat)
    requires IsInitial(cfg, s0) && Legal(cfg, s0, run) && i < |run| && run[i] == List(id)
    requires Legal(cfg, s0, run[..i]) && !TrustHolds(cfg, After(cfg, s0, run[..i]))
    ensures var s := After(cfg, s0, run);
            && id in s.threads && s.threads[id] == Handed([]) && id !in s.vouched
            && forall c :: c in s.contacts ==> c.id != id
    ensures Legal(cfg, s0, run[..i + 1])
    ensures After(cfg, s0, run[..i + 1]).cache == After(cfg, s0, run[..i]).cache
  {
    var s, a := After(cfg, s0, run[..i]), run[i];
    InitialInv(cfg, s0);
    AfterSplit(cfg, s0, run, i);
    RunInv(cfg, s0, run[..i]);
    assert run[i..][0] == a && run[i..][1..] == run[i + 1..];
    HandedStays(cfg, Apply(cfg, s, a), run[i + 1..], id, []);
    EveryRunIsSafe(cfg, s0, run);
    assert run[..i + 1] == run[..i] + [a];
    AfterSnoc(cfg, s0, run[..i], a);
  }

  /** What a listing thread has in hand. */
  function InHand(pc: Pc): seq<Listed> {
    match pc
    case Discovering(_, found) => found
    case Handed(list) => list
    case _ => []
  }

  lemma {:induction false} InHandStays(cfg: Config, s: State, run: seq<Action>, id: nat, x: Listed)
    requires Legal(cfg, s, run) && id in s.threads && x in InHand(s.threads[id])
    ensures id in After(cfg, s, run).threads && x in InHand(After(cfg, s, run).threads[id])
    decreases |run|
  {
    if run == [] {
    } else {
      InHandStays(cfg, Apply(cfg, s, run[0]), run[1..], id, x);
    }
  }

  /** Under any interleaving, a permitted, cleanly named tool of an upstream that
      answered a discovery is in that discovery's list from then on. */
  lemma {:induction false} AnswersAreListed(cfg: Config, s: State, run: seq<Action>, i: nat, t: Tool)
    requires Legal(cfg, s, run) && i < |run| && run[i].ListUpstream? && Legal(cfg, s, run[..i])
    requires var m, a := After(cfg, s, run[..i]), run[i];
             && Enabled(cfg, m, a) && (m.connected[m.threads[a.id].next] || a.connects) && a.reply.Answer?
             && t in a.tools
             && cfg.allows(cfg.upstreams[m.threads[a.id].next].name, PolicyName(t)) && !cfg.hostile(BareName(t))
    ensures var id, k := run[i].id, After(cfg, s, run[..i]).threads[run[i].id].next;
            && id in After(cfg, s, run).threads
            && Listed(k, t, Qualify(cfg.upstreams[k].name, BareName(t))) in InHand(After(cfg, s, run).threads[id])
  {
    var m, a := After(cfg, s, run[..i]), run[i];
    var k := m.threads[a.id].next;
    VisibleIsComplete(cfg, k, a.tools, t);
    AfterSplit(cfg, s, run, i);
    assert run[i..][0] == a && run[i..][1..] == run[i + 1..];
    InHandStays(cfg, Apply(cfg, m, a), run[i + 1..], a.id, Listed(k, t, Qualify(cfg.upstreams[k].name, BareName(t))));
  }

  /** A client slot empties only when its own upstream's transport dies. */
  lemma {:induction false} ClientsOnlyDieOfTransport(cfg: Config, s: State, a: Action, k: nat)
    requires LocksOk(cfg, s) && Enabled(cfg, s, a) && k < |s.connected| && s.connected[k]
    ensures !Apply(cfg, s, a).connected[k] <==>
              || (a.Exchange? && s.threads[a.id].slot == k && a.reply.TransportDied?)
              || (a.ListUpstream? && s.threads[a.id].next == k && a.reply.TransportDied?)
  {
  }
}
