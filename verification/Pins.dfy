/** Deriving, locking and verifying executable pins
    (crates/cli/src/executable.rs, crates/core/src/lock.rs). */
module Pins {
  import opened Text
  import opened Executable

  const MAX_DEPTH := 64

  datatype Kind = FilePin | RootPin

  /** One file below an integrity root. */
  datatype Leaf = Leaf(path: Path, content: seq<int>)

  /** Digests are collision-free functions of what they cover, and the two
      families never meet. */
  datatype Checksum = OfFile(content: seq<int>) | OfRoot(leaves: seq<Leaf>)

  datatype Pin = Pin(path: Path, kind: Kind, checksum: Checksum)

  datatype Server = Server(
    stdio: bool, command: Option<string>, args: seq<string>, cwd: Option<string>, roots: seq<string>)

  // ---------------------------------------------------------------- digests --

  function Prefixed(name: string, leaves: seq<Leaf>): (r: seq<Leaf>)
    ensures |r| == |leaves|
  {
    if leaves == [] then []
    else [Leaf([name] + leaves[0].path, leaves[0].content)] + Prefixed(name, leaves[1..])
  }

  /** Every file of a subtree; a link or a special file anywhere is an error, and
      so is nesting past the bound. */
  function Leaves(n: Node, depth: nat): Option<seq<Leaf>> {
    match n
    case File(c) => Some([Leaf([], c)])
    case Dir(items) => if depth > MAX_DEPTH then None else ItemLeaves(items, depth)
    case _ => None
  }

  function ItemLeaves(items: seq<Item>, depth: nat): Option<seq<Leaf>> {
    if items == [] then Some([])
    else
      var first, rest := Leaves(items[0].node, depth + 1), ItemLeaves(items[1..], depth);
      if first.None? || rest.None? then None else Some(Prefixed(items[0].name, first.value) + rest.value)
  }

  /** The checksum of the node a lock key names, when it has one. */
  function ChecksumAt(root: Node, path: Path, kind: Kind): Option<Checksum> {
    match Lookup(root, path)
    case None => None
    case Some(n) =>
      if kind.FilePin? then (if n.File? then Some(OfFile(n.content)) else None)
      else match Leaves(n, 0) case Some(ls) => Some(OfRoot(ls)) case None => None
  }

  // ------------------------------------------------------------- derivation --

  datatype Anchor = At(path: Path) | Unanchored | BadCwd

  /** `server_anchor`: an absolute or `${REF}` directory is nobody's content; a
      relative one must resolve to a real directory inside the project. */
  function AnchorOf(root: Node, cwd: Option<string>): Anchor {
    if cwd.None? then At([])
    else if HasReference(cwd.value) || IsAbsolute(cwd.value) then Unanchored
    else match Resolve(root, cwd.value)
      case None => BadCwd
      case Some(p) => if Lookup(root, p).Some? && Lookup(root, p).value.Dir? then At(p) else BadCwd
  }

  function Candidates(s: Server): seq<string> {
    (if s.command.Some? then [s.command.value] else []) + s.args
  }

  function FilePins(root: Node, anchor: Path, cands: seq<string>): Option<seq<Pin>> {
    if cands == [] then Some([])
    else
      var rest := FilePins(root, anchor, cands[1..]);
      match Classify(root, anchor, cands[0])
      case NotLocal => rest
      case Rejected => None
      case LocalFile(p) =>
        var sum := ChecksumAt(root, p, FilePin);
        if sum.None? || rest.None? then None else Some([Pin(p, FilePin, sum.value)] + rest.value)
  }

  function RootPins(root: Node, roots: seq<string>): Option<seq<Pin>> {
    if roots == [] then Some([])
    else
      var rest := RootPins(root, roots[1..]);
      match Resolve(root, roots[0])
      case None => None
      case Some(p) =>
        var sum := ChecksumAt(root, p, RootPin);
        if sum.None? || rest.None? then None
        else Some([Pin(Normalize(roots[0]), RootPin, sum.value)] + rest.value)
  }

  /** The file pins of a server's command and arguments. */
  function AnchoredPins(root: Node, s: Server): Option<seq<Pin>> {
    if !s.stdio then Some([])
    else match AnchorOf(root, s.cwd)
      case BadCwd => None
      case Unanchored => Some([])
      case At(p) => FilePins(root, p, Candidates(s))
  }

  /** The pin set one server contributes; `None` is a hard error. */
  function Derive(root: Node, s: Server): Option<seq<Pin>> {
    var files, roots := AnchoredPins(root, s), RootPins(root, s.roots);
    if files.None? || roots.None? then None else Some(files.value + roots.value)
  }

  /** Pins already collected, and those still to come. */
  function Extend(done: seq<Pin>, rest: Option<seq<Pin>>): Option<seq<Pin>> {
    if rest.Some? then Some(done + rest.value) else None
  }

  lemma {:induction false} FilePinsStep(root: Node, anchor: Path, cands: seq<string>, i: nat, done: seq<Pin>)
    requires i < |cands|
    ensures var v, rest := Classify(root, anchor, cands[i]), FilePins(root, anchor, cands[i + 1..]);
            && (v.NotLocal? ==> Extend(done, FilePins(root, anchor, cands[i..])) == Extend(done, rest))
            && (v.Rejected? ==> Extend(done, FilePins(root, anchor, cands[i..])) == None)
            && (v.LocalFile? ==>
                  var sum := ChecksumAt(root, v.path, FilePin);
                  Extend(done, FilePins(root, anchor, cands[i..]))
                  == if sum.None? then None else Extend(done + [Pin(v.path, FilePin, sum.value)], rest))
  {
    var here := cands[i..];
    assert here[0] == cands[i] && here[1..] == cands[i + 1..];
    var v, rest := Classify(root, anchor, cands[i]), FilePins(root, anchor, here[1..]);
    if v.LocalFile? && rest.Some? && ChecksumAt(root, v.path, FilePin).Some? {
      var pin := Pin(v.path, FilePin, ChecksumAt(root, v.path, FilePin).value);
      assert done + ([pin] + rest.value) == done + [pin] + rest.value;
    }
  }

  /** The candidate loop of `derive_executable_pins`. */
  method DeriveFilePins(root: Node, anchor: Path, cands: seq<string>) returns (pins: Option<seq<Pin>>)
    ensures pins == FilePins(root, anchor, cands)
  {
    var out: seq<Pin> := [];
    ghost var all := FilePins(root, anchor, cands);
    assert cands[0..] == cands;
    assert all.Some? ==> [] + all.value == all.value;
    for i := 0 to |cands|
      invariant Extend(out, FilePins(root, anchor, cands[i..])) == all
    {
      FilePinsStep(root, anchor, cands, i, out);
      var v := ClassifyLocalExecutable(root, anchor, cands[i]);
      if v.Rejected? {
        return None;
      }
      if v.LocalFile? {
        var sum := ChecksumAt(root, v.path, FilePin);
        if sum.None? {
          return None;
        }
        out := out + [Pin(v.path, FilePin, sum.value)];
      }
    }
    assert cands[|cands|..] == [] && out + [] == out;
    pins := Some(out);
  }

  // ------------------------------------------------------------ lock, verify --

  type Lock = map<(Path, Kind), Checksum>

  function Upsert(lock: Lock, pins: seq<Pin>): Lock
    decreases |pins|
  {
    if pins == [] then lock else Upsert(lock[(pins[0].path, pins[0].kind) := pins[0].checksum], pins[1..])
  }

  datatype Status = Matches | MissingLockEntry | ChecksumDrift | ResolveFailed

  function StatusOf(lock: Lock, pin: Pin): Status {
    if (pin.path, pin.kind) !in lock then MissingLockEntry
    else if lock[(pin.path, pin.kind)] != pin.checksum then ChecksumDrift
    else Matches
  }

  /** One labelled status per pin of one server, or one failure for the server. */
  datatype Row = Row(server: nat, pin: Option<Pin>, status: Status)

  function RowsOf(lock: Lock, server: nat, pins: seq<Pin>): (r: seq<Row>)
    ensures |r| == |pins|
    ensures forall i :: 0 <= i < |r| ==> r[i] == Row(server, Some(pins[i]), StatusOf(lock, pins[i]))
  {
    if pins == [] then []
    else [Row(server, Some(pins[0]), StatusOf(lock, pins[0]))] + RowsOf(lock, server, pins[1..])
  }

  function ServerRows(root: Node, lock: Lock, i: nat, s: Server): seq<Row> {
    match Derive(root, s)
    case None => [Row(i, None, ResolveFailed)]
    case Some(pins) => RowsOf(lock, i, pins)
  }

  function Statuses(root: Node, servers: seq<Server>, lock: Lock): seq<Row> {
    if servers == [] then []
    else Statuses(root, servers[..|servers| - 1], lock)
         + ServerRows(root, lock, |servers| - 1, servers[|servers| - 1])
  }

  function LockAll(root: Node, servers: seq<Server>, lock: Lock): Lock {
    if servers == [] then lock
    else
      var before := LockAll(root, servers[..|servers| - 1], lock);
      match Derive(root, servers[|servers| - 1])
      case None => before
      case Some(pins) => Upsert(before, pins)
  }

  method JudgePins(lock: Lock, server: nat, pins: seq<Pin>) returns (rows: seq<Row>)
    ensures rows == RowsOf(lock, server, pins)
  {
    rows := [];
    for j := 0 to |pins|
      invariant |rows| == j
      invariant forall k :: 0 <= k < j ==> rows[k] == Row(server, Some(pins[k]), StatusOf(lock, pins[k]))
    {
      rows := rows + [Row(server, Some(pins[j]), StatusOf(lock, pins[j]))];
    }
  }

  /** `executable_lock_statuses`: the loop over the servers. */
  method LockStatuses(root: Node, servers: seq<Server>, lock: Lock) returns (rows: seq<Row>)
    ensures rows == Statuses(root, servers, lock)
  {
    rows := [];
    for i := 0 to |servers|
      invariant rows == Statuses(root, servers[..i], lock)
    {
      var derived := Derive(root, servers[i]);
      var more;
      if derived.None? {
        more := [Row(i, None, ResolveFailed)];
      } else {
        more := JudgePins(lock, i, derived.value);
      }
      StatusesStep(root, servers, lock, i);
      rows := rows + more;
    }
    assert servers[..|servers|] == servers;
  }

  lemma {:induction false} StatusesStep(root: Node, servers: seq<Server>, lock: Lock, i: nat)
    requires i < |servers|
    ensures Statuses(root, servers[..i + 1], lock)
            == Statuses(root, servers[..i], lock) + ServerRows(root, lock, i, servers[i])
  {
    assert servers[..i + 1][..i] == servers[..i];
  }

  // -------------------------------------------------------- pins are honest --

  /** A pin carries the checksum of the node its own key names. */
  ghost predicate Honest(root: Node, pin: Pin) { ChecksumAt(root, pin.path, pin.kind) == Some(pin.checksum) }

  ghost predicate AllHonest(root: Node, pins: seq<Pin>) {
    forall i :: 0 <= i < |pins| ==> Honest(root, pins[i])
  }

  lemma {:induction false} FilePinsHonest(root: Node, anchor: Path, cands: seq<string>)
    requires FilePins(root, anchor, cands).Some?
    ensures AllHonest(root, FilePins(root, anchor, cands).value)
  {
    if cands == [] {
    } else {
      FilePinsHonest(root, anchor, cands[1..]);
    }
  }

  lemma {:induction false} RootPinsHonest(root: Node, roots: seq<string>)
    requires RootPins(root, roots).Some?
    ensures AllHonest(root, RootPins(root, roots).value)
  {
    if roots == [] {
    } else {
      RootPinsHonest(root, roots[1..]);
      ResolveIsNormalized(root, roots[0]);
    }
  }

  /** Every derived pin is honest, whatever spelling the manifest used. */
  lemma {:induction false} DeriveHonest(root: Node, s: Server)
    requires Derive(root, s).Some?
    ensures AllHonest(root, Derive(root, s).value)
  {
    RootPinsHonest(root, s.roots);
    if s.stdio && AnchorOf(root, s.cwd).At? {
      FilePinsHonest(root, AnchorOf(root, s.cwd).path, Candidates(s));
    }
  }

  // ------------------------------------------------- nothing stays unpinned --

  /** The node that a list of item positions leads to. */
  function NodeAt(n: Node, at: seq<nat>): Option<Node>
    decreases |at|
  {
    if at == [] then Some(n)
    else if n.Dir? && at[0] < |n.items| then NodeAt(n.items[at[0]].node, at[1..])
    else None
  }

  /** A link, a special file, or a directory nested past the bound. */
  predicate IsUndigestable(n: Node, depth: nat) {
    n.Link? || n.Special? || (n.Dir? && depth > MAX_DEPTH)
  }

  ghost predicate HoldsUndigestable(n: Node, depth: nat) {
    exists at :: NodeAt(n, at).Some? && IsUndigestable(NodeAt(n, at).value, depth + |at|)
  }

  lemma {:induction false} HoldsBelow(n: Node, depth: nat, k: nat)
    requires n.Dir? && k < |n.items| && HoldsUndigestable(n.items[k].node, depth + 1)
    ensures HoldsUndigestable(n, depth)
  {
    var at :| NodeAt(n.items[k].node, at).Some? && IsUndigestable(NodeAt(n.items[k].node, at).value, depth + 1 + |at|);
    assert ([k] + at)[1..] == at;
    assert NodeAt(n, [k] + at) == NodeAt(n.items[k].node, at);
  }

  /** It is this node, or it is below one of its items. */
  lemma {:induction false} HoldsHereOrBelow(n: Node, depth: nat)
    ensures HoldsUndigestable(n, depth)
            <==> || IsUndigestable(n, depth)
                 || (n.Dir? && exists k :: 0 <= k < |n.items| && HoldsUndigestable(n.items[k].node, depth + 1))
  {
    var here: seq<nat> := [];
    assert NodeAt(n, here) == Some(n) && depth + |here| == depth;
    if n.Dir? {
      if k :| 0 <= k < |n.items| && HoldsUndigestable(n.items[k].node, depth + 1) {
        HoldsBelow(n, depth, k);
      }
    }
    if at :| NodeAt(n, at).Some? && IsUndigestable(NodeAt(n, at).value, depth + |at|) {
      if at != [] {
        var k, rest := at[0], at[1..];
        assert NodeAt(n.items[k].node, rest) == NodeAt(n, at) && depth + 1 + |rest| == depth + |at|;
        assert HoldsUndigestable(n.items[k].node, depth + 1);
      }
    }
  }

  /** A subtree has no root digest exactly when it holds such a node somewhere. */
  lemma {:induction false} UndigestableExactly(n: Node, depth: nat)
    ensures Leaves(n, depth).None? <==> HoldsUndigestable(n, depth)
    decreases n
  {
    HoldsHereOrBelow(n, depth);
    if n.Dir? {
      ItemsUndigestable(n.items, depth);
      forall k | 0 <= k < |n.items|
        ensures Leaves(n.items[k].node, depth + 1).None? <==> HoldsUndigestable(n.items[k].node, depth + 1)
      {
        UndigestableExactly(n.items[k].node, depth + 1);
      }
    }
  }

  lemma {:induction false} ItemsUndigestable(items: seq<Item>, depth: nat)
    ensures ItemLeaves(items, depth).None?
            <==> exists k :: 0 <= k < |items| && Leaves(items[k].node, depth + 1).None?
  {
    if items == [] {
    } else {
      var rest := items[1..];
      ItemsUndigestable(rest, depth);
      assert forall k :: 0 <= k < |rest| ==> rest[k] == items[k + 1];
      assert forall k :: 1 <= k < |items| ==> items[k] == rest[k - 1];
    }
  }

  // --------------------------------------------------------- failing closed --

  lemma {:induction false} FilePinsFail(root: Node, anchor: Path, cands: seq<string>)
    requires LinkFree(root, anchor)
    ensures FilePins(root, anchor, cands).None?
            <==> exists i :: 0 <= i < |cands| && Classify(root, anchor, cands[i]).Rejected?
  {
    if cands == [] {
    } else {
      var rest, v := cands[1..], Classify(root, anchor, cands[0]);
      FilePinsFail(root, anchor, rest);
      assert forall i :: 0 <= i < |rest| ==> rest[i] == cands[i + 1];
      assert forall i :: 1 <= i < |cands| ==> cands[i] == rest[i - 1];
      if v.LocalFile? {
        LocalFileIsContained(root, anchor, cands[0]);
      }
    }
  }

  /** A declared root that cannot be pinned: it does not resolve, or what it names
      cannot be digested. */
  ghost predicate IsBrokenRoot(root: Node, declared: string) {
    || Resolve(root, declared).None?
    || Lookup(root, Normalize(declared)).None?
    || HoldsUndigestable(Lookup(root, Normalize(declared)).value, 0)
  }

  lemma {:induction false} RootChecksum(root: Node, declared: string)
    ensures IsBrokenRoot(root, declared)
            <==> Resolve(root, declared).None? || ChecksumAt(root, Resolve(root, declared).value, RootPin).None?
  {
    if Resolve(root, declared).Some? {
      ResolveIsNormalized(root, declared);
      if Lookup(root, Normalize(declared)).Some? {
        UndigestableExactly(Lookup(root, Normalize(declared)).value, 0);
      }
    }
  }

  lemma {:induction false} RootPinsFail(root: Node, roots: seq<string>)
    ensures RootPins(root, roots).None? <==> exists i :: 0 <= i < |roots| && IsBrokenRoot(root, roots[i])
  {
    if roots == [] {
    } else {
      var rest := roots[1..];
      RootPinsFail(root, rest);
      RootChecksum(root, roots[0]);
      assert forall i :: 0 <= i < |rest| ==> rest[i] == roots[i + 1];
      assert forall i :: 1 <= i < |roots| ==> roots[i] == rest[i - 1];
    }
  }

  /** A relative working directory that is no directory inside the project. */
  predicate IsBadCwd(root: Node, cwd: Option<string>) {
    && cwd.Some? && !HasReference(cwd.value) && !IsAbsolute(cwd.value)
    && (|| Resolve(root, cwd.value).None?
        || Lookup(root, Normalize(cwd.value)).None? || !Lookup(root, Normalize(cwd.value)).value.Dir?)
  }

  /** A command or argument that is there and cannot be verified: it climbs, meets
      a link, or ends at something that is neither a file nor a directory. */
  ghost predicate IsUnpinnable(root: Node, anchor: Path, c: string) {
    && IsCandidate(c)
    && var cs, p := ComponentsOf(c), anchor + Normalize(c);
       || IsUnverifiable(root, anchor, cs)
       || (&& Clear(root, anchor, cs, |cs|) && Lookup(root, p).Some?
           && !Lookup(root, p).value.File? && !Lookup(root, p).value.Dir?)
  }

  /** Some command or argument is unpinnable from the server's directory. */
  ghost predicate HasUnpinnable(root: Node, s: Server) {
    && AnchorOf(root, s.cwd).At?
    && exists i :: 0 <= i < |Candidates(s)| && IsUnpinnable(root, AnchorOf(root, s.cwd).path, Candidates(s)[i])
  }

  lemma {:induction false} BadCwdExactly(root: Node, cwd: Option<string>)
    ensures AnchorOf(root, cwd).BadCwd? <==> IsBadCwd(root, cwd)
  {
    if cwd.Some? && Resolve(root, cwd.value).Some? {
      ResolveIsNormalized(root, cwd.value);
    }
  }

  lemma {:induction false} CandidatesFail(root: Node, s: Server)
    requires AnchorOf(root, s.cwd).At?
    ensures FilePins(root, AnchorOf(root, s.cwd).path, Candidates(s)).None? <==> HasUnpinnable(root, s)
  {
    var anchor, cands := AnchorOf(root, s.cwd).path, Candidates(s);
    AnchorIsLinkFree(root, s.cwd);
    FilePinsFail(root, anchor, cands);
    forall i | 0 <= i < |cands|
      ensures Classify(root, anchor, cands[i]).Rejected? <==> IsUnpinnable(root, anchor, cands[i])
    {
      RejectedExactly(root, anchor, cands[i]);
    }
  }

  /** When a server's pins cannot be derived, exactly: its working directory is bad,
      or one of its candidates is unpinnable, or one of its declared roots is
      broken. In every other case it derives. */
  lemma {:induction false} DeriveFailsExactly(root: Node, s: Server)
    ensures Derive(root, s).None?
            <==> || (s.stdio && (IsBadCwd(root, s.cwd) || HasUnpinnable(root, s)))
                 || exists i :: 0 <= i < |s.roots| && IsBrokenRoot(root, s.roots[i])
  {
    RootPinsFail(root, s.roots);
    BadCwdExactly(root, s.cwd);
    if AnchorOf(root, s.cwd).At? {
      CandidatesFail(root, s);
    }
  }

  lemma {:induction false} AnchorIsLinkFree(root: Node, cwd: Option<string>)
    requires AnchorOf(root, cwd).At?
    ensures LinkFree(root, AnchorOf(root, cwd).path)
  {
    if cwd.Some? && Resolve(root, cwd.value).Some? {
      ResolveIsNormalized(root, cwd.value);
    }
  }

  ghost predicate HasPin(pins: seq<Pin>, path: Path, kind: Kind) {
    exists i :: 0 <= i < |pins| && pins[i].path == path && pins[i].kind == kind
  }

  lemma {:induction false} HasPinCons(pin: Pin, rest: seq<Pin>, path: Path, kind: Kind)
    ensures HasPin([pin] + rest, path, kind) <==> (pin.path == path && pin.kind == kind) || HasPin(rest, path, kind)
  {
    var all := [pin] + rest;
    assert all[0] == pin;
    if i :| 0 <= i < |rest| && rest[i].path == path && rest[i].kind == kind {
      assert all[i + 1] == rest[i];
    }
    if i :| 0 <= i < |all| && all[i].path == path && all[i].kind == kind {
      assert i > 0 ==> all[i] == rest[i - 1];
    }
  }

  lemma {:induction false} HasPinJoin(a: seq<Pin>, b: seq<Pin>, path: Path, kind: Kind)
    ensures HasPin(a + b, path, kind) <==> HasPin(a, path, kind) || HasPin(b, path, kind)
  {
    var all := a + b;
    if i :| 0 <= i < |a| && a[i].path == path && a[i].kind == kind {
      assert all[i] == a[i];
    }
    if i :| 0 <= i < |b| && b[i].path == path && b[i].kind == kind {
      assert all[|a| + i] == b[i];
    }
    if i :| 0 <= i < |all| && all[i].path == path && all[i].kind == kind {
      assert all[i] == if i < |a| then a[i] else b[i - |a|];
    }
  }

  lemma {:induction false} FilePinsComplete(root: Node, anchor: Path, cands: seq<string>, path: Path, kind: Kind)
    requires FilePins(root, anchor, cands).Some?
    ensures HasPin(FilePins(root, anchor, cands).value, path, kind)
            <==> kind == FilePin && exists i :: 0 <= i < |cands| && Classify(root, anchor, cands[i]) == LocalFile(path)
  {
    if cands == [] {
    } else {
      var rest, v := cands[1..], Classify(root, anchor, cands[0]);
      FilePinsComplete(root, anchor, rest, path, kind);
      assert forall i :: 0 <= i < |rest| ==> rest[i] == cands[i + 1];
      assert forall i :: 1 <= i < |cands| ==> cands[i] == rest[i - 1];
      if v.LocalFile? {
        HasPinCons(Pin(v.path, FilePin, ChecksumAt(root, v.path, FilePin).value),
                   FilePins(root, anchor, rest).value, path, kind);
      }
    }
  }

  lemma {:induction false} RootPinsComplete(root: Node, roots: seq<string>, path: Path, kind: Kind)
    requires RootPins(root, roots).Some?
    ensures HasPin(RootPins(root, roots).value, path, kind)
            <==> kind == RootPin && exists i :: 0 <= i < |roots| && Normalize(roots[i]) == path
  {
    if roots == [] {
    } else {
      var rest := roots[1..];
      RootPinsComplete(root, rest, path, kind);
      ResolveIsNormalized(root, roots[0]);
      assert forall i :: 0 <= i < |rest| ==> rest[i] == roots[i + 1];
      assert forall i :: 1 <= i < |roots| ==> roots[i] == rest[i - 1];
      HasPinCons(Pin(Normalize(roots[0]), RootPin, ChecksumAt(root, Normalize(roots[0]), RootPin).value),
                 RootPins(root, rest).value, path, kind);
    }
  }

  /** The candidate names a regular file inside the project: read off the string
      and the tree alone. */
  ghost predicate NamesFile(root: Node, anchor: Path, c: string) {
    && IsCandidate(c)
    && (forall i :: 0 <= i < |ComponentsOf(c)| ==> ComponentsOf(c)[i].Normal?)
    && LinkFree(root, anchor + Normalize(c))
    && Lookup(root, anchor + Normalize(c)).Some? && Lookup(root, anchor + Normalize(c)).value.File?
  }

  lemma {:induction false} NamesFileIsLocal(root: Node, anchor: Path, c: string, path: Path)
    requires LinkFree(root, anchor)
    ensures Classify(root, anchor, c) == LocalFile(path)
            <==> NamesFile(root, anchor, c) && path == anchor + Normalize(c)
  {
    LocalFileExactly(root, anchor, c);
    var cs := ComponentsOf(c);
    assert cs[..|cs|] == cs;
    if Classify(root, anchor, c).LocalFile? {
      LocalFileIsContained(root, anchor, c);
    }
  }

  /** The pin set of a server, exactly: every command or argument that names a
      regular file of the project has its file pin, every declared root has its
      root pin, and there are no others. */
  lemma {:induction false} DerivesExactly(root: Node, s: Server, path: Path)
    requires Derive(root, s).Some?
    ensures HasPin(Derive(root, s).value, path, FilePin)
            <==> && s.stdio && AnchorOf(root, s.cwd).At?
                 && exists i :: 0 <= i < |Candidates(s)|
                      && NamesFile(root, AnchorOf(root, s.cwd).path, Candidates(s)[i])
                      && path == AnchorOf(root, s.cwd).path + Normalize(Candidates(s)[i])
    ensures HasPin(Derive(root, s).value, path, RootPin)
            <==> exists i :: 0 <= i < |s.roots| && Normalize(s.roots[i]) == path
  {
    var roots, cands := RootPins(root, s.roots).value, Candidates(s);
    RootPinsComplete(root, s.roots, path, FilePin);
    RootPinsComplete(root, s.roots, path, RootPin);
    if s.stdio && AnchorOf(root, s.cwd).At? {
      var anchor := AnchorOf(root, s.cwd).path;
      var files := FilePins(root, anchor, cands).value;
      AnchorIsLinkFree(root, s.cwd);
      FilePinsComplete(root, anchor, cands, path, FilePin);
      FilePinsComplete(root, anchor, cands, path, RootPin);
      HasPinJoin(files, roots, path, FilePin);
      HasPinJoin(files, roots, path, RootPin);
      forall i | 0 <= i < |cands|
        ensures Classify(root, anchor, cands[i]) == LocalFile(path)
                <==> NamesFile(root, anchor, cands[i]) && path == anchor + Normalize(cands[i])
      {
        NamesFileIsLocal(root, anchor, cands[i], path);
      }
    } else {
      assert [] + roots == roots;
    }
  }

  lemma {:induction false} RowOfPin(root: Node, lock: Lock, i: nat, s: Server, pins: seq<Pin>, k: nat)
    requires Derive(root, s) == Some(pins) && k < |pins|
    ensures Row(i, Some(pins[k]), StatusOf(lock, pins[k])) in ServerRows(root, lock, i, s)
  {
    assert RowsOf(lock, i, pins)[k] == Row(i, Some(pins[k]), StatusOf(lock, pins[k]));
  }

  /** The status rows are those of each server. */
  lemma {:induction false} RowsFromServers(root: Node, servers: seq<Server>, lock: Lock, row: Row)
    ensures row in Statuses(root, servers, lock)
            <==> exists i :: 0 <= i < |servers| && row in ServerRows(root, lock, i, servers[i])
  {
    var sum := (m: nat) => if m <= |servers| then Statuses(root, servers[..m], lock) else [];
    var step := (m: nat) => if m < |servers| then ServerRows(root, lock, m, servers[m]) else [];
    assert servers[..0] == [] && servers[..|servers|] == servers;
    forall m: nat | m < |servers| ensures sum(m + 1) == sum(m) + step(m) {
      StatusesStep(root, servers, lock, m);
    }
    Accumulated(sum, step, |servers|, row);
    assert forall m: nat :: m < |servers| ==> step(m) == ServerRows(root, lock, m, servers[m]);
  }

  /** Every pin of every server has its row. */
  lemma {:induction false} EveryPinHasRow(root: Node, servers: seq<Server>, lock: Lock, i: nat, pins: seq<Pin>, k: nat)
    requires i < |servers| && Derive(root, servers[i]) == Some(pins) && k < |pins|
    ensures Row(i, Some(pins[k]), StatusOf(lock, pins[k])) in Statuses(root, servers, lock)
  {
    RowOfPin(root, lock, i, servers[i], pins, k);
    RowsFromServers(root, servers, lock, Row(i, Some(pins[k]), StatusOf(lock, pins[k])));
  }

  /** The lock agrees with the tree on a key. */
  ghost predicate Agrees(root: Node, lock: Lock, path: Path, kind: Kind) {
    (path, kind) in lock && Some(lock[(path, kind)]) == ChecksumAt(root, path, kind)
  }

  lemma {:induction false} UpsertAgrees(root: Node, lock: Lock, pins: seq<Pin>, path: Path, kind: Kind)
    requires AllHonest(root, pins)
    requires Agrees(root, lock, path, kind) || HasPin(pins, path, kind)
    ensures Agrees(root, Upsert(lock, pins), path, kind)
    decreases |pins|
  {
    if pins == [] {
    } else {
      var p := pins[0];
      assert Honest(root, p);
      var next := lock[(p.path, p.kind) := p.checksum];
      if !Agrees(root, next, path, kind) {
        var i :| 0 <= i < |pins| && pins[i].path == path && pins[i].kind == kind;
        assert i > 0 && pins[1..][i - 1] == pins[i];
      }
      assert forall i :: 0 <= i < |pins[1..]| ==> pins[1..][i] == pins[i + 1];
      UpsertAgrees(root, next, pins[1..], path, kind);
    }
  }

  lemma {:induction false} LockStep(root: Node, servers: seq<Server>, lock: Lock)
    requires servers != []
    ensures var n := |servers| - 1;
            LockAll(root, servers, lock)
            == match Derive(root, servers[n])
               case None => LockAll(root, servers[..n], lock)
               case Some(pins) => Upsert(LockAll(root, servers[..n], lock), pins)
  {
  }

  /** One more server locked: what agreed still does, and so do its own pins. */
  lemma {:induction false} LockStepAgrees(root: Node, servers: seq<Server>, lock: Lock, path: Path, kind: Kind)
    requires servers != []
    requires var n := |servers| - 1;
             || Agrees(root, LockAll(root, servers[..n], lock), path, kind)
             || (Derive(root, servers[n]).Some? && HasPin(Derive(root, servers[n]).value, path, kind))
    ensures Agrees(root, LockAll(root, servers, lock), path, kind)
  {
    var n := |servers| - 1;
    LockStep(root, servers, lock);
    if Derive(root, servers[n]).Some? {
      DeriveHonest(root, servers[n]);
      UpsertAgrees(root, LockAll(root, servers[..n], lock), Derive(root, servers[n]).value, path, kind);
    }
  }

  /** After locking, the lock agrees on every pin any of the servers derives. */
  lemma {:induction false} LockAllAgrees(root: Node, servers: seq<Server>, lock: Lock, i: nat, pins: seq<Pin>, k: nat)
    requires i < |servers| && Derive(root, servers[i]) == Some(pins) && k < |pins|
    ensures Agrees(root, LockAll(root, servers, lock), pins[k].path, pins[k].kind)
    decreases |servers|
  {
    var n := |servers| - 1;
    if i < n {
      assert servers[..n][i] == servers[i];
      LockAllAgrees(root, servers[..n], lock, i, pins, k);
    }
    LockStepAgrees(root, servers, lock, pins[k].path, pins[k].kind);
  }

  /** A row names the server it belongs to. */
  lemma {:induction false} RowIsItsServers(root: Node, servers: seq<Server>, lock: Lock, row: Row)
    requires row in Statuses(root, servers, lock)
    ensures row.server < |servers| && row in ServerRows(root, lock, row.server, servers[row.server])
  {
    RowsFromServers(root, servers, lock, row);
    var i :| 0 <= i < |servers| && row in ServerRows(root, lock, i, servers[i]);
    RowsNameTheirServer(root, lock, i, servers[i], row);
  }

  lemma {:induction false} RowsNameTheirServer(root: Node, lock: Lock, i: nat, s: Server, row: Row)
    requires row in ServerRows(root, lock, i, s)
    ensures row.server == i
  {
  }

  /** A row of a server: its one failure, or the status of one of its pins. */
  lemma {:induction false} RowShape(root: Node, servers: seq<Server>, lock: Lock, row: Row) returns (k: nat)
    requires row in Statuses(root, servers, lock)
    ensures row.server < |servers|
    ensures match Derive(root, servers[row.server])
            case None => row == Row(row.server, None, ResolveFailed)
            case Some(pins) => k < |pins| && row == Row(row.server, Some(pins[k]), StatusOf(lock, pins[k]))
  {
    RowIsItsServers(root, servers, lock, row);
    k := 0;
    match Derive(root, servers[row.server])
    case None =>
    case Some(pins) =>
      var rows := RowsOf(lock, row.server, pins);
      k :| 0 <= k < |rows| && rows[k] == row;
  }

  /** Lock, then verify the same tree: every input of a server that derives
      matches, and a server that does not derive has its one failure row. */
  lemma {:induction false} LockThenVerify(root: Node, servers: seq<Server>, lock: Lock, row: Row)
    requires row in Statuses(root, servers, LockAll(root, servers, lock))
    ensures row.server < |servers|
    ensures if Derive(root, servers[row.server]).Some? then row.pin.Some? && row.status == Matches
            else row == Row(row.server, None, ResolveFailed)
  {
    var locked := LockAll(root, servers, lock);
    var k := RowShape(root, servers, locked, row);
    if Derive(root, servers[row.server]).Some? {
      var pins := Derive(root, servers[row.server]).value;
      DeriveHonest(root, servers[row.server]);
      assert Honest(root, pins[k]);
      LockAllAgrees(root, servers, lock, row.server, pins, k);
    }
  }

  /** And nothing is missing: every pin has its matching row, and every server that
      does not derive has its failure row. */
  lemma {:induction false} LockCovers(root: Node, servers: seq<Server>, lock: Lock, i: nat, k: nat)
    requires i < |servers|
    ensures var rows := Statuses(root, servers, LockAll(root, servers, lock));
            match Derive(root, servers[i])
            case None => Row(i, None, ResolveFailed) in rows
            case Some(pins) => k < |pins| ==> Row(i, Some(pins[k]), Matches) in rows
  {
    var locked := LockAll(root, servers, lock);
    match Derive(root, servers[i])
    case None =>
      RowsFromServers(root, servers, locked, Row(i, None, ResolveFailed));
    case Some(pins) =>
      if k < |pins| {
        EveryPinHasRow(root, servers, locked, i, pins, k);
        LockThenVerify(root, servers, lock, Row(i, Some(pins[k]), StatusOf(locked, pins[k])));
      }
  }

  // ------------------------------------------------------ changing one file --

  /** The tree with the file at `path` holding other bytes. */
  function Update(n: Node, path: Path, content: seq<int>): Node
    decreases |path|, 1, 0
  {
    if path == [] then (if n.File? then File(content) else n)
    else if n.Dir? then Dir(UpdateItems(n.items, path, content))
    else n
  }

  function UpdateItems(items: seq<Item>, path: Path, content: seq<int>): seq<Item>
    requires path != []
    decreases |path|, 0, |items|
  {
    if items == [] then []
    else if items[0].name == path[0]
    then [Item(items[0].name, Update(items[0].node, path[1..], content))] + items[1..]
    else [items[0]] + UpdateItems(items[1..], path, content)
  }

  lemma {:induction false} ChildUpdate(items: seq<Item>, path: Path, content: seq<int>, name: string)
    requires path != []
    ensures Child(UpdateItems(items, path, content), name)
            == match Child(items, name)
               case None => None
               case Some(c) => Some(if name == path[0] then Update(c, path[1..], content) else c)
    decreases |items|
  {
    if items == [] {
    } else {
      ChildUpdate(items[1..], path, content, name);
      var u := UpdateItems(items, path, content);
      assert u[1..] == if items[0].name == path[0] then items[1..] else UpdateItems(items[1..], path, content);
    }
  }

  /** Every path leads where it led; only the nodes on the way to the changed
      file are different. */
  lemma {:induction false} LookupUpdate(n: Node, q: Path, content: seq<int>, p: Path)
    ensures Lookup(Update(n, q, content), p)
            == match Lookup(n, p)
               case None => None
               case Some(c) => Some(if p <= q then Update(c, q[|p|..], content) else c)
    decreases |p|
  {
    if p == [] {
      assert q[0..] == q;
    } else if n.Dir? && q != [] {
      ChildUpdate(n.items, q, content, p[0]);
      if Child(n.items, p[0]).Some? && p[0] == q[0] {
        LookupUpdate(Child(n.items, p[0]).value, q[1..], content, p[1..]);
        assert p <= q <==> p[1..] <= q[1..];
        assert p <= q ==> q[1..][|p[1..]|..] == q[|p|..];
      }
    }
  }

  predicate SameKind(a: Node, b: Node) {
    a.File? == b.File? && a.Dir? == b.Dir? && a.Link? == b.Link? && a.Special? == b.Special?
  }

  lemma {:induction false} UpdateKeepsKind(n: Node, q: Path, content: seq<int>, p: Path)
    ensures Lookup(n, p).Some? <==> Lookup(Update(n, q, content), p).Some?
    ensures Lookup(n, p).Some? ==> SameKind(Lookup(n, p).value, Lookup(Update(n, q, content), p).value)
  {
    LookupUpdate(n, q, content, p);
  }

  lemma {:induction false} WalkUpdate(root: Node, q: Path, content: seq<int>, at: Path, cs: seq<Component>)
    ensures Walk(Update(root, q, content), at, cs) == Walk(root, at, cs)
    decreases |cs|
  {
    if cs != [] && cs[0].Normal? {
      UpdateKeepsKind(root, q, content, at + [cs[0].name]);
      WalkUpdate(root, q, content, at + [cs[0].name], cs[1..]);
    }
  }

  lemma {:induction false} ClassifyUpdate(root: Node, q: Path, content: seq<int>, anchor: Path, cand: string)
    ensures Classify(Update(root, q, content), anchor, cand) == Classify(root, anchor, cand)
  {
    WalkUpdate(root, q, content, anchor, ComponentsOf(cand));
    var w := Walk(root, anchor, ComponentsOf(cand));
    if w.Reached? {
      UpdateKeepsKind(root, q, content, w.path);
    }
  }

  lemma {:induction false} ResolveUpdate(root: Node, q: Path, content: seq<int>, declared: string)
    ensures Resolve(Update(root, q, content), declared) == Resolve(root, declared)
  {
    WalkUpdate(root, q, content, [], ComponentsOf(declared));
  }

  // ----------------------------------------------------- the digests notice --

  lemma {:induction false} PrefixedInjective(name: string, a: seq<Leaf>, b: seq<Leaf>)
    requires |a| == |b| && Prefixed(name, a) == Prefixed(name, b)
    ensures a == b
  {
    if a == [] {
    } else {
      var pa, pb := Prefixed(name, a), Prefixed(name, b);
      assert pa[0] == pb[0] && pa[1..] == pb[1..];
      PrefixedInjective(name, a[1..], b[1..]);
      assert a[0].path == ([name] + a[0].path)[1..] && b[0].path == ([name] + b[0].path)[1..];
      assert a == [a[0]] + a[1..] && b == [b[0]] + b[1..];
    }
  }

  /** A root digest covers the changed file: it stays derivable, keeps its shape,
      and differs exactly when the bytes do. */
  ghost predicate Notices(before: Option<seq<Leaf>>, after: Option<seq<Leaf>>, changed: bool) {
    && (before.Some? <==> after.Some?)
    && (before.Some? ==> |before.value| == |after.value| && (before != after <==> changed))
  }

  lemma {:induction false} LeavesNotice(n: Node, q: Path, content: seq<int>, depth: nat)
    requires Lookup(n, q).Some? && Lookup(n, q).value.File?
    ensures Notices(Leaves(n, depth), Leaves(Update(n, q, content), depth), Lookup(n, q).value.content != content)
    decreases |q|, 1, 0
  {
    if q != [] {
      ItemsNotice(n.items, q, content, depth);
    }
  }

  lemma {:induction false} ItemsNotice(items: seq<Item>, q: Path, content: seq<int>, depth: nat)
    requires q != [] && Child(items, q[0]).Some?
    requires Lookup(Child(items, q[0]).value, q[1..]).Some? && Lookup(Child(items, q[0]).value, q[1..]).value.File?
    ensures Notices(ItemLeaves(items, depth), ItemLeaves(UpdateItems(items, q, content), depth),
                    Lookup(Child(items, q[0]).value, q[1..]).value.content != content)
    decreases |q|, 0, |items|
  {
    var u := UpdateItems(items, q, content);
    var changed := Lookup(Child(items, q[0]).value, q[1..]).value.content != content;
    if items[0].name == q[0] {
      LeavesNotice(items[0].node, q[1..], content, depth + 1);
      assert u[0].name == items[0].name && u[1..] == items[1..];
      var a, b := Leaves(items[0].node, depth + 1), Leaves(u[0].node, depth + 1);
      var rest := ItemLeaves(items[1..], depth);
      if a.Some? && rest.Some? {
        SamePrefix(items[0].name, a.value, b.value, rest.value, rest.value);
      }
    } else {
      ItemsNotice(items[1..], q, content, depth);
      assert u[0] == items[0] && u[1..] == UpdateItems(items[1..], q, content);
      var a := Leaves(items[0].node, depth + 1);
      var r, r' := ItemLeaves(items[1..], depth), ItemLeaves(u[1..], depth);
      if a.Some? && r.Some? {
        SamePrefix(items[0].name, a.value, a.value, r.value, r'.value);
      }
    }
  }

  /** Two lists made of parts of equal length are equal exactly when the parts are. */
  lemma {:induction false} SamePrefix(name: string, a: seq<Leaf>, b: seq<Leaf>, x: seq<Leaf>, y: seq<Leaf>)
    requires |a| == |b| && |x| == |y|
    ensures Prefixed(name, a) + x == Prefixed(name, b) + y <==> a == b && x == y
  {
    var l, r := Prefixed(name, a) + x, Prefixed(name, b) + y;
    if l == r {
      assert Prefixed(name, a) == l[..|a|] && Prefixed(name, b) == r[..|b|];
      assert x == l[|a|..] && y == r[|b|..];
      PrefixedInjective(name, a, b);
    }
  }

  /** The pins a change to the file at `q` concerns: that file's own, and every
      root that contains it. */
  predicate Covers(pin: Pin, q: Path) {
    if pin.kind.FilePin? then pin.path == q else pin.path <= q
  }

  lemma {:induction false} ChecksumNotices(root: Node, q: Path, content: seq<int>, path: Path, kind: Kind)
    requires Lookup(root, q).Some? && Lookup(root, q).value.File? && Lookup(root, q).value.content != content
    requires ChecksumAt(root, path, kind).Some?
    ensures ChecksumAt(Update(root, q, content), path, kind).Some?
    ensures ChecksumAt(Update(root, q, content), path, kind) == ChecksumAt(root, path, kind)
            <==> !Covers(Pin(path, kind, ChecksumAt(root, path, kind).value), q)
  {
    LookupUpdate(root, q, content, path);
    if path <= q {
      LookupSplit(root, path, q[|path|..]);
      assert path + q[|path|..] == q;
      LeavesNotice(Lookup(root, path).value, q[|path|..], content, 0);
    }
  }

  lemma {:induction false} LookupSplit(n: Node, a: Path, b: Path)
    ensures Lookup(n, a + b) == match Lookup(n, a) case None => None case Some(c) => Lookup(c, b)
    decreases |a|
  {
    if a == [] {
      assert a + b == b;
    } else if n.Dir? && Child(n.items, a[0]).Some? {
      assert (a + b)[1..] == a[1..] + b;
      LookupSplit(Child(n.items, a[0]).value, a[1..], b);
    }
  }

  // ------------------------------------------------------- drift, exactly --

  /** The same keys, hashed again over the changed tree. */
  ghost predicate Rehashed(root: Node, before: seq<Pin>, after: seq<Pin>) {
    && |before| == |after|
    && forall i :: 0 <= i < |before| ==>
         && after[i].path == before[i].path && after[i].kind == before[i].kind
         && Honest(root, after[i])
  }

  lemma {:induction false} FilePinsRehash(root: Node, q: Path, content: seq<int>, anchor: Path, cands: seq<string>)
    requires Lookup(root, q).Some? && Lookup(root, q).value.File? && Lookup(root, q).value.content != content
    requires FilePins(root, anchor, cands).Some?
    ensures FilePins(Update(root, q, content), anchor, cands).Some?
    ensures Rehashed(Update(root, q, content), FilePins(root, anchor, cands).value,
                     FilePins(Update(root, q, content), anchor, cands).value)
  {
    if cands == [] {
    } else {
      FilePinsRehash(root, q, content, anchor, cands[1..]);
      ClassifyUpdate(root, q, content, anchor, cands[0]);
      var v := Classify(root, anchor, cands[0]);
      if v.LocalFile? {
        ChecksumNotices(root, q, content, v.path, FilePin);
      }
    }
  }

  /** One declared root, hashed again. */
  lemma {:induction false} RootRehash(root: Node, q: Path, content: seq<int>, declared: string)
    requires Lookup(root, q).Some? && Lookup(root, q).value.File? && Lookup(root, q).value.content != content
    requires Resolve(root, declared).Some? && ChecksumAt(root, Normalize(declared), RootPin).Some?
    ensures var root' := Update(root, q, content);
            && Resolve(root', declared) == Some(Normalize(declared))
            && ChecksumAt(root', Normalize(declared), RootPin).Some?
  {
    ResolveUpdate(root, q, content, declared);
    ResolveIsNormalized(root, declared);
    ChecksumNotices(root, q, content, Normalize(declared), RootPin);
  }

  lemma RehashedCons(root: Node, a: Pin, b: Pin, before: seq<Pin>, after: seq<Pin>)
    requires a.path == b.path && a.kind == b.kind && Honest(root, b) && Rehashed(root, before, after)
    ensures Rehashed(root, [a] + before, [b] + after)
  {
  }

  lemma {:induction false} RootPinsCons(root: Node, roots: seq<string>)
    requires roots != [] && RootPins(root, roots).Some?
    ensures Resolve(root, roots[0]) == Some(Normalize(roots[0]))
    ensures ChecksumAt(root, Normalize(roots[0]), RootPin).Some? && RootPins(root, roots[1..]).Some?
  {
    ResolveIsNormalized(root, roots[0]);
  }

  lemma {:induction false} RootPinsStep(root: Node, roots: seq<string>)
    requires roots != [] && RootPins(root, roots[1..]).Some?
    requires Resolve(root, roots[0]) == Some(Normalize(roots[0]))
    requires ChecksumAt(root, Normalize(roots[0]), RootPin).Some?
    ensures RootPins(root, roots)
            == Some([Pin(Normalize(roots[0]), RootPin, ChecksumAt(root, Normalize(roots[0]), RootPin).value)]
                    + RootPins(root, roots[1..]).value)
  {
  }

  lemma {:induction false} RootPinsRehash(root: Node, q: Path, content: seq<int>, roots: seq<string>)
    requires Lookup(root, q).Some? && Lookup(root, q).value.File? && Lookup(root, q).value.content != content
    requires RootPins(root, roots).Some?
    ensures RootPins(Update(root, q, content), roots).Some?
    ensures Rehashed(Update(root, q, content), RootPins(root, roots).value,
                     RootPins(Update(root, q, content), roots).value)
  {
    if roots == [] {
    } else {
      var root', path := Update(root, q, content), Normalize(roots[0]);
      RootPinsCons(root, roots);
      RootPinsRehash(root, q, content, roots[1..]);
      RootRehash(root, q, content, roots[0]);
      RootPinsStep(root, roots);
      RootPinsStep(root', roots);
      RehashedCons(root', Pin(path, RootPin, ChecksumAt(root, path, RootPin).value),
                   Pin(path, RootPin, ChecksumAt(root', path, RootPin).value),
                   RootPins(root, roots[1..]).value, RootPins(root', roots[1..]).value);
    }
  }

  lemma {:induction false} AnchoredRehash(root: Node, q: Path, content: seq<int>, s: Server)
    requires Lookup(root, q).Some? && Lookup(root, q).value.File? && Lookup(root, q).value.content != content
    requires AnchoredPins(root, s).Some?
    ensures AnchoredPins(Update(root, q, content), s).Some?
    ensures Rehashed(Update(root, q, content), AnchoredPins(root, s).value,
                     AnchoredPins(Update(root, q, content), s).value)
  {
    if s.stdio {
      AnchorUpdate(root, q, content, s.cwd);
      if AnchorOf(root, s.cwd).At? {
        FilePinsRehash(root, q, content, AnchorOf(root, s.cwd).path, Candidates(s));
      }
    }
  }

  lemma RehashedJoin(root: Node, a: seq<Pin>, b: seq<Pin>, a': seq<Pin>, b': seq<Pin>)
    requires Rehashed(root, a, a') && Rehashed(root, b, b')
    ensures Rehashed(root, a + b, a' + b')
  {
  }

  lemma {:induction false} DeriveRehash(root: Node, q: Path, content: seq<int>, s: Server)
    requires Lookup(root, q).Some? && Lookup(root, q).value.File? && Lookup(root, q).value.content != content
    requires Derive(root, s).Some?
    ensures Derive(Update(root, q, content), s).Some?
    ensures Rehashed(Update(root, q, content), Derive(root, s).value, Derive(Update(root, q, content), s).value)
  {
    var root' := Update(root, q, content);
    RootPinsRehash(root, q, content, s.roots);
    AnchoredRehash(root, q, content, s);
    RehashedJoin(root', AnchoredPins(root, s).value, RootPins(root, s.roots).value,
                 AnchoredPins(root', s).value, RootPins(root', s.roots).value);
  }

  lemma {:induction false} AnchorUpdate(root: Node, q: Path, content: seq<int>, cwd: Option<string>)
    ensures AnchorOf(Update(root, q, content), cwd) == AnchorOf(root, cwd)
  {
    if cwd.Some? && !HasReference(cwd.value) && !IsAbsolute(cwd.value) {
      ResolveUpdate(root, q, content, cwd.value);
      if Resolve(root, cwd.value).Some? {
        UpdateKeepsKind(root, q, content, Resolve(root, cwd.value).value);
      }
    }
  }

  /** Putting the old bytes back gives the old tree back. */
  lemma {:induction false} UpdateBack(n: Node, q: Path, content: seq<int>)
    requires Lookup(n, q).Some? && Lookup(n, q).value.File?
    ensures Update(Update(n, q, content), q, Lookup(n, q).value.content) == n
    decreases |q|, 1, 0
  {
    if q == [] {
    } else {
      ItemsBack(n.items, q, content);
    }
  }

  lemma {:induction false} ItemsBack(items: seq<Item>, q: Path, content: seq<int>)
    requires q != [] && Child(items, q[0]).Some?
    requires Lookup(Child(items, q[0]).value, q[1..]).Some? && Lookup(Child(items, q[0]).value, q[1..]).value.File?
    ensures UpdateItems(UpdateItems(items, q, content), q, Lookup(Child(items, q[0]).value, q[1..]).value.content)
            == items
    decreases |q|, 0, |items|
  {
    var u := UpdateItems(items, q, content);
    if items[0].name == q[0] {
      UpdateBack(items[0].node, q[1..], content);
      assert u[1..] == items[1..];
    } else {
      ItemsBack(items[1..], q, content);
      assert u[0] == items[0] && u[1..] == UpdateItems(items[1..], q, content);
    }
    assert items == [items[0]] + items[1..];
  }

  /** Whether a server derives does not depend on a file's bytes. */
  lemma {:induction false} DeriveStays(root: Node, q: Path, content: seq<int>, s: Server)
    requires Lookup(root, q).Some? && Lookup(root, q).value.File? && Lookup(root, q).value.content != content
    ensures Derive(Update(root, q, content), s).Some? <==> Derive(root, s).Some?
  {
    var root', was := Update(root, q, content), Lookup(root, q).value.content;
    if Derive(root, s).Some? {
      DeriveRehash(root, q, content, s);
    }
    if Derive(root', s).Some? {
      LookupUpdate(root, q, content, q);
      UpdateBack(root, q, content);
      DeriveRehash(root', q, was, s);
    }
  }

  /** Lock, change one file's bytes, verify: a server derives if it did before, and
      then its inputs that drift are exactly those keyed by that file and by the
      declared roots that contain it; every other input still matches. */
  lemma {:induction false} ChangeDriftsExactly(
    root: Node, servers: seq<Server>, lock: Lock, q: Path, content: seq<int>, row: Row)
    requires Lookup(root, q).Some? && Lookup(root, q).value.File? && Lookup(root, q).value.content != content
    requires row in Statuses(Update(root, q, content), servers, LockAll(root, servers, lock))
    ensures row.server < |servers|
    ensures if Derive(root, servers[row.server]).None? then row == Row(row.server, None, ResolveFailed)
            else row.pin.Some? && row.status == if Covers(row.pin.value, q) then ChecksumDrift else Matches
  {
    var locked, root' := LockAll(root, servers, lock), Update(root, q, content);
    var k := RowShape(root', servers, locked, row);
    DeriveStays(root, q, content, servers[row.server]);
    if Derive(root, servers[row.server]).Some? {
      PinDrifts(root, servers, lock, q, content, row.server, k);
    }
  }

  lemma {:induction false} PinDrifts(
    root: Node, servers: seq<Server>, lock: Lock, q: Path, content: seq<int>, i: nat, k: nat)
    requires Lookup(root, q).Some? && Lookup(root, q).value.File? && Lookup(root, q).value.content != content
    requires i < |servers| && Derive(root, servers[i]).Some?
    ensures var root' := Update(root, q, content);
            && Derive(root', servers[i]).Some?
            && |Derive(root', servers[i]).value| == |Derive(root, servers[i]).value|
    ensures k < |Derive(root, servers[i]).value| ==>
              var was, now := Derive(root, servers[i]).value[k], Derive(Update(root, q, content), servers[i]).value[k];
              && now.path == was.path && now.kind == was.kind
              && StatusOf(LockAll(root, servers, lock), now) == if Covers(now, q) then ChecksumDrift else Matches
  {
    var s, root' := servers[i], Update(root, q, content);
    DeriveRehash(root, q, content, s);
    var pins, pins' := Derive(root, s).value, Derive(root', s).value;
    if k < |pins| {
      DeriveHonest(root, s);
      assert Honest(root, pins[k]) && Honest(root', pins'[k]);
      LockAllAgrees(root, servers, lock, i, pins, k);
      ChecksumNotices(root, q, content, pins[k].path, pins[k].kind);
    }
  }

  /** After one file's bytes change, every pin a server had before still has its
      row: drifted if the file is the pin's or lies below its root, else matching. */
  lemma {:induction false} ChangeIsSeen(
    root: Node, servers: seq<Server>, lock: Lock, q: Path, content: seq<int>, i: nat, k: nat)
    requires Lookup(root, q).Some? && Lookup(root, q).value.File? && Lookup(root, q).value.content != content
    requires i < |servers| && Derive(root, servers[i]).Some? && k < |Derive(root, servers[i]).value|
    ensures var was := Derive(root, servers[i]).value[k];
            exists row :: row in Statuses(Update(root, q, content), servers, LockAll(root, servers, lock))
              && row.server == i && row.pin.Some? && row.pin.value.path == was.path && row.pin.value.kind == was.kind
              && row.status == if Covers(was, q) then ChecksumDrift else Matches
  {
    var root', locked := Update(root, q, content), LockAll(root, servers, lock);
    PinDrifts(root, servers, lock, q, content, i, k);
    var was, now := Derive(root, servers[i]).value[k], Derive(root', servers[i]).value[k];
    EveryPinHasRow(root', servers, locked, i, Derive(root', servers[i]).value, k);
    var row := Row(i, Some(now), StatusOf(locked, now));
    assert Covers(now, q) <==> Covers(was, q);
  }
}
