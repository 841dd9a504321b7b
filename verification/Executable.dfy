/** Local-executable pins (crates/cli/src/executable.rs, with the path and digest
    rules of crates/core/src/digest.rs): which declared strings name project
    files, and what locking and verifying them agree on. */
module Executable {
  import opened Text

  // ------------------------------------------------------------- filesystem --

  /** The project tree as `symlink_metadata` sees it: links are not followed. */
  datatype Node = File(content: seq<int>) | Dir(items: seq<Item>) | Link | Special

  datatype Item = Item(name: string, node: Node)

  type Path = seq<string>

  function Child(items: seq<Item>, name: string): Option<Node> {
    if items == [] then None
    else if items[0].name == name then Some(items[0].node)
    else Child(items[1..], name)
  }

  /** The node at a project-relative path; nothing lies beyond a link. */
  function Lookup(n: Node, path: Path): Option<Node>
    decreases |path|
  {
    if path == [] then Some(n)
    else if !n.Dir? then None
    else match Child(n.items, path[0])
      case None => None
      case Some(c) => Lookup(c, path[1..])
  }

  // -------------------------------------------------------------- path text --

  datatype Component = Parent | Normal(name: string)

  /** `Path::components` of a relative path, `.` and empty parts dropped. */
  function Components(parts: seq<string>): seq<Component> {
    if parts == [] then []
    else if parts[0] == "" || parts[0] == "." then Components(parts[1..])
    else if parts[0] == ".." then [Parent] + Components(parts[1..])
    else [Normal(parts[0])] + Components(parts[1..])
  }

  function ComponentsOf(s: string): seq<Component> { Components(SplitOn(s, '/')) }

  function Normals(cs: seq<Component>): Path {
    if cs == [] then []
    else if cs[0].Normal? then [cs[0].name] + Normals(cs[1..])
    else Normals(cs[1..])
  }

  /** `normalize_declared`, as the components its text joins with `/`. */
  function Normalize(declared: string): Path { Normals(ComponentsOf(declared)) }

  function Join(path: Path): string {
    if path == [] then [] else if |path| == 1 then path[0] else path[0] + ("/" + Join(path[1..]))
  }

  predicate IsAbsolute(s: string) { "/" <= s }

  predicate HasReference(s: string) { Contains(s, "${") }

  // ------------------------------------------------------------- the walk --

  datatype Walked = Reached(path: Path) | Gone | ThroughLink | Traversal

  /** Descend component by component from `at`, looking before each step. */
  function Walk(root: Node, at: Path, cs: seq<Component>): Walked
    decreases |cs|
  {
    if cs == [] then Reached(at)
    else if cs[0].Parent? then Traversal
    else
      var next := at + [cs[0].name];
      match Lookup(root, next)
      case None => Gone
      case Some(Link) => ThroughLink
      case Some(_) => Walk(root, next, cs[1..])
  }

  /** What one `command` or `args` string turned out to be. */
  datatype Verdict = NotLocal | LocalFile(path: Path) | Rejected

  function Classify(root: Node, anchor: Path, candidate: string): Verdict {
    if candidate == [] || "-" <= candidate || HasReference(candidate) || IsAbsolute(candidate) then NotLocal
    else match Walk(root, anchor, ComponentsOf(candidate))
      case Gone => NotLocal
      case ThroughLink => Rejected
      case Traversal => Rejected
      case Reached(p) =>
        match Lookup(root, p)
        case None => NotLocal
        case Some(File(_)) => LocalFile(p)
        case Some(Dir(_)) => NotLocal
        case Some(_) => Rejected
  }

  /** `classify_local_executable`: the loop that pushes onto the resolved path. */
  method ClassifyLocalExecutable(root: Node, anchor: Path, candidate: string) returns (v: Verdict)
    ensures v == Classify(root, anchor, candidate)
  {
    if candidate == [] || "-" <= candidate || HasReference(candidate) {
      return NotLocal;
    }
    if IsAbsolute(candidate) {
      return NotLocal;
    }
    var resolved := anchor;
    var cs := ComponentsOf(candidate);
    for i := 0 to |cs|
      invariant Walk(root, resolved, cs[i..]) == Walk(root, anchor, cs)
    {
      assert cs[i..][1..] == cs[i + 1..];
      if cs[i].Parent? {
        return Rejected;
      }
      resolved := resolved + [cs[i].name];
      var meta := Lookup(root, resolved);
      if meta.None? {
        return NotLocal;
      }
      if meta.value.Link? {
        return Rejected;
      }
    }
    assert cs[|cs|..] == [];
    var meta := Lookup(root, resolved);
    if meta.None? {
      return NotLocal;
    }
    if meta.value.File? {
      return LocalFile(resolved);
    }
    if meta.value.Dir? {
      return NotLocal;
    }
    return Rejected;
  }

  /** `resolve_contained`: a declared path inside the project, never the project itself. */
  function Resolve(root: Node, declared: string): Option<Path> {
    if declared == [] || IsAbsolute(declared) then None
    else match Walk(root, [], ComponentsOf(declared))
      case Reached(p) => if p == [] then None else Some(p)
      case _ => None
  }

  // ------------------------------------------------- what a verdict promises --

  /** Every step from the root down to `path` is there and is not a link. */
  ghost predicate LinkFree(root: Node, path: Path) {
    forall k :: 0 < k <= |path| ==> Lookup(root, path[..k]).Some? && !Lookup(root, path[..k]).value.Link?
  }

  lemma {:induction false} WalkIsLinkFree(root: Node, at: Path, cs: seq<Component>)
    requires LinkFree(root, at) && Walk(root, at, cs).Reached?
    ensures Walk(root, at, cs).path == at + Normals(cs)
    ensures LinkFree(root, at + Normals(cs))
    decreases |cs|
  {
    if cs == [] {
      assert at + Normals(cs) == at;
    } else {
      var next := at + [cs[0].name];
      forall k | 0 < k <= |next| ensures Lookup(root, next[..k]).Some? && !Lookup(root, next[..k]).value.Link? {
        if k <= |at| {
          assert next[..k] == at[..k];
        } else {
          assert next[..k] == next;
        }
      }
      WalkIsLinkFree(root, next, cs[1..]);
      assert next + Normals(cs[1..]) == at + Normals(cs);
    }
  }

  /** Walking a link-free path from the root arrives at that path. */
  lemma {:induction false} WalkBack(root: Node, at: Path, rest: Path)
    requires LinkFree(root, at + rest)
    ensures Walk(root, at, AsComponents(rest)) == Reached(at + rest)
    decreases |rest|
  {
    if rest == [] {
      assert at + rest == at;
    } else {
      var next := at + [rest[0]];
      assert (at + rest)[..|next|] == next;
      assert next + rest[1..] == at + rest;
      WalkBack(root, next, rest[1..]);
      assert AsComponents(rest)[1..] == AsComponents(rest[1..]);
    }
  }

  function AsComponents(path: Path): (cs: seq<Component>)
    ensures |cs| == |path|
  {
    if path == [] then [] else [Normal(path[0])] + AsComponents(path[1..])
  }

  /** A file verdict from a link-free anchor names a regular file: the path is the
      anchor and the candidate's own components, crosses no link, and leads to
      the same node when followed from the project root. */
  lemma {:induction false} LocalFileIsContained(root: Node, anchor: Path, candidate: string)
    requires LinkFree(root, anchor) && Classify(root, anchor, candidate).LocalFile?
    ensures var p := Classify(root, anchor, candidate).path;
            && p == anchor + Normalize(candidate)
            && LinkFree(root, p)
            && Lookup(root, p).Some? && Lookup(root, p).value.File?
            && Walk(root, [], AsComponents(p)) == Reached(p)
  {
    WalkIsLinkFree(root, anchor, ComponentsOf(candidate));
    var p := Classify(root, anchor, candidate).path;
    assert [] + p == p;
    WalkBack(root, [], p);
  }

  /** A string that may name project content at all. */
  predicate IsCandidate(c: string) {
    c != [] && !("-" <= c) && !HasReference(c) && !IsAbsolute(c)
  }

  /** The first `k` components name nodes that are there, none of them a link. */
  ghost predicate Clear(root: Node, at: Path, cs: seq<Component>, k: nat) {
    k <= |cs| && (forall i :: 0 <= i < k ==> cs[i].Normal?) && LinkFree(root, at + Normals(cs[..k]))
  }

  lemma {:induction false} NormalsSnoc(cs: seq<Component>, c: Component)
    ensures Normals(cs + [c]) == if c.Normal? then Normals(cs) + [c.name] else Normals(cs)
  {
    if cs == [] {
      assert (cs + [c])[1..] == [];
    } else {
      assert (cs + [c])[1..] == cs[1..] + [c];
      NormalsSnoc(cs[1..], c);
    }
  }

  /** The path one component further on. */
  function Ahead(at: Path, cs: seq<Component>, k: nat): Path
    requires k < |cs| && cs[k].Normal?
  {
    at + Normals(cs[..k]) + [cs[k].name]
  }

  lemma {:induction false} ClearNext(root: Node, at: Path, cs: seq<Component>, k: nat)
    requires k < |cs| && Clear(root, at, cs, k) && cs[k].Normal?
    ensures at + Normals(cs[..k + 1]) == Ahead(at, cs, k)
    ensures Clear(root, at, cs, k + 1)
            <==> Lookup(root, Ahead(at, cs, k)).Some? && !Lookup(root, Ahead(at, cs, k)).value.Link?
  {
    AheadIsNext(at, cs, k);
    LinkFreeNext(root, at + Normals(cs[..k]), cs[k].name);
  }

  lemma {:induction false} AheadIsNext(at: Path, cs: seq<Component>, k: nat)
    requires k < |cs| && cs[k].Normal?
    ensures at + Normals(cs[..k + 1]) == Ahead(at, cs, k)
  {
    assert cs[..k + 1] == cs[..k] + [cs[k]];
    NormalsSnoc(cs[..k], cs[k]);
    assert at + (Normals(cs[..k]) + [cs[k].name]) == Ahead(at, cs, k);
  }

  lemma {:induction false} LinkFreeNext(root: Node, here: Path, name: string)
    requires LinkFree(root, here)
    ensures LinkFree(root, here + [name])
            <==> Lookup(root, here + [name]).Some? && !Lookup(root, here + [name]).value.Link?
  {
    var next := here + [name];
    assert next[..|next|] == next;
    forall k | 0 < k <= |here| ensures next[..k] == here[..k] {
    }
  }

  /** The walk may start anywhere on its clear stretch. */
  lemma {:induction false} WalkFromClear(root: Node, at: Path, cs: seq<Component>, k: nat)
    requires k <= |cs| && LinkFree(root, at) && Clear(root, at, cs, k)
    ensures Walk(root, at, cs) == Walk(root, at + Normals(cs[..k]), cs[k..])
    decreases k
  {
    if k == 0 {
      assert cs[..0] == [] && cs[0..] == cs && at + [] == at;
    } else {
      ClearBefore(root, at, cs, k);
      WalkFromClear(root, at, cs, k - 1);
      ClearNext(root, at, cs, k - 1);
      assert cs[k - 1..][1..] == cs[k..];
    }
  }

  lemma {:induction false} ClearBefore(root: Node, at: Path, cs: seq<Component>, k: nat)
    requires 0 < k <= |cs| && Clear(root, at, cs, k)
    ensures Clear(root, at, cs, k - 1)
  {
    assert cs[..k] == cs[..k - 1] + [cs[k - 1]];
    NormalsSnoc(cs[..k - 1], cs[k - 1]);
    var here, next := at + Normals(cs[..k - 1]), at + Normals(cs[..k]);
    assert next == here + [cs[k - 1].name];
    forall m | 0 < m <= |here| ensures here[..m] == next[..m] {
    }
  }

  /** Where the walk stops: at the end, or at the first component that climbs, is
      missing, or is a link. */
  lemma {:induction false} WalkStops(root: Node, at: Path, cs: seq<Component>) returns (k: nat)
    requires LinkFree(root, at)
    ensures k <= |cs| && Clear(root, at, cs, k)
    ensures k < |cs| && cs[k].Normal? ==>
              Lookup(root, Ahead(at, cs, k)).None? || Lookup(root, Ahead(at, cs, k)).value.Link?
  {
    k := 0;
    assert cs[..0] == [] && at + [] == at;
    while k < |cs| && cs[k].Normal?
          && Lookup(root, Ahead(at, cs, k)).Some? && !Lookup(root, Ahead(at, cs, k)).value.Link?
      invariant k <= |cs| && Clear(root, at, cs, k)
    {
      ClearNext(root, at, cs, k);
      k := k + 1;
    }
  }

  /** The outcome of a walk, read off the tree at the place where it stops. */
  lemma {:induction false} WalkAt(root: Node, at: Path, cs: seq<Component>, k: nat)
    requires LinkFree(root, at) && k <= |cs| && Clear(root, at, cs, k)
    ensures k == |cs| ==> Walk(root, at, cs) == Reached(at + Normals(cs))
    ensures k < |cs| && cs[k].Parent? ==> Walk(root, at, cs) == Traversal
    ensures k < |cs| && cs[k].Normal? && Lookup(root, Ahead(at, cs, k)).None? ==> Walk(root, at, cs) == Gone
    ensures k < |cs| && cs[k].Normal? && Lookup(root, Ahead(at, cs, k)) == Some(Link) ==>
              Walk(root, at, cs) == ThroughLink
  {
    WalkFromClear(root, at, cs, k);
    if k == |cs| {
      assert cs[..k] == cs && cs[k..] == [];
    } else {
      assert cs[k..][0] == cs[k];
    }
  }

  /** Some component climbs, or is a link, with everything before it present and
      no link. */
  ghost predicate IsUnverifiable(root: Node, at: Path, cs: seq<Component>) {
    exists k :: 0 <= k < |cs| && Clear(root, at, cs, k)
                && (cs[k].Parent? || Lookup(root, Ahead(at, cs, k)) == Some(Link))
  }

  /** A file verdict, exactly: the string may name content, climbs nowhere, and
      its path from the anchor crosses no link and ends at a regular file. */
  lemma {:induction false} LocalFileExactly(root: Node, anchor: Path, c: string)
    requires LinkFree(root, anchor)
    ensures Classify(root, anchor, c) == LocalFile(anchor + Normalize(c))
            <==> && IsCandidate(c) && Clear(root, anchor, ComponentsOf(c), |ComponentsOf(c)|)
                 && Lookup(root, anchor + Normalize(c)).Some? && Lookup(root, anchor + Normalize(c)).value.File?
  {
    var cs := ComponentsOf(c);
    var k := WalkStops(root, anchor, cs);
    WalkAt(root, anchor, cs, k);
    if Clear(root, anchor, cs, |cs|) {
      WalkAt(root, anchor, cs, |cs|);
    }
  }

  /** A refusal, exactly: the string may name content, and climbs, or meets a
      link, or ends at something that is neither a file nor a directory. Nothing
      that exists and cannot be verified is silently left unpinned. */
  lemma {:induction false} RejectedExactly(root: Node, anchor: Path, c: string)
    requires LinkFree(root, anchor)
    ensures Classify(root, anchor, c).Rejected?
            <==> && IsCandidate(c)
                 && var cs, p := ComponentsOf(c), anchor + Normalize(c);
                    || IsUnverifiable(root, anchor, cs)
                    || (&& Clear(root, anchor, cs, |cs|) && Lookup(root, p).Some?
                        && !Lookup(root, p).value.File? && !Lookup(root, p).value.Dir?)
  {
    var cs := ComponentsOf(c);
    var k := WalkStops(root, anchor, cs);
    WalkAt(root, anchor, cs, k);
    if k < |cs| && (cs[k].Parent? || Lookup(root, Ahead(anchor, cs, k)) == Some(Link)) {
      assert IsUnverifiable(root, anchor, cs);
    }
    if IsUnverifiable(root, anchor, cs) {
      var m :| 0 <= m < |cs| && Clear(root, anchor, cs, m)
               && (cs[m].Parent? || Lookup(root, Ahead(anchor, cs, m)) == Some(Link));
      WalkAt(root, anchor, cs, m);
    }
    if Clear(root, anchor, cs, |cs|) {
      WalkAt(root, anchor, cs, |cs|);
    }
  }

  /** A resolved declaration is link-free, inside the project, and its own lock key. */
  lemma {:induction false} ResolveIsNormalized(root: Node, declared: string)
    requires Resolve(root, declared).Some?
    ensures Resolve(root, declared).value == Normalize(declared) != []
    ensures LinkFree(root, Normalize(declared))
  {
    WalkIsLinkFree(root, [], ComponentsOf(declared));
    assert [] + Normalize(declared) == Normalize(declared);
  }

  // -------------------------------------------------------- keys as text --

  /** A component that stands for itself in a path's text. */
  predicate IsPlainName(name: string) {
    '/' !in name && name != "" && name != "." && name != ".."
  }

  predicate PlainPath(path: Path) { forall i :: 0 <= i < |path| ==> IsPlainName(path[i]) }

  lemma {:induction false} SplitHasNoSlash(s: string)
    ensures forall i :: 0 <= i < |SplitOn(s, '/')| ==> '/' !in SplitOn(s, '/')[i]
  {
    if s == [] {
    } else {
      SplitHasNoSlash(s[1..]);
    }
  }

  lemma {:induction false} NormalsArePlain(parts: seq<string>)
    requires forall i :: 0 <= i < |parts| ==> '/' !in parts[i]
    ensures PlainPath(Normals(Components(parts)))
  {
    if parts == [] {
    } else {
      NormalsArePlain(parts[1..]);
      var cs := Components(parts);
      if parts[0] != "" && parts[0] != "." {
        assert cs[1..] == Components(parts[1..]);
      }
    }
  }

  lemma {:induction false} SplitAtSlash(name: string, rest: string)
    requires '/' !in name
    ensures SplitOn(name + ("/" + rest), '/') == [name] + SplitOn(rest, '/')
  {
    var all := name + ("/" + rest);
    if name == [] {
      assert all[1..] == rest;
    } else {
      assert all[1..] == name[1..] + ("/" + rest);
      SplitAtSlash(name[1..], rest);
      assert [name[0]] + name[1..] == name;
    }
  }

  lemma {:induction false} SplitOfJoin(path: Path)
    requires path != [] && PlainPath(path)
    ensures SplitOn(Join(path), '/') == path
  {
    if |path| <= 1 {
    } else {
      SplitOfJoin(path[1..]);
      SplitAtSlash(path[0], Join(path[1..]));
      assert [path[0]] + path[1..] == path;
    }
  }

  lemma {:induction false} PlainComponents(path: Path)
    requires PlainPath(path)
    ensures Components(path) == AsComponents(path) && Normals(AsComponents(path)) == path
  {
    if path == [] {
    } else {
      assert IsPlainName(path[0]);
      PlainComponents(path[1..]);
      assert AsComponents(path)[1..] == AsComponents(path[1..]);
      assert [path[0]] + path[1..] == path;
    }
  }

  /** The text of a lock key parses back to the same key: `./tools` and `tools`
      share one entry, and normalizing twice changes nothing. */
  lemma {:induction false} NormalizeIsStable(declared: string)
    ensures Normalize(Join(Normalize(declared))) == Normalize(declared)
  {
    var path := Normalize(declared);
    SplitHasNoSlash(declared);
    NormalsArePlain(SplitOn(declared, '/'));
    if path == [] {
      assert SplitOn([], '/') == [""];
      assert Components([""]) == Components([""][1..]);
    } else {
      SplitOfJoin(path);
      PlainComponents(path);
    }
  }
}
