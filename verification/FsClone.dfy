/** Recursive copy with a clone fast path (crates/cli/src/fsclone.rs): one clone
    call when, and only when, it leaves what the copying loop
    (crates/core/src/util/fsx.rs) would have left, directory bits beyond the
    permissions aside. */
module FsClone {
  import opened Text

  /** A filesystem tree. `extraLinks` counts the hard links beyond the first;
      a link carries what it points at, `None` when broken; a directory may
      refuse to be listed. */
  datatype Node =
    | File(content: seq<int>, mode: nat, extraLinks: nat)
    | Dir(mode: nat, listable: bool, entries: seq<Item>)
    | Link(target: Option<Node>)
    | Special

  datatype Item = Item(name: string, node: Node)

  /** The nine permission bits, 0o777: the set-id and sticky bits are not looked at. */
  function Permissions(mode: nat): nat { mode % 512 }

  /** The owner's read bit, 0o400. */
  predicate OwnerReads(mode: nat) { (mode / 256) % 2 == 1 }

  // ------------------------------------------------------------- the loop --

  /** What `fs::copy` leaves: it reads through a link, and fails on anything
      that does not end in a readable regular file. */
  function CopyFile(n: Node): Option<Node> {
    match n
    case File(c, m, _) => if OwnerReads(m) then Some(File(c, m, 0)) else None
    case Link(t) => if t.Some? then CopyFile(t.value) else None
    case _ => None
  }

  /** What the copying loop leaves at a fresh destination, or `None` when it
      fails: it reads through a link at the root, new directories get `dirMode`,
      and `.git` is dropped. */
  function LoopCopy(n: Node, dirMode: nat): Option<Node>
    decreases n, 0
  {
    match n
    case Dir(_, listable, entries) =>
      var items := CopyItems(entries, dirMode);
      if listable && items.Some? then Some(Dir(dirMode, true, items.value)) else None
    case Link(t) => if t.Some? then LoopCopy(t.value, dirMode) else None
    case _ => None
  }

  function CopyItems(items: seq<Item>, dirMode: nat): Option<seq<Item>>
    decreases items
  {
    if items == [] then Some([])
    else
      var rest := CopyItems(items[1..], dirMode);
      if items[0].name == ".git" then rest
      else
        var copied := CopyNode(items[0].node, dirMode);
        if copied.None? || rest.None? then None
        else Some([Item(items[0].name, copied.value)] + rest.value)
  }

  /** What the loop leaves of one entry. */
  function CopyNode(n: Node, dirMode: nat): Option<Node>
    decreases n, 1
  {
    if n.Dir? then LoopCopy(n, dirMode) else CopyFile(n)
  }

  // ----------------------------------------------------------- eligibility --

  /** Every entry below `n` copies identically both ways. */
  predicate CleanDir(n: Node, perms: nat) {
    n.Dir? && n.listable && CleanItems(n.entries, perms)
  }

  predicate CleanItems(items: seq<Item>, perms: nat) {
    items == [] || (CleanItem(items[0], perms) && CleanItems(items[1..], perms))
  }

  predicate CleanItem(item: Item, perms: nat) {
    && item.name != ".git"
    && match item.node
       case Dir(mode, _, _) => Permissions(mode) == perms && CleanDir(item.node, perms)
       case File(_, mode, extra) => extra == 0 && OwnerReads(mode)
       case _ => false
  }

  predicate Eligible(root: Node, perms: nat) {
    root.Dir? && Permissions(root.mode) == perms && CleanDir(root, perms)
  }

  function Size(n: Node): nat {
    if n.Dir? then 1 + ItemsSize(n.entries) else 1
  }

  function ItemsSize(items: seq<Item>): nat {
    if items == [] then 0 else Size(items[0].node) + ItemsSize(items[1..])
  }

  function PendingSize(pending: seq<Node>): nat {
    if pending == [] then 0 else PendingSize(pending[..|pending| - 1]) + Size(pending[|pending| - 1])
  }

  predicate AllClean(pending: seq<Node>, perms: nat) {
    forall i :: 0 <= i < |pending| ==> CleanDir(pending[i], perms)
  }

  lemma PendingPush(pending: seq<Node>, n: Node, perms: nat)
    ensures PendingSize(pending + [n]) == PendingSize(pending) + Size(n)
    ensures AllClean(pending + [n], perms) <==> AllClean(pending, perms) && CleanDir(n, perms)
  {
    var all := pending + [n];
    assert all[..|all| - 1] == pending;
    assert all[|pending|] == n;
    assert forall i :: 0 <= i < |pending| ==> pending[i] == all[i];
  }

  /** The scan of one directory's entries: clean ones pass, directories are
      queued, anything else disqualifies the tree. */
  method ScanEntries(items: seq<Item>, perms: nat, before: seq<Node>) returns (ok: bool, pending: seq<Node>)
    ensures ok ==> (AllClean(pending, perms) <==> AllClean(before, perms) && CleanItems(items, perms))
    ensures !ok ==> !CleanItems(items, perms)
    ensures ok ==> PendingSize(pending) <= PendingSize(before) + ItemsSize(items)
  {
    pending := before;
    for i := 0 to |items|
      invariant AllClean(pending, perms) && CleanItems(items[i..], perms)
                <==> AllClean(before, perms) && CleanItems(items, perms)
      invariant CleanItems(items, perms) ==> CleanItems(items[i..], perms)
      invariant PendingSize(pending) + ItemsSize(items[i..]) <= PendingSize(before) + ItemsSize(items)
    {
      assert items[i..][1..] == items[i + 1..];
      if items[i].name == ".git" {
        return false, pending;
      }
      var node := items[i].node;
      if node.Dir? {
        if Permissions(node.mode) != perms {
          return false, pending;
        }
        PendingPush(pending, node, perms);
        pending := pending + [node];
      } else if node.File? {
        if node.extraLinks > 0 || !OwnerReads(node.mode) {
          return false, pending;
        }
      } else {
        return false, pending;
      }
    }
    assert items[|items|..] == [];
    ok := true;
  }

  /** `tree_is_eligible`: a worklist instead of recursion. */
  method TreeIsEligible(root: Node, perms: nat) returns (ok: bool)
    ensures ok <==> Eligible(root, perms)
  {
    if !(root.Dir? && Permissions(root.mode) == perms) {
      return false;
    }
    var pending := [root];
    assert PendingSize([root]) == Size(root) by {
      PendingPush([], root, perms);
      assert [] + [root] == [root];
    }
    while pending != []
      invariant AllClean(pending, perms) <==> CleanDir(root, perms)
      decreases PendingSize(pending)
    {
      var dir := pending[|pending| - 1];
      var rest := pending[..|pending| - 1];
      PendingPush(rest, dir, perms);
      assert rest + [dir] == pending;
      pending := rest;
      if !dir.Dir? || !dir.listable {
        return false;
      }
      var fine;
      fine, pending := ScanEntries(dir.entries, perms, pending);
      if !fine {
        return false;
      }
    }
    ok := true;
  }

  // ------------------------------------------------- what eligibility means --

  /** A tree without the directory bits beyond the nine. */
  function Bare(n: Node): Node {
    if n.Dir? then Dir(Permissions(n.mode), n.listable, BareItems(n.entries)) else n
  }

  function BareItems(items: seq<Item>): (r: seq<Item>)
    ensures |r| == |items|
  {
    if items == [] then [] else [Item(items[0].name, Bare(items[0].node))] + BareItems(items[1..])
  }

  /** `copy` is there and is `n` up to those bits. */
  predicate Reproduces(copy: Option<Node>, n: Node) {
    copy.Some? && Bare(copy.value) == Bare(n)
  }

  predicate ItemsReproduce(copy: Option<seq<Item>>, items: seq<Item>) {
    copy.Some? && BareItems(copy.value) == BareItems(items)
  }

  lemma {:induction false} CopyIsNoLonger(items: seq<Item>, dirMode: nat)
    ensures CopyItems(items, dirMode).Some? ==> |CopyItems(items, dirMode).value| <= |items|
  {
    if items == [] {
    } else {
      CopyIsNoLonger(items[1..], dirMode);
    }
  }

  lemma {:induction false} ConsReproduces(first: Item, rest: seq<Item>, dirMode: nat)
    requires first.name != ".git"
    ensures ItemsReproduce(CopyItems([first] + rest, dirMode), [first] + rest)
            <==> Reproduces(CopyNode(first.node, dirMode), first.node)
                 && ItemsReproduce(CopyItems(rest, dirMode), rest)
  {
    var items := [first] + rest;
    assert items[0] == first && items[1..] == rest;
    var copied, others := CopyNode(first.node, dirMode), CopyItems(rest, dirMode);
    if copied.Some? && others.Some? {
      var all := [Item(first.name, copied.value)] + others.value;
      assert CopyItems(items, dirMode) == Some(all);
      assert all[0] == Item(first.name, copied.value) && all[1..] == others.value;
      assert BareItems(all)[0] == Item(first.name, Bare(copied.value));
      assert BareItems(all)[1..] == BareItems(others.value);
      assert BareItems(items)[0] == Item(first.name, Bare(first.node)) && BareItems(items)[1..] == BareItems(rest);
    }
  }

  lemma {:induction false} CleanItemsCopy(items: seq<Item>, dirMode: nat)
    ensures ItemsReproduce(CopyItems(items, dirMode), items) <==> CleanItems(items, Permissions(dirMode))
    decreases items
  {
    if items == [] {
    } else {
      CleanItemsCopy(items[1..], dirMode);
      CopyIsNoLonger(items[1..], dirMode);
      var node := items[0].node;
      if node.Dir? {
        CleanTreeCopies(node, dirMode);
      } else if node.Link? {
        LinkCopies(node);
      }
      if items[0].name != ".git" {
        ConsReproduces(items[0], items[1..], dirMode);
        assert items == [items[0]] + items[1..];
      }
    }
  }

  /** A link never survives the loop as a link. */
  lemma {:induction false} LinkCopies(n: Node)
    ensures CopyFile(n).Some? ==> CopyFile(n).value.File?
  {
    if n.Link? && n.target.Some? {
      LinkCopies(n.target.value);
    }
  }

  /** The scan accepts exactly the trees the loop reproduces, up to the set-id and
      sticky bits of directories; a clone leaves the tree itself. */
  lemma {:induction false} CleanTreeCopies(n: Node, dirMode: nat)
    ensures Reproduces(LoopCopy(n, dirMode), n) <==> Eligible(n, Permissions(dirMode))
    decreases n
  {
    if n.Dir? {
      CleanItemsCopy(n.entries, dirMode);
    } else if n.Link? {
      CopyIsDirectory(n, dirMode);
    }
  }

  /** Every directory has all the bits a new one gets. */
  predicate NewModes(n: Node, dirMode: nat) {
    n.Dir? ==> n.mode == dirMode && NewModesIn(n.entries, dirMode)
  }

  predicate NewModesIn(items: seq<Item>, dirMode: nat) {
    items == [] || (NewModes(items[0].node, dirMode) && NewModesIn(items[1..], dirMode))
  }

  lemma {:induction false} SameItems(items: seq<Item>, dirMode: nat)
    requires CleanItems(items, Permissions(dirMode))
    ensures CopyItems(items, dirMode) == Some(items) <==> NewModesIn(items, dirMode)
    ensures CopyItems(items, dirMode).Some?
    decreases items
  {
    if items == [] {
    } else {
      SameItems(items[1..], dirMode);
      if items[0].node.Dir? {
        SameTree(items[0].node, dirMode);
      }
      assert items == [items[0]] + items[1..];
    }
  }

  lemma {:induction false} SameTree(n: Node, dirMode: nat)
    requires Eligible(n, Permissions(dirMode))
    ensures LoopCopy(n, dirMode) == Some(n) <==> NewModes(n, dirMode)
    ensures LoopCopy(n, dirMode).Some?
    decreases n
  {
    SameItems(n.entries, dirMode);
  }

  /** The loop leaves the very tree if and only if the scan accepts it and no
      directory of it has a bit that a new directory has not. */
  lemma {:induction false} SameTreeExactly(n: Node, dirMode: nat)
    ensures LoopCopy(n, dirMode) == Some(n) <==> Eligible(n, Permissions(dirMode)) && NewModes(n, dirMode)
  {
    CleanTreeCopies(n, dirMode);
    if Eligible(n, Permissions(dirMode)) {
      SameTree(n, dirMode);
    }
  }

  /** A sticky directory passes the scan, and the loop would drop its bit. */
  lemma StickyPasses(dirMode: nat)
    requires dirMode < 512
    ensures var sticky := Dir(dirMode + 512, true, []);
            Eligible(sticky, Permissions(dirMode)) && LoopCopy(sticky, dirMode) == Some(Dir(dirMode, true, []))
  {
  }

  /** A root link never survives the loop either. */
  lemma {:induction false} CopyIsDirectory(n: Node, dirMode: nat)
    ensures LoopCopy(n, dirMode).Some? ==> LoopCopy(n, dirMode).value.Dir?
  {
    if n.Link? && n.target.Some? {
      CopyIsDirectory(n.target.value, dirMode);
    }
  }

  // -------------------------------------------------------------- the copy --

  /** What can go wrong on the way; a failed clone may leave a partial tree. */
  datatype Faults = Faults(
    createFails: bool, probeFails: bool, removeFails: bool,
    cloneFails: bool, partial: Option<Node>, renameFails: bool, cleanupFails: bool)

  /** The outcome of the plain loop: whether it succeeded and what is at `dst`. */
  datatype LoopResult = LoopResult(ok: bool, dst: Option<Node>)

  /** The two names the copy touches next to each other, and whether the
      directories above them exist yet. */
  class Destination {
    const dirMode: nat      // what a new directory gets under this umask
    var dst: Option<Node>
    var tmp: Option<Node>
    var parents: bool

    constructor (dirMode: nat, dst: Option<Node>, parents: bool)
      ensures this.dirMode == dirMode && this.dst == dst && tmp == None && this.parents == parents
    {
      this.dirMode, this.dst, tmp, this.parents := dirMode, dst, None, parents;
    }

    /** Best-effort removal of our own temporary. */
    method Cleanup(fails: bool)
      modifies `tmp
      ensures tmp == if fails then old(tmp) else None
    {
      if !fails {
        tmp := None;
      }
    }

    /** `try_clone`: clone beside the destination, then rename into place. */
    method TryClone(src: Node, macos: bool, f: Faults) returns (done: bool)
      requires tmp == None
      modifies this
      ensures done <==> && macos && old(dst).None? && Eligible(src, Permissions(dirMode))
                        && !f.createFails && !f.probeFails && !f.removeFails && !f.cloneFails && !f.renameFails
      ensures done ==> dst == Some(src) && tmp == None && Reproduces(LoopCopy(src, dirMode), src)
      ensures !done ==> dst == old(dst)
      ensures !done && !f.cleanupFails && !f.removeFails ==> tmp == None
      ensures done ==> parents
      ensures old(parents) ==> parents
      ensures !macos || old(dst).Some? ==> !done && unchanged(this)
    {
      if !macos || dst.Some? || !src.Dir? {
        return false;
      }
      if f.createFails {
        return false;
      }
      parents := true;
      tmp := Some(Dir(dirMode, true, []));
      if f.probeFails {
        Cleanup(f.removeFails);
        return false;
      }
      var newDirMode := Permissions(tmp.value.mode);
      if f.removeFails {
        return false;
      }
      tmp := None;
      var eligible := TreeIsEligible(src, newDirMode);
      if !eligible {
        return false;
      }
      if f.cloneFails {
        tmp := f.partial;
        Cleanup(f.cleanupFails);
        return false;
      }
      tmp := Some(src);
      if f.renameFails {
        Cleanup(f.cleanupFails);
        return false;
      }
      dst, tmp := tmp, None;
      CleanTreeCopies(src, dirMode);
      done := true;
    }

    /** `copy_dir_all`: never a different outcome from the loop, only a faster one, but
        for the set-id and sticky bits a cloned directory keeps. */
    method CopyDirAll(src: Node, macos: bool, f: Faults, loop: LoopResult) returns (ok: bool)
      requires tmp == None
      requires dst == None ==>
                 (loop.ok <==> LoopCopy(src, dirMode).Some?) && (loop.ok ==> loop.dst == LoopCopy(src, dirMode))
      modifies this
      ensures ok == loop.ok
      ensures dst == loop.dst || (old(dst).None? && dst == Some(src) && Reproduces(loop.dst, src))
      ensures NewModes(src, dirMode) ==> dst == loop.dst
    {
      var done := TryClone(src, macos, f);
      if done {
        SameTreeExactly(src, dirMode);
        return true;
      }
      dst := loop.dst;
      ok := loop.ok;
    }
  }
}
