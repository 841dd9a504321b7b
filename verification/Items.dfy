/** How far the thing behind an attribute reaches, told by Rust's token trees and
    not by the brace count, and where the region finder of
    tools/check-enforcement-pairing.py stops in it. */
module Items {
  import opened Text

  // ----------------------------------------------------------- token trees --

  /** Source text without comments and literals: characters, and bracketed groups. */
  datatype Trees = Nil | Leaf(c: char, rest: Trees) | Group(open: char, inner: Trees, rest: Trees)

  predicate IsOpener(c: char) { c == '(' || c == '[' || c == '{' }

  predicate IsCloser(c: char) { c == ')' || c == ']' || c == '}' }

  function Closer(open: char): char { if open == '(' then ')' else if open == '[' then ']' else '}' }

  function Written(t: Trees): string {
    match t
    case Nil => []
    case Leaf(c, rest) => [c] + Written(rest)
    case Group(open, inner, rest) => [open] + (Written(inner) + ([Closer(open)] + Written(rest)))
  }

  /** What an attribute stands before: an item, or an element of a list such as a
      field, a variant or a match arm. */
  datatype Kind = Item | Listed

  /** What ends it outside its groups: an item runs at least to its first semicolon
      or block, an element of a list no further than its comma. Inside a group
      nothing does. */
  predicate Stops(scope: Option<Kind>, c: char) {
    scope.Some? && (c == ';' || c == '{' || (c == ',' && scope.value.Listed?))
  }

  /** Every bracket is part of a group, and nothing that stops stands outside the
      groups. */
  predicate IsTrees(t: Trees, scope: Option<Kind>) {
    match t
    case Nil => true
    case Leaf(c, rest) => !IsOpener(c) && !IsCloser(c) && !Stops(scope, c) && IsTrees(rest, scope)
    case Group(open, inner, rest) =>
      IsOpener(open) && !Stops(scope, open) && IsTrees(inner, None) && IsTrees(rest, scope)
  }

  datatype Tail = Semicolon | Block(body: Trees) | Comma | Enclosed

  /** An attributed thing: the trees before its end, and its end. The last element
      of a list may end with the group around it. */
  datatype Thing = Thing(lead: Trees, tail: Tail)

  function TailText(tail: Tail): string {
    match tail
    case Semicolon => ";"
    case Block(body) => "{" + (Written(body) + "}")
    case Comma => ","
    case Enclosed => ""
  }

  function TextOf(x: Thing): string { Written(x.lead) + TailText(x.tail) }

  /** The thing of this kind that `m` starts with. */
  ghost predicate IsThing(m: string, kind: Kind, x: Thing) {
    && IsTrees(x.lead, Some(kind))
    && (x.tail.Block? ==> IsTrees(x.tail.body, None))
    && (x.tail.Comma? || x.tail.Enclosed? ==> kind.Listed?)
    && StandsAt(m, TextOf(x), 0)
    && (x.tail.Enclosed? ==> |TextOf(x)| == |m| || IsCloser(m[|TextOf(x)|]))
  }

  // ------------------------------------------------- one thing, not several --

  /** Nothing more of the trees can follow at `i`. */
  predicate IsOver(m: string, i: nat, scope: Option<Kind>) {
    i >= |m| || IsCloser(m[i]) || Stops(scope, m[i])
  }

  lemma {:induction false} GroupParts(m: string, i: nat, t: Trees)
    requires t.Group? && StandsAt(m, Written(t), i)
    ensures i < |m| && m[i] == t.open
    ensures StandsAt(m, Written(t.inner), i + 1)
    ensures i + 1 + |Written(t.inner)| < |m| && m[i + 1 + |Written(t.inner)|] == Closer(t.open)
    ensures StandsAt(m, Written(t.rest), i + 2 + |Written(t.inner)|)
    ensures |Written(t)| == 2 + |Written(t.inner)| + |Written(t.rest)|
  {
    var inner, rest := Written(t.inner), Written(t.rest);
    StandsAtParts(m, i, [t.open], inner + ([Closer(t.open)] + rest));
    StandsAtParts(m, i + 1, inner, [Closer(t.open)] + rest);
    StandsAtParts(m, i + 1 + |inner|, [Closer(t.open)], rest);
    assert m[i + 0] == [t.open][0] && m[i + 1 + |inner| + 0] == [Closer(t.open)][0];
  }

  lemma {:induction false} LeafParts(m: string, i: nat, t: Trees)
    requires t.Leaf? && StandsAt(m, Written(t), i)
    ensures i < |m| && m[i] == t.c && StandsAt(m, Written(t.rest), i + 1)
    ensures |Written(t)| == 1 + |Written(t.rest)|
  {
    StandsAtParts(m, i, [t.c], Written(t.rest));
    assert m[i + 0] == [t.c][0];
  }

  /** Where a text of trees ends is fixed by the text. */
  lemma {:induction false} TreesEndOnce(m: string, i: nat, t: Trees, u: Trees, scope: Option<Kind>)
    requires IsTrees(t, scope) && StandsAt(m, Written(t), i) && IsOver(m, i + |Written(t)|, scope)
    requires IsTrees(u, scope) && StandsAt(m, Written(u), i) && IsOver(m, i + |Written(u)|, scope)
    ensures |Written(t)| == |Written(u)|
    decreases t, 1
  {
    SameShape(m, i, t, u, scope);
    if t.Leaf? {
      LeafParts(m, i, t);
      LeafParts(m, i, u);
      TreesEndOnce(m, i + 1, t.rest, u.rest, scope);
    } else if t.Group? {
      GroupEndsOnce(m, i, t, u, scope);
    }
  }

  /** The next character tells which shape comes next. */
  lemma {:induction false} SameShape(m: string, i: nat, t: Trees, u: Trees, scope: Option<Kind>)
    requires IsTrees(t, scope) && StandsAt(m, Written(t), i) && IsOver(m, i + |Written(t)|, scope)
    requires IsTrees(u, scope) && StandsAt(m, Written(u), i) && IsOver(m, i + |Written(u)|, scope)
    ensures t.Nil? == u.Nil? && t.Leaf? == u.Leaf?
  {
    FirstOf(m, i, t, scope);
    FirstOf(m, i, u, scope);
  }

  lemma {:induction false} FirstOf(m: string, i: nat, t: Trees, scope: Option<Kind>)
    requires IsTrees(t, scope) && StandsAt(m, Written(t), i) && IsOver(m, i + |Written(t)|, scope)
    ensures t.Nil? <==> IsOver(m, i, scope)
    ensures t.Group? <==> i < |m| && IsOpener(m[i]) && !Stops(scope, m[i])
  {
    if t.Leaf? {
      LeafParts(m, i, t);
    } else if t.Group? {
      GroupParts(m, i, t);
    }
  }

  lemma {:induction false} GroupEndsOnce(m: string, i: nat, t: Trees, u: Trees, scope: Option<Kind>)
    requires t.Group? && IsTrees(t, scope) && StandsAt(m, Written(t), i) && IsOver(m, i + |Written(t)|, scope)
    requires u.Group? && IsTrees(u, scope) && StandsAt(m, Written(u), i) && IsOver(m, i + |Written(u)|, scope)
    ensures |Written(t)| == |Written(u)|
    decreases t, 0
  {
    GroupParts(m, i, t);
    GroupParts(m, i, u);
    TreesEndOnce(m, i + 1, t.inner, u.inner, None);
    TreesEndOnce(m, i + 2 + |Written(t.inner)|, t.rest, u.rest, scope);
  }

  lemma {:induction false} ThingParts(m: string, kind: Kind, x: Thing)
    requires IsThing(m, kind, x)
    ensures StandsAt(m, Written(x.lead), 0) && IsOver(m, |Written(x.lead)|, Some(kind))
    ensures StandsAt(m, TailText(x.tail), |Written(x.lead)|)
    ensures |TextOf(x)| == |Written(x.lead)| + |TailText(x.tail)|
    ensures TailText(x.tail) != [] ==> |Written(x.lead)| < |m| && m[|Written(x.lead)|] == TailText(x.tail)[0]
  {
    var n := |Written(x.lead)|;
    StandsAtParts(m, 0, Written(x.lead), TailText(x.tail));
    if TailText(x.tail) != [] {
      assert m[n + 0] == TailText(x.tail)[0];
    }
  }

  lemma {:induction false} BlockParts(m: string, n: nat, body: Trees)
    requires StandsAt(m, TailText(Block(body)), n)
    ensures StandsAt(m, Written(body), n + 1)
    ensures n + 1 + |Written(body)| < |m| && m[n + 1 + |Written(body)|] == '}'
  {
    StandsAtParts(m, n, "{", Written(body) + "}");
    StandsAtParts(m, n + 1, Written(body), "}");
    assert m[n + 1 + |Written(body)| + 0] == "}"[0];
  }

  lemma BlockLength(body: Trees)
    ensures |TailText(Block(body))| == |Written(body)| + 2
  {
  }

  /** A block has one end only. */
  lemma {:induction false} BlockEndsOnce(m: string, n: nat, t: Trees, u: Trees)
    requires IsTrees(t, None) && StandsAt(m, Written(t), n + 1)
    requires n + 1 + |Written(t)| < |m| && m[n + 1 + |Written(t)|] == '}'
    requires IsTrees(u, None) && StandsAt(m, Written(u), n + 1)
    requires n + 1 + |Written(u)| < |m| && m[n + 1 + |Written(u)|] == '}'
    ensures |TailText(Block(t))| == |TailText(Block(u))|
  {
    TreesEndOnce(m, n + 1, t, u, None);
    BlockLength(t);
    BlockLength(u);
  }

  /** The end `a` stands at `n`; said without its text. */
  ghost predicate TailFits(m: string, n: nat, a: Tail) {
    match a
    case Semicolon => n < |m| && m[n] == ';'
    case Comma => n < |m| && m[n] == ','
    case Enclosed => n >= |m| || IsCloser(m[n])
    case Block(body) =>
      && n < |m| && m[n] == '{' && IsTrees(body, None) && StandsAt(m, Written(body), n + 1)
      && n + 1 + |Written(body)| < |m| && m[n + 1 + |Written(body)|] == '}'
  }

  lemma {:induction false} ThingTailFits(m: string, kind: Kind, x: Thing)
    requires IsThing(m, kind, x)
    ensures TailFits(m, |Written(x.lead)|, x.tail)
  {
    ThingParts(m, kind, x);
    if x.tail.Block? {
      BlockParts(m, |Written(x.lead)|, x.tail.body);
    }
  }

  lemma {:induction false} SameTail(m: string, n: nat, a: Tail, b: Tail)
    requires TailFits(m, n, a) && TailFits(m, n, b)
    ensures |TailText(a)| == |TailText(b)|
  {
    if a.Block? && b.Block? {
      BlockEndsOnce(m, n, a.body, b.body);
    }
  }

  /** A text starts with at most one thing of a kind. */
  lemma {:induction false} OneThing(m: string, kind: Kind, x: Thing, y: Thing)
    requires IsThing(m, kind, x) && IsThing(m, kind, y)
    ensures |TextOf(x)| == |TextOf(y)|
  {
    ThingParts(m, kind, x);
    ThingParts(m, kind, y);
    TreesEndOnce(m, 0, x.lead, y.lead, Some(kind));
    ThingTailFits(m, kind, x);
    ThingTailFits(m, kind, y);
    SameTail(m, |Written(x.lead)|, x.tail, y.tail);
  }

  // ------------------------------------------------------- braces of a text --

  function Weight(c: char): int { if c == '{' then 1 else if c == '}' then -1 else 0 }

  /** Openers less closers among the first `k` characters. */
  function Depth(m: string, k: nat): int
    requires k <= |m|
  {
    if k == 0 then 0 else Depth(m, k - 1) + Weight(m[k - 1])
  }

  /** Some block opens among the first `k` characters. */
  predicate Opened(m: string, k: nat)
    requires k <= |m|
  {
    exists j :: 0 <= j < k && m[j] == '{'
  }

  /** As many openers as closers, and never more closers before. */
  ghost predicate IsLevel(s: string) {
    Depth(s, |s|) == 0 && forall k :: 0 <= k <= |s| ==> Depth(s, k) >= 0
  }

  /** The depths behind `n` are those of the text that stands there. */
  lemma {:induction false} DepthFrom(m: string, n: nat, s: string, k: nat)
    requires StandsAt(m, s, n) && k <= |s|
    ensures Depth(m, n + k) == Depth(m, n) + Depth(s, k)
    decreases k
  {
    if k == 0 {
    } else {
      DepthFrom(m, n, s, k - 1);
      assert m[n + (k - 1)] == s[k - 1];
    }
  }

  lemma {:induction false} LevelJoin(a: string, b: string)
    requires IsLevel(a) && IsLevel(b)
    ensures IsLevel(a + b)
  {
    assert StandsAt(a + b, a, 0) && StandsAt(a + b, b, |a|);
    forall k | 0 <= k <= |a + b| ensures Depth(a + b, k) == if k <= |a| then Depth(a, k) else Depth(b, k - |a|) {
      DepthFrom(a + b, 0, a, |a|);
      if k <= |a| {
        DepthFrom(a + b, 0, a, k);
      } else {
        DepthFrom(a + b, |a|, b, k - |a|);
      }
    }
  }

  lemma {:induction false} LevelOne(c: char)
    requires c != '{' && c != '}'
    ensures IsLevel([c])
  {
    assert Depth([c], 1) == Depth([c], 0) + Weight([c][0]);
  }

  lemma {:induction false} WrapDepth(t: string, s: string, k: nat)
    requires t == "{" + (s + "}") && 1 <= k <= |s| + 1
    ensures Depth(t, k) == 1 + Depth(s, k - 1)
  {
    assert StandsAt(t, s, 1);
    assert t[0] == '{' && Depth(t, 0) == 0 && Depth(t, 1) == 1;
    DepthFrom(t, 1, s, k - 1);
  }

  lemma {:induction false} LevelWrap(s: string)
    requires IsLevel(s)
    ensures IsLevel("{" + (s + "}"))
  {
    var t := "{" + (s + "}");
    assert t[|s| + 1] == '}' && Depth(t, 0) == 0;
    WrapDepth(t, s, |s| + 1);
    assert Depth(t, |s| + 2) == Depth(t, |s| + 1) + Weight(t[|s| + 1]);
    forall k | 0 <= k <= |t| ensures Depth(t, k) >= 0 {
      if 1 <= k <= |s| + 1 {
        WrapDepth(t, s, k);
      }
    }
  }

  lemma {:induction false} GroupIsLevel(open: char, s: string)
    requires IsOpener(open) && IsLevel(s)
    ensures IsLevel([open] + (s + [Closer(open)]))
  {
    if open == '{' {
      LevelWrap(s);
    } else {
      LevelOne(open);
      LevelOne(Closer(open));
      LevelJoin(s, [Closer(open)]);
      LevelJoin([open], s + [Closer(open)]);
    }
  }

  lemma {:induction false} TreesAreLevel(t: Trees, scope: Option<Kind>)
    requires IsTrees(t, scope)
    ensures IsLevel(Written(t))
  {
    match t
    case Nil =>
    case Leaf(c, rest) =>
      LevelOne(c);
      TreesAreLevel(rest, scope);
      LevelJoin([c], Written(rest));
    case Group(open, inner, rest) =>
      TreesAreLevel(inner, None);
      TreesAreLevel(rest, scope);
      GroupIsLevel(open, Written(inner));
      LevelJoin([open] + (Written(inner) + [Closer(open)]), Written(rest));
      Regrouped([open], Written(inner), [Closer(open)], Written(rest));
  }

  lemma Regrouped(a: string, b: string, c: string, d: string)
    ensures (a + (b + c)) + d == a + (b + (c + d))
  {
  }

  lemma {:induction false} TailIsLevel(tail: Tail)
    requires tail.Block? ==> IsTrees(tail.body, None)
    ensures IsLevel(TailText(tail))
  {
    match tail
    case Semicolon =>
      LevelOne(';');
    case Block(body) =>
      TreesAreLevel(body, None);
      LevelWrap(Written(body));
    case Comma =>
      LevelOne(',');
    case Enclosed =>
  }

  // ---------------------------------------------------- where the scan stops --

  /** The scan that starts with `m` stops at `k`: at the brace that brings an opened
      block back to balance, or at the semicolon of a text without one. */
  ghost predicate Closing(m: string, k: nat) {
    && k < |m|
    && (|| (m[k] == '}' && Opened(m, k) && Depth(m, k) <= 1)
        || (m[k] == ';' && !Opened(m, k) && Depth(m, k) == 0))
  }

  ghost predicate NoneBefore(m: string, k: nat) { forall j: nat :: j < k ==> !Closing(m, j) }

  ghost predicate FirstClosing(m: string, k: nat) { Closing(m, k) && NoneBefore(m, k) }

  predicate IsMark(c: char) { c == '{' || c == '}' || c == ';' }

  predicate NoMarks(m: string, f: nat)
    requires f <= |m|
  {
    forall j :: 0 <= j < f ==> !IsMark(m[j])
  }

  /** The first brace or semicolon stands at `f`. */
  predicate FirstMark(m: string, f: nat) { f < |m| && IsMark(m[f]) && NoMarks(m, f) }

  lemma {:induction false} BeforeMark(m: string, f: nat, j: nat)
    requires j <= f <= |m| && NoMarks(m, f)
    ensures Depth(m, j) == 0 && !Opened(m, j)
    ensures j < f ==> !Closing(m, j)
    decreases j
  {
    if j == 0 {
    } else {
      BeforeMark(m, f, j - 1);
    }
  }

  lemma {:induction false} SemicolonStops(m: string, f: nat)
    requires FirstMark(m, f) && m[f] == ';'
    ensures Closing(m, f)
  {
    BeforeMark(m, f, f);
  }

  /** While the scan goes on behind an opening brace, the block stays open. */
  lemma {:induction false} BlockStaysOpen(m: string, f: nat, j: nat)
    requires FirstMark(m, f) && m[f] == '{' && f < j <= |m| && NoneBefore(m, j)
    ensures Depth(m, j) >= 1 && Opened(m, j)
    decreases j
  {
    if j == f + 1 {
      BeforeMark(m, f, f);
    } else {
      BlockStaysOpen(m, f, j - 1);
      assert !Closing(m, j - 1);
    }
  }

  lemma {:induction false} MarkExists(m: string, n: nat) returns (f: nat)
    requires n <= |m| && !NoMarks(m, n)
    ensures FirstMark(m, f) && f < n
    decreases n
  {
    if NoMarks(m, n - 1) {
      f := n - 1;
    } else {
      f := MarkExists(m, n - 1);
    }
  }

  lemma {:induction false} NeverBelow(m: string, f: nat, k: nat, j: nat)
    requires FirstMark(m, f) && m[f] != '}' && FirstClosing(m, k) && f <= k && j <= k + 1
    ensures Depth(m, j) >= 0
  {
    if j <= f {
      BeforeMark(m, f, j);
    } else if m[f] == ';' {
      BeforeMark(m, f, f);
      assert Closing(m, f);
    } else if j <= k {
      BlockStaysOpen(m, f, j);
    } else if f < k {
      BlockStaysOpen(m, f, k);
    } else {
      BeforeMark(m, f, f);
    }
  }

  /** The scan leaves the block that holds the attribute if and only if the first
      brace or semicolon behind the attribute is a closing brace. */
  lemma {:induction false} LeavesBlockExactly(m: string, k: nat)
    requires FirstClosing(m, k)
    ensures (exists j :: 0 <= j <= k + 1 && Depth(m, j) < 0) <==> (exists f: nat :: FirstMark(m, f) && m[f] == '}')
  {
    assert IsMark(m[k]);
    var f := MarkExists(m, k + 1);
    BeforeMark(m, f, f);
    if m[f] == '}' {
      assert Depth(m, f + 1) < 0;
    } else {
      forall j | 0 <= j <= k + 1 ensures Depth(m, j) >= 0 {
        NeverBelow(m, f, k, j);
      }
      forall g: nat | FirstMark(m, g) ensures g == f {
      }
    }
  }

  /** A level stretch holds something to stop at. */
  predicate HoldsStop(s: string) { ';' in s || '{' in s }

  /** In a level stretch at the front the first mark is no closing brace. */
  lemma {:induction false} LevelMark(m: string, s: string) returns (f: nat)
    requires StandsAt(m, s, 0) && IsLevel(s) && !NoMarks(s, |s|)
    ensures f < |s| && FirstMark(m, f) && m[f] != '}' && HoldsStop(s)
  {
    assert forall j :: 0 <= j < |s| ==> m[0 + j] == s[j];
    f := MarkExists(s, |s|);
    assert m[f] == s[f];
    forall j | 0 <= j < f ensures !IsMark(m[j]) {
      assert m[j] == s[j];
    }
    BeforeMark(s, f, f);
    assert Depth(s, f + 1) >= 0;
  }

  lemma {:induction false} StopHasMark(s: string)
    requires HoldsStop(s)
    ensures !NoMarks(s, |s|)
  {
    var k :| 0 <= k < |s| && (s[k] == ';' || s[k] == '{');
    assert IsMark(s[k]);
  }

  lemma {:induction false} LevelIsPassed(m: string, s: string)
    requires StandsAt(m, s, 0) && IsLevel(s) && NoneBefore(m, |s|)
    ensures !HoldsStop(s) && NoMarks(s, |s|)
  {
    if !NoMarks(s, |s|) {
      var f := LevelMark(m, s);
      DepthFrom(m, 0, s, |s|);
      if m[f] == '{' {
        BlockStaysOpen(m, f, |s|);
      } else {
        SemicolonStops(m, f);
      }
    }
    if HoldsStop(s) {
      StopHasMark(s);
    }
  }

  lemma {:induction false} ClosingHolds(m: string, s: string, k: nat)
    requires StandsAt(m, s, 0) && k < |s| && Closing(m, k)
    ensures HoldsStop(s)
  {
    assert forall j :: 0 <= j < |s| ==> m[0 + j] == s[j];
    assert m[k] == s[k];
    if m[k] == '}' {
      var j :| 0 <= j < k && m[j] == '{';
      assert s[j] == m[j];
    }
  }

  /** In a level stretch at the front, the scan stops if and only if there is a
      semicolon or a block to stop at. */
  lemma {:induction false} LevelStops(m: string, s: string)
    requires StandsAt(m, s, 0) && IsLevel(s)
    ensures (exists k: nat :: k < |s| && Closing(m, k)) <==> HoldsStop(s)
  {
    if k: nat :| k < |s| && Closing(m, k) {
      ClosingHolds(m, s, k);
    } else {
      LevelIsPassed(m, s);
    }
  }

  /** The scan stops within the attributed thing if and only if the thing holds a
      semicolon or a block. */
  lemma {:induction false} StaysExactly(m: string, kind: Kind, x: Thing)
    requires IsThing(m, kind, x)
    ensures (exists k: nat :: k < |TextOf(x)| && Closing(m, k)) <==> HoldsStop(TextOf(x))
  {
    TreesAreLevel(x.lead, Some(kind));
    TailIsLevel(x.tail);
    LevelJoin(Written(x.lead), TailText(x.tail));
    LevelStops(m, TextOf(x));
  }

  /** A thing ends before the brace that closes the block around it. */
  lemma {:induction false} StaysInBlock(m: string, kind: Kind, x: Thing, f: nat)
    requires IsThing(m, kind, x) && FirstMark(m, f) && m[f] == '}'
    ensures |TextOf(x)| <= f
  {
    TreesAreLevel(x.lead, Some(kind));
    TailIsLevel(x.tail);
    LevelJoin(Written(x.lead), TailText(x.tail));
    if f < |TextOf(x)| {
      DepthFrom(m, 0, TextOf(x), f + 1);
      BeforeMark(m, f, f);
    }
  }

  /** A stretch without braces and semicolons. */
  lemma {:induction false} PlainStretch(m: string, n: nat, s: string, k: nat)
    requires StandsAt(m, s, n) && NoMarks(s, |s|) && k <= |s|
    ensures Depth(m, n + k) == Depth(m, n) && (Opened(m, n + k) <==> Opened(m, n))
    ensures k < |s| ==> !Closing(m, n + k)
    decreases k
  {
    if k == 0 {
    } else {
      PlainStretch(m, n, s, k - 1);
      assert m[n + (k - 1)] == s[k - 1];
    }
    if k < |s| {
      assert m[n + k] == s[k];
    }
  }

  lemma {:induction false} MarkBehind(m: string, a: string, rest: string)
    requires StandsAt(m, a + ("}" + rest), 0) && NoMarks(a, |a|)
    ensures FirstMark(m, |a|) && m[|a|] == '}' && StandsAt(m, rest, |a| + 1)
  {
    StandsAtParts(m, 0, a, "}" + rest);
    StandsAtParts(m, |a|, "}", rest);
    assert m[|a| + 0] == "}"[0];
    forall k | 0 <= k < |a| ensures !IsMark(m[k]) {
      assert m[0 + k] == a[k];
    }
  }

  /** When the block around the attribute closes first, the scan runs on to the end
      of the next block. */
  lemma {:induction false} NextBlockIsTaken(m: string, a: string, b: string, c: string)
    requires StandsAt(m, a + ("}" + (b + ("{" + (c + "}")))), 0)
    requires NoMarks(a, |a|) && NoMarks(b, |b|) && NoMarks(c, |c|)
    ensures FirstMark(m, |a|) && m[|a|] == '}'
    ensures FirstClosing(m, |a| + |b| + |c| + 2)
  {
    var i, j := |a| + 1, |a| + |b| + 2;
    MarkBehind(m, a, b + ("{" + (c + "}")));
    StandsAtParts(m, i, b, "{" + (c + "}"));
    StandsAtParts(m, i + |b|, "{", c + "}");
    StandsAtParts(m, j, c, "}");
    assert m[i + |b| + 0] == "{"[0] && m[j + |c| + 0] == "}"[0];
    BeforeMark(m, |a|, |a|);
    PlainStretch(m, i, b, |b|);
    PlainStretch(m, j, c, |c|);
    forall k: nat | k < j + |c| ensures !Closing(m, k) {
      if k < |a| {
        BeforeMark(m, |a|, k);
      } else if i <= k < i + |b| {
        PlainStretch(m, i, b, k - i);
      } else if j <= k {
        PlainStretch(m, j, c, k - j);
      }
    }
  }

  lemma {:induction false} DepthInBlock(m: string, n: nat, body: string, j: nat)
    requires StandsAt(m, "{" + (body + "}"), n) && n < j <= n + |body| + 1 && NoMarks(m, n)
    ensures Depth(m, j) == 1 + Depth(body, j - (n + 1)) && Opened(m, j)
  {
    StandsAtParts(m, n, "{", body + "}");
    StandsAtParts(m, n + 1, body, "}");
    assert m[n + 0] == "{"[0];
    BeforeMark(m, n, n);
    DepthFrom(m, n + 1, body, j - (n + 1));
  }

  lemma {:induction false} NotClosedYet(m: string, n: nat, body: string, j: nat)
    requires StandsAt(m, "{" + (body + "}"), n) && IsLevel(body) && j < n + |body| + 1 && NoMarks(m, n)
    ensures !Closing(m, j)
  {
    if j < n {
      BeforeMark(m, n, j);
    } else if j == n {
      StandsAtParts(m, n, "{", body + "}");
      assert m[n + 0] == "{"[0];
    } else {
      DepthInBlock(m, n, body, j);
      DepthInBlock(m, n, body, j + 1);
      assert Depth(body, j + 1 - (n + 1)) >= 0;
    }
  }

  /** A block that opens at `n`, with no mark before, is closed by its own brace. */
  lemma {:induction false} BlockIsClosed(m: string, n: nat, body: string)
    requires StandsAt(m, "{" + (body + "}"), n) && IsLevel(body) && NoMarks(m, n)
    ensures FirstClosing(m, n + |body| + 1)
  {
    var last := n + |body| + 1;
    DepthInBlock(m, n, body, last);
    StandsAtParts(m, n, "{", body + "}");
    StandsAtParts(m, n + 1, body, "}");
    assert m[last + 0] == "}"[0];
    forall j: nat | j < last ensures !Closing(m, j) {
      NotClosedYet(m, n, body, j);
    }
  }

  lemma {:induction false} StopsAtTail(m: string, lead: string, tail: Tail)
    requires StandsAt(m, lead, 0) && StandsAt(m, TailText(tail), |lead|) && NoMarks(lead, |lead|)
    requires tail.Semicolon? || (tail.Block? && IsLevel(Written(tail.body)))
    ensures FirstClosing(m, |lead| + |TailText(tail)| - 1)
  {
    forall j | 0 <= j < |lead| ensures !IsMark(m[j]) {
      assert m[0 + j] == lead[j];
    }
    if tail.Block? {
      BlockIsClosed(m, |lead|, Written(tail.body));
    } else {
      assert m[|lead| + 0] == ";"[0];
      BeforeMark(m, |lead|, |lead|);
      forall j: nat | j < |lead| ensures !Closing(m, j) {
        BeforeMark(m, |lead|, j);
      }
    }
  }

  lemma {:induction false} StopsAtEnd(m: string, lead: string, tail: Tail)
    requires StandsAt(m, lead, 0) && StandsAt(m, TailText(tail), |lead|) && IsLevel(lead)
    requires tail.Semicolon? || (tail.Block? && IsLevel(Written(tail.body)))
    ensures FirstClosing(m, |lead| + |TailText(tail)| - 1) <==> !HoldsStop(lead)
  {
    if !HoldsStop(lead) {
      if !NoMarks(lead, |lead|) {
        var f := LevelMark(m, lead);
      }
      StopsAtTail(m, lead, tail);
    } else if FirstClosing(m, |lead| + |TailText(tail)| - 1) {
      LevelIsPassed(m, lead);
    }
  }

  lemma {:induction false} TreesStopAtEnd(m: string, kind: Kind, lead: Trees, tail: Tail, k: nat)
    requires IsTrees(lead, Some(kind)) && (tail.Semicolon? || (tail.Block? && IsTrees(tail.body, None)))
    requires StandsAt(m, Written(lead), 0) && StandsAt(m, TailText(tail), |Written(lead)|)
    requires k + 1 == |Written(lead)| + |TailText(tail)|
    ensures FirstClosing(m, k) <==> !HoldsStop(Written(lead))
  {
    TreesAreLevel(lead, Some(kind));
    if tail.Block? {
      TreesAreLevel(tail.body, None);
    }
    StopsAtEnd(m, Written(lead), tail);
  }

  /** It stops at the very end of a thing that ends with a semicolon or a block if
      and only if none stands in brackets before. */
  lemma {:induction false} EndsExactly(m: string, kind: Kind, x: Thing)
    requires IsThing(m, kind, x) && (x.tail.Semicolon? || x.tail.Block?)
    ensures FirstClosing(m, |TextOf(x)| - 1) <==> !HoldsStop(Written(x.lead))
  {
    ThingParts(m, kind, x);
    TreesStopAtEnd(m, kind, x.lead, x.tail, |TextOf(x)| - 1);
  }
}
