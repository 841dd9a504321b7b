/** The line scan of the region finder, read on the text that the lines are taken
    from (tools/check-enforcement-pairing.py). */
module Extents {
  import opened Text
  import opened Regions
  import opened Lines
  import opened Items

  lemma {:induction false} NetIsDepth(s: string, k: nat)
    requires k <= |s|
    ensures Net(s[..k]) == Depth(s, k) && ('{' in s[..k] <==> Opened(s, k))
    decreases k
  {
    if k == 0 {
    } else {
      NetIsDepth(s, k - 1);
      assert s[..k] == s[..k - 1] + [s[k - 1]];
    }
  }

  lemma {:induction false} NetOfWhole(s: string)
    ensures Net(s) == Depth(s, |s|) && ('{' in s <==> Opened(s, |s|))
  {
    NetIsDepth(s, |s|);
    assert s[..|s|] == s;
  }

  lemma OpenedFrom(m: string, n: nat, s: string, k: nat)
    requires StandsAt(m, s, n) && k <= |s|
    ensures Opened(m, n + k) <==> Opened(m, n) || Opened(s, k)
  {
    if Opened(s, k) {
      var j :| 0 <= j < k && s[j] == '{';
      assert m[n + j] == '{';
    }
    if Opened(m, n + k) && !Opened(m, n) {
      var j :| 0 <= j < n + k && m[j] == '{';
      assert m[n + (j - n)] == s[j - n];
    }
  }

  /** Where line `j` stands behind the start of line `i`. */
  function Offset(lines: seq<string>, i: nat, j: nat): nat
    requires i <= j <= |lines|
  {
    if i == j then 0 else Offset(lines, i, j - 1) + |lines[j - 1]| + 1
  }

  /** Line `j` stands in `m` where it should, and its newline behind it; the last
      line may go without. */
  ghost predicate LineFits(m: string, lines: seq<string>, i: nat, j: nat)
    requires i <= j < |lines|
  {
    var end := Offset(lines, i, j) + |lines[j]|;
    && StandsAt(m, lines[j], Offset(lines, i, j))
    && (StandsAt(m, "\n", end) || (j + 1 == |lines| && |m| == end))
    && (j + 1 == |lines| ==> |m| <= end + 1)
  }

  /** `m` is made of the lines from `i` on. */
  ghost predicate Spells(m: string, lines: seq<string>, i: nat) {
    forall j :: i <= j < |lines| ==> LineFits(m, lines, i, j)
  }

  lemma NetOfSum(a: string, b: string)
    ensures Net(a + b) == Net(a) + Net(b) && ('{' in a + b <==> '{' in a || '{' in b)
  {
  }

  /** One line and its newline further on. */
  lemma {:induction false} SeenLine(m: string, before: string, line: string, off: nat)
    requires StandsAt(m, line, off) && StandsAt(m, "\n", off + |line|)
    requires Depth(m, off) == Net(before) && (Opened(m, off) <==> '{' in before)
    ensures Depth(m, off + |line| + 1) == Net(before + line)
    ensures Opened(m, off + |line| + 1) <==> '{' in before + line
  {
    DepthFrom(m, off, line, |line|);
    OpenedFrom(m, off, line, |line|);
    DepthFrom(m, off + |line|, "\n", 1);
    OpenedFrom(m, off + |line|, "\n", 1);
    NetOfWhole(line);
    NetOfSum(before, line);
    assert Depth("\n", 1) == Depth("\n", 0) + Weight("\n"[0]);
  }

  lemma JoinedNext(lines: seq<string>, i: nat, j: nat)
    requires i <= j < |lines|
    ensures Joined(lines, i, j + 1) == Joined(lines, i, j) + lines[j]
    ensures Offset(lines, i, j + 1) == Offset(lines, i, j) + |lines[j]| + 1
  {
  }

  /** What the scan has seen before a line is what stands before it in the text. */
  lemma {:induction false} SeenBefore(m: string, lines: seq<string>, i: nat, j: nat)
    requires i <= j < |lines| && Spells(m, lines, i)
    ensures Offset(lines, i, j) <= |m|
    ensures Depth(m, Offset(lines, i, j)) == Net(Joined(lines, i, j))
    ensures Opened(m, Offset(lines, i, j)) <==> '{' in Joined(lines, i, j)
    decreases j
  {
    assert LineFits(m, lines, i, j);
    if i == j {
    } else {
      assert LineFits(m, lines, i, j - 1);
      SeenBefore(m, lines, i, j - 1);
      SeenLine(m, Joined(lines, i, j - 1), lines[j - 1], Offset(lines, i, j - 1));
      JoinedNext(lines, i, j - 1);
    }
  }

  lemma {:induction false} ClosesAtMeans(before: string, line: string, m: string, off: nat, p: nat)
    requires p < |line| && StandsAt(m, line, off)
    requires Depth(m, off) == Net(before) && (Opened(m, off) <==> '{' in before)
    ensures ClosesAt(before, line, p) <==> Closing(m, off + p)
  {
    assert m[off + p] == line[p];
    NetIsDepth(line, p);
    NetOfSum(before, line[..p]);
    DepthFrom(m, off, line, p);
    OpenedFrom(m, off, line, p);
  }

  /** The scan of `m` can stop among the `n` characters behind `off`. */
  ghost predicate StopsIn(m: string, off: nat, n: nat) {
    exists k :: off <= k < off + n && Closing(m, k)
  }

  lemma {:induction false} ClosesInText(before: string, line: string, m: string, off: nat)
    requires StandsAt(m, line, off)
    requires Depth(m, off) == Net(before) && (Opened(m, off) <==> '{' in before)
    ensures ClosesIn(before, line) <==> StopsIn(m, off, |line|)
  {
    ClosesInMeans(before, line);
    if p :| 0 <= p < |line| && ClosesAt(before, line, p) {
      ClosesAtMeans(before, line, m, off, p);
    }
    if k :| off <= k < off + |line| && Closing(m, k) {
      ClosesAtMeans(before, line, m, off, k - off);
    }
  }

  /** A line closes the item if and only if the scan of the text can stop in it. */
  lemma {:induction false} LineClosesMeans(m: string, lines: seq<string>, i: nat, j: nat)
    requires i <= j < |lines| && Spells(m, lines, i)
    ensures LineCloses(lines, i, j) <==> StopsIn(m, Offset(lines, i, j), |lines[j]|)
  {
    SeenBefore(m, lines, i, j);
    assert LineFits(m, lines, i, j);
    ClosesInText(Joined(lines, i, j), lines[j], m, Offset(lines, i, j));
  }

  // --------------------------------------------------- the first such place --

  /** Character `k` of the text stands in line `j`, or is its newline. */
  predicate InLine(lines: seq<string>, i: nat, j: nat, k: nat) {
    i <= j < |lines| && Offset(lines, i, j) <= k <= Offset(lines, i, j) + |lines[j]|
  }

  lemma {:induction false} OffsetGrows(lines: seq<string>, i: nat, j: nat, k: nat)
    requires i <= j < k <= |lines|
    ensures Offset(lines, i, j) + |lines[j]| < Offset(lines, i, k)
    decreases k
  {
    if j == k - 1 {
    } else {
      OffsetGrows(lines, i, j, k - 1);
    }
  }

  lemma {:induction false} NotInLine(m: string, lines: seq<string>, i: nat, j: nat, x: nat)
    requires Spells(m, lines, i) && i <= j < |lines| && !LineCloses(lines, i, j) && InLine(lines, i, j, x)
    ensures !Closing(m, x)
  {
    var end := Offset(lines, i, j) + |lines[j]|;
    assert LineFits(m, lines, i, j);
    LineClosesMeans(m, lines, i, j);
    if x == end && x < |m| {
      assert m[end + 0] == "\n"[0];
    }
  }

  /** The line the item ends on holds the first character the scan stops at. */
  lemma {:induction false} EndStops(m: string, lines: seq<string>, i: nat, e: nat) returns (k: nat)
    requires Spells(m, lines, i) && IsItemEnd(lines, i, e)
    ensures Closing(m, k) && InLine(lines, i, e, k)
    ensures forall j, x :: i <= j < e && InLine(lines, i, j, x) ==> !Closing(m, x)
  {
    LineClosesMeans(m, lines, i, e);
    k :| Offset(lines, i, e) <= k < Offset(lines, i, e) + |lines[e]| && Closing(m, k);
    forall j, x | i <= j < e && InLine(lines, i, j, x) ensures !Closing(m, x) {
      assert !LineCloses(lines, i, j);
      NotInLine(m, lines, i, j, x);
    }
  }

  // ------------------------------------------------- from a place in the text --

  lemma {:induction false} OffsetIsStart(lines: seq<string>, i: nat, j: nat)
    requires i <= j <= |lines|
    ensures StartOf(lines, j) == StartOf(lines, i) + Offset(lines, i, j)
    decreases j
  {
    if i == j {
    } else {
      OffsetIsStart(lines, i, j - 1);
    }
  }

  lemma {:induction false} LineFitsText(s: string, i: nat, j: nat)
    requires i <= j < |GitLines(s)| && StartOf(GitLines(s), i) <= |s|
    ensures LineFits(s[StartOf(GitLines(s), i)..], GitLines(s), i, j)
  {
    var lines, at := GitLines(s), StartOf(GitLines(s), i);
    OffsetIsStart(lines, i, j);
    LineStands(s, j);
    StandsBehind(s, at, lines[j], Offset(lines, i, j));
    if j + 1 < |lines| {
      LineEnds(s, j);
      StandsBehind(s, at, "\n", Offset(lines, i, j) + |lines[j]|);
    } else {
      LastLineEnds(s, j);
    }
  }

  /** A text is made of its lines, from every line on. */
  lemma {:induction false} TextSpells(s: string, i: nat)
    requires i < |GitLines(s)|
    ensures StartOf(GitLines(s), i) <= |s|
    ensures Spells(s[StartOf(GitLines(s), i)..], GitLines(s), i)
  {
    LineStands(s, i);
    forall j | i <= j < |GitLines(s)| ensures LineFits(s[StartOf(GitLines(s), i)..], GitLines(s), i, j) {
      LineFitsText(s, i, j);
    }
  }

  lemma StandsBehind(s: string, at: nat, a: string, off: nat)
    requires StandsAt(s, a, at + off)
    ensures StandsAt(s[at..], a, off)
  {
    forall k | 0 <= k < |a| ensures s[at..][off + k] == a[k] {
      assert s[at + off + k] == a[k];
    }
  }

  /** A stretch without braces and semicolons in front changes nothing. */
  lemma {:induction false} ClosingBehind(m: string, d: nat, k: nat)
    requires d <= |m| && NoMarks(m, d)
    ensures Closing(m, d + k) <==> Closing(m[d..], k)
    ensures k < d ==> !Closing(m, k)
  {
    BeforeMark(m, d, d);
    if d + k < |m| {
      assert StandsAt(m, m[d..], d);
      DepthFrom(m, d, m[d..], k);
      OpenedFrom(m, d, m[d..], k);
    }
  }

  lemma {:induction false} FirstOfThem(m: string, k: nat) returns (first: nat)
    requires Closing(m, k)
    ensures FirstClosing(m, first) && first <= k
    decreases k
  {
    if j: nat :| j < k && Closing(m, j) {
      first := FirstOfThem(m, j);
    } else {
      first := k;
    }
  }

  /** Every character up to the end of line `e` stands in a line, or ends one. */
  lemma {:induction false} LineOf(lines: seq<string>, i: nat, e: nat, k: nat) returns (j: nat)
    requires i <= e < |lines| && k <= Offset(lines, i, e) + |lines[e]|
    ensures j <= e && InLine(lines, i, j, k)
    decreases e
  {
    if Offset(lines, i, e) <= k {
      j := e;
    } else {
      j := LineOf(lines, i, e - 1, k);
    }
  }

  /** The line the item ends on holds the first character at which the scan of the
      text stops, counted from behind the indentation of the attribute. */
  lemma {:induction false} EndHoldsFirst(m: string, lines: seq<string>, i: nat, e: nat, d: nat) returns (k: nat)
    requires Spells(m, lines, i) && IsItemEnd(lines, i, e) && d <= |m| && NoMarks(m, d)
    ensures FirstClosing(m[d..], k) && InLine(lines, i, e, d + k)
  {
    var some := EndStops(m, lines, i, e);
    ClosingBehind(m, d, some);
    ClosingBehind(m, d, some - d);
    k := FirstOfThem(m[d..], some - d);
    ClosingBehind(m, d, k);
    var j := LineOf(lines, i, e, d + k);
  }

  /** And a line that holds it is the line the item ends on. */
  lemma {:induction false} FirstIsEnd(m: string, lines: seq<string>, i: nat, e: nat, d: nat, k: nat)
    requires Spells(m, lines, i) && d <= |m| && NoMarks(m, d)
    requires FirstClosing(m[d..], k) && InLine(lines, i, e, d + k)
    ensures IsItemEnd(lines, i, e)
  {
    ClosingBehind(m, d, k);
    if !LineCloses(lines, i, e) {
      NotInLine(m, lines, i, e, d + k);
    }
    forall j | i <= j < e ensures !LineCloses(lines, i, j) {
      LineClosesMeans(m, lines, i, j);
      OffsetGrows(lines, i, j, e);
      forall x | Offset(lines, i, j) <= x < Offset(lines, i, j) + |lines[j]| ensures !Closing(m, x) {
        if x < d {
          ClosingBehind(m, d, x);
        } else {
          ClosingBehind(m, d, x - d);
        }
      }
    }
  }

  /** The line that holds a character of the text. */
  lemma {:induction false} LineHolding(s: string, i: nat, k: nat) returns (e: nat)
    requires i < |GitLines(s)| && StartOf(GitLines(s), i) + k < |s|
    ensures e < |GitLines(s)| && InLine(GitLines(s), i, e, k)
  {
    var last := |GitLines(s)| - 1;
    LastLineEnds(s, last);
    OffsetIsStart(GitLines(s), i, last);
    e := LineOf(GitLines(s), i, last, k);
  }
}
