/** Inline `#[cfg(test)]` regions (tools/check-enforcement-pairing.py): a brace
    count over the masked lines. */
module Regions {
  import opened Text
  import opened Masker

  // ------------------------------------------------------------------ lines --

  /** The characters Python's `str.splitlines` ends a line at. */
  predicate IsBreak(c: char) {
    var n := c as int;
    0xA <= n <= 0xD || 0x1C <= n <= 0x1E || n == 0x85 || n == 0x2028 || n == 0x2029
  }

  /** Python's notion of white space: `\s` and `str.strip`. */
  predicate IsSpace(c: char) { IsWhitespace(c) || 0x1C <= c as int <= 0x1F }

  function BreakAt(s: string, from: nat): (r: nat)
    requires from <= |s|
    ensures from <= r <= |s|
    ensures r < |s| ==> IsBreak(s[r])
    decreases |s| - from
  {
    if from == |s| || IsBreak(s[from]) then from else BreakAt(s, from + 1)
  }

  function SplitLines(s: string): seq<string>
    decreases |s|
  {
    if s == [] then []
    else
      var e := BreakAt(s, 0);
      if e == |s| then [s]
      else
        var next := if s[e] == '\r' && e + 1 < |s| && s[e + 1] == '\n' then e + 2 else e + 1;
        [s[..e]] + SplitLines(s[next..])
  }

  /** Where the line that starts at `from` ends and the next one starts. */
  lemma {:induction false} BreaksAgree(s: string, t: string, from: nat)
    requires |s| == |t| && from <= |s|
    requires forall k :: 0 <= k < |s| ==> (IsBreak(s[k]) <==> IsBreak(t[k]))
    ensures BreakAt(s, from) == BreakAt(t, from)
    decreases |s| - from
  {
    if from < |s| && !IsBreak(s[from]) {
      BreaksAgree(s, t, from + 1);
    }
  }

  function Lengths(lines: seq<string>): (r: seq<nat>)
    ensures |r| == |lines|
  {
    if lines == [] then [] else [|lines[0]|] + Lengths(lines[1..])
  }

  lemma LengthsCons(line: string, rest: seq<string>)
    ensures Lengths([line] + rest) == [|line|] + Lengths(rest)
  {
    assert ([line] + rest)[1..] == rest;
  }

  lemma {:induction false} NextLine(s: string)
    requires s != [] && BreakAt(s, 0) < |s| && s[BreakAt(s, 0)] == '\n'
    ensures SplitLines(s) == [s[..BreakAt(s, 0)]] + SplitLines(s[BreakAt(s, 0) + 1..])
  {
  }

  lemma {:induction false} LinesAgree(s: string, t: string)
    requires |s| == |t|
    requires forall k :: 0 <= k < |s| ==> (IsBreak(s[k]) <==> IsBreak(t[k]))
    requires forall k :: 0 <= k < |s| && IsBreak(s[k]) ==> s[k] == '\n' && t[k] == '\n'
    ensures Lengths(SplitLines(s)) == Lengths(SplitLines(t))
    decreases |s|
  {
    if s == [] {
    } else {
      BreaksAgree(s, t, 0);
      var e := BreakAt(s, 0);
      if e < |s| {
        var s', t' := s[e + 1..], t[e + 1..];
        forall k | 0 <= k < |s'|
          ensures IsBreak(s'[k]) <==> IsBreak(t'[k])
          ensures IsBreak(s'[k]) ==> s'[k] == '\n' && t'[k] == '\n'
        {
          assert s'[k] == s[e + 1 + k] && t'[k] == t[e + 1 + k];
        }
        LinesAgree(s', t');
        NextLine(s);
        NextLine(t);
        LengthsCons(s[..e], SplitLines(s'));
        LengthsCons(t[..e], SplitLines(t'));
      }
    }
  }

  /** In a source whose only line ends are newlines the masked lines stand
      opposite the raw ones, so the regions are never given up. */
  lemma {:induction false} MaskedLinesAlign(src: string)
    requires forall k :: 0 <= k < |src| && IsBreak(src[k]) ==> src[k] == '\n'
    ensures Lengths(SplitLines(src)) == Lengths(SplitLines(Masked(src)))
  {
    MaskLinesUp(src);
    var t := Masked(src);
    forall k | 0 <= k < |src|
      ensures IsBreak(src[k]) <==> IsBreak(t[k])
      ensures IsBreak(src[k]) ==> t[k] == '\n'
    {
      assert KeptOrBlank(src[k], t[k]);
    }
    LinesAgree(src, t);
  }

  /** The line opens with the literal attribute. */
  predicate IsAttribute(line: string) { "#[cfg(test)]" <= TrimStart(line, IsSpace) }

  // -------------------------------------------------------- where an item ends --

  /** Openers minus closers. */
  ghost function Net(s: string): int {
    (multiset(s)['{'] as int) - (multiset(s)['}'] as int)
  }

  /** With `before` already seen, `c` closes the item: the brace that brings an
      opened block back to balance, or the semicolon of an item without one. */
  ghost predicate Closes(before: string, c: char) {
    || (c == '}' && '{' in before && Net(before) <= 1)
    || (c == ';' && '{' !in before && Net(before) == 0)
  }

  /** Some character of `line` closes the item. */
  ghost predicate ClosesIn(before: string, line: string)
    decreases |line|
  {
    line != [] && (Closes(before, line[0]) || ClosesIn(before + [line[0]], line[1..]))
  }

  /** Position `p` of `line` closes the item that `before` began. */
  ghost predicate ClosesAt(before: string, line: string, p: nat) {
    p < |line| && Closes(before + line[..p], line[p])
  }

  lemma ClosesAtTail(before: string, line: string, p: nat)
    requires 0 < p < |line|
    ensures ClosesAt(before + [line[0]], line[1..], p - 1) <==> ClosesAt(before, line, p)
  {
    assert line[..p] == [line[0]] + line[1..][..p - 1];
    assert (before + [line[0]]) + line[1..][..p - 1] == before + line[..p];
  }

  lemma {:induction false} ClosesInMeans(before: string, line: string)
    ensures ClosesIn(before, line) <==> exists p :: 0 <= p < |line| && ClosesAt(before, line, p)
    decreases |line|
  {
    if line == [] {
    } else {
      var next, rest := before + [line[0]], line[1..];
      ClosesInMeans(next, rest);
      assert before + line[..0] == before;
      assert ClosesAt(before, line, 0) <==> Closes(before, line[0]);
      if p :| 0 <= p < |rest| && ClosesAt(next, rest, p) {
        ClosesAtTail(before, line, p + 1);
      }
      if p :| 0 <= p < |line| && ClosesAt(before, line, p) {
        if p > 0 {
          ClosesAtTail(before, line, p);
        }
      }
    }
  }

  /** Lines `i` to `j`, the latter excluded, run together. */
  ghost function Joined(lines: seq<string>, i: nat, j: nat): string
    requires i <= j <= |lines|
  {
    if i == j then [] else Joined(lines, i, j - 1) + lines[j - 1]
  }

  ghost predicate LineCloses(lines: seq<string>, i: nat, j: nat) {
    i <= j < |lines| && ClosesIn(Joined(lines, i, j), lines[j])
  }

  /** `end` is the line of the first closing point of the item at line `i`. */
  ghost predicate IsItemEnd(lines: seq<string>, i: nat, end: nat) {
    LineCloses(lines, i, end) && forall j :: i <= j < end ==> !LineCloses(lines, i, j)
  }

  ghost predicate IsUnterminated(lines: seq<string>, i: nat) {
    forall j :: i <= j < |lines| ==> !LineCloses(lines, i, j)
  }

  ghost function ItemEnd(lines: seq<string>, i: nat, from: nat): (end: Option<nat>)
    requires i <= from <= |lines|
    ensures end.Some? ==> from <= end.value < |lines|
    decreases |lines| - from
  {
    if from == |lines| then None
    else if LineCloses(lines, i, from) then Some(from)
    else ItemEnd(lines, i, from + 1)
  }

  lemma {:induction false} ItemEndIsFirst(lines: seq<string>, i: nat, from: nat)
    requires i <= from <= |lines|
    ensures var end := ItemEnd(lines, i, from);
            && (forall j :: from <= j < (if end.Some? then end.value else |lines|) ==> !LineCloses(lines, i, j))
            && (end.Some? ==> LineCloses(lines, i, end.value))
    decreases |lines| - from
  {
    if from < |lines| && !LineCloses(lines, i, from) {
      ItemEndIsFirst(lines, i, from + 1);
    }
  }

  ghost predicate Summary(text: string, depth: int, seen: bool) {
    depth == Net(text) && (seen <==> '{' in text)
  }

  /** What one more character does to the summary, and whether it closes. */
  lemma Advance(text: string, depth: int, seen: bool, c: char)
    requires Summary(text, depth, seen)
    ensures Summary(text + [c], depth + (if c == '{' then 1 else if c == '}' then -1 else 0), seen || c == '{')
    ensures Closes(text, c) <==> (c == '}' && seen && depth - 1 <= 0) || (c == ';' && depth == 0 && !seen)
  {
  }

  /** The character loop over one line: `depth` and `seen` summarise what came before. */
  method ScanLine(ghost before: string, line: string, depth: int, seen: bool)
    returns (closed: bool, depth': int, seen': bool)
    requires Summary(before, depth, seen)
    ensures closed <==> ClosesIn(before, line)
    ensures !closed ==> Summary(before + line, depth', seen')
  {
    depth', seen' := depth, seen;
    ghost var text, rest := before, line;
    for p := 0 to |line|
      invariant rest == line[p..] && text + rest == before + line
      invariant Summary(text, depth', seen')
      invariant ClosesIn(text, rest) <==> ClosesIn(before, line)
    {
      var ch := line[p];
      Advance(text, depth', seen', ch);
      if ch == '{' {
        depth' := depth' + 1;
        seen' := true;
      } else if ch == '}' {
        depth' := depth' - 1;
        if seen' && depth' <= 0 {
          return true, depth', seen';
        }
      } else if ch == ';' && depth' == 0 && !seen' {
        return true, depth', seen';
      }
      MoveChar(text, rest);
      text, rest := text + [ch], rest[1..];
    }
    assert text + [] == text;
    closed := false;
  }

  lemma MoveChar(a: string, b: string)
    requires b != []
    ensures (a + [b[0]]) + b[1..] == a + b
  {
  }

  /** The walk over the attributed item. */
  method FindItemEnd(lines: seq<string>, i: nat) returns (end: Option<nat>)
    requires i < |lines|
    ensures end == ItemEnd(lines, i, i)
  {
    var depth, seen, j := 0, false, i;
    while j < |lines|
      invariant i <= j <= |lines|
      invariant Summary(Joined(lines, i, j), depth, seen)
      invariant ItemEnd(lines, i, j) == ItemEnd(lines, i, i)
    {
      var closed;
      closed, depth, seen := ScanLine(Joined(lines, i, j), lines[j], depth, seen);
      if closed {
        return Some(j);
      }
      j := j + 1;
    }
    end := None;
  }

  // ----------------------------------------------------------------- ranges --

  /** A 1-based inclusive line span. */
  datatype Range = Range(lo: nat, hi: nat)

  ghost function RangesFrom(raw: seq<string>, masked: seq<string>, i: nat): seq<Range>
    requires i <= |raw| == |masked|
    decreases |raw| - i, 1
  {
    if i == |raw| then []
    else if IsAttribute(raw[i]) then RangesAfter(raw, masked, i, ItemEnd(masked, i, i))
    else RangesFrom(raw, masked, i + 1)
  }

  /** The ranges from an attribute line on, when its item ends at `end`. */
  ghost function RangesAfter(raw: seq<string>, masked: seq<string>, i: nat, end: Option<nat>): seq<Range>
    requires i < |raw| == |masked| && (end.Some? ==> i <= end.value < |raw|)
    decreases |raw| - i, 0
  {
    match end
    case None => RangesFrom(raw, masked, i + 1)
    case Some(e) => [Range(i + 1, e + 1)] + RangesFrom(raw, masked, e + 1)
  }

  /** `cfg_test_ranges` on a file image, when there is one. */
  ghost function TestRanges(src: Option<string>): seq<Range> {
    if src.None? || src.value == [] then []
    else
      var raw, masked := SplitLines(src.value), SplitLines(Masked(src.value));
      if |raw| != |masked| then [] else RangesFrom(raw, masked, 0)
  }

  method CfgTestRanges(src: Option<string>) returns (ranges: seq<Range>)
    ensures ranges == TestRanges(src)
  {
    if src.None? || src.value == [] {
      return [];
    }
    var raw := SplitLines(src.value);
    var copy := Mask(src.value);
    var masked := SplitLines(copy);
    if |masked| != |raw| {
      return [];
    }
    ranges := CollectRanges(raw, masked);
  }

  lemma AppendRange(a: seq<Range>, r: Range, b: seq<Range>)
    ensures a + ([r] + b) == (a + [r]) + b
  {
  }

  /** The line loop. */
  method CollectRanges(raw: seq<string>, masked: seq<string>) returns (ranges: seq<Range>)
    requires |raw| == |masked|
    ensures ranges == RangesFrom(raw, masked, 0)
  {
    ranges := [];
    var i := 0;
    while i < |raw|
      invariant 0 <= i <= |raw|
      invariant ranges + RangesFrom(raw, masked, i) == RangesFrom(raw, masked, 0)
    {
      if !IsAttribute(raw[i]) {
        i := i + 1;
        continue;
      }
      var end := FindItemEnd(masked, i);
      if end.None? {
        i := i + 1;
        continue;
      }
      AppendRange(ranges, Range(i + 1, end.value + 1), RangesFrom(raw, masked, end.value + 1));
      ranges := ranges + [Range(i + 1, end.value + 1)];
      i := end.value + 1;
    }
  }

  predicate InRanges(ranges: seq<Range>, line: int) {
    exists k :: 0 <= k < |ranges| && ranges[k].lo <= line <= ranges[k].hi
  }

  /** `r` starts at an attribute line and stops at the first line that closes
      its item. */
  ghost predicate IsItemRange(raw: seq<string>, masked: seq<string>, r: Range) {
    && 1 <= r.lo <= r.hi <= |raw|
    && IsAttribute(raw[r.lo - 1])
    && IsItemEnd(masked, r.lo - 1, r.hi - 1)
  }

  /** Every range is a whole item of the file. */
  ghost predicate AllItems(raw: seq<string>, masked: seq<string>, rs: seq<Range>) {
    forall k :: 0 <= k < |rs| ==> IsItemRange(raw, masked, rs[k])
  }

  /** Sorted and disjoint, every range after line `i`. */
  predicate InOrder(rs: seq<Range>, i: nat := 0) {
    && (forall k :: 0 <= k < |rs| ==> i < rs[k].lo <= rs[k].hi)
    && (forall k, m :: 0 <= k < m < |rs| ==> rs[k].hi < rs[m].lo)
  }

  lemma ConsInOrder(first: Range, rest: seq<Range>, i: nat)
    requires i < first.lo <= first.hi && InOrder(rest, first.hi)
    ensures InOrder([first] + rest, i)
  {
  }

  lemma ConsAll(first: Range, rest: seq<Range>, ok: Range -> bool)
    requires ok(first) && forall k :: 0 <= k < |rest| ==> ok(rest[k])
    ensures forall k :: 0 <= k < |[first] + rest| ==> ok(([first] + rest)[k])
  {
  }

  lemma {:induction false} ItemEndRange(raw: seq<string>, masked: seq<string>, i: nat)
    requires i < |raw| == |masked| && IsAttribute(raw[i]) && ItemEnd(masked, i, i).Some?
    ensures IsItemRange(raw, masked, Range(i + 1, ItemEnd(masked, i, i).value + 1))
  {
    ItemEndIsFirst(masked, i, i);
  }

  lemma {:induction false} RangesInOrder(raw: seq<string>, masked: seq<string>, i: nat)
    requires i <= |raw| == |masked|
    ensures InOrder(RangesFrom(raw, masked, i), i)
    decreases |raw| - i
  {
    if i == |raw| {
    } else {
      var end := ItemEnd(masked, i, i);
      if IsAttribute(raw[i]) && end.Some? {
        RangesInOrder(raw, masked, end.value + 1);
        ConsInOrder(Range(i + 1, end.value + 1), RangesFrom(raw, masked, end.value + 1), i);
      } else {
        RangesInOrder(raw, masked, i + 1);
      }
    }
  }

  /** What holds of every whole item holds of every range. */
  lemma {:induction false} RangesAll(raw: seq<string>, masked: seq<string>, i: nat, ok: Range -> bool)
    requires i <= |raw| == |masked|
    requires forall k :: 0 <= k < |raw| && IsAttribute(raw[k]) && ItemEnd(masked, k, k).Some? ==>
               ok(Range(k + 1, ItemEnd(masked, k, k).value + 1))
    ensures forall k :: 0 <= k < |RangesFrom(raw, masked, i)| ==> ok(RangesFrom(raw, masked, i)[k])
    decreases |raw| - i
  {
    if i == |raw| {
    } else {
      var end := ItemEnd(masked, i, i);
      if IsAttribute(raw[i]) && end.Some? {
        var first, rest := Range(i + 1, end.value + 1), RangesFrom(raw, masked, end.value + 1);
        RangesAll(raw, masked, end.value + 1, ok);
        ConsAll(first, rest, ok);
        assert RangesFrom(raw, masked, i) == [first] + rest;
      } else {
        assert RangesFrom(raw, masked, i) == RangesFrom(raw, masked, i + 1);
        RangesAll(raw, masked, i + 1, ok);
      }
    }
  }

  lemma {:induction false} RangesWhole(raw: seq<string>, masked: seq<string>)
    requires |raw| == |masked|
    ensures AllItems(raw, masked, RangesFrom(raw, masked, 0))
  {
    var ok := r => IsItemRange(raw, masked, r);
    forall k | 0 <= k < |raw| && IsAttribute(raw[k]) && ItemEnd(masked, k, k).Some?
      ensures ok(Range(k + 1, ItemEnd(masked, k, k).value + 1))
    {
      ItemEndRange(raw, masked, k);
    }
    RangesAll(raw, masked, 0, ok);
    var rs := RangesFrom(raw, masked, 0);
    forall k | 0 <= k < |rs| ensures IsItemRange(raw, masked, rs[k]) {
      assert ok(rs[k]);
    }
  }

  /** What the ranges are: in the file, in order and apart, each one a whole item. */
  lemma {:induction false} RangesAreItems(raw: seq<string>, masked: seq<string>)
    requires |raw| == |masked|
    ensures AllItems(raw, masked, RangesFrom(raw, masked, 0)) && InOrder(RangesFrom(raw, masked, 0))
  {
    RangesWhole(raw, masked);
    RangesInOrder(raw, masked, 0);
  }

  lemma {:induction false} MissedHasNoEnd(raw: seq<string>, masked: seq<string>, i: nat, line: nat)
    requires i <= line < |raw| == |masked| && IsAttribute(raw[line])
    ensures InRanges(RangesFrom(raw, masked, i), line + 1) || ItemEnd(masked, line, line).None?
    decreases |raw| - i
  {
    var end := ItemEnd(masked, i, i);
    if IsAttribute(raw[i]) && end.Some? {
      var first, rest := Range(i + 1, end.value + 1), RangesFrom(raw, masked, end.value + 1);
      if line > end.value {
        MissedHasNoEnd(raw, masked, end.value + 1, line);
      }
      InRangesCons(first, rest, line + 1);
    } else if line > i {
      MissedHasNoEnd(raw, masked, i + 1, line);
    }
  }

  /** No terminated item is missed: an attribute line outside every range opens
      an item that never closes, and such an item contributes no range. */
  lemma {:induction false} RangesAreComplete(raw: seq<string>, masked: seq<string>, line: nat)
    requires line < |raw| == |masked| && IsAttribute(raw[line])
    ensures InRanges(RangesFrom(raw, masked, 0), line + 1) || IsUnterminated(masked, line)
  {
    MissedHasNoEnd(raw, masked, 0, line);
    ItemEndIsFirst(masked, line, line);
  }

  lemma {:induction false} InRangesCons(first: Range, rest: seq<Range>, line: int)
    ensures InRanges([first] + rest, line) <==> first.lo <= line <= first.hi || InRanges(rest, line)
  {
    var all := [first] + rest;
    assert all[0] == first;
    if k :| 0 <= k < |rest| && rest[k].lo <= line <= rest[k].hi {
      assert all[k + 1] == rest[k];
    }
    if k :| 0 <= k < |all| && all[k].lo <= line <= all[k].hi {
      assert k > 0 ==> all[k] == rest[k - 1];
    }
  }
}
