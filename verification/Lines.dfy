/** The lines that `git` counts beside the lines that Python's `splitlines` makes. */
module Lines {
  import opened Text
  import opened Regions

  /** The lines `git` counts: each ends at a newline, the last one may go without. */
  function GitLines(s: string): seq<string>
    decreases |s|
  {
    if s == [] then []
    else
      var e := FindChar(s, '\n');
      if e == |s| then [s] else [s[..e]] + GitLines(s[e + 1..])
  }

  /** Lines written out, a newline after each. */
  function Terminated(lines: seq<string>): string {
    if lines == [] then [] else lines[0] + "\n" + Terminated(lines[1..])
  }

  /** The only line ends of `s` are newlines. */
  predicate NewlinesOnly(s: string) {
    forall k :: 0 <= k < |s| && IsBreak(s[k]) ==> s[k] == '\n'
  }

  predicate Unbroken(s: string) {
    forall k :: 0 <= k < |s| ==> !IsBreak(s[k])
  }

  predicate AllUnbroken(lines: seq<string>) {
    forall i :: 0 <= i < |lines| ==> Unbroken(lines[i])
  }

  predicate NoNewline(lines: seq<string>) {
    forall i :: 0 <= i < |lines| ==> '\n' !in lines[i]
  }

  lemma {:induction false} BreakAtFirst(s: string, from: nat)
    requires from <= |s|
    ensures forall k :: from <= k < BreakAt(s, from) ==> !IsBreak(s[k])
    decreases |s| - from
  {
    if from == |s| || IsBreak(s[from]) {
    } else {
      BreakAtFirst(s, from + 1);
    }
  }

  lemma {:induction false} BreakAtIs(s: string, from: nat, e: nat)
    requires from <= e <= |s| && (forall k :: from <= k < e ==> !IsBreak(s[k])) && (e < |s| ==> IsBreak(s[e]))
    ensures BreakAt(s, from) == e
    decreases e - from
  {
    if from == e {
    } else {
      BreakAtIs(s, from + 1, e);
    }
  }

  lemma {:induction false} NewlineAtFirst(s: string, from: nat)
    requires from <= |s|
    ensures forall k :: from <= k < FindChar(s, '\n', from) ==> s[k] != '\n'
    decreases |s| - from
  {
    if from == |s| || s[from] == '\n' {
    } else {
      NewlineAtFirst(s, from + 1);
    }
  }

  /** No line of `splitlines` holds a line end. */
  lemma {:induction false} SplitIsUnbroken(s: string)
    ensures AllUnbroken(SplitLines(s))
    decreases |s|
  {
    if s == [] {
    } else {
      var e := BreakAt(s, 0);
      BreakAtFirst(s, 0);
      assert Unbroken(s[..e]);
      if e < |s| {
        SplitIsUnbroken(s[After(s, e)..]);
        ConsUnbroken(s[..e], SplitLines(s[After(s, e)..]));
      } else {
        assert s[..e] == s;
      }
    }
  }

  lemma ConsUnbroken(line: string, rest: seq<string>)
    ensures AllUnbroken([line] + rest) <==> Unbroken(line) && AllUnbroken(rest)
  {
    var all := [line] + rest;
    assert all[0] == line;
    assert forall i :: 0 <= i < |rest| ==> all[i + 1] == rest[i];
    assert forall i :: 1 <= i < |all| ==> all[i] == rest[i - 1];
  }

  /** Where the line behind the break at `e` starts. */
  function After(s: string, e: nat): nat
    requires e < |s|
  {
    if s[e] == '\r' && e + 1 < |s| && s[e + 1] == '\n' then e + 2 else e + 1
  }

  /** A line end that is no newline stands inside one of the lines that `git` counts. */
  lemma {:induction false} GitKeepsBreaks(s: string)
    ensures AllUnbroken(GitLines(s)) ==> NewlinesOnly(s)
    decreases |s|
  {
    if s == [] {
    } else {
      var e := FindChar(s, '\n');
      if e < |s| {
        var rest := s[e + 1..];
        GitKeepsBreaks(rest);
        ConsUnbroken(s[..e], GitLines(rest));
        assert forall k :: 0 <= k < |s[..e]| ==> s[..e][k] == s[k];
        if AllUnbroken(GitLines(s)) {
          forall k | 0 <= k < |s| && IsBreak(s[k]) ensures s[k] == '\n' {
            if k > e {
              assert rest[k - (e + 1)] == s[k];
            }
          }
        }
      } else if AllUnbroken(GitLines(s)) {
        assert GitLines(s)[0] == s;
      }
    }
  }

  lemma {:induction false} SameWhenClean(s: string)
    requires NewlinesOnly(s)
    ensures SplitLines(s) == GitLines(s)
    decreases |s|
  {
    if s == [] {
    } else {
      var e := BreakAt(s, 0);
      FirstBreak(s, e);
      if e < |s| {
        TailClean(s, e + 1);
        SameWhenClean(s[e + 1..]);
        NextLine(s);
        NextGitLine(s);
      }
    }
  }

  lemma {:induction false} FirstBreak(s: string, e: nat)
    requires NewlinesOnly(s) && e == BreakAt(s, 0)
    ensures FindChar(s, '\n') == e
  {
    BreakAtFirst(s, 0);
    FindCharIs(s, '\n', 0, e);
  }

  lemma TailClean(s: string, k: nat)
    requires NewlinesOnly(s) && k <= |s|
    ensures NewlinesOnly(s[k..])
  {
    assert forall i :: 0 <= i < |s[k..]| ==> s[k..][i] == s[k + i];
  }

  lemma {:induction false} NextGitLine(s: string)
    requires FindChar(s, '\n') < |s|
    ensures GitLines(s) == [s[..FindChar(s, '\n')]] + GitLines(s[FindChar(s, '\n') + 1..])
  {
  }

  /** `splitlines` makes the lines that `git` counts if and only if every line end
      of the text is a newline. */
  lemma {:induction false} SameLinesExactly(s: string)
    ensures SplitLines(s) == GitLines(s) <==> NewlinesOnly(s)
  {
    SplitIsUnbroken(s);
    GitKeepsBreaks(s);
    if NewlinesOnly(s) {
      SameWhenClean(s);
    }
  }

  lemma {:induction false} GitLineThen(a: string, b: string)
    requires '\n' !in a
    ensures GitLines(a + "\n" + b) == [a] + GitLines(b)
  {
    var s := a + "\n" + b;
    FindCharIs(s, '\n', 0, |a|);
    assert s[..|a|] == a && s[|a| + 1..] == b;
  }

  /** Lines written out are the lines that `git` counts. */
  lemma {:induction false} GitReadsTerminated(lines: seq<string>)
    requires NoNewline(lines)
    ensures GitLines(Terminated(lines)) == lines
  {
    if lines == [] {
    } else {
      assert '\n' !in lines[0];
      GitReadsTerminated(lines[1..]);
      GitLineThen(lines[0], Terminated(lines[1..]));
    }
  }

  /** Lines written out with newlines are split into those lines again if and only
      if none of them holds another line end. */
  lemma {:induction false} TerminatedSplitsExactly(lines: seq<string>)
    requires NoNewline(lines)
    ensures SplitLines(Terminated(lines)) == lines <==> AllUnbroken(lines)
  {
    var s := Terminated(lines);
    GitReadsTerminated(lines);
    SameLinesExactly(s);
    GitKeepsBreaks(s);
    SplitIsUnbroken(s);
  }

  // ------------------------------------------------------------------ counts --

  lemma {:induction false} BreakBefore(a: string, b: string)
    ensures BreakAt(a + "\n" + b, 0) == BreakAt(a + "\n", 0) <= |a|
  {
    var s, t := a + "\n" + b, a + "\n";
    var e := BreakAt(t, 0);
    BreakAtFirst(t, 0);
    assert t[|a|] == '\n';
    assert forall k :: 0 <= k < |t| ==> s[k] == t[k];
    BreakAtIs(s, 0, e);
  }

  lemma {:induction false} SplitFirst(s: string)
    requires BreakAt(s, 0) < |s|
    ensures SplitLines(s) == [s[..BreakAt(s, 0)]] + SplitLines(s[After(s, BreakAt(s, 0))..])
  {
  }

  lemma AfterNewline(a: string, b: string, e: nat)
    requires e <= |a|
    ensures After(a + "\n" + b, e) == After(a + "\n", e) <= |a| + 1
    ensures (a + "\n" + b)[..e] == (a + "\n")[..e]
    ensures var n := After(a + "\n", e);
            if n <= |a| then (a + "\n")[n..] == a[n..] + "\n" && (a + "\n" + b)[n..] == a[n..] + "\n" + b
            else (a + "\n")[n..] == [] && (a + "\n" + b)[n..] == b
  {
    var s, t := a + "\n" + b, a + "\n";
    assert forall k :: 0 <= k < |t| ==> s[k] == t[k];
    assert e < |a| && a[e] == '\r' && e + 1 == |a| ==> t[e + 1] == '\n';
  }

  lemma ConsAppend<T>(x: T, a: seq<T>, b: seq<T>)
    ensures ([x] + a) + b == [x] + (a + b)
  {
  }

  /** A newline always ends a line, so the text behind it splits on its own. */
  lemma {:induction false} SplitAtNewline(a: string, b: string)
    ensures SplitLines(a + "\n" + b) == SplitLines(a + "\n") + SplitLines(b)
    decreases |a|
  {
    var s, t := a + "\n" + b, a + "\n";
    var e := BreakAt(t, 0);
    BreakBefore(a, b);
    AfterNewline(a, b, e);
    SplitFirst(s);
    SplitFirst(t);
    var n := After(t, e);
    if n <= |a| {
      SplitAtNewline(a[n..], b);
      ConsAppend(t[..e], SplitLines(a[n..] + "\n"), SplitLines(b));
    } else {
      assert SplitLines([]) == [];
      ConsAppend(t[..e], [], SplitLines(b));
    }
  }

  /** A line end at `k` where `git` counts none, with something behind it. */
  predicate IsStray(s: string, k: nat) {
    && k + 1 < |s| && IsBreak(s[k]) && s[k] != '\n' && !(s[k] == '\r' && s[k + 1] == '\n')
  }

  predicate HasStray(s: string) { exists k :: 0 <= k < |s| && IsStray(s, k) }

  lemma {:induction false} OneLine(s: string)
    requires s != [] && forall k :: 0 <= k < |s| - 1 ==> s[k] != '\n'
    ensures |SplitLines(s)| >= 1
    ensures |SplitLines(s)| == 1 <==> !HasStray(s)
  {
    var e := BreakAt(s, 0);
    BreakAtFirst(s, 0);
    if e == |s| {
    } else {
      SplitFirst(s);
      var rest := s[After(s, e)..];
      assert rest != [] ==> SplitLines(rest) != [];
      assert rest != [] ==> IsStray(s, e);
      if k :| 0 <= k < |s| && IsStray(s, k) {
        assert k >= e;
      }
    }
  }

  lemma {:induction false} StrayParts(a: string, b: string)
    ensures HasStray(a + "\n" + b) <==> HasStray(a + "\n") || HasStray(b)
  {
    var s, t := a + "\n" + b, a + "\n";
    assert forall k :: 0 <= k < |t| ==> s[k] == t[k];
    assert forall k :: 0 <= k < |b| ==> s[k + |t|] == b[k];
    if k :| 0 <= k < |s| && IsStray(s, k) {
      assert k != |a|;
      if k < |a| {
        assert IsStray(t, k);
      } else {
        assert s[k] == b[k - |t|] && s[k + 1] == b[k + 1 - |t|];
        assert IsStray(b, k - |t|);
      }
    }
    if k :| 0 <= k < |t| && IsStray(t, k) {
      assert IsStray(s, k);
    }
    if k :| 0 <= k < |b| && IsStray(b, k) {
      assert s[k + 1 + |t|] == b[k + 1];
      assert IsStray(s, k + |t|);
    }
  }

  /** `splitlines` never makes fewer lines than `git` counts, and it makes as many
      if and only if no other line end stands before the end of the text. */
  lemma {:induction false} SameCountExactly(s: string)
    ensures |SplitLines(s)| >= |GitLines(s)|
    ensures |SplitLines(s)| == |GitLines(s)| <==> !HasStray(s)
    decreases |s|
  {
    if s == [] {
    } else {
      var e := FindChar(s, '\n');
      NewlineAtFirst(s, 0);
      if e == |s| {
        OneLine(s);
      } else {
        var a, b := s[..e], s[e + 1..];
        assert s == a + "\n" + b;
        SameCountExactly(b);
        SplitAtNewline(a, b);
        StrayParts(a, b);
        OneLine(a + "\n");
      }
    }
  }

  // --------------------------------------------------------------- positions --

  /** Where line `i` starts in a text whose lines end at one character each. */
  function StartOf(lines: seq<string>, i: nat): nat
    requires i <= |lines|
  {
    if i == 0 then 0 else StartOf(lines, i - 1) + |lines[i - 1]| + 1
  }

  lemma {:induction false} StartShifts(first: string, rest: seq<string>, i: nat)
    requires i <= |rest|
    ensures StartOf([first] + rest, i + 1) == |first| + 1 + StartOf(rest, i)
  {
    if i == 0 {
      assert StartOf([first] + rest, 0) == 0;
    } else {
      StartShifts(first, rest, i - 1);
    }
  }

  lemma {:induction false} StandsInTail(s: string, first: string, rest: seq<string>, i: nat)
    requires i < |rest| && |first| < |s| && StandsAt(s[|first| + 1..], rest[i], StartOf(rest, i))
    ensures StandsAt(s, rest[i], StartOf([first] + rest, i + 1))
  {
    var k, line, at := |first| + 1, rest[i], StartOf(rest, i);
    StartShifts(first, rest, i);
    forall m | 0 <= m < |line| ensures s[k + at + m] == line[m] {
      assert s[k..][at + m] == line[m];
    }
  }

  /** Every line `git` counts stands in the text where it starts. */
  lemma {:induction false} LineStands(s: string, i: nat)
    requires i < |GitLines(s)|
    ensures StandsAt(s, GitLines(s)[i], StartOf(GitLines(s), i))
    decreases |s|
  {
    var e := FindChar(s, '\n');
    if e == |s| {
    } else {
      NextGitLine(s);
      var rest := GitLines(s[e + 1..]);
      if i > 0 {
        LineStands(s[e + 1..], i - 1);
        StandsInTail(s, s[..e], rest, i - 1);
      }
    }
  }

  lemma NextWritten(first: string, b: string)
    ensures first + "\n" + (b + "\n") == (first + "\n" + b) + "\n"
  {
  }

  /** The lines written out are the text again, but for the newline the last may lack. */
  lemma {:induction false} LinesRejoin(s: string)
    ensures Terminated(GitLines(s)) == s || Terminated(GitLines(s)) == s + "\n"
    decreases |s|
  {
    if s == [] {
    } else {
      var e := FindChar(s, '\n');
      if e == |s| {
        assert Terminated([s]) == s + "\n" + [];
      } else {
        var rest := s[e + 1..];
        LinesRejoin(rest);
        TerminatedCons(s[..e], GitLines(rest));
        assert s == s[..e] + "\n" + rest;
        NextWritten(s[..e], rest);
      }
    }
  }

  lemma TerminatedCons(first: string, rest: seq<string>)
    ensures Terminated([first] + rest) == first + "\n" + Terminated(rest)
  {
    assert ([first] + rest)[1..] == rest;
  }

  lemma {:induction false} NewlineStands(lines: seq<string>, i: nat)
    requires i < |lines|
    ensures StandsAt(Terminated(lines), "\n", StartOf(lines, i) + |lines[i]|)
  {
    var first, rest := lines[0], lines[1..];
    assert lines == [first] + rest;
    TerminatedCons(first, rest);
    if i > 0 {
      NewlineStands(rest, i - 1);
      StartShifts(first, rest, i - 1);
      var at := StartOf(rest, i - 1) + |rest[i - 1]|;
      assert Terminated(rest)[at + 0] == "\n"[0];
      assert Terminated(lines)[|first| + 1 + at] == Terminated(rest)[at];
    }
  }

  lemma {:induction false} WrittenLength(lines: seq<string>)
    ensures |Terminated(lines)| == StartOf(lines, |lines|)
  {
    if lines == [] {
    } else {
      WrittenLength(lines[1..]);
      StartShifts(lines[0], lines[1..], |lines| - 1);
      assert lines == [lines[0]] + lines[1..];
    }
  }

  lemma {:induction false} EndsTheText(s: string, lines: seq<string>, last: nat)
    requires |lines| == last + 1 && (Terminated(lines) == s || Terminated(lines) == s + "\n")
    ensures var end := StartOf(lines, last) + |lines[last]|; |s| == end || (|s| == end + 1 && s[end] == '\n')
  {
    WrittenLength(lines);
    NewlineStands(lines, last);
    var end := StartOf(lines, last) + |lines[last]|;
    assert Terminated(lines)[end + 0] == "\n"[0];
  }

  /** The last line ends the text, with or without its newline. */
  lemma {:induction false} LastLineEnds(s: string, last: nat)
    requires |GitLines(s)| == last + 1
    ensures var end := StartOf(GitLines(s), last) + |GitLines(s)[last]|;
            |s| == end || (|s| == end + 1 && s[end] == '\n')
  {
    LinesRejoin(s);
    EndsTheText(s, GitLines(s), last);
  }

  /** Every line but the last is followed by its newline. */
  lemma {:induction false} LineEnds(s: string, i: nat)
    requires i + 1 < |GitLines(s)|
    ensures StandsAt(s, "\n", StartOf(GitLines(s), i) + |GitLines(s)[i]|)
  {
    EndsInside(s, GitLines(s), i) by {
      LinesRejoin(s);
    }
  }

  lemma {:induction false} EndsInside(s: string, lines: seq<string>, i: nat)
    requires Terminated(lines) == s || Terminated(lines) == s + "\n"
    requires i + 1 < |lines|
    ensures StandsAt(s, "\n", StartOf(lines, i) + |lines[i]|)
  {
    NewlineStands(lines, i);
    NewlineStands(lines, i + 1);
    StartGrows(lines, i, i + 1);
    var at := StartOf(lines, i) + |lines[i]|;
    assert Terminated(lines)[at + 0] == "\n"[0];
  }

  lemma {:induction false} StartGrows(lines: seq<string>, i: nat, j: nat)
    requires i < j <= |lines|
    ensures StartOf(lines, i) + |lines[i]| < StartOf(lines, j)
    decreases j
  {
    if i == j - 1 {
    } else {
      StartGrows(lines, i, j - 1);
    }
  }
}
