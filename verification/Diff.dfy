/** The lines of a unified diff (tools/check-enforcement-pairing.py): watched
    paths, ignorable lines, and the two kinds of header. */
module Diff {
  import opened Text
  import opened Regions

  // ---------------------------------------------------------- path and line --

  predicate IsWatched(path: string) {
    "crates/trust/" <= path || "crates/policy/" <= path || "crates/egress/" <= path
  }

  predicate IsTestPath(path: string) {
    var parts := SplitOn(path, '/');
    "tests" in parts || "benches" in parts || Last(parts) == "tests.rs"
  }

  /** `version\s*=\s*"[^"]*"`, the whole line. */
  predicate IsVersionLine(s: string) {
    && "version" <= s
    && var eq := TrimStart(s[7..], IsSpace);
       && "=" <= eq
       && var q := TrimStart(eq[1..], IsSpace);
          |q| >= 2 && q[0] == '"' && FindChar(q, '"', 1) == |q| - 1
  }

  /** A changed line that cannot alter behaviour. */
  predicate IsIgnorable(line: string, path: string) {
    var s := TrimEnd(TrimStart(line, IsSpace), IsSpace);
    || s == []
    || (EndsWith(path, ".toml") && "#" <= s)
    || IsVersionLine(s)
    || "//" <= s || "/*" <= s || "*" <= s
  }

  function DigitRun(s: string): (n: nat)
    ensures n <= |s|
  {
    if s != [] && IsAsciiDigit(s[0]) then 1 + DigitRun(s[1..]) else 0
  }

  function Numeral(s: string): nat
    requires forall i :: 0 <= i < |s| ==> IsAsciiDigit(s[i])
  {
    if s == [] then 0
    else
      assert IsAsciiDigit(s[|s| - 1]);
      10 * Numeral(s[..|s| - 1]) + (s[|s| - 1] as int - '0' as int)
  }

  lemma {:induction false} DigitRunDigits(s: string)
    ensures forall i :: 0 <= i < DigitRun(s) ==> IsAsciiDigit(s[i])
  {
    if s != [] && IsAsciiDigit(s[0]) {
      DigitRunDigits(s[1..]);
      assert forall i :: 1 <= i < DigitRun(s) ==> s[i] == s[1..][i - 1];
    }
  }

  /** `(\d+)(?:,\d+)?` at the start: the number, and what follows it. */
  function Span(s: string): Option<(nat, string)> {
    var n := DigitRun(s);
    if n == 0 then None
    else
      DigitRunDigits(s);
      var rest := s[n..];
      var m := if "," <= rest then DigitRun(rest[1..]) else 0;
      Some((Numeral(s[..n]), if m > 0 then rest[1 + m..] else rest))
  }

  /** `@@ -a[,b] +c[,d] @@`: the first line numbers of the two sides. */
  function ParseHunk(line: string): Option<(nat, nat)> {
    if !("@@ -" <= line) then None
    else
      var first := Span(line[4..]);
      if first.None? || !(" +" <= first.value.1) then None
      else
        var second := Span(first.value.1[2..]);
        if second.None? || !(" @@" <= second.value.1) then None
        else Some((first.value.0, second.value.0))
  }

  /** The last place `needle` occurs at or before `from`. */
  function FindLast(s: string, needle: string, from: nat): Option<nat> {
    if OccursAt(s, needle, from) then Some(from)
    else if from == 0 then None
    else FindLast(s, needle, from - 1)
  }

  /** `diff --git a/(.*) b/(.*)$`: the two paths, the first as long as it can be. */
  function ParseHeader(line: string): Option<(string, string)> {
    if !("diff --git a/" <= line) then None
    else
      var rest := line[13..];
      var at := FindLast(rest, " b/", |rest|);
      if at.None? || at.value + 3 > |rest| then None
      else Some((rest[..at.value], rest[at.value + 3..]))
  }

  // ------------------------------------------------------------ hunk headers --

  function Digit(d: nat): (c: char)
    requires d < 10
    ensures IsAsciiDigit(c) && c as int - '0' as int == d
  {
    '0' + d as char
  }

  function Decimal(n: nat): (s: string)
    ensures s != [] && forall i :: 0 <= i < |s| ==> IsAsciiDigit(s[i])
  {
    if n < 10 then [Digit(n)] else Decimal(n / 10) + [Digit(n % 10)]
  }

  /** One side of a hunk header as `git` writes it: the length may be left out. */
  function SpanText(start: nat, length: Option<nat>): string {
    if length.Some? then Decimal(start) + ("," + Decimal(length.value)) else Decimal(start)
  }

  lemma {:induction false} NumeralOfDecimal(n: nat)
    ensures Numeral(Decimal(n)) == n
  {
    var s := Decimal(n);
    if n < 10 {
      assert s[..0] == [] && Numeral(s[..0]) == 0;
    } else {
      NumeralOfDecimal(n / 10);
      assert s[..|s| - 1] == Decimal(n / 10) && s[|s| - 1] == Digit(n % 10);
    }
  }

  lemma {:induction false} DigitRunIs(digits: string, rest: string)
    requires forall i :: 0 <= i < |digits| ==> IsAsciiDigit(digits[i])
    requires rest != [] ==> !IsAsciiDigit(rest[0])
    ensures DigitRun(digits + rest) == |digits|
  {
    if digits == [] {
      assert digits + rest == rest;
    } else {
      assert (digits + rest)[1..] == digits[1..] + rest;
      DigitRunIs(digits[1..], rest);
    }
  }

  lemma CutAt(a: string, b: string)
    ensures (a + b)[..|a|] == a && (a + b)[|a|..] == b
  {
  }

  lemma {:induction false} ShortSpanReads(start: nat, rest: string)
    requires rest != [] && rest[0] == ' '
    ensures Span(Decimal(start) + rest) == Some((start, rest))
  {
    var d := Decimal(start);
    NumeralOfDecimal(start);
    DigitRunIs(d, rest);
    CutAt(d, rest);
  }

  lemma {:induction false} LengthSkipped(digits: string, rest: string)
    requires digits != [] && forall i :: 0 <= i < |digits| ==> IsAsciiDigit(digits[i])
    requires rest != [] && rest[0] == ' '
    ensures var after := "," + (digits + rest);
            && "," <= after && DigitRun(after[1..]) == |digits| && after[1 + |digits|..] == rest && after[0] == ','
  {
    var after := "," + (digits + rest);
    DigitRunIs(digits, rest);
    CutAt(digits, rest);
    CutAt(",", digits + rest);
    assert after[1 + |digits|..] == after[1..][|digits|..];
  }

  lemma {:induction false} LongSpanReads(start: nat, length: nat, rest: string)
    requires rest != [] && rest[0] == ' '
    ensures Span(Decimal(start) + ("," + (Decimal(length) + rest))) == Some((start, rest))
  {
    var d, after := Decimal(start), "," + (Decimal(length) + rest);
    NumeralOfDecimal(start);
    LengthSkipped(Decimal(length), rest);
    DigitRunIs(d, after);
    CutAt(d, after);
  }

  lemma AppendThree(a: string, b: string, c: string, d: string)
    ensures a + (b + c) + d == a + (b + (c + d))
  {
  }

  lemma {:induction false} SpanReads(start: nat, length: Option<nat>, rest: string)
    requires rest != [] && rest[0] == ' '
    ensures Span(SpanText(start, length) + rest) == Some((start, rest))
  {
    if length.None? {
      ShortSpanReads(start, rest);
    } else {
      AppendThree(Decimal(start), ",", Decimal(length.value), rest);
      LongSpanReads(start, length.value, rest);
    }
  }

  /** The text of a hunk header, whatever follows it on the line. */
  function HunkText(pre: nat, preLength: Option<nat>, post: nat, postLength: Option<nat>, context: string): string {
    "@@ -" + (SpanText(pre, preLength) + (" +" + (SpanText(post, postLength) + (" @@" + context))))
  }

  /** Every hunk header `git` can write is read back to its two line numbers. */
  lemma {:induction false} HunkReads(
    pre: nat, preLength: Option<nat>, post: nat, postLength: Option<nat>, context: string)
    ensures ParseHunk(HunkText(pre, preLength, post, postLength, context)) == Some((pre, post))
  {
    var tail := " @@" + context;
    var second := SpanText(post, postLength) + tail;
    var first := SpanText(pre, preLength) + (" +" + second);
    assert tail[0] == ' ';
    assert (" +" + second)[0] == ' ';
    CutAt("@@ -", first);
    CutAt(" +", second);
    CutAt(" @@", context);
    SpanReads(pre, preLength, " +" + second);
    SpanReads(post, postLength, tail);
  }

  // ------------------------------------------------------------ file headers --

  /** The header `git` writes for a file, its two paths in a form that needs no quotes. */
  function HeaderText(was: string, path: string): string { "diff --git a/" + (was + (" b/" + path)) }

  lemma {:induction false} FindLastMeans(s: string, needle: string, from: nat)
    ensures var at := FindLast(s, needle, from);
            && (at.Some? ==> at.value <= from && OccursAt(s, needle, at.value))
            && forall i: nat :: i <= from && OccursAt(s, needle, i) ==> at.Some? && i <= at.value
    decreases from
  {
    if OccursAt(s, needle, from) || from == 0 {
    } else {
      FindLastMeans(s, needle, from - 1);
    }
  }

  /** Where the mark between the paths occurs: between them, and inside the second. */
  lemma {:induction false} MarkOccurs(was: string, path: string, i: nat)
    ensures var rest := was + (" b/" + path);
            && OccursAt(rest, " b/", |was|)
            && (i > |was| ==> (OccursAt(rest, " b/", i) <==> OccursAt(path, " b/", i - |was| - 3)))
  {
    var rest := was + (" b/" + path);
    assert rest[|was|..|was| + 3] == " b/";
    assert rest[|was| + 1] == 'b' && rest[|was| + 2] == '/';
    if i > |was| && i + 3 <= |rest| {
      assert rest[i..i + 3][0] == rest[i];
      if i >= |was| + 3 {
        assert rest[i..i + 3] == path[i - |was| - 3..i - |was|];
      }
    }
  }

  /** A file header is read back to its two paths if and only if the mark between
      them does not occur in the second. */
  lemma {:induction false} HeaderReads(was: string, path: string)
    ensures ParseHeader(HeaderText(was, path)) == Some((was, path)) <==> !Contains(path, " b/")
  {
    var rest := was + (" b/" + path);
    CutAt("diff --git a/", rest);
    FindLastMeans(rest, " b/", |rest|);
    MarkOccurs(was, path, 0);
    var at := FindLast(rest, " b/", |rest|).value;
    MarkOccurs(was, path, at);
    if i :| 0 <= i <= |path| && OccursAt(path, " b/", i) {
      MarkOccurs(was, path, |was| + 3 + i);
      assert OccursAt(rest, " b/", |was| + 3 + i);
      assert |rest[..at]| != |was|;
    } else {
      assert at == |was|;
      CutAt(was, " b/" + path);
      CutAt(" b/", path);
      assert rest[|was| + 3..] == rest[|was|..][3..];
    }
  }
}
