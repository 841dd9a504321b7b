/** The `sh -c "cd DIR && exec CMD ARGS..."` wrapper that the renderer writes,
    the word splitter the importer reads it with, and the bundle test that rides
    on the words (crates/adapters/src/render.rs, crates/adapters/src/import.rs). */
module Shell {
  import opened Text

  const MAX_PATH_BYTES := 4096
  const MAX_SCRIPT_BYTES := 4096
  const MAX_SCRIPT_WORDS := 256

  // ------------------------------------------------------------- quoting --

  /** The text between the two outer quotes. */
  function QuoteBody(s: string): string {
    if s == [] then []
    else (if s[0] == '\'' then "'\\''" else [s[0]]) + QuoteBody(s[1..])
  }

  function Quote(s: string): string {
    "'" + QuoteBody(s) + "'"
  }

  lemma QuoteBodySnoc(s: string, c: char)
    ensures QuoteBody(s + [c]) == QuoteBody(s) + (if c == '\'' then "'\\''" else [c])
  {
    if s != [] {
      assert (s + [c])[1..] == s[1..] + [c];
    }
  }

  /** `posix_shell_quote`: pushes one character (or the four-character escape)
      at a time. */
  method PosixShellQuote(s: string) returns (out: string)
    ensures out == Quote(s)
  {
    out := "'";
    for i := 0 to |s|
      invariant out == "'" + QuoteBody(s[..i])
    {
      assert s[..i + 1] == s[..i] + [s[i]];
      QuoteBodySnoc(s[..i], s[i]);
      if s[i] == '\'' {
        out := out + "'\\''";
      } else {
        out := out + [s[i]];
      }
    }
    assert s[..|s|] == s;
    out := out + "'";
  }

  function QuotedTail(args: seq<string>): string {
    if args == [] then [] else " " + Quote(args[0]) + QuotedTail(args[1..])
  }

  /** The script the renderer writes for an adapter without a working-directory key. */
  function WrapperScript(cwd: string, cmd: string, args: seq<string>): string {
    "cd " + Quote(cwd) + " && exec " + Quote(cmd) + QuotedTail(args)
  }

  lemma {:induction false} QuotedTailSnoc(args: seq<string>, a: string)
    ensures QuotedTail(args + [a]) == QuotedTail(args) + " " + Quote(a)
  {
    if args == [] {
      assert (args + [a])[1..] == [];
    } else {
      assert (args + [a])[1..] == args[1..] + [a];
      QuotedTailSnoc(args[1..], a);
      var l := " " + Quote(args[0]);
      assert l + (QuotedTail(args[1..]) + (" " + Quote(a))) == (l + QuotedTail(args[1..])) + (" " + Quote(a));
    }
  }

  lemma AppendFour(a: string, b: string, c: string, d: string)
    ensures a + b + c + d == a + (b + c + d)
  {
  }

  method BuildWrapper(cwd: string, cmd: string, args: seq<string>) returns (script: string)
    ensures script == WrapperScript(cwd, cmd, args)
  {
    var qd := PosixShellQuote(cwd);
    var qc := PosixShellQuote(cmd);
    script := "cd " + qd + " && exec " + qc;
    ghost var head := script;
    for i := 0 to |args|
      invariant script == head + QuotedTail(args[..i])
    {
      var q := PosixShellQuote(args[i]);
      assert args[..i + 1] == args[..i] + [args[i]];
      QuotedTailSnoc(args[..i], args[i]);
      AppendFour(head, QuotedTail(args[..i]), " ", q);
      script := script + " ";
      script := script + q;
    }
    assert args[..|args|] == args;
  }

  // ------------------------------------------------------- word splitting --

  datatype ScriptWord = ScriptWord(text: string, separator: bool)

  /** The word under construction. `quoted` keeps an empty `''` alive as a word. */
  datatype Lexer = Lexer(cur: string, quoted: bool)

  const START := Lexer([], false)

  function Flush(lx: Lexer): seq<ScriptWord> {
    if lx.cur != [] || lx.quoted then [ScriptWord(lx.cur, false)] else []
  }

  /** The end of the run of `c` that starts at `i`. */
  function RunEnd(s: string, i: nat, c: char): (end: nat)
    requires i <= |s|
    ensures i <= end <= |s|
    decreases |s| - i
  {
    if i == |s| || s[i] != c then i else RunEnd(s, i + 1, c)
  }

  datatype Stretch = Stretch(text: string, next: nat)

  /** Inside single quotes every character stands for itself up to the closing
      quote (POSIX.1-2017 XCU section 2.2.2), or to the end when none closes. */
  function SingleStretch(s: string, i: nat): (r: Stretch)
    requires i <= |s|
    ensures i <= r.next <= |s|
  {
    var end := FindChar(s, '\'', i);
    Stretch(s[i..end], if end < |s| then end + 1 else end)
  }

  /** Inside double quotes a backslash always escapes the next character, unlike
      POSIX.1-2017 XCU section 2.2.3. */
  function DoubleStretch(s: string, i: nat, text: string): (r: Stretch)
    requires i <= |s|
    ensures i <= r.next <= |s|
    decreases |s| - i
  {
    if i == |s| then Stretch(text, i)
    else if s[i] == '"' then Stretch(text, i + 1)
    else if s[i] != '\\' then DoubleStretch(s, i + 1, text + [s[i]])
    else if i + 1 < |s| then DoubleStretch(s, i + 2, text + [s[i + 1]])
    else Stretch(text, i + 1)
  }

  predicate IsOperator(c: char) { c == '&' || c == '|' || c == ';' }

  datatype Stepped = Stepped(lx: Lexer, next: nat, words: seq<ScriptWord>)

  /** One move of the reader from position `i`, outside quotes. */
  function Step(lx: Lexer, s: string, i: nat): (r: Stepped)
    requires i < |s|
    ensures i < r.next <= |s|
  {
    var c := s[i];
    if c == '\'' then
      var q := SingleStretch(s, i + 1); Stepped(Lexer(lx.cur + q.text, true), q.next, [])
    else if c == '"' then
      var q := DoubleStretch(s, i + 1, lx.cur); Stepped(Lexer(q.text, true), q.next, [])
    else if c == '\\' then
      if i + 1 < |s| then Stepped(lx.(cur := lx.cur + [s[i + 1]]), i + 2, []) else Stepped(lx, i + 1, [])
    else if IsWhitespace(c) then Stepped(START, i + 1, Flush(lx))
    else if IsOperator(c) then
      var end := RunEnd(s, i + 1, c);
      Stepped(START, end, Flush(lx) + [ScriptWord(s[i..end], true)])
    else Stepped(lx.(cur := lx.cur + [c]), i + 1, [])
  }

  /** Every word of the script from position `i`, with no bound: what a shell
      would separate. */
  function Words(lx: Lexer, s: string, i: nat): seq<ScriptWord>
    requires i <= |s|
    decreases |s| - i, 0
  {
    if i == |s| then Flush(lx) else WordsAfter(Step(lx, s, i), s, i)
  }

  function WordsAfter(r: Stepped, s: string, from: nat): seq<ScriptWord>
    requires from < r.next <= |s|
    decreases |s| - r.next, 1
  {
    r.words + Words(r.lx, s, r.next)
  }

  function AllWords(script: string): seq<ScriptWord> {
    Words(START, script, 0)
  }

  /** The importer's bounded reading: stop once 256 words are out. */
  function BoundedWords(lx: Lexer, s: string, i: nat, out: seq<ScriptWord>): seq<ScriptWord>
    requires i <= |s|
    decreases |s| - i, 0
  {
    if i == |s| then
      var all := out + Flush(lx);
      if |all| > MAX_SCRIPT_WORDS then all[..MAX_SCRIPT_WORDS] else all
    else if |out| >= MAX_SCRIPT_WORDS then out
    else BoundedAfter(Step(lx, s, i), s, i, out)
  }

  function BoundedAfter(r: Stepped, s: string, from: nat, out: seq<ScriptWord>): seq<ScriptWord>
    requires from < r.next <= |s|
    decreases |s| - r.next, 1
  {
    BoundedWords(r.lx, s, r.next, out + r.words)
  }

  function SplitWords(script: string): seq<ScriptWord> {
    BoundedWords(START, script, 0, [])
  }

  /** The inner loop for a single-quoted stretch that opened just before `from`. */
  method ReadSingle(script: string, from: nat, text: string) returns (cur: string, i: nat)
    requires from <= |script|
    ensures var q := SingleStretch(script, from); cur == text + q.text && i == q.next
  {
    cur, i := text, from;
    while i < |script|
      invariant from <= i <= |script|
      invariant cur == text + script[from..i]
      invariant FindChar(script, '\'', from) == FindChar(script, '\'', i)
    {
      if script[i] == '\'' {
        i := i + 1;
        return;
      }
      cur := cur + [script[i]];
      i := i + 1;
    }
  }

  /** The inner loop for a double-quoted stretch that opened just before `from`. */
  method ReadDouble(script: string, from: nat, text: string) returns (cur: string, i: nat)
    requires from <= |script|
    ensures Stretch(cur, i) == DoubleStretch(script, from, text)
  {
    cur, i := text, from;
    while i < |script|
      invariant from <= i <= |script|
      invariant DoubleStretch(script, i, cur) == DoubleStretch(script, from, text)
    {
      var q := script[i];
      i := i + 1;
      if q == '"' {
        return;
      } else if q == '\\' {
        if i < |script| {
          cur := cur + [script[i]];
          i := i + 1;
        }
      } else {
        cur := cur + [q];
      }
    }
  }

  /** The peek loop that gathers a run of one operator character. */
  method ReadOperator(script: string, from: nat) returns (op: string, i: nat)
    requires from < |script|
    ensures i == RunEnd(script, from + 1, script[from])
    ensures op == script[from..i]
  {
    var c := script[from];
    op, i := [c], from + 1;
    while i < |script| && script[i] == c
      invariant from < i <= |script|
      invariant op == script[from..i]
      invariant RunEnd(script, from + 1, c) == RunEnd(script, i, c)
    {
      op := op + [c];
      i := i + 1;
    }
  }

  lemma {:induction false} BoundedUnfold(lx: Lexer, s: string, i: nat, out: seq<ScriptWord>)
    requires i < |s| && |out| < MAX_SCRIPT_WORDS
    ensures var r := Step(lx, s, i);
            BoundedWords(lx, s, i, out) == BoundedWords(r.lx, s, r.next, out + r.words)
  {
  }

  /** `split_script`: one pass over the characters, bounded by the word count. */
  method SplitScript(script: string) returns (out: seq<ScriptWord>)
    ensures out == SplitWords(script)
  {
    out := [];
    var cur: string, quoted, i := [], false, 0;
    while i < |script|
      invariant 0 <= i <= |script|
      invariant BoundedWords(Lexer(cur, quoted), script, i, out) == SplitWords(script)
    {
      if |out| >= MAX_SCRIPT_WORDS {
        return;
      }
      var c := script[i];
      ghost var r, was := Step(Lexer(cur, quoted), script, i), out;
      BoundedUnfold(Lexer(cur, quoted), script, i, out);
      if c == '\'' {
        quoted := true;
        cur, i := ReadSingle(script, i + 1, cur);
      } else if c == '"' {
        quoted := true;
        cur, i := ReadDouble(script, i + 1, cur);
      } else if c == '\\' {
        i := i + 1;
        if i < |script| {
          cur := cur + [script[i]];
          i := i + 1;
        }
      } else if IsWhitespace(c) {
        out := out + Flush(Lexer(cur, quoted));
        cur, quoted, i := [], false, i + 1;
      } else if IsOperator(c) {
        out := out + Flush(Lexer(cur, quoted));
        cur, quoted := [], false;
        var op;
        op, i := ReadOperator(script, i);
        out := out + [ScriptWord(op, true)];
      } else {
        cur := cur + [c];
        i := i + 1;
      }
      assert r.lx == Lexer(cur, quoted) && r.next == i;
      assert out == was + r.words;
    }
    out := out + Flush(Lexer(cur, quoted));
    if |out| > MAX_SCRIPT_WORDS {
      out := out[..MAX_SCRIPT_WORDS];
    }
  }

  // ------------------------------------------- the bound cuts, never edits --

  /** How many of the unbounded words `all` the importer keeps. The early return
      skips the final truncation, so a plain word flushed together with the
      separator that ends it can leave one word more than the bound. */
  ghost predicate Cut(all: seq<ScriptWord>, kept: seq<ScriptWord>) {
    && kept <= all
    && if |all| <= MAX_SCRIPT_WORDS then kept == all
       else || |kept| == MAX_SCRIPT_WORDS
            || (&& |kept| == MAX_SCRIPT_WORDS + 1
                && !all[MAX_SCRIPT_WORDS - 1].separator && all[MAX_SCRIPT_WORDS].separator)
  }

  /** Only a word with the separator that ended it may pass the bound. */
  ghost predicate WithinBound(out: seq<ScriptWord>) {
    && |out| <= MAX_SCRIPT_WORDS + 1
    && (|out| == MAX_SCRIPT_WORDS + 1 ==>
          !out[MAX_SCRIPT_WORDS - 1].separator && out[MAX_SCRIPT_WORDS].separator)
  }

  lemma CutAtEnd(out: seq<ScriptWord>, more: seq<ScriptWord>)
    requires WithinBound(out) && |more| <= 1
    ensures var all := out + more;
            Cut(all, if |all| > MAX_SCRIPT_WORDS then all[..MAX_SCRIPT_WORDS] else all)
  {
  }

  lemma CutEarly(out: seq<ScriptWord>, more: seq<ScriptWord>)
    requires WithinBound(out) && |out| >= MAX_SCRIPT_WORDS
    ensures Cut(out + more, out)
  {
    assert |out| == MAX_SCRIPT_WORDS && more == [] ==> out + more == out;
  }

  lemma StepBounded(lx: Lexer, s: string, i: nat, out: seq<ScriptWord>)
    requires i < |s| && |out| < MAX_SCRIPT_WORDS
    ensures WithinBound(out + Step(lx, s, i).words)
  {
  }

  lemma {:induction false} BoundedIsCut(lx: Lexer, s: string, i: nat, out: seq<ScriptWord>)
    requires i <= |s| && WithinBound(out)
    ensures Cut(out + Words(lx, s, i), BoundedWords(lx, s, i, out))
    decreases |s| - i
  {
    if i == |s| {
      CutAtEnd(out, Flush(lx));
    } else if |out| >= MAX_SCRIPT_WORDS {
      CutEarly(out, Words(lx, s, i));
    } else {
      var r := Step(lx, s, i);
      StepBounded(lx, s, i, out);
      BoundedIsCut(r.lx, s, r.next, out + r.words);
      AppendAssoc(out, r.words, Words(r.lx, s, r.next));
    }
  }

  /** For every script the importer's words are a prefix of the unbounded
      reading: all of it up to 256 words, else at least 256 and at most 257, where
      a 257th is the separator that ended the 256th. `SplitWordsExactly` says
      which. */
  lemma {:induction false} SplitWordsCut(script: string)
    ensures Cut(AllWords(script), SplitWords(script))
  {
    BoundedIsCut(START, script, 0, []);
    assert [] + AllWords(script) == AllWords(script);
  }

  // --------------------------------------------------- one word past the bound --

  /** The unbounded reader between two moves. */
  datatype Reader = Reader(lx: Lexer, i: nat, out: seq<ScriptWord>)

  function Move(s: string, r: Reader): (next: Reader)
    requires r.i < |s|
    ensures r.i < next.i <= |s|
  {
    var m := Step(r.lx, s, r.i); Reader(m.lx, m.next, r.out + m.words)
  }

  /** The reader `k` moves on; at the end of the script it stays. */
  function Go(s: string, r: Reader, k: nat): Reader
    requires r.i <= |s|
    decreases k
  {
    if k == 0 || r.i == |s| then r else Go(s, Move(s, r), k - 1)
  }

  /** 255 words are out and one is pending, unended by white space; the next
      character is an operator, and its run is not the end of the script. */
  predicate Spills(s: string, r: Reader) {
    && |r.out| == MAX_SCRIPT_WORDS - 1 && Flush(r.lx) != []
    && r.i < |s| && IsOperator(s[r.i]) && RunEnd(s, r.i + 1, s[r.i]) < |s|
  }

  ghost predicate SpillsFrom(s: string, r: Reader)
    requires r.i <= |s|
  {
    exists k: nat :: Spills(s, Go(s, r, k))
  }

  lemma {:induction false} MoveGrows(s: string, r: Reader)
    requires r.i < |s|
    ensures |r.out| <= |Move(s, r).out| <= |r.out| + 2
    ensures |Move(s, r).out| == |r.out| + 2 <==> Flush(r.lx) != [] && IsOperator(s[r.i])
    ensures IsOperator(s[r.i]) ==> Move(s, r).i == RunEnd(s, r.i + 1, s[r.i]) && Move(s, r).lx == START
  {
  }

  lemma {:induction false} GoGrows(s: string, r: Reader, k: nat)
    requires r.i <= |s|
    ensures Go(s, r, k).i <= |s| && |Go(s, r, k).out| >= |r.out|
    decreases k
  {
    if k > 0 && r.i < |s| {
      MoveGrows(s, r);
      GoGrows(s, Move(s, r), k - 1);
    }
  }

  /** The condition looks at this state or at the states after one more move. */
  lemma {:induction false} SpillsNowOrLater(s: string, r: Reader)
    requires r.i < |s|
    ensures SpillsFrom(s, r) <==> Spills(s, r) || SpillsFrom(s, Move(s, r))
  {
    assert Go(s, r, 0) == r;
    if k: nat :| Spills(s, Go(s, r, k)) {
      if k > 0 {
        assert Go(s, r, k) == Go(s, Move(s, r), k - 1);
      }
    }
    if k: nat :| Spills(s, Go(s, Move(s, r), k)) {
      assert Go(s, r, k + 1) == Go(s, Move(s, r), k);
    }
  }

  /** Nothing spills at the end, or once the bound is met. */
  lemma {:induction false} TooLateToSpill(s: string, r: Reader)
    requires r.i <= |s| && (r.i == |s| || |r.out| >= MAX_SCRIPT_WORDS)
    ensures !SpillsFrom(s, r)
  {
    forall k: nat ensures !Spills(s, Go(s, r, k)) {
      GoGrows(s, r, k);
    }
  }

  /** How many words the importer keeps when `all` are there. */
  ghost function Kept(s: string, r: Reader, all: nat): nat
    requires r.i <= |s|
  {
    if all <= MAX_SCRIPT_WORDS then all else if SpillsFrom(s, r) then MAX_SCRIPT_WORDS + 1 else MAX_SCRIPT_WORDS
  }

  lemma {:induction false} EmptyFlush()
    ensures Flush(START) == []
  {
  }

  /** The last move before the bound: one word too many stays exactly when a
      pending word meets an operator that does not end the script. */
  lemma {:induction false} LastMove(s: string, r: Reader)
    requires r.i < |s| && |r.out| < MAX_SCRIPT_WORDS <= |Move(s, r).out|
    ensures var m := Move(s, r);
            && (|BoundedWords(m.lx, s, m.i, m.out)| == MAX_SCRIPT_WORDS + 1 <==> Spills(s, r))
            && |BoundedWords(m.lx, s, m.i, m.out)| >= MAX_SCRIPT_WORDS
  {
    MoveGrows(s, r);
    EmptyFlush();
  }

  lemma {:induction false} BoundedCount(s: string, r: Reader)
    requires r.i <= |s| && |r.out| < MAX_SCRIPT_WORDS
    ensures |BoundedWords(r.lx, s, r.i, r.out)| == MAX_SCRIPT_WORDS + 1 <==> SpillsFrom(s, r)
    decreases |s| - r.i
  {
    if r.i == |s| {
      TooLateToSpill(s, r);
    } else {
      var m := Move(s, r);
      BoundedUnfold(r.lx, s, r.i, r.out);
      SpillsNowOrLater(s, r);
      if |m.out| < MAX_SCRIPT_WORDS {
        MoveGrows(s, r);
        BoundedCount(s, m);
      } else {
        LastMove(s, r);
        TooLateToSpill(s, m);
      }
    }
  }

  /** What the importer keeps of any script, exactly: every word up to 256; else
      256; and 257 if and only if the reader, with 255 words out and one pending,
      meets an operator with characters left behind its run. */
  lemma {:induction false} SplitWordsExactly(script: string)
    ensures var all := AllWords(script);
            var kept := Kept(script, Reader(START, 0, []), |all|);
            kept <= |all| && SplitWords(script) == all[..kept]
  {
    var all, kept := AllWords(script), SplitWords(script);
    SplitWordsCut(script);
    BoundedCount(script, Reader(START, 0, []));
    assert kept == all[..|kept|];
  }

  predicate IsOrdinary(c: char) {
    c != '\'' && c != '"' && c != '\\' && !IsWhitespace(c) && !IsOperator(c)
  }

  /** 255 one-letter words, a word that runs into an operator, and one more. */
  function Overlong(c: char): (s: string)
    ensures |s| == 513
  {
    seq(513, k requires 0 <= k < 513 => if k == 511 then '&' else if k < 510 && k % 2 == 1 then ' ' else c)
  }

  lemma {:induction false} ReadUnit(c: char, r: Reader)
    requires IsOrdinary(c) && r.lx == START && r.i + 1 < 510 && r.i % 2 == 0
    ensures Go(Overlong(c), r, 2) == Reader(START, r.i + 2, r.out + [ScriptWord([c], false)])
  {
    var s := Overlong(c);
    assert s[r.i] == c && s[r.i + 1] == ' ';
    var m := Move(s, r);
    assert r.out + [] == r.out;
    assert m == Reader(Lexer([c], false), r.i + 1, r.out);
    assert Move(s, m) == Reader(START, r.i + 2, r.out + [ScriptWord([c], false)]);
    assert Go(s, r, 2) == Go(s, m, 1) == Go(s, Move(s, m), 0);
  }

  lemma {:induction false} GoOn(s: string, r: Reader, a: nat, b: nat)
    requires r.i <= |s|
    ensures Go(s, r, a).i <= |s| && Go(s, r, a + b) == Go(s, Go(s, r, a), b)
    decreases a
  {
    if a > 0 && r.i < |s| {
      GoOn(s, Move(s, r), a - 1, b);
    } else if r.i == |s| {
      assert Go(s, r, a + b) == r == Go(s, r, b);
    }
  }

  lemma {:induction false} ReadUnits(c: char, n: nat) returns (out: seq<ScriptWord>)
    requires IsOrdinary(c) && n <= 255
    ensures |out| == n && Go(Overlong(c), Reader(START, 0, []), 2 * n) == Reader(START, 2 * n, out)
  {
    if n == 0 {
      out := [];
    } else {
      out := ReadUnits(c, n - 1);
      GoOn(Overlong(c), Reader(START, 0, []), 2 * (n - 1), 2);
      ReadUnit(c, Reader(START, 2 * (n - 1), out));
      out := out + [ScriptWord([c], false)];
    }
  }

  lemma {:induction false} LastUnitSpills(c: char, out: seq<ScriptWord>)
    requires IsOrdinary(c) && |out| == MAX_SCRIPT_WORDS - 1
    ensures Spills(Overlong(c), Go(Overlong(c), Reader(START, 510, out), 1))
  {
    var s, r := Overlong(c), Reader(START, 510, out);
    assert s[510] == c && s[511] == '&' && s[512] == c;
    assert Move(s, r).lx == Lexer([c], false) && Move(s, r).i == 511;
    MoveGrows(s, r);
    assert Go(s, r, 1) == Go(s, Move(s, r), 0);
    assert RunEnd(s, 512, '&') == 512;
  }

  /** So the bound of 256 does fail. */
  lemma {:induction false} OverlongKeeps257(c: char)
    requires IsOrdinary(c)
    ensures |SplitWords(Overlong(c))| == MAX_SCRIPT_WORDS + 1
  {
    var s, first := Overlong(c), Reader(START, 0, []);
    var out := ReadUnits(c, 255);
    GoOn(s, first, 510, 1);
    LastUnitSpills(c, out);
    assert Spills(s, Go(s, first, 510 + 1));
    SpillKeeps257(s);
  }

  lemma {:induction false} SpillKeeps257(s: string)
    requires SpillsFrom(s, Reader(START, 0, []))
    ensures |SplitWords(s)| == MAX_SCRIPT_WORDS + 1
  {
    BoundedCount(s, Reader(START, 0, []));
  }

  // --------------------------------------------- the printer/parser inverse --

  /** From `i` on, `s` is `a` and nothing else. */
  ghost predicate EndsAs(s: string, a: string, i: nat) {
    StandsAt(s, a, i) && i + |a| == |s|
  }

  lemma {:induction false} SilentStep(lx: Lexer, s: string, i: nat)
    requires i < |s| && Step(lx, s, i).words == []
    ensures var r := Step(lx, s, i); Words(lx, s, i) == Words(r.lx, s, r.next)
  {
  }

  /** An unquoted stretch that the next characters of `s` spell. */
  lemma {:induction false} OrdinaryReads(s: string, i: nat, w: string, k: nat)
    requires StandsAt(s, w, i) && k <= |w|
    requires forall j :: 0 <= j < |w| ==> IsOrdinary(w[j])
    ensures Words(Lexer(w[..k], false), s, i + k) == Words(Lexer(w, false), s, i + |w|)
    decreases |w| - k
  {
    if k == |w| {
      assert w[..k] == w;
    } else {
      assert s[i + k] == w[k];
      assert w[..k] + [w[k]] == w[..k + 1];
      SilentStep(Lexer(w[..k], false), s, i + k);
      OrdinaryReads(s, i, w, k + 1);
    }
  }

  lemma {:induction false} SpaceReads(s: string, i: nat, lx: Lexer)
    requires i < |s| && s[i] == ' '
    ensures Words(lx, s, i) == Flush(lx) + Words(START, s, i + 1)
  {
  }

  lemma {:induction false} FindClosing(s: string, i: nat, w: string, k: nat)
    requires StandsAt(s, w, i) && '\'' !in w && k <= |w|
    requires i + |w| < |s| && s[i + |w|] == '\''
    ensures FindChar(s, '\'', i + k) == i + |w|
    decreases |w| - k
  {
    if k == |w| {
    } else {
      assert s[i + k] == w[k];
      assert w[k] in w;
      FindClosing(s, i, w, k + 1);
    }
  }

  /** A quoted stretch without a quote inside. */
  lemma {:induction false} StretchReads(s: string, i: nat, w: string, lx: Lexer)
    requires StandsAt(s, w, i + 1) && '\'' !in w
    requires s[i] == '\'' && i + 1 + |w| < |s| && s[i + 1 + |w|] == '\''
    ensures Words(lx, s, i) == Words(Lexer(lx.cur + w, true), s, i + |w| + 2)
  {
    FindClosing(s, i + 1, w, 0);
    assert SingleStretch(s, i + 1) == Stretch(w, i + |w| + 2);
    SilentStep(lx, s, i);
  }

  lemma {:induction false} QuoteBodyPlain(w: string)
    requires '\'' !in w
    ensures QuoteBody(w) == w
  {
    if w == [] {
    } else {
      assert forall c :: c in w[1..] ==> c in w;
      QuoteBodyPlain(w[1..]);
      assert w[0] in w;
    }
  }

  lemma {:induction false} QuoteBodyAppend(a: string, b: string)
    ensures QuoteBody(a + b) == QuoteBody(a) + QuoteBody(b)
  {
    if a == [] {
      assert a + b == b;
    } else {
      assert (a + b)[1..] == a[1..] + b;
      QuoteBodyAppend(a[1..], b);
      AppendAssoc(if a[0] == '\'' then "'\\''" else [a[0]], QuoteBody(a[1..]), QuoteBody(b));
    }
  }

  lemma {:induction false} Requoted(a: string, body: string)
    ensures "'" + (a + ("'\\''" + body)) + "'" == ("'" + a + "'") + ("\\'" + ("'" + body + "'"))
  {
  }

  lemma {:induction false} QuoteBodyOfQuote(b: string)
    ensures QuoteBody("'" + b) == "'\\''" + QuoteBody(b)
  {
    assert ("'" + b)[1..] == b;
  }

  /** A string split at its first quote: close, escape the quote, reopen. */
  lemma {:induction false} QuoteAtQuote(a: string, b: string)
    requires '\'' !in a
    ensures Quote(a + ("'" + b)) == ("'" + a + "'") + ("\\'" + Quote(b))
  {
    QuoteBodyPlain(a);
    QuoteBodyAppend(a, "'" + b);
    QuoteBodyOfQuote(b);
    Requoted(a, QuoteBody(b));
  }

  /** A string either holds no quote, or falls apart at its first one. */
  lemma {:induction false} FirstQuote(w: string) returns (a: string, b: string)
    ensures '\'' !in a
    ensures if '\'' in w then w == a + ("'" + b) else w == a
    decreases |w|
  {
    if w == [] {
      a, b := [], [];
    } else if w[0] == '\'' {
      a, b := [], w[1..];
      assert w == [] + ("'" + b);
    } else {
      a, b := FirstQuote(w[1..]);
      a := [w[0]] + a;
      assert w == [w[0]] + w[1..];
      AppendAssoc([w[0]], a[1..], "'" + b);
    }
  }

  lemma {:induction false} Rejoined(cur: string, a: string, b: string)
    ensures cur + a + "'" + b == cur + (a + ("'" + b))
  {
  }

  /** Whatever the characters, a quoted string reads back as that string. */
  lemma {:induction false} QuoteReads(s: string, i: nat, w: string, lx: Lexer)
    requires StandsAt(s, Quote(w), i)
    ensures Words(lx, s, i) == Words(Lexer(lx.cur + w, true), s, i + |Quote(w)|)
    decreases |w|
  {
    if '\'' !in w {
      UnbrokenReads(s, i, w, lx);
    } else {
      var a, b := FirstQuote(w);
      BrokenReads(s, i, a, b, lx);
      QuoteReads(s, i + |a| + 4, b, Lexer(lx.cur + a + "'", true));
      Rejoined(lx.cur, a, b);
    }
  }

  lemma {:induction false} UnbrokenReads(s: string, i: nat, w: string, lx: Lexer)
    requires '\'' !in w && StandsAt(s, Quote(w), i)
    ensures Words(lx, s, i) == Words(Lexer(lx.cur + w, true), s, i + |Quote(w)|)
  {
    QuoteBodyPlain(w);
    StretchThere(s, i, w);
    StretchReads(s, i, w, lx);
  }

  lemma {:induction false} StretchThere(s: string, i: nat, w: string)
    requires StandsAt(s, "'" + w + "'", i)
    ensures StandsAt(s, w, i + 1) && i + |w| + 2 <= |s| && s[i] == '\'' && s[i + 1 + |w|] == '\''
  {
    StandsAtParts(s, i, "'" + w, "'");
    StandsAtParts(s, i, "'", w);
    assert "'"[0] == '\'';
    assert s[i + 0] == '\'' && s[i + (1 + |w|) + 0] == '\'';
  }

  /** Where the pieces of a string with a quote stand. */
  lemma {:induction false} BrokenThere(s: string, i: nat, a: string, b: string)
    requires StandsAt(s, ("'" + a + "'") + ("\\'" + b), i)
    ensures StandsAt(s, a, i + 1) && StandsAt(s, b, i + |a| + 4) && i + |a| + 4 <= |s|
    ensures s[i] == '\'' && s[i + 1 + |a|] == '\''
    ensures s[i + |a| + 2] == '\\' && s[i + |a| + 3] == '\''
  {
    StandsAtParts(s, i, "'" + a + "'", "\\'" + b);
    StandsAtParts(s, i + |a| + 2, "\\'", b);
    StretchThere(s, i, a);
    assert "\\'"[0] == '\\' && "\\'"[1] == '\'';
    assert s[i + |a| + 2 + 0] == '\\' && s[i + |a| + 2 + 1] == '\'';
  }

  lemma {:induction false} BrokenReads(s: string, i: nat, a: string, b: string, lx: Lexer)
    requires '\'' !in a && StandsAt(s, Quote(a + ("'" + b)), i)
    ensures |Quote(a + ("'" + b))| == |a| + 4 + |Quote(b)|
    ensures StandsAt(s, Quote(b), i + |a| + 4)
    ensures Words(lx, s, i) == Words(Lexer(lx.cur + a + "'", true), s, i + |a| + 4)
  {
    QuoteAtQuote(a, b);
    BrokenThere(s, i, a, Quote(b));
    StretchReads(s, i, a, lx);
    EscapeReads(s, i + |a| + 2, Lexer(lx.cur + a, true));
  }

  lemma {:induction false} EscapeReads(s: string, i: nat, lx: Lexer)
    requires i + 1 < |s| && s[i] == '\\'
    ensures Words(lx, s, i) == Words(lx.(cur := lx.cur + [s[i + 1]]), s, i + 2)
  {
    SilentStep(lx, s, i);
  }

  function Plainly(words: seq<string>): (r: seq<ScriptWord>)
    ensures |r| == |words|
    ensures forall i :: 0 <= i < |r| ==> r[i] == ScriptWord(words[i], false)
  {
    if words == [] then [] else [ScriptWord(words[0], false)] + Plainly(words[1..])
  }

  lemma PlainlyCons(w: string, words: seq<string>)
    ensures Plainly([w] + words) == [ScriptWord(w, false)] + Plainly(words)
  {
    assert ([w] + words)[1..] == words;
  }

  /** A quoted word, whatever ends it. */
  lemma {:induction false} QuotedWordReads(s: string, i: nat, w: string, rest: string)
    requires EndsAs(s, Quote(w) + rest, i)
    ensures var j := i + |Quote(w)|;
            EndsAs(s, rest, j) && Words(START, s, i) == Words(Lexer(w, true), s, j)
  {
    StandsAtParts(s, i, Quote(w), rest);
    QuoteReads(s, i, w, START);
    assert [] + w == w;
  }

  /** A space, then `rest`. */
  lemma {:induction false} SpaceThen(s: string, i: nat, rest: string, lx: Lexer)
    requires EndsAs(s, " " + rest, i)
    ensures EndsAs(s, rest, i + 1)
    ensures Words(lx, s, i) == Flush(lx) + Words(START, s, i + 1)
  {
    StandsAtParts(s, i, " ", rest);
    assert " "[0] == ' ' && s[i + 0] == ' ';
    SpaceReads(s, i, lx);
  }

  /** A space and a quoted word, whatever ends it. */
  lemma {:induction false} TailStep(s: string, i: nat, word: string, next: string, rest: string)
    requires EndsAs(s, " " + Quote(next) + rest, i)
    ensures var j := i + 1 + |Quote(next)|;
            && EndsAs(s, rest, j)
            && Words(Lexer(word, true), s, i) == [ScriptWord(word, false)] + Words(Lexer(next, true), s, j)
  {
    AppendAssoc(" ", Quote(next), rest);
    SpaceThen(s, i, Quote(next) + rest, Lexer(word, true));
    QuotedWordReads(s, i + 1, next, rest);
  }

  lemma {:induction false} TailReads(s: string, i: nat, word: string, args: seq<string>)
    requires EndsAs(s, QuotedTail(args), i)
    ensures Words(Lexer(word, true), s, i) == [ScriptWord(word, false)] + Plainly(args)
    decreases |args|
  {
    if args == [] {
    } else {
      TailStep(s, i, word, args[0], QuotedTail(args[1..]));
      TailReads(s, i + 1 + |Quote(args[0])|, args[0], args[1..]);
    }
  }

  /** The words of the wrapper: the directory, the command and every argument
      come back whole, and the only separator is the `&&` the renderer wrote. */
  function WrapperWords(cwd: string, cmd: string, args: seq<string>): seq<ScriptWord> {
    [ScriptWord("cd", false), ScriptWord(cwd, false), ScriptWord("&&", true)] + Plainly(["exec"] + ([cmd] + args))
  }

  /** `&&` and the space after it. */
  lemma {:induction false} AndReads(s: string, i: nat, rest: string)
    requires EndsAs(s, "&&" + (" " + rest), i)
    ensures EndsAs(s, rest, i + 3)
    ensures Words(START, s, i) == [ScriptWord("&&", true)] + Words(START, s, i + 3)
  {
    StandsAtParts(s, i, "&&", " " + rest);
    StandsAtParts(s, i + 2, " ", rest);
    assert "&&"[0] == '&' && "&&"[1] == '&' && " "[0] == ' ';
    assert s[i + 0] == '&' && s[i + 1] == '&' && s[i + 2 + 0] == ' ';
    SpaceThen(s, i + 2, rest, START);
    AndStep(s, i);
    assert Flush(START) + Words(START, s, i + 3) == Words(START, s, i + 3);
  }

  lemma {:induction false} AndStep(s: string, i: nat)
    requires i + 2 < |s| && s[i] == '&' && s[i + 1] == '&' && s[i + 2] != '&'
    ensures Step(START, s, i) == Stepped(START, i + 2, [ScriptWord("&&", true)])
  {
    assert RunEnd(s, i + 2, '&') == i + 2;
    assert RunEnd(s, i + 1, '&') == i + 2;
    assert s[i..i + 2] == "&&";
  }

  /** An unquoted word and the space after it. */
  lemma {:induction false} KeywordReads(s: string, i: nat, w: string, rest: string)
    requires w != [] && forall j :: 0 <= j < |w| ==> IsOrdinary(w[j])
    requires EndsAs(s, w + (" " + rest), i)
    ensures var j := i + |w| + 1;
            && EndsAs(s, rest, j)
            && Words(START, s, i) == [ScriptWord(w, false)] + Words(START, s, j)
  {
    StandsAtParts(s, i, w, " " + rest);
    OrdinaryReads(s, i, w, 0);
    SpaceThen(s, i + |w|, rest, Lexer(w, false));
  }

  lemma {:induction false} CommandReads(s: string, i: nat, cmd: string, args: seq<string>)
    requires EndsAs(s, Quote(cmd) + QuotedTail(args), i)
    ensures Words(START, s, i) == Plainly([cmd] + args)
  {
    QuotedWordReads(s, i, cmd, QuotedTail(args));
    TailReads(s, i + |Quote(cmd)|, cmd, args);
    PlainlyCons(cmd, args);
  }

  lemma {:induction false} ExecReads(s: string, i: nat, rest: string)
    requires EndsAs(s, "exec" + (" " + rest), i)
    ensures EndsAs(s, rest, i + 5) && Words(START, s, i) == [ScriptWord("exec", false)] + Words(START, s, i + 5)
  {
    KeywordReads(s, i, "exec", rest);
  }

  lemma {:induction false} LaunchPartReads(s: string, i: nat, cmd: string, args: seq<string>)
    requires EndsAs(s, "exec" + (" " + (Quote(cmd) + QuotedTail(args))), i)
    ensures Words(START, s, i) == Plainly(["exec"] + ([cmd] + args))
  {
    ExecReads(s, i, Quote(cmd) + QuotedTail(args));
    CommandReads(s, i + 5, cmd, args);
    PlainlyCons("exec", [cmd] + args);
  }

  /** A quoted word and the space after it. */
  lemma {:induction false} QuotedThenSpace(s: string, i: nat, w: string, rest: string)
    requires EndsAs(s, Quote(w) + (" " + rest), i)
    ensures var j := i + |Quote(w)| + 1;
            && EndsAs(s, rest, j)
            && Words(START, s, i) == [ScriptWord(w, false)] + Words(START, s, j)
  {
    QuotedWordReads(s, i, w, " " + rest);
    SpaceThen(s, i + |Quote(w)|, rest, Lexer(w, true));
  }

  lemma {:induction false} CdReads(s: string, rest: string)
    requires EndsAs(s, "cd" + (" " + rest), 0)
    ensures EndsAs(s, rest, 3) && AllWords(s) == [ScriptWord("cd", false)] + Words(START, s, 3)
  {
    KeywordReads(s, 0, "cd", rest);
  }

  lemma {:induction false} CdPartReads(s: string, cwd: string, rest: string)
    requires EndsAs(s, "cd" + (" " + (Quote(cwd) + (" " + rest))), 0)
    ensures var j := 4 + |Quote(cwd)|;
            && EndsAs(s, rest, j)
            && AllWords(s) == [ScriptWord("cd", false), ScriptWord(cwd, false)] + Words(START, s, j)
  {
    CdReads(s, Quote(cwd) + (" " + rest));
    QuotedThenSpace(s, 3, cwd, rest);
    AppendAssoc([ScriptWord("cd", false)], [ScriptWord(cwd, false)], Words(START, s, 4 + |Quote(cwd)|));
  }

  lemma {:induction false} WrapperShape(cwd: string, cmd: string, args: seq<string>)
    ensures WrapperScript(cwd, cmd, args)
            == "cd" + (" " + (Quote(cwd) + (" " + ("&&" + (" " + ("exec" + (" " + (Quote(cmd) + QuotedTail(args)))))))))
  {
  }

  lemma {:induction false} WrapperReads(cwd: string, cmd: string, args: seq<string>)
    ensures AllWords(WrapperScript(cwd, cmd, args)) == WrapperWords(cwd, cmd, args)
  {
    var s := WrapperScript(cwd, cmd, args);
    var launch := "exec" + (" " + (Quote(cmd) + QuotedTail(args)));
    WrapperShape(cwd, cmd, args);
    CdPartReads(s, cwd, "&&" + (" " + launch));
    var j := 4 + |Quote(cwd)|;
    AndReads(s, j, launch);
    LaunchPartReads(s, j + 3, cmd, args);
  }

  /** Reading the generated wrapper back gives `cd`, the directory, `&&`, `exec`,
      the command and the arguments, cut to the first 256 words when there are
      more, for any characters in any of them. */
  lemma {:induction false} WrapperRoundTrip(cwd: string, cmd: string, args: seq<string>)
    ensures var all := WrapperWords(cwd, cmd, args);
            SplitWords(WrapperScript(cwd, cmd, args))
            == if |all| <= MAX_SCRIPT_WORDS then all else all[..MAX_SCRIPT_WORDS]
  {
    WrapperReads(cwd, cmd, args);
    SplitWordsCut(WrapperScript(cwd, cmd, args));
  }

  // ------------------------------------------------- what the script launches --

  /** A launched process: its directory when one is set, and its argv. */
  datatype Launch = Launch(cwd: Option<string>, argv: seq<string>)

  function Texts(words: seq<ScriptWord>): seq<string> {
    if words == [] then [] else [words[0].text] + Texts(words[1..])
  }

  lemma {:induction false} TextsOfPlainly(words: seq<string>)
    ensures Texts(Plainly(words)) == words
  {
    if words == [] {
    } else {
      TextsOfPlainly(words[1..]);
    }
  }

  /** The reading of a script that is one `cd DIR && exec PROGRAM ARGS...`. */
  function ScriptLaunch(script: string): Option<Launch> {
    var w := AllWords(script);
    if && |w| >= 5
       && w[0] == ScriptWord("cd", false) && !w[1].separator
       && w[2] == ScriptWord("&&", true) && w[3] == ScriptWord("exec", false)
       && (forall i :: 4 <= i < |w| ==> !w[i].separator)
    then Some(Launch(Some(w[1].text), Texts(w[4..])))
    else None
  }

  lemma FourThen(a: ScriptWord, b: ScriptWord, c: ScriptWord, d: ScriptWord, p: seq<ScriptWord>)
    ensures var w := [a, b, c] + ([d] + p);
            |w| == |p| + 4 && w[0] == a && w[1] == b && w[2] == c && w[3] == d && w[4..] == p
  {
  }

  lemma {:induction false} WrapperWordsParts(cwd: string, cmd: string, args: seq<string>)
    ensures var w := WrapperWords(cwd, cmd, args);
            && |w| == |args| + 5
            && w[0] == ScriptWord("cd", false) && w[1] == ScriptWord(cwd, false)
            && w[2] == ScriptWord("&&", true) && w[3] == ScriptWord("exec", false)
            && w[4..] == Plainly([cmd] + args)
  {
    var p := Plainly([cmd] + args);
    PlainlyCons("exec", [cmd] + args);
    FourThen(ScriptWord("cd", false), ScriptWord(cwd, false), ScriptWord("&&", true), ScriptWord("exec", false), p);
  }

  /** The wrapper launches exactly the wrapped command, in the wrapped directory. */
  lemma {:induction false} WrapperLaunches(cwd: string, cmd: string, args: seq<string>)
    ensures ScriptLaunch(WrapperScript(cwd, cmd, args)) == Some(Launch(Some(cwd), [cmd] + args))
  {
    WrapperReads(cwd, cmd, args);
    WrapperWordsParts(cwd, cmd, args);
    var w := WrapperWords(cwd, cmd, args);
    forall i | 4 <= i < |w| ensures !w[i].separator {
      assert w[4..][i - 4] == w[i];
    }
    TextsOfPlainly([cmd] + args);
  }
}
