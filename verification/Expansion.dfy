/** What a passthrough adapter's entry launches once the target itself has put
    values for the references (crates/adapters/src/descriptor.rs,
    crates/adapters/src/render.rs). */
module Expansion {
  import opened Text
  import opened Json
  import opened Refs
  import opened Shell
  import opened Render
  import opened Meaning

  /** A text with the target's own values for its references. */
  function Expand(t: string, env: Resolver): string { RenderText(Segments(t), env) }

  // --------------------------------------------------- expanding in pieces --

  /** A character that cannot belong to a reference begun before it. */
  predicate Stops(c: char) { !IsNameChar(c) && c != '{' && c != '}' }

  predicate StartsApart(b: string) { b != [] ==> Stops(b[0]) }

  lemma {:induction false} CloserBefore(a: string, b: string, k: nat)
    requires k <= |a|
    ensures FindChar(a, '}', k) < |a| ==> FindChar(a + b, '}', k) == FindChar(a, '}', k)
    ensures FindChar(a, '}', k) == |a| ==> FindChar(a + b, '}', k) >= |a|
    decreases |a| - k
  {
    if k == |a| {
    } else {
      assert (a + b)[k] == a[k];
      if a[k] != '}' {
        CloserBefore(a, b, k + 1);
      }
    }
  }

  /** A reference that begins in `a` ends in `a`. */
  lemma {:induction false} RefStaysIn(a: string, b: string, i: nat)
    requires i < |a| && StartsApart(b)
    ensures RefEnd(a + b, i) == RefEnd(a, i) && Opens(a + b, i) == Opens(a, i)
  {
    var s := a + b;
    assert s[i] == a[i];
    if i + 1 < |a| {
      assert s[i + 1] == a[i + 1];
      if Opens(a, i) {
        CloserBefore(a, b, i + 2);
        var end := FindChar(s, '}', i + 2);
        if end < |a| {
          assert s[i + 2..end] == a[i + 2..end];
        } else if end < |s| {
          assert s[end] == '}' && s[|a|] == b[0];
          assert end > |a| && s[i + 2..end][|a| - (i + 2)] == b[0];
        }
      }
    } else if b != [] {
      assert s[i + 1] == b[0];
    }
  }

  lemma {:induction false} HeadStays(a: string, b: string, i: nat)
    requires i < |a| && StartsApart(b)
    ensures Head(a + b, i) == Head(a, i) && Next(a + b, i) == Next(a, i)
  {
    RefStaysIn(a, b, i);
    var end := RefEnd(a, i);
    assert (a + b)[i] == a[i];
    if end != 0 {
      assert (a + b)[i + 2..end] == a[i + 2..end];
    }
  }

  lemma {:induction false} CloserBehind(a: string, b: string, k: nat)
    requires k <= |b|
    ensures FindChar(a + b, '}', |a| + k) == |a| + FindChar(b, '}', k)
    decreases |b| - k
  {
    if k == |b| {
    } else {
      assert (a + b)[|a| + k] == b[k];
      if b[k] != '}' {
        CloserBehind(a, b, k + 1);
      }
    }
  }

  lemma {:induction false} HeadShifts(a: string, b: string, k: nat)
    requires k < |b|
    ensures Head(a + b, |a| + k) == Head(b, k) && Next(a + b, |a| + k) == |a| + Next(b, k)
  {
    var s := a + b;
    assert s[|a| + k] == b[k];
    assert k + 1 < |b| ==> s[|a| + k + 1] == b[k + 1];
    if Opens(b, k) {
      CloserBehind(a, b, k + 2);
      var end := FindChar(b, '}', k + 2);
      assert s[|a| + k + 2..|a| + end] == b[k + 2..end];
    }
  }

  lemma {:induction false} SegmentsUnfold(s: string, i: nat)
    requires i < |s|
    ensures SegmentsFrom(s, i) == [Head(s, i)] + SegmentsFrom(s, Next(s, i))
  {
  }

  /** One segment of `b` stands behind `a` as it stands in `b`. */
  lemma {:induction false} SegmentShifts(a: string, b: string, k: nat, rest: seq<Segment>)
    requires k < |b| && SegmentsFrom(a + b, |a| + Next(b, k)) == rest
    ensures SegmentsFrom(a + b, |a| + k) == [Head(b, k)] + rest
  {
    HeadShifts(a, b, k);
    SegmentsUnfold(a + b, |a| + k);
  }

  lemma {:induction false} SegmentsShift(a: string, b: string, k: nat)
    requires k <= |b|
    ensures SegmentsFrom(a + b, |a| + k) == SegmentsFrom(b, k)
    decreases |b| - k
  {
    if k == |b| {
    } else {
      SegmentsShift(a, b, Next(b, k));
      SegmentShifts(a, b, k, SegmentsFrom(b, Next(b, k)));
      SegmentsUnfold(b, k);
    }
  }

  lemma {:induction false} SegmentsJoin(a: string, b: string, i: nat)
    requires i <= |a| && StartsApart(b)
    ensures SegmentsFrom(a + b, i) == SegmentsFrom(a, i) + Segments(b)
    decreases |a| - i
  {
    if i == |a| {
      SegmentsShift(a, b, 0);
    } else {
      HeadStays(a, b, i);
      SegmentsJoin(a, b, Next(a, i));
      AppendAssoc([Head(a, i)], SegmentsFrom(a, Next(a, i)), Segments(b));
    }
  }

  lemma {:induction false} RenderJoin(g: seq<Segment>, h: seq<Segment>, env: Resolver)
    ensures RenderText(g + h, env) == RenderText(g, env) + RenderText(h, env)
  {
    if g == [] {
      assert g + h == h;
    } else {
      assert (g + h)[1..] == g[1..] + h;
      RenderJoin(g[1..], h, env);
      AppendAssoc(Rendering(g[0], env), RenderText(g[1..], env), RenderText(h, env));
    }
  }

  lemma {:induction false} NamesJoin(g: seq<Segment>, h: seq<Segment>)
    ensures Names(g + h) == Names(g) + Names(h)
  {
    if g == [] {
      assert g + h == h;
    } else {
      assert (g + h)[1..] == g[1..] + h;
      NamesJoin(g[1..], h);
    }
  }

  /** No reference crosses a character that cannot be part of one. */
  lemma {:induction false} ExpandJoin(a: string, b: string, env: Resolver)
    requires StartsApart(b)
    ensures Expand(a + b, env) == Expand(a, env) + Expand(b, env)
    ensures Names(Segments(a + b)) == Names(Segments(a)) + Names(Segments(b))
  {
    SegmentsJoin(a, b, 0);
    RenderJoin(Segments(a), Segments(b), env);
    NamesJoin(Segments(a), Segments(b));
  }

  lemma {:induction false} ExpandCharacter(c: char, rest: string, env: Resolver)
    requires c != '$'
    ensures Expand([c] + rest, env) == [c] + Expand(rest, env)
    ensures Names(Segments([c] + rest)) == Names(Segments(rest))
  {
    SegmentsShift([c], rest, 0);
    SegmentsUnfold([c] + rest, 0);
    assert ([c] + rest)[0] == c;
    Unfold(Lit([c]), Segments(rest), env);
  }

  /** Text without a dollar stays as it is, whatever follows. */
  lemma {:induction false} ExpandPlain(a: string, b: string, env: Resolver)
    requires '$' !in a
    ensures Expand(a + b, env) == a + Expand(b, env)
    ensures Names(Segments(a + b)) == Names(Segments(b))
  {
    if a == [] {
      assert a + b == b;
    } else {
      assert a == [a[0]] + a[1..] && a[0] in a;
      assert forall c :: c in a[1..] ==> c in a;
      ExpandPlain(a[1..], b, env);
      ExpandCharacter(a[0], a[1..] + b, env);
      AppendAssoc([a[0]], a[1..], b);
      AppendAssoc([a[0]], a[1..], Expand(b, env));
    }
  }

  // ------------------------------------------------------ counting quotes --

  function Count(s: string, c: char): nat { multiset(s)[c] }

  lemma CountJoin(a: string, b: string, c: char)
    ensures Count(a + b, c) == Count(a, c) + Count(b, c)
  {
  }

  lemma CountNone(s: string, c: char)
    ensures Count(s, c) == 0 <==> c !in s
  {
  }

  /** No value put for a reference holds a single quote. */
  predicate QuietNames(names: seq<string>, env: Resolver) {
    forall i :: 0 <= i < |names| && env(names[i]).Found? ==> '\'' !in env(names[i]).value
  }

  predicate QuietValues(t: string, env: Resolver) { QuietNames(Names(Segments(t)), env) }

  lemma QuietJoin(a: seq<string>, b: seq<string>, env: Resolver)
    ensures QuietNames(a + b, env) <==> QuietNames(a, env) && QuietNames(b, env)
  {
    assert forall i :: 0 <= i < |a| ==> (a + b)[i] == a[i];
    assert forall i :: 0 <= i < |b| ==> (a + b)[|a| + i] == b[i];
  }

  lemma QuietOne(name: string, env: Resolver)
    ensures QuietNames([name], env) <==> (env(name).Found? ==> '\'' !in env(name).value)
  {
    assert [name][0] == name;
  }

  lemma {:induction false} NameQuotes(g: Segment, env: Resolver)
    requires g.Ref? ==> IsRefName(g.name)
    ensures var names := if g.Ref? then [g.name] else [];
            && Count(Rendering(g, env), '\'') >= Count(Spelling(g), '\'')
            && (Count(Rendering(g, env), '\'') == Count(Spelling(g), '\'') <==> QuietNames(names, env))
  {
    if g.Ref? {
      assert '\'' !in g.name;
      CountNone(Spelling(g), '\'');
      CountNone(Rendering(g, env), '\'');
      QuietOne(g.name, env);
    }
  }

  lemma {:induction false} QuotesFrom(s: string, i: nat, env: Resolver)
    requires i <= |s|
    ensures var gs := SegmentsFrom(s, i);
            && Count(RenderText(gs, env), '\'') >= Count(Spell(gs), '\'')
            && (Count(RenderText(gs, env), '\'') == Count(Spell(gs), '\'') <==> QuietNames(Names(gs), env))
    decreases |s| - i
  {
    if i == |s| {
    } else {
      var g, rest := Head(s, i), SegmentsFrom(s, Next(s, i));
      QuotesFrom(s, Next(s, i), env);
      Unfold(g, rest, env);
      NameQuotes(g, env);
      CountJoin(Rendering(g, env), RenderText(rest, env), '\'');
      CountJoin(Spelling(g), Spell(rest), '\'');
      QuietJoin(if g.Ref? then [g.name] else [], Names(rest), env);
    }
  }

  /** Expanding never loses a single quote, and adds none if and only if no value
      holds one. */
  lemma {:induction false} QuotesAdded(t: string, env: Resolver)
    ensures Count(Expand(t, env), '\'') >= Count(t, '\'')
    ensures Count(Expand(t, env), '\'') == Count(t, '\'') <==> QuietValues(t, env)
  {
    QuotesFrom(t, 0, env);
    SegmentsSpell(t);
  }

  // ------------------------------------------------- the script, expanded --

  /** What the target makes of a quoted text, between the outer quotes. */
  function Body(t: string, env: Resolver): string { Expand(QuoteBody(t), env) }

  function Wrapped(t: string, env: Resolver): string { "'" + Body(t, env) + "'" }

  function WrappedTail(args: seq<string>, env: Resolver): string {
    if args == [] then [] else " " + Wrapped(args[0], env) + WrappedTail(args[1..], env)
  }

  lemma AppendThree(a: string, b: string, c: string, d: string)
    ensures (a + b + c) + d == a + (b + (c + d))
  {
  }

  lemma {:induction false} ExpandQuote(t: string, rest: string, env: Resolver)
    ensures Expand(Quote(t) + rest, env) == Wrapped(t, env) + Expand(rest, env)
  {
    AppendThree("'", QuoteBody(t), "'", rest);
    ExpandPlain("'", QuoteBody(t) + ("'" + rest), env);
    ExpandJoin(QuoteBody(t), "'" + rest, env);
    ExpandPlain("'", rest, env);
    AppendThree("'", Body(t, env), "'", Expand(rest, env));
  }

  lemma {:induction false} ExpandTail(args: seq<string>, env: Resolver)
    ensures Expand(QuotedTail(args), env) == WrappedTail(args, env)
  {
    if args == [] {
    } else {
      ExpandTail(args[1..], env);
      AppendAssoc(" ", Quote(args[0]), QuotedTail(args[1..]));
      ExpandPlain(" ", Quote(args[0]) + QuotedTail(args[1..]), env);
      ExpandQuote(args[0], QuotedTail(args[1..]), env);
      AppendAssoc(" ", Wrapped(args[0], env), WrappedTail(args[1..], env));
    }
  }

  function WrappedScript(cwd: string, cmd: string, args: seq<string>, env: Resolver): string {
    "cd " + (Wrapped(cwd, env) + (" && exec " + (Wrapped(cmd, env) + WrappedTail(args, env))))
  }

  lemma ScriptParts(cwd: string, cmd: string, tail: string)
    ensures "cd " + cwd + " && exec " + cmd + tail == "cd " + (cwd + (" && exec " + (cmd + tail)))
  {
  }

  /** The target's expansion of a wrapper, piece by piece. */
  lemma {:induction false} ExpandScript(cwd: string, cmd: string, args: seq<string>, env: Resolver)
    ensures Expand(WrapperScript(cwd, cmd, args), env) == WrappedScript(cwd, cmd, args, env)
  {
    var tail := Quote(cmd) + QuotedTail(args);
    ScriptParts(Quote(cwd), Quote(cmd), QuotedTail(args));
    ExpandPlain("cd ", Quote(cwd) + (" && exec " + tail), env);
    ExpandQuote(cwd, " && exec " + tail, env);
    ExpandPlain(" && exec ", tail, env);
    ExpandQuote(cmd, QuotedTail(args), env);
    ExpandTail(args, env);
  }

  // --------------------------------------------------- when values are quiet --

  lemma {:induction false} BodyAtQuote(a: string, b: string, env: Resolver)
    requires '\'' !in a
    ensures Body(a + ("'" + b), env) == Expand(a, env) + ("'\\''" + Body(b, env))
    ensures Expand(a + ("'" + b), env) == Expand(a, env) + ("'" + Expand(b, env))
    ensures QuietValues(a + ("'" + b), env) <==> QuietValues(a, env) && QuietValues(b, env)
  {
    QuoteBodyPlain(a);
    QuoteBodyAppend(a, "'" + b);
    QuoteBodyOfQuote(b);
    ExpandJoin(a, "'\\''" + QuoteBody(b), env);
    ExpandPlain("'\\''", QuoteBody(b), env);
    ExpandJoin(a, "'" + b, env);
    ExpandPlain("'", b, env);
    QuietJoin(Names(Segments(a)), Names(Segments(b)), env);
  }

  lemma {:induction false} QuietBody(t: string, env: Resolver)
    requires QuietValues(t, env)
    ensures Body(t, env) == QuoteBody(Expand(t, env))
    decreases |t|
  {
    var a, b := FirstQuote(t);
    if '\'' in t {
      BodyAtQuote(a, b, env);
      QuietPlain(a, env);
      QuietBody(b, env);
      QuoteBodyAppend(Expand(a, env), "'" + Expand(b, env));
      QuoteBodyOfQuote(Expand(b, env));
    } else {
      QuoteBodyPlain(t);
      QuietPlain(t, env);
    }
  }

  lemma {:induction false} QuietPlain(a: string, env: Resolver)
    requires '\'' !in a && QuietValues(a, env)
    ensures QuoteBody(Expand(a, env)) == Expand(a, env)
  {
    QuotesAdded(a, env);
    CountNone(a, '\'');
    CountNone(Expand(a, env), '\'');
    QuoteBodyPlain(Expand(a, env));
  }

  function ExpandAll(texts: seq<string>, env: Resolver): seq<string> { Each(texts, t => Expand(t, env)) }

  predicate AllQuiet(texts: seq<string>, env: Resolver) {
    forall i :: 0 <= i < |texts| ==> QuietValues(texts[i], env)
  }

  lemma {:induction false} QuietTail(args: seq<string>, env: Resolver)
    requires AllQuiet(args, env)
    ensures WrappedTail(args, env) == QuotedTail(ExpandAll(args, env))
  {
    if args == [] {
    } else {
      QuietBody(args[0], env);
      QuietTail(args[1..], env);
      assert ExpandAll(args, env)[1..] == ExpandAll(args[1..], env);
    }
  }

  /** With quiet values the expanded wrapper is the wrapper of the expanded texts. */
  lemma {:induction false} QuietScript(cwd: string, cmd: string, args: seq<string>, env: Resolver)
    requires QuietValues(cwd, env) && QuietValues(cmd, env) && AllQuiet(args, env)
    ensures WrappedScript(cwd, cmd, args, env)
            == WrapperScript(Expand(cwd, env), Expand(cmd, env), ExpandAll(args, env))
  {
    QuietBody(cwd, env);
    QuietBody(cmd, env);
    QuietTail(args, env);
    ScriptParts(Wrapped(cwd, env), Wrapped(cmd, env), WrappedTail(args, env));
  }

  // ------------------------------------------ what a reader can emit at most --

  /** The characters that quote or escape another one and can be emitted as well. */
  function Marks(s: string): nat { Count(s, '\'') + Count(s, '\\') }

  /** Reading `used` turned `had` into `got`: no double quote is made, and when none
      is used up, every further mark costs a backslash. */
  predicate Spends(had: string, used: string, got: string) {
    && Count(got, '"') <= Count(had, '"') + Count(used, '"')
    && (Count(got, '"') == Count(had, '"') + Count(used, '"') ==> Marks(got) <= Marks(had) + Count(used, '\\'))
  }

  lemma SpendsMore(had: string, used: string, got: string, more: string, last: string)
    requires Spends(had, used, got) && Spends(got, more, last)
    ensures Spends(had, used + more, last)
  {
    CountJoin(used, more, '"');
    CountJoin(used, more, '\\');
  }

  function Glue(words: seq<ScriptWord>): string {
    if words == [] then [] else words[0].text + Glue(words[1..])
  }

  lemma {:induction false} GlueJoin(a: seq<ScriptWord>, b: seq<ScriptWord>)
    ensures Glue(a + b) == Glue(a) + Glue(b)
  {
    if a == [] {
      assert a + b == b;
    } else {
      assert (a + b)[1..] == a[1..] + b;
      GlueJoin(a[1..], b);
      AppendAssoc(a[0].text, Glue(a[1..]), Glue(b));
    }
  }

  lemma {:induction false} ClosingIsFirst(s: string, i: nat, c: char)
    requires i <= |s|
    ensures c !in s[i..FindChar(s, c, i)]
    decreases |s| - i
  {
    var end := FindChar(s, c, i);
    if i < end {
      ClosingIsFirst(s, i + 1, c);
      assert s[i..end] == [s[i]] + s[i + 1..end];
    } else {
      assert s[i..end] == [];
    }
  }

  lemma {:induction false} SingleSpends(s: string, i: nat, cur: string)
    requires i < |s| && s[i] == '\''
    ensures var q := SingleStretch(s, i + 1); Spends(cur, s[i..q.next], cur + q.text)
  {
    var q := SingleStretch(s, i + 1);
    ClosingIsFirst(s, i + 1, '\'');
    CountNone(q.text, '\'');
    var close := s[i + 1 + |q.text|..q.next];
    assert s[i..q.next] == ["'"[0]] + q.text + close;
    assert close == [] || close == "'";
    CountJoin(["'"[0]] + q.text, close, '"');
    CountJoin(["'"[0]] + q.text, close, '\\');
  }

  lemma {:induction false} DoubleCount(s: string, i: nat, text: string)
    requires i <= |s|
    ensures var q := DoubleStretch(s, i, text); Count(q.text, '"') <= Count(text, '"') + Count(s[i..q.next], '"')
    decreases |s| - i
  {
    var q := DoubleStretch(s, i, text);
    if i == |s| || s[i] == '"' || (s[i] == '\\' && i + 1 == |s|) {
    } else {
      var k := if s[i] == '\\' then i + 1 else i;
      DoubleCount(s, k + 1, text + [s[k]]);
      assert s[i..q.next] == s[i..k] + ([s[k]] + s[k + 1..q.next]);
    }
  }

  lemma {:induction false} DoubleSpends(s: string, i: nat, cur: string)
    requires i < |s| && s[i] == '"'
    ensures var q := DoubleStretch(s, i + 1, cur); Spends(cur, s[i..q.next], q.text)
  {
    var q := DoubleStretch(s, i + 1, cur);
    DoubleCount(s, i + 1, cur);
    assert s[i..q.next] == "\"" + s[i + 1..q.next];
  }

  lemma {:induction false} RunIsOne(s: string, i: nat, c: char)
    requires i <= |s|
    ensures forall k :: i <= k < RunEnd(s, i, c) ==> s[k] == c
    decreases |s| - i
  {
    if i == |s| || s[i] != c {
    } else {
      RunIsOne(s, i + 1, c);
    }
  }

  lemma {:induction false} OperatorSpends(s: string, i: nat, cur: string)
    requires i < |s| && IsOperator(s[i])
    ensures var end := RunEnd(s, i + 1, s[i]); Spends(cur, s[i..end], cur + s[i..end])
  {
    var run := s[i..RunEnd(s, i + 1, s[i])];
    RunIsOne(s, i + 1, s[i]);
    forall c | c in run ensures c == s[i] {
    }
    CountNone(run, '\'');
    CountJoin(cur, run, '"');
    CountJoin(cur, run, '\'');
    CountJoin(cur, run, '\\');
  }

  lemma {:induction false} GlueOfFlush(lx: Lexer)
    ensures Glue(Flush(lx)) == lx.cur
  {
    assert lx.cur != [] || lx.quoted ==> Flush(lx)[1..] == [] && Glue([]) == [];
  }

  lemma {:induction false} EscapeSpends(s: string, i: nat, cur: string)
    requires i < |s| && s[i] == '\\'
    ensures if i + 1 < |s| then Spends(cur, s[i..i + 2], cur + [s[i + 1]]) else Spends(cur, s[i..i + 1], cur)
  {
    if i + 1 < |s| {
      assert s[i..i + 2] == [s[i], s[i + 1]];
    } else {
      assert s[i..i + 1] == [s[i]];
    }
  }

  lemma {:induction false} PlainSpends(s: string, i: nat, cur: string)
    requires i < |s| && s[i] != '\'' && s[i] != '\\'
    ensures Spends(cur, s[i..i + 1], cur + [s[i]]) && Spends(cur, s[i..i + 1], cur)
  {
    assert s[i..i + 1] == [s[i]];
  }

  lemma {:induction false} NoWords(cur: string)
    ensures Glue([]) + cur == cur
  {
  }

  lemma {:induction false} SpaceSpends(lx: Lexer, s: string, i: nat)
    requires i < |s| && IsWhitespace(s[i])
    ensures Spends(lx.cur, s[i..i + 1], Glue(Flush(lx)) + [])
  {
    GlueOfFlush(lx);
    PlainSpends(s, i, lx.cur);
    assert lx.cur + [] == lx.cur;
  }

  lemma {:induction false} RunSpends(lx: Lexer, s: string, i: nat)
    requires i < |s| && IsOperator(s[i])
    ensures var run := s[i..RunEnd(s, i + 1, s[i])];
            Spends(lx.cur, run, Glue(Flush(lx) + [ScriptWord(run, true)]) + [])
  {
    var run := s[i..RunEnd(s, i + 1, s[i])];
    OperatorSpends(s, i, lx.cur);
    GlueJoin(Flush(lx), [ScriptWord(run, true)]);
    GlueOfFlush(lx);
    GlueOne(ScriptWord(run, true));
    assert lx.cur + run + [] == lx.cur + run;
  }

  lemma {:induction false} GlueOne(w: ScriptWord)
    ensures Glue([w]) == w.text
  {
    assert [w][1..] == [] && Glue([]) == [];
    assert w.text + [] == w.text;
  }

  /** One move of the reader. */
  lemma {:induction false} StepSpends(lx: Lexer, s: string, i: nat)
    requires i < |s|
    ensures var r := Step(lx, s, i); Spends(lx.cur, s[i..r.next], Glue(r.words) + r.lx.cur)
  {
    var r, c := Step(lx, s, i), s[i];
    NoWords(r.lx.cur);
    if c == '\'' {
      SingleSpends(s, i, lx.cur);
    } else if c == '"' {
      DoubleSpends(s, i, lx.cur);
    } else if c == '\\' {
      EscapeSpends(s, i, lx.cur);
    } else if IsWhitespace(c) {
      SpaceSpends(lx, s, i);
    } else if IsOperator(c) {
      RunSpends(lx, s, i);
    } else {
      PlainSpends(s, i, lx.cur);
    }
  }

  lemma SpendsBehind(front: string, had: string, used: string, got: string)
    requires Spends(had, used, got)
    ensures Spends(front + had, used, front + got)
  {
    CountJoin(front, had, '"');
    CountJoin(front, got, '"');
    CountJoin(front, had, '\'');
    CountJoin(front, got, '\'');
    CountJoin(front, had, '\\');
    CountJoin(front, got, '\\');
  }

  lemma SpendsThen(had: string, used: string, front: string, mid: string, more: string, tail: string)
    requires Spends(had, used, front + mid) && Spends(mid, more, tail)
    ensures Spends(had, used + more, front + tail)
  {
    SpendsBehind(front, mid, more, tail);
    SpendsMore(had, used, front + mid, more, front + tail);
  }

  lemma {:induction false} WordsUnfold(lx: Lexer, s: string, i: nat)
    requires i < |s|
    ensures var r := Step(lx, s, i); Words(lx, s, i) == r.words + Words(r.lx, s, r.next)
  {
  }

  /** The whole reading, of any script. */
  lemma {:induction false} ReadSpends(lx: Lexer, s: string, i: nat)
    requires i <= |s|
    ensures Spends(lx.cur, s[i..], Glue(Words(lx, s, i)))
    decreases |s| - i
  {
    if i == |s| {
      GlueOfFlush(lx);
    } else {
      var r := Step(lx, s, i);
      StepSpends(lx, s, i);
      ReadSpends(r.lx, s, r.next);
      WordsUnfold(lx, s, i);
      GlueJoin(r.words, Words(r.lx, s, r.next));
      SpendsThen(lx.cur, s[i..r.next], Glue(r.words), r.lx.cur, s[r.next..], Glue(Words(r.lx, s, r.next)));
      SlicesJoin(s, i, r.next);
    }
  }

  // ----------------------------------------------- what the wrapper provides --

  /** A piece of the expanded script, the text it should read as, and the text it
      came from: one backslash for every mark, less the quotes of the values. */
  predicate Matches(piece: string, out: string, raw: string) {
    && Count(piece, '"') == Count(out, '"')
    && Count(piece, '\\') == Count(out, '\\') + Count(raw, '\'')
  }

  lemma MatchesJoin(p: string, o: string, r: string, p': string, o': string, r': string)
    requires Matches(p, o, r) && Matches(p', o', r')
    ensures Matches(p + p', o + o', r + r')
  {
    CountJoin(p, p', '"');
    CountJoin(o, o', '"');
    CountJoin(p, p', '\\');
    CountJoin(o, o', '\\');
    CountJoin(r, r', '\'');
  }

  /** A piece that reads as nothing and came from nothing. */
  lemma MatchesBetween(front: string, p: string, o: string, r: string, back: string)
    requires Matches(p, o, r) && Matches(front, [], []) && Matches(back, [], [])
    ensures Matches(front + p + back, o, r)
  {
    CountJoin(front + p, back, '"');
    CountJoin(front, p, '"');
    CountJoin(front + p, back, '\\');
    CountJoin(front, p, '\\');
  }

  lemma {:induction false} BodyMatches(t: string, env: Resolver)
    ensures Matches(Body(t, env), Expand(t, env), t)
    decreases |t|
  {
    var a, b := FirstQuote(t);
    if '\'' in t {
      BodyAtQuote(a, b, env);
      BodyMatches(b, env);
      CountNone(a, '\'');
      assert Matches("'\\''", "'", "'");
      assert Matches(Expand(a, env), Expand(a, env), a);
      MatchesJoin("'\\''", "'", "'", Body(b, env), Expand(b, env), b);
      MatchesJoin(Expand(a, env), Expand(a, env), a, "'\\''" + Body(b, env), "'" + Expand(b, env), "'" + b);
    } else {
      QuoteBodyPlain(t);
      CountNone(t, '\'');
    }
  }

  lemma {:induction false} WrappedMatches(front: string, t: string, env: Resolver)
    requires Matches(front, [], [])
    ensures Matches(front + Wrapped(t, env), Expand(t, env), t)
  {
    BodyMatches(t, env);
    MatchesBetween("'", Body(t, env), Expand(t, env), t, "'");
    MatchesBetween(front, Wrapped(t, env), Expand(t, env), t, "");
    assert front + Wrapped(t, env) + "" == front + Wrapped(t, env);
  }

  function Concat(texts: seq<string>): string {
    if texts == [] then [] else texts[0] + Concat(texts[1..])
  }

  lemma {:induction false} TailMatches(args: seq<string>, env: Resolver)
    ensures Matches(WrappedTail(args, env), Concat(ExpandAll(args, env)), Concat(args))
  {
    if args == [] {
    } else {
      TailMatches(args[1..], env);
      WrappedMatches(" ", args[0], env);
      assert ExpandAll(args, env)[1..] == ExpandAll(args[1..], env);
      MatchesJoin(" " + Wrapped(args[0], env), Expand(args[0], env), args[0],
                  WrappedTail(args[1..], env), Concat(ExpandAll(args[1..], env)), Concat(args[1..]));
    }
  }

  lemma MatchesThen(front: string, p: string, o: string, r: string, tail: string, o': string, r': string)
    requires Matches(front + p, o, r) && Matches(tail, o', r')
    ensures Matches(front + (p + tail), o + o', r + r')
  {
    AppendAssoc(front, p, tail);
    MatchesJoin(front + p, o, r, tail, o', r');
  }

  lemma {:induction false} CommandMatches(cmd: string, args: seq<string>, env: Resolver)
    ensures Matches(" && exec " + (Wrapped(cmd, env) + WrappedTail(args, env)),
                    Expand(cmd, env) + Concat(ExpandAll(args, env)), cmd + Concat(args))
  {
    TailMatches(args, env);
    KeywordMatches();
    WrappedMatches(" && exec ", cmd, env);
    MatchesThen(" && exec ", Wrapped(cmd, env), Expand(cmd, env), cmd,
                WrappedTail(args, env), Concat(ExpandAll(args, env)), Concat(args));
  }

  lemma KeywordMatches()
    ensures Matches(" && exec ", [], []) && Matches("cd ", [], [])
  {
  }

  lemma {:induction false} ScriptMatches(cwd: string, cmd: string, args: seq<string>, env: Resolver)
    ensures Matches(WrappedScript(cwd, cmd, args, env),
                    Expand(cwd, env) + (Expand(cmd, env) + Concat(ExpandAll(args, env))),
                    cwd + (cmd + Concat(args)))
  {
    CommandMatches(cmd, args, env);
    KeywordMatches();
    WrappedMatches("cd ", cwd, env);
    MatchesThen("cd ", Wrapped(cwd, env), Expand(cwd, env), cwd,
                " && exec " + (Wrapped(cmd, env) + WrappedTail(args, env)),
                Expand(cmd, env) + Concat(ExpandAll(args, env)), cmd + Concat(args));
  }

  lemma {:induction false} ExpandCons(cmd: string, args: seq<string>, env: Resolver)
    ensures ExpandAll([cmd] + args, env) == [Expand(cmd, env)] + ExpandAll(args, env)
    ensures AllQuiet([cmd] + args, env) <==> QuietValues(cmd, env) && AllQuiet(args, env)
  {
    var all := [cmd] + args;
    assert all[0] == cmd && all[1..] == args;
    assert forall i :: 0 <= i < |args| ==> all[i + 1] == args[i];
    assert forall i :: 1 <= i < |all| ==> all[i] == args[i - 1];
  }

  lemma {:induction false} QuotesInAll(texts: seq<string>, env: Resolver)
    ensures Count(Concat(ExpandAll(texts, env)), '\'') >= Count(Concat(texts), '\'')
    ensures Count(Concat(ExpandAll(texts, env)), '\'') == Count(Concat(texts), '\'') ==> AllQuiet(texts, env)
  {
    if texts == [] {
    } else {
      QuotesInAll(texts[1..], env);
      QuotesAdded(texts[0], env);
      assert ExpandAll(texts, env)[1..] == ExpandAll(texts[1..], env);
      CountJoin(texts[0], Concat(texts[1..]), '\'');
      CountJoin(Expand(texts[0], env), Concat(ExpandAll(texts[1..], env)), '\'');
      ExpandCons(texts[0], texts[1..], env);
      assert [texts[0]] + texts[1..] == texts;
    }
  }

  lemma {:induction false} GlueIsConcat(words: seq<ScriptWord>)
    ensures Glue(words) == Concat(Texts(words))
  {
    if words == [] {
    } else {
      GlueIsConcat(words[1..]);
    }
  }

  /** What a script launches, in characters. */
  lemma {:induction false} LaunchCount(script: string, l: Launch, c: char)
    requires ScriptLaunch(script) == Some(l) && c !in "cd&&exec"
    ensures Count(Glue(AllWords(script)), c) == Count(l.cwd.value + Concat(l.argv), c)
  {
    var w := AllWords(script);
    assert w == [w[0], w[1], w[2], w[3]] + w[4..];
    GlueJoin([w[0], w[1], w[2], w[3]], w[4..]);
    GlueIsConcat(w[4..]);
    FourGlued(w[0], w[1], w[2], w[3]);
    CountNone("cd", c);
    CountNone("&&", c);
    CountNone("exec", c);
  }

  lemma {:induction false} FourGlued(a: ScriptWord, b: ScriptWord, c: ScriptWord, d: ScriptWord)
    ensures Glue([a, b, c, d]) == a.text + (b.text + (c.text + d.text))
  {
    GlueOne(d);
    assert [c, d][1..] == [d] && Glue([c, d]) == c.text + Glue([d]);
    assert [b, c, d][1..] == [c, d] && Glue([b, c, d]) == b.text + Glue([c, d]);
    assert [a, b, c, d][1..] == [b, c, d];
  }

  /** The counts leave no room for a mark that a value brought along. */
  lemma NoRoom(script: string, read: string, out: string, raw: string)
    requires Spends([], script, read) && Matches(script, out, raw)
    requires Count(read, '"') == Count(out, '"') && Marks(read) == Marks(out)
    ensures Count(out, '\'') <= Count(raw, '\'')
  {
  }

  lemma {:induction false} ReadsAs(script: string, l: Launch)
    requires ScriptLaunch(script) == Some(l)
    ensures var read, out := Glue(AllWords(script)), l.cwd.value + Concat(l.argv);
            && Count(read, '"') == Count(out, '"') && Marks(read) == Marks(out)
            && Spends([], script, read)
  {
    LaunchCount(script, l, '"');
    LaunchCount(script, l, '\'');
    LaunchCount(script, l, '\\');
    ReadSpends(START, script, 0);
    assert script[0..] == script;
  }

  lemma {:induction false} ConcatCons(first: string, rest: seq<string>)
    ensures Concat([first] + rest) == first + Concat(rest)
  {
    assert ([first] + rest)[1..] == rest;
  }

  lemma {:induction false} QuotesInLaunch(cwd: string, cmd: string, args: seq<string>, env: Resolver)
    requires Count(Expand(cwd, env) + (Expand(cmd, env) + Concat(ExpandAll(args, env))), '\'')
             <= Count(cwd + (cmd + Concat(args)), '\'')
    ensures QuietValues(cwd, env) && QuietValues(cmd, env) && AllQuiet(args, env)
  {
    QuotesInAll(args, env);
    QuotesAdded(cwd, env);
    QuotesAdded(cmd, env);
    CountJoin(cwd, cmd + Concat(args), '\'');
    CountJoin(cmd, Concat(args), '\'');
    CountJoin(Expand(cwd, env), Expand(cmd, env) + Concat(ExpandAll(args, env)), '\'');
    CountJoin(Expand(cmd, env), Concat(ExpandAll(args, env)), '\'');
  }

  /** If the expanded wrapper launches the expanded texts, no value held a quote. */
  lemma {:induction false} LaunchedMeansQuiet(cwd: string, cmd: string, args: seq<string>, env: Resolver)
    requires ScriptLaunch(WrappedScript(cwd, cmd, args, env))
             == Some(Launch(Some(Expand(cwd, env)), [Expand(cmd, env)] + ExpandAll(args, env)))
    ensures QuietValues(cwd, env) && QuietValues(cmd, env) && AllQuiet(args, env)
  {
    var script := WrappedScript(cwd, cmd, args, env);
    var outs := [Expand(cmd, env)] + ExpandAll(args, env);
    ReadsAs(script, Launch(Some(Expand(cwd, env)), outs));
    ConcatCons(Expand(cmd, env), ExpandAll(args, env));
    ScriptMatches(cwd, cmd, args, env);
    NoRoom(script, Glue(AllWords(script)), Expand(cwd, env) + Concat(outs), cwd + (cmd + Concat(args)));
    QuotesInLaunch(cwd, cmd, args, env);
  }

  /** The expanded wrapper launches the expanded texts if and only if no value put
      for a reference of theirs holds a single quote. */
  lemma {:induction false} ExpandedLaunchExactly(cwd: string, cmd: string, args: seq<string>, env: Resolver)
    ensures ScriptLaunch(Expand(WrapperScript(cwd, cmd, args), env))
            == Some(Launch(Some(Expand(cwd, env)), [Expand(cmd, env)] + ExpandAll(args, env)))
            <==> QuietValues(cwd, env) && QuietValues(cmd, env) && AllQuiet(args, env)
  {
    ExpandScript(cwd, cmd, args, env);
    if QuietValues(cwd, env) && QuietValues(cmd, env) && AllQuiet(args, env) {
      QuietScript(cwd, cmd, args, env);
      WrapperLaunches(Expand(cwd, env), Expand(cmd, env), ExpandAll(args, env));
    } else if ScriptLaunch(Expand(WrapperScript(cwd, cmd, args), env))
              == Some(Launch(Some(Expand(cwd, env)), [Expand(cmd, env)] + ExpandAll(args, env))) {
      LaunchedMeansQuiet(cwd, cmd, args, env);
    }
  }

  // ----------------------------------------------------------- whole entries --

  /** A launch after the target has put its values for the references. */
  function Expanded(l: Launch, env: Resolver): Launch {
    Launch(if l.cwd.Some? then Some(Expand(l.cwd.value, env)) else None, ExpandAll(l.argv, env))
  }

  /** No value the target puts into the launch holds a single quote. */
  predicate QuietLaunch(l: Launch, env: Resolver) {
    (l.cwd.Some? ==> QuietValues(l.cwd.value, env)) && AllQuiet(l.argv, env)
  }

  lemma {:induction false} ExpandLiteral(t: string, env: Resolver)
    requires '$' !in t
    ensures Expand(t, env) == t
  {
    ExpandPlain(t, "", env);
    assert t + "" == t && Expand("", env) == "";
  }

  lemma {:induction false} ExpandShell(script: string, env: Resolver)
    ensures Expanded(Launch(None, ["sh", "-c", script]), env) == Launch(None, ["sh", "-c", Expand(script, env)])
  {
    ExpandLiteral("sh", env);
    ExpandLiteral("-c", env);
    assert ExpandAll(["sh", "-c", script], env) == ["sh", "-c", Expand(script, env)];
  }

  lemma {:induction false} PassedThrough(texts: seq<string>, resolver: Resolver)
    ensures SubAll(texts, resolver, true) == texts
  {
    assert forall i :: 0 <= i < |texts| ==> SubText(texts[i], resolver, true) == texts[i];
  }

  /** The wrapper in its entry, expanded and read as `sh -c`. */
  lemma {:induction false} ExpandedEntryLaunch(cwd: string, cmd: string, args: seq<string>, env: Resolver)
    ensures var entry, wanted := Launch(None, ["sh", "-c", WrapperScript(cwd, cmd, args)]),
                                 Launch(Some(cwd), [cmd] + args);
            ShellLaunch(Some(Expanded(entry, env))) == Some(Expanded(wanted, env)) <==> QuietLaunch(wanted, env)
  {
    ExpandShell(WrapperScript(cwd, cmd, args), env);
    ExpandedLaunchExactly(cwd, cmd, args, env);
    ExpandCons(cmd, args, env);
    var argv := ["sh", "-c", Expand(WrapperScript(cwd, cmd, args), env)];
    assert argv[..2] == ["sh", "-c"];
  }

  /** On an adapter that leaves references to the target, the rewrite still launches
      what the manifest asks for, the target's values in place, if and only if the
      script has somewhere to go and none of those values holds a single quote. */
  lemma {:induction false} PassthroughWrapPreservesLaunch(
    id: string, mcp: McpSpec, s: Server, resolver: Resolver, body: Assoc<Value>, env: Resolver)
    requires DistinctFields(mcp) && ExtrasApart(id, mcp, s) && Renders(id, mcp, s, resolver, body)
    requires Wraps(mcp, s) && mcp.passthrough
    ensures NativeLaunch(mcp, body).Some?
    ensures var wanted := ManifestLaunch(mcp, s, resolver);
            ShellLaunch(Some(Expanded(NativeLaunch(mcp, body).value, env))) == Some(Expanded(wanted, env))
            <==> (mcp.commandArray || mcp.fields.args.Some?) && QuietLaunch(wanted, env)
  {
    WrappedEntryLaunch(id, mcp, s, resolver, body);
    PassedThrough(s.args, resolver);
    if mcp.commandArray || mcp.fields.args.Some? {
      ExpandedEntryLaunch(s.cwd.value, s.command.value, s.args, env);
    } else {
      assert |ExpandAll(["sh"], env)| == 1;
    }
  }

  /** An input that fails: a directory given by a reference, whose value at the
      target holds a single quote. */
  lemma {:induction false} QuoteInDirectoryBreaksWrap(
    id: string, mcp: McpSpec, s: Server, resolver: Resolver, body: Assoc<Value>, env: Resolver, name: string)
    requires DistinctFields(mcp) && ExtrasApart(id, mcp, s) && Renders(id, mcp, s, resolver, body)
    requires Wraps(mcp, s) && mcp.passthrough && (mcp.commandArray || mcp.fields.args.Some?)
    requires IsRefName(name) && s.cwd == Some("${" + name + "}")
    requires env(name).Found? && '\'' in env(name).value
    ensures ShellLaunch(NativeLaunch(mcp, body)) == Some(ManifestLaunch(mcp, s, resolver))
    ensures ShellLaunch(Some(Expanded(NativeLaunch(mcp, body).value, env)))
            != Some(Expanded(ManifestLaunch(mcp, s, resolver), env))
  {
    WrapPreservesLaunch(id, mcp, s, resolver, body);
    PassthroughWrapPreservesLaunch(id, mcp, s, resolver, body, env);
    ReferenceReads(name);
    assert Names([Ref(name)]) == [name];
    QuietOne(name, env);
  }
}
