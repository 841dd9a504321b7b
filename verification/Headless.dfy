/** Headless argv templates (crates/adapters/src/descriptor.rs): what load-time
    validation accepts, and the shape of every argv built from it. */
module Headless {
  import opened Text

  const PROMPT := "{prompt}"
  const MODEL := "{model}"
  const EFFORT := "{effort}"
  const CONFIG_PATH := "{mcp_config_path}"
  const SERVERS_TOML := "{mcp_servers_toml}"
  const TERMINATOR := "--"
  const MAX_SELECTION_VALUE_BYTES := 64

  // ------------------------------------------------------------- templates --

  /** One whole `{prompt}` element, the only `--` right before it. */
  ghost predicate GuardedAt(args: seq<string>, i: int) {
    && 1 <= i < |args| && args[i] == PROMPT && args[i - 1] == TERMINATOR
    && (forall j :: 0 <= j < |args| && j != i ==> !Contains(args[j], PROMPT))
    && (forall j :: 0 <= j < |args| && j != i - 1 ==> args[j] != TERMINATOR)
  }

  ghost predicate AcceptedTemplate(args: seq<string>) { exists i :: GuardedAt(args, i) }

  lemma PromptContainsItself()
    ensures Contains(PROMPT, PROMPT)
  {
    assert OccursAt(PROMPT, PROMPT, 0);
  }

  /** The validating constructor of a template: the index of the placeholder. */
  method ValidateTemplate(args: seq<string>) returns (at: Option<nat>)
    ensures at.Some? ==> GuardedAt(args, at.value)
    ensures at.None? ==> !AcceptedTemplate(args)
  {
    PromptContainsItself();
    at := None;
    for i := 0 to |args|
      invariant at.Some? ==> at.value < i && args[at.value] == PROMPT
      invariant forall j :: 0 <= j < i && Contains(args[j], PROMPT) ==> at == Some(j)
    {
      if args[i] == PROMPT {
        if at.Some? {
          assert Contains(args[at.value], PROMPT) && Contains(args[i], PROMPT);
          return None;
        }
        at := Some(i);
      } else if Contains(args[i], PROMPT) {
        return None;
      }
    }
    if at.None? {
      return;
    }
    var i := at.value;
    if i == 0 || args[i - 1] != TERMINATOR {
      assert forall k :: GuardedAt(args, k) ==> k == i;
      return None;
    }
    for j := 0 to |args|
      invariant forall m :: 0 <= m < j && m != i - 1 ==> args[m] != TERMINATOR
    {
      if args[j] == TERMINATOR && j != i - 1 {
        assert forall k :: GuardedAt(args, k) ==> k == i;
        return None;
      }
    }
  }

  // ------------------------------------------------------------------- argv --

  /** The template with the injected flags spliced in before the guard. */
  function Argv(args: seq<string>, at: nat, prompt: string, injection: seq<string>): seq<string>
    requires 1 <= at < |args|
  {
    args[..at - 1] + injection + [args[at - 1], prompt] + args[at + 1..]
  }

  /** `argv_with_injection`: push every element, and pop the guard when the
      placeholder comes. The pop never meets an empty vector. */
  method ArgvWithInjection(args: seq<string>, ghost at: nat, prompt: string, injection: seq<string>)
    returns (out: seq<string>)
    requires GuardedAt(args, at)
    ensures out == Argv(args, at, prompt, injection)
  {
    PromptContainsItself();
    out := [];
    for k := 0 to |args|
      invariant k <= at ==> out == args[..k]
      invariant k > at ==> out == args[..at - 1] + injection + [args[at - 1], prompt] + args[at + 1..k]
    {
      if args[k] == PROMPT {
        assert Contains(args[k], PROMPT);
        assert k == at;
        var terminator := out[|out| - 1];
        out := out[..|out| - 1];
        out := out + injection;
        out := out + [terminator];
        out := out + [prompt];
      } else {
        assert k != at;
        out := out + [args[k]];
      }
    }
  }

  /** The first `--`. */
  predicate FirstTerminator(argv: seq<string>, g: nat) {
    g < |argv| && argv[g] == TERMINATOR && forall j :: 0 <= j < g ==> argv[j] != TERMINATOR
  }

  /** Where everything lands: the injected flags in order in the options region,
      the guard right after them, the prompt one whole element right after that. */
  lemma {:induction false} ArgvLayout(args: seq<string>, at: nat, prompt: string, injection: seq<string>)
    requires GuardedAt(args, at)
    ensures var argv := Argv(args, at, prompt, injection);
            var g := at - 1 + |injection|;
            && |argv| == |args| + |injection|
            && argv[..at - 1] == args[..at - 1]
            && argv[at - 1..g] == injection
            && argv[g] == TERMINATOR && argv[g + 1] == prompt
            && argv[g + 2..] == args[at + 1..]
  {
  }

  /** The guard right before the prompt is the first `--` of the argv exactly
      when no injected element is itself `--`. */
  lemma {:induction false} GuardIsFirst(args: seq<string>, at: nat, prompt: string, injection: seq<string>)
    requires GuardedAt(args, at)
    ensures FirstTerminator(Argv(args, at, prompt, injection), at - 1 + |injection|) <==> TERMINATOR !in injection
  {
    var argv, g := Argv(args, at, prompt, injection), at - 1 + |injection|;
    ArgvLayout(args, at, prompt, injection);
    assert forall j :: 0 <= j < at - 1 ==> argv[j] == args[j];
    assert forall j :: 0 <= j < |injection| ==> argv[at - 1 + j] == injection[j];
    assert forall j :: at - 1 <= j < g ==> argv[j] == injection[j - (at - 1)];
  }

  /** Two prompts give argvs that differ at one index only. */
  lemma {:induction false} PromptIsOneElement(args: seq<string>, at: nat, p: string, q: string, injection: seq<string>)
    requires GuardedAt(args, at)
    ensures var g := at + |injection|;
            Argv(args, at, q, injection) == Argv(args, at, p, injection)[g := q]
  {
  }

  // ------------------------------------------------------------ injections --

  predicate IsBraced(a: string) { a != [] && a[0] == '{' && a[|a| - 1] == '}' }

  /** An element of an injection block that is passed on as it stands. */
  predicate IsPlainFlag(a: string) {
    && a != TERMINATOR && !IsBraced(a)
    && !Contains(a, CONFIG_PATH) && !Contains(a, SERVERS_TOML) && !Contains(a, PROMPT)
  }

  predicate IsInjectionValue(a: string) { a == CONFIG_PATH || a == SERVERS_TOML }

  ghost predicate AcceptedInjection(args: seq<string>) {
    && (forall i :: 0 <= i < |args| ==> IsInjectionValue(args[i]) || IsPlainFlag(args[i]))
    && (forall i, j :: 0 <= i < j < |args| && IsInjectionValue(args[i]) ==> args[i] != args[j])
    && exists i :: 0 <= i < |args| && IsInjectionValue(args[i])
  }

  /** The validating loop of an injection block. */
  method ValidateInjection(args: seq<string>) returns (ok: bool)
    ensures ok <==> AcceptedInjection(args)
  {
    var seenPath, seenToml := false, false;
    for i := 0 to |args|
      invariant seenPath <==> CONFIG_PATH in args[..i]
      invariant seenToml <==> SERVERS_TOML in args[..i]
      invariant forall j :: 0 <= j < i ==> IsInjectionValue(args[j]) || IsPlainFlag(args[j])
      invariant forall j, k :: 0 <= j < k < i && IsInjectionValue(args[j]) ==> args[j] != args[k]
    {
      assert args[..i + 1] == args[..i] + [args[i]];
      if args[i] == CONFIG_PATH {
        if seenPath {
          return false;
        }
        seenPath := true;
      } else if args[i] == SERVERS_TOML {
        if seenToml {
          return false;
        }
        seenToml := true;
      } else if !IsPlainFlag(args[i]) {
        return false;
      }
    }
    assert args[..|args|] == args;
    ok := seenPath || seenToml;
  }

  /** Whole-element substitution; a value nobody rendered is an error. */
  function InjectionArgv(args: seq<string>, path: Option<string>, toml: Option<string>): Option<seq<string>> {
    if args == [] then Some([])
    else
      var head := if args[0] == CONFIG_PATH then path else if args[0] == SERVERS_TOML then toml else Some(args[0]);
      var rest := InjectionArgv(args[1..], path, toml);
      if head.None? || rest.None? then None else Some([head.value] + rest.value)
  }

  /** An accepted block injects no `--` exactly when no value it uses is `--`. */
  lemma {:induction false} InjectionHasNoTerminator(args: seq<string>, path: Option<string>, toml: Option<string>)
    requires forall i :: 0 <= i < |args| ==> IsInjectionValue(args[i]) || IsPlainFlag(args[i])
    requires InjectionArgv(args, path, toml).Some?
    ensures TERMINATOR !in InjectionArgv(args, path, toml).value
            <==> && (CONFIG_PATH in args ==> path != Some(TERMINATOR))
                 && (SERVERS_TOML in args ==> toml != Some(TERMINATOR))
  {
    if args == [] {
    } else {
      InjectionHasNoTerminator(args[1..], path, toml);
      assert IsInjectionValue(args[0]) || IsPlainFlag(args[0]);
      var got, rest := InjectionArgv(args, path, toml).value, InjectionArgv(args[1..], path, toml).value;
      assert got == [got[0]] + rest;
      assert TERMINATOR in got <==> got[0] == TERMINATOR || TERMINATOR in rest;
      assert forall x :: x in args <==> x == args[0] || x in args[1..];
    }
  }

  /** The placeholders never reach the child. */
  lemma {:induction false} InjectionArgvFails(args: seq<string>, path: Option<string>, toml: Option<string>)
    ensures InjectionArgv(args, path, toml).None?
            <==> (CONFIG_PATH in args && path.None?) || (SERVERS_TOML in args && toml.None?)
  {
    if args == [] {
    } else {
      InjectionArgvFails(args[1..], path, toml);
      assert forall x :: x in args <==> x == args[0] || x in args[1..];
    }
  }

  // ------------------------------------------------------------- selections --

  datatype Dimension = Model | Effort

  function Placeholder(d: Dimension): (p: string)
    ensures |p| >= 7
  {
    if d.Model? then MODEL else EFFORT
  }

  /** Occurrences, none overlapping another. */
  function Occurrences(a: string, p: string): nat
    requires p != []
    decreases |a|
  {
    var at := Find(a, p);
    if at < |a| && OccursAt(a, p, at) then 1 + Occurrences(a[at + |p|..], p) else 0
  }

  function TotalOccurrences(args: seq<string>, p: string): nat
    requires p != []
  {
    if args == [] then 0 else Occurrences(args[0], p) + TotalOccurrences(args[1..], p)
  }

  /** `str::replace` */
  function Replace(a: string, p: string, v: string): string
    requires p != []
    decreases |a|
  {
    var at := Find(a, p);
    if at < |a| && OccursAt(a, p, at) then a[..at] + v + Replace(a[at + |p|..], p, v) else a
  }

  /** The placeholders that have no business in a fragment for `d`. */
  function Foreign(d: Dimension): set<string> {
    {PROMPT, CONFIG_PATH, SERVERS_TOML, if d.Model? then EFFORT else MODEL}
  }

  predicate IsFragmentElement(a: string, own: string, foreign: set<string>) {
    && a != TERMINATOR
    && (forall p :: p in foreign ==> !Contains(a, p))
    && (a == own || !IsBraced(a))
  }

  ghost predicate AcceptedFragment(args: seq<string>, own: string, foreign: set<string>)
    requires own != []
  {
    && args != []
    && (forall i :: 0 <= i < |args| ==> IsFragmentElement(args[i], own, foreign))
    && TotalOccurrences(args, own) == 1
  }

  ghost predicate AcceptedSelection(args: seq<string>, d: Dimension) {
    AcceptedFragment(args, Placeholder(d), Foreign(d))
  }

  lemma {:induction false} TotalSnoc(args: seq<string>, a: string, p: string)
    requires p != []
    ensures TotalOccurrences(args + [a], p) == TotalOccurrences(args, p) + Occurrences(a, p)
  {
    if args == [] {
      assert (args + [a])[1..] == [];
    } else {
      TotalSnoc(args[1..], a, p);
      assert (args + [a])[1..] == args[1..] + [a];
    }
  }

  /** The validating loop of a selection fragment. */
  method ValidateFragment(args: seq<string>, own: string, foreign: set<string>) returns (ok: bool)
    requires own != []
    ensures ok <==> AcceptedFragment(args, own, foreign)
  {
    if args == [] {
      return false;
    }
    var occurrences := 0;
    for i := 0 to |args|
      invariant occurrences == TotalOccurrences(args[..i], own)
      invariant forall j :: 0 <= j < i ==> IsFragmentElement(args[j], own, foreign)
    {
      assert args[..i + 1] == args[..i] + [args[i]];
      TotalSnoc(args[..i], args[i], own);
      if !IsFragmentElement(args[i], own, foreign) {
        return false;
      }
      occurrences := occurrences + Occurrences(args[i], own);
    }
    assert args[..|args|] == args;
    ok := occurrences == 1;
  }

  method ValidateSelection(args: seq<string>, d: Dimension) returns (ok: bool)
    ensures ok <==> AcceptedSelection(args, d)
  {
    ok := ValidateFragment(args, Placeholder(d), Foreign(d));
  }

  function SelectionArgv(args: seq<string>, d: Dimension, value: string): (r: seq<string>)
    ensures |r| == |args|
    ensures forall i :: 0 <= i < |r| ==> r[i] == Replace(args[i], Placeholder(d), value)
  {
    if args == [] then [] else [Replace(args[0], Placeholder(d), value)] + SelectionArgv(args[1..], d, value)
  }

  predicate IsPermittedChar(c: char) { IsAsciiAlnum(c) || c in {'.', '_', '-', ':', '/', '@'} }

  /** `check_selection_value`: an enum's options are authoritative, anything else
      is bounded. */
  predicate AcceptsValue(options: Option<seq<string>>, value: string) {
    match options
    case Some(legal) => value in legal
    case None =>
      && value != [] && Utf8Len(value) <= MAX_SELECTION_VALUE_BYTES
      && forall i :: 0 <= i < |value| ==> IsPermittedChar(value[i])
  }

  predicate AllDashes(s: string) { forall i :: 0 <= i < |s| ==> s[i] == '-' }

  /** A value with any other character than a dash keeps its element from
      reading as the terminator. */
  lemma {:induction false} ReplaceIsNotTerminator(a: string, p: string, v: string)
    requires p != [] && a != TERMINATOR && !AllDashes(v)
    ensures Replace(a, p, v) != TERMINATOR
  {
    var at := Find(a, p);
    if at < |a| && OccursAt(a, p, at) {
      var k :| 0 <= k < |v| && v[k] != '-';
      var rest := Replace(a[at + |p|..], p, v);
      assert (a[..at] + v + rest)[at + k] == v[k];
    }
  }

  /** What `select` can deliver: nothing known, nothing per launch, or arguments. */
  datatype Selection = Args(args: seq<string>) | NoNotion | NotPerLaunch(key: string) | Refused

  /** `select` for one dimension: the catalog key, the validated fragment, and the
      key's enum options when it is an enum. */
  function Select(key: Option<string>, fragment: Option<seq<string>>, options: Option<seq<string>>,
                  d: Dimension, value: string): Selection
  {
    if key.None? then NoNotion
    else if fragment.None? then NotPerLaunch(key.value)
    else if !AcceptsValue(options, value) then Refused
    else Args(SelectionArgv(fragment.value, d, value))
  }

  /** Every argument list `select` delivers for an accepted fragment is free of
      `--` when the value has some character other than a dash. */
  lemma {:induction false} SelectionHasNoTerminator(
    key: Option<string>, args: seq<string>, options: Option<seq<string>>, d: Dimension, value: string)
    requires AcceptedSelection(args, d) && !AllDashes(value)
    requires Select(key, Some(args), options, d, value).Args?
    ensures TERMINATOR !in Select(key, Some(args), options, d, value).args
  {
    var out := Select(key, Some(args), options, d, value).args;
    forall i | 0 <= i < |out| ensures out[i] != TERMINATOR {
      assert IsFragmentElement(args[i], Placeholder(d), Foreign(d));
      ReplaceIsNotTerminator(args[i], Placeholder(d), value);
    }
  }

  // ------------------------------------------------ values made of dashes only --

  /** The element without its placeholder. */
  function Residue(a: string, p: string): string
    requires p != [] && Occurrences(a, p) == 1
  {
    var at := Find(a, p);
    a[..at] + a[at + |p|..]
  }

  /** Element and value together spell the terminator. */
  predicate SpellsTerminator(a: string, p: string, value: string)
    requires p != [] && Occurrences(a, p) == 1
  {
    AllDashes(Residue(a, p)) && AllDashes(value) && |Residue(a, p)| + |value| == 2
  }

  lemma {:induction false} ReplaceNone(a: string, p: string, v: string)
    requires p != [] && Occurrences(a, p) == 0
    ensures Replace(a, p, v) == a
  {
  }

  lemma {:induction false} AllDashesJoin(a: string, b: string)
    ensures AllDashes(a + b) <==> AllDashes(a) && AllDashes(b)
  {
    var s := a + b;
    if AllDashes(s) {
      assert forall k :: 0 <= k < |a| ==> s[k] == a[k];
      assert forall k :: 0 <= k < |b| ==> s[|a| + k] == b[k];
    }
  }

  lemma {:induction false} TerminatorIsTwoDashes(s: string)
    ensures s == TERMINATOR <==> AllDashes(s) && |s| == 2
  {
    assert TERMINATOR == ['-', '-'];
  }

  lemma {:induction false} ReplaceOnce(a: string, p: string, v: string)
    requires p != [] && Occurrences(a, p) == 1
    ensures Replace(a, p, v) == TERMINATOR <==> SpellsTerminator(a, p, v)
  {
    var at := Find(a, p);
    var before, after := a[..at], a[at + |p|..];
    ReplaceNone(after, p, v);
    assert Replace(a, p, v) == before + v + after;
    AllDashesJoin(before + v, after);
    AllDashesJoin(before, v);
    AllDashesJoin(before, after);
    TerminatorIsTwoDashes(before + v + after);
  }

  lemma {:induction false} ElementOccurrences(args: seq<string>, p: string, i: nat)
    requires p != [] && i < |args|
    ensures Occurrences(args[i], p) <= TotalOccurrences(args, p)
  {
    if i == 0 {
    } else {
      ElementOccurrences(args[1..], p, i - 1);
    }
  }

  /** Exactly when a delivered selection holds a `--`: the value consists of
      dashes and completes the placeholder's own element to two of them. */
  lemma {:induction false} SelectionTerminatorExactly(args: seq<string>, d: Dimension, value: string)
    requires AcceptedSelection(args, d)
    ensures TERMINATOR in SelectionArgv(args, d, value)
            <==> exists i :: 0 <= i < |args| && Occurrences(args[i], Placeholder(d)) == 1
                             && SpellsTerminator(args[i], Placeholder(d), value)
  {
    var p, out := Placeholder(d), SelectionArgv(args, d, value);
    forall i | 0 <= i < |args|
      ensures out[i] == TERMINATOR <==> Occurrences(args[i], p) == 1 && SpellsTerminator(args[i], p, value)
    {
      ElementOccurrences(args, p, i);
      assert IsFragmentElement(args[i], Placeholder(d), Foreign(d));
      if Occurrences(args[i], p) == 0 {
        ReplaceNone(args[i], p, value);
      } else {
        ReplaceOnce(args[i], p, value);
      }
    }
    if TERMINATOR in out {
      var i :| 0 <= i < |out| && out[i] == TERMINATOR;
      assert Occurrences(args[i], p) == 1 && SpellsTerminator(args[i], p, value);
    }
  }

  /** A fragment that is the bare placeholder, and a value of two dashes: both
      pass validation, and the terminator lands in the options region. */
  lemma {:induction false} DashValueEndsOptions()
    ensures AcceptedSelection([MODEL], Model) && AcceptsValue(None, TERMINATOR)
    ensures SelectionArgv([MODEL], Model, TERMINATOR) == [TERMINATOR]
  {
    assert OccursAt(MODEL, MODEL, 0);
    assert Find(MODEL, MODEL) == 0;
    assert MODEL[|MODEL|..] == [];
    assert Occurrences([], MODEL) == 0;
    assert Occurrences(MODEL, MODEL) == 1;
    assert [MODEL][1..] == [];
    assert TotalOccurrences([MODEL], MODEL) == 1;
    assert Replace([], MODEL, TERMINATOR) == [];
    assert MODEL[..0] + TERMINATOR + [] == TERMINATOR;
    assert "--"[1..] == "-" && "-"[1..] == [];
    assert Utf8Len("-") == 1 && Utf8Len("--") == 2;
  }

  // -------------------------------------------------------- the whole launch --

  /** A requested model or effort: the adapter's fragment, the enum options of its
      key when it is an enum, and the value. */
  datatype Choice = Choice(fragment: seq<string>, options: Option<seq<string>>, value: string)

  ghost predicate AcceptedChoice(c: Option<Choice>, d: Dimension) {
    c.Some? ==> AcceptedSelection(c.value.fragment, d) && AcceptsValue(c.value.options, c.value.value)
  }

  function Delivered(c: Option<Choice>, d: Dimension): seq<string> {
    if c.Some? then SelectionArgv(c.value.fragment, d, c.value.value) else []
  }

  /** The value consists of dashes and completes its element to `--`. */
  ghost predicate CompletesTerminator(c: Option<Choice>, d: Dimension) {
    && c.Some?
    && var args, p := c.value.fragment, Placeholder(d);
       exists i :: 0 <= i < |args| && Occurrences(args[i], p) == 1 && SpellsTerminator(args[i], p, c.value.value)
  }

  lemma {:induction false} DeliveredTerminator(c: Option<Choice>, d: Dimension)
    requires AcceptedChoice(c, d)
    ensures TERMINATOR in Delivered(c, d) <==> CompletesTerminator(c, d)
    ensures c.Some? && !AllDashes(c.value.value) ==> !CompletesTerminator(c, d)
  {
    if c.Some? {
      SelectionTerminatorExactly(c.value.fragment, d, c.value.value);
    }
  }

  /** One launch: what is spliced into the template. */
  datatype Splice = Splice(
    block: seq<string>, path: Option<string>, toml: Option<string>, model: Option<Choice>, effort: Option<Choice>)

  /** Every part passed its own validation, and the block found its values. */
  ghost predicate AcceptedSplice(sp: Splice) {
    && (sp.block == [] || AcceptedInjection(sp.block))
    && InjectionArgv(sp.block, sp.path, sp.toml).Some?
    && AcceptedChoice(sp.model, Model) && AcceptedChoice(sp.effort, Effort)
  }

  /** The injection block first, then the selections. */
  ghost function Spliced(sp: Splice): seq<string>
    requires AcceptedSplice(sp)
  {
    InjectionArgv(sp.block, sp.path, sp.toml).value + Delivered(sp.model, Model) + Delivered(sp.effort, Effort)
  }

  /** No injection value is `--`, and no selection value completes one. */
  ghost predicate NothingEndsOptions(sp: Splice) {
    && (CONFIG_PATH in sp.block ==> sp.path != Some(TERMINATOR))
    && (SERVERS_TOML in sp.block ==> sp.toml != Some(TERMINATOR))
    && !CompletesTerminator(sp.model, Model) && !CompletesTerminator(sp.effort, Effort)
  }

  lemma {:induction false} SplicedTerminator(sp: Splice)
    requires AcceptedSplice(sp)
    ensures TERMINATOR !in Spliced(sp) <==> NothingEndsOptions(sp)
  {
    InjectionHasNoTerminator(sp.block, sp.path, sp.toml);
    DeliveredTerminator(sp.model, Model);
    DeliveredTerminator(sp.effort, Effort);
    InThree(TERMINATOR, InjectionArgv(sp.block, sp.path, sp.toml).value,
            Delivered(sp.model, Model), Delivered(sp.effort, Effort));
  }

  /** The injection stands in order before a `--`, and the prompt is the one
      element right after it. */
  ghost predicate PromptAfterGuard(argv: seq<string>, from: nat, injection: seq<string>, prompt: string) {
    && from + |injection| + 1 < |argv|
    && argv[from..from + |injection|] == injection
    && argv[from + |injection|] == TERMINATOR && argv[from + |injection| + 1] == prompt
  }

  /** Wherever the injection came from, it, the guard and the prompt stand in
      that order. */
  lemma {:induction false} PromptIsGuarded(template: seq<string>, at: nat, prompt: string, injection: seq<string>)
    requires GuardedAt(template, at)
    ensures PromptAfterGuard(Argv(template, at, prompt, injection), at - 1, injection, prompt)
  {
    ArgvLayout(template, at, prompt, injection);
  }

  /** For every launch of an accepted template with accepted fragments, whatever
      the prompt: the guard before it is the first `--` of the argv exactly when
      no rendered injection value is itself `--` and no selection value of dashes
      completes its element to one. */
  lemma {:induction false} LaunchIsGuarded(template: seq<string>, at: nat, prompt: string, sp: Splice)
    requires GuardedAt(template, at) && AcceptedSplice(sp)
    ensures FirstTerminator(Argv(template, at, prompt, Spliced(sp)), at - 1 + |Spliced(sp)|) <==> NothingEndsOptions(sp)
  {
    SplicedTerminator(sp);
    GuardIsFirst(template, at, prompt, Spliced(sp));
  }

  lemma InThree(x: string, a: seq<string>, b: seq<string>, c: seq<string>)
    ensures x in a + b + c <==> x in a || x in b || x in c
  {
  }
}
