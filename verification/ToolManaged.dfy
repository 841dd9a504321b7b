/** The tool-managed classification of an imported server
    (crates/adapters/src/import.rs), and what the renderer's working-directory
    wrapper does to it. */
module ToolManaged {
  import opened Text
  import opened Shell

  datatype Managed = Managed(application: string, evidence: string)

  /** `Foo.app` gives `Foo`; the suffix is matched without case and never alone. */
  function BundleStem(component: string): Option<string> {
    if |component| <= 4 then None
    else
      var cut := |component| - 4;
      if && component[cut] == '.'
         && ToAsciiUpper(component[cut + 1]) == 'A'
         && ToAsciiUpper(component[cut + 2]) == 'P'
         && ToAsciiUpper(component[cut + 3]) == 'P'
      then Some(component[..cut]) else None
  }

  /** `home` is the value of the HOME variable, when set. */
  predicate UnderApplications(path: string, home: Option<string>) {
    || "/Applications/" <= path
    || "~/Applications/" <= path
    || (home.Some? && var h := TrimEnd(home.value, c => c == '/');
        h != [] && h <= path && "/Applications/" <= path[|h|..])
  }

  function FirstBundle(parts: seq<string>, path: string, under: bool): Option<Managed> {
    if |parts| <= 1 then None
    else if BundleStem(parts[0]).Some? && (parts[1] == "Contents" || under)
    then Some(Managed(BundleStem(parts[0]).value, path))
    else FirstBundle(parts[1..], path, under)
  }

  function InAppBundle(path: string, home: Option<string>): Option<Managed> {
    if Utf8Len(path) > MAX_PATH_BYTES then None
    else FirstBundle(SplitOn(path, '/'), path, UnderApplications(path, home))
  }

  predicate IsShell(command: string) {
    Last(SplitOn(command, '/')) in ["sh", "bash", "zsh", "dash", "ksh"]
  }

  /** The argument straight after the first bare `-c`. */
  function ScriptArg(args: seq<string>): Option<string> {
    if |args| <= 1 then None
    else if args[0] == "-c" then Some(args[1])
    else ScriptArg(args[1..])
  }

  /** The first word, every word after a separator, and the word after `exec`. */
  function ProgramWordsFrom(words: seq<ScriptWord>, expecting: bool): seq<string> {
    if words == [] then []
    else if words[0].separator then ProgramWordsFrom(words[1..], true)
    else if expecting then [words[0].text] + ProgramWordsFrom(words[1..], words[0].text == "exec")
    else ProgramWordsFrom(words[1..], false)
  }

  /** One word of the pass. */
  lemma {:induction false} ProgramStep(words: seq<ScriptWord>, i: nat, expecting: bool, out: seq<string>)
    requires i < |words|
    ensures var w := words[i];
            out + ProgramWordsFrom(words[i..], expecting)
            == if w.separator then out + ProgramWordsFrom(words[i + 1..], true)
               else if expecting then out + [w.text] + ProgramWordsFrom(words[i + 1..], w.text == "exec")
               else out + ProgramWordsFrom(words[i + 1..], false)
  {
    assert words[i..][0] == words[i] && words[i..][1..] == words[i + 1..];
  }

  /** `program_words`: one pass with a flag. */
  method ProgramWords(words: seq<ScriptWord>) returns (out: seq<string>)
    ensures out == ProgramWordsFrom(words, true)
  {
    out := [];
    var expecting := true;
    for i := 0 to |words|
      invariant out + ProgramWordsFrom(words[i..], expecting) == ProgramWordsFrom(words, true)
    {
      ProgramStep(words, i, expecting, out);
      if words[i].separator {
        expecting := true;
      } else if expecting {
        out := out + [words[i].text];
        expecting := words[i].text == "exec";
      }
    }
  }

  function ShellWrapperPrograms(command: string, args: seq<string>): seq<string> {
    if !IsShell(command) then []
    else
      var script := ScriptArg(args);
      if script.None? || Utf8Len(script.value) > MAX_SCRIPT_BYTES then []
      else ProgramWordsFrom(SplitWords(script.value), true)
  }

  function FirstManaged(words: seq<string>, home: Option<string>): Option<Managed> {
    if words == [] then None
    else if InAppBundle(words[0], home).Some? then InAppBundle(words[0], home)
    else FirstManaged(words[1..], home)
  }

  /** `tool_managed` on a server's command and arguments. */
  function Classify(command: string, args: seq<string>, home: Option<string>): Option<Managed> {
    if InAppBundle(command, home).Some? then InAppBundle(command, home)
    else FirstManaged(ShellWrapperPrograms(command, args), home)
  }

  // ------------------------------------------------------- wrapped servers --

  lemma NoSlashNoBundle(path: string, home: Option<string>)
    requires '/' !in path
    ensures InAppBundle(path, home) == None
  {
  }

  lemma {:induction false} ArgumentsAreNotPrograms(words: seq<string>)
    ensures ProgramWordsFrom(Plainly(words), false) == []
  {
    if words == [] {
    } else {
      ArgumentsAreNotPrograms(words[1..]);
      assert Plainly(words)[1..] == Plainly(words[1..]);
    }
  }

  lemma {:induction false} PlainlyPrefix(words: seq<string>, k: nat)
    requires k <= |words|
    ensures Plainly(words)[..k] == Plainly(words[..k])
  {
  }

  lemma {:induction false} LeadingPrograms(cwd: string, tail: seq<ScriptWord>)
    ensures ProgramWordsFrom(
              [ScriptWord("cd", false), ScriptWord(cwd, false), ScriptWord("&&", true)]
              + ([ScriptWord("exec", false)] + tail), true)
            == ["cd", "exec"] + ProgramWordsFrom(tail, true)
  {
    var w3 := [ScriptWord("exec", false)] + tail;
    var w2 := [ScriptWord("&&", true)] + w3;
    var w1 := [ScriptWord(cwd, false)] + w2;
    var w0 := [ScriptWord("cd", false)] + w1;
    assert w0[1..] == w1 && w1[1..] == w2 && w2[1..] == w3 && w3[1..] == tail;
    var p := ProgramWordsFrom(tail, true);
    assert ProgramWordsFrom(w3, true) == ["exec"] + p;
    assert ProgramWordsFrom(w1, false) == ["exec"] + p;
    assert ["cd"] + (["exec"] + p) == ["cd", "exec"] + p;
    assert w0 == [ScriptWord("cd", false), ScriptWord(cwd, false), ScriptWord("&&", true)] + w3;
  }

  /** The bound never cuts before the command. */
  function KeptArgs(args: seq<string>): seq<string> {
    if |args| + 5 <= MAX_SCRIPT_WORDS then args else args[..MAX_SCRIPT_WORDS - 5]
  }

  lemma {:induction false} KeptWords(cwd: string, cmd: string, args: seq<string>)
    ensures SplitWords(WrapperScript(cwd, cmd, args))
            == [ScriptWord("cd", false), ScriptWord(cwd, false), ScriptWord("&&", true)]
               + ([ScriptWord("exec", false)] + Plainly([cmd] + KeptArgs(args)))
  {
    WrapperRoundTrip(cwd, cmd, args);
    var k := |KeptArgs(args)|;
    PlainlyCons("exec", [cmd] + args);
    PlainlyPrefix([cmd] + args, k + 1);
    assert ([cmd] + args)[..k + 1] == [cmd] + KeptArgs(args);
  }

  lemma {:induction false} SkipWord(word: string, words: seq<string>, home: Option<string>)
    requires '/' !in word
    ensures FirstManaged([word] + words, home) == FirstManaged(words, home)
  {
    NoSlashNoBundle(word, home);
    assert ([word] + words)[1..] == words;
  }

  lemma {:induction false} SkipKeywords(words: seq<string>, home: Option<string>)
    ensures FirstManaged(["cd", "exec"] + words, home) == FirstManaged(words, home)
  {
    SkipWord("exec", words, home);
    SkipWord("cd", ["exec"] + words, home);
    assert ["cd"] + (["exec"] + words) == ["cd", "exec"] + words;
  }

  /** The classification of any wrapped entry: the wrapper's script is read as
      the wrapped command line (so a leading `exec` passes to the next word),
      unless the script is too long to be read at all. */
  lemma {:induction false} WrappedClassification(cwd: string, cmd: string, args: seq<string>, home: Option<string>)
    ensures var script := WrapperScript(cwd, cmd, args);
            Classify("sh", ["-c", script], home)
            == if Utf8Len(script) > MAX_SCRIPT_BYTES then None
               else FirstManaged(ProgramWordsFrom(Plainly([cmd] + KeptArgs(args)), true), home)
  {
    var script := WrapperScript(cwd, cmd, args);
    NoSlashNoBundle("sh", home);
    assert SplitOn("sh", '/') == ["sh"];
    assert ScriptArg(["-c", script]) == Some(script);
    KeptWords(cwd, cmd, args);
    LeadingPrograms(cwd, Plainly([cmd] + KeptArgs(args)));
    SkipKeywords(ProgramWordsFrom(Plainly([cmd] + KeptArgs(args)), true), home);
  }

  /** What a line that starts with `exec` runs: its first other word. */
  function FirstNonExec(words: seq<string>): Option<string> {
    if words == [] then None
    else if words[0] == "exec" then FirstNonExec(words[1..])
    else Some(words[0])
  }

  function BundleOf(word: Option<string>, home: Option<string>): Option<Managed> {
    if word.Some? then InAppBundle(word.value, home) else None
  }

  lemma {:induction false} FirstManagedCons(word: string, rest: seq<string>, home: Option<string>)
    ensures FirstManaged([word] + rest, home)
            == if InAppBundle(word, home).Some? then InAppBundle(word, home) else FirstManaged(rest, home)
  {
    assert ([word] + rest)[1..] == rest;
  }

  lemma {:induction false} ProgramWordsCons(word: string, rest: seq<string>)
    ensures ProgramWordsFrom(Plainly([word] + rest), true)
            == [word] + (if word == "exec" then ProgramWordsFrom(Plainly(rest), true) else [])
  {
    PlainlyCons(word, rest);
    ArgumentsAreNotPrograms(rest);
    assert Plainly([word] + rest)[1..] == Plainly(rest);
  }

  lemma {:induction false} ExecIsNoBundle(home: Option<string>)
    ensures InAppBundle("exec", home) == None
  {
    NoSlashNoBundle("exec", home);
  }

  /** A plain command line is classified by the first word that is not `exec`. */
  lemma {:induction false} PlainLineClass(words: seq<string>, home: Option<string>)
    ensures FirstManaged(ProgramWordsFrom(Plainly(words), true), home) == BundleOf(FirstNonExec(words), home)
    decreases |words|
  {
    if words == [] {
      assert Plainly(words) == [];
    } else {
      var word, rest := words[0], words[1..];
      assert [word] + rest == words;
      ProgramWordsCons(word, rest);
      if word == "exec" {
        PlainLineClass(rest, home);
        ExecIsNoBundle(home);
        FirstManagedCons(word, ProgramWordsFrom(Plainly(rest), true), home);
      } else {
        FirstManagedCons(word, [], home);
      }
    }
  }

  /** The classification of every wrapped entry, in closed form. */
  lemma {:induction false} WrappedIsFirstNonExec(cwd: string, cmd: string, args: seq<string>, home: Option<string>)
    ensures var script := WrapperScript(cwd, cmd, args);
            Classify("sh", ["-c", script], home)
            == if Utf8Len(script) > MAX_SCRIPT_BYTES then None
               else BundleOf(FirstNonExec([cmd] + KeptArgs(args)), home)
  {
    WrappedClassification(cwd, cmd, args, home);
    PlainLineClass([cmd] + KeptArgs(args), home);
  }

  ghost predicate NoneInBundle(words: seq<string>, home: Option<string>) {
    forall i :: 0 <= i < |words| ==> InAppBundle(words[i], home).None?
  }

  lemma {:induction false} NoneManaged(words: seq<string>, home: Option<string>)
    ensures FirstManaged(words, home).None? <==> NoneInBundle(words, home)
  {
    if words == [] {
    } else {
      NoneManaged(words[1..], home);
      assert forall i :: 1 <= i < |words| ==> words[i] == words[1..][i - 1];
      assert forall i :: 0 <= i < |words[1..]| ==> words[1..][i] == words[i + 1];
    }
  }

  /** When the wrapper changes nothing about the classification. A short script is
      read, so an `exec` command now shows what it runs, and a shell no longer
      shows its own script; a long one hides everything. */
  ghost predicate KeepsClassification(cwd: string, cmd: string, args: seq<string>, home: Option<string>) {
    var short := Utf8Len(WrapperScript(cwd, cmd, args)) <= MAX_SCRIPT_BYTES;
    var own := InAppBundle(cmd, home);
    if cmd == "exec" then !short || BundleOf(FirstNonExec(KeptArgs(args)), home).None?
    else if IsShell(cmd) then
      var quiet := NoneInBundle(ShellWrapperPrograms(cmd, args), home);
      if short then own.Some? || quiet else own.None? && quiet
    else short || own.None?
  }

  lemma {:induction false} ExecIsNoShell()
    ensures !IsShell("exec")
  {
    assert SplitOn("exec", '/') == ["exec"];
  }

  lemma {:induction false} FirstNonExecCons(word: string, rest: seq<string>)
    ensures FirstNonExec([word] + rest) == if word == "exec" then FirstNonExec(rest) else Some(word)
  {
    assert ([word] + rest)[1..] == rest;
  }

  /** Compiling a working directory into the wrapper keeps the classification,
      for every command, exactly under that condition; for a command that is
      neither a shell nor `exec` that is when the script stays readable or the
      command was in no bundle. */
  lemma {:induction false} WrappingKeepsClassification(
    cwd: string, cmd: string, args: seq<string>, home: Option<string>)
    ensures Classify("sh", ["-c", WrapperScript(cwd, cmd, args)], home) == Classify(cmd, args, home)
            <==> KeepsClassification(cwd, cmd, args, home)
  {
    WrappedIsFirstNonExec(cwd, cmd, args, home);
    FirstNonExecCons(cmd, KeptArgs(args));
    NoneManaged(ShellWrapperPrograms(cmd, args), home);
    if cmd == "exec" {
      ExecIsNoBundle(home);
      ExecIsNoShell();
    }
  }

  /** A command that is itself `exec` is classified by its first argument once
      wrapped, and not at all before: the classification changes whenever that
      argument is a bundle path. */
  lemma {:induction false} WrappingExecChangesClassification(cwd: string, program: string, home: Option<string>)
    requires program != "exec" && InAppBundle(program, home).Some?
    requires Utf8Len(WrapperScript(cwd, "exec", [program])) <= MAX_SCRIPT_BYTES
    ensures Classify("exec", [program], home) == None
    ensures Classify("sh", ["-c", WrapperScript(cwd, "exec", [program])], home) == InAppBundle(program, home)
  {
    ExecIsNoBundle(home);
    ExecIsNoShell();
    WrappedIsFirstNonExec(cwd, "exec", [program], home);
    FirstNonExecCons("exec", [program]);
    assert KeptArgs([program]) == [program];
  }
}
