/** What a rendered entry launches, against what the manifest asked for. */
module Meaning {
  import opened Text
  import opened Json
  import opened Refs
  import opened Shell
  import opened Render

  // ----------------------------------------------- how a CLI reads an entry --

  function ReadStrs(items: seq<Value>): Option<seq<string>> {
    if items == [] then Some([])
    else if !items[0].Str? then None
    else match ReadStrs(items[1..])
      case Some(rest) => Some([items[0].s] + rest)
      case None => None
  }

  function ReadStr(body: Assoc<Value>, field: Option<string>): Option<string> {
    if field.None? then None
    else
      var v: Option<Value> := Get(body, field.value);
      if v.Some? && v.value.Str? then Some(v.value.s) else None
  }

  function ReadArgs(body: Assoc<Value>, field: Option<string>): Option<seq<string>> {
    if field.None? then None
    else
      var v: Option<Value> := Get(body, field.value);
      if v.Some? && v.value.Arr? then ReadStrs(v.value.items) else None
  }

  /** The process a stdio entry describes, read through the adapter's own keys. */
  function NativeLaunch(mcp: McpSpec, body: Assoc<Value>): Option<Launch> {
    var cwd := ReadStr(body, mcp.fields.cwd);
    if mcp.commandArray then
      match ReadArgs(body, mcp.fields.command)
      case Some(argv) => if argv == [] then None else Some(Launch(cwd, argv))
      case None => None
    else
      match ReadStr(body, mcp.fields.command)
      case Some(cmd) =>
        Some(Launch(cwd, [cmd] + (match ReadArgs(body, mcp.fields.args) case Some(args) => args case None => [])))
      case None => None
  }

  /** The process a `sh -c SCRIPT` entry turns into. */
  function ShellLaunch(l: Option<Launch>): Option<Launch> {
    if l.Some? && l.value.cwd.None? && |l.value.argv| == 3 && l.value.argv[..2] == ["sh", "-c"]
    then ScriptLaunch(l.value.argv[2]) else None
  }

  /** The process the manifest asks for. */
  function ManifestLaunch(mcp: McpSpec, s: Server, resolver: Resolver): Launch
    requires s.command.Some?
  {
    Launch(if s.cwd.Some? then Some(SubText(s.cwd.value, resolver, mcp.passthrough)) else None,
           [SubText(s.command.value, resolver, mcp.passthrough)] + SubAll(s.args, resolver, mcp.passthrough))
  }

  // ----------------------------------------------------------- conditions --

  predicate Apart(a: Option<string>, b: Option<string>) { a.None? || a != b }

  /** No two canonical fields share a native key. */
  predicate DistinctFields(mcp: McpSpec) {
    var f, t := mcp.fields, TagKey(mcp);
    && Apart(f.url, f.command) && Apart(f.url, f.args) && Apart(f.url, f.cwd)
    && Apart(f.url, f.headers) && Apart(f.url, f.env) && Apart(f.url, t)
    && Apart(f.command, f.args) && Apart(f.command, f.cwd) && Apart(f.command, f.headers)
    && Apart(f.command, f.env) && Apart(f.command, t)
    && Apart(f.args, f.cwd) && Apart(f.args, f.headers) && Apart(f.args, f.env) && Apart(f.args, t)
    && Apart(f.cwd, f.headers) && Apart(f.cwd, f.env) && Apart(f.cwd, t)
    && Apart(f.headers, f.env) && Apart(f.headers, t)
    && Apart(f.env, t)
  }

  /** The keys the adapter gives a meaning to. */
  predicate IsKnown(mcp: McpSpec, k: string) {
    var f := mcp.fields;
    Some(k) in [f.url, f.command, f.args, f.cwd, f.headers, f.env, TagKey(mcp)]
  }

  /** No extra overrides a canonical field. */
  ghost predicate ExtrasApart(id: string, mcp: McpSpec, s: Server) {
    forall k :: IsKnown(mcp, k) ==> Get(ExtrasOf(id, s), k).None?
  }

  /** What a distinct-field adapter's entry holds under a key it knows. */
  lemma {:induction false} KnownFields(id: string, mcp: McpSpec, s: Server, resolver: Resolver, body: Assoc<Value>)
    requires DistinctFields(mcp) && ExtrasApart(id, mcp, s) && Renders(id, mcp, s, resolver, body)
    ensures mcp.fields.command.Some? ==>
              Get(body, mcp.fields.command.value)
              == Over(CwdAt(mcp, s, resolver, mcp.fields.command.value),
                      CommandAt(mcp, s, resolver, mcp.fields.command.value))
    ensures mcp.fields.args.Some? ==>
              Get(body, mcp.fields.args.value)
              == Over(CwdAt(mcp, s, resolver, mcp.fields.args.value),
                      CommandAt(mcp, s, resolver, mcp.fields.args.value))
    ensures mcp.fields.cwd.Some? ==>
              Get(body, mcp.fields.cwd.value)
              == if s.serverType.Stdio? then StrOf(s.cwd, resolver, mcp.passthrough) else None
  {
    var f := mcp.fields;
    assert f.command.Some? ==> IsKnown(mcp, f.command.value);
    assert f.args.Some? ==> IsKnown(mcp, f.args.value);
    assert f.cwd.Some? ==> IsKnown(mcp, f.cwd.value);
  }

  lemma {:induction false} ReadStrsCons(text: string, rest: seq<Value>)
    ensures ReadStrs([Str(text)] + rest)
            == (match ReadStrs(rest) case Some(texts) => Some([text] + texts) case None => None)
  {
    assert ([Str(text)] + rest)[1..] == rest;
  }

  lemma {:induction false} ReadStrsOfStrs(texts: seq<string>)
    ensures ReadStrs(Strs(texts)) == Some(texts)
  {
    if texts == [] {
    } else {
      ReadStrsOfStrs(texts[1..]);
      ReadStrsCons(texts[0], Strs(texts[1..]));
      assert [texts[0]] + texts[1..] == texts;
    }
  }

  // -------------------------------------------------------------- theorems --

  lemma {:induction false} ArrayEntryLaunch(mcp: McpSpec, body: Assoc<Value>, argv: seq<string>)
    requires mcp.commandArray && mcp.fields.command.Some? && argv != []
    requires Get(body, mcp.fields.command.value) == Some(Arr(Strs(argv)))
    ensures NativeLaunch(mcp, body) == Some(Launch(ReadStr(body, mcp.fields.cwd), argv))
  {
    ReadStrsOfStrs(argv);
  }

  lemma {:induction false} PairEntryLaunch(mcp: McpSpec, body: Assoc<Value>, cmd: string, args: seq<string>)
    requires !mcp.commandArray && mcp.fields.command.Some?
    requires Get(body, mcp.fields.command.value) == Some(Str(cmd))
    requires args != [] ==> mcp.fields.args.Some? && Get(body, mcp.fields.args.value) == Some(Arr(Strs(args)))
    requires args == [] ==> mcp.fields.args.None? || Get(body, mcp.fields.args.value) == None
    ensures NativeLaunch(mcp, body) == Some(Launch(ReadStr(body, mcp.fields.cwd), [cmd] + args))
  {
    ReadStrsOfStrs(args);
    assert [cmd] + [] == [cmd];
  }

  /** What a wrapped server's entry holds: the shell, with the script when the
      adapter has somewhere to put it. */
  lemma {:induction false} WrappedEntry(
    id: string, mcp: McpSpec, s: Server, resolver: Resolver, body: Assoc<Value>)
    requires DistinctFields(mcp) && ExtrasApart(id, mcp, s) && Renders(id, mcp, s, resolver, body)
    requires Wraps(mcp, s)
    ensures var script := WrapScript(mcp, s, resolver);
            && ReadStr(body, mcp.fields.cwd) == None
            && (mcp.commandArray ==>
                  Get(body, mcp.fields.command.value) == Some(Arr([Str("sh"), Str("-c"), Str(script)])))
            && (!mcp.commandArray ==>
                  Get(body, mcp.fields.command.value) == Some(Str("sh")))
            && (!mcp.commandArray && mcp.fields.args.Some? ==>
                  Get(body, mcp.fields.args.value) == Some(Arr([Str("-c"), Str(script)])))
  {
    KnownFields(id, mcp, s, resolver, body);
  }

  /** And what it launches. */
  lemma {:induction false} WrappedEntryLaunch(
    id: string, mcp: McpSpec, s: Server, resolver: Resolver, body: Assoc<Value>)
    requires DistinctFields(mcp) && ExtrasApart(id, mcp, s) && Renders(id, mcp, s, resolver, body)
    requires Wraps(mcp, s)
    ensures NativeLaunch(mcp, body)
            == Some(Launch(None, if mcp.commandArray || mcp.fields.args.Some?
                                 then ["sh", "-c", WrapScript(mcp, s, resolver)] else ["sh"]))
  {
    var script := WrapScript(mcp, s, resolver);
    WrappedEntry(id, mcp, s, resolver, body);
    if mcp.commandArray {
      assert Strs(["sh", "-c", script]) == [Str("sh"), Str("-c"), Str(script)];
      ArrayEntryLaunch(mcp, body, ["sh", "-c", script]);
    } else if mcp.fields.args.Some? {
      assert Strs(["-c", script]) == [Str("-c"), Str(script)];
      PairEntryLaunch(mcp, body, "sh", ["-c", script]);
      assert ["sh"] + ["-c", script] == ["sh", "-c", script];
    } else {
      PairEntryLaunch(mcp, body, "sh", []);
      assert ["sh"] + [] == ["sh"];
    }
  }

  /** The working-directory rewrite preserves meaning: read as `sh -c`, the entry
      launches the manifest's command and arguments in the manifest's directory,
      exactly when the adapter has somewhere to put the script. References that
      the target expands itself are the subject of `Expansion`. */
  lemma {:induction false} WrapPreservesLaunch(
    id: string, mcp: McpSpec, s: Server, resolver: Resolver, body: Assoc<Value>)
    requires DistinctFields(mcp) && ExtrasApart(id, mcp, s) && Renders(id, mcp, s, resolver, body)
    requires Wraps(mcp, s)
    ensures ShellLaunch(NativeLaunch(mcp, body)) == Some(ManifestLaunch(mcp, s, resolver))
            <==> mcp.commandArray || mcp.fields.args.Some?
  {
    WrappedEntryLaunch(id, mcp, s, resolver, body);
    if mcp.commandArray || mcp.fields.args.Some? {
      ShellEntryLaunch(mcp, s, resolver);
    }
  }

  lemma {:induction false} ShellEntryLaunch(mcp: McpSpec, s: Server, resolver: Resolver)
    requires Wraps(mcp, s) && (mcp.commandArray || mcp.fields.args.Some?)
    ensures ShellLaunch(Some(Launch(None, ["sh", "-c", WrapScript(mcp, s, resolver)])))
            == Some(ManifestLaunch(mcp, s, resolver))
  {
    var argv := ["sh", "-c", WrapScript(mcp, s, resolver)];
    assert argv[..2] == ["sh", "-c"];
    WrapperLaunches(SubText(s.cwd.value, resolver, mcp.passthrough),
                    SubText(s.command.value, resolver, mcp.passthrough),
                    SubAll(s.args, resolver, mcp.passthrough));
  }

  /** Without a rewrite the entry itself launches what the manifest asked for,
      exactly when no argument is lost to an adapter that maps no args key. */
  lemma {:induction false} PlainPreservesLaunch(
    id: string, mcp: McpSpec, s: Server, resolver: Resolver, body: Assoc<Value>)
    requires DistinctFields(mcp) && ExtrasApart(id, mcp, s) && Renders(id, mcp, s, resolver, body)
    requires s.serverType.Stdio? && HasCommand(mcp, s) && (s.cwd.None? || mcp.fields.cwd.Some?)
    ensures NativeLaunch(mcp, body) == Some(ManifestLaunch(mcp, s, resolver))
            <==> mcp.commandArray || mcp.fields.args.Some? || s.args == []
  {
    KnownFields(id, mcp, s, resolver, body);
    var cmd := SubText(s.command.value, resolver, mcp.passthrough);
    var args := SubAll(LaunchArgs(mcp, s), resolver, mcp.passthrough);
    if mcp.commandArray {
      assert Strs([cmd] + args) == [Str(cmd)] + Strs(args);
      ArrayEntryLaunch(mcp, body, [cmd] + args);
    } else {
      PairEntryLaunch(mcp, body, cmd, args);
      assert |SubAll(s.args, resolver, mcp.passthrough)| == |s.args|;
      assert |[cmd] + args| == 1 + |LaunchArgs(mcp, s)|;
    }
  }
}
