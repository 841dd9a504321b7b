/** `render_server` (crates/adapters/src/render.rs): a manifest server compiled
    into one CLI's native entry. */
module Render {
  import opened Text
  import opened Json
  import opened Refs
  import opened Shell

  datatype Fields = Fields(
    url: Option<string>, command: Option<string>, args: Option<string>,
    cwd: Option<string>, headers: Option<string>, env: Option<string>)

  datatype Transport = Transport(key: string, httpValue: string, stdioValue: Option<string>)

  datatype McpSpec = McpSpec(
    fields: Fields, transport: Option<Transport>, commandArray: bool, passthrough: bool)

  datatype ServerType = Http | Stdio

  /** The manifest fields that reach a native entry. */
  datatype Server = Server(
    serverType: ServerType,
    url: Option<string>, command: Option<string>, args: seq<string>, cwd: Option<string>,
    headers: Assoc<string>, env: Assoc<string>,
    extra: Assoc<Assoc<Value>>)

  // --------------------------------------------------- substituted values --

  function SubAll(texts: seq<string>, resolver: Resolver, pass: bool): (r: seq<string>)
    ensures |r| == |texts|
    ensures forall i :: 0 <= i < |r| ==> r[i] == SubText(texts[i], resolver, pass)
  {
    Each(texts, t => SubText(t, resolver, pass))
  }

  function Strs(texts: seq<string>): (r: seq<Value>)
    ensures |r| == |texts|
    ensures forall i :: 0 <= i < |r| ==> r[i] == Str(texts[i])
  {
    if texts == [] then [] else [Str(texts[0])] + Strs(texts[1..])
  }

  /** A string table with every value substituted. */
  function SubTable(o: Assoc<string>, resolver: Resolver, pass: bool): (r: Assoc<Value>)
    ensures |r| == |o|
    ensures forall i :: 0 <= i < |r| ==> r[i] == Entry(o[i].key, Str(SubText(o[i].value, resolver, pass)))
  {
    if o == [] then []
    else [Entry(o[0].key, Str(SubText(o[0].value, resolver, pass)))] + SubTable(o[1..], resolver, pass)
  }

  /** Every string leaf substituted; other leaves untouched. */
  function SubValue(v: Value, resolver: Resolver, pass: bool): Value {
    match v
    case Str(s) => Str(SubText(s, resolver, pass))
    case Arr(items) => Arr(SubItems(items, resolver, pass))
    case Obj(fields) => Obj(SubFields(fields, resolver, pass))
    case _ => v
  }

  function SubItems(vs: seq<Value>, resolver: Resolver, pass: bool): seq<Value> {
    if vs == [] then [] else [SubValue(vs[0], resolver, pass)] + SubItems(vs[1..], resolver, pass)
  }

  function SubFields(o: Assoc<Value>, resolver: Resolver, pass: bool): Assoc<Value> {
    if o == [] then []
    else [Entry(o[0].key, SubValue(o[0].value, resolver, pass))] + SubFields(o[1..], resolver, pass)
  }

  /** The string leaves, in the order they are substituted. */
  function Leaves(v: Value): seq<string> {
    match v
    case Str(s) => [s]
    case Arr(items) => ItemLeaves(items)
    case Obj(fields) => FieldLeaves(fields)
    case _ => []
  }

  function ItemLeaves(vs: seq<Value>): seq<string> {
    if vs == [] then [] else Leaves(vs[0]) + ItemLeaves(vs[1..])
  }

  function FieldLeaves(o: Assoc<Value>): seq<string> {
    if o == [] then [] else Leaves(o[0].value) + FieldLeaves(o[1..])
  }

  function TableTexts(o: Assoc<string>): seq<string> {
    if o == [] then [] else [o[0].value] + TableTexts(o[1..])
  }

  /** The records of a list of texts, substituted one after another. */
  function RecordsAll(texts: seq<string>, resolver: Resolver, pass: bool): Channels {
    if texts == [] then QUIET
    else SubRecords(texts[0], resolver, pass).Join(RecordsAll(texts[1..], resolver, pass))
  }

  lemma {:induction false} RecordsAllJoin(a: seq<string>, b: seq<string>, resolver: Resolver, pass: bool)
    ensures RecordsAll(a + b, resolver, pass) == RecordsAll(a, resolver, pass).Join(RecordsAll(b, resolver, pass))
  {
    if a == [] {
      assert a + b == b;
      JoinQuiet(RecordsAll(b, resolver, pass));
    } else {
      RecordsAllJoin(a[1..], b, resolver, pass);
      assert (a + b)[1..] == a[1..] + b;
      JoinAssoc(SubRecords(a[0], resolver, pass), RecordsAll(a[1..], resolver, pass), RecordsAll(b, resolver, pass));
    }
  }

  lemma {:induction false} RecordsOne(text: string, resolver: Resolver, pass: bool)
    ensures RecordsAll([text], resolver, pass) == SubRecords(text, resolver, pass)
  {
    JoinQuiet(SubRecords(text, resolver, pass));
    assert [text][1..] == [];
  }

  // -------------------------------------------------- what an entry holds --

  function Over<V>(a: Option<V>, b: Option<V>): Option<V> { if a.Some? then a else b }

  /** The value `v` written under `field`, seen at key `k`. */
  function At(field: Option<string>, v: Option<Value>, k: string): Option<Value> {
    if field == Some(k) then v else None
  }

  function StrOf(text: Option<string>, resolver: Resolver, pass: bool): Option<Value> {
    if text.Some? then Some(Str(SubText(text.value, resolver, pass))) else None
  }

  function TagOf(mcp: McpSpec, serverType: ServerType): Option<string> {
    match mcp.transport
    case None => None
    case Some(t) => if serverType.Http? then Some(t.httpValue) else t.stdioValue
  }

  function TagKey(mcp: McpSpec): Option<string> {
    if mcp.transport.Some? then Some(mcp.transport.value.key) else None
  }

  function TagValue(mcp: McpSpec, serverType: ServerType): Option<Value> {
    if TagOf(mcp, serverType).Some? then Some(Str(TagOf(mcp, serverType).value)) else None
  }

  /** Steps 1 and 2: the transport tag, then the url. */
  function AddressAt(mcp: McpSpec, s: Server, resolver: Resolver, k: string): Option<Value> {
    Over(At(mcp.fields.url, StrOf(s.url, resolver, mcp.passthrough), k),
         At(TagKey(mcp), TagValue(mcp, s.serverType), k))
  }

  predicate HasCommand(mcp: McpSpec, s: Server) { mcp.fields.command.Some? && s.command.Some? }

  /** The arguments that take part in the launch, before substitution. */
  function LaunchArgs(mcp: McpSpec, s: Server): seq<string> {
    if mcp.commandArray then (if HasCommand(mcp, s) then s.args else [])
    else if mcp.fields.args.Some? then s.args else []
  }

  /** Steps 3 and 4: one combined array, or a command string and an args array. */
  function CommandAt(mcp: McpSpec, s: Server, resolver: Resolver, k: string): Option<Value> {
    var args := SubAll(LaunchArgs(mcp, s), resolver, mcp.passthrough);
    if mcp.commandArray then
      At(mcp.fields.command,
         if s.command.Some? then Some(Arr([Str(SubText(s.command.value, resolver, mcp.passthrough))] + Strs(args)))
         else None, k)
    else
      Over(At(mcp.fields.args, if args != [] then Some(Arr(Strs(args))) else None, k),
           At(mcp.fields.command, StrOf(s.command, resolver, mcp.passthrough), k))
  }

  /** The adapter has no working-directory key, but this server needs one. */
  predicate Wraps(mcp: McpSpec, s: Server) {
    s.serverType.Stdio? && mcp.fields.cwd.None? && s.cwd.Some? && HasCommand(mcp, s)
  }

  function WrapScript(mcp: McpSpec, s: Server, resolver: Resolver): string
    requires Wraps(mcp, s)
  {
    WrapperScript(SubText(s.cwd.value, resolver, mcp.passthrough),
                  SubText(s.command.value, resolver, mcp.passthrough),
                  SubAll(LaunchArgs(mcp, s), resolver, mcp.passthrough))
  }

  /** Steps 5 and 5b: the native key, or the shell wrapper. */
  function CwdAt(mcp: McpSpec, s: Server, resolver: Resolver, k: string): Option<Value> {
    if Wraps(mcp, s) then
      var script := WrapScript(mcp, s, resolver);
      if mcp.commandArray then At(mcp.fields.command, Some(Arr([Str("sh"), Str("-c"), Str(script)])), k)
      else Over(At(mcp.fields.args, Some(Arr([Str("-c"), Str(script)])), k),
                At(mcp.fields.command, Some(Str("sh")), k))
    else if s.serverType.Stdio? then At(mcp.fields.cwd, StrOf(s.cwd, resolver, mcp.passthrough), k)
    else None
  }

  function TableOf(o: Assoc<string>, resolver: Resolver, pass: bool): Option<Value> {
    if o == [] then None else Some(Obj(SubTable(o, resolver, pass)))
  }

  /** Steps 6 and 7: the header table, then the environment table. */
  function TablesAt(mcp: McpSpec, s: Server, resolver: Resolver, k: string): Option<Value> {
    Over(At(mcp.fields.env, TableOf(s.env, resolver, mcp.passthrough), k),
         At(mcp.fields.headers, TableOf(s.headers, resolver, mcp.passthrough), k))
  }

  function ExtrasOf(id: string, s: Server): Assoc<Value> {
    match Get(s.extra, id) case Some(e) => e case None => []
  }

  /** An extra key's value, substituted. */
  function ExtraAt(extra: Assoc<Value>, resolver: Resolver, pass: bool, k: string): Option<Value> {
    match Get(extra, k)
    case Some(v) => Some(SubValue(v, resolver, pass))
    case None => None
  }

  /** What a rendered entry holds under each key: the last step to write it wins,
      and the extras are written last. */
  function Written(id: string, mcp: McpSpec, s: Server, resolver: Resolver, k: string): Option<Value> {
    Over(ExtraAt(ExtrasOf(id, s), resolver, mcp.passthrough, k),
    Over(TablesAt(mcp, s, resolver, k),
    Over(CwdAt(mcp, s, resolver, k),
    Over(CommandAt(mcp, s, resolver, k),
         AddressAt(mcp, s, resolver, k)))))
  }

  ghost predicate Renders(id: string, mcp: McpSpec, s: Server, resolver: Resolver, body: Assoc<Value>) {
    forall k :: Get(body, k) == Written(id, mcp, s, resolver, k)
  }

  /** Every string handed to the scanner, in order. */
  function OptText(mapped: bool, text: Option<string>): seq<string> {
    if mapped && text.Some? then [text.value] else []
  }

  function TextsUnder(field: Option<string>, o: Assoc<string>): seq<string> {
    if field.Some? then TableTexts(o) else []
  }

  function RenderedTexts(id: string, mcp: McpSpec, s: Server): seq<string> {
    OptText(mcp.fields.url.Some?, s.url)
    + (OptText(mcp.fields.command.Some?, s.command)
    + (LaunchArgs(mcp, s)
    + (OptText(s.serverType.Stdio? && (mcp.fields.cwd.Some? || HasCommand(mcp, s)), s.cwd)
    + (TextsUnder(mcp.fields.headers, s.headers)
    + (TextsUnder(mcp.fields.env, s.env)
    + FieldLeaves(ExtrasOf(id, s)))))))
  }

  // ---------------------------------------------------------- the renderer --

  lemma PutEverywhere<V(!new)>(o: Assoc<V>, key: string, v: V)
    ensures forall x :: Get(Put(o, key, v), x) == if x == key then Some(v) else Get(o, x)
  {
    forall x ensures Get(Put(o, key, v), x) == if x == key then Some(v) else Get(o, x) {
      GetPut(o, key, v, x);
    }
  }

  /** One more text scanned. */
  lemma {:induction false} RecordsSnoc(
    before: Channels, texts: seq<string>, text: string, resolver: Resolver, pass: bool)
    ensures before.Join(RecordsAll(texts, resolver, pass)).Join(SubRecords(text, resolver, pass))
            == before.Join(RecordsAll(texts + [text], resolver, pass))
  {
    RecordsAllJoin(texts, [text], resolver, pass);
    RecordsOne(text, resolver, pass);
    JoinAssoc(before, RecordsAll(texts, resolver, pass), SubRecords(text, resolver, pass));
  }

  lemma {:induction false} PrefixRecords(before: Channels, texts: seq<string>, i: nat, resolver: Resolver, pass: bool)
    requires i < |texts|
    ensures before.Join(RecordsAll(texts[..i], resolver, pass)).Join(SubRecords(texts[i], resolver, pass))
            == before.Join(RecordsAll(texts[..i + 1], resolver, pass))
  {
    assert texts[..i + 1] == texts[..i] + [texts[i]];
    RecordsSnoc(before, texts[..i], texts[i], resolver, pass);
  }

  /** The map of the scanner over a list, threading the channels. */
  method SubstituteEach(texts: seq<string>, resolver: Resolver, pass: bool, before: Channels)
    returns (out: seq<string>, ch: Channels)
    ensures out == SubAll(texts, resolver, pass)
    ensures ch == before.Join(RecordsAll(texts, resolver, pass))
  {
    out, ch := [], before;
    JoinQuiet(before);
    ghost var sub := t => SubText(t, resolver, pass);
    for i := 0 to |texts|
      invariant out == Each(texts[..i], sub)
      invariant ch == before.Join(RecordsAll(texts[..i], resolver, pass))
    {
      EachSnoc(texts, sub, i);
      PrefixRecords(before, texts, i, resolver, pass);
      var t;
      t, ch := SubstituteWith(texts[i], resolver, pass, ch);
      out := out + [t];
    }
    assert texts[..|texts|] == texts;
  }

  lemma {:induction false} SubTableSnoc(o: Assoc<string>, i: nat, resolver: Resolver, pass: bool)
    requires i < |o|
    ensures TableTexts(o[..i + 1]) == TableTexts(o[..i]) + [o[i].value]
    ensures SubTable(o[..i + 1], resolver, pass)
            == SubTable(o[..i], resolver, pass) + [Entry(o[i].key, Str(SubText(o[i].value, resolver, pass)))]
  {
    assert o[..i + 1] == o[..i] + [o[i]];
    TableTextsSnoc(o[..i], o[i]);
  }

  method SubstituteTable(o: Assoc<string>, resolver: Resolver, pass: bool, before: Channels)
    returns (out: Assoc<Value>, ch: Channels)
    ensures out == SubTable(o, resolver, pass)
    ensures ch == before.Join(RecordsAll(TableTexts(o), resolver, pass))
  {
    out, ch := [], before;
    JoinQuiet(before);
    for i := 0 to |o|
      invariant out == SubTable(o[..i], resolver, pass)
      invariant ch == before.Join(RecordsAll(TableTexts(o[..i]), resolver, pass))
    {
      SubTableSnoc(o, i, resolver, pass);
      RecordsSnoc(before, TableTexts(o[..i]), o[i].value, resolver, pass);
      var t;
      t, ch := SubstituteWith(o[i].value, resolver, pass, ch);
      out := out + [Entry(o[i].key, Str(t))];
    }
    assert o[..|o|] == o;
  }

  lemma {:induction false} TableTextsSnoc(o: Assoc<string>, e: Entry<string>)
    ensures TableTexts(o + [e]) == TableTexts(o) + [e.value]
  {
    if o == [] {
    } else {
      TableTextsSnoc(o[1..], e);
      assert (o + [e])[1..] == o[1..] + [e];
    }
  }

  /** `substitute_value`: structural recursion threading the four channels. */
  method SubstituteValue(v: Value, resolver: Resolver, pass: bool, before: Channels)
    returns (out: Value, ch: Channels)
    ensures out == SubValue(v, resolver, pass)
    ensures ch == before.Join(RecordsAll(Leaves(v), resolver, pass))
    decreases v
  {
    match v {
      case Str(s) =>
        var t;
        t, ch := SubstituteWith(s, resolver, pass, before);
        RecordsOne(s, resolver, pass);
        out := Str(t);
      case Arr(items) =>
        var vs;
        vs, ch := SubstituteItems(items, resolver, pass, before);
        out := Arr(vs);
      case Obj(fields) =>
        var o;
        o, ch := SubstituteFields(fields, resolver, pass, before);
        out := Obj(o);
      case _ =>
        JoinQuiet(before);
        out, ch := v, before;
    }
  }

  method SubstituteItems(vs: seq<Value>, resolver: Resolver, pass: bool, before: Channels)
    returns (out: seq<Value>, ch: Channels)
    ensures out == SubItems(vs, resolver, pass)
    ensures ch == before.Join(RecordsAll(ItemLeaves(vs), resolver, pass))
    decreases vs
  {
    if vs == [] {
      JoinQuiet(before);
      return [], before;
    }
    var first, rest;
    first, ch := SubstituteValue(vs[0], resolver, pass, before);
    rest, ch := SubstituteItems(vs[1..], resolver, pass, ch);
    out := [first] + rest;
    RecordsAllJoin(Leaves(vs[0]), ItemLeaves(vs[1..]), resolver, pass);
    JoinAssoc(before, RecordsAll(Leaves(vs[0]), resolver, pass), RecordsAll(ItemLeaves(vs[1..]), resolver, pass));
  }

  method SubstituteFields(o: Assoc<Value>, resolver: Resolver, pass: bool, before: Channels)
    returns (out: Assoc<Value>, ch: Channels)
    ensures out == SubFields(o, resolver, pass)
    ensures ch == before.Join(RecordsAll(FieldLeaves(o), resolver, pass))
    decreases o
  {
    if o == [] {
      JoinQuiet(before);
      return [], before;
    }
    var first, rest;
    first, ch := SubstituteValue(o[0].value, resolver, pass, before);
    rest, ch := SubstituteFields(o[1..], resolver, pass, ch);
    out := [Entry(o[0].key, first)] + rest;
    RecordsAllJoin(Leaves(o[0].value), FieldLeaves(o[1..]), resolver, pass);
    JoinAssoc(before, RecordsAll(Leaves(o[0].value), resolver, pass), RecordsAll(FieldLeaves(o[1..]), resolver, pass));
  }

  /** Substitute an optional text and write it under its field, when both are there. */
  method WriteText(body: Assoc<Value>, field: Option<string>, text: Option<string>,
                   resolver: Resolver, pass: bool, before: Channels)
    returns (out: Assoc<Value>, ch: Channels, resolved: Option<string>)
    ensures forall k :: Get(out, k) == Over(At(field, StrOf(text, resolver, pass), k), Get(body, k))
    ensures ch == before.Join(RecordsAll(OptText(field.Some?, text), resolver, pass))
    ensures resolved == if field.Some? && text.Some? then Some(SubText(text.value, resolver, pass)) else None
  {
    out, ch, resolved := body, before, None;
    JoinQuiet(before);
    if field.Some? && text.Some? {
      var t;
      t, ch := SubstituteWith(text.value, resolver, pass, ch);
      RecordsOne(text.value, resolver, pass);
      out := Put(out, field.value, Str(t));
      PutEverywhere(body, field.value, Str(t));
      resolved := Some(t);
    }
  }

  method RenderAddress(mcp: McpSpec, s: Server, resolver: Resolver)
    returns (body: Assoc<Value>, ch: Channels)
    ensures forall k :: Get(body, k) == AddressAt(mcp, s, resolver, k)
    ensures ch == RecordsAll(OptText(mcp.fields.url.Some?, s.url), resolver, mcp.passthrough)
  {
    body := [];
    if mcp.transport.Some? {
      var tag := TagOf(mcp, s.serverType);
      if tag.Some? {
        PutEverywhere(body, mcp.transport.value.key, Str(tag.value));
        body := Put(body, mcp.transport.value.key, Str(tag.value));
      }
    }
    JoinQuiet(RecordsAll(OptText(mcp.fields.url.Some?, s.url), resolver, mcp.passthrough));
    var resolved;
    body, ch, resolved := WriteText(body, mcp.fields.url, s.url, resolver, mcp.passthrough, QUIET);
  }

  method RenderCommand(mcp: McpSpec, s: Server, resolver: Resolver, body: Assoc<Value>, before: Channels)
    returns (out: Assoc<Value>, ch: Channels, command: Option<string>, args: seq<string>)
    ensures forall k :: Get(out, k) == Over(CommandAt(mcp, s, resolver, k), Get(body, k))
    ensures ch == before.Join(RecordsAll(OptText(mcp.fields.command.Some?, s.command), resolver, mcp.passthrough))
                        .Join(RecordsAll(LaunchArgs(mcp, s), resolver, mcp.passthrough))
    ensures command == if HasCommand(mcp, s)
                       then Some(SubText(s.command.value, resolver, mcp.passthrough)) else None
    ensures args == SubAll(LaunchArgs(mcp, s), resolver, mcp.passthrough)
  {
    if mcp.commandArray {
      out, ch, command, args := RenderCommandArray(mcp, s, resolver, body, before);
    } else {
      out, ch, command := WriteText(body, mcp.fields.command, s.command, resolver, mcp.passthrough, before);
      out, ch, args := WriteArgs(mcp, s, resolver, out, ch);
    }
  }

  /** The args array of an adapter that keeps the command a string. */
  method WriteArgs(mcp: McpSpec, s: Server, resolver: Resolver, body: Assoc<Value>, before: Channels)
    returns (out: Assoc<Value>, ch: Channels, args: seq<string>)
    requires !mcp.commandArray
    ensures args == SubAll(LaunchArgs(mcp, s), resolver, mcp.passthrough)
    ensures forall k :: Get(out, k) ==
              Over(At(mcp.fields.args, if args != [] then Some(Arr(Strs(args))) else None, k), Get(body, k))
    ensures ch == before.Join(RecordsAll(LaunchArgs(mcp, s), resolver, mcp.passthrough))
  {
    out, ch, args := body, before, [];
    JoinQuiet(before);
    if mcp.fields.args.Some? && s.args != [] {
      args, ch := SubstituteEach(s.args, resolver, mcp.passthrough, ch);
      PutEverywhere(out, mcp.fields.args.value, Arr(Strs(args)));
      out := Put(out, mcp.fields.args.value, Arr(Strs(args)));
    }
  }

  /** The combined array of an adapter that launches from one list. */
  method RenderCommandArray(mcp: McpSpec, s: Server, resolver: Resolver, body: Assoc<Value>, before: Channels)
    returns (out: Assoc<Value>, ch: Channels, command: Option<string>, args: seq<string>)
    requires mcp.commandArray
    ensures forall k :: Get(out, k) == Over(CommandAt(mcp, s, resolver, k), Get(body, k))
    ensures ch == before.Join(RecordsAll(OptText(mcp.fields.command.Some?, s.command), resolver, mcp.passthrough))
                        .Join(RecordsAll(LaunchArgs(mcp, s), resolver, mcp.passthrough))
    ensures command == if HasCommand(mcp, s)
                       then Some(SubText(s.command.value, resolver, mcp.passthrough)) else None
    ensures args == SubAll(LaunchArgs(mcp, s), resolver, mcp.passthrough)
  {
    out, ch, command, args := body, before, None, [];
    JoinQuiet(before);
    if HasCommand(mcp, s) {
      var cmd;
      cmd, ch := SubstituteWith(s.command.value, resolver, mcp.passthrough, ch);
      RecordsOne(s.command.value, resolver, mcp.passthrough);
      args, ch := SubstituteEach(s.args, resolver, mcp.passthrough, ch);
      var arr := Arr([Str(cmd)] + Strs(args));
      out := Put(out, mcp.fields.command.value, arr);
      PutEverywhere(body, mcp.fields.command.value, arr);
      command := Some(cmd);
    }
  }

  function CwdTexts(mcp: McpSpec, s: Server): seq<string> {
    OptText(s.serverType.Stdio? && (mcp.fields.cwd.Some? || HasCommand(mcp, s)), s.cwd)
  }

  method RenderCwd(mcp: McpSpec, s: Server, resolver: Resolver, body: Assoc<Value>, before: Channels,
                   command: Option<string>, args: seq<string>)
    returns (out: Assoc<Value>, ch: Channels)
    requires command == if HasCommand(mcp, s)
                        then Some(SubText(s.command.value, resolver, mcp.passthrough)) else None
    requires args == SubAll(LaunchArgs(mcp, s), resolver, mcp.passthrough)
    ensures forall k :: Get(out, k) == Over(CwdAt(mcp, s, resolver, k), Get(body, k))
    ensures ch == before.Join(RecordsAll(CwdTexts(mcp, s), resolver, mcp.passthrough))
  {
    out, ch := body, before;
    JoinQuiet(before);
    var native := false;
    if s.serverType.Stdio? && mcp.fields.cwd.Some? && s.cwd.Some? {
      var resolved;
      out, ch, resolved := WriteText(out, mcp.fields.cwd, s.cwd, resolver, mcp.passthrough, ch);
      native := true;
    }
    if s.serverType.Stdio? && !native && mcp.fields.cwd.None? && s.cwd.Some? && command.Some? {
      var cwd;
      cwd, ch := SubstituteWith(s.cwd.value, resolver, mcp.passthrough, ch);
      RecordsOne(s.cwd.value, resolver, mcp.passthrough);
      var script := BuildWrapper(cwd, command.value, args);
      out := WriteWrapper(mcp, out, script);
    }
  }

  method WriteWrapper(mcp: McpSpec, body: Assoc<Value>, script: string) returns (out: Assoc<Value>)
    ensures forall k :: Get(out, k) ==
              Over(if mcp.commandArray then At(mcp.fields.command, Some(Arr([Str("sh"), Str("-c"), Str(script)])), k)
                   else Over(At(mcp.fields.args, Some(Arr([Str("-c"), Str(script)])), k),
                             At(mcp.fields.command, Some(Str("sh")), k)),
                   Get(body, k))
  {
    out := body;
    if mcp.commandArray {
      if mcp.fields.command.Some? {
        var launch := Arr([Str("sh"), Str("-c"), Str(script)]);
        PutEverywhere(out, mcp.fields.command.value, launch);
        out := Put(out, mcp.fields.command.value, launch);
      }
    } else {
      if mcp.fields.command.Some? {
        PutEverywhere(out, mcp.fields.command.value, Str("sh"));
        out := Put(out, mcp.fields.command.value, Str("sh"));
      }
      if mcp.fields.args.Some? {
        var rest := Arr([Str("-c"), Str(script)]);
        PutEverywhere(out, mcp.fields.args.value, rest);
        out := Put(out, mcp.fields.args.value, rest);
      }
    }
  }

  method WriteTable(body: Assoc<Value>, field: Option<string>, o: Assoc<string>,
                    resolver: Resolver, pass: bool, before: Channels)
    returns (out: Assoc<Value>, ch: Channels)
    ensures forall k :: Get(out, k) == Over(At(field, TableOf(o, resolver, pass), k), Get(body, k))
    ensures ch == before.Join(RecordsAll(TextsUnder(field, o), resolver, pass))
  {
    out, ch := body, before;
    JoinQuiet(before);
    if field.Some? && o != [] {
      var t;
      t, ch := SubstituteTable(o, resolver, pass, ch);
      PutEverywhere(out, field.value, Obj(t));
      out := Put(out, field.value, Obj(t));
    }
  }

  method WriteExtras(body: Assoc<Value>, extra: Assoc<Value>, resolver: Resolver, pass: bool, before: Channels)
    returns (out: Assoc<Value>, ch: Channels)
    requires DistinctKeys(extra)
    ensures forall k :: Get(out, k) == Over(ExtraAt(extra, resolver, pass, k), Get(body, k))
    ensures ch == before.Join(RecordsAll(FieldLeaves(extra), resolver, pass))
  {
    out, ch := body, before;
    JoinQuiet(before);
    for i := 0 to |extra|
      invariant forall k :: Get(out, k) == Over(ExtraAt(extra[..i], resolver, pass, k), Get(body, k))
      invariant ch == before.Join(RecordsAll(FieldLeaves(extra[..i]), resolver, pass))
    {
      var v;
      v, ch := SubstituteValue(extra[i].value, resolver, pass, ch);
      ExtrasRecords(extra, i, resolver, pass, before);
      PutEverywhere(out, extra[i].key, v);
      forall k ensures ExtraAt(extra[..i + 1], resolver, pass, k)
                       == if k == extra[i].key then Some(v) else ExtraAt(extra[..i], resolver, pass, k) {
        GetPrefix(extra, i, k);
      }
      out := Put(out, extra[i].key, v);
    }
    assert extra[..|extra|] == extra;
  }

  lemma {:induction false} ExtrasRecords(extra: Assoc<Value>, i: nat, resolver: Resolver, pass: bool, before: Channels)
    requires i < |extra|
    ensures before.Join(RecordsAll(FieldLeaves(extra[..i + 1]), resolver, pass))
            == before.Join(RecordsAll(FieldLeaves(extra[..i]), resolver, pass))
                     .Join(RecordsAll(Leaves(extra[i].value), resolver, pass))
  {
    var done, last := FieldLeaves(extra[..i]), Leaves(extra[i].value);
    assert extra[..i + 1] == extra[..i] + [extra[i]];
    FieldLeavesSnoc(extra[..i], extra[i]);
    assert FieldLeaves(extra[..i + 1]) == done + last;
    RecordsAllJoin(done, last, resolver, pass);
    JoinAssoc(before, RecordsAll(done, resolver, pass), RecordsAll(last, resolver, pass));
  }

  lemma {:induction false} FieldLeavesSnoc(o: Assoc<Value>, e: Entry<Value>)
    ensures FieldLeaves(o + [e]) == FieldLeaves(o) + Leaves(e.value)
  {
    var all := o + [e];
    if o == [] {
      assert all[1..] == [] && FieldLeaves(all[1..]) == [];
      assert all[0] == e && FieldLeaves(all) == Leaves(e.value) + [];
      assert FieldLeaves(o) == [];
    } else {
      FieldLeavesSnoc(o[1..], e);
      assert all[1..] == o[1..] + [e];
      var head, more, last := Leaves(o[0].value), FieldLeaves(o[1..]), Leaves(e.value);
      assert all[0] == o[0] && FieldLeaves(all) == head + (more + last);
      assert head + (more + last) == (head + more) + last;
      assert FieldLeaves(o) == head + more;
    }
  }

  // ------------------------------------------------------------ dedup --

  /** `Vec::dedup`: only a repeat of its neighbour goes. */
  function Dedup<T(==)>(xs: seq<T>): seq<T> {
    if |xs| <= 1 then xs
    else if xs[0] == xs[1] then Dedup(xs[1..]) else [xs[0]] + Dedup(xs[1..])
  }

  /** `dedup_by` on the name: of neighbours with one name, the first stays. */
  function DedupByName(ps: seq<(string, string)>): seq<(string, string)>
    decreases |ps|
  {
    if |ps| <= 1 then ps
    else if ps[0].0 == ps[1].0 then DedupByName([ps[0]] + ps[2..])
    else [ps[0]] + DedupByName(ps[1..])
  }

  function Deduped(ch: Channels): Channels {
    Channels(Dedup(ch.unresolved), DedupByName(ch.failed), DedupByName(ch.denied), Dedup(ch.secrets))
  }

  predicate Distinct<T(==)>(xs: seq<T>) { forall i, j :: 0 <= i < j < |xs| ==> xs[i] != xs[j] }

  /** Equal elements stand next to each other. */
  predicate Grouped<T(==)>(xs: seq<T>) {
    forall i, j, k :: 0 <= i < j < k < |xs| && xs[i] == xs[k] ==> xs[j] == xs[i]
  }

  lemma {:induction false} DedupKeeps<T>(xs: seq<T>)
    ensures forall x :: x in Dedup(xs) <==> x in xs
    ensures forall i :: 0 < i < |Dedup(xs)| ==> Dedup(xs)[i - 1] != Dedup(xs)[i]
    ensures xs != [] ==> Dedup(xs) != [] && Dedup(xs)[0] == xs[0]
  {
    if |xs| <= 1 {
    } else {
      DedupKeeps(xs[1..]);
      assert forall x :: x in xs <==> x == xs[0] || x in xs[1..];
    }
  }

  lemma {:induction false} GroupedTail<T>(xs: seq<T>)
    requires |xs| > 1
    ensures Grouped(xs) ==> Grouped(xs[1..])
    ensures xs[0] == xs[1] && Grouped(xs[1..]) ==> Grouped(xs)
    ensures xs[0] !in xs[1..] && Grouped(xs[1..]) ==> Grouped(xs)
  {
    var tail := xs[1..];
    if (xs[0] == xs[1] || xs[0] !in tail) && Grouped(tail) {
      forall i, j, k | 0 <= i < j < k < |xs| && xs[i] == xs[k] ensures xs[j] == xs[i] {
        assert tail[j - 1] == xs[j] && tail[k - 1] == xs[k];
        if j > 1 {
          var before := if i == 0 then 0 else i - 1;
          assert tail[before] == xs[i];
        }
      }
    }
  }

  lemma {:induction false} DistinctCons<T>(x: T, xs: seq<T>)
    ensures Distinct([x] + xs) <==> Distinct(xs) && x !in xs
  {
    var all := [x] + xs;
    assert forall i :: 0 <= i < |xs| ==> xs[i] == all[i + 1];
    assert all[0] == x;
  }

  /** The renderer means to list each reference once; it does so exactly when
      the repeats it collected stand next to each other. */
  lemma {:induction false} DedupIsDistinct<T>(xs: seq<T>)
    ensures Distinct(Dedup(xs)) <==> Grouped(xs)
  {
    if |xs| <= 1 {
    } else {
      var tail := xs[1..];
      DedupIsDistinct(tail);
      DedupKeeps(tail);
      GroupedTail(xs);
      if xs[0] != xs[1] {
        DistinctCons(xs[0], Dedup(tail));
        if xs[0] in tail {
          var k :| 0 <= k < |tail| && tail[k] == xs[0];
          assert 0 < 1 < k + 1 < |xs| && xs[0] == xs[k + 1];
        }
      }
    }
  }

  /** A reference that comes back after another one is listed twice. */
  lemma DedupKeepsDistantRepeats(a: string, b: string)
    requires a != b
    ensures Dedup([a, b, a]) == [a, b, a] && !Distinct(Dedup([a, b, a]))
  {
    assert [a, b, a][1..] == [b, a] && [b, a][1..] == [a];
    assert Dedup([b, a]) == [b, a];
    assert [a, b, a][0] == [a, b, a][2];
  }

  // The failed and denied channels are pairs of a name and a reason, and repeats
  // are told by the name.

  function NamesOf(ps: seq<(string, string)>): seq<string> {
    Each(ps, (p: (string, string)) => p.0)
  }

  lemma {:induction false} NamesOfCons(p: (string, string), rest: seq<(string, string)>)
    ensures NamesOf([p] + rest) == [p.0] + NamesOf(rest)
  {
    assert ([p] + rest)[1..] == rest;
  }

  lemma {:induction false} DedupCons(n: string, m: string, rest: seq<string>)
    ensures Dedup([n] + ([m] + rest)) == if n == m then Dedup([m] + rest) else [n] + Dedup([m] + rest)
  {
    assert ([n] + ([m] + rest))[1..] == [m] + rest;
  }

  /** Their names are de-duplicated like any other list. */
  lemma {:induction false} DedupedNames(ps: seq<(string, string)>)
    ensures NamesOf(DedupByName(ps)) == Dedup(NamesOf(ps))
    decreases |ps|
  {
    if |ps| <= 1 {
    } else {
      var first, second, rest := ps[0], ps[1], ps[2..];
      assert ps == [first] + ([second] + rest) && ps[1..] == [second] + rest;
      NamesOfCons(first, [second] + rest);
      NamesOfCons(second, rest);
      DedupCons(first.0, second.0, NamesOf(rest));
      if first.0 == second.0 {
        NamesOfCons(first, rest);
        DedupedNames([first] + rest);
      } else {
        DedupedNames(ps[1..]);
        NamesOfCons(first, DedupByName(ps[1..]));
      }
    }
  }

  /** Each name is listed once if and only if its repeats stood next to each other. */
  lemma {:induction false} DedupByNameIsDistinct(ps: seq<(string, string)>)
    ensures Distinct(NamesOf(DedupByName(ps))) <==> Grouped(NamesOf(ps))
  {
    DedupedNames(ps);
    DedupIsDistinct(NamesOf(ps));
  }

  /** Some entry stands at `i`, and it opens a run of its name. */
  predicate OpensRun(ps: seq<(string, string)>, i: int) {
    0 <= i < |ps| && (i == 0 || ps[i - 1].0 != ps[i].0)
  }

  /** Of every run of a name exactly its first reason stays. */
  lemma {:induction false} DedupByNameKeepsFirst(ps: seq<(string, string)>, x: (string, string))
    ensures x in DedupByName(ps) <==> exists i :: OpensRun(ps, i) && ps[i] == x
    decreases |ps|
  {
    if |ps| <= 1 {
      assert |ps| == 1 ==> OpensRun(ps, 0) && ps == [ps[0]];
    } else if ps[0].0 == ps[1].0 {
      var qs := [ps[0]] + ps[2..];
      DedupByNameKeepsFirst(qs, x);
      if i :| OpensRun(qs, i) && qs[i] == x {
        assert i == 0 || qs[i] == ps[i + 1];
        assert i > 1 ==> qs[i - 1] == ps[i];
        assert OpensRun(ps, if i == 0 then 0 else i + 1);
      }
      if i :| OpensRun(ps, i) && ps[i] == x {
        assert i != 1;
        assert i > 1 ==> qs[i - 1] == ps[i];
        assert i > 2 ==> qs[i - 2] == ps[i - 1];
        assert OpensRun(qs, if i == 0 then 0 else i - 1);
      }
    } else {
      var qs := ps[1..];
      DedupByNameKeepsFirst(qs, x);
      assert DedupByName(ps) == [ps[0]] + DedupByName(qs);
      if i :| OpensRun(qs, i) && qs[i] == x {
        assert i > 0 ==> qs[i - 1] == ps[i];
        assert OpensRun(ps, i + 1) && ps[i + 1] == x;
      }
      if i :| OpensRun(ps, i) && ps[i] == x {
        assert i > 1 ==> qs[i - 2] == ps[i - 1];
        assert i > 0 ==> OpensRun(qs, i - 1) && qs[i - 1] == x;
      }
      assert OpensRun(ps, 0);
    }
  }

  method RenderTables(mcp: McpSpec, s: Server, resolver: Resolver, body: Assoc<Value>, before: Channels)
    returns (out: Assoc<Value>, ch: Channels)
    ensures forall k :: Get(out, k) == Over(TablesAt(mcp, s, resolver, k), Get(body, k))
    ensures ch == before.Join(RecordsAll(TextsUnder(mcp.fields.headers, s.headers), resolver, mcp.passthrough))
                        .Join(RecordsAll(TextsUnder(mcp.fields.env, s.env), resolver, mcp.passthrough))
  {
    out, ch := WriteTable(body, mcp.fields.headers, s.headers, resolver, mcp.passthrough, before);
    out, ch := WriteTable(out, mcp.fields.env, s.env, resolver, mcp.passthrough, ch);
  }

  /** The seven steps, each writing over the ones before. */
  method RenderBody(id: string, mcp: McpSpec, s: Server, resolver: Resolver)
    returns (body: Assoc<Value>, ch: Channels)
    requires DistinctKeys(ExtrasOf(id, s))
    ensures Renders(id, mcp, s, resolver, body)
    ensures ch == RecordsAll(RenderedTexts(id, mcp, s), resolver, mcp.passthrough)
  {
    TextsInOrder(id, mcp, s, resolver);
    body, ch := RenderAddress(mcp, s, resolver);
    var command, args;
    body, ch, command, args := RenderCommand(mcp, s, resolver, body, ch);
    body, ch := RenderCwd(mcp, s, resolver, body, ch, command, args);
    body, ch := RenderTables(mcp, s, resolver, body, ch);
    body, ch := WriteExtras(body, ExtrasOf(id, s), resolver, mcp.passthrough, ch);
  }

  datatype Rendered = Rendered(body: Assoc<Value>, channels: Channels, representable: bool)

  /** `render_server`. An adapter with no MCP section renders nothing. */
  method RenderServer(id: string, spec: Option<McpSpec>, s: Server, resolver: Resolver) returns (r: Rendered)
    requires DistinctKeys(ExtrasOf(id, s))
    ensures spec.None? ==> r == Rendered([], QUIET, false)
    ensures spec.Some? ==>
              && Renders(id, spec.value, s, resolver, r.body)
              && r.channels == Deduped(RecordsAll(RenderedTexts(id, spec.value, s), resolver, spec.value.passthrough))
              && (r.representable <==> if s.serverType.Http? then spec.value.fields.url.Some?
                                       else spec.value.fields.command.Some?)
  {
    if spec.None? {
      return Rendered([], QUIET, false);
    }
    var mcp := spec.value;
    var representable := match s.serverType
                         case Http => mcp.fields.url.Some?
                         case Stdio => mcp.fields.command.Some?;
    var body, ch := RenderBody(id, mcp, s, resolver);
    r := Rendered(body, Deduped(ch), representable);
  }

  lemma {:induction false} TextsInOrder(id: string, mcp: McpSpec, s: Server, resolver: Resolver)
    ensures RecordsAll(RenderedTexts(id, mcp, s), resolver, mcp.passthrough)
            == RecordsAll(OptText(mcp.fields.url.Some?, s.url), resolver, mcp.passthrough)
               .Join(RecordsAll(OptText(mcp.fields.command.Some?, s.command), resolver, mcp.passthrough))
               .Join(RecordsAll(LaunchArgs(mcp, s), resolver, mcp.passthrough))
               .Join(RecordsAll(CwdTexts(mcp, s), resolver, mcp.passthrough))
               .Join(RecordsAll(TextsUnder(mcp.fields.headers, s.headers), resolver, mcp.passthrough))
               .Join(RecordsAll(TextsUnder(mcp.fields.env, s.env), resolver, mcp.passthrough))
               .Join(RecordsAll(FieldLeaves(ExtrasOf(id, s)), resolver, mcp.passthrough))
  {
    var t0 := OptText(mcp.fields.url.Some?, s.url);
    var t1 := OptText(mcp.fields.command.Some?, s.command);
    var t2 := LaunchArgs(mcp, s);
    var t3 := CwdTexts(mcp, s);
    var t4 := TextsUnder(mcp.fields.headers, s.headers);
    var t5 := TextsUnder(mcp.fields.env, s.env);
    var t6 := FieldLeaves(ExtrasOf(id, s));
    SevenJoin(t0, t1, t2, t3, t4, t5, t6, resolver, mcp.passthrough);
  }

  lemma {:induction false} SevenJoin(
    t0: seq<string>, t1: seq<string>, t2: seq<string>, t3: seq<string>, t4: seq<string>,
    t5: seq<string>, t6: seq<string>, res: Resolver, p: bool)
    ensures RecordsAll(t0 + (t1 + (t2 + (t3 + (t4 + (t5 + t6))))), res, p)
            == RecordsAll(t0, res, p).Join(RecordsAll(t1, res, p)).Join(RecordsAll(t2, res, p))
               .Join(RecordsAll(t3, res, p)).Join(RecordsAll(t4, res, p)).Join(RecordsAll(t5, res, p))
               .Join(RecordsAll(t6, res, p))
  {
    RecordsAllJoin(t5, t6, res, p);
    RecordsAllJoin(t4, t5 + t6, res, p);
    RecordsAllJoin(t3, t4 + (t5 + t6), res, p);
    RecordsAllJoin(t2, t3 + (t4 + (t5 + t6)), res, p);
    RecordsAllJoin(t1, t2 + (t3 + (t4 + (t5 + t6))), res, p);
    RecordsAllJoin(t0, t1 + (t2 + (t3 + (t4 + (t5 + t6)))), res, p);
    SevenAssoc(RecordsAll(t0, res, p), RecordsAll(t1, res, p), RecordsAll(t2, res, p), RecordsAll(t3, res, p),
               RecordsAll(t4, res, p), RecordsAll(t5, res, p), RecordsAll(t6, res, p));
  }

  lemma SevenAssoc(a: Channels, b: Channels, c: Channels, d: Channels, e: Channels, f: Channels, g: Channels)
    ensures a.Join(b.Join(c.Join(d.Join(e.Join(f.Join(g))))))
            == a.Join(b).Join(c).Join(d).Join(e).Join(f).Join(g)
  {
    JoinAssoc(e, f, g);
    JoinAssoc(d, e, f.Join(g));
    JoinAssoc(d.Join(e), f, g);
    JoinAssoc(a, b, c.Join(d.Join(e.Join(f.Join(g)))));
    JoinAssoc(a.Join(b), c, d.Join(e.Join(f.Join(g))));
    JoinAssoc(a.Join(b).Join(c), d, e.Join(f.Join(g)));
    JoinAssoc(a.Join(b).Join(c).Join(d), e, f.Join(g));
    JoinAssoc(a.Join(b).Join(c).Join(d).Join(e), f, g);
  }
}
