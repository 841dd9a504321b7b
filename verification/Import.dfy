/** `extract_servers_with_skips` (crates/adapters/src/import.rs), the reverse of
    the renderer, and the two round trips. */
module Import {
  import opened Text
  import opened Json
  import opened Refs
  import opened Render
  import opened Meaning
  import opened ToolManaged

  // ------------------------------------------------------- reading one entry --

  function StringsOf(items: seq<Value>): seq<string> {
    if items == [] then []
    else if items[0].Str? then [items[0].s] + StringsOf(items[1..])
    else StringsOf(items[1..])
  }

  function TableStrings(o: Assoc<Value>): Assoc<string> {
    if o == [] then []
    else if o[0].value.Str? then [Entry(o[0].key, o[0].value.s)] + TableStrings(o[1..])
    else TableStrings(o[1..])
  }

  function FieldValue(obj: Assoc<Value>, field: Option<string>): Option<Value> {
    if field.Some? then Get(obj, field.value) else None
  }

  function ArgsOf(obj: Assoc<Value>, field: Option<string>): seq<string> {
    var v := FieldValue(obj, field);
    if v.Some? && v.value.Arr? then StringsOf(v.value.items) else []
  }

  function MapOf(obj: Assoc<Value>, field: Option<string>): Assoc<string> {
    var v := FieldValue(obj, field);
    if v.Some? && v.value.Obj? then TableStrings(v.value.fields) else []
  }

  /** Prefer an explicit transport tag, else the fields that are present. */
  function InferType(mcp: McpSpec, tag: Option<Value>, url: Option<string>, command: Option<string>): ServerType {
    if mcp.transport.Some? && tag == Some(Str(mcp.transport.value.httpValue)) then Http
    else if && mcp.transport.Some? && mcp.transport.value.stdioValue.Some?
            && tag == Some(Str(mcp.transport.value.stdioValue.value)) then Stdio
    else if url.Some? && command.None? then Http
    else Stdio
  }

  /** The entries whose keys the adapter gives no meaning to. */
  function Unknown(mcp: McpSpec, obj: Assoc<Value>): Assoc<Value> {
    if obj == [] then []
    else if IsKnown(mcp, obj[0].key) then Unknown(mcp, obj[1..])
    else [obj[0]] + Unknown(mcp, obj[1..])
  }

  function Extract(id: string, mcp: McpSpec, obj: Assoc<Value>): Option<Server> {
    var url, command := ReadStr(obj, mcp.fields.url), ReadStr(obj, mcp.fields.command);
    if url.None? && command.None? then None
    else Some(Server(
      InferType(mcp, FieldValue(obj, TagKey(mcp)), url, command),
      url, command, ArgsOf(obj, mcp.fields.args), ReadStr(obj, mcp.fields.cwd),
      MapOf(obj, mcp.fields.headers), MapOf(obj, mcp.fields.env),
      if Unknown(mcp, obj) == [] then [] else [Entry(id, Unknown(mcp, obj))]))
  }

  // --------------------------------------------------------- the whole section --

  datatype Reason = NotATable | NeitherUrlNorCommand

  /** The outcome for one named entry: imported, or skipped with a reason. */
  datatype Outcome = Imported(name: string, server: Server) | Skipped(name: string, reason: Reason)

  function OutcomeOf(id: string, mcp: McpSpec, e: Entry<Value>): Outcome {
    if !e.value.Obj? then Skipped(e.key, NotATable)
    else match Extract(id, mcp, e.value.fields)
      case Some(s) => Imported(e.key, s)
      case None => Skipped(e.key, NeitherUrlNorCommand)
  }

  function ImportedOf(id: string, mcp: McpSpec, section: Assoc<Value>): Assoc<Server> {
    if section == [] then []
    else match OutcomeOf(id, mcp, section[0])
      case Imported(n, s) => [Entry(n, s)] + ImportedOf(id, mcp, section[1..])
      case Skipped(_, _) => ImportedOf(id, mcp, section[1..])
  }

  function SkippedOf(id: string, mcp: McpSpec, section: Assoc<Value>): Assoc<Reason> {
    if section == [] then []
    else match OutcomeOf(id, mcp, section[0])
      case Imported(_, _) => SkippedOf(id, mcp, section[1..])
      case Skipped(n, r) => [Entry(n, r)] + SkippedOf(id, mcp, section[1..])
  }

  lemma {:induction false} ImportStep(id: string, mcp: McpSpec, section: Assoc<Value>, i: nat,
                                      out: Assoc<Server>, skipped: Assoc<Reason>)
    requires i < |section|
    ensures var o := OutcomeOf(id, mcp, section[i]);
            && out + ImportedOf(id, mcp, section[i..])
               == (if o.Imported? then out + [Entry(o.name, o.server)] else out) + ImportedOf(id, mcp, section[i + 1..])
            && skipped + SkippedOf(id, mcp, section[i..])
               == (if o.Imported? then skipped else skipped + [Entry(o.name, o.reason)])
                  + SkippedOf(id, mcp, section[i + 1..])
  {
    var rest := section[i..];
    assert rest[0] == section[i] && rest[1..] == section[i + 1..];
    var o := OutcomeOf(id, mcp, section[i]);
    if o.Imported? {
      assert out + ([Entry(o.name, o.server)] + ImportedOf(id, mcp, rest[1..]))
          == out + [Entry(o.name, o.server)] + ImportedOf(id, mcp, rest[1..]);
    } else {
      assert skipped + ([Entry(o.name, o.reason)] + SkippedOf(id, mcp, rest[1..]))
          == skipped + [Entry(o.name, o.reason)] + SkippedOf(id, mcp, rest[1..]);
    }
  }

  /** One entry of the import loop. */
  method ImportEntry(id: string, mcp: McpSpec, e: Entry<Value>, out: Assoc<Server>, skipped: Assoc<Reason>)
    returns (out': Assoc<Server>, skipped': Assoc<Reason>)
    ensures var o := OutcomeOf(id, mcp, e);
            && out' == (if o.Imported? then out + [Entry(o.name, o.server)] else out)
            && skipped' == (if o.Imported? then skipped else skipped + [Entry(o.name, o.reason)])
  {
    out', skipped' := out, skipped;
    if !e.value.Obj? {
      skipped' := skipped' + [Entry(e.key, NotATable)];
      return;
    }
    var server := Extract(id, mcp, e.value.fields);
    if server.None? {
      skipped' := skipped' + [Entry(e.key, NeitherUrlNorCommand)];
      return;
    }
    out' := out' + [Entry(e.key, server.value)];
  }

  /** The import loop: every entry of the section lands in exactly one of the two
      lists, each list in file order. */
  method ExtractServers(id: string, mcp: McpSpec, section: Assoc<Value>)
    returns (out: Assoc<Server>, skipped: Assoc<Reason>)
    ensures out == ImportedOf(id, mcp, section) && skipped == SkippedOf(id, mcp, section)
    ensures |out| + |skipped| == |section|
  {
    out, skipped := [], [];
    ghost var imports, skips := ImportedOf(id, mcp, section), SkippedOf(id, mcp, section);
    assert section[0..] == section;
    for i := 0 to |section|
      invariant out + ImportedOf(id, mcp, section[i..]) == imports
      invariant skipped + SkippedOf(id, mcp, section[i..]) == skips
      invariant |out| + |skipped| == i
    {
      ImportStep(id, mcp, section, i, out, skipped);
      out, skipped := ImportEntry(id, mcp, section[i], out, skipped);
    }
    assert section[|section|..] == [];
  }

  // ------------------------------------------------------- nothing resolves --

  /** Substitution leaves these texts alone: the target expands references itself,
      or no reference that stands in them resolves here. */
  ghost predicate Unresolved(texts: seq<string>, resolver: Resolver, pass: bool) {
    pass || forall t, n :: t in texts && n in Names(Segments(t)) ==> !resolver(n).Found?
  }

  lemma {:induction false} UnresolvedJoin(a: seq<string>, b: seq<string>, resolver: Resolver, pass: bool)
    requires Unresolved(a + b, resolver, pass)
    ensures Unresolved(a, resolver, pass) && Unresolved(b, resolver, pass)
  {
    assert forall t :: t in a ==> t in a + b;
    assert forall t :: t in b ==> t in a + b;
  }

  lemma {:induction false} UnresolvedFrom(a: seq<string>, b: seq<string>, resolver: Resolver, pass: bool)
    requires Unresolved(b, resolver, pass) && forall t :: t in a ==> t in b
    ensures Unresolved(a, resolver, pass)
  {
  }

  lemma {:induction false} InertText(s: string, texts: seq<string>, resolver: Resolver, pass: bool)
    requires Unresolved(texts, resolver, pass) && s in texts
    ensures SubText(s, resolver, pass) == s
  {
    if !pass {
      UnresolvedIsUnchanged(s, resolver, pass);
    }
  }

  lemma {:induction false} InertTexts(texts: seq<string>, resolver: Resolver, pass: bool)
    requires Unresolved(texts, resolver, pass)
    ensures SubAll(texts, resolver, pass) == texts
  {
    forall i | 0 <= i < |texts| ensures SubText(texts[i], resolver, pass) == texts[i] {
      InertText(texts[i], texts, resolver, pass);
    }
  }

  lemma {:induction false} InertValue(v: Value, resolver: Resolver, pass: bool)
    requires Unresolved(Leaves(v), resolver, pass)
    ensures SubValue(v, resolver, pass) == v
    decreases v
  {
    match v {
      case Str(s) => InertText(s, [s], resolver, pass);
      case Arr(items) => InertItems(items, resolver, pass);
      case Obj(fields) => InertFields(fields, resolver, pass);
      case _ =>
    }
  }

  lemma {:induction false} InertItems(vs: seq<Value>, resolver: Resolver, pass: bool)
    requires Unresolved(ItemLeaves(vs), resolver, pass)
    ensures SubItems(vs, resolver, pass) == vs
    decreases vs
  {
    if vs == [] {
    } else {
      UnresolvedJoin(Leaves(vs[0]), ItemLeaves(vs[1..]), resolver, pass);
      InertValue(vs[0], resolver, pass);
      InertItems(vs[1..], resolver, pass);
    }
  }

  lemma {:induction false} InertFields(o: Assoc<Value>, resolver: Resolver, pass: bool)
    requires Unresolved(FieldLeaves(o), resolver, pass)
    ensures SubFields(o, resolver, pass) == o
    decreases o
  {
    if o == [] {
    } else {
      UnresolvedJoin(Leaves(o[0].value), FieldLeaves(o[1..]), resolver, pass);
      InertValue(o[0].value, resolver, pass);
      InertFields(o[1..], resolver, pass);
    }
  }

  lemma {:induction false} InertTable(o: Assoc<string>, resolver: Resolver, pass: bool)
    requires Unresolved(TableTexts(o), resolver, pass)
    ensures TableStrings(SubTable(o, resolver, pass)) == o
  {
    if o == [] {
    } else {
      UnresolvedJoin([o[0].value], TableTexts(o[1..]), resolver, pass);
      InertText(o[0].value, [o[0].value], resolver, pass);
      InertTable(o[1..], resolver, pass);
      assert SubTable(o, resolver, pass)[1..] == SubTable(o[1..], resolver, pass);
      assert [o[0]] + o[1..] == o;
    }
  }

  lemma {:induction false} InertOption(text: Option<string>, resolver: Resolver, pass: bool)
    requires Unresolved(OptText(true, text), resolver, pass)
    ensures StrOf(text, resolver, pass) == if text.Some? then Some(Str(text.value)) else None
  {
    if text.Some? {
      InertText(text.value, OptText(true, text), resolver, pass);
    }
  }

  /** The leaves of one field are leaves of the object. */
  lemma {:induction false} GetLeaves(o: Assoc<Value>, k: string)
    ensures Get(o, k).Some? ==> forall t :: t in Leaves(Get(o, k).value) ==> t in FieldLeaves(o)
  {
    if o == [] {
    } else {
      GetLeaves(o[1..], k);
      InBoth(Leaves(o[0].value), FieldLeaves(o[1..]));
    }
  }

  lemma InBoth(a: seq<string>, b: seq<string>)
    ensures forall t :: t in a + b <==> t in a || t in b
  {
  }

  /** The scanned texts, piece by piece. */
  lemma {:induction false} TextsUnresolved(id: string, mcp: McpSpec, s: Server, resolver: Resolver, pass: bool)
    requires Unresolved(RenderedTexts(id, mcp, s), resolver, pass)
    ensures Unresolved(OptText(mcp.fields.url.Some?, s.url), resolver, pass)
    ensures Unresolved(OptText(mcp.fields.command.Some?, s.command), resolver, pass)
    ensures Unresolved(LaunchArgs(mcp, s), resolver, pass)
    ensures Unresolved(CwdTexts(mcp, s), resolver, pass)
    ensures Unresolved(TextsUnder(mcp.fields.headers, s.headers), resolver, pass)
    ensures Unresolved(TextsUnder(mcp.fields.env, s.env), resolver, pass)
    ensures Unresolved(FieldLeaves(ExtrasOf(id, s)), resolver, pass)
  {
    var t6 := FieldLeaves(ExtrasOf(id, s));
    var t5 := TextsUnder(mcp.fields.env, s.env) + t6;
    var t4 := TextsUnder(mcp.fields.headers, s.headers) + t5;
    var t3 := CwdTexts(mcp, s) + t4;
    var t2 := LaunchArgs(mcp, s) + t3;
    var t1 := OptText(mcp.fields.command.Some?, s.command) + t2;
    UnresolvedJoin(OptText(mcp.fields.url.Some?, s.url), t1, resolver, pass);
    UnresolvedJoin(OptText(mcp.fields.command.Some?, s.command), t2, resolver, pass);
    UnresolvedJoin(LaunchArgs(mcp, s), t3, resolver, pass);
    UnresolvedJoin(CwdTexts(mcp, s), t4, resolver, pass);
    UnresolvedJoin(TextsUnder(mcp.fields.headers, s.headers), t5, resolver, pass);
    UnresolvedJoin(TextsUnder(mcp.fields.env, s.env), t6, resolver, pass);
  }

  // ---------------------------------------------------- import after render --

  /** The part of a server an adapter can express, as the importer gives it back;
      a combined command array is not read as a command. */
  function Canonical(mcp: McpSpec, s: Server): Server {
    var f := mcp.fields;
    var url := if f.url.Some? then s.url else None;
    var command := if f.command.Some? && !mcp.commandArray then s.command else None;
    Server(InferType(mcp, TagValue(mcp, s.serverType), url, command),
           url, command,
           if f.args.Some? && !mcp.commandArray then s.args else [],
           if f.cwd.Some? && s.serverType.Stdio? then s.cwd else None,
           if f.headers.Some? then s.headers else [],
           if f.env.Some? then s.env else [],
           [])
  }

  /** When the transport survives: an explicit tag must name it, else the
      presence of readable fields must. */
  predicate TypeKept(mcp: McpSpec, s: Server) {
    if TagOf(mcp, s.serverType).Some?
    then s.serverType.Http? || mcp.transport.value.httpValue != TagOf(mcp, Stdio).value
    else s.serverType.Http? <==>
           (mcp.fields.url.Some? && s.url.Some?) && (mcp.commandArray || !HasCommand(mcp, s))
  }

  lemma {:induction false} StringsOfStrs(texts: seq<string>)
    ensures StringsOf(Strs(texts)) == texts
  {
    if texts == [] {
    } else {
      StringsOfStrs(texts[1..]);
      assert Strs(texts)[1..] == Strs(texts[1..]);
      assert [texts[0]] + texts[1..] == texts;
    }
  }

  lemma {:induction false} UnknownGet(mcp: McpSpec, obj: Assoc<Value>, k: string)
    ensures Get(Unknown(mcp, obj), k) == if IsKnown(mcp, k) then None else Get(obj, k)
  {
    if obj == [] {
    } else {
      UnknownGet(mcp, obj[1..], k);
      if !IsKnown(mcp, obj[0].key) {
        assert Unknown(mcp, obj)[1..] == Unknown(mcp, obj[1..]);
      }
    }
  }

  // Each known key of a rendered, unwrapped entry holds its own field and nothing else.

  /** The command, as this adapter writes it. */
  function CommandValue(mcp: McpSpec, s: Server, resolver: Resolver): Option<Value> {
    if !mcp.commandArray then StrOf(s.command, resolver, mcp.passthrough)
    else if s.command.None? then None
    else Some(Arr([Str(SubText(s.command.value, resolver, mcp.passthrough))]
                  + Strs(SubAll(LaunchArgs(mcp, s), resolver, mcp.passthrough))))
  }

  function ArgsValue(mcp: McpSpec, args: seq<string>): Option<Value> {
    if args == [] || mcp.commandArray then None else Some(Arr(Strs(args)))
  }

  lemma {:induction false} RenderedLaunch(
    id: string, mcp: McpSpec, s: Server, resolver: Resolver, body: Assoc<Value>)
    requires DistinctFields(mcp) && ExtrasApart(id, mcp, s) && Renders(id, mcp, s, resolver, body)
    ensures !Wraps(mcp, s) && mcp.fields.command.Some? ==>
              FieldValue(body, mcp.fields.command) == CommandValue(mcp, s, resolver)
    ensures !Wraps(mcp, s) && mcp.fields.args.Some? ==>
              FieldValue(body, mcp.fields.args) == ArgsValue(mcp, SubAll(s.args, resolver, mcp.passthrough))
    ensures mcp.fields.cwd.Some? ==>
              FieldValue(body, mcp.fields.cwd)
              == if s.serverType.Stdio? then StrOf(s.cwd, resolver, mcp.passthrough) else None
  {
    var f := mcp.fields;
    assert f.command.Some? ==> IsKnown(mcp, f.command.value);
    assert f.args.Some? ==> IsKnown(mcp, f.args.value);
    assert f.cwd.Some? ==> IsKnown(mcp, f.cwd.value);
  }

  lemma {:induction false} RenderedAddress(
    id: string, mcp: McpSpec, s: Server, resolver: Resolver, body: Assoc<Value>)
    requires DistinctFields(mcp) && ExtrasApart(id, mcp, s) && Renders(id, mcp, s, resolver, body)
    ensures mcp.fields.url.Some? ==> FieldValue(body, mcp.fields.url) == StrOf(s.url, resolver, mcp.passthrough)
    ensures FieldValue(body, TagKey(mcp)) == TagValue(mcp, s.serverType)
  {
    assert mcp.fields.url.Some? ==> IsKnown(mcp, mcp.fields.url.value);
    assert TagKey(mcp).Some? ==> IsKnown(mcp, TagKey(mcp).value);
  }

  lemma {:induction false} RenderedTables(
    id: string, mcp: McpSpec, s: Server, resolver: Resolver, body: Assoc<Value>)
    requires DistinctFields(mcp) && ExtrasApart(id, mcp, s) && Renders(id, mcp, s, resolver, body)
    ensures mcp.fields.headers.Some? ==>
              FieldValue(body, mcp.fields.headers) == TableOf(s.headers, resolver, mcp.passthrough)
    ensures mcp.fields.env.Some? ==> FieldValue(body, mcp.fields.env) == TableOf(s.env, resolver, mcp.passthrough)
  {
    assert mcp.fields.headers.Some? ==> IsKnown(mcp, mcp.fields.headers.value);
    assert mcp.fields.env.Some? ==> IsKnown(mcp, mcp.fields.env.value);
  }

  /** A key the adapter gives no meaning to holds the extra of that name. */
  lemma {:induction false} UnknownOfRendered(
    id: string, mcp: McpSpec, s: Server, resolver: Resolver, body: Assoc<Value>, k: string)
    requires Renders(id, mcp, s, resolver, body) && !IsKnown(mcp, k)
    requires Unresolved(FieldLeaves(ExtrasOf(id, s)), resolver, mcp.passthrough)
    ensures Get(body, k) == Get(ExtrasOf(id, s), k)
  {
    var f, extras := mcp.fields, ExtrasOf(id, s);
    assert f.url != Some(k) && f.command != Some(k) && f.args != Some(k) && f.cwd != Some(k)
        && f.headers != Some(k) && f.env != Some(k) && TagKey(mcp) != Some(k);
    assert Get(body, k) == Written(id, mcp, s, resolver, k);
    if Get(extras, k).Some? {
      GetLeaves(extras, k);
      UnresolvedFrom(Leaves(Get(extras, k).value), FieldLeaves(extras), resolver, mcp.passthrough);
      InertValue(Get(extras, k).value, resolver, mcp.passthrough);
    }
  }

  /** A combined command array is read back neither as a command nor as
      arguments, so such an entry is skipped exactly when the adapter maps no url
      or the server has none. */
  lemma {:induction false} CommandArrayImport(
    id: string, mcp: McpSpec, s: Server, resolver: Resolver, body: Assoc<Value>)
    requires DistinctFields(mcp) && ExtrasApart(id, mcp, s) && Renders(id, mcp, s, resolver, body)
    requires mcp.commandArray && HasCommand(mcp, s)
    ensures Extract(id, mcp, body) == None <==> mcp.fields.url.None? || s.url.None?
    ensures Extract(id, mcp, body).Some? ==>
              Extract(id, mcp, body).value.command.None? && Extract(id, mcp, body).value.args == []
  {
    KnownFields(id, mcp, s, resolver, body);
    RenderedAddress(id, mcp, s, resolver, body);
  }

  /** The canonical fields of a rendered entry, read back. */
  lemma {:induction false} ReadBack(
    id: string, mcp: McpSpec, s: Server, resolver: Resolver, body: Assoc<Value>)
    requires DistinctFields(mcp) && ExtrasApart(id, mcp, s) && Renders(id, mcp, s, resolver, body)
    requires !Wraps(mcp, s) && Unresolved(RenderedTexts(id, mcp, s), resolver, mcp.passthrough)
    ensures var c := Canonical(mcp, s);
            && ReadStr(body, mcp.fields.url) == c.url
            && ReadStr(body, mcp.fields.command) == c.command
            && ArgsOf(body, mcp.fields.args) == c.args
            && ReadStr(body, mcp.fields.cwd) == c.cwd
  {
    RenderedAddress(id, mcp, s, resolver, body);
    RenderedLaunch(id, mcp, s, resolver, body);
    FieldsInert(id, mcp, s, resolver);
    StringsOfStrs(s.args);
  }

  /** Each mapped field of the server is written as it stands. */
  lemma {:induction false} FieldsInert(id: string, mcp: McpSpec, s: Server, resolver: Resolver)
    requires !Wraps(mcp, s) && Unresolved(RenderedTexts(id, mcp, s), resolver, mcp.passthrough)
    ensures var p := mcp.passthrough;
            && (mcp.fields.url.Some? ==> StrOf(s.url, resolver, p) == TextValue(s.url))
            && (mcp.fields.command.Some? ==> StrOf(s.command, resolver, p) == TextValue(s.command))
            && (mcp.fields.cwd.Some? && s.serverType.Stdio? ==> StrOf(s.cwd, resolver, p) == TextValue(s.cwd))
            && (mcp.fields.args.Some? && !mcp.commandArray ==> SubAll(s.args, resolver, p) == s.args)
  {
    var p := mcp.passthrough;
    TextsUnresolved(id, mcp, s, resolver, p);
    if mcp.fields.url.Some? { InertOption(s.url, resolver, p); }
    if mcp.fields.command.Some? { InertOption(s.command, resolver, p); }
    if mcp.fields.cwd.Some? && s.serverType.Stdio? { InertOption(s.cwd, resolver, p); }
    if mcp.fields.args.Some? && !mcp.commandArray { InertTexts(s.args, resolver, p); }
  }

  function TextValue(text: Option<string>): Option<Value> {
    if text.Some? then Some(Str(text.value)) else None
  }

  lemma {:induction false} ReadBackTables(
    id: string, mcp: McpSpec, s: Server, resolver: Resolver, body: Assoc<Value>)
    requires DistinctFields(mcp) && ExtrasApart(id, mcp, s) && Renders(id, mcp, s, resolver, body)
    requires Unresolved(RenderedTexts(id, mcp, s), resolver, mcp.passthrough)
    ensures MapOf(body, mcp.fields.headers) == Canonical(mcp, s).headers
    ensures MapOf(body, mcp.fields.env) == Canonical(mcp, s).env
  {
    var p := mcp.passthrough;
    RenderedTables(id, mcp, s, resolver, body);
    TextsUnresolved(id, mcp, s, resolver, p);
    if mcp.fields.headers.Some? { InertTable(s.headers, resolver, p); }
    if mcp.fields.env.Some? { InertTable(s.env, resolver, p); }
  }

  lemma {:induction false} ReadBackExtras(
    id: string, mcp: McpSpec, s: Server, resolver: Resolver, body: Assoc<Value>)
    requires DistinctFields(mcp) && ExtrasApart(id, mcp, s) && Renders(id, mcp, s, resolver, body)
    requires Unresolved(RenderedTexts(id, mcp, s), resolver, mcp.passthrough)
    requires Extract(id, mcp, body).Some?
    ensures SameEntries(ExtrasOf(id, Extract(id, mcp, body).value), ExtrasOf(id, s))
  {
    ExtractedExtras(id, mcp, body);
    TextsUnresolved(id, mcp, s, resolver, mcp.passthrough);
    forall k ensures Get(Unknown(mcp, body), k) == Get(ExtrasOf(id, s), k) {
      UnknownGet(mcp, body, k);
      if !IsKnown(mcp, k) {
        UnknownOfRendered(id, mcp, s, resolver, body, k);
      }
    }
  }

  /** The importer infers the transport the server had exactly when `TypeKept`. */
  lemma {:induction false} TypeRoundTrip(mcp: McpSpec, s: Server)
    ensures Canonical(mcp, s).serverType == s.serverType <==> TypeKept(mcp, s)
  {
  }

  /** Importing a rendered entry returns everything the adapter can express and
      this adapter's extras; an entry with neither url nor readable command is
      skipped. Only the references that stand in the server's own texts matter. */
  lemma {:induction false} ImportAfterRender(
    id: string, mcp: McpSpec, s: Server, resolver: Resolver, body: Assoc<Value>)
    requires DistinctFields(mcp) && ExtrasApart(id, mcp, s) && Renders(id, mcp, s, resolver, body)
    requires !Wraps(mcp, s) && Unresolved(RenderedTexts(id, mcp, s), resolver, mcp.passthrough)
    ensures var c, got := Canonical(mcp, s), Extract(id, mcp, body);
            && (got.None? <==> c.url.None? && c.command.None?)
            && (got.Some? ==> && got.value.(extra := []) == c
                              && SameEntries(ExtrasOf(id, got.value), ExtrasOf(id, s)))
  {
    ReadBack(id, mcp, s, resolver, body);
    ReadBackTables(id, mcp, s, resolver, body);
    RenderedAddress(id, mcp, s, resolver, body);
    if Extract(id, mcp, body).Some? {
      ReadBackExtras(id, mcp, s, resolver, body);
    }
  }

  /** A wrapped server comes back as the shell command it was rewritten into, on
      an adapter that keeps the command a string and maps the arguments. */
  lemma {:induction false} WrappedImport(
    id: string, mcp: McpSpec, s: Server, resolver: Resolver, body: Assoc<Value>)
    requires DistinctFields(mcp) && ExtrasApart(id, mcp, s) && Renders(id, mcp, s, resolver, body)
    requires Wraps(mcp, s) && !mcp.commandArray && mcp.fields.args.Some?
    ensures Extract(id, mcp, body).Some?
    ensures var got := Extract(id, mcp, body).value;
            && got.command == Some("sh") && got.args == ["-c", WrapScript(mcp, s, resolver)] && got.cwd == None
  {
    KnownFields(id, mcp, s, resolver, body);
    var script := WrapScript(mcp, s, resolver);
    assert Get(body, mcp.fields.args.value) == Some(Arr([Str("-c"), Str(script)]));
    assert Strs(["-c", script]) == [Str("-c"), Str(script)];
    StringsOfStrs(["-c", script]);
  }

  /** So the classification an import gives a wrapped server is that of its own
      command line exactly when wrapping that command line keeps it. */
  lemma {:induction false} WrappedImportClassification(
    id: string, mcp: McpSpec, s: Server, resolver: Resolver, body: Assoc<Value>, home: Option<string>)
    requires DistinctFields(mcp) && ExtrasApart(id, mcp, s) && Renders(id, mcp, s, resolver, body)
    requires Wraps(mcp, s) && !mcp.commandArray && mcp.fields.args.Some?
    ensures Extract(id, mcp, body).Some? && Extract(id, mcp, body).value.command.Some?
    ensures var got := Extract(id, mcp, body).value;
            var cwd := SubText(s.cwd.value, resolver, mcp.passthrough);
            var cmd := SubText(s.command.value, resolver, mcp.passthrough);
            var args := SubAll(s.args, resolver, mcp.passthrough);
            Classify(got.command.value, got.args, home) == Classify(cmd, args, home)
            <==> KeepsClassification(cwd, cmd, args, home)
  {
    WrappedImport(id, mcp, s, resolver, body);
    WrappingKeepsClassification(
      SubText(s.cwd.value, resolver, mcp.passthrough), SubText(s.command.value, resolver, mcp.passthrough),
      SubAll(s.args, resolver, mcp.passthrough), home);
  }

  lemma {:induction false} ExtractedExtras(id: string, mcp: McpSpec, obj: Assoc<Value>)
    requires Extract(id, mcp, obj).Some?
    ensures ExtrasOf(id, Extract(id, mcp, obj).value) == Unknown(mcp, obj)
  {
  }

  // ---------------------------------------------------- render after import --

  predicate AllStr(items: seq<Value>) { forall i :: 0 <= i < |items| ==> items[i].Str? }

  predicate AllStrValues(o: Assoc<Value>) { forall i :: 0 <= i < |o| ==> o[i].value.Str? }

  predicate TextOrAbsent(v: Option<Value>) { v.Some? ==> v.value.Str? }

  predicate ArgsOrAbsent(v: Option<Value>) {
    v.Some? ==> v.value.Arr? && v.value.items != [] && AllStr(v.value.items)
  }

  predicate TableOrAbsent(v: Option<Value>) {
    v.Some? ==> v.value.Obj? && v.value.fields != [] && AllStrValues(v.value.fields)
  }

  /** The native entries that survive an import and a re-render: every canonical
      field well typed and not empty, no launch on an adapter that combines it
      into one array, no working directory on an http entry, and the transport
      tag spelled as the renderer would spell it. */
  predicate WellTyped(mcp: McpSpec, obj: Assoc<Value>) {
    var f := mcp.fields;
    var serverType := InferType(mcp, FieldValue(obj, TagKey(mcp)), ReadStr(obj, f.url), ReadStr(obj, f.command));
    && TextOrAbsent(FieldValue(obj, f.url))
    && (if mcp.commandArray then FieldValue(obj, f.command).None? && FieldValue(obj, f.args).None?
        else TextOrAbsent(FieldValue(obj, f.command)) && ArgsOrAbsent(FieldValue(obj, f.args)))
    && TextOrAbsent(FieldValue(obj, f.cwd))
    && (FieldValue(obj, f.cwd).Some? ==> serverType.Stdio?)
    && TableOrAbsent(FieldValue(obj, f.headers))
    && TableOrAbsent(FieldValue(obj, f.env))
    && (mcp.transport.Some? ==> FieldValue(obj, TagKey(mcp)) == TagValue(mcp, serverType))
  }

  lemma {:induction false} StrsOfStrings(items: seq<Value>)
    ensures Strs(StringsOf(items)) == items <==> AllStr(items)
    ensures |StringsOf(items)| <= |items|
  {
    if items == [] {
    } else {
      StrsOfStrings(items[1..]);
      if items[0].Str? {
        assert StringsOf(items)[1..] == StringsOf(items[1..]);
        assert Strs(StringsOf(items)) == [items[0]] + Strs(StringsOf(items[1..]));
        assert [items[0]] + items[1..] == items;
      }
    }
  }

  lemma {:induction false} TableOfStrings(o: Assoc<Value>, resolver: Resolver, pass: bool)
    requires Unresolved(TableTexts(TableStrings(o)), resolver, pass)
    ensures SubTable(TableStrings(o), resolver, pass) == o <==> AllStrValues(o)
    ensures |TableStrings(o)| <= |o|
  {
    if o == [] {
    } else {
      if o[0].value.Str? {
        var strings, rest := TableStrings(o), TableStrings(o[1..]);
        assert strings[0].value == o[0].value.s && strings[1..] == rest;
        UnresolvedJoin([o[0].value.s], TableTexts(rest), resolver, pass);
        TableOfStrings(o[1..], resolver, pass);
        InertText(o[0].value.s, [o[0].value.s], resolver, pass);
        assert SubTable(strings, resolver, pass) == [o[0]] + SubTable(rest, resolver, pass);
        assert [o[0]] + o[1..] == o;
      } else {
        TableOfStrings(o[1..], resolver, pass);
      }
    }
  }

  lemma {:induction false} ArgsSurvive(mcp: McpSpec, v: Option<Value>, resolver: Resolver, pass: bool)
    requires !mcp.commandArray
    requires v.Some? && v.value.Arr? ==> Unresolved(StringsOf(v.value.items), resolver, pass)
    ensures var args := if v.Some? && v.value.Arr? then StringsOf(v.value.items) else [];
            ArgsValue(mcp, SubAll(args, resolver, pass)) == v <==> ArgsOrAbsent(v)
  {
    if v.Some? && v.value.Arr? {
      var items := v.value.items;
      StrsOfStrings(items);
      InertTexts(StringsOf(items), resolver, pass);
      assert AllStr(items) && items != [] ==> |Strs(StringsOf(items))| > 0;
    }
  }

  lemma {:induction false} TableSurvives(v: Option<Value>, resolver: Resolver, pass: bool)
    requires v.Some? && v.value.Obj? ==> Unresolved(TableTexts(TableStrings(v.value.fields)), resolver, pass)
    ensures var o := if v.Some? && v.value.Obj? then TableStrings(v.value.fields) else [];
            TableOf(o, resolver, pass) == v <==> TableOrAbsent(v)
  {
    if v.Some? && v.value.Obj? {
      var fields := v.value.fields;
      TableOfStrings(fields, resolver, pass);
      assert AllStrValues(fields) && fields != [] ==> |SubTable(TableStrings(fields), resolver, pass)| > 0;
    }
  }

  lemma {:induction false} TextSurvives(v: Option<Value>, resolver: Resolver, pass: bool)
    requires v.Some? && v.value.Str? ==> Unresolved([v.value.s], resolver, pass)
    ensures StrOf(if v.Some? && v.value.Str? then Some(v.value.s) else None, resolver, pass) == v <==> TextOrAbsent(v)
  {
    if v.Some? && v.value.Str? {
      InertText(v.value.s, [v.value.s], resolver, pass);
    }
  }

  /** The renderer never writes an imported server's extras over its fields. */
  lemma {:induction false} ImportedExtrasApart(id: string, mcp: McpSpec, obj: Assoc<Value>)
    requires Extract(id, mcp, obj).Some?
    ensures ExtrasApart(id, mcp, Extract(id, mcp, obj).value)
    ensures !Wraps(mcp, Extract(id, mcp, obj).value)
  {
    ExtractedExtras(id, mcp, obj);
    forall k | IsKnown(mcp, k) ensures Get(Unknown(mcp, obj), k).None? {
      UnknownGet(mcp, obj, k);
    }
  }

  /** Both entries agree on one canonical field. */
  predicate AgreeOn(a: Assoc<Value>, b: Assoc<Value>, field: Option<string>) {
    FieldValue(a, field) == FieldValue(b, field)
  }

  predicate AgreeOnKnown(mcp: McpSpec, a: Assoc<Value>, b: Assoc<Value>) {
    var f := mcp.fields;
    && AgreeOn(a, b, f.url) && AgreeOn(a, b, f.command) && AgreeOn(a, b, f.args) && AgreeOn(a, b, f.cwd)
    && AgreeOn(a, b, f.headers) && AgreeOn(a, b, f.env) && AgreeOn(a, b, TagKey(mcp))
  }

  /** `body` is a rendering of the import of `obj`, and no reference in a scanned
      text of that import resolves. */
  ghost predicate Rerendered(
    id: string, mcp: McpSpec, obj: Assoc<Value>, resolver: Resolver, body: Assoc<Value>)
  {
    && Extract(id, mcp, obj).Some?
    && Renders(id, mcp, Extract(id, mcp, obj).value, resolver, body)
    && Unresolved(RenderedTexts(id, mcp, Extract(id, mcp, obj).value), resolver, mcp.passthrough)
  }

  lemma {:induction false} LaunchSurvives(
    id: string, mcp: McpSpec, obj: Assoc<Value>, resolver: Resolver, body: Assoc<Value>)
    requires DistinctFields(mcp) && Rerendered(id, mcp, obj, resolver, body)
    ensures var v := FieldValue(obj, mcp.fields.command);
            AgreeOn(body, obj, mcp.fields.command) <==> if mcp.commandArray then v.None? else TextOrAbsent(v)
    ensures var v := FieldValue(obj, mcp.fields.args);
            AgreeOn(body, obj, mcp.fields.args) <==> if mcp.commandArray then v.None? else ArgsOrAbsent(v)
    ensures AgreeOn(body, obj, mcp.fields.cwd)
            <==> && TextOrAbsent(FieldValue(obj, mcp.fields.cwd))
                 && (FieldValue(obj, mcp.fields.cwd).Some? ==> Extract(id, mcp, obj).value.serverType.Stdio?)
  {
    var s, f, p := Extract(id, mcp, obj).value, mcp.fields, mcp.passthrough;
    ImportedExtrasApart(id, mcp, obj);
    RenderedLaunch(id, mcp, s, resolver, body);
    TextsUnresolved(id, mcp, s, resolver, p);
    TextSurvives(FieldValue(obj, f.command), resolver, p);
    if !mcp.commandArray && f.args.Some? {
      ArgsSurvive(mcp, FieldValue(obj, f.args), resolver, p);
    }
    if s.serverType.Stdio? {
      TextSurvives(FieldValue(obj, f.cwd), resolver, p);
    }
  }

  lemma {:induction false} RestSurvives(
    id: string, mcp: McpSpec, obj: Assoc<Value>, resolver: Resolver, body: Assoc<Value>)
    requires DistinctFields(mcp) && Rerendered(id, mcp, obj, resolver, body)
    ensures AgreeOn(body, obj, mcp.fields.url) <==> TextOrAbsent(FieldValue(obj, mcp.fields.url))
    ensures AgreeOn(body, obj, mcp.fields.headers) <==> TableOrAbsent(FieldValue(obj, mcp.fields.headers))
    ensures AgreeOn(body, obj, mcp.fields.env) <==> TableOrAbsent(FieldValue(obj, mcp.fields.env))
    ensures FieldValue(body, TagKey(mcp)) == TagValue(mcp, Extract(id, mcp, obj).value.serverType)
  {
    var s, f, p := Extract(id, mcp, obj).value, mcp.fields, mcp.passthrough;
    ImportedExtrasApart(id, mcp, obj);
    RenderedAddress(id, mcp, s, resolver, body);
    RenderedTables(id, mcp, s, resolver, body);
    TextsUnresolved(id, mcp, s, resolver, p);
    TextSurvives(FieldValue(obj, f.url), resolver, p);
    TableSurvives(FieldValue(obj, f.headers), resolver, p);
    TableSurvives(FieldValue(obj, f.env), resolver, p);
  }

  lemma {:induction false} KnownFieldsSurvive(
    id: string, mcp: McpSpec, obj: Assoc<Value>, resolver: Resolver, body: Assoc<Value>)
    requires DistinctFields(mcp) && Rerendered(id, mcp, obj, resolver, body)
    ensures AgreeOnKnown(mcp, body, obj) <==> WellTyped(mcp, obj)
  {
    LaunchSurvives(id, mcp, obj, resolver, body);
    RestSurvives(id, mcp, obj, resolver, body);
  }

  /** Rendering an imported entry gives the entry back, unknown keys included,
      exactly when it is well typed. */
  lemma {:induction false} RenderAfterImport(
    id: string, mcp: McpSpec, obj: Assoc<Value>, resolver: Resolver, body: Assoc<Value>)
    requires DistinctFields(mcp) && Rerendered(id, mcp, obj, resolver, body)
    ensures SameEntries(body, obj) <==> WellTyped(mcp, obj)
  {
    KnownFieldsSurvive(id, mcp, obj, resolver, body);
    if WellTyped(mcp, obj) {
      forall k ensures Get(body, k) == Get(obj, k) {
        if !IsKnown(mcp, k) {
          UnknownSurvives(id, mcp, obj, resolver, body, k);
        }
      }
    }
  }

  lemma {:induction false} UnknownSurvives(
    id: string, mcp: McpSpec, obj: Assoc<Value>, resolver: Resolver, body: Assoc<Value>, k: string)
    requires Rerendered(id, mcp, obj, resolver, body) && !IsKnown(mcp, k)
    ensures Get(body, k) == Get(obj, k)
  {
    var s := Extract(id, mcp, obj).value;
    ExtractedExtras(id, mcp, obj);
    UnknownGet(mcp, obj, k);
    TextsUnresolved(id, mcp, s, resolver, mcp.passthrough);
    UnknownOfRendered(id, mcp, s, resolver, body, k);
  }

  // The scanned texts of an import are strings of the entry itself.

  lemma {:induction false} StringsAreLeaves(items: seq<Value>)
    ensures forall t :: t in StringsOf(items) ==> t in ItemLeaves(items)
  {
    if items == [] {
    } else {
      StringsAreLeaves(items[1..]);
      InBoth(Leaves(items[0]), ItemLeaves(items[1..]));
    }
  }

  lemma {:induction false} TableStringsAreLeaves(o: Assoc<Value>)
    ensures forall t :: t in TableTexts(TableStrings(o)) ==> t in FieldLeaves(o)
  {
    if o == [] {
    } else {
      TableStringsAreLeaves(o[1..]);
      InBoth(Leaves(o[0].value), FieldLeaves(o[1..]));
      if o[0].value.Str? {
        assert TableStrings(o)[0].value == o[0].value.s && TableStrings(o)[1..] == TableStrings(o[1..]);
      }
    }
  }

  lemma {:induction false} UnknownLeaves(mcp: McpSpec, obj: Assoc<Value>)
    ensures forall t :: t in FieldLeaves(Unknown(mcp, obj)) ==> t in FieldLeaves(obj)
  {
    if obj == [] {
    } else {
      UnknownLeaves(mcp, obj[1..]);
      InBoth(Leaves(obj[0].value), FieldLeaves(obj[1..]));
      if !IsKnown(mcp, obj[0].key) {
        assert Unknown(mcp, obj)[1..] == Unknown(mcp, obj[1..]);
        InBoth(Leaves(obj[0].value), FieldLeaves(Unknown(mcp, obj[1..])));
      }
    }
  }

  lemma {:induction false} FieldTexts(obj: Assoc<Value>, field: Option<string>)
    ensures forall t :: t in OptText(true, ReadStr(obj, field)) ==> t in FieldLeaves(obj)
    ensures forall t :: t in ArgsOf(obj, field) ==> t in FieldLeaves(obj)
    ensures forall t :: t in TableTexts(MapOf(obj, field)) ==> t in FieldLeaves(obj)
  {
    if field.Some? && Get(obj, field.value).Some? {
      var v := Get(obj, field.value).value;
      GetLeaves(obj, field.value);
      if v.Arr? {
        StringsAreLeaves(v.items);
      } else if v.Obj? {
        TableStringsAreLeaves(v.fields);
      }
    }
  }

  /** Every text scanned for an imported entry is one of the entry's own strings,
      so it is enough to look at those. */
  lemma {:induction false} ImportedTextsAreLeaves(id: string, mcp: McpSpec, obj: Assoc<Value>)
    requires Extract(id, mcp, obj).Some?
    ensures forall t :: t in RenderedTexts(id, mcp, Extract(id, mcp, obj).value) ==> t in FieldLeaves(obj)
  {
    var f := mcp.fields;
    FieldTexts(obj, f.url);
    FieldTexts(obj, f.command);
    FieldTexts(obj, f.args);
    FieldTexts(obj, f.cwd);
    FieldTexts(obj, f.headers);
    FieldTexts(obj, f.env);
    ExtractedExtras(id, mcp, obj);
    UnknownLeaves(mcp, obj);
  }
}
