/** The `${NAME}` reference scanner (crates/adapters/src/render.rs,
    crates/core/src/refs.rs): a left-to-right loop with four result channels,
    proved against a segmentation of the input. */
module Refs {
  import opened Text

  predicate IsNameChar(c: char) { IsAsciiAlnum(c) || c == '_' }

  /** `[A-Za-z_][A-Za-z0-9_]*` */
  predicate IsRefName(s: string) {
    && s != [] && !IsAsciiDigit(s[0])
    && forall i :: 0 <= i < |s| ==> IsNameChar(s[i])
  }

  datatype Lookup = Found(value: string) | Missing | Failed(why: string) | Denied(why: string)

  type Resolver = string -> Lookup

  /** What one substitution reports: each reference lands in exactly one list. */
  datatype Channels = Channels(
    unresolved: seq<string>,
    failed: seq<(string, string)>,
    denied: seq<(string, string)>,
    secrets: seq<(string, string)>)
  {
    function Size(): nat { |unresolved| + |failed| + |denied| + |secrets| }

    function Join(that: Channels): Channels {
      Channels(unresolved + that.unresolved, failed + that.failed,
               denied + that.denied, secrets + that.secrets)
    }
  }

  const QUIET := Channels([], [], [], [])

  function Record(name: string, found: Lookup): Channels {
    match found
    case Found(v) => QUIET.(secrets := [(name, v)])
    case Missing => QUIET.(unresolved := [name])
    case Failed(why) => QUIET.(failed := [(name, why)])
    case Denied(why) => QUIET.(denied := [(name, why)])
  }

  // --------------------------------------------------------- segmentation --

  datatype Segment = Lit(text: string) | Ref(name: string)

  predicate Opens(s: string, i: nat) {
    i + 1 < |s| && s[i] == '$' && s[i + 1] == '{'
  }

  /** Index of the brace that closes the reference opening at `i`; 0 when none
      opens there. */
  function RefEnd(s: string, i: nat): (end: nat)
    requires i < |s|
    ensures end != 0 ==> Opens(s, i) && i + 2 < end < |s| && s[end] == '}' && IsRefName(s[i + 2..end])
  {
    if !Opens(s, i) then 0
    else
      var end := FindChar(s, '}', i + 2);
      if end < |s| && IsRefName(s[i + 2..end]) then end else 0
  }

  function Head(s: string, i: nat): Segment
    requires i < |s|
  {
    if RefEnd(s, i) != 0 then Ref(s[i + 2..RefEnd(s, i)]) else if Opens(s, i) then Lit("${") else Lit([s[i]])
  }

  function Next(s: string, i: nat): (n: nat)
    requires i < |s|
    ensures i < n <= |s|
  {
    if RefEnd(s, i) != 0 then RefEnd(s, i) + 1 else if Opens(s, i) then i + 2 else i + 1
  }

  /** The reference reading of a string from position `i`: references first, left
      to right; a `${` that opens none is text, and its interior is read again. */
  function SegmentsFrom(s: string, i: nat): seq<Segment>
    requires i <= |s|
    decreases |s| - i
  {
    if i == |s| then [] else [Head(s, i)] + SegmentsFrom(s, Next(s, i))
  }

  function Segments(s: string): seq<Segment> {
    SegmentsFrom(s, 0)
  }

  function Spelling(g: Segment): string {
    match g
    case Lit(t) => t
    case Ref(n) => "${" + n + "}"
  }

  function Spell(gs: seq<Segment>): string {
    if gs == [] then [] else Spelling(gs[0]) + Spell(gs[1..])
  }

  function Names(gs: seq<Segment>): seq<string> {
    if gs == [] then []
    else if gs[0].Ref? then [gs[0].name] + Names(gs[1..])
    else Names(gs[1..])
  }

  /** A found value replaces the reference; anything else leaves it spelled out. */
  function Rendering(g: Segment, resolver: Resolver): string {
    if g.Ref? && resolver(g.name).Found? then resolver(g.name).value else Spelling(g)
  }

  function RenderText(gs: seq<Segment>, resolver: Resolver): string {
    if gs == [] then [] else Rendering(gs[0], resolver) + RenderText(gs[1..], resolver)
  }

  function Records(gs: seq<Segment>, resolver: Resolver): Channels {
    if gs == [] then QUIET
    else if gs[0].Ref? then Record(gs[0].name, resolver(gs[0].name)).Join(Records(gs[1..], resolver))
    else Records(gs[1..], resolver)
  }

  function SubText(s: string, resolver: Resolver, passthrough: bool): string {
    if passthrough then s else RenderText(Segments(s), resolver)
  }

  function SubRecords(s: string, resolver: Resolver, passthrough: bool): Channels {
    if passthrough then QUIET else Records(Segments(s), resolver)
  }

  // ------------------------------------------------------------- the loop --

  lemma JoinQuiet(ch: Channels)
    ensures ch.Join(QUIET) == ch && QUIET.Join(ch) == ch
  {
  }

  lemma JoinAssoc(a: Channels, b: Channels, c: Channels)
    ensures a.Join(b).Join(c) == a.Join(b.Join(c))
  {
  }

  function HeadRecord(g: Segment, resolver: Resolver): Channels {
    if g.Ref? then Record(g.name, resolver(g.name)) else QUIET
  }

  /** The body of the scanning loop: consume one head. A reference's value is
      copied in and never looked at again, because only `s` is ever read. */
  method ScanHead(s: string, at: nat, resolver: Resolver, text: string, before: Channels)
    returns (i: nat, out: string, ch: Channels)
    requires at < |s|
    ensures i == Next(s, at)
    ensures out == text + Rendering(Head(s, at), resolver)
    ensures ch == before.Join(HeadRecord(Head(s, at), resolver))
  {
    i, out, ch := at, text, before;
    if Opens(s, i) {
      var end := FindChar(s, '}', i + 2);
      if end < |s| && IsRefName(s[i + 2..end]) {
        var name := s[i + 2..end];
        SliceSpells(s, i, end);
        out, ch := PlaceReference(name, s[i..end + 1], resolver, out, ch);
        i := end + 1;
        return;
      }
      out := out + "${";
      i := i + 2;
      JoinQuiet(ch);
      return;
    }
    out := out + [s[i]];
    i := i + 1;
    JoinQuiet(ch);
  }

  lemma SliceSpells(s: string, i: nat, end: nat)
    requires Opens(s, i) && i + 2 <= end < |s| && s[end] == '}'
    ensures s[i..end + 1] == Spelling(Ref(s[i + 2..end]))
  {
    assert s[i..end + 1] == s[i..i + 2] + s[i + 2..end] + s[end..end + 1];
    assert s[i..i + 2] == "${" && s[end..end + 1] == "}";
  }

  /** A resolved reference is replaced; any other outcome is recorded and the
      spelling kept. */
  method PlaceReference(name: string, spelling: string, resolver: Resolver, text: string, before: Channels)
    returns (out: string, ch: Channels)
    requires spelling == Spelling(Ref(name))
    ensures out == text + Rendering(Ref(name), resolver)
    ensures ch == before.Join(Record(name, resolver(name)))
  {
    out, ch := text, before;
    match resolver(name) {
      case Found(value) =>
        ch := ch.(secrets := ch.secrets + [(name, value)]);
        out := out + value;
      case Missing =>
        ch := ch.(unresolved := ch.unresolved + [name]);
        out := out + spelling;
      case Failed(why) =>
        ch := ch.(failed := ch.failed + [(name, why)]);
        out := out + spelling;
      case Denied(why) =>
        ch := ch.(denied := ch.denied + [(name, why)]);
        out := out + spelling;
    }
  }

  /** `substitute_with` */
  method SubstituteWith(s: string, resolver: Resolver, passthrough: bool, before: Channels)
    returns (out: string, ch: Channels)
    ensures out == SubText(s, resolver, passthrough)
    ensures ch == before.Join(SubRecords(s, resolver, passthrough))
  {
    out, ch := [], before;
    JoinQuiet(before);
    if passthrough || !Contains(s, "${") {
      if !passthrough {
        NoOpenerIsText(s, 0, resolver);
        assert s[0..] == s;
      }
      out := s;
      return;
    }
    var i := 0;
    while i < |s|
      invariant 0 <= i <= |s|
      invariant out + RenderText(SegmentsFrom(s, i), resolver) == RenderText(Segments(s), resolver)
      invariant ch.Join(Records(SegmentsFrom(s, i), resolver)) == before.Join(Records(Segments(s), resolver))
    {
      LoopStep(s, i, resolver, out, ch);
      i, out, ch := ScanHead(s, i, resolver, out, ch);
    }
    JoinQuiet(ch);
  }

  /** The loop's invariant, one head further on. */
  lemma {:induction false} LoopStep(s: string, i: nat, resolver: Resolver, out: string, ch: Channels)
    requires i < |s|
    ensures out + RenderText(SegmentsFrom(s, i), resolver)
            == out + Rendering(Head(s, i), resolver) + RenderText(SegmentsFrom(s, Next(s, i)), resolver)
    ensures ch.Join(Records(SegmentsFrom(s, i), resolver))
            == ch.Join(HeadRecord(Head(s, i), resolver)).Join(Records(SegmentsFrom(s, Next(s, i)), resolver))
  {
    var tail := SegmentsFrom(s, Next(s, i));
    Unfold(Head(s, i), tail, resolver);
    AppendAssoc(out, Rendering(Head(s, i), resolver), RenderText(tail, resolver));
    JoinAssoc(ch, HeadRecord(Head(s, i), resolver), Records(tail, resolver));
  }

  /** One segment and the rest. */
  lemma {:induction false} Unfold(g: Segment, tail: seq<Segment>, resolver: Resolver)
    ensures RenderText([g] + tail, resolver) == Rendering(g, resolver) + RenderText(tail, resolver)
    ensures Records([g] + tail, resolver) == HeadRecord(g, resolver).Join(Records(tail, resolver))
    ensures Spell([g] + tail) == Spelling(g) + Spell(tail)
    ensures Names([g] + tail) == (if g.Ref? then [g.name] else []) + Names(tail)
  {
    assert ([g] + tail)[0] == g && ([g] + tail)[1..] == tail;
    JoinQuiet(Records(tail, resolver));
  }

  /** The shortcut for strings without `${` agrees with the loop. */
  lemma {:induction false} NoOpenerIsText(s: string, i: nat, resolver: Resolver)
    requires i <= |s| && !Contains(s, "${")
    ensures RenderText(SegmentsFrom(s, i), resolver) == s[i..]
    ensures Records(SegmentsFrom(s, i), resolver) == QUIET
    decreases |s| - i
  {
    if i == |s| {
    } else {
      NoOpener(s, i);
      NoOpenerIsText(s, i + 1, resolver);
      Unfold(Lit([s[i]]), SegmentsFrom(s, i + 1), resolver);
      SlicesJoin(s, i, i + 1);
      JoinQuiet(QUIET);
    }
  }

  lemma SlicesJoin(s: string, i: nat, j: nat)
    requires i <= j <= |s|
    ensures s[i..j] + s[j..] == s[i..]
    ensures j == i + 1 ==> s[i..j] == [s[i]]
  {
  }

  lemma NoOpener(s: string, i: nat)
    requires i < |s| && !Contains(s, "${")
    ensures !Opens(s, i) && Head(s, i) == Lit([s[i]]) && Next(s, i) == i + 1
  {
    if Opens(s, i) {
      assert s[i..i + 2] == "${";
      assert OccursAt(s, "${", i);
    }
  }

  // ------------------------------------------------------- what it reports --

  /** A head is spelled exactly as it stands in the string. */
  lemma {:induction false} HeadSpells(s: string, i: nat)
    requires i < |s|
    ensures Spelling(Head(s, i)) == s[i..Next(s, i)]
  {
    if RefEnd(s, i) != 0 {
      SliceSpells(s, i, RefEnd(s, i));
    }
  }

  lemma {:induction false} SegmentsSpellFrom(s: string, i: nat)
    requires i <= |s|
    ensures Spell(SegmentsFrom(s, i)) == s[i..]
    decreases |s| - i
  {
    if i == |s| {
    } else {
      HeadSpells(s, i);
      SegmentsSpellFrom(s, Next(s, i));
      Unfold(Head(s, i), SegmentsFrom(s, Next(s, i)), _ => Missing);
      SlicesJoin(s, i, Next(s, i));
    }
  }

  /** The segmentation loses nothing: spelled out again, it is the input. */
  lemma {:induction false} SegmentsSpell(s: string)
    ensures Spell(Segments(s)) == s
  {
    SegmentsSpellFrom(s, 0);
    assert s[0..] == s;
  }

  /** A reference spelled out reads as that one reference. */
  lemma {:induction false} ReferenceReads(n: string)
    requires IsRefName(n)
    ensures Segments(Spelling(Ref(n))) == [Ref(n)]
  {
    var w := Spelling(Ref(n));
    assert w[0] == '$' && w[1] == '{' && w[2..|w| - 1] == n && w[|w| - 1] == '}';
    forall k | 2 <= k < |w| - 1 ensures w[k] != '}' {
      assert w[k] == n[k - 2] && IsNameChar(n[k - 2]);
    }
    FindCharIs(w, '}', 2, |w| - 1);
    assert RefEnd(w, 0) == |w| - 1;
    assert SegmentsFrom(w, |w|) == [];
  }

  /** Every reference adds one record to exactly one channel. */
  lemma {:induction false} OneRecordEach(gs: seq<Segment>, resolver: Resolver)
    ensures Records(gs, resolver).Size() == |Names(gs)|
  {
    if gs == [] {
    } else {
      OneRecordEach(gs[1..], resolver);
    }
  }

  /** The names a channel reports, in order. */
  function NamesWhere(names: seq<string>, keep: string -> bool): seq<string> {
    if names == [] then []
    else if keep(names[0]) then [names[0]] + NamesWhere(names[1..], keep)
    else NamesWhere(names[1..], keep)
  }

  /** The (name, detail) pairs a channel reports, in order. */
  function PairsWhere(names: seq<string>, pick: string -> Option<string>): seq<(string, string)> {
    if names == [] then []
    else if pick(names[0]).Some? then [(names[0], pick(names[0]).value)] + PairsWhere(names[1..], pick)
    else PairsWhere(names[1..], pick)
  }

  lemma {:induction false} UnresolvedIsFilter(gs: seq<Segment>, resolver: Resolver)
    ensures Records(gs, resolver).unresolved == NamesWhere(Names(gs), n => resolver(n).Missing?)
  {
    if gs == [] {
    } else {
      UnresolvedIsFilter(gs[1..], resolver);
      assert gs[0].Ref? ==> Names(gs)[1..] == Names(gs[1..]);
    }
  }

  lemma {:induction false} FailedIsFilter(gs: seq<Segment>, resolver: Resolver)
    ensures Records(gs, resolver).failed
            == PairsWhere(Names(gs), n => if resolver(n).Failed? then Some(resolver(n).why) else None)
  {
    if gs == [] {
    } else {
      FailedIsFilter(gs[1..], resolver);
      assert gs[0].Ref? ==> Names(gs)[1..] == Names(gs[1..]);
    }
  }

  lemma {:induction false} DeniedIsFilter(gs: seq<Segment>, resolver: Resolver)
    ensures Records(gs, resolver).denied
            == PairsWhere(Names(gs), n => if resolver(n).Denied? then Some(resolver(n).why) else None)
  {
    if gs == [] {
    } else {
      DeniedIsFilter(gs[1..], resolver);
      assert gs[0].Ref? ==> Names(gs)[1..] == Names(gs[1..]);
    }
  }

  lemma {:induction false} SecretsIsFilter(gs: seq<Segment>, resolver: Resolver)
    ensures Records(gs, resolver).secrets
            == PairsWhere(Names(gs), n => if resolver(n).Found? then Some(resolver(n).value) else None)
  {
    if gs == [] {
    } else {
      SecretsIsFilter(gs[1..], resolver);
      assert gs[0].Ref? ==> Names(gs)[1..] == Names(gs[1..]);
    }
  }

  /** Each channel holds exactly the references whose lookup gave its answer,
      with that answer, in the order they stand in the input. */
  lemma {:induction false} ChannelsAreFilters(gs: seq<Segment>, resolver: Resolver)
    ensures Records(gs, resolver)
            == Channels(
                 NamesWhere(Names(gs), n => resolver(n).Missing?),
                 PairsWhere(Names(gs), n => if resolver(n).Failed? then Some(resolver(n).why) else None),
                 PairsWhere(Names(gs), n => if resolver(n).Denied? then Some(resolver(n).why) else None),
                 PairsWhere(Names(gs), n => if resolver(n).Found? then Some(resolver(n).value) else None))
  {
    UnresolvedIsFilter(gs, resolver);
    FailedIsFilter(gs, resolver);
    DeniedIsFilter(gs, resolver);
    SecretsIsFilter(gs, resolver);
  }

  /** When nothing resolves the text comes out unchanged; and then no secret is
      reported. */
  lemma {:induction false} UnresolvedIsUnchanged(s: string, resolver: Resolver, passthrough: bool)
    requires forall n :: n in Names(Segments(s)) ==> !resolver(n).Found?
    ensures SubText(s, resolver, passthrough) == s
    ensures SubRecords(s, resolver, passthrough).secrets == []
  {
    SegmentsSpell(s);
    UnresolvedSegments(Segments(s), resolver);
  }

  lemma {:induction false} UnresolvedSegments(gs: seq<Segment>, resolver: Resolver)
    requires forall n :: n in Names(gs) ==> !resolver(n).Found?
    ensures RenderText(gs, resolver) == Spell(gs)
    ensures Records(gs, resolver).secrets == []
  {
    if gs == [] {
    } else {
      UnresolvedSegments(gs[1..], resolver);
    }
  }

  // ------------------------------------------------- the preflight scanner --

  method NameHead(s: string, at: nat, names: seq<string>) returns (i: nat, out: seq<string>)
    requires at < |s|
    ensures i == Next(s, at)
    ensures out == names + (if Head(s, at).Ref? then [Head(s, at).name] else [])
  {
    i, out := at, names;
    if s[i] == '$' && i + 1 < |s| && s[i + 1] == '{' {
      var end := FindChar(s, '}', i + 2);
      if end < |s| {
        var name := s[i + 2..end];
        if IsRefName(name) {
          out := out + [name];
          i := end + 1;
          return;
        }
      }
      i := i + 2;
      return;
    }
    i := i + 1;
  }

  /** `refs_in`: the manifest's own scanner finds exactly the references that
      substitution will look up, in the same order. */
  method RefsIn(s: string) returns (out: seq<string>)
    ensures out == Names(Segments(s))
  {
    out := [];
    var i := 0;
    while i < |s|
      invariant 0 <= i <= |s|
      invariant out + Names(SegmentsFrom(s, i)) == Names(Segments(s))
    {
      NamesStep(s, i, out);
      i, out := NameHead(s, i, out);
    }
  }

  lemma {:induction false} NamesStep(s: string, i: nat, out: seq<string>)
    requires i < |s|
    ensures out + Names(SegmentsFrom(s, i))
            == out + (if Head(s, i).Ref? then [Head(s, i).name] else []) + Names(SegmentsFrom(s, Next(s, i)))
  {
    Unfold(Head(s, i), SegmentsFrom(s, Next(s, i)), _ => Missing);
  }
}
