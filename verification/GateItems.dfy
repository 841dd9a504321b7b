/** What an attribute may stand before in a source, with inputs on which the region
    finder leaves it (tools/check-enforcement-pairing.py). */
module GateItems {
  import opened Text
  import opened Masker
  import opened Regions
  import opened Lines
  import opened Items
  import opened Extents
  import opened Gate

  // ------------------------------------------------------- closing an item --

  lemma {:induction false} NothingCloses(before: string, line: string)
    requires '}' !in line && ';' !in line
    ensures !ClosesIn(before, line)
    decreases |line|
  {
    if line == [] {
    } else {
      NothingCloses(before + [line[0]], line[1..]);
    }
  }

  lemma {:induction false} NoBraces(text: string)
    requires '{' !in text && '}' !in text
    ensures Net(text + "{") == 1 && Closes(text + "{", '}')
  {
    assert multiset(text + "{") == multiset(text) + multiset("{");
    assert (text + "{")[|text|] == '{';
  }

  /** An item that opens its only block and closes it on line `e`. */
  lemma {:induction false} BlockEnds(lines: seq<string>, i: nat, e: nat, text: string, p: nat)
    requires i <= e < |lines| && p < |lines[e]| && lines[e][p] == '}'
    requires Joined(lines, i, e) + lines[e][..p] == text + "{" && '{' !in text && '}' !in text
    requires forall j :: i <= j < e ==> '}' !in lines[j] && ';' !in lines[j]
    ensures IsItemEnd(lines, i, e)
  {
    NoBraces(text);
    ClosesInMeans(Joined(lines, i, e), lines[e]);
    assert ClosesAt(Joined(lines, i, e), lines[e], p);
    forall j | i <= j < e ensures !LineCloses(lines, i, j) {
      NothingCloses(Joined(lines, i, j), lines[j]);
    }
  }

  /** A region that holds the first attribute line of a file starts at it. */
  lemma {:induction false} FirstStarts(raw: seq<string>, masked: seq<string>, i: nat, e: nat, r: Range)
    requires i <= e && IsItemEnd(masked, i, e) && IsItemRange(raw, masked, r) && r.lo <= i + 1
    requires forall m :: 0 <= m < i && m < |raw| ==> !IsAttribute(raw[m])
    ensures r == Range(i + 1, e + 1)
  {
    assert r.lo == i + 1;
    SameItem(raw, masked, r, Range(i + 1, e + 1));
  }

  /** The item of the first attribute line of a file is a region. */
  lemma {:induction false} FirstRegion(raw: seq<string>, masked: seq<string>, i: nat, e: nat)
    requires i <= e < |raw| == |masked| && IsAttribute(raw[i]) && IsItemEnd(masked, i, e)
    requires forall m :: 0 <= m < i ==> !IsAttribute(raw[m])
    ensures Range(i + 1, e + 1) in RangesFrom(raw, masked, 0)
  {
    var ranges := RangesFrom(raw, masked, 0);
    RangesWhole(raw, masked);
    AttributeIsInRange(raw, masked, Range(i + 1, e + 1));
    var k :| 0 <= k < |ranges| && ranges[k].lo <= i + 1 <= ranges[k].hi;
    FirstStarts(raw, masked, i, e, ranges[k]);
  }

  lemma InThatRange(ranges: seq<Range>, r: Range, n: int)
    requires r in ranges && r.lo <= n <= r.hi
    ensures InRanges(ranges, n)
  {
  }

  lemma {:induction false} PlainIsKept(src: string)
    requires IsQuiet(src)
    ensures Masked(src) == src
  {
    forall k | 0 <= k < |src| ensures Quiet(src, k) {
    }
    MaskFixed(src);
  }

  // ------------------------------------------------------------ plain images --

  /** Text without braces, semicolons, quotes, slashes and line ends. */
  predicate IsBland(text: string) {
    forall k :: 0 <= k < |text| ==>
      && text[k] != '{' && text[k] != '}' && text[k] != ';'
      && text[k] != '/' && text[k] != '"' && text[k] != '\'' && !IsBreak(text[k])
  }

  predicate IsQuiet(text: string) {
    forall k :: 0 <= k < |text| ==> text[k] != '/' && text[k] != '"' && text[k] != '\''
  }

  lemma {:induction false} QuietLines(lines: seq<string>)
    requires forall i :: 0 <= i < |lines| ==> IsQuiet(lines[i])
    ensures IsQuiet(Terminated(lines))
  {
    if lines == [] {
    } else {
      assert IsQuiet(lines[0]);
      QuietLines(lines[1..]);
    }
  }

  lemma {:induction false} NoAttribute(line: string)
    requires line == [] || (!IsSpace(line[0]) && line[0] != '#')
    ensures !IsAttribute(line)
  {
    assert TrimStart(line, IsSpace) == line;
  }

  /** An image of lines in which nothing is masked and no line end is stray. */
  lemma {:induction false} PlainImage(lines: seq<string>)
    requires AllUnbroken(lines) && forall i :: 0 <= i < |lines| ==> IsQuiet(lines[i])
    ensures var image := Terminated(lines);
            && Masked(image) == image && NewlinesOnly(image)
            && GitLines(image) == lines && MaskedLines(image) == lines
  {
    assert forall i :: 0 <= i < |lines| ==> Unbroken(lines[i]);
    QuietLines(lines);
    PlainIsKept(Terminated(lines));
    GitReadsTerminated(lines);
    TerminatedSplitsExactly(lines);
    SameLinesExactly(Terminated(lines));
  }

  lemma {:induction false} DropLines(lines: seq<string>, i: nat)
    requires i <= |lines|
    ensures StartOf(lines, i) <= |Terminated(lines)|
    ensures Terminated(lines)[StartOf(lines, i)..] == Terminated(lines[i..])
  {
    if i == 0 {
      assert lines[0..] == lines;
    } else {
      DropLines(lines[1..], i - 1);
      StartShifts(lines[0], lines[1..], i - 1);
      assert lines == [lines[0]] + lines[1..] && lines[1..][i - 1..] == lines[i..];
      DropMore(lines[0] + "\n", Terminated(lines[1..]), StartOf(lines[1..], i - 1));
    }
  }

  lemma DropMore(a: string, b: string, k: nat)
    requires k <= |b|
    ensures (a + b)[|a| + k..] == b[k..]
  {
  }

  lemma {:induction false} AttributeWithin(src: string, line: string, at: nat)
    requires StandsAt(src, line, at) && IsAttribute(line)
    ensures StandsAt(src, ATTRIBUTE, at + Indent(line))
  {
    AttributeStands(line);
    StandsWithin(src, line, at, ATTRIBUTE, Indent(line));
  }

  lemma {:induction false} AttributeInText(src: string, i: nat)
    requires i < |GitLines(src)| && IsAttribute(GitLines(src)[i])
    ensures StandsAt(src, ATTRIBUTE, AttributeAt(src, i))
  {
    LineStands(src, i);
    AttributeWithin(src, GitLines(src)[i], StartOf(GitLines(src), i));
  }

  /** In a source without comments and literals an attribute line is code. */
  lemma {:induction false} UnmaskedIsCode(src: string, i: nat)
    requires Masked(src) == src && i < |GitLines(src)| && IsAttribute(GitLines(src)[i])
    ensures OpensItem(src, i) && AttributeAt(src, i) <= |src|
  {
    AttributeInText(src, i);
    AttributeShowsExactly(src, AttributeAt(src, i));
  }

  // ------------------------------------------------------- things written out --

  /** Text without brackets, semicolons and commas. */
  predicate IsLeafText(text: string) {
    forall k :: 0 <= k < |text| ==> !IsOpener(text[k]) && !IsCloser(text[k]) && text[k] != ';' && text[k] != ','
  }

  function Leaves(text: string, rest: Trees): Trees {
    if text == [] then rest else Leaf(text[0], Leaves(text[1..], rest))
  }

  lemma {:induction false} LeavesWrite(text: string, rest: Trees, scope: Option<Kind>)
    requires IsLeafText(text) && IsTrees(rest, scope)
    ensures Written(Leaves(text, rest)) == text + Written(rest) && IsTrees(Leaves(text, rest), scope)
  {
    if text == [] {
    } else {
      LeavesWrite(text[1..], rest, scope);
      assert [text[0]] + text[1..] == text;
      AppendAssoc([text[0]], text[1..], Written(rest));
    }
  }

  /** The attribute, and trees behind it. */
  function AttributeTrees(rest: Trees): Trees {
    Leaf('#', Group('[', CONDITION, rest))
  }

  const CONDITION := Leaves("cfg", Group('(', Leaves("test", Nil), Nil))

  lemma {:induction false} ConditionWrites()
    ensures Written(CONDITION) == "cfg(test)" && IsTrees(CONDITION, None)
  {
    var test := Group('(', Leaves("test", Nil), Nil);
    LeavesWrite("test", Nil, None);
    assert Written(test) == ['('] + (("test" + []) + ([')'] + []));
    LeavesWrite("cfg", test, None);
  }

  lemma {:induction false} AttributeWrites(rest: Trees, kind: Kind)
    requires IsTrees(rest, Some(kind))
    ensures Written(AttributeTrees(rest)) == ATTRIBUTE + Written(rest)
    ensures IsTrees(AttributeTrees(rest), Some(kind))
  {
    ConditionWrites();
    var group := Group('[', CONDITION, rest);
    assert Written(group) == ['['] + ("cfg(test)" + ([']'] + Written(rest)));
    AttributeSpelled(Written(rest));
  }

  lemma AttributeSpelled(rest: string)
    ensures ['#'] + (['['] + ("cfg(test)" + ([']'] + rest))) == ATTRIBUTE + rest
  {
  }

  /** The attribute, some text, and an end. */
  function Behind(text: string, tail: Tail): Thing { Thing(AttributeTrees(Leaves(text, Nil)), tail) }

  lemma {:induction false} BehindIsThing(m: string, kind: Kind, text: string, tail: Tail)
    requires IsLeafText(text) && !tail.Enclosed? && (tail.Block? ==> IsTrees(tail.body, None))
    requires (tail.Comma? ==> kind.Listed?) && StandsAt(m, ATTRIBUTE + text + TailText(tail), 0)
    ensures IsThing(m, kind, Behind(text, tail))
    ensures TextOf(Behind(text, tail)) == ATTRIBUTE + text + TailText(tail)
  {
    LeavesWrite(text, Nil, Some(kind));
    AttributeWrites(Leaves(text, Nil), kind);
    assert text + [] == text;
  }

  /** With one attribute line only, a file has no other real item than its own. */
  lemma {:induction false} OnlyThing(src: string, g: Grammar, i: nat, x: Thing, n: int)
    requires IsRealItem(src, g, i, x) && !Reaches(src, i, x, n)
    requires forall m :: 0 <= m < |GitLines(src)| && IsAttribute(GitLines(src)[m]) ==> m == i
    ensures !InRealItem(src, g, n)
  {
    forall j: nat, y: Thing | IsRealItem(src, g, j, y) ensures !Reaches(src, j, y, n) {
      assert j == i;
      OneThing(Masked(src)[AttributeAt(src, i)..], g(src, AttributeAt(src, i)), x, y);
    }
  }

  // ------------------------------------------ a field, and what comes after it --

  /** Text that means nothing to the region finder and is no attribute. */
  predicate IsWord(text: string) {
    text != [] && IsBland(text) && IsLeafText(text) && !IsSpace(text[0]) && text[0] != '#'
  }

  /** A block with a test-only last field, and a function behind the block. */
  function FieldLines(open: string, field: string, head: string, body: string): seq<string> {
    [open + "{", ATTRIBUTE, field + ",", "}", head + "{", body, "}"]
  }

  lemma {:induction false} SevenLines(a: string, b: string, c: string, d: string, e: string, f: string, g: string)
    ensures var lines := [a, b, c, d, e, f, g];
            && StartOf(lines, 1) == |a| + 1 && StartOf(lines, 5) == |a| + |b| + |c| + |d| + |e| + 5
            && Terminated(lines[1..])
               == b + "\n" + (c + "\n" + (d + "\n" + (e + "\n" + (f + "\n" + (g + "\n")))))
  {
    var lines := [a, b, c, d, e, f, g];
    NextStart(lines, 0);
    NextStart(lines, 1);
    NextStart(lines, 2);
    NextStart(lines, 3);
    NextStart(lines, 4);
    SixWritten(b, c, d, e, f, g);
    assert lines[1..] == [b, c, d, e, f, g];
  }

  lemma NextStart(lines: seq<string>, i: nat)
    requires i < |lines|
    ensures StartOf(lines, i + 1) == StartOf(lines, i) + |lines[i]| + 1
  {
  }

  lemma OneWritten(line: string)
    ensures Terminated([line]) == line + "\n"
  {
    assert [line][1..] == [] && line + "\n" + [] == line + "\n";
  }

  lemma {:induction false} FourWritten(a: string, b: string, c: string, d: string)
    ensures Terminated([a, b, c, d]) == a + "\n" + (b + "\n" + (c + "\n" + (d + "\n")))
  {
    OneWritten(d);
    TerminatedCons(c, [d]);
    TerminatedCons(b, [c, d]);
    TerminatedCons(a, [b, c, d]);
    assert [c] + [d] == [c, d] && [b] + [c, d] == [b, c, d] && [a] + [b, c, d] == [a, b, c, d];
  }

  lemma {:induction false} SixWritten(a: string, b: string, c: string, d: string, e: string, f: string)
    ensures Terminated([a, b, c, d, e, f])
            == a + "\n" + (b + "\n" + (c + "\n" + (d + "\n" + (e + "\n" + (f + "\n")))))
  {
    FourWritten(c, d, e, f);
    TerminatedCons(b, [c, d, e, f]);
    TerminatedCons(a, [b, c, d, e, f]);
    assert [b] + [c, d, e, f] == [b, c, d, e, f] && [a] + [b, c, d, e, f] == [a, b, c, d, e, f];
  }

  lemma FlatWord(text: string)
    requires IsWord(text)
    ensures NoMarks(text, |text|) && Unbroken(text) && IsQuiet(text) && !IsAttribute(text)
  {
    NoAttribute(text);
  }

  /** The lines of the image, none masked, and none but the second an attribute. */
  lemma {:induction false} FieldImage(open: string, field: string, head: string, body: string)
    requires IsWord(open) && IsWord(field) && IsWord(head) && IsWord(body)
    ensures IsSample(FieldLines(open, field, head, body))
  {
    FlatWord(open);
    FlatWord(field);
    FlatWord(head);
    FlatWord(body);
    NoAttribute("}");
    NoAttribute(open + "{");
    NoAttribute(field + ",");
    NoAttribute(head + "{");
    AttributeIsAttribute();
  }

  lemma AttributeLine()
    ensures IsAttribute(ATTRIBUTE) && Indent(ATTRIBUTE) == 0
  {
    assert ATTRIBUTE[0] == '#';
    assert TrimStart(ATTRIBUTE, IsSpace) == ATTRIBUTE;
  }

  lemma AttributeCharacters()
    ensures forall c :: c in ATTRIBUTE ==> c in {'#', '[', 'c', 'f', 'g', '(', 't', 'e', 's', ')', ']'}
  {
  }

  lemma {:induction false} AttributeIsAttribute()
    ensures IsAttribute(ATTRIBUTE) && Indent(ATTRIBUTE) == 0 && IsQuiet(ATTRIBUTE) && Unbroken(ATTRIBUTE)
    ensures NoMarks(ATTRIBUTE, |ATTRIBUTE|)
  {
    AttributeLine();
    AttributeCharacters();
    var line := ATTRIBUTE;
    forall k | 0 <= k < |line|
      ensures !IsMark(line[k]) && !IsBreak(line[k]) && line[k] != '/' && line[k] != '"' && line[k] != '\''
    {
      assert line[k] in ATTRIBUTE;
    }
  }

  lemma FieldText(field: string, head: string, body: string)
    ensures ATTRIBUTE + "\n" + ((field + ",") + "\n" + ("}" + "\n"
               + ((head + "{") + "\n" + (body + "\n" + ("}" + "\n")))))
            == (ATTRIBUTE + "\n" + field + ",\n")
               + ("}" + (("\n" + head) + ("{" + (("\n" + body + "\n") + "}")))) + "\n"
  {
  }

  lemma PlainParts(field: string, head: string, body: string)
    requires NoMarks(field, |field|) && NoMarks(head, |head|) && NoMarks(body, |body|)
    ensures var a := ATTRIBUTE + "\n" + field + ",\n"; NoMarks(a, |a|)
    ensures var b := "\n" + head; NoMarks(b, |b|)
    ensures var c := "\n" + body + "\n"; NoMarks(c, |c|)
  {
    AttributeIsAttribute();
  }

  /** The text behind the attribute, in the pieces that matter to the scan. */
  lemma {:induction false} FieldScan(m: string, field: string, head: string, body: string)
    requires IsWord(field) && IsWord(head) && IsWord(body)
    requires m == ATTRIBUTE + "\n" + ((field + ",") + "\n" + ("}" + "\n"
                  + ((head + "{") + "\n" + (body + "\n" + ("}" + "\n")))))
    ensures FirstMark(m, |field| + 15) && m[|field| + 15] == '}'
    ensures FirstClosing(m, |field| + |head| + |body| + 20)
    ensures StandsAt(m, ATTRIBUTE + ("\n" + field) + ",", 0)
  {
    FlatWord(field);
    FlatWord(head);
    FlatWord(body);
    PlainParts(field, head, body);
    FieldText(field, head, body);
    NextBlockIsTaken(m, ATTRIBUTE + "\n" + field + ",\n", "\n" + head, "\n" + body + "\n");
  }

  lemma {:induction false} AttributeThere(image: string, lines: seq<string>, i: nat)
    requires Masked(image) == image && GitLines(image) == lines && image == Terminated(lines)
    requires i < |lines| && lines[i] == ATTRIBUTE
    ensures OpensItem(image, i) && AttributeAt(image, i) == StartOf(lines, i) <= |image|
    ensures Masked(image)[AttributeAt(image, i)..] == Terminated(lines[i..])
  {
    AttributeIsAttribute();
    UnmaskedIsCode(image, i);
    DropLines(lines, i);
  }

  /** The region of the only attribute line reaches the line of character `k`, where
      the scan first stops, and every line that starts before. */
  lemma {:induction false} RegionReaches(src: string, i: nat, k: nat, n: nat)
    requires NewlinesOnly(src) && OpensItem(src, i) && AttributeAt(src, i) <= |Masked(src)|
    requires FirstClosing(Masked(src)[AttributeAt(src, i)..], k)
    requires forall m :: 0 <= m < |GitLines(src)| && IsAttribute(GitLines(src)[m]) ==> m == i
    requires i < n <= |GitLines(src)| && StartOf(GitLines(src), n - 1) <= AttributeAt(src, i) + k
    ensures InRanges(TestRanges(Some(src)), n)
  {
    var e := ItemEndsThere(src, i, k);
    SameStarts(src);
    StartedBefore(MaskedLines(src), i, e, Indent(GitLines(src)[i]) + k, n - 1);
    RegionsOf(src);
    FirstRegion(GitLines(src), MaskedLines(src), i, e);
    InThatRange(TestRanges(Some(src)), Range(i + 1, e + 1), n);
  }

  /** Whatever the grammar, no thing behind the only attribute line reaches past the
      brace that closes the block around it. */
  lemma {:induction false} NothingPasses(src: string, g: Grammar, i: nat, f: nat, n: int)
    requires i < |GitLines(src)| && AttributeAt(src, i) <= |Masked(src)|
    requires forall m :: 0 <= m < |GitLines(src)| && IsAttribute(GitLines(src)[m]) ==> m == i
    requires var m := Masked(src)[AttributeAt(src, i)..]; FirstMark(m, f) && m[f] == '}'
    requires 1 <= n <= |GitLines(src)| && AttributeAt(src, i) + f <= StartOf(GitLines(src), n - 1)
    ensures !InRealItem(src, g, n)
  {
    forall j: nat, y: Thing | IsRealItem(src, g, j, y) ensures !Reaches(src, j, y, n) {
      assert j == i;
      StaysInBlock(Masked(src)[AttributeAt(src, i)..], g(src, AttributeAt(src, i)), y, f);
    }
  }

  /** Lines of a source without comments and literals, the second an attribute line
      and no other. */
  predicate IsSample(lines: seq<string>) {
    && |lines| > 1 && lines[1] == ATTRIBUTE
    && AllUnbroken(lines) && (forall i :: 0 <= i < |lines| ==> IsQuiet(lines[i]))
    && forall i :: 0 <= i < |lines| && IsAttribute(lines[i]) ==> i == 1
  }

  lemma {:induction false} SampleImage(lines: seq<string>)
    requires IsSample(lines)
    ensures var image := Terminated(lines);
            && NewlinesOnly(image) && GitLines(image) == lines && OpensItem(image, 1)
            && AttributeAt(image, 1) == StartOf(lines, 1) <= |Masked(image)|
            && Masked(image)[AttributeAt(image, 1)..] == Terminated(lines[1..])
  {
    PlainImage(lines);
    AttributeThere(Terminated(lines), lines, 1);
  }

  lemma {:induction false} SampleRegion(lines: seq<string>, k: nat, n: nat)
    requires IsSample(lines) && FirstClosing(Terminated(lines[1..]), k)
    requires 1 < n <= |lines| && StartOf(lines, n - 1) <= StartOf(lines, 1) + k
    ensures InRanges(TestRanges(Some(Terminated(lines))), n)
  {
    SampleImage(lines);
    RegionReaches(Terminated(lines), 1, k, n);
  }

  lemma {:induction false} SampleOutside(lines: seq<string>, g: Grammar, f: nat, n: nat)
    requires IsSample(lines) && FirstMark(Terminated(lines[1..]), f) && Terminated(lines[1..])[f] == '}'
    requires 1 < n <= |lines| && StartOf(lines, 1) + f <= StartOf(lines, n - 1)
    ensures !InRealItem(Terminated(lines), g, n)
  {
    SampleImage(lines);
    NothingPasses(Terminated(lines), g, 1, f, n);
  }

  /** What the attribute stands before, when it is an element that ends with a comma. */
  lemma {:induction false} SampleElement(lines: seq<string>, g: Grammar, text: string)
    requires IsSample(lines) && IsLeafText(text) && StandsAt(Terminated(lines[1..]), ATTRIBUTE + text + ",", 0)
    requires g(Terminated(lines), StartOf(lines, 1)).Listed?
    ensures IsRealItem(Terminated(lines), g, 1, Behind(text, Comma))
    ensures |TextOf(Behind(text, Comma))| == |ATTRIBUTE| + |text| + 1
  {
    SampleImage(lines);
    BehindIsThing(Terminated(lines[1..]), Listed, text, Comma);
  }

  lemma {:induction false} SampleBehind(lines: seq<string>, g: Grammar, text: string, n: nat)
    requires IsSample(lines) && IsLeafText(text) && StandsAt(Terminated(lines[1..]), ATTRIBUTE + text + ",", 0)
    requires g(Terminated(lines), StartOf(lines, 1)).Listed?
    requires 1 < n <= |lines| && StartOf(lines, 1) + |ATTRIBUTE| + |text| + 1 <= StartOf(lines, n - 1)
    ensures !InRealItem(Terminated(lines), g, n)
  {
    SampleImage(lines);
    SampleElement(lines, g, text);
    OnlyThing(Terminated(lines), g, 1, Behind(text, Comma), n);
  }

  /** In the image of these lines, line `n` is exempt though it lies in no test item. */
  ghost predicate IsSwallowed(lines: seq<string>, g: Grammar, n: int) {
    var image := Terminated(lines);
    && NewlinesOnly(image) && GitLines(image) == lines && OpensItem(image, 1)
    && InRanges(TestRanges(Some(image)), n) && !InRealItem(image, g, n)
  }

  /** The attribute of the second line stands before an element of a list: `text` and
      a comma. */
  ghost predicate IsElement(lines: seq<string>, g: Grammar, text: string) {
    IsRealItem(Terminated(lines), g, 1, Behind(text, Comma))
  }

  lemma {:induction false} SwallowedBehind(lines: seq<string>, g: Grammar, f: nat, k: nat, n: nat)
    requires IsSample(lines) && FirstClosing(Terminated(lines[1..]), k)
    requires FirstMark(Terminated(lines[1..]), f) && Terminated(lines[1..])[f] == '}'
    requires 1 < n <= |lines| && StartOf(lines, 1) + f <= StartOf(lines, n - 1) <= StartOf(lines, 1) + k
    ensures IsSwallowed(lines, g, n)
  {
    SampleImage(lines);
    SampleRegion(lines, k, n);
    SampleOutside(lines, g, f, n);
  }

  lemma {:induction false} ElementThere(lines: seq<string>, g: Grammar, text: string)
    requires IsSample(lines) && IsLeafText(text) && StandsAt(Terminated(lines[1..]), ATTRIBUTE + text + ",", 0)
    ensures g(Terminated(lines), StartOf(lines, 1)).Listed? ==> IsElement(lines, g, text)
  {
    if g(Terminated(lines), StartOf(lines, 1)).Listed? {
      SampleElement(lines, g, text);
    }
  }

  /** A test-only last field exempts the whole function behind its struct: the scan
      passes the brace that closes the struct, and no item reaches that far. */
  lemma {:induction false} FieldExemptsNext(open: string, field: string, head: string, body: string, g: Grammar)
    requires IsWord(open) && IsWord(field) && IsWord(head) && IsWord(body)
    ensures var lines := FieldLines(open, field, head, body);
            && IsSwallowed(lines, g, 6)
            && (g(Terminated(lines), StartOf(lines, 1)).Listed? ==> IsElement(lines, g, "\n" + field))
  {
    FieldImage(open, field, head, body);
    SevenLines(open + "{", ATTRIBUTE, field + ",", "}", head + "{", body, "}");
    var lines := FieldLines(open, field, head, body);
    FieldScan(Terminated(lines[1..]), field, head, body);
    SwallowedBehind(lines, g, |field| + 15, |field| + |head| + |body| + 20, 6);
    LeafBehind(field);
    ElementThere(lines, g, "\n" + field);
  }

  lemma LeafBehind(text: string)
    requires IsLeafText(text)
    ensures IsLeafText("\n" + text)
  {
  }

  // -------------------------------------------- a variant, and its neighbour --

  /** A list with a test-only element, and an element with a block behind it. */
  function VariantLines(open: string, variant: string, sibling: string): seq<string> {
    [open + "{", ATTRIBUTE, variant + ",", sibling + "{}", "}"]
  }

  lemma {:induction false} FiveLines(a: string, b: string, c: string, d: string, e: string)
    ensures var lines := [a, b, c, d, e];
            && StartOf(lines, 1) == |a| + 1 && StartOf(lines, 3) == |a| + |b| + |c| + 3
            && StartOf(lines, 4) == |a| + |b| + |c| + |d| + 4
            && Terminated(lines[1..]) == b + "\n" + (c + "\n" + (d + "\n" + (e + "\n")))
  {
    var lines := [a, b, c, d, e];
    NextStart(lines, 0);
    NextStart(lines, 1);
    NextStart(lines, 2);
    NextStart(lines, 3);
    FourWritten(b, c, d, e);
    assert lines[1..] == [b, c, d, e];
  }

  lemma {:induction false} VariantImage(open: string, variant: string, sibling: string)
    requires IsWord(open) && IsWord(variant) && IsWord(sibling)
    ensures IsSample(VariantLines(open, variant, sibling))
  {
    FlatWord(open);
    FlatWord(variant);
    FlatWord(sibling);
    NoAttribute("}");
    NoAttribute(open + "{");
    NoAttribute(variant + ",");
    NoAttribute(sibling + "{}");
    AttributeIsAttribute();
  }

  lemma VariantText(variant: string, sibling: string)
    ensures ATTRIBUTE + "\n" + ((variant + ",") + "\n" + ((sibling + "{}") + "\n" + ("}" + "\n")))
            == (ATTRIBUTE + "\n" + variant + ",\n" + sibling) + (("{" + ([] + "}")) + "\n}\n")
    ensures ATTRIBUTE + "\n" + ((variant + ",") + "\n" + ((sibling + "{}") + "\n" + ("}" + "\n")))
            == (ATTRIBUTE + ("\n" + variant) + ",") + ("\n" + ((sibling + "{}") + "\n" + ("}" + "\n")))
  {
  }

  lemma PlainLead(variant: string, sibling: string)
    requires NoMarks(variant, |variant|) && NoMarks(sibling, |sibling|)
    ensures var lead := ATTRIBUTE + "\n" + variant + ",\n" + sibling; NoMarks(lead, |lead|)
  {
    AttributeIsAttribute();
  }

  lemma FrontStands(m: string, a: string, b: string, c: string)
    requires m == a + (b + c)
    ensures StandsAt(m, a, 0) && StandsAt(m, b, |a|)
    ensures NoMarks(a, |a|) ==> NoMarks(m, |a|)
  {
    assert forall k :: 0 <= k < |a| ==> m[k] == a[k];
  }

  lemma {:induction false} EmptyBlockStops(m: string, lead: string, rest: string)
    requires m == lead + (("{" + ([] + "}")) + rest) && NoMarks(lead, |lead|)
    ensures FirstClosing(m, |lead| + 1)
  {
    FrontStands(m, lead, "{" + ([] + "}"), rest);
    LevelEmpty();
    BlockIsClosed(m, |lead|, []);
  }

  lemma {:induction false} VariantScan(m: string, variant: string, sibling: string)
    requires IsWord(variant) && IsWord(sibling)
    requires m == ATTRIBUTE + "\n" + ((variant + ",") + "\n" + ((sibling + "{}") + "\n" + ("}" + "\n")))
    ensures FirstClosing(m, |variant| + |sibling| + 16)
    ensures StandsAt(m, ATTRIBUTE + ("\n" + variant) + ",", 0)
  {
    FlatWord(variant);
    FlatWord(sibling);
    PlainLead(variant, sibling);
    VariantText(variant, sibling);
    EmptyBlockStops(m, ATTRIBUTE + "\n" + variant + ",\n" + sibling, "\n}\n");
  }

  lemma LevelEmpty()
    ensures IsLevel([])
  {
  }

  lemma {:induction false} SwallowedElement(lines: seq<string>, g: Grammar, text: string, k: nat, n: nat)
    requires IsSample(lines) && FirstClosing(Terminated(lines[1..]), k)
    requires IsLeafText(text) && StandsAt(Terminated(lines[1..]), ATTRIBUTE + text + ",", 0)
    requires g(Terminated(lines), StartOf(lines, 1)).Listed? && 1 < n <= |lines|
    requires StartOf(lines, 1) + |ATTRIBUTE| + |text| + 1 <= StartOf(lines, n - 1) <= StartOf(lines, 1) + k
    ensures IsSwallowed(lines, g, n)
  {
    SampleImage(lines);
    SampleRegion(lines, k, n);
    SampleBehind(lines, g, text, n);
  }

  /** A test-only element of a list exempts the next element that has a block: the
      scan does not stop at the comma. */
  lemma {:induction false} VariantExemptsNext(open: string, variant: string, sibling: string, g: Grammar)
    requires IsWord(open) && IsWord(variant) && IsWord(sibling)
    requires var lines := VariantLines(open, variant, sibling); g(Terminated(lines), StartOf(lines, 1)).Listed?
    ensures var lines := VariantLines(open, variant, sibling);
            IsSwallowed(lines, g, 4) && IsElement(lines, g, "\n" + variant)
  {
    VariantImage(open, variant, sibling);
    FiveLines(open + "{", ATTRIBUTE, variant + ",", sibling + "{}", "}");
    var lines := VariantLines(open, variant, sibling);
    VariantScan(Terminated(lines[1..]), variant, sibling);
    LeafBehind(variant);
    SwallowedElement(lines, g, "\n" + variant, |variant| + |sibling| + 16, 4);
    ElementThere(lines, g, "\n" + variant);
  }
}
