/** Why `Gate` asks for plain diffs and images: inputs on which the enforcement
    gate exempts or overlooks production code. */
module GateLimits {
  import opened Text
  import opened Masker
  import opened Regions
  import opened Lines
  import opened Items
  import opened Diff
  import opened Classifier
  import opened Gate
  import opened GateItems

  // ---------------------------------------------- a line end `git` ignores --

  const FORM_FEED := '\U{C}'

  lemma {:induction false} FormFeedLine()
    ensures SplitLines([FORM_FEED] + "\n") == ["", ""]
  {
    var s := [FORM_FEED] + "\n";
    assert SplitLines("\n") == [""];
    assert s[1..] == "\n" && s[..0] == "" && BreakAt(s, 0) == 0;
    assert SplitLines(s) == [""] + SplitLines("\n");
  }

  /** A form feed on a line of its own makes two lines of it. */
  lemma {:induction false} FormFeedShifts(rest: seq<string>)
    requires AllUnbroken(rest)
    ensures SplitLines(Terminated([[FORM_FEED]] + rest)) == ["", ""] + rest
    ensures GitLines(Terminated([[FORM_FEED]] + rest)) == [[FORM_FEED]] + rest
  {
    TerminatedCons([FORM_FEED], rest);
    SplitAtNewline([FORM_FEED], Terminated(rest));
    TerminatedSplitsExactly(rest);
    FormFeedLine();
    GitLineThen([FORM_FEED], Terminated(rest));
    GitReadsTerminated(rest);
  }

  /** An attribute line, a block it opens, the closing brace, and one line more. */
  function ModuleLines(attribute: string, head: string, production: string): seq<string> {
    [attribute, head + "{", "}", production]
  }

  lemma {:induction false} ModuleEnds(lines: seq<string>, i: nat, attribute: string, head: string)
    requires i + 2 < |lines| && lines[i] == attribute && lines[i + 1] == head + "{" && lines[i + 2] == "}"
    requires IsBland(attribute) && IsBland(head)
    ensures IsItemEnd(lines, i, i + 2)
  {
    var text := attribute + head;
    assert Joined(lines, i, i) == [];
    assert Joined(lines, i, i + 1) == attribute;
    assert Joined(lines, i, i + 2) == attribute + (head + "{");
    assert Joined(lines, i, i + 2) + lines[i + 2][..0] == text + "{";
    BlockEnds(lines, i, i + 2, text, 0);
  }

  /** The image of a test module and a line of production code behind it, below a
      line that holds a form feed. */
  function ShiftedImage(head: string, production: string): string {
    Terminated([[FORM_FEED]] + ModuleLines(ATTRIBUTE, head, production))
  }

  lemma {:induction false} ShiftedLines(head: string, production: string)
    requires IsWord(head) && IsWord(production)
    ensures var image := ShiftedImage(head, production);
            && Masked(image) == image
            && SplitLines(image) == ["", ""] + ModuleLines(ATTRIBUTE, head, production)
            && GitLines(image) == [[FORM_FEED]] + ModuleLines(ATTRIBUTE, head, production)
  {
    var lines := ModuleLines(ATTRIBUTE, head, production);
    AttributeIsAttribute();
    FlatWord(head);
    FlatWord(production);
    FourUnbroken(ATTRIBUTE, head + "{", "}", production);
    FormFeedShifts(lines);
    assert IsQuiet(head + "{") && IsQuiet([FORM_FEED]);
    assert forall i :: 0 <= i < |lines| ==> IsQuiet(lines[i]);
    QuietLines([[FORM_FEED]] + lines);
    PlainIsKept(ShiftedImage(head, production));
  }

  lemma {:induction false} FormFeedIsBlank()
    ensures !IsAttribute([FORM_FEED])
  {
    var s := [FORM_FEED];
    assert TrimStart(s, IsSpace) == TrimStart(s[1..], IsSpace) == [];
  }

  lemma {:induction false} ShiftedRegion(raw: seq<string>, head: string)
    requires |raw| == 6 && raw[0] == "" && raw[1] == "" && IsBland(head)
    requires raw[2] == ATTRIBUTE && raw[3] == head + "{" && raw[4] == "}"
    ensures Range(3, 5) in RangesFrom(raw, raw, 0)
  {
    AttributeIsAttribute();
    NoAttribute("");
    assert IsBland(ATTRIBUTE);
    ModuleEnds(raw, 2, ATTRIBUTE, head);
    FirstRegion(raw, raw, 2, 4);
  }

  lemma {:induction false} OneAttribute(lines: seq<string>, head: string, production: string)
    requires IsWord(head) && IsWord(production)
    requires lines == [[FORM_FEED]] + ModuleLines(ATTRIBUTE, head, production)
    ensures |lines| == 5 && lines[1] == ATTRIBUTE && lines[4] == production
    ensures StartOf(lines, 1) == 2 && StartOf(lines, 4) == |head| + 19
    ensures Terminated(lines[1..]) == ATTRIBUTE + "\n" + ((head + "{") + "\n" + ("}" + "\n" + (production + "\n")))
    ensures forall m :: 0 <= m < |lines| && IsAttribute(lines[m]) ==> m == 1
  {
    FormFeedIsBlank();
    FlatWord(production);
    NoAttribute("}");
    NoAttribute(head + "{");
    FiveLines([FORM_FEED], ATTRIBUTE, head + "{", "}", production);
    assert lines == [[FORM_FEED], ATTRIBUTE, head + "{", "}", production];
  }

  lemma RegionsWithoutMask(src: string)
    requires Masked(src) == src && src != []
    ensures TestRanges(Some(src)) == RangesFrom(SplitLines(src), SplitLines(src), 0)
  {
  }

  const BODY := Block(Leaf('\n', Nil))

  /** The module is one item of whatever kind. */
  lemma {:induction false} ModuleIsThing(m: string, kind: Kind, head: string, production: string)
    requires IsWord(head)
    requires m == ATTRIBUTE + "\n" + ((head + "{") + "\n" + ("}" + "\n" + (production + "\n")))
    ensures IsThing(m, kind, Behind("\n" + head, BODY))
    ensures |TextOf(Behind("\n" + head, BODY))| == |head| + 16 && HoldsStop(TextOf(Behind("\n" + head, BODY)))
  {
    LeafBehind(head);
    assert TailText(BODY) == "{" + ("\n" + "}");
    assert m == (ATTRIBUTE + ("\n" + head) + TailText(BODY)) + ("\n" + (production + "\n"));
    FrontStands(m, ATTRIBUTE + ("\n" + head) + TailText(BODY), "\n" + (production + "\n"), []);
    BehindIsThing(m, kind, "\n" + head, BODY);
    assert (ATTRIBUTE + ("\n" + head) + TailText(BODY))[|head| + 13] == '{';
  }

  /** In such an image, apart from the form feed, all is as the gate needs it. */
  lemma {:induction false} ShiftedItem(image: string, lines: seq<string>, head: string, production: string, g: Grammar)
    requires IsWord(head) && IsWord(production)
    requires lines == [[FORM_FEED]] + ModuleLines(ATTRIBUTE, head, production)
    requires image == Terminated(lines) && Masked(image) == image && GitLines(image) == lines
    ensures AttributesOpenWholes(image, g) && !InRealItem(image, g, 5)
  {
    OneAttribute(lines, head, production);
    AttributeThere(image, lines, 1);
    var x := Behind("\n" + head, BODY);
    ModuleIsThing(Terminated(lines[1..]), g(image, AttributeAt(image, 1)), head, production);
    assert IsRealItem(image, g, 1, x);
    assert OpensWhole(image, g, 1);
    OnlyThing(image, g, 1, x, 5);
  }

  /** A form feed on a line of its own, above a test module, exempts the line of
      production code below the module: the regions count one line more than `git`. */
  lemma {:induction false} FormFeedExempts(head: string, production: string, g: Grammar)
    requires IsWord(head) && IsWord(production)
    ensures var image := ShiftedImage(head, production);
            && |GitLines(image)| == 5 && GitLines(image)[4] == production
            && AttributesOpenWholes(image, g)
            && InRanges(TestRanges(Some(image)), 5) && !InRealItem(image, g, 5)
  {
    var image := ShiftedImage(head, production);
    ShiftedLines(head, production);
    RegionsWithoutMask(image);
    ShiftedRegion(SplitLines(image), head);
    InThatRange(TestRanges(Some(image)), Range(3, 5), 5);
    ShiftedItem(image, GitLines(image), head, production, g);
  }

  // ------------------------------------------------- an attribute that is text --

  lemma {:induction false} CommentStops(src: string, j: nat, e: nat)
    requires j <= e && PairAt(src, e, '*', '/')
    requires forall k :: j <= k < e ==> !PairAt(src, k, '/', '*') && !PairAt(src, k, '*', '/')
    ensures CommentEnd(src, j, 1) == e + 2
    decreases e - j
  {
    if j < e {
      CommentStops(src, j + 1, e);
    } else {
      assert CommentEnd(src, e + 2, 0) == e + 2;
    }
  }

  /** The image of a commented-out attribute line with production code below it. */
  function CommentedImage(attribute: string, head: string): string {
    Terminated(["/*", attribute, "*/", head + "{}"])
  }

  lemma {:induction false} FourLines(a: string, b: string, c: string, d: string)
    ensures Terminated([a, b, c, d]) == (a + ("\n" + (b + ("\n" + c)))) + ("\n" + (d + "\n"))
  {
    assert [a, b, c, d][1..] == [b, c, d] && [b, c, d][1..] == [c, d] && [c, d][1..] == [d] && [d][1..] == [];
    assert Terminated([d]) == d + "\n";
    assert Terminated([c, d]) == c + "\n" + (d + "\n");
    assert Terminated([b, c, d]) == b + "\n" + (c + "\n" + (d + "\n"));
  }

  lemma {:induction false} CommentToken(src: string, attribute: string, rest: string)
    requires src == ("/*" + ("\n" + (attribute + ("\n" + "*/")))) + rest && IsBland(attribute)
    ensures |attribute| + 6 <= |src| && TokenAt(src, 0) == Token(|attribute| + 6, false)
    ensures src[..|attribute| + 6] == "/*" + ("\n" + (attribute + ("\n" + "*/")))
    ensures src[|attribute| + 6..] == rest
  {
    var n := |attribute|;
    assert src[0] == '/' && src[1] == '*' && src[2] == '\n';
    assert src[n + 3] == '\n' && src[n + 4] == '*' && src[n + 5] == '/';
    forall k | 2 <= k < n + 4 ensures src[k] != '/' {
      assert 3 <= k < n + 3 ==> src[k] == attribute[k - 3];
    }
    CommentStops(src, 2, n + 4);
  }

  lemma {:induction false} BlandIsCode(src: string, k: nat)
    requires k < |src| && forall m :: k <= m < |src| ==> src[m] != '/' && src[m] != '"' && src[m] != '\''
    ensures IsCode(src, k)
  {
    var p := RawPrefix(src, k);
    assert HashRun(src, p) < |src| ==> src[HashRun(src, p)] != '"';
  }

  /** A comment at the start of a source, and nothing more to mask. */
  lemma {:induction false} CommentThenCode(src: string, e: nat)
    requires 0 < e <= |src| && TokenAt(src, 0) == Token(e, false)
    requires IsQuiet(src[e..])
    ensures Masked(src) == Blanked(src[..e]) + src[e..]
  {
    TokenHides(src, 0);
    forall k | e <= k < |src| ensures IsCode(src, k) {
      forall m | k <= m < |src| ensures src[m] != '/' && src[m] != '"' && src[m] != '\'' {
        assert src[m] == src[e..][m - e];
      }
      BlandIsCode(src, k);
    }
    CodeShows(src, e, |src|);
    MaskLinesUp(src);
    TwoParts(Masked(src), e, Blanked(src[..e]), src[e..]);
  }

  lemma TwoParts(t: string, e: nat, a: string, b: string)
    requires e <= |t| && t[0..e] == a && t[e..|t|] == b
    ensures t == a + b
  {
  }

  lemma {:induction false} BlankedText(text: string)
    requires IsBland(text)
    ensures IsBland(Blanked(text)) && Unbroken(Blanked(text))
  {
  }

  lemma BlankedAppend(a: string, b: string)
    ensures Blanked(a + b) == Blanked(a) + Blanked(b)
  {
  }

  lemma {:induction false} BlankedComment(attribute: string)
    ensures Blanked("/*" + ("\n" + (attribute + ("\n" + "*/"))))
            == "  " + ("\n" + (Blanked(attribute) + ("\n" + "  ")))
  {
    BlankedAppend("/*", "\n" + (attribute + ("\n" + "*/")));
    BlankedAppend("\n", attribute + ("\n" + "*/"));
    BlankedAppend(attribute, "\n" + "*/");
    BlankedAppend("\n", "*/");
    assert Blanked("/*") == "  " && Blanked("*/") == "  " && Blanked("\n") == "\n";
  }

  lemma {:induction false} CommentedMask(attribute: string, head: string)
    requires IsBland(attribute) && IsBland(head)
    ensures var image := CommentedImage(attribute, head);
            && image != [] && TokenAt(image, 0) == Token(|attribute| + 6, false)
            && Masked(image) == Terminated(["  ", Blanked(attribute), "  ", head + "{}"])
  {
    var image, code := CommentedImage(attribute, head), "\n" + ((head + "{}") + "\n");
    FourLines("/*", attribute, "*/", head + "{}");
    CommentToken(image, attribute, code);
    CommentThenCode(image, |attribute| + 6);
    BlankedComment(attribute);
    FourLines("  ", Blanked(attribute), "  ", head + "{}");
  }

  lemma {:induction false} PlainLines(lines: seq<string>)
    requires AllUnbroken(lines)
    ensures GitLines(Terminated(lines)) == lines && NewlinesOnly(Terminated(lines))
  {
    assert forall i :: 0 <= i < |lines| ==> Unbroken(lines[i]);
    GitReadsTerminated(lines);
    TerminatedSplitsExactly(lines);
    SameLinesExactly(Terminated(lines));
  }

  lemma FourUnbroken(a: string, b: string, c: string, d: string)
    requires Unbroken(a) && Unbroken(b) && Unbroken(c) && Unbroken(d)
    ensures AllUnbroken([a, b, c, d])
  {
  }

  /** The image and its masked copy in lines. */
  lemma {:induction false} CommentedLines(attribute: string, head: string)
    requires IsBland(attribute) && IsBland(head)
    ensures var image := CommentedImage(attribute, head);
            && NewlinesOnly(image)
            && GitLines(image) == ["/*", attribute, "*/", head + "{}"]
            && MaskedLines(image) == ["  ", Blanked(attribute), "  ", head + "{}"]
  {
    CommentedMask(attribute, head);
    BlankedText(attribute);
    FourUnbroken("/*", attribute, "*/", head + "{}");
    FourUnbroken("  ", Blanked(attribute), "  ", head + "{}");
    PlainLines(["/*", attribute, "*/", head + "{}"]);
    PlainLines(["  ", Blanked(attribute), "  ", head + "{}"]);
  }

  lemma {:induction false} CommentedEnds(lines: seq<string>, text: string, head: string)
    requires |lines| == 4 && lines[1] == text && lines[2] == "  " && lines[3] == head + "{}"
    requires IsBland(text) && IsBland(head)
    ensures IsItemEnd(lines, 1, 3)
  {
    assert Joined(lines, 1, 1) == [];
    assert Joined(lines, 1, 2) == text;
    assert Joined(lines, 1, 3) == text + "  ";
    assert lines[3][..|head| + 1] == head + "{";
    assert Joined(lines, 1, 3) + lines[3][..|head| + 1] == (text + "  " + head) + "{";
    BlockEnds(lines, 1, 3, text + "  " + head, |head| + 1);
  }

  lemma {:induction false} InsideNoStart(src: string, p: nat)
    requires src != [] && 0 < p < TokenAt(src, 0).end
    ensures !TokenStart(src, 0, p)
  {
  }

  lemma {:induction false} CommentedIsNoItem(src: string, attribute: string, head: string, g: Grammar, n: int)
    requires head != [] && !IsSpace(head[0]) && head[0] != '#'
    requires src != [] && TokenAt(src, 0) == Token(|attribute| + 6, false)
    requires GitLines(src) == ["/*", attribute, "*/", head + "{}"]
    ensures !InRealItem(src, g, n)
  {
    var lines := GitLines(src);
    NoAttribute("/*");
    NoAttribute("*/");
    NoAttribute(head + "{}");
    assert StartOf(lines, 1) == 3;
    InsideNoStart(src, 3 + Indent(attribute));
    assert !OpensItem(src, 0) && !OpensItem(src, 1) && !OpensItem(src, 2) && !OpensItem(src, 3);
  }

  /** An attribute line inside a block comment exempts the production code behind
      the comment, although the file holds no test item at all. */
  lemma {:induction false} CommentedAttributeExempts(attribute: string, head: string, g: Grammar)
    requires IsAttribute(attribute) && IsBland(attribute)
    requires IsBland(head) && head != [] && !IsSpace(head[0]) && head[0] != '#'
    ensures var image := CommentedImage(attribute, head);
            && NewlinesOnly(image)
            && |GitLines(image)| == 4 && GitLines(image)[3] == head + "{}"
            && InRanges(TestRanges(Some(image)), 4) && forall n :: !InRealItem(image, g, n)
  {
    var image := CommentedImage(attribute, head);
    CommentedMask(attribute, head);
    CommentedLines(attribute, head);
    RegionsOf(image);
    NoAttribute("/*");
    BlankedText(attribute);
    CommentedEnds(MaskedLines(image), Blanked(attribute), head);
    FirstRegion(GitLines(image), MaskedLines(image), 1, 3);
    InThatRange(TestRanges(Some(image)), Range(2, 4), 4);
    forall n ensures !InRealItem(image, g, n) {
      CommentedIsNoItem(image, attribute, head, g, n);
    }
  }

  // ------------------------------------------------- a change that is not read --

  lemma {:induction false} SplitOnce(a: string, b: string)
    requires Unbroken(a) && Unbroken(b) && b != []
    ensures SplitLines(a + [FORM_FEED] + b + "\n") == [a, b]
  {
    var s := a + [FORM_FEED] + b + "\n";
    assert s[|a|] == FORM_FEED;
    BreakAtIs(s, 0, |a|);
    CutOut(a, FORM_FEED, b + "\n");
    assert s == a + [FORM_FEED] + (b + "\n");
    SplitFirst(s);
    TerminatedCons(b, []);
    TerminatedSplitsExactly([b]);
    assert b + "\n" + Terminated([]) == b + "\n";
  }

  lemma CutOut(a: string, c: char, b: string)
    ensures (a + [c] + b)[..|a|] == a && (a + [c] + b)[|a| + 1..] == b
  {
  }

  lemma {:induction false} WalkTwo(w: Walker, a: string, b: string)
    ensures Walk(w, [a, b]) == Step(Step(w, a), b)
  {
    WalkOne(w, a);
    WalkOne(Step(w, a), b);
    WalkAppend(w, [a], [b]);
    assert [a] + [b] == [a, b];
  }

  lemma {:induction false} WalkOne(w: Walker, line: string)
    ensures Walk(w, [line]) == Step(w, line)
  {
    assert [line][1..] == [];
  }

  lemma {:induction false} LeadingSpace(c: char, code: string, path: string)
    requires IsSpace(c)
    ensures IsIgnorable([c] + code, path) <==> IsIgnorable(code, path)
  {
    assert ([c] + code)[1..] == code;
    assert TrimStart([c] + code, IsSpace) == TrimStart(code, IsSpace);
  }

  /** A line that opens with no mark of a diff is not read at all. */
  lemma {:induction false} UnmarkedIsSkipped(w: Walker, line: string)
    requires line != [] && line[0] !in {'d', '@', '+', '-', ' '}
    ensures Step(w, line) == w
  {
    var c := line[0];
    LineKinds(line);
    assert IsHeader(line) ==> c == 'd';
    assert "@@" <= line ==> c == '@';
  }

  lemma {:induction false} BareAddition(w: Walker)
    requires w.path.Some?
    ensures Step(w, "+") == w.(newLine := w.newLine + 1)
  {
    LineKinds("+");
    assert "+"[1..] == "" && TrimStart("", IsSpace) == "" && TrimEnd("", IsSpace) == "";
  }

  /** An added line that starts with a form feed is counted and never recorded,
      whatever code follows. */
  lemma {:induction false} FormFeedHidesAddition(w: Walker, path: string, code: string)
    requires w.path == Some(path) && Unbroken(code) && code != [] && code[0] !in {'d', '@', '+', '-', ' '}
    ensures var line := "+" + [FORM_FEED] + code;
            && IsAdded(line) && (IsIgnorable(line[1..], path) <==> IsIgnorable(code, path))
            && Walk(w, SplitLines(line + "\n")) == w.(newLine := w.newLine + 1)
  {
    var line := "+" + [FORM_FEED] + code;
    SplitOnce("+", code);
    assert line[1..] == [FORM_FEED] + code;
    LeadingSpace(FORM_FEED, code, path);
    WalkTwo(w, "+", code);
    BareAddition(w);
    UnmarkedIsSkipped(w.(newLine := w.newLine + 1), code);
  }

  lemma {:induction false} TrimEndKeeps(head: string, text: string)
    requires head != [] && !IsSpace(head[|head| - 1])
    ensures head <= TrimEnd(head + text, IsSpace)
    decreases |text|
  {
    var s := head + text;
    if text == [] {
      assert s == head;
    } else if IsSpace(s[|s| - 1]) {
      assert s[..|s| - 1] == head + text[..|text| - 1];
      TrimEndKeeps(head, text[..|text| - 1]);
    }
  }

  /** Any line that opens with a star or a closed comment counts as unable to alter
      behaviour, whatever code follows. */
  lemma {:induction false} StarredCodeIsIgnored(code: string, path: string)
    ensures IsIgnorable("*" + code, path) && IsIgnorable("/**/" + code, path)
  {
    assert TrimStart("*" + code, IsSpace) == "*" + code;
    assert TrimStart("/**/" + code, IsSpace) == "/**/" + code;
    TrimEndKeeps("*", code);
    TrimEndKeeps("/**/", code);
    assert "/*" <= "/**/";
  }

  // ------------------------------------------------- a file that is not read --

  /** Text whose last mark between paths comes later than it should. */
  lemma {:induction false} HeaderSplitsLate(was: string, a: string, b: string)
    requires !Contains(b, " b/")
    ensures ParseHeader(HeaderText(was, a + (" b/" + b))) == Some((was + (" b/" + a), b))
  {
    HeaderReads(was + (" b/" + a), b);
    Reassociated(was, a, b);
  }

  lemma Reassociated(was: string, a: string, b: string)
    ensures HeaderText(was, a + (" b/" + b)) == HeaderText(was + (" b/" + a), b)
  {
    assert was + (" b/" + (a + (" b/" + b))) == (was + (" b/" + a)) + (" b/" + b);
  }

  lemma {:induction false} SilentStep(w: Walker, line: string)
    requires if IsHeader(line) then Chosen(line).None? else w.path.None?
    ensures Step(w, line).path.None? && Step(w, line).changed == w.changed
  {
  }

  lemma {:induction false} SilentWalk(w: Walker, lines: seq<string>)
    requires w.path.None? && forall i :: 0 <= i < |lines| && IsHeader(lines[i]) ==> Chosen(lines[i]).None?
    ensures Walk(w, lines).changed == w.changed
    decreases |lines|
  {
    if lines == [] {
    } else {
      SilentStep(w, lines[0]);
      SilentWalk(Step(w, lines[0]), lines[1..]);
    }
  }

  /** A diff whose file headers are not read lists nothing, whatever it changes. */
  lemma {:induction false} UnreadFilesAreSilent(lines: seq<string>, oldImages: Images, newImages: Images)
    requires AllUnbroken(lines) && forall i :: 0 <= i < |lines| && IsHeader(lines[i]) ==> Chosen(lines[i]).None?
    ensures Substantive(Terminated(lines), oldImages, newImages) == []
  {
    assert forall i :: 0 <= i < |lines| ==> Unbroken(lines[i]);
    TerminatedSplitsExactly(lines);
    SilentWalk(START, lines);
  }

  /** A watched file is not read when its path holds the mark between the paths and
      what follows the mark is not watched. */
  lemma {:induction false} MarkInPathIsNotRead(was: string, a: string, b: string)
    requires !Contains(b, " b/") && !IsWatched(b)
    ensures IsHeader(HeaderText(was, a + (" b/" + b))) && Chosen(HeaderText(was, a + (" b/" + b))) == None
  {
    HeaderSplitsLate(was, a, b);
    HeaderIsHeader(was, a + (" b/" + b));
  }

  /** Nor is a file whose path `git` has to quote. */
  lemma {:induction false} QuotedPathIsNotRead(rest: string)
    ensures IsHeader("diff --git \"" + rest) && Chosen("diff --git \"" + rest) == None
  {
    var line := "diff --git \"" + rest;
    assert line[..11] == "diff --git " && line[11] == '"';
    assert "diff --git a/"[11] == 'a';
  }

  /** Nor one that moved out of the watched directories. */
  lemma {:induction false} MovedOutIsNotRead(was: string, path: string)
    requires !Contains(path, " b/") && !IsWatched(path)
    ensures IsHeader(HeaderText(was, path)) && Chosen(HeaderText(was, path)) == None
  {
    HeaderReads(was, path);
    HeaderIsHeader(was, path);
  }
}
