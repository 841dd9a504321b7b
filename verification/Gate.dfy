/** The enforcement gate end to end (tools/check-enforcement-pairing.py): when the
    numbers of the walk are those of `git`, which regions are real, and what is
    then listed. */
module Gate {
  import opened Text
  import opened Masker
  import opened Regions
  import opened Lines
  import opened Items
  import opened Extents
  import opened Diff
  import opened Classifier

  const ATTRIBUTE := "#[cfg(test)]"

  // ------------------------------------------------- an attribute that shows --

  /** No token shows a character behind its first one but an identifier's. */
  lemma {:induction false} InsideIsBlank(src: string, i: nat, p: nat)
    requires i < p < |src| && p < TokenAt(src, i).end && !IsIdent(src[p])
    ensures Piece(src, i)[p - i] == Blank(src[p])
  {
    var t := TokenAt(src, i);
    if t.keep {
      KeptToken(src, i);
      assert false;
    } else {
      assert src[i..t.end][p - i] == src[p];
    }
  }

  lemma PartOfSum(sum: string, a: string, b: string)
    requires sum == a + b
    ensures forall k :: 0 <= k < |a| ==> sum[k] == a[k]
    ensures forall k :: |a| <= k < |sum| ==> sum[k] == b[k - |a|]
  {
  }

  lemma {:induction false} MaskedHere(src: string, from: nat, p: nat)
    requires from <= p && from < |src| && p < TokenAt(src, from).end
    ensures MaskFrom(src, from)[p - from] == Piece(src, from)[p - from]
  {
    MaskUnfolds(src, from);
    PartOfSum(MaskFrom(src, from), Piece(src, from), MaskFrom(src, TokenAt(src, from).end));
  }

  lemma {:induction false} MaskedThere(src: string, from: nat, p: nat)
    requires from < |src| && TokenAt(src, from).end <= p < |src|
    ensures MaskFrom(src, from)[p - from]
            == MaskFrom(src, TokenAt(src, from).end)[p - TokenAt(src, from).end]
  {
    MaskUnfolds(src, from);
    PartOfSum(MaskFrom(src, from), Piece(src, from), MaskFrom(src, TokenAt(src, from).end));
  }

  /** Position `p` is visible in what is masked from `from` on. */
  predicate Shows(src: string, from: nat, p: nat) {
    from <= p < |src| && MaskFrom(src, from)[p - from] != Blank(src[p])
  }

  lemma {:induction false} ShowsLater(src: string, from: nat, p: nat)
    requires from < p && Shows(src, from, p) && !IsIdent(src[p])
    ensures Shows(src, TokenAt(src, from).end, p)
  {
    if p < TokenAt(src, from).end {
      MaskedHere(src, from, p);
      InsideIsBlank(src, from, p);
    } else {
      MaskedThere(src, from, p);
    }
  }

  /** A visible character that no identifier can hold starts a token. */
  lemma {:induction false} ShownStartsToken(src: string, from: nat, p: nat)
    requires Shows(src, from, p) && !IsIdent(src[p])
    ensures TokenStart(src, from, p)
    decreases |src| - from
  {
    if from == p {
    } else {
      ShowsLater(src, from, p);
      ShownStartsToken(src, TokenAt(src, from).end, p);
      EarlierStart(src, from, p);
    }
  }

  lemma EarlierStart(src: string, from: nat, p: nat)
    requires from < p && from < |src| && TokenStart(src, TokenAt(src, from).end, p)
    ensures TokenStart(src, from, p)
  {
  }

  lemma {:induction false} AttributeIsPlain(src: string, p: nat, k: nat)
    requires StandsAt(src, ATTRIBUTE, p) && p <= k < p + |ATTRIBUTE|
    ensures IsCode(src, k)
  {
    var c := ATTRIBUTE[k - p];
    assert src[p + (k - p)] == c;
    assert c != '/' && c != '"' && c != '\'' && c != 'r' && c != 'b';
  }

  /** An attribute in the source shows in the masked text if and only if a token
      starts at it, that is if it stands in no comment and in no literal. */
  lemma {:induction false} AttributeShowsExactly(src: string, p: nat)
    requires StandsAt(src, ATTRIBUTE, p)
    ensures StandsAt(Masked(src), ATTRIBUTE, p) <==> TokenStart(src, 0, p)
  {
    var end := p + |ATTRIBUTE|;
    assert src[p + 0] == ATTRIBUTE[0];
    MaskLinesUp(src);
    if StandsAt(Masked(src), ATTRIBUTE, p) {
      assert Masked(src)[p + 0] == ATTRIBUTE[0];
      assert Shows(src, 0, p);
      ShownStartsToken(src, 0, p);
    }
    if TokenStart(src, 0, p) {
      forall k | p <= k < end ensures IsCode(src, k) {
        AttributeIsPlain(src, p, k);
      }
      CodeShows(src, p, end);
      forall k | 0 <= k < |ATTRIBUTE| ensures Masked(src)[p + k] == ATTRIBUTE[k] {
        assert Masked(src)[p..end][k] == src[p..end][k];
      }
    }
  }

  /** How far a line is indented. */
  function Indent(line: string): (n: nat)
    ensures n <= |line|
  {
    if line != [] && IsSpace(line[0]) then 1 + Indent(line[1..]) else 0
  }

  lemma {:induction false} IndentIsTrim(line: string)
    ensures TrimStart(line, IsSpace) == line[Indent(line)..]
  {
    if line == [] || !IsSpace(line[0]) {
    } else {
      IndentIsTrim(line[1..]);
    }
  }

  /** An attribute line has the attribute right behind its indentation. */
  lemma {:induction false} AttributeStands(line: string)
    ensures IsAttribute(line) <==> StandsAt(line, ATTRIBUTE, Indent(line))
  {
    var n := Indent(line);
    IndentIsTrim(line);
    var rest := line[n..];
    assert forall k :: 0 <= k < |rest| ==> rest[k] == line[n + k];
    assert ATTRIBUTE <= rest <==> StandsAt(line, ATTRIBUTE, n);
  }

  /** The masked text, in the lines `git` counts. */
  function MaskedLines(src: string): seq<string> { GitLines(Masked(src)) }

  /** Where the text of line `i` starts, behind its indentation. */
  function AttributeAt(src: string, i: nat): nat
    requires i < |GitLines(src)|
  {
    StartOf(GitLines(src), i) + Indent(GitLines(src)[i])
  }

  /** Line `i` opens with the attribute, and the attribute is code. */
  predicate OpensItem(src: string, i: nat) {
    i < |GitLines(src)| && IsAttribute(GitLines(src)[i]) && TokenStart(src, 0, AttributeAt(src, i))
  }

  lemma {:induction false} MaskedIsClean(src: string)
    requires NewlinesOnly(src)
    ensures NewlinesOnly(Masked(src))
    ensures SplitLines(src) == GitLines(src) && SplitLines(Masked(src)) == MaskedLines(src)
    ensures Lengths(GitLines(src)) == Lengths(MaskedLines(src))
  {
    MaskLinesUp(src);
    forall k | 0 <= k < |src| && IsBreak(Masked(src)[k]) ensures Masked(src)[k] == '\n' {
      assert KeptOrBlank(src[k], Masked(src)[k]);
    }
    SameLinesExactly(src);
    SameLinesExactly(Masked(src));
    MaskedLinesAlign(src);
  }

  lemma {:induction false} LengthAt(a: seq<string>, b: seq<string>, i: nat)
    requires Lengths(a) == Lengths(b) && i < |a|
    ensures |a| == |b| && |a[i]| == |b[i]|
  {
    assert |Lengths(a)| == |a| && |Lengths(b)| == |b|;
    if i > 0 {
      assert Lengths(a)[1..] == Lengths(a[1..]) && Lengths(b)[1..] == Lengths(b[1..]);
      LengthAt(a[1..], b[1..], i - 1);
    } else {
      assert Lengths(a)[0] == |a[0]| && Lengths(b)[0] == |b[0]|;
    }
  }

  lemma {:induction false} SameStart(a: seq<string>, b: seq<string>, i: nat)
    requires Lengths(a) == Lengths(b) && i <= |a|
    ensures |a| == |b| && StartOf(a, i) == StartOf(b, i)
    decreases i
  {
    assert |Lengths(a)| == |a| && |Lengths(b)| == |b|;
    if i == 0 {
    } else {
      LengthAt(a, b, i - 1);
      SameStart(a, b, i - 1);
    }
  }

  lemma {:induction false} StandsWithin(s: string, line: string, at: nat, a: string, n: nat)
    requires StandsAt(s, line, at) && n + |a| <= |line|
    ensures StandsAt(s, a, at + n) <==> StandsAt(line, a, n)
  {
    if StandsAt(line, a, n) {
      forall k | 0 <= k < |a| ensures s[at + n + k] == a[k] {
        assert s[at + (n + k)] == line[n + k];
      }
    }
    if StandsAt(s, a, at + n) {
      forall k | 0 <= k < |a| ensures line[n + k] == a[k] {
        assert s[at + (n + k)] == line[n + k] && s[at + n + k] == a[k];
      }
    }
  }

  lemma {:induction false} VisibleAt(src: string, line: string, other: string, at: nat, n: nat)
    requires StandsAt(src, line, at) && StandsAt(Masked(src), other, at) && |line| == |other|
    requires StandsAt(line, ATTRIBUTE, n)
    ensures TokenStart(src, 0, at + n) <==> StandsAt(other, ATTRIBUTE, n)
  {
    StandsWithin(src, line, at, ATTRIBUTE, n);
    StandsWithin(Masked(src), other, at, ATTRIBUTE, n);
    AttributeShowsExactly(src, at + n);
  }

  /** A raw line and the masked line opposite stand at the same place of their texts. */
  lemma {:induction false} OppositeLines(src: string, i: nat)
    requires NewlinesOnly(src) && i < |GitLines(src)|
    ensures i < |MaskedLines(src)| && |MaskedLines(src)[i]| == |GitLines(src)[i]|
    ensures StandsAt(src, GitLines(src)[i], StartOf(GitLines(src), i))
    ensures StandsAt(Masked(src), MaskedLines(src)[i], StartOf(GitLines(src), i))
  {
    MaskedIsClean(src);
    LengthAt(GitLines(src), MaskedLines(src), i);
    SameStart(GitLines(src), MaskedLines(src), i);
    LineStands(src, i);
    LineStands(Masked(src), i);
  }

  lemma {:induction false} VisibleLine(src: string, i: nat)
    requires NewlinesOnly(src) && i < |GitLines(src)|
    requires StandsAt(GitLines(src)[i], ATTRIBUTE, Indent(GitLines(src)[i]))
    ensures i < |MaskedLines(src)|
    ensures var n := Indent(GitLines(src)[i]);
            TokenStart(src, 0, StartOf(GitLines(src), i) + n) <==> StandsAt(MaskedLines(src)[i], ATTRIBUTE, n)
  {
    OppositeLines(src, i);
    var line := GitLines(src)[i];
    VisibleAt(src, line, MaskedLines(src)[i], StartOf(GitLines(src), i), Indent(line));
  }

  /** A raw attribute line shows its attribute in the masked line opposite if and
      only if the attribute is code, not text of a comment or of a literal. */
  lemma {:induction false} VisibleExactly(src: string, i: nat)
    requires NewlinesOnly(src) && i < |GitLines(src)| && IsAttribute(GitLines(src)[i])
    ensures i < |MaskedLines(src)|
    ensures OpensItem(src, i) <==> StandsAt(MaskedLines(src)[i], ATTRIBUTE, Indent(GitLines(src)[i]))
  {
    AttributeStands(GitLines(src)[i]);
    VisibleLine(src, i);
  }

  // ------------------------------------------------------------- real items --

  /** What Rust's grammar says an attribute at a place of a source stands before. */
  type Grammar = (string, nat) -> Kind

  /** The attribute of line `i` is code, and `x` is the item or list element behind
      it, in the source without comments and literals. */
  ghost predicate IsRealItem(src: string, g: Grammar, i: nat, x: Thing) {
    && OpensItem(src, i) && AttributeAt(src, i) <= |Masked(src)|
    && IsThing(Masked(src)[AttributeAt(src, i)..], g(src, AttributeAt(src, i)), x)
  }

  /** Line `n` starts on or below line `i + 1` and before the end of `x`. */
  predicate Reaches(src: string, i: nat, x: Thing, n: int)
    requires i < |GitLines(src)|
  {
    i < n <= |GitLines(src)| && StartOf(GitLines(src), n - 1) < AttributeAt(src, i) + |TextOf(x)|
  }

  /** Some attributed item or list element reaches line `n`. */
  ghost predicate InRealItem(src: string, g: Grammar, n: int) {
    exists i: nat, x: Thing :: IsRealItem(src, g, i, x) && Reaches(src, i, x, n)
  }

  /** What stands behind the attribute of line `i` holds a semicolon or a block. */
  ghost predicate OpensWhole(src: string, g: Grammar, i: nat) {
    exists x: Thing :: IsRealItem(src, g, i, x) && HoldsStop(TextOf(x))
  }

  /** So it is for every attribute line; in particular none is commented out or quoted. */
  ghost predicate AttributesOpenWholes(src: string, g: Grammar) {
    forall i :: 0 <= i < |GitLines(src)| && IsAttribute(GitLines(src)[i]) ==> OpensWhole(src, g, i)
  }

  lemma {:induction false} RegionsOf(src: string)
    requires NewlinesOnly(src)
    ensures |GitLines(src)| == |MaskedLines(src)|
    ensures TestRanges(Some(src)) == RangesFrom(GitLines(src), MaskedLines(src), 0)
  {
    MaskedIsClean(src);
    assert |Lengths(GitLines(src))| == |GitLines(src)| && |Lengths(MaskedLines(src))| == |MaskedLines(src)|;
  }

  lemma {:induction false} IndentIsSpace(line: string)
    ensures forall k :: 0 <= k < Indent(line) ==> IsSpace(line[k])
  {
    if line == [] || !IsSpace(line[0]) {
    } else {
      IndentIsSpace(line[1..]);
      assert forall k :: 1 <= k < Indent(line) ==> line[k] == line[1..][k - 1];
    }
  }

  lemma {:induction false} NoMarkInIndent(s: string, t: string, line: string, at: nat, n: nat)
    requires |s| == |t| && (forall k :: 0 <= k < |s| ==> KeptOrBlank(s[k], t[k]))
    requires StandsAt(s, line, at) && n <= |line| && (forall k :: 0 <= k < n ==> IsSpace(line[k]))
    ensures NoMarks(t[at..], n)
  {
    forall k | 0 <= k < n ensures !IsMark(t[at..][k]) {
      assert s[at + k] == line[k] && KeptOrBlank(s[at + k], t[at + k]);
    }
  }

  /** The masked text from line `i` on, and what stands before its attribute. */
  lemma {:induction false} BehindIndent(src: string, i: nat)
    requires NewlinesOnly(src) && i < |GitLines(src)|
    ensures i < |MaskedLines(src)| && StartOf(MaskedLines(src), i) == StartOf(GitLines(src), i)
    ensures AttributeAt(src, i) <= |src| == |Masked(src)|
    ensures var m := Masked(src)[StartOf(GitLines(src), i)..];
            && Spells(m, MaskedLines(src), i)
            && Indent(GitLines(src)[i]) <= |m| && NoMarks(m, Indent(GitLines(src)[i]))
            && m[Indent(GitLines(src)[i])..] == Masked(src)[AttributeAt(src, i)..]
  {
    var line, at := GitLines(src)[i], StartOf(GitLines(src), i);
    MaskedIsClean(src);
    LengthAt(GitLines(src), MaskedLines(src), i);
    SameStart(GitLines(src), MaskedLines(src), i);
    TextSpells(Masked(src), i);
    MaskLinesUp(src);
    LineStands(src, i);
    IndentIsSpace(line);
    NoMarkInIndent(src, Masked(src), line, at, Indent(line));
  }

  /** Where the region of line `i` ends is where the scan of the masked text behind
      the attribute first stops. */
  lemma {:induction false} RegionStops(src: string, i: nat, e: nat) returns (k: nat)
    requires NewlinesOnly(src) && i < |GitLines(src)| && IsItemEnd(MaskedLines(src), i, e)
    ensures AttributeAt(src, i) <= |Masked(src)|
    ensures FirstClosing(Masked(src)[AttributeAt(src, i)..], k)
    ensures e < |MaskedLines(src)| && InLine(MaskedLines(src), i, e, Indent(GitLines(src)[i]) + k)
  {
    BehindIndent(src, i);
    assert LineCloses(MaskedLines(src), i, e);
    k := EndHoldsFirst(Masked(src)[StartOf(GitLines(src), i)..], MaskedLines(src), i, e, Indent(GitLines(src)[i]));
  }

  lemma {:induction false} SameStarts(src: string)
    requires NewlinesOnly(src)
    ensures |GitLines(src)| == |MaskedLines(src)|
    ensures forall j :: 0 <= j <= |GitLines(src)| ==> StartOf(GitLines(src), j) == StartOf(MaskedLines(src), j)
  {
    MaskedIsClean(src);
    assert |Lengths(GitLines(src))| == |GitLines(src)| && |Lengths(MaskedLines(src))| == |MaskedLines(src)|;
    forall j | 0 <= j <= |GitLines(src)| ensures StartOf(GitLines(src), j) == StartOf(MaskedLines(src), j) {
      SameStart(GitLines(src), MaskedLines(src), j);
    }
  }

  /** A line up to the one that holds character `k` starts before what reaches past it. */
  lemma {:induction false} StartsBefore(lines: seq<string>, i: nat, e: nat, k: nat, n: nat)
    requires InLine(lines, i, e, k) && i <= n <= e
    ensures StartOf(lines, n) <= StartOf(lines, i) + k
  {
    OffsetIsStart(lines, i, e);
    if n < e {
      StartGrows(lines, n, e);
    }
  }

  /** The region that starts at a whole item or list element reaches no further. */
  lemma {:induction false} RegionIsInside(src: string, g: Grammar, i: nat, x: Thing, e: nat, n: int)
    requires NewlinesOnly(src) && IsRealItem(src, g, i, x) && HoldsStop(TextOf(x))
    requires IsItemEnd(MaskedLines(src), i, e) && i + 1 <= n <= e + 1
    ensures Reaches(src, i, x, n)
  {
    var k := RegionStops(src, i, e);
    StopsWithin(Masked(src)[AttributeAt(src, i)..], g(src, AttributeAt(src, i)), x, k);
    SameStarts(src);
    StartsBefore(MaskedLines(src), i, e, Indent(GitLines(src)[i]) + k, n - 1);
  }

  lemma {:induction false} StopsWithin(m: string, kind: Kind, x: Thing, k: nat)
    requires IsThing(m, kind, x) && HoldsStop(TextOf(x)) && FirstClosing(m, k)
    ensures k < |TextOf(x)|
  {
    StaysExactly(m, kind, x);
    var j: nat :| j < |TextOf(x)| && Closing(m, j);
    assert !(j < k);
  }

  /** No region exempts a line that no real item or list element reaches, when the
      lines of the file are those of `git`, and every attribute line is code and
      stands before something that holds a semicolon or a block. */
  lemma {:induction false} RegionsAreReal(src: string, g: Grammar, n: int)
    requires NewlinesOnly(src) && AttributesOpenWholes(src, g)
    ensures InRanges(TestRanges(Some(src)), n) ==> InRealItem(src, g, n)
  {
    RegionsOf(src);
    if InRanges(TestRanges(Some(src)), n) {
      var i, e := RangeHolding(GitLines(src), MaskedLines(src), n);
      RegionIsReal(src, g, i, e, n);
    }
  }

  /** The attribute line and the last line of the region that holds line `n`. */
  lemma {:induction false} RangeHolding(raw: seq<string>, masked: seq<string>, n: int) returns (i: nat, e: nat)
    requires |raw| == |masked| && InRanges(RangesFrom(raw, masked, 0), n)
    ensures i < |raw| && IsAttribute(raw[i]) && IsItemEnd(masked, i, e) && i + 1 <= n <= e + 1
  {
    var ranges := RangesFrom(raw, masked, 0);
    var k :| 0 <= k < |ranges| && ranges[k].lo <= n <= ranges[k].hi;
    RangeIsItem(raw, masked, k);
    i, e := ranges[k].lo - 1, ranges[k].hi - 1;
  }

  lemma WholeAt(src: string, g: Grammar, i: nat) returns (x: Thing)
    requires AttributesOpenWholes(src, g) && i < |GitLines(src)| && IsAttribute(GitLines(src)[i])
    ensures IsRealItem(src, g, i, x) && HoldsStop(TextOf(x))
  {
    assert OpensWhole(src, g, i);
    x :| IsRealItem(src, g, i, x) && HoldsStop(TextOf(x));
  }

  lemma ReachedIsReal(src: string, g: Grammar, i: nat, x: Thing, n: int)
    requires IsRealItem(src, g, i, x) && Reaches(src, i, x, n)
    ensures InRealItem(src, g, n)
  {
  }

  lemma {:induction false} RegionIsReal(src: string, g: Grammar, i: nat, e: nat, n: int)
    requires NewlinesOnly(src) && AttributesOpenWholes(src, g)
    requires i < |GitLines(src)| && IsAttribute(GitLines(src)[i]) && IsItemEnd(MaskedLines(src), i, e)
    requires i + 1 <= n <= e + 1
    ensures InRealItem(src, g, n)
  {
    var x := WholeAt(src, g, i);
    RegionIsInside(src, g, i, x, e, n);
    ReachedIsReal(src, g, i, x, n);
  }

  /** And that is when the scan stops inside: it does if and only if the item or
      list element holds a semicolon or a block. */
  lemma {:induction false} ScanStaysExactly(src: string, g: Grammar, i: nat, x: Thing)
    requires IsRealItem(src, g, i, x)
    ensures (exists k: nat :: k < |TextOf(x)| && Closing(Masked(src)[AttributeAt(src, i)..], k))
            <==> HoldsStop(TextOf(x))
  {
    StaysExactly(Masked(src)[AttributeAt(src, i)..], g(src, AttributeAt(src, i)), x);
  }

  lemma {:induction false} ItemEndsThere(src: string, i: nat, k: nat) returns (e: nat)
    requires NewlinesOnly(src) && i < |GitLines(src)| && AttributeAt(src, i) <= |Masked(src)|
    requires FirstClosing(Masked(src)[AttributeAt(src, i)..], k)
    ensures IsItemEnd(MaskedLines(src), i, e) && InLine(MaskedLines(src), i, e, Indent(GitLines(src)[i]) + k)
  {
    var d := Indent(GitLines(src)[i]);
    BehindIndent(src, i);
    e := LineHolding(Masked(src), i, d + k);
    FirstIsEnd(Masked(src)[StartOf(GitLines(src), i)..], MaskedLines(src), i, e, d, k);
  }

  /** A line that starts no later than character `k` comes no later than its line. */
  lemma {:induction false} StartedBefore(lines: seq<string>, i: nat, e: nat, k: nat, n: nat)
    requires InLine(lines, i, e, k) && n <= |lines| && StartOf(lines, n) <= StartOf(lines, i) + k
    ensures n <= e
  {
    OffsetIsStart(lines, i, e);
    if e < n {
      StartGrows(lines, e, n);
    }
  }

  lemma {:induction false} ReachedIsInside(src: string, i: nat, x: Thing, e: nat, k: nat, n: int)
    requires NewlinesOnly(src) && i < |GitLines(src)| && Reaches(src, i, x, n) && |TextOf(x)| == k + 1
    requires InLine(MaskedLines(src), i, e, Indent(GitLines(src)[i]) + k)
    ensures i + 1 <= n <= e + 1
  {
    SameStarts(src);
    StartedBefore(MaskedLines(src), i, e, Indent(GitLines(src)[i]) + k, n - 1);
  }

  /** A whole item that ends with a semicolon or a block, and holds neither in the
      brackets before, is exempt on every line, unless it opens inside another region. */
  lemma {:induction false} RealItemsAreRegions(src: string, g: Grammar, i: nat, x: Thing)
    requires NewlinesOnly(src) && IsRealItem(src, g, i, x)
    requires (x.tail.Semicolon? || x.tail.Block?) && !HoldsStop(Written(x.lead))
    ensures var ranges := TestRanges(Some(src));
            || (forall n :: Reaches(src, i, x, n) ==> InRanges(ranges, n))
            || exists k :: 0 <= k < |ranges| && ranges[k].lo < i + 1 <= ranges[k].hi
  {
    EndsExactly(Masked(src)[AttributeAt(src, i)..], g(src, AttributeAt(src, i)), x);
    var e := ItemEndsThere(src, i, |TextOf(x)| - 1);
    RegionsOf(src);
    var ranges := TestRanges(Some(src));
    var r := ItemOrOuter(GitLines(src), MaskedLines(src), i, e);
    if r == Range(i + 1, e + 1) {
      forall n | Reaches(src, i, x, n) ensures InRanges(ranges, n) {
        ReachedIsInside(src, i, x, e, |TextOf(x)| - 1, n);
      }
    }
  }

  lemma {:induction false} RangeIsItem(raw: seq<string>, masked: seq<string>, k: nat)
    requires |raw| == |masked| && k < |RangesFrom(raw, masked, 0)|
    ensures IsItemRange(raw, masked, RangesFrom(raw, masked, 0)[k])
  {
    RangesWhole(raw, masked);
  }

  /** The region that holds an attribute line is its own item's, or opens before. */
  lemma {:induction false} ItemOrOuter(raw: seq<string>, masked: seq<string>, i: nat, e: nat) returns (r: Range)
    requires |raw| == |masked| && i < |raw| && IsAttribute(raw[i]) && i <= e && IsItemEnd(masked, i, e)
    ensures r in RangesFrom(raw, masked, 0) && (r == Range(i + 1, e + 1) || r.lo < i + 1 <= r.hi)
  {
    AttributeIsInRange(raw, masked, Range(i + 1, e + 1));
    var ranges := RangesFrom(raw, masked, 0);
    var k :| 0 <= k < |ranges| && ranges[k].lo <= i + 1 <= ranges[k].hi;
    r := ranges[k];
    if r.lo == i + 1 {
      RangeIsItem(raw, masked, k);
      SameItem(raw, masked, r, Range(i + 1, e + 1));
    }
  }

  lemma {:induction false} AttributeIsInRange(raw: seq<string>, masked: seq<string>, r: Range)
    requires 1 <= r.lo <= r.hi && r.lo <= |raw| == |masked| && IsAttribute(raw[r.lo - 1])
    requires IsItemEnd(masked, r.lo - 1, r.hi - 1)
    ensures InRanges(RangesFrom(raw, masked, 0), r.lo)
  {
    RangesAreComplete(raw, masked, r.lo - 1);
    assert LineCloses(masked, r.lo - 1, r.hi - 1);
  }

  lemma SameItem(raw: seq<string>, masked: seq<string>, a: Range, b: Range)
    requires IsItemRange(raw, masked, a) && 1 <= b.lo <= b.hi && IsItemEnd(masked, b.lo - 1, b.hi - 1)
    requires a.lo == b.lo
    ensures a == b
  {
    OneEnd(masked, a.lo - 1, a.hi - 1, b.hi - 1);
  }

  lemma OneEnd(lines: seq<string>, i: nat, a: nat, b: nat)
    requires IsItemEnd(lines, i, a) && IsItemEnd(lines, i, b)
    ensures a == b
  {
  }

  // ------------------------------------------------------ the numbers of git --

  /** The number `git` gives line `k` of the hunk at `j` that starts at `start`, in
      the new and in the old image. */
  function NewNumber(diff: seq<string>, j: nat, k: nat, start: nat): int
    requires j < k < |diff|
  {
    start + CountWith(diff[j + 1..k], "+") + CountWith(diff[j + 1..k], " ")
  }

  function OldNumber(diff: seq<string>, j: nat, k: nat, start: nat): int
    requires j < k < |diff|
  {
    start + CountWith(diff[j + 1..k], "-") + CountWith(diff[j + 1..k], " ")
  }

  /** The header of a file whose two paths it is read back to. */
  predicate IsGitHeader(line: string, was: string, path: string) {
    line == HeaderText(was, path) && was != [] && !Contains(path, " b/")
  }

  /** A line of the body of a hunk. */
  predicate IsBodyLine(line: string) {
    line != [] && (line[0] == '+' || line[0] == '-' || line[0] == ' ' || line[0] == '\\')
  }

  /** The header of a hunk: where it starts in the old and in the new image. */
  ghost predicate IsGitHunk(line: string, pre: nat, post: nat) {
    exists preLength, postLength, context :: line == HunkText(pre, preLength, post, postLength, context)
  }

  /** The place of a line of a diff: the header of its file and that of its hunk. */
  datatype Place = Place(was: string, path: string, header: nat, hunk: nat, pre: nat, post: nat)

  /** Line `k` stands there, in a diff as `git` writes it. */
  ghost predicate StandsThere(diff: seq<string>, at: Place, k: nat) {
    && at.header < at.hunk < k < |diff|
    && IsGitHeader(diff[at.header], at.was, at.path) && IsWatched(at.path) && !IsTestPath(at.path)
    && (forall i :: at.header < i < at.hunk ==> !IsHeader(diff[i]))
    && IsGitHunk(diff[at.hunk], at.pre, at.post)
    && (forall i :: at.hunk < i < k ==> IsBodyLine(diff[i]))
  }

  lemma HunkLine(line: string, pre: nat, post: nat)
    requires IsGitHunk(line, pre, post)
    ensures ParseHunk(line) == Some((pre, post)) && !IsHeader(line)
  {
    var preLength, postLength, context :| line == HunkText(pre, preLength, post, postLength, context);
    HunkReads(pre, preLength, post, postLength, context);
    assert line[0] == '@';
  }

  lemma BodyLine(line: string)
    requires IsBodyLine(line)
    ensures IsInner(line)
  {
    var c := line[0];
    assert IsHeader(line) ==> c == 'd';
    assert "@@" <= line ==> c == '@';
  }

  /** A header `git` writes is read as it should be, when its file is watched. */
  lemma {:induction false} HeaderLine(line: string, was: string, path: string)
    requires IsGitHeader(line, was, path)
    ensures IsHeader(line) && ParseHeader(line) == Some((was, path))
  {
    HeaderReads(was, path);
    HeaderIsHeader(was, path);
  }

  lemma {:induction false} HeaderStaysLast(diff: seq<string>, h: nat, j: nat, k: nat)
    requires h < j < k <= |diff| && IsHeader(diff[h]) && !IsHeader(diff[j])
    requires (forall i :: h < i < j ==> !IsHeader(diff[i])) && (forall i :: j < i < k ==> IsInner(diff[i]))
    ensures LastHeader(diff, h, k)
  {
    forall i | h < i < k ensures !IsHeader(diff[i]) {
      assert i > j ==> IsInner(diff[i]);
    }
  }

  lemma {:induction false} PlaceIsRead(diff: seq<string>, at: Place, k: nat)
    requires StandsThere(diff, at, k)
    ensures InHunk(diff, at.header, at.hunk, k) && FileOf(diff, at.header) == at.path
    ensures ParseHunk(diff[at.hunk]) == Some((at.pre, at.post))
  {
    HeaderLine(diff[at.header], at.was, at.path);
    HunkLine(diff[at.hunk], at.pre, at.post);
    forall i | at.hunk < i < k ensures IsInner(diff[i]) {
      BodyLine(diff[i]);
    }
    HeaderStaysLast(diff, at.header, at.hunk, k);
  }

  lemma HeaderIsHeader(was: string, path: string)
    ensures IsHeader(HeaderText(was, path))
  {
    assert HeaderText(was, path)[..11] == "diff --git ";
  }

  /** No line between `j` and `k` opens with `mark`. */
  predicate NoneWith(diff: seq<string>, j: nat, k: nat, mark: string)
    requires k <= |diff|
  {
    forall i :: j < i < k ==> !(mark <= diff[i])
  }

  lemma {:induction false} NoneIsZero(diff: seq<string>, j: nat, k: nat, mark: string)
    requires j < k <= |diff|
    ensures CountWith(diff[j + 1..k], mark) == 0 <==> NoneWith(diff, j, k, mark)
  {
    var body := diff[j + 1..k];
    CountsNone(body, mark);
    assert forall i :: 0 <= i < |body| ==> body[i] == diff[j + 1 + i];
    assert forall i :: j < i < k ==> diff[i] == body[i - (j + 1)];
  }

  /** In a diff whose lines hold no line end but their newline, the walk meets a
      hunk line in its file, and at the number `git` gives it if and only if no
      line before it in the hunk reads as a file header. */
  lemma {:induction false} NumbersAreGits(diff: seq<string>, at: Place, k: nat)
    requires AllUnbroken(diff) && StandsThere(diff, at, k)
    ensures SplitLines(Terminated(diff)) == diff
    ensures Before(diff, k).path == Some(at.path)
    ensures Before(diff, k).newLine == NewNumber(diff, at.hunk, k, at.post) <==> NoneWith(diff, at.hunk, k, "+++")
    ensures Before(diff, k).oldLine == OldNumber(diff, at.hunk, k, at.pre) <==> NoneWith(diff, at.hunk, k, "---")
  {
    PlaceIsRead(diff, at, k);
    TerminatedSplitsExactly(diff);
    NumbersInHunk(diff, at.header, at.hunk, k, at.pre, at.post);
  }

  lemma {:induction false} NumbersInHunk(diff: seq<string>, h: nat, j: nat, k: nat, pre: nat, post: nat)
    requires InHunk(diff, h, j, k) && ParseHunk(diff[j]) == Some((pre, post))
    ensures Before(diff, k).path == Some(FileOf(diff, h))
    ensures Before(diff, k).newLine == NewNumber(diff, j, k, post) <==> NoneWith(diff, j, k, "+++")
    ensures Before(diff, k).oldLine == OldNumber(diff, j, k, pre) <==> NoneWith(diff, j, k, "---")
  {
    StandsInHunk(diff, h, j, k);
    NoneIsZero(diff, j, k, "+++");
    NoneIsZero(diff, j, k, "---");
  }

  // -------------------------------------------------------- the whole gate --

  function ImageAt(images: Images, path: string): Option<string> {
    if images.Some? then images.value(path) else None
  }

  /** The lines of the image are those of `git`, and its attributes open wholes. */
  ghost predicate IsPlainImage(image: Option<string>, g: Grammar) {
    image.Some? ==> NewlinesOnly(image.value) && AttributesOpenWholes(image.value, g)
  }

  ghost predicate InTestItem(image: Option<string>, g: Grammar, n: int) {
    image.Some? && InRealItem(image.value, g, n)
  }

  lemma {:induction false} OutsideItems(image: Option<string>, g: Grammar, n: int)
    requires IsPlainImage(image, g) && !InTestItem(image, g, n)
    ensures !InRanges(TestRanges(image), n)
  {
    if image.Some? {
      RegionsAreReal(image.value, g, n);
    }
  }

  /** A substantive added line of production code lists its file. */
  lemma {:induction false} ProductionAdditionIsListed(
    diff: seq<string>, at: Place, k: nat, oldImages: Images, newImages: Images, g: Grammar)
    requires AllUnbroken(diff) && StandsThere(diff, at, k) && NoneWith(diff, at.hunk, k, "+++")
    requires IsAdded(diff[k]) && !IsIgnorable(diff[k][1..], at.path)
    requires IsPlainImage(ImageAt(newImages, at.path), g)
    requires !InTestItem(ImageAt(newImages, at.path), g, NewNumber(diff, at.hunk, k, at.post))
    ensures at.path in Substantive(Terminated(diff), oldImages, newImages)
  {
    NumbersAreGits(diff, at, k);
    PlaceIsRead(diff, at, k);
    StandsInHunk(diff, at.header, at.hunk, k);
    OutsideItems(ImageAt(newImages, at.path), g, NewNumber(diff, at.hunk, k, at.post));
    AddedLineFires(Terminated(diff), at.header, at.hunk, k, oldImages, newImages);
  }

  /** Every file header of the diff is one that is read back to its paths. */
  ghost predicate HeadersAreGits(diff: seq<string>) {
    forall i :: 0 <= i < |diff| && IsHeader(diff[i]) ==> exists was, path :: IsGitHeader(diff[i], was, path)
  }

  /** The old images of the file are plain, and line `n` lies in no test item of theirs. */
  ghost predicate OutsideOld(diff: seq<string>, path: string, oldImages: Images, g: Grammar, n: int) {
    forall i, was :: 0 <= i < |diff| && diff[i] == HeaderText(was, path) ==>
      IsPlainImage(ImageAt(oldImages, was), g) && !InTestItem(ImageAt(oldImages, was), g, n)
  }

  lemma {:induction false} NamedByText(line: string, path: string, was: string)
    requires Names(line, path, was) && exists w, p :: IsGitHeader(line, w, p)
    ensures line == HeaderText(was, path)
  {
    var w, p :| IsGitHeader(line, w, p);
    HeaderReads(w, p);
  }

  /** So does a substantive removed one. */
  lemma {:induction false} ProductionRemovalIsListed(
    diff: seq<string>, at: Place, k: nat, oldImages: Images, newImages: Images, g: Grammar)
    requires AllUnbroken(diff) && HeadersAreGits(diff)
    requires StandsThere(diff, at, k) && NoneWith(diff, at.hunk, k, "---")
    requires IsRemoved(diff[k]) && !IsIgnorable(diff[k][1..], at.path)
    requires OutsideOld(diff, at.path, oldImages, g, OldNumber(diff, at.hunk, k, at.pre))
    ensures at.path in Substantive(Terminated(diff), oldImages, newImages)
  {
    var n := OldNumber(diff, at.hunk, k, at.pre);
    NumbersAreGits(diff, at, k);
    PlaceIsRead(diff, at, k);
    StandsInHunk(diff, at.header, at.hunk, k);
    forall i, was | 0 <= i < |diff| && Names(diff[i], at.path, was)
      ensures !InRanges(RangesIn(oldImages, was), n)
    {
      NamedByText(diff[i], at.path, was);
      OutsideItems(ImageAt(oldImages, was), g, n);
    }
    RemovedLineFires(Terminated(diff), at.header, at.hunk, k, oldImages, newImages);
  }
}
