/** `substantive_files` (tools/check-enforcement-pairing.py): which watched files
    of a diff changed behaviour. */
module Classifier {
  import opened Text
  import opened Json
  import opened Regions
  import opened Diff

  // ---------------------------------------------------------------- the walk --

  /** The changed lines of one file: pre-image and post-image numbers, and the
      path the file had before. */
  datatype Sides = Sides(pre: seq<int>, post: seq<int>, was: string)

  datatype Walker = Walker(
    path: Option<string>, oldPath: Option<string>, oldLine: nat, newLine: nat, changed: Assoc<Sides>)

  const START := Walker(None, None, 0, 0, [])

  function EntryOf(w: Walker, path: string): Sides {
    match Get(w.changed, path)
    case Some(sides) => sides
    case None => Sides([], [], if w.oldPath.Some? && w.oldPath.value != [] then w.oldPath.value else path)
  }

  function AddNew(w: Walker, path: string, line: int): Walker {
    var e := EntryOf(w, path);
    w.(changed := Put(w.changed, path, e.(post := e.post + [line])))
  }

  function AddOld(w: Walker, path: string, line: int): Walker {
    var e := EntryOf(w, path);
    w.(changed := Put(w.changed, path, e.(pre := e.pre + [line])))
  }

  predicate IsHeader(line: string) { "diff --git " <= line }

  predicate IsBadHunk(line: string) {
    "@@" <= line && ParseHunk(line).None?
  }

  /** What one diff line does. */
  function Step(w: Walker, line: string): Walker {
    if IsHeader(line) then
      var m := ParseHeader(line);
      if m.Some? && IsWatched(m.value.1) && !IsTestPath(m.value.1)
      then w.(path := Some(m.value.1), oldPath := Some(m.value.0))
      else w.(path := None, oldPath := None)
    else if w.path.None? then w
    else
      var path := w.path.value;
      if "+++" <= line || "---" <= line then w
      else if "@@" <= line then
        match ParseHunk(line)
        case None => AddNew(w, path, -1)
        case Some(nums) => w.(oldLine := nums.0, newLine := nums.1)
      else if "+" <= line then
        (if IsIgnorable(line[1..], path) then w else AddNew(w, path, w.newLine)).(newLine := w.newLine + 1)
      else if "-" <= line then
        (if IsIgnorable(line[1..], path) then w else AddOld(w, path, w.oldLine)).(oldLine := w.oldLine + 1)
      else if " " <= line then w.(oldLine := w.oldLine + 1, newLine := w.newLine + 1)
      else w
  }

  function Walk(w: Walker, lines: seq<string>): Walker
    decreases |lines|
  {
    if lines == [] then w else Walk(Step(w, lines[0]), lines[1..])
  }

  // ---------------------------------------------------------------- the hits --

  /** A source of file images: absent, or a lookup that may fail. */
  type Images = Option<string -> Option<string>>

  ghost function RangesIn(images: Images, path: string): seq<Range> {
    TestRanges(if images.Some? then images.value(path) else None)
  }

  /** Some changed line lies outside every test region of its own image. */
  ghost predicate Outside(ranges: seq<Range>, lines: seq<int>) {
    exists k :: 0 <= k < |lines| && !InRanges(ranges, lines[k])
  }

  ghost predicate IsHit(e: Entry<Sides>, oldImages: Images, newImages: Images) {
    || Outside(RangesIn(oldImages, e.value.was), e.value.pre)
    || Outside(RangesIn(newImages, e.key), e.value.post)
  }

  /** The keys of the entries that satisfy `hit`, in order. */
  ghost function KeysWhere(changed: Assoc<Sides>, hit: Entry<Sides> -> bool): seq<string> {
    if changed == [] then []
    else if hit(changed[0]) then [changed[0].key] + KeysWhere(changed[1..], hit)
    else KeysWhere(changed[1..], hit)
  }

  ghost function Hits(changed: Assoc<Sides>, oldImages: Images, newImages: Images): seq<string> {
    KeysWhere(changed, e => IsHit(e, oldImages, newImages))
  }

  ghost function Substantive(diff: string, oldImages: Images, newImages: Images): seq<string> {
    Hits(Walk(START, SplitLines(diff)).changed, oldImages, newImages)
  }

  method AnyOutside(ranges: seq<Range>, lines: seq<int>) returns (b: bool)
    ensures b <==> Outside(ranges, lines)
  {
    for k := 0 to |lines|
      invariant forall m :: 0 <= m < k ==> InRanges(ranges, lines[m])
    {
      if !InRanges(ranges, lines[k]) {
        return true;
      }
    }
    b := false;
  }

  method FileHits(e: Entry<Sides>, oldImages: Images, newImages: Images) returns (b: bool)
    ensures b <==> IsHit(e, oldImages, newImages)
  {
    var oldRanges := CfgTestRanges(if oldImages.Some? then oldImages.value(e.value.was) else None);
    var newRanges := CfgTestRanges(if newImages.Some? then newImages.value(e.key) else None);
    b := AnyOutside(oldRanges, e.value.pre);
    if !b {
      b := AnyOutside(newRanges, e.value.post);
    }
  }

  /** The loop over the diff's lines. */
  method WalkDiff(lines: seq<string>) returns (changed: Assoc<Sides>)
    ensures changed == Walk(START, lines).changed
  {
    changed := [];
    var path: Option<string>, oldPath: Option<string> := None, None;
    var oldLine: nat, newLine: nat := 0, 0;
    for i := 0 to |lines|
      invariant Walk(Walker(path, oldPath, oldLine, newLine, changed), lines[i..]) == Walk(START, lines)
    {
      ghost var w := Walker(path, oldPath, oldLine, newLine, changed);
      assert lines[i..][1..] == lines[i + 1..];
      var line := lines[i];
      if IsHeader(line) {
        path, oldPath := None, None;
        var m := ParseHeader(line);
        if m.Some? && IsWatched(m.value.1) && !IsTestPath(m.value.1) {
          path, oldPath := Some(m.value.1), Some(m.value.0);
        }
      } else if path.Some? && !("+++" <= line || "---" <= line) {
        if "@@" <= line {
          var m := ParseHunk(line);
          if m.None? {
            changed := AddNew(Walker(path, oldPath, oldLine, newLine, changed), path.value, -1).changed;
          } else {
            oldLine, newLine := m.value.0, m.value.1;
          }
        } else if "+" <= line {
          if !IsIgnorable(line[1..], path.value) {
            changed := AddNew(Walker(path, oldPath, oldLine, newLine, changed), path.value, newLine).changed;
          }
          newLine := newLine + 1;
        } else if "-" <= line {
          if !IsIgnorable(line[1..], path.value) {
            changed := AddOld(Walker(path, oldPath, oldLine, newLine, changed), path.value, oldLine).changed;
          }
          oldLine := oldLine + 1;
        } else if " " <= line {
          oldLine, newLine := oldLine + 1, newLine + 1;
        }
      }
      assert Walker(path, oldPath, oldLine, newLine, changed) == Step(w, line);
    }
  }

  lemma {:induction false} KeysStep(changed: Assoc<Sides>, hit: Entry<Sides> -> bool, i: nat, hits: seq<string>)
    requires i < |changed|
    ensures hits + KeysWhere(changed[i..], hit)
            == (if hit(changed[i]) then hits + [changed[i].key] else hits) + KeysWhere(changed[i + 1..], hit)
  {
    var rest := changed[i..];
    assert rest[0] == changed[i] && rest[1..] == changed[i + 1..];
  }

  method CollectHits(changed: Assoc<Sides>, oldImages: Images, newImages: Images) returns (hits: seq<string>)
    ensures hits == Hits(changed, oldImages, newImages)
  {
    hits := [];
    ghost var hit: Entry<Sides> -> bool := e => IsHit(e, oldImages, newImages);
    assert changed[0..] == changed;
    for i := 0 to |changed|
      invariant hits + KeysWhere(changed[i..], hit) == KeysWhere(changed, hit)
    {
      KeysStep(changed, hit, i, hits);
      var fires := FileHits(changed[i], oldImages, newImages);
      if fires {
        hits := hits + [changed[i].key];
      }
    }
    assert changed[|changed|..] == [];
  }

  /** `substantive_files`: the diff walk, then the region test per file. */
  method SubstantiveFiles(diff: string, oldImages: Images, newImages: Images) returns (hits: seq<string>)
    ensures hits == Substantive(diff, oldImages, newImages)
  {
    var changed := WalkDiff(SplitLines(diff));
    hits := CollectHits(changed, oldImages, newImages);
  }

  // --------------------------------------------------- fail toward firing --

  /** `a` is `b` with some elements left out. */
  ghost predicate Subsequence<T>(a: seq<T>, b: seq<T>) {
    a == [] || (b != [] && ((a[0] == b[0] && Subsequence(a[1..], b[1..])) || Subsequence(a, b[1..])))
  }

  /** `fewer` withholds images, a whole side or single paths, that `more` may supply. */
  ghost predicate Withholds(fewer: Images, more: Images) {
    || fewer.None?
    || (more.Some? && forall p :: fewer.value(p).None? || fewer.value(p) == more.value(p))
  }

  lemma OutsideNothing(ranges: seq<Range>, lines: seq<int>)
    ensures Outside(ranges, lines) ==> Outside([], lines)
  {
    if Outside(ranges, lines) {
      var k :| 0 <= k < |lines| && !InRanges(ranges, lines[k]);
      assert !InRanges([], lines[k]);
    }
  }

  lemma {:induction false} HitsShrink(
    changed: Assoc<Sides>, oldFewer: Images, newFewer: Images, oldMore: Images, newMore: Images)
    requires Withholds(oldFewer, oldMore) && Withholds(newFewer, newMore)
    ensures Subsequence(Hits(changed, oldMore, newMore), Hits(changed, oldFewer, newFewer))
  {
    if changed == [] {
    } else {
      var e := changed[0];
      HitsShrink(changed[1..], oldFewer, newFewer, oldMore, newMore);
      OutsideNothing(RangesIn(oldMore, e.value.was), e.value.pre);
      OutsideNothing(RangesIn(newMore, e.key), e.value.post);
      var few, many := Hits(changed, oldMore, newMore), Hits(changed, oldFewer, newFewer);
      if IsHit(e, oldFewer, newFewer) {
        assert many[1..] == Hits(changed[1..], oldFewer, newFewer);
        if IsHit(e, oldMore, newMore) {
          assert few[1..] == Hits(changed[1..], oldMore, newMore);
        }
      }
    }
  }

  /** Supplying file images can only take files off the list, and never changes
      the order of the rest. */
  lemma {:induction false} ImagesOnlyExempt(
    diff: string, oldFewer: Images, newFewer: Images, oldMore: Images, newMore: Images)
    requires Withholds(oldFewer, oldMore) && Withholds(newFewer, newMore)
    ensures Subsequence(Substantive(diff, oldMore, newMore), Substantive(diff, oldFewer, newFewer))
  {
    HitsShrink(Walk(START, SplitLines(diff)).changed, oldFewer, newFewer, oldMore, newMore);
  }

  /** What every prefix of the walk keeps. */
  ghost predicate Sound(w: Walker) {
    && (w.path.Some? ==> IsWatched(w.path.value) && !IsTestPath(w.path.value))
    && DistinctKeys(w.changed)
    && forall i :: 0 <= i < |w.changed| ==>
         && IsWatched(w.changed[i].key) && !IsTestPath(w.changed[i].key)
         && (w.changed[i].value.pre != [] || w.changed[i].value.post != [])
  }

  /** Replacing or appending one entry. */
  lemma {:induction false} PutIndex<V>(o: Assoc<V>, key: string, v: V)
    ensures |o| <= |Put(o, key, v)|
    ensures forall i :: 0 <= i < |Put(o, key, v)| ==>
              || Put(o, key, v)[i] == Entry(key, v)
              || (i < |o| && Put(o, key, v)[i] == o[i])
    ensures forall i :: 0 <= i < |o| ==> Put(o, key, v)[i].key == o[i].key
    ensures |Put(o, key, v)| > |o| ==>
              |Put(o, key, v)| == |o| + 1 && forall i :: 0 <= i < |o| ==> o[i].key != key
    ensures |Put(o, key, v)| > |o| ==> Put(o, key, v)[|o|] == Entry(key, v)
  {
    if o != [] && o[0].key != key {
      PutIndex(o[1..], key, v);
      var p := Put(o, key, v);
      assert p[1..] == Put(o[1..], key, v);
      assert forall i :: 1 <= i < |p| ==> p[i] == p[1..][i - 1];
      assert forall i :: 1 <= i < |o| ==> o[i] == o[1..][i - 1];
    }
  }

  /** What one line can do: choose a file, or add one line to the chosen file. */
  ghost predicate Effect(w: Walker, s: Walker) {
    && (s.path == w.path || s.path.None? || (IsWatched(s.path.value) && !IsTestPath(s.path.value)))
    && (|| s.changed == w.changed
        || (w.path.Some? && exists n :: s.changed == AddNew(w, w.path.value, n).changed)
        || (w.path.Some? && exists n :: s.changed == AddOld(w, w.path.value, n).changed))
  }

  lemma {:induction false} StepEffect(w: Walker, line: string)
    ensures Effect(w, Step(w, line))
  {
    if !IsHeader(line) && w.path.Some? && Step(w, line).changed != w.changed {
      var path, s := w.path.value, Step(w, line);
      if "@@" <= line {
        assert s.changed == AddNew(w, path, -1).changed;
      } else if "+" <= line {
        assert s.changed == AddNew(w, path, w.newLine).changed;
      } else {
        assert s.changed == AddOld(w, path, w.oldLine).changed;
      }
    }
  }

  lemma {:induction false} PutSound(w: Walker, path: string, sides: Sides)
    requires Sound(w) && w.path == Some(path) && (sides.pre != [] || sides.post != [])
    ensures Sound(w.(changed := Put(w.changed, path, sides)))
  {
    PutIndex(w.changed, path, sides);
  }

  lemma {:induction false} AddSound(w: Walker, path: string, n: int)
    requires Sound(w) && w.path == Some(path)
    ensures Sound(AddNew(w, path, n)) && Sound(AddOld(w, path, n))
  {
    var e := EntryOf(w, path);
    PutSound(w, path, e.(post := e.post + [n]));
    PutSound(w, path, e.(pre := e.pre + [n]));
  }

  lemma {:induction false} EffectSound(w: Walker, s: Walker)
    requires Sound(w) && Effect(w, s)
    ensures Sound(s)
  {
    if w.path.Some? {
      if n :| s.changed == AddNew(w, w.path.value, n).changed {
        AddSound(w, w.path.value, n);
      } else if n :| s.changed == AddOld(w, w.path.value, n).changed {
        AddSound(w, w.path.value, n);
      }
    }
  }

  lemma {:induction false} StepSound(w: Walker, line: string)
    requires Sound(w)
    ensures Sound(Step(w, line))
  {
    StepEffect(w, line);
    EffectSound(w, Step(w, line));
  }

  lemma {:induction false} WalkSound(w: Walker, lines: seq<string>)
    requires Sound(w)
    ensures Sound(Walk(w, lines))
    decreases |lines|
  {
    if lines == [] {
    } else {
      StepSound(w, lines[0]);
      WalkSound(Step(w, lines[0]), lines[1..]);
    }
  }

  /** The list names exactly the files with a changed line outside every test
      region of its own image. */
  lemma {:induction false} HitsMember(changed: Assoc<Sides>, oldImages: Images, newImages: Images, p: string)
    ensures p in Hits(changed, oldImages, newImages)
            <==> exists i :: 0 <= i < |changed| && changed[i].key == p && IsHit(changed[i], oldImages, newImages)
  {
    if changed == [] {
    } else {
      var rest := changed[1..];
      HitsMember(rest, oldImages, newImages, p);
      if p in Hits(rest, oldImages, newImages) {
        var i :| 0 <= i < |rest| && rest[i].key == p && IsHit(rest[i], oldImages, newImages);
        assert changed[i + 1] == rest[i];
      }
      if i :| 0 <= i < |changed| && changed[i].key == p && IsHit(changed[i], oldImages, newImages) {
        if i > 0 {
          assert rest[i - 1] == changed[i];
        }
      }
    }
  }

  lemma {:induction false} HitsDistinct(changed: Assoc<Sides>, oldImages: Images, newImages: Images)
    requires DistinctKeys(changed)
    ensures forall i, j :: 0 <= i < j < |Hits(changed, oldImages, newImages)| ==>
              Hits(changed, oldImages, newImages)[i] != Hits(changed, oldImages, newImages)[j]
  {
    if changed == [] {
    } else {
      var rest := changed[1..];
      HitsDistinct(rest, oldImages, newImages);
      HitsMember(rest, oldImages, newImages, changed[0].key);
      assert forall i :: 0 <= i < |rest| ==> rest[i].key != changed[0].key;
    }
  }

  /** Every file is listed at most once, and only watched files outside the test
      directories are listed. */
  lemma {:induction false} ListedOnceAndWatched(diff: string, oldImages: Images, newImages: Images)
    ensures var hits := Substantive(diff, oldImages, newImages);
            && (forall i, j :: 0 <= i < j < |hits| ==> hits[i] != hits[j])
            && (forall p :: p in hits ==> IsWatched(p) && !IsTestPath(p))
  {
    var w := Walk(START, SplitLines(diff));
    WalkSound(START, SplitLines(diff));
    HitsDistinct(w.changed, oldImages, newImages);
    forall p | p in Hits(w.changed, oldImages, newImages) ensures IsWatched(p) && !IsTestPath(p) {
      HitsMember(w.changed, oldImages, newImages, p);
    }
  }

  /** With no images at all, every file with a substantive changed line is
      listed, in diff order. */
  lemma {:induction false} NoImagesListsAll(changed: Assoc<Sides>)
    requires forall i :: 0 <= i < |changed| ==> changed[i].value.pre != [] || changed[i].value.post != []
    ensures |Hits(changed, None, None)| == |changed|
    ensures forall i :: 0 <= i < |changed| ==> Hits(changed, None, None)[i] == changed[i].key
  {
    if changed == [] {
    } else {
      NoImagesListsAll(changed[1..]);
      var e := changed[0].value;
      assert e.pre != [] ==> !InRanges([], e.pre[0]);
      assert e.post != [] ==> !InRanges([], e.post[0]);
    }
  }

  // ------------------------------------------------ what reaches the table --

  predicate IsAdded(line: string) { "+" <= line && !("+++" <= line) }

  predicate IsRemoved(line: string) { "-" <= line && !("---" <= line) }

  /** What a line, met in state `w`, adds to the post-image numbers of file `q`:
      -1 for a hunk header without numbers, its number for a substantive addition. */
  function PostRecord(w: Walker, line: string, q: string): seq<int> {
    if w.path != Some(q) then []
    else if IsBadHunk(line) then [-1]
    else if IsAdded(line) && !IsIgnorable(line[1..], q) then [w.newLine as int]
    else []
  }

  /** What it adds to the pre-image numbers: its number for a substantive removal. */
  function PreRecord(w: Walker, line: string, q: string): seq<int> {
    if w.path == Some(q) && IsRemoved(line) && !IsIgnorable(line[1..], q) then [w.oldLine as int] else []
  }

  function PostOf(changed: Assoc<Sides>, q: string): seq<int> {
    match Get(changed, q) case Some(e) => e.post case None => []
  }

  function PreOf(changed: Assoc<Sides>, q: string): seq<int> {
    match Get(changed, q) case Some(e) => e.pre case None => []
  }

  lemma {:induction false} AddAt(w: Walker, path: string, n: int, q: string)
    ensures var s := AddNew(w, path, n).changed;
            && PostOf(s, q) == PostOf(w.changed, q) + (if q == path then [n] else [])
            && PreOf(s, q) == PreOf(w.changed, q)
    ensures var s := AddOld(w, path, n).changed;
            && PreOf(s, q) == PreOf(w.changed, q) + (if q == path then [n] else [])
            && PostOf(s, q) == PostOf(w.changed, q)
  {
    var e := EntryOf(w, path);
    GetPut(w.changed, path, e.(post := e.post + [n]), q);
    GetPut(w.changed, path, e.(pre := e.pre + [n]), q);
  }

  /** The first character tells the kinds of lines apart. */
  lemma {:induction false} LineKinds(line: string)
    ensures IsHeader(line) ==> !("@@" <= line) && !("+" <= line) && !("-" <= line) && !(" " <= line)
    ensures "@@" <= line ==> !("+" <= line) && !("-" <= line) && !(" " <= line)
    ensures "+" <= line ==> !("-" <= line) && !(" " <= line)
    ensures "-" <= line ==> !(" " <= line)
    ensures "+++" <= line ==> "+" <= line
    ensures "---" <= line ==> "-" <= line
  {
    assert IsHeader(line) ==> line[0] == 'd';
    assert "@@" <= line ==> line[0] == '@';
    assert "+" <= line <==> line != [] && line[0] == '+';
    assert "-" <= line <==> line != [] && line[0] == '-';
    assert " " <= line <==> line != [] && line[0] == ' ';
    assert "+++" <= line ==> line[0] == '+';
    assert "---" <= line ==> line[0] == '-';
  }

  /** The table after one line, exactly. */
  lemma {:induction false} StepRecords(w: Walker, line: string, q: string)
    ensures PostOf(Step(w, line).changed, q) == PostOf(w.changed, q) + PostRecord(w, line, q)
    ensures PreOf(Step(w, line).changed, q) == PreOf(w.changed, q) + PreRecord(w, line, q)
  {
    LineKinds(line);
    if w.path.Some? {
      AddAt(w, w.path.value, -1, q);
      AddAt(w, w.path.value, w.newLine, q);
      AddAt(w, w.path.value, w.oldLine, q);
    }
  }

  /** All the numbers the lines of a diff add for one file, in order. */
  function PostRecords(w: Walker, lines: seq<string>, q: string): seq<int>
    decreases |lines|
  {
    if lines == [] then [] else PostRecord(w, lines[0], q) + PostRecords(Step(w, lines[0]), lines[1..], q)
  }

  function PreRecords(w: Walker, lines: seq<string>, q: string): seq<int>
    decreases |lines|
  {
    if lines == [] then [] else PreRecord(w, lines[0], q) + PreRecords(Step(w, lines[0]), lines[1..], q)
  }

  /** The table holds, for every file, exactly the records of its lines, in diff
      order: nothing is dropped, nothing is invented. */
  lemma {:induction false} WalkRecords(w: Walker, lines: seq<string>, q: string)
    ensures PostOf(Walk(w, lines).changed, q) == PostOf(w.changed, q) + PostRecords(w, lines, q)
    ensures PreOf(Walk(w, lines).changed, q) == PreOf(w.changed, q) + PreRecords(w, lines, q)
    decreases |lines|
  {
    if lines == [] {
      AppendNothing(PostOf(w.changed, q));
      AppendNothing(PreOf(w.changed, q));
    } else {
      var s := Step(w, lines[0]);
      StepRecords(w, lines[0], q);
      WalkRecords(s, lines[1..], q);
      AppendAssoc(PostOf(w.changed, q), PostRecord(w, lines[0], q), PostRecords(s, lines[1..], q));
      AppendAssoc(PreOf(w.changed, q), PreRecord(w, lines[0], q), PreRecords(s, lines[1..], q));
    }
  }

  lemma AppendNothing(xs: seq<int>)
    ensures xs + [] == xs
  {
  }

  /** The walker as it meets line `k`. */
  function Before(lines: seq<string>, k: nat): Walker
    requires k <= |lines|
  {
    Walk(START, lines[..k])
  }

  /** What line `i` adds for file `q`. */
  function PostAt(lines: seq<string>, i: nat, q: string): seq<int>
    requires i < |lines|
  {
    PostRecord(Before(lines, i), lines[i], q)
  }

  function PreAt(lines: seq<string>, i: nat, q: string): seq<int>
    requires i < |lines|
  {
    PreRecord(Before(lines, i), lines[i], q)
  }

  lemma {:induction false} WalkAppend(w: Walker, a: seq<string>, b: seq<string>)
    ensures Walk(w, a + b) == Walk(Walk(w, a), b)
    decreases |a|
  {
    if a == [] {
      assert a + b == b;
    } else {
      assert (a + b)[1..] == a[1..] + b;
      WalkAppend(Step(w, a[0]), a[1..], b);
    }
  }

  lemma BeforeFirst(lines: seq<string>)
    ensures Before(lines, 0) == START
  {
    assert lines[..0] == [];
  }

  lemma {:induction false} BeforeNext(lines: seq<string>, k: nat)
    requires k < |lines|
    ensures Before(lines, k + 1) == Step(Before(lines, k), lines[k])
  {
    assert lines[..k + 1] == lines[..k] + [lines[k]];
    WalkAppend(START, lines[..k], [lines[k]]);
    assert [lines[k]][1..] == [];
  }

  lemma {:induction false} NextRecords(lines: seq<string>, k: nat, q: string)
    requires k < |lines|
    ensures PostOf(Before(lines, k + 1).changed, q) == PostOf(Before(lines, k).changed, q) + PostAt(lines, k, q)
    ensures PreOf(Before(lines, k + 1).changed, q) == PreOf(Before(lines, k).changed, q) + PreAt(lines, k, q)
  {
    BeforeNext(lines, k);
    StepRecords(Before(lines, k), lines[k], q);
  }

  lemma {:induction false} RecordedUpTo(lines: seq<string>, q: string, n: int)
    ensures n in PostOf(Before(lines, |lines|).changed, q) <==> exists i :: 0 <= i < |lines| && n in PostAt(lines, i, q)
    ensures n in PreOf(Before(lines, |lines|).changed, q) <==> exists i :: 0 <= i < |lines| && n in PreAt(lines, i, q)
  {
    var post := (i: nat) => if i <= |lines| then PostOf(Before(lines, i).changed, q) else [];
    var pre := (i: nat) => if i <= |lines| then PreOf(Before(lines, i).changed, q) else [];
    var postStep := (i: nat) => if i < |lines| then PostAt(lines, i, q) else [];
    var preStep := (i: nat) => if i < |lines| then PreAt(lines, i, q) else [];
    assert lines[..0] == [];
    forall i: nat | i < |lines|
      ensures post(i + 1) == post(i) + postStep(i) && pre(i + 1) == pre(i) + preStep(i)
    {
      NextRecords(lines, i, q);
    }
    Accumulated(post, postStep, |lines|, n);
    Accumulated(pre, preStep, |lines|, n);
    assert forall i: nat :: i < |lines| ==> postStep(i) == PostAt(lines, i, q) && preStep(i) == PreAt(lines, i, q);
  }

  /** A number stands in the table for a file if and only if some line of the
      diff puts it there. */
  lemma {:induction false} RecordedExactly(diff: string, q: string, n: int)
    ensures var lines := SplitLines(diff);
            var changed := Walk(START, lines).changed;
            && (n in PostOf(changed, q)
                <==> exists i :: 0 <= i < |lines| && n in PostAt(lines, i, q))
            && (n in PreOf(changed, q)
                <==> exists i :: 0 <= i < |lines| && n in PreAt(lines, i, q))
  {
    var lines := SplitLines(diff);
    assert lines[..|lines|] == lines;
    RecordedUpTo(lines, q, n);
  }

  // -------------------------------------------------------- which file it is --

  /** The last header before `k` is line `h`. */
  predicate LastHeader(lines: seq<string>, h: nat, k: nat) {
    h < k <= |lines| && IsHeader(lines[h]) && forall i :: h < i < k ==> !IsHeader(lines[i])
  }

  /** The two paths of a header, when its file is read at all. */
  function Chosen(line: string): Option<(string, string)> {
    var m := ParseHeader(line);
    if m.Some? && IsWatched(m.value.1) && !IsTestPath(m.value.1) then m else None
  }

  lemma {:induction false} PathStays(w: Walker, line: string)
    requires !IsHeader(line)
    ensures Step(w, line).path == w.path && Step(w, line).oldPath == w.oldPath
  {
  }

  /** The file being read is the one the last header names. */
  lemma {:induction false} PathOfHeader(lines: seq<string>, h: nat, k: nat)
    requires LastHeader(lines, h, k)
    ensures var w, m := Before(lines, k), Chosen(lines[h]);
            if m.Some? then w.path == Some(m.value.1) && w.oldPath == Some(m.value.0)
            else w.path == None && w.oldPath == None
    decreases k
  {
    BeforeNext(lines, k - 1);
    if h < k - 1 {
      PathOfHeader(lines, h, k - 1);
      PathStays(Before(lines, k - 1), lines[k - 1]);
    }
  }

  /** The pre-image path a header gives its entry. */
  function WasOf(m: (string, string)): string {
    if m.0 != [] then m.0 else m.1
  }

  /** `line` is a header for `q` whose pre-image path is `was`. */
  predicate Names(line: string, q: string, was: string) {
    IsHeader(line) && Chosen(line).Some? && Chosen(line).value.1 == q && WasOf(Chosen(line).value) == was
  }

  /** The pre-image path a new entry would get. */
  function EntryWas(w: Walker): string
    requires w.path.Some?
  {
    if w.oldPath.Some? && w.oldPath.value != [] then w.oldPath.value else w.path.value
  }

  lemma {:induction false} AddKeepsWas(w: Walker, n: int, q: string)
    requires w.path.Some?
    ensures var was := if Get(w.changed, q).Some? then Some(Get(w.changed, q).value.was)
                       else if q == w.path.value then Some(EntryWas(w)) else None;
            && (match Get(AddNew(w, w.path.value, n).changed, q)
                case Some(e) => Some(e.was) == was case None => was.None?)
            && (match Get(AddOld(w, w.path.value, n).changed, q)
                case Some(e) => Some(e.was) == was case None => was.None?)
  {
    var path := w.path.value;
    var e := EntryOf(w, path);
    GetPut(w.changed, path, e.(post := e.post + [n]), q);
    GetPut(w.changed, path, e.(pre := e.pre + [n]), q);
  }

  lemma {:induction false} WasAfterStep(w: Walker, line: string, q: string)
    requires Get(Step(w, line).changed, q).Some?
    ensures Get(w.changed, q).Some? ==> Get(Step(w, line).changed, q).value.was == Get(w.changed, q).value.was
    ensures Get(w.changed, q).None? ==> w.path == Some(q) && Get(Step(w, line).changed, q).value.was == EntryWas(w)
  {
    StepEffect(w, line);
    if w.path.Some? && Step(w, line).changed != w.changed {
      var path, s := w.path.value, Step(w, line);
      if n :| s.changed == AddNew(w, path, n).changed {
        AddKeepsWas(w, n, q);
      } else if n :| s.changed == AddOld(w, path, n).changed {
        AddKeepsWas(w, n, q);
      }
    }
  }

  lemma {:induction false} PathIsNamed(lines: seq<string>, k: nat) returns (h: nat)
    requires k <= |lines| && Before(lines, k).path.Some?
    ensures h < k && Names(lines[h], Before(lines, k).path.value, EntryWas(Before(lines, k)))
    decreases k
  {
    BeforeFirst(lines);
    if k > 0 {
      BeforeNext(lines, k - 1);
      if IsHeader(lines[k - 1]) {
        h := k - 1;
      } else {
        PathStays(Before(lines, k - 1), lines[k - 1]);
        h := PathIsNamed(lines, k - 1);
      }
    }
  }

  /** The pre-image path of every entry comes from a header that names its file. */
  lemma {:induction false} WasComesFromHeader(lines: seq<string>, k: nat, q: string) returns (h: nat)
    requires k <= |lines| && Get(Before(lines, k).changed, q).Some?
    ensures h < k && Names(lines[h], q, Get(Before(lines, k).changed, q).value.was)
    decreases k
  {
    BeforeFirst(lines);
    if k > 0 {
      BeforeNext(lines, k - 1);
      WasAfterStep(Before(lines, k - 1), lines[k - 1], q);
      if Get(Before(lines, k - 1).changed, q).Some? {
        h := WasComesFromHeader(lines, k - 1, q);
      } else {
        h := PathIsNamed(lines, k - 1);
      }
    }
  }

  // -------------------------------------------------------- what is listed --

  lemma {:induction false} HitByKey(changed: Assoc<Sides>, oldImages: Images, newImages: Images, p: string)
    requires DistinctKeys(changed)
    ensures p in Hits(changed, oldImages, newImages)
            <==> Get(changed, p).Some? && IsHit(Entry(p, Get(changed, p).value), oldImages, newImages)
  {
    HitsMember(changed, oldImages, newImages, p);
    GetAbsent(changed, p);
    if i :| 0 <= i < |changed| && changed[i].key == p {
      GetPresent(changed, i);
      assert changed[i] == Entry(p, Get(changed, p).value);
      forall j | 0 <= j < |changed| && changed[j].key == p ensures j == i {
      }
    }
  }

  /** The pre-image path under which the old image of `q` is looked up. */
  function OldPathOf(lines: seq<string>, q: string): string {
    match Get(Walk(START, lines).changed, q) case Some(e) => e.was case None => q
  }

  /** Line `i` puts a number for `q` in the table that no test region exempts. */
  ghost predicate Fires(lines: seq<string>, i: nat, q: string, oldImages: Images, newImages: Images) {
    && i < |lines|
    && (|| Outside(RangesIn(newImages, q), PostAt(lines, i, q))
        || Outside(RangesIn(oldImages, OldPathOf(lines, q)), PreAt(lines, i, q)))
  }

  lemma OutsideHas(ranges: seq<Range>, numbers: seq<int>)
    ensures Outside(ranges, numbers) <==> exists n :: n in numbers && !InRanges(ranges, n)
  {
    if n :| n in numbers && !InRanges(ranges, n) {
      var k :| 0 <= k < |numbers| && numbers[k] == n;
      assert !InRanges(ranges, numbers[k]);
    }
  }

  /** The gate, exactly: a file is listed if and only if some line of the diff is
      a substantive change of it, or a hunk header without numbers, that no test
      region of the image on its own side exempts. */
  lemma {:induction false} ListedExactly(diff: string, q: string, oldImages: Images, newImages: Images)
    ensures var lines := SplitLines(diff);
            q in Substantive(diff, oldImages, newImages)
            <==> exists i :: 0 <= i < |lines| && Fires(lines, i, q, oldImages, newImages)
  {
    var lines := SplitLines(diff);
    var changed := Walk(START, lines).changed;
    var now, was := RangesIn(newImages, q), RangesIn(oldImages, OldPathOf(lines, q));
    WalkSound(START, lines);
    HitByKey(changed, oldImages, newImages, q);
    OutsideHas(now, PostOf(changed, q));
    OutsideHas(was, PreOf(changed, q));
    if n :| n in PostOf(changed, q) && !InRanges(now, n) {
      RecordedExactly(diff, q, n);
      var i :| 0 <= i < |lines| && n in PostAt(lines, i, q);
      OutsideHas(now, PostAt(lines, i, q));
      assert Fires(lines, i, q, oldImages, newImages);
    }
    if n :| n in PreOf(changed, q) && !InRanges(was, n) {
      RecordedExactly(diff, q, n);
      var i :| 0 <= i < |lines| && n in PreAt(lines, i, q);
      OutsideHas(was, PreAt(lines, i, q));
      assert Fires(lines, i, q, oldImages, newImages);
    }
    if i :| 0 <= i < |lines| && Fires(lines, i, q, oldImages, newImages) {
      FiringIsInTable(diff, i, q, oldImages, newImages);
    }
  }

  lemma {:induction false} FiringIsInTable(diff: string, i: nat, q: string, oldImages: Images, newImages: Images)
    requires i < |SplitLines(diff)|
    ensures Fires(SplitLines(diff), i, q, oldImages, newImages) ==>
              var changed := Walk(START, SplitLines(diff)).changed;
              || Outside(RangesIn(newImages, q), PostOf(changed, q))
              || Outside(RangesIn(oldImages, OldPathOf(SplitLines(diff), q)), PreOf(changed, q))
  {
    var lines := SplitLines(diff);
    var changed := Walk(START, lines).changed;
    var now, was := RangesIn(newImages, q), RangesIn(oldImages, OldPathOf(lines, q));
    var post, pre := PostAt(lines, i, q), PreAt(lines, i, q);
    OutsideHas(now, post);
    OutsideHas(was, pre);
    OutsideHas(now, PostOf(changed, q));
    OutsideHas(was, PreOf(changed, q));
    if n :| n in post && !InRanges(now, n) {
      RecordedExactly(diff, q, n);
    } else if n :| n in pre && !InRanges(was, n) {
      RecordedExactly(diff, q, n);
    }
  }

  /** With no images a file is listed if and only if the diff holds a substantive
      change of it or a hunk header without numbers. */
  lemma {:induction false} NoImagesListExactly(diff: string, q: string)
    ensures var lines := SplitLines(diff);
            q in Substantive(diff, None, None)
            <==> exists i :: 0 <= i < |lines| && (PostAt(lines, i, q) != []
                                                  || PreAt(lines, i, q) != [])
  {
    var lines := SplitLines(diff);
    ListedExactly(diff, q, None, None);
    forall i | 0 <= i < |lines|
      ensures Fires(lines, i, q, None, None) <==> PostAt(lines, i, q) != []
                                                  || PreAt(lines, i, q) != []
    {
      OutsideAll(PostAt(lines, i, q));
      OutsideAll(PreAt(lines, i, q));
    }
  }

  lemma OutsideAll(numbers: seq<int>)
    ensures Outside([], numbers) <==> numbers != []
  {
    assert numbers != [] ==> !InRanges([], numbers[0]);
  }

  // ------------------------------------------------- unparseable hunk headers --

  /** No test region holds line -1. */
  lemma {:induction false} NoRegionHoldsMinusOne(src: Option<string>)
    ensures !InRanges(TestRanges(src), -1)
  {
    if src.Some? && src.value != [] {
      var raw, masked := SplitLines(src.value), SplitLines(Masker.Masked(src.value));
      if |raw| == |masked| {
        RangesAreItems(raw, masked);
      }
    }
  }

  /** A watched, non-test file with an unparseable hunk header under its own
      header is always listed, whatever images are supplied. */
  lemma {:induction false} BadHunkAlwaysFires(
    diff: string, h: nat, k: nat, was: string, path: string, oldImages: Images, newImages: Images)
    requires var lines := SplitLines(diff);
             k < |lines| && LastHeader(lines, h, k) && ParseHeader(lines[h]) == Some((was, path)) && IsBadHunk(lines[k])
    requires IsWatched(path) && !IsTestPath(path)
    ensures path in Substantive(diff, oldImages, newImages)
  {
    var lines := SplitLines(diff);
    PathOfHeader(lines, h, k);
    LineKinds(lines[k]);
    NoRegionHoldsMinusOne(if newImages.Some? then newImages.value(path) else None);
    OutsideHas(RangesIn(newImages, path), [-1]);
    assert Fires(lines, k, path, oldImages, newImages);
    ListedExactly(diff, path, oldImages, newImages);
  }

  // --------------------------------------------------------- line numbering --

  /** A line that is neither a file header nor a hunk header. */
  predicate IsInner(line: string) { !IsHeader(line) && !("@@" <= line) }

  function CountWith(lines: seq<string>, mark: string): nat {
    if lines == [] then 0 else (if mark <= lines[0] then 1 else 0) + CountWith(lines[1..], mark)
  }

  /** Inside a hunk each counter advances by the lines its side has, except that a
      line opening with `+++` or `---` is taken for a file header and skipped. */
  lemma {:induction false} HunkNumbers(w: Walker, lines: seq<string>)
    requires w.path.Some? && forall i :: 0 <= i < |lines| ==> IsInner(lines[i])
    ensures Walk(w, lines).path == w.path
    ensures Walk(w, lines).newLine + CountWith(lines, "+++")
            == w.newLine + CountWith(lines, "+") + CountWith(lines, " ")
    ensures Walk(w, lines).oldLine + CountWith(lines, "---")
            == w.oldLine + CountWith(lines, "-") + CountWith(lines, " ")
    decreases |lines|
  {
    if lines == [] {
    } else {
      assert IsInner(lines[0]);
      InnerStep(w, lines[0]);
      HunkNumbers(Step(w, lines[0]), lines[1..]);
    }
  }

  function One(b: bool): nat { if b then 1 else 0 }

  lemma {:induction false} InnerStep(w: Walker, line: string)
    requires w.path.Some? && IsInner(line)
    ensures var s := Step(w, line);
            && s.path == w.path
            && s.newLine + One("+++" <= line) == w.newLine + One("+" <= line) + One(" " <= line)
            && s.oldLine + One("---" <= line) == w.oldLine + One("-" <= line) + One(" " <= line)
  {
    LineKinds(line);
  }

  lemma {:induction false} CountsNone(lines: seq<string>, mark: string)
    ensures CountWith(lines, mark) == 0 <==> forall i :: 0 <= i < |lines| ==> !(mark <= lines[i])
  {
    if lines == [] {
    } else {
      CountsNone(lines[1..], mark);
      assert forall i :: 1 <= i < |lines| ==> lines[i] == lines[1..][i - 1];
      assert forall i :: 0 <= i < |lines[1..]| ==> lines[1..][i] == lines[i + 1];
    }
  }

  /** So, over the lines as the walk splits them, the counters are right if and
      only if no line of the hunk reads as a file header. */
  lemma {:induction false} NumbersAreRight(w: Walker, lines: seq<string>)
    requires w.path.Some? && forall i :: 0 <= i < |lines| ==> IsInner(lines[i])
    ensures Walk(w, lines).newLine == w.newLine + CountWith(lines, "+") + CountWith(lines, " ")
            <==> forall i :: 0 <= i < |lines| ==> !("+++" <= lines[i])
    ensures Walk(w, lines).oldLine == w.oldLine + CountWith(lines, "-") + CountWith(lines, " ")
            <==> forall i :: 0 <= i < |lines| ==> !("---" <= lines[i])
  {
    HunkNumbers(w, lines);
    CountsNone(lines, "+++");
    CountsNone(lines, "---");
  }

  /** An added line whose own text starts with `++` is taken for a header: it is
      neither recorded nor counted. */
  lemma PlusPlusLineIsSkipped(w: Walker, text: string)
    requires w.path.Some?
    ensures Step(w, "+" + ("++" + text)) == w
  {
    var line := "+" + ("++" + text);
    assert line[..3] == "+++";
    assert line[0] != 'd';
  }

  /** Line `k` stands in the hunk that line `j` opens, under the header at `h`. */
  predicate InHunk(lines: seq<string>, h: nat, j: nat, k: nat) {
    && h < j < k < |lines| && LastHeader(lines, h, k) && Chosen(lines[h]).Some?
    && ParseHunk(lines[j]).Some?
    && forall i :: j < i < k ==> IsInner(lines[i])
  }

  /** The post-image and pre-image numbers of line `k`, when no line before it in
      its hunk reads as a file header. */
  function PostNumber(lines: seq<string>, j: nat, k: nat): int
    requires j < k < |lines| && ParseHunk(lines[j]).Some?
  {
    var body := lines[j + 1..k];
    ParseHunk(lines[j]).value.1 + CountWith(body, "+") + CountWith(body, " ") - CountWith(body, "+++")
  }

  function PreNumber(lines: seq<string>, j: nat, k: nat): int
    requires j < k < |lines| && ParseHunk(lines[j]).Some?
  {
    var body := lines[j + 1..k];
    ParseHunk(lines[j]).value.0 + CountWith(body, "-") + CountWith(body, " ") - CountWith(body, "---")
  }

  lemma {:induction false} HunkStep(w: Walker, line: string)
    requires w.path.Some? && ParseHunk(line).Some?
    ensures Step(w, line) == w.(oldLine := ParseHunk(line).value.0, newLine := ParseHunk(line).value.1)
  {
    assert line[..4] == "@@ -" && line[..2] == "@@";
    LineKinds(line);
  }

  /** Where the walk stands when it meets a line of a hunk: the file of the last
      header, and the numbers counted from the hunk header. */
  lemma {:induction false} StandsInHunk(lines: seq<string>, h: nat, j: nat, k: nat)
    requires InHunk(lines, h, j, k)
    ensures var w := Before(lines, k);
            && w.path == Some(Chosen(lines[h]).value.1)
            && w.newLine == PostNumber(lines, j, k) && w.oldLine == PreNumber(lines, j, k)
  {
    PathOfHeader(lines, h, j);
    BeforeNext(lines, j);
    HunkStep(Before(lines, j), lines[j]);
    WalkOn(lines, j + 1, k);
    InnerSlice(lines, j + 1, k);
    HunkNumbers(Before(lines, j + 1), lines[j + 1..k]);
  }

  lemma {:induction false} WalkOn(lines: seq<string>, i: nat, k: nat)
    requires i <= k <= |lines|
    ensures Before(lines, k) == Walk(Before(lines, i), lines[i..k])
  {
    assert lines[..k] == lines[..i] + lines[i..k];
    WalkAppend(START, lines[..i], lines[i..k]);
  }

  lemma InnerSlice(lines: seq<string>, i: nat, k: nat)
    requires i <= k <= |lines| && forall m :: i <= m < k ==> IsInner(lines[m])
    ensures forall m :: 0 <= m < k - i ==> IsInner(lines[i..k][m])
  {
  }

  /** The file of the header at `h`. */
  function FileOf(lines: seq<string>, h: nat): string
    requires h < |lines|
  {
    if Chosen(lines[h]).Some? then Chosen(lines[h]).value.1 else ""
  }

  /** Line `k` is a substantive addition of its hunk, and no test region of the
      file's new image holds its number. */
  ghost predicate AddsOutside(lines: seq<string>, h: nat, j: nat, k: nat, newImages: Images) {
    && InHunk(lines, h, j, k)
    && IsAdded(lines[k]) && !IsIgnorable(lines[k][1..], FileOf(lines, h))
    && !InRanges(RangesIn(newImages, FileOf(lines, h)), PostNumber(lines, j, k))
  }

  /** Line `k` is a substantive removal of its hunk, and no test region of the old
      image, under any header that names the file, holds its number. */
  ghost predicate RemovesOutside(lines: seq<string>, h: nat, j: nat, k: nat, oldImages: Images) {
    && InHunk(lines, h, j, k)
    && IsRemoved(lines[k]) && !IsIgnorable(lines[k][1..], FileOf(lines, h))
    && forall g, was :: 0 <= g < |lines| && Names(lines[g], FileOf(lines, h), was) ==>
         !InRanges(RangesIn(oldImages, was), PreNumber(lines, j, k))
  }

  /** A substantive addition outside the test regions of the new image lists its
      file, at the number counted from its hunk header. */
  lemma {:induction false} AddedLineFires(
    diff: string, h: nat, j: nat, k: nat, oldImages: Images, newImages: Images)
    ensures AddsOutside(SplitLines(diff), h, j, k, newImages) ==>
              FileOf(SplitLines(diff), h) in Substantive(diff, oldImages, newImages)
  {
    var lines := SplitLines(diff);
    if AddsOutside(lines, h, j, k, newImages) {
      var path := FileOf(lines, h);
      StandsInHunk(lines, h, j, k);
      LineKinds(lines[k]);
      assert PostAt(lines, k, path) == [PostNumber(lines, j, k)];
      OutsideHas(RangesIn(newImages, path), [PostNumber(lines, j, k)]);
      assert Fires(lines, k, path, oldImages, newImages);
      ListedExactly(diff, path, oldImages, newImages);
    }
  }

  /** A file with a recorded removal has an entry, and its pre-image path stands
      in a header that names it. */
  lemma {:induction false} OldPathIsNamed(diff: string, k: nat, path: string, n: int) returns (g: nat)
    requires k < |SplitLines(diff)| && n in PreAt(SplitLines(diff), k, path)
    ensures g < |SplitLines(diff)| && Names(SplitLines(diff)[g], path, OldPathOf(SplitLines(diff), path))
  {
    var lines := SplitLines(diff);
    RecordedExactly(diff, path, n);
    assert lines[..|lines|] == lines;
    g := WasComesFromHeader(lines, |lines|, path);
  }

  lemma {:induction false} OldLineFires(
    diff: string, k: nat, path: string, n: int, oldImages: Images, newImages: Images)
    requires k < |SplitLines(diff)| && PreAt(SplitLines(diff), k, path) == [n]
    requires !InRanges(RangesIn(oldImages, OldPathOf(SplitLines(diff), path)), n)
    ensures path in Substantive(diff, oldImages, newImages)
  {
    var lines := SplitLines(diff);
    OutsideHas(RangesIn(oldImages, OldPathOf(lines, path)), [n]);
    assert Fires(lines, k, path, oldImages, newImages);
    ListedExactly(diff, path, oldImages, newImages);
  }

  /** So does a substantive removal outside the test regions of the old image. */
  lemma {:induction false} RemovedLineFires(
    diff: string, h: nat, j: nat, k: nat, oldImages: Images, newImages: Images)
    ensures RemovesOutside(SplitLines(diff), h, j, k, oldImages) ==>
              FileOf(SplitLines(diff), h) in Substantive(diff, oldImages, newImages)
  {
    var lines := SplitLines(diff);
    if RemovesOutside(lines, h, j, k, oldImages) {
      var path, n := FileOf(lines, h), PreNumber(lines, j, k);
      StandsInHunk(lines, h, j, k);
      LineKinds(lines[k]);
      assert PreAt(lines, k, path) == [n];
      var g := OldPathIsNamed(diff, k, path, n);
      assert !InRanges(RangesIn(oldImages, OldPathOf(lines, path)), n);
      OldLineFires(diff, k, path, n, oldImages, newImages);
    }
  }
}
