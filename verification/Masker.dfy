/** `mask_literals_and_comments` (tools/check-enforcement-pairing.py): blank out
    the comments and literals of a Rust source, in place. */
module Masker {
  import opened Text

  predicate IsIdentStart(c: char) { IsAsciiAlpha(c) || c == '_' }

  predicate IsIdent(c: char) { IsAsciiAlnum(c) || c == '_' }

  /** `startswith` for the two-character comment marks. */
  predicate PairAt(s: string, i: nat, a: char, b: char) {
    i + 1 < |s| && s[i] == a && s[i + 1] == b
  }

  function Min(a: nat, b: nat): nat { if a < b then a else b }

  // ------------------------------------------------------------ token ends --

  /** End of a nested block comment, `depth` openers still unclosed. */
  function CommentEnd(src: string, j: nat, depth: nat): (e: nat)
    requires j <= |src|
    ensures j <= e <= |src|
    decreases |src| - j
  {
    if j == |src| || depth == 0 then j
    else if PairAt(src, j, '/', '*') then CommentEnd(src, j + 2, depth + 1)
    else if PairAt(src, j, '*', '/') then CommentEnd(src, j + 2, depth - 1)
    else CommentEnd(src, j + 1, depth)
  }

  /** End of a quoted stretch: past the closing `q`, a backslash hides one character. */
  function QuoteEnd(src: string, j: nat, q: char): (e: nat)
    requires j <= |src|
    ensures j <= e <= |src|
    decreases |src| - j
  {
    if j == |src| then j
    else if src[j] == '\\' then (if j + 1 < |src| then QuoteEnd(src, j + 2, q) else |src|)
    else if src[j] == q then j + 1
    else QuoteEnd(src, j + 1, q)
  }

  function HashRun(src: string, j: nat): (e: nat)
    requires j <= |src|
    ensures j <= e <= |src|
    decreases |src| - j
  {
    if j < |src| && src[j] == '#' then HashRun(src, j + 1) else j
  }

  /** Where `b?r` ends, when it stands at `i`; `i` itself when it does not. */
  function RawPrefix(src: string, i: nat): (e: nat)
    requires i < |src|
    ensures i <= e <= |src|
  {
    if src[i] == 'r' then i + 1
    else if src[i] == 'b' && i + 1 < |src| && src[i + 1] == 'r' then i + 2
    else i
  }

  /** The raw-string opener `b?r(#*)"` stands at `i`. */
  predicate RawOpens(src: string, i: nat) {
    && i < |src|
    && var p := RawPrefix(src, i);
       p > i && var h := HashRun(src, p); h < |src| && src[h] == '"'
  }

  function Hashes(n: nat): string {
    if n == 0 then [] else "#" + Hashes(n - 1)
  }

  function RawEnd(src: string, i: nat): (e: nat)
    requires i < |src| && RawOpens(src, i)
    ensures i < e <= |src|
  {
    var p := RawPrefix(src, i);
    var h := HashRun(src, p);
    var close := "\"" + Hashes(h - p);
    var at := Find(src, close, h + 1);
    Min(|src|, at + |close|)
  }

  function IdentRun(src: string, j: nat): (e: nat)
    requires j <= |src|
    ensures j <= e <= |src|
    ensures forall k :: j <= k < e ==> IsIdent(src[k])
    ensures e < |src| ==> !IsIdent(src[e])
    decreases |src| - j
  {
    if j < |src| && IsIdent(src[j]) then IdentRun(src, j + 1) else j
  }

  /** The quote at `i` opens a lifetime: an identifier no quote follows. */
  predicate IsLifetime(src: string, i: nat) {
    && i + 1 < |src| && IsIdentStart(src[i + 1])
    && var e := IdentRun(src, i + 1);
       !(e < |src| && src[e] == '\'')
  }

  datatype Token = Token(end: nat, keep: bool)

  /** The token that starts at `i`, and whether it stays visible. */
  function TokenAt(src: string, i: nat): (t: Token)
    requires i < |src|
    ensures i < t.end <= |src|
  {
    if PairAt(src, i, '/', '/') then Token(FindChar(src, '\n', i + 2), false)
    else if PairAt(src, i, '/', '*') then Token(CommentEnd(src, i + 2, 1), false)
    else if RawOpens(src, i) && (i == 0 || !IsIdent(src[i - 1])) then Token(RawEnd(src, i), false)
    else if src[i] == '"' then Token(QuoteEnd(src, i + 1, '"'), false)
    else if src[i] == '\'' then
      if IsLifetime(src, i) then Token(IdentRun(src, i + 1), true)
      else Token(QuoteEnd(src, i + 1, '\''), false)
    else Token(i + 1, true)
  }

  // ------------------------------------------------------------ the masking --

  function Blank(c: char): char { if c == '\n' then c else ' ' }

  function Blanked(s: string): (r: string)
    ensures |r| == |s|
    ensures forall k :: 0 <= k < |s| ==> r[k] == Blank(s[k])
  {
    if s == [] then [] else [Blank(s[0])] + Blanked(s[1..])
  }

  function MaskFrom(src: string, i: nat): (r: string)
    requires i <= |src|
    ensures |r| == |src| - i
    decreases |src| - i, 1
  {
    if i == |src| then [] else MaskToken(src, i, TokenAt(src, i))
  }

  function MaskToken(src: string, i: nat, t: Token): (r: string)
    requires i < t.end <= |src|
    ensures |r| == |src| - i
    decreases |src| - i, 0
  {
    (if t.keep then src[i..t.end] else Blanked(src[i..t.end])) + MaskFrom(src, t.end)
  }

  function Masked(src: string): string { MaskFrom(src, 0) }

  /** `blank`: overwrite a stretch with spaces, keeping the line structure. */
  method BlankOut(out: array<char>, a: nat, b: nat)
    requires a <= b <= out.Length
    modifies out
    ensures out[..] == old(out[..a]) + Blanked(old(out[a..b])) + old(out[b..])
  {
    for k := a to b
      invariant forall m :: 0 <= m < a || k <= m < out.Length ==> out[m] == old(out[m])
      invariant forall m :: a <= m < k ==> out[m] == Blank(old(out[m]))
    {
      if out[k] != '\n' {
        out[k] := ' ';
      }
    }
    BlankedSpan(old(out[..]), out[..], a, b);
    assert old(out[..])[..a] == old(out[..a]) && old(out[..])[a..b] == old(out[a..b]);
    assert old(out[..])[b..] == old(out[b..]);
  }

  lemma BlankedSpan(was: string, now: string, a: nat, b: nat)
    requires a <= b <= |was| == |now|
    requires forall m :: 0 <= m < |was| ==> now[m] == if a <= m < b then Blank(was[m]) else was[m]
    ensures now == was[..a] + Blanked(was[a..b]) + was[b..]
  {
    var joined := was[..a] + Blanked(was[a..b]) + was[b..];
    forall m | 0 <= m < |was| ensures joined[m] == now[m] {
      if a <= m < b {
        assert was[a..b][m - a] == was[m];
      }
    }
  }

  method EndOfComment(src: string, from: nat) returns (j: nat)
    requires from <= |src|
    ensures j == CommentEnd(src, from, 1)
  {
    var depth := 1;
    j := from;
    while j < |src| && depth != 0
      invariant from <= j <= |src| && 0 <= depth
      invariant CommentEnd(src, j, depth) == CommentEnd(src, from, 1)
      decreases |src| - j
    {
      if PairAt(src, j, '/', '*') {
        depth := depth + 1;
        j := j + 2;
      } else if PairAt(src, j, '*', '/') {
        depth := depth - 1;
        j := j + 2;
      } else {
        j := j + 1;
      }
    }
  }

  method EndOfQuote(src: string, from: nat, q: char) returns (j: nat)
    requires from <= |src|
    ensures Min(j, |src|) == QuoteEnd(src, from, q)
  {
    j := from;
    while j < |src|
      invariant from <= j <= |src| + 1
      invariant j <= |src| ==> QuoteEnd(src, j, q) == QuoteEnd(src, from, q)
      invariant j > |src| ==> QuoteEnd(src, from, q) == |src|
      decreases |src| + 1 - j
    {
      if src[j] == '\\' {
        j := j + 2;
        continue;
      }
      if src[j] == q {
        j := j + 1;
        return;
      }
      j := j + 1;
    }
  }

  function Piece(src: string, i: nat): (r: string)
    requires i < |src|
    ensures |r| == TokenAt(src, i).end - i
  {
    var t := TokenAt(src, i);
    if t.keep then src[i..t.end] else Blanked(src[i..t.end])
  }

  /** The loop's invariant, one token further on. */
  lemma {:induction false} MaskStep(src: string, done: string, i: nat)
    requires i < |src|
    ensures var j := TokenAt(src, i).end;
            done + MaskFrom(src, i) == (done + Piece(src, i)) + MaskFrom(src, j)
  {
    var j := TokenAt(src, i).end;
    var more := MaskFrom(src, j);
    assert MaskFrom(src, i) == Piece(src, i) + more;
    assert (done + Piece(src, i)) + more == done + (Piece(src, i) + more);
  }

  /** Blank the token at `i` unless it stays visible. */
  method ApplyToken(src: string, i: nat, out: array<char>) returns (j: nat)
    requires i < |src| == out.Length && out[i..] == src[i..]
    modifies out
    ensures j == TokenAt(src, i).end
    ensures out[..j] == old(out[..i]) + Piece(src, i)
    ensures out[j..] == src[j..]
  {
    var keep;
    j, keep := NextToken(src, i);
    assert src[j..] == src[i..][j - i..] && out[j..] == out[i..][j - i..];
    assert src[i..j] == src[i..][..j - i] && out[i..j] == out[i..][..j - i];
    if !keep {
      BlankOut(out, i, j);
      assert out[..][..j] == out[..j] && out[..][j..] == out[j..];
    }
  }

  /** The scanning loop, over a character array blanked in place. */
  method Mask(src: string) returns (masked: string)
    ensures masked == Masked(src)
  {
    var out := new char[|src|](k requires 0 <= k < |src| => src[k]);
    var i := 0;
    assert out[..] == src && out[i..] == src && src[i..] == src && out[..i] == [];
    while i < |src|
      invariant 0 <= i <= |src|
      invariant out[..i] + MaskFrom(src, i) == Masked(src)
      invariant out[i..] == src[i..]
    {
      MaskStep(src, out[..i], i);
      i := ApplyToken(src, i, out);
    }
    assert out[..i] == out[..];
    masked := out[..];
  }

  /** One turn of the loop: the branches, in the source's order. */
  method NextToken(src: string, i: nat) returns (j: nat, keep: bool)
    requires i < |src|
    ensures TokenAt(src, i) == Token(j, keep)
  {
    keep := false;
    if PairAt(src, i, '/', '/') {
      j := FindChar(src, '\n', i + 2);
      return;
    }
    if PairAt(src, i, '/', '*') {
      j := EndOfComment(src, i + 2);
      return;
    }
    if RawOpens(src, i) && (i == 0 || !IsIdent(src[i - 1])) {
      j := RawEnd(src, i);
      return;
    }
    if src[i] == '"' {
      j := EndOfQuote(src, i + 1, '"');
      j := Min(j, |src|);
      return;
    }
    if src[i] == '\'' {
      if IsLifetime(src, i) {
        return IdentRun(src, i + 1), true;
      }
      j := EndOfQuote(src, i + 1, '\'');
      j := Min(j, |src|);
      return;
    }
    return i + 1, true;
  }

  // ------------------------------------------------------------- properties --

  /** A character is left alone or becomes a space; newlines always stay. */
  predicate KeptOrBlank(was: char, now: char) {
    (now == was || now == ' ') && (now == '\n' <==> was == '\n')
  }

  lemma {:induction false} PieceShape(src: string, i: nat)
    requires i < |src|
    ensures forall k :: 0 <= k < |Piece(src, i)| ==> KeptOrBlank(src[i + k], Piece(src, i)[k])
  {
    var t := TokenAt(src, i);
    var raw := src[i..t.end];
    assert forall k :: 0 <= k < |raw| ==> raw[k] == src[i + k];
  }

  lemma {:induction false} MaskShape(src: string, i: nat, t: string)
    requires i <= |src| && t == MaskFrom(src, i)
    ensures forall k :: 0 <= k < |t| ==> KeptOrBlank(src[i + k], t[k])
    decreases |src| - i
  {
    if i == |src| {
    } else {
      var j := TokenAt(src, i).end;
      MaskShape(src, j, MaskFrom(src, j));
      PieceShape(src, i);
      JoinShape(src, i, j, Piece(src, i), MaskFrom(src, j));
      assert t == Piece(src, i) + MaskFrom(src, j);
    }
  }

  lemma JoinShape(src: string, i: nat, j: nat, a: string, b: string)
    requires i <= j <= |src| && |a| == j - i && |b| == |src| - j
    requires forall k :: 0 <= k < |a| ==> KeptOrBlank(src[i + k], a[k])
    requires forall k :: 0 <= k < |b| ==> KeptOrBlank(src[j + k], b[k])
    ensures forall k :: 0 <= k < |a + b| ==> KeptOrBlank(src[i + k], (a + b)[k])
  {
    forall k | 0 <= k < |a + b| ensures KeptOrBlank(src[i + k], (a + b)[k]) {
      if k >= |a| {
        assert (a + b)[k] == b[k - |a|] && KeptOrBlank(src[j + (k - |a|)], b[k - |a|]);
      }
    }
  }

  /** Nothing at `k` starts a comment or a literal. */
  predicate Quiet(t: string, k: nat) {
    && k < |t|
    && t[k] != '"' && !PairAt(t, k, '/', '/') && !PairAt(t, k, '/', '*')
    && (t[k] == '\'' ==> IsLifetime(t, k))
  }

  lemma {:induction false} IdentRunIs(t: string, j: nat, e: nat)
    requires j <= e <= |t|
    requires forall k :: j <= k < e ==> IsIdent(t[k])
    requires e < |t| ==> !IsIdent(t[e])
    ensures IdentRun(t, j) == e
    decreases e - j
  {
    if j == e {
    } else {
      IdentRunIs(t, j + 1, e);
    }
  }

  lemma {:induction false} QuietToken(t: string, i: nat)
    requires i < |t| && forall k :: 0 <= k < |t| ==> Quiet(t, k)
    ensures TokenAt(t, i).keep
  {
    assert Quiet(t, i);
    var h := HashRun(t, RawPrefix(t, i));
    assert h < |t| ==> Quiet(t, h);
  }

  /** A text with nothing to mask masks to itself. */
  lemma {:induction false} QuietIsKept(t: string, i: nat)
    requires i <= |t| && forall k :: 0 <= k < |t| ==> Quiet(t, k)
    ensures MaskFrom(t, i) == t[i..]
    decreases |t| - i
  {
    if i == |t| {
    } else {
      var e := TokenAt(t, i).end;
      QuietToken(t, i);
      QuietIsKept(t, e);
      assert t[i..] == t[i..e] + t[e..];
    }
  }

  /** Every position of a masked stretch is quiet. */
  lemma {:induction false} MaskedIsQuiet(src: string, t: string, i: nat)
    requires i <= |src| && |t| == |src| && t[i..] == MaskFrom(src, i)
    ensures forall k :: i <= k < |t| ==> Quiet(t, k)
    decreases |src| - i
  {
    if i == |src| {
    } else {
      var j := TokenAt(src, i).end;
      assert t[i..] == Piece(src, i) + MaskFrom(src, j);
      assert t[j..] == t[i..][j - i..] == MaskFrom(src, j);
      MaskedIsQuiet(src, t, j);
      MaskShape(src, i, t[i..]);
      forall k | i <= k < |src| ensures t[k] == src[k] || t[k] == ' ' {
        assert t[k] == t[i..][k - i] && KeptOrBlank(src[i + (k - i)], t[i..][k - i]);
      }
      forall k | i <= k < j ensures t[k] == Piece(src, i)[k - i] {
        assert t[k] == t[i..][k - i];
      }
      forall k | i <= k < j ensures Quiet(t, k) {
        TokenIsQuiet(src, t, i, k);
      }
    }
  }

  lemma {:induction false} TokenIsQuiet(src: string, t: string, i: nat, k: nat)
    requires |t| == |src| && i < |src| && i <= k < TokenAt(src, i).end
    requires forall m :: i <= m < |src| ==> t[m] == src[m] || t[m] == ' '
    requires var tok := TokenAt(src, i);
             forall m :: i <= m < tok.end ==> t[m] == if tok.keep then src[m] else Blank(src[m])
    ensures Quiet(t, k)
  {
    var tok := TokenAt(src, i);
    assert t[k] == if tok.keep then src[k] else Blank(src[k]);
    if tok.keep {
      KeptToken(src, i);
      if src[i] == '\'' && k == i {
        IdentRunIs(t, i + 1, tok.end);
      }
    }
  }

  /** A visible token is a lifetime or one ordinary character. */
  lemma {:induction false} KeptToken(src: string, i: nat)
    requires i < |src| && TokenAt(src, i).keep
    ensures !PairAt(src, i, '/', '/') && !PairAt(src, i, '/', '*') && src[i] != '"'
    ensures var end := TokenAt(src, i).end;
            if src[i] == '\'' then
              && IsLifetime(src, i) && end == IdentRun(src, i + 1)
              && (forall m :: i < m < end ==> IsIdent(src[m]))
              && (end < |src| ==> !IsIdent(src[end]) && src[end] != '\'')
            else end == i + 1
  {
  }

  /** The masked copy lines up with the source: same length, every newline in
      place, no character changed except into a space. */
  lemma {:induction false} MaskLinesUp(src: string)
    ensures |Masked(src)| == |src|
    ensures forall k :: 0 <= k < |src| ==> KeptOrBlank(src[k], Masked(src)[k])
  {
    var t := Masked(src);
    MaskShape(src, 0, t);
    FromStart(src, t);
  }

  lemma FromStart(src: string, t: string)
    requires |t| == |src| && forall k :: 0 <= k < |t| ==> KeptOrBlank(src[0 + k], t[k])
    ensures forall k :: 0 <= k < |src| ==> KeptOrBlank(src[k], t[k])
  {
    forall k | 0 <= k < |src| ensures KeptOrBlank(src[k], t[k]) {
      assert KeptOrBlank(src[0 + k], t[k]);
    }
  }

  lemma {:induction false} MaskQuiet(src: string, t: string)
    requires t == Masked(src)
    ensures forall k :: 0 <= k < |t| ==> Quiet(t, k)
  {
    assert t[0..] == t;
    MaskedIsQuiet(src, t, 0);
  }

  /** No double quote survives. */
  lemma {:induction false} MaskShowsNoQuote(src: string)
    ensures '"' !in Masked(src)
  {
    var t := Masked(src);
    MaskQuiet(src, t);
    forall k | 0 <= k < |t| ensures t[k] != '"' {
      assert Quiet(t, k);
    }
  }

  lemma {:induction false} MaskFixed(t: string)
    requires forall k :: 0 <= k < |t| ==> Quiet(t, k)
    ensures Masked(t) == t
  {
    QuietIsKept(t, 0);
    assert t[0..] == t;
  }

  /** Masking a masked text changes nothing. */
  lemma {:induction false} MaskIdempotent(src: string)
    ensures Masked(Masked(src)) == Masked(src)
  {
    MaskQuiet(src, Masked(src));
    MaskFixed(Masked(src));
  }

  // ------------------------------------------------- what a token takes away --

  /** How a Rust string literal spells any text between its quotes. */
  function Escaped(text: string): string {
    if text == [] then []
    else (if text[0] == '"' || text[0] == '\\' then ['\\', text[0]] else [text[0]]) + Escaped(text[1..])
  }

  lemma {:induction false} EscapedEnds(src: string, j: nat, text: string)
    requires StandsAt(src, Escaped(text), j) && j + |Escaped(text)| < |src| && src[j + |Escaped(text)|] == '"'
    ensures QuoteEnd(src, j, '"') == j + |Escaped(text)| + 1
    decreases |text|
  {
    if text == [] {
    } else {
      var c, more := text[0], Escaped(text[1..]);
      if c == '"' || c == '\\' {
        StandsAtParts(src, j, ['\\', c], more);
        assert src[j + 0] == ['\\', c][0];
        EscapedEnds(src, j + 2, text[1..]);
      } else {
        StandsAtParts(src, j, [c], more);
        assert src[j + 0] == [c][0];
        EscapedEnds(src, j + 1, text[1..]);
      }
    }
  }

  /** Whatever a string literal spells, the masker blanks it whole and resumes
      right after its closing quote. */
  lemma {:induction false} LiteralIsBlanked(src: string, i: nat, text: string)
    requires StandsAt(src, "\"" + Escaped(text) + "\"", i)
    ensures TokenAt(src, i) == Token(i + |Escaped(text)| + 2, false)
  {
    StandsAtParts(src, i, "\"" + Escaped(text), "\"");
    StandsAtParts(src, i, "\"", Escaped(text));
    assert src[i + 0] == "\""[0] && src[i + |"\"" + Escaped(text)| + 0] == "\""[0];
    EscapedEnds(src, i + 1, text);
  }

  /** The body of a block comment: characters and comments nested in it. */
  datatype Comment = End | Plain(c: char, rest: Comment) | Nested(inner: Comment, rest: Comment)

  function Spelled(body: Comment): string {
    match body
    case End => []
    case Plain(c, rest) => [c] + Spelled(rest)
    case Nested(inner, rest) => "/*" + (Spelled(inner) + ("*/" + Spelled(rest)))
  }

  /** The character that follows on a plain one; a body is followed by its closer. */
  function First(body: Comment): char {
    match body
    case End => '*'
    case Plain(c, _) => c
    case Nested(_, _) => '/'
  }

  /** No plain character makes a mark with the one after it. */
  predicate IsCommentText(body: Comment) {
    match body
    case End => true
    case Plain(c, rest) =>
      !(c == '/' && First(rest) == '*') && !(c == '*' && First(rest) == '/') && IsCommentText(rest)
    case Nested(inner, rest) => IsCommentText(inner) && IsCommentText(rest)
  }

  lemma {:induction false} FirstStands(src: string, j: nat, body: Comment)
    requires StandsAt(src, Spelled(body) + "*/", j)
    ensures j < |src| && src[j] == First(body)
  {
    var all := Spelled(body) + "*/";
    assert all[0] == First(body);
    assert src[j + 0] == all[0];
  }

  lemma {:induction false} TwoAt(src: string, pair: string, i: nat)
    requires |pair| == 2 && StandsAt(src, pair, i)
    ensures PairAt(src, i, pair[0], pair[1])
  {
    assert src[i + 0] == pair[0] && src[i + 1] == pair[1];
  }

  lemma {:induction false} OpenerDeepens(src: string, j: nat, depth: nat)
    requires depth > 0 && StandsAt(src, "/*", j)
    ensures j + 2 <= |src| && CommentEnd(src, j, depth) == CommentEnd(src, j + 2, depth + 1)
  {
    TwoAt(src, "/*", j);
  }

  lemma {:induction false} CloserRises(src: string, j: nat, depth: nat)
    requires depth > 0 && StandsAt(src, "*/", j)
    ensures j + 2 <= |src| && CommentEnd(src, j, depth) == CommentEnd(src, j + 2, depth - 1)
  {
    TwoAt(src, "*/", j);
  }

  lemma {:induction false} NestedThere(src: string, j: nat, inner: string, rest: string)
    requires StandsAt(src, "/*" + (inner + ("*/" + rest)), j)
    ensures StandsAt(src, "/*", j) && StandsAt(src, inner + "*/", j + 2) && StandsAt(src, rest, j + 4 + |inner|)
    ensures StandsAt(src, "*/", j + 2 + |inner|)
  {
    StandsAtParts(src, j, "/*", inner + ("*/" + rest));
    AppendAssoc(inner, "*/", rest);
    StandsAtParts(src, j + 2, inner + "*/", rest);
    StandsAtParts(src, j + 2, inner, "*/");
  }

  lemma {:induction false} BodyPasses(src: string, j: nat, body: Comment, depth: nat)
    requires IsCommentText(body) && StandsAt(src, Spelled(body) + "*/", j) && depth > 0
    ensures CommentEnd(src, j, depth) == CommentEnd(src, j + |Spelled(body)|, depth)
    decreases body, 1
  {
    match body
    case End =>
    case Plain(c, rest) =>
      AppendAssoc([c], Spelled(rest), "*/");
      StandsAtParts(src, j, [c], Spelled(rest) + "*/");
      FirstStands(src, j + 1, rest);
      PlainPasses(src, j, c, depth);
      BodyPasses(src, j + 1, rest, depth);
    case Nested(inner, rest) =>
      NestedShape(inner, rest);
      NestedPasses(src, j, inner, rest, depth);
  }

  lemma {:induction false} NestedShape(inner: Comment, rest: Comment)
    ensures Spelled(Nested(inner, rest)) + "*/" == "/*" + (Spelled(inner) + ("*/" + (Spelled(rest) + "*/")))
    ensures |Spelled(Nested(inner, rest))| == 4 + |Spelled(inner)| + |Spelled(rest)|
  {
  }

  lemma {:induction false} NestedPasses(src: string, j: nat, inner: Comment, rest: Comment, depth: nat)
    requires IsCommentText(inner) && IsCommentText(rest) && depth > 0
    requires StandsAt(src, "/*" + (Spelled(inner) + ("*/" + (Spelled(rest) + "*/"))), j)
    ensures CommentEnd(src, j, depth) == CommentEnd(src, j + 4 + |Spelled(inner)| + |Spelled(rest)|, depth)
    decreases Nested(inner, rest), 0
  {
    var k := |Spelled(inner)|;
    NestedThere(src, j, Spelled(inner), Spelled(rest) + "*/");
    OpenerDeepens(src, j, depth);
    BodyPasses(src, j + 2, inner, depth + 1);
    CloserRises(src, j + 2 + k, depth + 1);
    BodyPasses(src, j + 4 + k, rest, depth);
  }

  lemma {:induction false} PlainPasses(src: string, j: nat, c: char, depth: nat)
    requires StandsAt(src, [c], j) && depth > 0 && j + 1 < |src|
    requires !(c == '/' && src[j + 1] == '*') && !(c == '*' && src[j + 1] == '/')
    ensures CommentEnd(src, j, depth) == CommentEnd(src, j + 1, depth)
  {
    assert src[j + 0] == [c][0];
  }

  lemma {:induction false} CommentToken(src: string, i: nat)
    requires StandsAt(src, "/*", i)
    ensures i + 2 <= |src| && TokenAt(src, i) == Token(CommentEnd(src, i + 2, 1), false)
  {
    TwoAt(src, "/*", i);
  }

  /** A block comment, however deeply comments nest in it, is blanked up to the
      closer that balances its own opener. */
  lemma {:induction false} NestedCommentIsBlanked(src: string, i: nat, body: Comment)
    requires IsCommentText(body) && StandsAt(src, "/*" + (Spelled(body) + ("*/" + "")), i)
    ensures i < |src| && TokenAt(src, i) == Token(i + |Spelled(body)| + 4, false)
  {
    NestedThere(src, i, Spelled(body), "");
    CommentToken(src, i);
    BodyPasses(src, i + 2, body, 1);
    CloserRises(src, i + 2 + |Spelled(body)|, 1);
  }

  lemma {:induction false} HashRunIs(src: string, j: nat, n: nat)
    requires j + n < |src| && src[j + n] != '#' && forall k :: j <= k < j + n ==> src[k] == '#'
    ensures HashRun(src, j) == j + n
    decreases n
  {
    if n == 0 {
    } else {
      HashRunIs(src, j + 1, n - 1);
    }
  }

  lemma {:induction false} HashesLength(n: nat)
    ensures |Hashes(n)| == n
  {
    if n == 0 {
    } else {
      HashesLength(n - 1);
    }
  }

  /** The opener of a raw string at `i`, `r` or `br` with `n` hashes, that no
      identifier runs into. */
  predicate RawHead(src: string, i: nat, n: nat) {
    && i < |src| && (i == 0 || !IsIdent(src[i - 1])) && RawPrefix(src, i) > i
    && var q := RawPrefix(src, i) + n;
       q < |src| && src[q] == '"' && forall k :: RawPrefix(src, i) <= k < q ==> src[k] == '#'
  }

  lemma {:induction false} RawHeadOpens(src: string, i: nat, n: nat)
    requires RawHead(src, i, n)
    ensures HashRun(src, RawPrefix(src, i)) == RawPrefix(src, i) + n && RawOpens(src, i)
  {
    HashRunIs(src, RawPrefix(src, i), n);
  }

  /** A raw string is blanked up to the first quote with `n` hashes after it, or to
      the end of the source when there is none. */
  lemma {:induction false} RawStringIsBlanked(src: string, i: nat, n: nat, at: nat)
    requires RawHead(src, i, n) && RawPrefix(src, i) + n < at <= |src|
    requires var close := "\"" + Hashes(n);
             && (at < |src| ==> OccursAt(src, close, at))
             && (forall k :: RawPrefix(src, i) + n < k < at ==> !OccursAt(src, close, k))
    ensures TokenAt(src, i) == Token(if at < |src| then at + 1 + n else |src|, false)
  {
    RawHeadOpens(src, i, n);
    if at < |src| {
      RawStringCloses(src, i, n, at);
    } else {
      RawStringIsOpen(src, i, n);
    }
    RawToken(src, i);
  }

  lemma {:induction false} RawStringCloses(src: string, i: nat, n: nat, at: nat)
    requires i < |src| && RawOpens(src, i)
    requires var p := RawPrefix(src, i);
             && HashRun(src, p) == p + n && p + n < at < |src|
             && OccursAt(src, "\"" + Hashes(n), at)
             && (forall k :: p + n < k < at ==> !OccursAt(src, "\"" + Hashes(n), k))
    ensures RawEnd(src, i) == at + 1 + n
  {
    HashesLength(n);
    FindIs(src, "\"" + Hashes(n), RawPrefix(src, i) + n + 1, at);
    OccurrenceFits(src, "\"" + Hashes(n), at);
    RawEndIs(src, i, n, at);
  }

  lemma {:induction false} RawStringIsOpen(src: string, i: nat, n: nat)
    requires i < |src| && RawOpens(src, i)
    requires var p := RawPrefix(src, i);
             && HashRun(src, p) == p + n
             && (forall k :: p + n < k < |src| ==> !OccursAt(src, "\"" + Hashes(n), k))
    ensures RawEnd(src, i) == |src|
  {
    FindNone(src, "\"" + Hashes(n), RawPrefix(src, i) + n + 1);
    RawEndIs(src, i, n, |src|);
  }

  lemma {:induction false} RawEndIs(src: string, i: nat, n: nat, at: nat)
    requires i < |src| && RawOpens(src, i)
    requires var p := RawPrefix(src, i);
             HashRun(src, p) == p + n && Find(src, "\"" + Hashes(n), p + n + 1) == at
    ensures RawEnd(src, i) == Min(|src|, at + 1 + |Hashes(n)|)
  {
  }

  lemma OccurrenceFits(src: string, needle: string, at: nat)
    requires OccursAt(src, needle, at)
    ensures at + |needle| <= |src|
  {
  }

  lemma {:induction false} RawToken(src: string, i: nat)
    requires i < |src| && (i == 0 || !IsIdent(src[i - 1])) && RawOpens(src, i)
    ensures TokenAt(src, i) == Token(RawEnd(src, i), false)
  {
    assert !PairAt(src, i, '/', '/') && !PairAt(src, i, '/', '*');
  }

  lemma {:induction false} FindNone(src: string, needle: string, from: nat)
    requires from <= |src| && forall k :: from <= k < |src| ==> !OccursAt(src, needle, k)
    ensures Find(src, needle, from) == |src|
    decreases |src| - from
  {
    if from == |src| {
    } else {
      FindNone(src, needle, from + 1);
    }
  }

  lemma {:induction false} QuotePasses(src: string, j: nat, e: nat, q: char)
    requires j <= e <= |src| && forall k :: j <= k < e ==> src[k] != '\\' && src[k] != q
    ensures QuoteEnd(src, j, q) == QuoteEnd(src, e, q)
    decreases e - j
  {
    if j == e {
    } else {
      QuotePasses(src, j + 1, e, q);
    }
  }

  /** What may stand between the quotes of a character literal: one character, or an
      escape with whatever its kind takes. */
  predicate IsCharText(text: string) {
    && text != []
    && (if text[0] == '\\' then |text| >= 2 else |text| == 1 && text[0] != '\'')
    && forall k :: 2 <= k < |text| ==> text[k] != '\\' && text[k] != '\''
  }

  lemma {:induction false} CharTextEnds(src: string, j: nat, text: string)
    requires IsCharText(text) && StandsAt(src, text, j)
    requires j + |text| < |src| && src[j + |text|] == '\''
    ensures QuoteEnd(src, j, '\'') == j + |text| + 1
  {
    assert src[j + 0] == text[0];
    if text[0] == '\\' {
      forall k | j + 2 <= k < j + |text| ensures src[k] != '\\' && src[k] != '\'' {
        assert src[j + (k - j)] == text[k - j];
      }
      QuotePasses(src, j + 2, j + |text|, '\'');
    }
  }

  lemma {:induction false} CharIsNoLifetime(src: string, i: nat, text: string)
    requires IsCharText(text) && StandsAt(src, text, i + 1)
    requires i + 1 + |text| < |src| && src[i + 1 + |text|] == '\''
    ensures !IsLifetime(src, i)
  {
    assert src[i + 1 + 0] == text[0];
    if IsIdentStart(text[0]) {
      IdentRunIs(src, i + 1, i + 2);
    }
  }

  /** A character literal, escapes included, is one token blanked whole. */
  lemma {:induction false} CharLiteralIsBlanked(src: string, i: nat, text: string)
    requires IsCharText(text) && StandsAt(src, "'" + text + "'", i)
    ensures TokenAt(src, i) == Token(i + |text| + 2, false)
  {
    StandsAtParts(src, i, "'" + text, "'");
    StandsAtParts(src, i, "'", text);
    assert src[i + 0] == "'"[0] && src[i + |"'" + text| + 0] == "'"[0];
    CharTextEnds(src, i + 1, text);
    CharIsNoLifetime(src, i, text);
  }

  /** A lifetime is one token that stays visible. */
  lemma {:induction false} LifetimeIsKept(src: string, i: nat, e: nat)
    requires i + 1 < e <= |src| && src[i] == '\'' && IsIdentStart(src[i + 1])
    requires (forall k :: i < k < e ==> IsIdent(src[k])) && (e < |src| ==> !IsIdent(src[e]) && src[e] != '\'')
    ensures TokenAt(src, i) == Token(e, true)
  {
    IdentRunIs(src, i + 1, e);
  }

  /** A line comment is blanked up to its newline, or to the end of the source. */
  lemma {:induction false} LineCommentIsBlanked(src: string, i: nat, e: nat)
    requires PairAt(src, i, '/', '/') && i + 2 <= e <= |src|
    requires (forall k :: i + 2 <= k < e ==> src[k] != '\n') && (e < |src| ==> src[e] == '\n')
    ensures TokenAt(src, i) == Token(e, false)
  {
    FindCharIs(src, '\n', i + 2, e);
  }

  // ----------------------------------------------- what stays between literals --

  /** Position `k` starts no comment, no literal and no lifetime. */
  predicate IsCode(src: string, k: nat) {
    && k < |src|
    && !PairAt(src, k, '/', '/') && !PairAt(src, k, '/', '*')
    && src[k] != '"' && src[k] != '\'' && !(RawOpens(src, k) && (k == 0 || !IsIdent(src[k - 1])))
  }

  /** Code that the masker reaches stays as it is, character for character. */
  lemma {:induction false} CodeSurvives(src: string, i: nat, j: nat)
    requires i <= j <= |src| && forall k :: i <= k < j ==> IsCode(src, k)
    ensures MaskFrom(src, i) == src[i..j] + MaskFrom(src, j)
    decreases j - i
  {
    if i == j {
      assert src[i..j] == [];
    } else {
      assert IsCode(src, i);
      assert TokenAt(src, i) == Token(i + 1, true);
      CodeSurvives(src, i + 1, j);
      OneThenRest(src, i, j, MaskFrom(src, j));
    }
  }

  lemma OneThenRest(src: string, i: nat, j: nat, tail: string)
    requires i < j <= |src|
    ensures src[i..i + 1] + (src[i + 1..j] + tail) == src[i..j] + tail
  {
  }

  /** The loop that starts at `from` comes to stand at `i`. */
  predicate TokenStart(src: string, from: nat, i: nat)
    decreases |src| - from
  {
    from == i || (from < i && from < |src| && TokenStart(src, TokenAt(src, from).end, i))
  }

  lemma {:induction false} TokenStartNext(src: string, from: nat, i: nat)
    requires from <= |src| && i < |src| && TokenStart(src, from, i)
    ensures TokenStart(src, from, TokenAt(src, i).end)
    decreases |src| - from
  {
    if from == i {
    } else {
      TokenStartNext(src, TokenAt(src, from).end, i);
      TokenStartGrows(src, TokenAt(src, from).end, TokenAt(src, i).end);
    }
  }

  lemma {:induction false} TokenStartGrows(src: string, from: nat, i: nat)
    requires from <= |src| && TokenStart(src, from, i)
    ensures from <= i <= |src|
    decreases |src| - from
  {
    if from == i {
    } else {
      TokenStartGrows(src, TokenAt(src, from).end, i);
    }
  }

  lemma {:induction false} MaskUnfolds(src: string, i: nat)
    requires i < |src|
    ensures MaskFrom(src, i) == Piece(src, i) + MaskFrom(src, TokenAt(src, i).end)
  {
  }

  lemma {:induction false} MaskedFromLater(src: string, from: nat, i: nat)
    requires from < |src| && TokenAt(src, from).end <= i <= |src|
    requires MaskFrom(src, TokenAt(src, from).end)[i - TokenAt(src, from).end..] == MaskFrom(src, i)
    ensures MaskFrom(src, from)[i - from..] == MaskFrom(src, i)
  {
    var e := TokenAt(src, from).end;
    MaskUnfolds(src, from);
    TailOfTail(Piece(src, from), MaskFrom(src, e), i - e);
  }

  lemma {:induction false} MaskedFrom(src: string, from: nat, i: nat)
    requires from <= |src| && TokenStart(src, from, i)
    ensures from <= i <= |src| && MaskFrom(src, from)[i - from..] == MaskFrom(src, i)
    decreases |src| - from
  {
    TokenStartGrows(src, from, i);
    if from < i {
      TokenStartGrows(src, TokenAt(src, from).end, i);
      MaskedFrom(src, TokenAt(src, from).end, i);
      MaskedFromLater(src, from, i);
    }
  }

  lemma TailOfTail(a: string, b: string, k: nat)
    requires k <= |b|
    ensures (a + b)[|a| + k..] == b[k..]
  {
  }

  lemma {:induction false} HeadOfTail(t: string, i: nat, a: string, b: string)
    requires i <= |t| && t[i..] == a + b
    ensures i + |a| <= |t| && t[i..i + |a|] == a
  {
    assert t[i..][..|a|] == a;
  }

  lemma {:induction false} CodeStarts(src: string, i: nat, j: nat)
    requires i <= j <= |src| && TokenStart(src, 0, i) && forall k :: i <= k < j ==> IsCode(src, k)
    ensures TokenStart(src, 0, j)
    decreases j - i
  {
    if i == j {
    } else {
      assert IsCode(src, i);
      TokenStartNext(src, 0, i);
      CodeStarts(src, i + 1, j);
    }
  }

  /** Wherever a token of the source starts, code from there on shows in the masked
      text character for character, and what follows it starts a token again. */
  lemma {:induction false} CodeShows(src: string, i: nat, j: nat)
    requires i <= j <= |src| && TokenStart(src, 0, i) && forall k :: i <= k < j ==> IsCode(src, k)
    ensures Masked(src)[i..j] == src[i..j] && TokenStart(src, 0, j)
  {
    MaskedFrom(src, 0, i);
    CodeSurvives(src, i, j);
    HeadOfTail(Masked(src), i, src[i..j], MaskFrom(src, j));
    CodeStarts(src, i, j);
  }

  /** And a token that does not stay visible is blank in the masked text up to its
      end, where the next token starts. */
  lemma {:induction false} TokenHides(src: string, i: nat)
    requires i < |src| && TokenStart(src, 0, i) && !TokenAt(src, i).keep
    ensures var j := TokenAt(src, i).end;
            Masked(src)[i..j] == Blanked(src[i..j]) && TokenStart(src, 0, j)
  {
    var j := TokenAt(src, i).end;
    TokenStartNext(src, 0, i);
    MaskedFrom(src, 0, i);
    HeadOfTail(Masked(src), i, Blanked(src[i..j]), MaskFrom(src, j));
  }

  /** A token that stays visible stands unchanged in the masked text. */
  lemma {:induction false} TokenShows(src: string, i: nat)
    requires i < |src| && TokenStart(src, 0, i) && TokenAt(src, i).keep
    ensures var j := TokenAt(src, i).end;
            Masked(src)[i..j] == src[i..j] && TokenStart(src, 0, j)
  {
    var j := TokenAt(src, i).end;
    TokenStartNext(src, 0, i);
    MaskedFrom(src, 0, i);
    HeadOfTail(Masked(src), i, src[i..j], MaskFrom(src, j));
  }

  /** So with `CodeShows` the code between two string literals survives, and the
      literals do not. */
  lemma {:induction false} LiteralHides(src: string, i: nat, text: string)
    requires TokenStart(src, 0, i) && StandsAt(src, "\"" + Escaped(text) + "\"", i)
    ensures var j := i + |Escaped(text)| + 2;
            j <= |src| && Masked(src)[i..j] == Blanked(src[i..j]) && TokenStart(src, 0, j)
  {
    LiteralIsBlanked(src, i, text);
    TokenHides(src, i);
  }
}
