/** Credential redaction at intake (crates/cli/src/eve.rs): live-looking values
    become `${REF}`s before anything is written. */
module Redaction {
  import opened Text
  import opened Json
  import opened Refs

  const MAX_NAME := 64

  function Trim(s: string): string { TrimEnd(TrimStart(s, IsWhitespace), IsWhitespace) }

  predicate IsPlaceholder(v: string) {
    var t := Trim(v);
    "${" <= t && EndsWith(t, "}") && |t| > 3
  }

  function Upper(s: string): (r: string)
    ensures |r| == |s|
  {
    if s == [] then [] else [ToAsciiUpper(s[0])] + Upper(s[1..])
  }

  predicate IsTokenChar(c: char) { IsAsciiAlnum(c) || c in {'-', '_', '.', '+', '='} }

  /** Two signals, either enough: a telling key, or a long opaque value. */
  predicate LooksSecret(key: string, value: string) {
    var k, v := Upper(key), Trim(value);
    && v != []
    && (|| Contains(k, "KEY") || Contains(k, "TOKEN") || Contains(k, "SECRET")
        || Contains(k, "PASSWORD") || Contains(k, "CREDENTIAL") || Contains(k, "AUTH")
        || (&& |v| >= 24
            && (forall i :: 0 <= i < |v| ==> IsTokenChar(v[i]))
            && exists i :: 0 <= i < |v| && IsAsciiDigit(v[i])))
  }

  // ------------------------------------------------------------- ref names --

  function NameChar(c: char): char { if IsAsciiAlnum(c) then ToAsciiUpper(c) else '_' }

  function NameChars(key: string): (r: string)
    ensures |r| == |key|
    ensures forall i :: 0 <= i < |r| ==> r[i] == NameChar(key[i])
  {
    if key == [] then [] else [NameChar(key[0])] + NameChars(key[1..])
  }

  function RefName(key: string): string {
    var cut := if |key| > MAX_NAME then NameChars(key)[..MAX_NAME] else NameChars(key);
    if cut == [] || IsAsciiDigit(cut[0]) then ['_'] + cut else cut
  }

  /** `ref_name`: map, truncate, and put a letter in front of a digit. */
  method BuildRefName(key: string) returns (out: string)
    ensures out == RefName(key)
  {
    out := [];
    for i := 0 to |key|
      invariant out == NameChars(key)[..i]
    {
      out := out + [if IsAsciiAlnum(key[i]) then ToAsciiUpper(key[i]) else '_'];
    }
    if |out| > MAX_NAME {
      out := out[..MAX_NAME];
    }
    if out == [] || IsAsciiDigit(out[0]) {
      out := ['_'] + out;
    }
  }

  /** A reference name is never empty, uses capitals, digits and underscores
      only, never starts with a digit and is at most 65 long; and it is a name
      the reference scanner recognises. */
  lemma RefNameIsLegal(key: string)
    ensures 1 <= |RefName(key)| <= MAX_NAME + 1
    ensures forall i :: 0 <= i < |RefName(key)| ==>
              IsAsciiUpper(RefName(key)[i]) || IsAsciiDigit(RefName(key)[i]) || RefName(key)[i] == '_'
    ensures !IsAsciiDigit(RefName(key)[0])
    ensures |RefName(key)| == MAX_NAME + 1 ==> |key| >= MAX_NAME && IsAsciiDigit(key[0])
    ensures IsRefName(RefName(key))
  {
    forall i | 0 <= i < |key|
      ensures IsAsciiUpper(NameChar(key[i])) || IsAsciiDigit(NameChar(key[i])) || NameChar(key[i]) == '_' {
    }
  }

  /** The two characters leave the same mark in a name. */
  predicate SameMark(c: char, d: char) {
    if IsAsciiAlnum(c) && IsAsciiAlnum(d) then ToAsciiUpper(c) == ToAsciiUpper(d)
    else !IsAsciiAlnum(c) && !IsAsciiAlnum(d)
  }

  predicate SameMarks(a: string, b: string) {
    |a| == |b| && forall i :: 0 <= i < |a| ==> SameMark(a[i], b[i])
  }

  /** The part of a key that reaches its name. */
  function KeyHead(key: string): string { if |key| > MAX_NAME then key[..MAX_NAME] else key }

  predicate NeedsLetter(key: string) { key == [] || IsAsciiDigit(key[0]) }

  /** The two keys get one name: their heads agree but for case and punctuation, or
      one is the other behind a character of punctuation that a name needs anyway. */
  predicate Collide(k: string, l: string) {
    || SameMarks(KeyHead(k), KeyHead(l))
    || (NeedsLetter(k) && SameMarks("_" + KeyHead(k), KeyHead(l)))
    || (NeedsLetter(l) && SameMarks(KeyHead(k), "_" + KeyHead(l)))
  }

  lemma MarksAgree(c: char, d: char)
    ensures NameChar(c) == NameChar(d) <==> SameMark(c, d)
  {
  }

  lemma {:induction false} MarksDecide(a: string, b: string)
    ensures NameChars(a) == NameChars(b) <==> SameMarks(a, b)
  {
    forall c, d ensures NameChar(c) == NameChar(d) <==> SameMark(c, d) {
      MarksAgree(c, d);
    }
    if NameChars(a) == NameChars(b) {
      forall i | 0 <= i < |a| ensures SameMark(a[i], b[i]) {
        assert NameChars(a)[i] == NameChar(a[i]) && NameChars(b)[i] == NameChar(b[i]);
      }
    }
  }

  lemma {:induction false} NameOfHead(key: string)
    ensures RefName(key) == if NeedsLetter(key) then NameChars("_" + KeyHead(key)) else NameChars(KeyHead(key))
  {
    var cut := NameChars(KeyHead(key));
    assert cut == if |key| > MAX_NAME then NameChars(key)[..MAX_NAME] else NameChars(key);
    assert key != [] ==> (IsAsciiDigit(cut[0]) <==> IsAsciiDigit(key[0]));
    assert ("_" + KeyHead(key))[1..] == KeyHead(key);
  }

  /** Two keys share a reference name if and only if they collide. */
  lemma {:induction false} NamesCollideExactly(k: string, l: string)
    ensures RefName(k) == RefName(l) <==> Collide(k, l)
  {
    NameOfHead(k);
    NameOfHead(l);
    MarksDecide(KeyHead(k), KeyHead(l));
    MarksDecide("_" + KeyHead(k), KeyHead(l));
    MarksDecide(KeyHead(k), "_" + KeyHead(l));
    MarksDecide("_" + KeyHead(k), "_" + KeyHead(l));
    FirstMarks(k, l);
    FirstMarks(l, k);
  }

  /** A name that needs a letter starts as no head that needs one does. */
  lemma {:induction false} FirstMarks(k: string, l: string)
    ensures SameMarks("_" + KeyHead(k), "_" + KeyHead(l)) <==> SameMarks(KeyHead(k), KeyHead(l))
    ensures NeedsLetter(l) ==> !SameMarks("_" + KeyHead(k), KeyHead(l))
    ensures SameMarks(KeyHead(k), KeyHead(l)) ==> (NeedsLetter(k) <==> NeedsLetter(l))
  {
    var a, b := "_" + KeyHead(k), "_" + KeyHead(l);
    if SameMarks(a, b) {
      forall i | 0 <= i < |KeyHead(k)| ensures SameMark(KeyHead(k)[i], KeyHead(l)[i]) {
        assert SameMark(a[i + 1], b[i + 1]);
      }
    }
    assert SameMarks(a, KeyHead(l)) && l != [] ==> SameMark(a[0], KeyHead(l)[0]);
    assert SameMarks(KeyHead(k), KeyHead(l)) && k != [] ==> SameMark(KeyHead(k)[0], KeyHead(l)[0]);
  }

  /** Keys that differ in a character of punctuation do, such as `api-key` and `api.key`. */
  lemma {:induction false} PunctuationIsLost(a: string, c: char, d: char, b: string)
    requires !IsAsciiAlnum(c) && !IsAsciiAlnum(d)
    ensures RefName(a + [c] + b) == RefName(a + [d] + b)
  {
    var k, l := a + [c] + b, a + [d] + b;
    assert forall i :: 0 <= i < |k| ==> SameMark(k[i], l[i]);
    NamesCollideExactly(k, l);
  }

  /** And keys that differ in case do. */
  lemma {:induction false} CaseIsLost(key: string)
    ensures RefName(Upper(key)) == RefName(key)
  {
    UpperMarks(key);
    NamesCollideExactly(Upper(key), key);
  }

  lemma {:induction false} UpperMarks(key: string)
    ensures SameMarks(Upper(key), key)
  {
    if key == [] {
    } else {
      UpperMarks(key[1..]);
      assert forall i :: 1 <= i < |key| ==> Upper(key)[i] == Upper(key[1..])[i - 1] && key[i] == key[1..][i - 1];
    }
  }

  function Wrap(name: string): string { "${" + name + "}" }

  // -------------------------------------------------------------- redaction --

  /** What one entry's value becomes. */
  function RedactValue(key: string, value: string): string {
    if !IsPlaceholder(value) && LooksSecret(key, value) then Wrap(RefName(key)) else value
  }

  predicate NeedsRef(e: Entry<string>) { !IsPlaceholder(e.value) && LooksSecret(e.key, e.value) }

  function RedactedEntry(e: Entry<string>): Entry<string> {
    Entry(e.key, RedactValue(e.key, e.value))
  }

  function Redact(o: Assoc<string>): Assoc<string> {
    Each(o, RedactedEntry)
  }

  /** The reference names the redacted entries call for, repeats included. */
  function Wanted(o: Assoc<string>): seq<string> {
    if o == [] then []
    else
      var last := o[|o| - 1];
      var rest := Wanted(o[..|o| - 1]);
      if NeedsRef(last) then rest + [RefName(last.key)] else rest
  }

  /** Each name once, where it first stands. */
  function FirstOnly(names: seq<string>): seq<string> {
    if names == [] then []
    else
      var last, rest := names[|names| - 1], FirstOnly(names[..|names| - 1]);
      if last in rest then rest else rest + [last]
  }

  lemma FirstOnlySnoc(names: seq<string>, n: string)
    ensures FirstOnly(names + [n]) == if n in FirstOnly(names) then FirstOnly(names) else FirstOnly(names) + [n]
  {
    assert (names + [n])[..|names|] == names;
  }

  lemma {:induction false} WantedStep(o: Assoc<string>, i: nat)
    requires i < |o|
    ensures Wanted(o[..i + 1])
            == if NeedsRef(o[i]) then Wanted(o[..i]) + [RefName(o[i].key)] else Wanted(o[..i])
  {
    assert o[..i + 1][..i] == o[..i] && o[..i + 1][i] == o[i];
  }

  lemma {:induction false} RefsAppend(seen: seq<string>, wanted: seq<string>, name: string)
    ensures var before := FirstOnly(seen + wanted);
            FirstOnly(seen + (wanted + [name])) == if name in before then before else before + [name]
  {
    FirstOnlySnoc(seen + wanted, name);
    assert seen + (wanted + [name]) == (seen + wanted) + [name];
  }

  /** What one entry does to the reference list. */
  lemma {:induction false} RefsStep(o: Assoc<string>, i: nat, seen: seq<string>)
    requires i < |o|
    ensures var before, name := FirstOnly(seen + Wanted(o[..i])), RefName(o[i].key);
            FirstOnly(seen + Wanted(o[..i + 1]))
            == if NeedsRef(o[i]) && name !in before then before + [name] else before
  {
    WantedStep(o, i);
    RefsAppend(seen, Wanted(o[..i]), RefName(o[i].key));
  }

  lemma {:induction false} RedactSnoc(o: Assoc<string>, i: nat)
    requires i < |o|
    ensures Redact(o[..i + 1]) == Redact(o[..i]) + [RedactedEntry(o[i])]
  {
    EachSnoc(o, RedactedEntry, i);
  }

  /** The branches for one entry: `o[i]`, after the entries before it. */
  method RedactEntry(o: Assoc<string>, i: nat, before: seq<string>, ghost seen: seq<string>)
    returns (out: Entry<string>, refs: seq<string>)
    requires i < |o| && before == FirstOnly(seen + Wanted(o[..i]))
    ensures out == RedactedEntry(o[i])
    ensures refs == FirstOnly(seen + Wanted(o[..i + 1]))
  {
    var e := o[i];
    RefsStep(o, i, seen);
    refs := before;
    if IsPlaceholder(e.value) {
      return e, refs;
    }
    if LooksSecret(e.key, e.value) {
      var name := BuildRefName(e.key);
      if name !in refs {
        refs := refs + [name];
      }
      return Entry(e.key, Wrap(name)), refs;
    }
    return e, refs;
  }

  /** `redact_map`: `seen` is what earlier maps asked for; the list of references
      stays free of repeats, in the order they were first met. */
  method RedactMap(o: Assoc<string>, before: seq<string>, ghost seen: seq<string>)
    returns (out: Assoc<string>, refs: seq<string>)
    requires before == FirstOnly(seen)
    ensures out == Redact(o)
    ensures refs == FirstOnly(seen + Wanted(o))
  {
    out, refs := [], before;
    assert Wanted(o[..0]) == [] && seen + [] == seen;
    for i := 0 to |o|
      invariant out == Redact(o[..i])
      invariant refs == FirstOnly(seen + Wanted(o[..i]))
    {
      var e;
      e, refs := RedactEntry(o, i, refs, seen);
      RedactSnoc(o, i);
      out := out + [e];
    }
    assert o[..|o|] == o;
  }

  /** Intake redacts the environment, then the headers, into one reference list. */
  method RedactConnection(env: Assoc<string>, headers: Assoc<string>)
    returns (env': Assoc<string>, headers': Assoc<string>, refs: seq<string>)
    ensures env' == Redact(env) && headers' == Redact(headers)
    ensures refs == FirstOnly(Wanted(env) + Wanted(headers))
  {
    assert [] + Wanted(env) == Wanted(env);
    env', refs := RedactMap(env, [], []);
    headers', refs := RedactMap(headers, refs, Wanted(env));
  }

  // ------------------------------------------------------------- properties --

  lemma {:induction false} TrimNone(s: string)
    requires s != [] ==> !IsWhitespace(s[0]) && !IsWhitespace(s[|s| - 1])
    ensures Trim(s) == s
  {
  }

  /** A redacted value is a placeholder. */
  lemma {:induction false} WrapIsPlaceholder(key: string)
    ensures IsPlaceholder(Wrap(RefName(key)))
  {
    RefNameIsLegal(key);
    var w := Wrap(RefName(key));
    assert w[0] == '$' && w[1] == '{' && w[|w| - 1] == '}';
    assert w[..2] == "${" && w[|w| - 1..] == "}";
    TrimNone(w);
  }

  /** The reference scanner reads a redacted value as exactly that reference. */
  lemma {:induction false} WrapIsOneReference(key: string)
    ensures Segments(Wrap(RefName(key))) == [Ref(RefName(key))]
  {
    RefNameIsLegal(key);
    ReferenceReads(RefName(key));
  }

  /** Redacting twice changes nothing the second time, and asks for no reference;
      after redaction no live-looking value is left. */
  lemma {:induction false} RedactIdempotent(o: Assoc<string>)
    ensures Redact(Redact(o)) == Redact(o)
    ensures Wanted(Redact(o)) == []
    ensures forall i :: 0 <= i < |o| ==>
              IsPlaceholder(Redact(o)[i].value) || !LooksSecret(Redact(o)[i].key, Redact(o)[i].value)
  {
    var r := Redact(o);
    forall i | 0 <= i < |r|
      ensures RedactValue(r[i].key, r[i].value) == r[i].value
      ensures IsPlaceholder(r[i].value) || !LooksSecret(r[i].key, r[i].value)
    {
      WrapIsPlaceholder(o[i].key);
    }
    NothingWanted(r);
  }

  lemma {:induction false} NothingWanted(o: Assoc<string>)
    requires forall i :: 0 <= i < |o| ==> IsPlaceholder(o[i].value) || !LooksSecret(o[i].key, o[i].value)
    ensures Wanted(o) == []
  {
    if o == [] {
    } else {
      assert IsPlaceholder(o[|o| - 1].value) || !LooksSecret(o[|o| - 1].key, o[|o| - 1].value);
      NothingWanted(o[..|o| - 1]);
    }
  }

  /** Where a name is met first. */
  function FirstAt(names: seq<string>, n: string): (i: nat)
    requires n in names
    ensures i < |names| && names[i] == n
  {
    if names[0] == n then 0 else 1 + FirstAt(names[1..], n)
  }

  lemma {:induction false} FirstAtSnoc(init: seq<string>, last: string, n: string)
    requires n in init + [last]
    ensures FirstAt(init + [last], n) == if n in init then FirstAt(init, n) else |init|
  {
    if init == [] {
      assert init + [last] == [last];
    } else {
      assert (init + [last])[1..] == init[1..] + [last];
      if init[0] != n {
        FirstAtSnoc(init[1..], last, n);
      }
    }
  }

  /** The list has exactly the wanted names, in the order of their first encounters
      (and so each of them once). */
  lemma {:induction false} FirstOnlyIsFirsts(names: seq<string>)
    ensures forall n :: n in FirstOnly(names) <==> n in names
    ensures forall i, j :: 0 <= i < j < |FirstOnly(names)| ==>
              FirstAt(names, FirstOnly(names)[i]) < FirstAt(names, FirstOnly(names)[j])
  {
    if names == [] {
    } else {
      var init, last := names[..|names| - 1], names[|names| - 1];
      FirstOnlyIsFirsts(init);
      assert names == init + [last];
      forall n | n in names ensures FirstAt(names, n) == if n in init then FirstAt(init, n) else |init| {
        FirstAtSnoc(init, last, n);
      }
    }
  }

  /** The list for a prefix is a prefix of the list for the whole: later entries
      never reorder earlier ones. */
  lemma {:induction false} FirstOnlyGrows(names: seq<string>, more: seq<string>)
    ensures FirstOnly(names) <= FirstOnly(names + more)
    decreases |more|
  {
    if more == [] {
      assert names + more == names;
    } else {
      var init, last := more[..|more| - 1], more[|more| - 1];
      FirstOnlyGrows(names, init);
      assert names + more == (names + init) + [last];
      FirstOnlySnoc(names + init, last);
    }
  }
}
