/** Character classes and string searches shared by the other modules. Strings
    are sequences of Unicode scalar values; byte bounds go through `Utf8Len`. */
module Text {

  datatype Option<+T> = None | Some(value: T)

  /** The Unicode White_Space property, which is what Rust's
      `char::is_whitespace` and `str::trim` consult. */
  predicate IsWhitespace(c: char) {
    var n := c as int;
    || 0x9 <= n <= 0xD || n == 0x20 || n == 0x85 || n == 0xA0 || n == 0x1680
    || 0x2000 <= n <= 0x200A || n == 0x2028 || n == 0x2029 || n == 0x202F
    || n == 0x205F || n == 0x3000
  }

  predicate IsAsciiDigit(c: char) { '0' <= c <= '9' }

  predicate IsAsciiUpper(c: char) { 'A' <= c <= 'Z' }

  predicate IsAsciiLower(c: char) { 'a' <= c <= 'z' }

  predicate IsAsciiAlpha(c: char) { IsAsciiUpper(c) || IsAsciiLower(c) }

  predicate IsAsciiAlnum(c: char) { IsAsciiAlpha(c) || IsAsciiDigit(c) }

  function ToAsciiUpper(c: char): char {
    if IsAsciiLower(c) then c - 'a' + 'A' else c
  }

  function Utf8Width(c: char): nat {
    var n := c as int;
    if n < 0x80 then 1 else if n < 0x800 then 2 else if n < 0x1_0000 then 3 else 4
  }

  /** The length Rust's `str::len` reports. */
  function Utf8Len(s: string): nat {
    if s == [] then 0 else Utf8Width(s[0]) + Utf8Len(s[1..])
  }

  predicate EndsWith(s: string, suffix: string) {
    |suffix| <= |s| && s[|s| - |suffix|..] == suffix
  }

  /** Whether `needle` occurs in `s` starting at index `i`. */
  predicate OccursAt(s: string, needle: string, i: int) {
    0 <= i && i + |needle| <= |s| && s[i..i + |needle|] == needle
  }

  predicate Contains(s: string, needle: string) {
    exists i :: 0 <= i <= |s| && OccursAt(s, needle, i)
  }

  /** The first index at which `needle` occurs, or `|s|` when it does not. */
  function Find(s: string, needle: string, from: nat := 0): (r: nat)
    requires from <= |s|
    ensures from <= r <= |s|
    ensures r < |s| ==> OccursAt(s, needle, r) || needle == []
    ensures forall i :: from <= i < r ==> !OccursAt(s, needle, i)
    decreases |s| - from
  {
    if from == |s| || OccursAt(s, needle, from) then from
    else Find(s, needle, from + 1)
  }

  /** The first index from `from` on that holds `c`, or `|s|`. */
  function FindChar(s: string, c: char, from: nat := 0): (r: nat)
    requires from <= |s|
    ensures from <= r <= |s|
    ensures r < |s| ==> s[r] == c
    decreases |s| - from
  {
    if from == |s| || s[from] == c then from else FindChar(s, c, from + 1)
  }

  lemma {:induction false} FindIs(s: string, needle: string, from: nat, at: nat)
    requires from <= at < |s| && OccursAt(s, needle, at)
    requires forall i :: from <= i < at ==> !OccursAt(s, needle, i)
    ensures Find(s, needle, from) == at
    decreases at - from
  {
    if from == at {
    } else {
      FindIs(s, needle, from + 1, at);
    }
  }

  lemma {:induction false} FindCharIs(s: string, c: char, from: nat, at: nat)
    requires from <= at <= |s| && (forall k :: from <= k < at ==> s[k] != c) && (at < |s| ==> s[at] == c)
    ensures FindChar(s, c, from) == at
    decreases at - from
  {
    if from == at {
    } else {
      FindCharIs(s, c, from + 1, at);
    }
  }

  /** `a` stands in `s` at position `i`; said without slices. */
  ghost predicate StandsAt(s: string, a: string, i: nat) {
    i + |a| <= |s| && forall k :: 0 <= k < |a| ==> s[i + k] == a[k]
  }

  lemma {:induction false} StandsAtParts(s: string, i: nat, a: string, b: string)
    requires StandsAt(s, a + b, i)
    ensures StandsAt(s, a, i) && StandsAt(s, b, i + |a|)
  {
    forall k | 0 <= k < |a| ensures s[i + k] == a[k] {
      assert (a + b)[k] == a[k];
    }
    forall k | 0 <= k < |b| ensures s[i + |a| + k] == b[k] {
      assert (a + b)[|a| + k] == b[k];
    }
  }

  lemma AppendAssoc<T>(a: seq<T>, b: seq<T>, c: seq<T>)
    ensures a + b + c == a + (b + c)
  {
  }

  function TrimStart(s: string, drop: char -> bool): string {
    if s != [] && drop(s[0]) then TrimStart(s[1..], drop) else s
  }

  function TrimEnd(s: string, drop: char -> bool): string {
    if s != [] && drop(s[|s| - 1]) then TrimEnd(s[..|s| - 1], drop) else s
  }

  /** Splitting on one character: always at least one part. */
  function SplitOn(s: string, c: char): (parts: seq<string>)
    ensures |parts| >= 1
    ensures c !in s ==> parts == [s]
  {
    if s == [] then [[]]
    else
      var rest := SplitOn(s[1..], c);
      assert [s[0]] + s[1..] == s;
      if s[0] == c then [[]] + rest else [[s[0]] + rest[0]] + rest[1..]
  }

  function Last<T>(xs: seq<T>): T
    requires xs != []
  {
    xs[|xs| - 1]
  }

  /** What an accumulating list holds is what some step appended. */
  lemma {:induction false} Accumulated<T>(sum: nat -> seq<T>, step: nat -> seq<T>, k: nat, x: T)
    requires sum(0) == [] && forall i: nat :: i < k ==> sum(i + 1) == sum(i) + step(i)
    ensures x in sum(k) <==> exists i: nat :: i < k && x in step(i)
    decreases k
  {
    if k == 0 {
    } else {
      Accumulated(sum, step, k - 1, x);
      assert sum(k - 1 + 1) == sum(k - 1) + step(k - 1);
    }
  }
}
