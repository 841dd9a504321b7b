/** Insertion-ordered objects and the value trees built from them, as
    `serde_json` (with `preserve_order`) and `indexmap` keep them. */
module Json {
  import opened Text

  datatype Entry<+V> = Entry(key: string, value: V)

  type Assoc<+V> = seq<Entry<V>>

  function Get<V>(o: Assoc<V>, key: string): Option<V> {
    if o == [] then None
    else if o[0].key == key then Some(o[0].value)
    else Get(o[1..], key)
  }

  /** Replace in place, or append. */
  function Put<V>(o: Assoc<V>, key: string, v: V): Assoc<V> {
    if o == [] then [Entry(key, v)]
    else if o[0].key == key then [Entry(key, v)] + o[1..]
    else [o[0]] + Put(o[1..], key, v)
  }

  function Each<T, U>(xs: seq<T>, f: T -> U): (r: seq<U>)
    ensures |r| == |xs|
    ensures forall i :: 0 <= i < |r| ==> r[i] == f(xs[i])
  {
    if xs == [] then [] else [f(xs[0])] + Each(xs[1..], f)
  }

  lemma {:induction false} EachSnoc<T, U>(xs: seq<T>, f: T -> U, i: nat)
    requires i < |xs|
    ensures Each(xs[..i + 1], f) == Each(xs[..i], f) + [f(xs[i])]
  {
  }

  predicate DistinctKeys<V>(o: Assoc<V>) {
    forall i, j :: 0 <= i < j < |o| ==> o[i].key != o[j].key
  }

  lemma {:induction false} GetPut<V>(o: Assoc<V>, key: string, v: V, x: string)
    ensures Get(Put(o, key, v), x) == if x == key then Some(v) else Get(o, x)
  {
    if o == [] {
    } else {
      GetPut(o[1..], key, v, x);
      var p := Put(o, key, v);
      assert p[1..] == if o[0].key == key then o[1..] else Put(o[1..], key, v);
    }
  }

  /** Equality of objects, which ignores the order of their keys. */
  ghost predicate SameEntries<V(!new)>(a: Assoc<V>, b: Assoc<V>) {
    forall k :: Get(a, k) == Get(b, k)
  }

  lemma {:induction false} GetPresent<V>(o: Assoc<V>, i: nat)
    requires DistinctKeys(o) && i < |o|
    ensures Get(o, o[i].key) == Some(o[i].value)
  {
    if i == 0 {
    } else {
      assert o[0].key != o[i].key;
      GetPresent(o[1..], i - 1);
    }
  }

  lemma {:induction false} GetAbsent<V>(o: Assoc<V>, key: string)
    ensures Get(o, key).None? <==> forall i :: 0 <= i < |o| ==> o[i].key != key
  {
    if o == [] {
    } else {
      GetAbsent(o[1..], key);
      assert forall i :: 0 < i < |o| ==> o[i] == o[1..][i - 1];
      assert forall i :: 0 <= i < |o[1..]| ==> o[1..][i] == o[i + 1];
    }
  }

  /** Reading a prefix that grows by one distinct key. */
  lemma {:induction false} GetPrefix<V>(o: Assoc<V>, i: nat, x: string)
    requires DistinctKeys(o) && i < |o|
    ensures Get(o[..i + 1], x) == if x == o[i].key then Some(o[i].value) else Get(o[..i], x)
  {
    if i == 0 {
      assert o[..1] == [o[0]] && o[..1][1..] == [];
    } else {
      assert o[..i + 1][1..] == o[1..][..i] && o[..i][1..] == o[1..][..i - 1];
      assert o[0].key != o[i].key;
      GetPrefix(o[1..], i - 1, x);
    }
  }

  datatype Value =
    | Null
    | Bool(b: bool)
    | Number(n: int)
    | Str(s: string)
    | Arr(items: seq<Value>)
    | Obj(fields: Assoc<Value>)
}
