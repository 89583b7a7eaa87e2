/**
 * JSON as JavaScript holds it: an object is its entries in insertion order, with distinct keys, so two
 * equal values serialise to the same text. `undefined` is an absent entry.
 */
module Json {
  import opened Wrappers

  datatype Entry<+V> = Entry(key: string, value: V)

  predicate DistinctKeys<V>(fs: seq<Entry<V>>) {
    forall i, j :: 0 <= i < j < |fs| ==> fs[i].key != fs[j].key
  }

  type Record<V> = fs: seq<Entry<V>> | DistinctKeys(fs)

  datatype Json =
    | Null
    | Bool(b: bool)
    | Num(n: real)
    | Str(s: string)
    | Arr(items: seq<Json>)
    | Obj(fields: Record<Json>)

  /** `JSON.parse` (None when it throws) and `JSON.stringify`. */
  datatype Codec = Codec(parse: string -> Option<Json>, stringify: Json -> string)

  /** Parsing inverts serialising on this value. */
  ghost predicate ReadsBack(codec: Codec, j: Json) {
    codec.parse(codec.stringify(j)) == Some(j)
  }

  /** Any three values are read back by some codec, so nothing below assumes what no codec can do. */
  lemma SomeCodecReadsBack(x: Json, y: Json, z: Json) returns (codec: Codec)
    ensures ReadsBack(codec, x) && ReadsBack(codec, y) && ReadsBack(codec, z)
  {
    codec := Codec(
      text => if text == "x" then Some(x) else if text == "y" then Some(y) else Some(z),
      j => if j == x then "x" else if j == y then "y" else "z");
  }

  type Fields = Record<Json>

  /** `o[k]`, None standing for `undefined`. */
  function Get(fs: seq<Entry<Json>>, k: string): Option<Json> {
    if fs == [] then None
    else if fs[0].key == k then Some(fs[0].value)
    else Get(fs[1..], k)
  }

  /** `j?.[k]` on plain data; an array or a scalar has none of the named members. */
  function Field(j: Json, k: string): Option<Json> { if j.Obj? then Get(j.fields, k) else None }

  /** The string under `k`, when there is one. */
  function StringField(j: Json, k: string): Option<string> {
    if j.Obj? && Get(j.fields, k).Some? && Get(j.fields, k).value.Str?
    then Some(Get(j.fields, k).value.s) else None
  }

  /** `o[k] = v` and `{...o, k: v}`: an existing key keeps its place, a new one goes last. */
  function Put(fs: Fields, k: string, v: Json): (r: Fields)
    ensures Get(r, k) == Some(v)
  {
    var i := KeyIndex(fs, k);
    var r := if i < |fs| then fs[i := Entry(k, v)] else fs + [Entry(k, v)];
    GetAt(r, i);
    r
  }

  function KeyIndex(fs: seq<Entry<Json>>, k: string): (i: nat)
    ensures i <= |fs|
    ensures i < |fs| ==> fs[i].key == k
    ensures forall j :: 0 <= j < i ==> fs[j].key != k
  {
    if fs == [] || fs[0].key == k then 0 else 1 + KeyIndex(fs[1..], k)
  }

  /** `delete o[k]`. */
  function Delete(fs: Fields, k: string): (r: Fields)
    ensures Get(r, k).None?
    ensures Get(fs, k).None? ==> r == fs
  {
    var i := KeyIndex(fs, k);
    GetAbsent(fs, k);
    var r := if i == |fs| then fs else fs[..i] + fs[i + 1..];
    GetAbsent(r, k);
    r
  }

  lemma {:induction false} GetAbsent(fs: seq<Entry<Json>>, k: string)
    ensures Get(fs, k).None? <==> forall i :: 0 <= i < |fs| ==> fs[i].key != k
  {
    if fs != [] && fs[0].key != k {
      GetAbsent(fs[1..], k);
      assert forall i :: 1 <= i < |fs| ==> fs[i] == fs[1..][i - 1];
    }
  }

  lemma {:induction false} GetAt(fs: Fields, i: nat)
    requires i < |fs|
    ensures Get(fs, fs[i].key) == Some(fs[i].value)
  {
    if i > 0 {
      assert DistinctKeys(fs[1..]);
      GetAt(fs[1..], i - 1);
    }
  }

  lemma {:induction false} GetFound(fs: seq<Entry<Json>>, k: string)
    requires Get(fs, k).Some?
    ensures Entry(k, Get(fs, k).value) in fs
  {
    if fs[0].key != k { GetFound(fs[1..], k); }
  }

  /** An entry is what its key reads back as. */
  lemma GetIn(fs: Fields, e: Entry<Json>)
    requires e in fs
    ensures Get(fs, e.key) == Some(e.value)
  {
    var i :| 0 <= i < |fs| && fs[i] == e;
    GetAt(fs, i);
  }

  /** Writing or deleting one key leaves every other key's value alone. */
  lemma GetOther(fs: Fields, k: string, v: Json, other: string)
    requires other != k
    ensures Get(Put(fs, k, v), other) == Get(fs, other)
    ensures Get(Delete(fs, k), other) == Get(fs, other)
  {
    var r, d := Put(fs, k, v), Delete(fs, k);
    GetAbsent(fs, other);
    GetAbsent(r, other);
    GetAbsent(d, other);
    if Get(fs, other).Some? {
      GetFound(fs, other);
      var w := Get(fs, other).value;
      var i :| 0 <= i < |fs| && fs[i] == Entry(other, w);
      assert r[i] == fs[i];
      GetAt(r, i);
      assert Entry(other, w) in d;
      GetIn(d, Entry(other, w));
    }
  }

  lemma PutSame(fs: Fields, k: string, v: Json)
    requires Get(fs, k) == Some(v)
    ensures Put(fs, k, v) == fs
  {
    var i := KeyIndex(fs, k);
    GetAbsent(fs, k);
    GetAt(fs, i);
    assert fs[i] == Entry(k, v);
  }

  lemma DeletedIsGone(fs: Fields, k: string)
    ensures KeyIndex(Delete(fs, k), k) == |Delete(fs, k)|
  {
    GetAbsent(Delete(fs, k), k);
  }

  /**
   * Re-adding a key after deleting it puts it last, so it restores the record exactly when the key
   * was absent or already last.
   */
  lemma PutAfterDelete(fs: Fields, k: string, v: Json, w: Json)
    ensures Put(Delete(fs, k), k, w) == Delete(fs, k) + [Entry(k, w)]
    ensures Put(Delete(fs, k), k, w) == Put(fs, k, v) <==> v == w && KeyIndex(fs, k) >= |fs| - 1
  {
    DeletedIsGone(fs, k);
    var i, n := KeyIndex(fs, k), |fs|;
    var again, once := Delete(fs, k) + [Entry(k, w)], Put(fs, k, v);
    if i < n - 1 {
      assert once[i] == Entry(k, v) && again[i] == fs[i + 1];
    } else {
      var front := fs[..i];
      assert again == front + [Entry(k, w)] && once == front + [Entry(k, v)];
      assert again[i] == Entry(k, w) && once[i] == Entry(k, v);
    }
  }

  /** What surrounds the entry under `k`, or everything and nothing when there is none. */
  function Around(fs: seq<Entry<Json>>, k: string): (seq<Entry<Json>>, seq<Entry<Json>>) {
    var i := KeyIndex(fs, k);
    (fs[..i], if i == |fs| then [] else fs[i + 1..])
  }

  lemma PutAround(fs: Fields, k: string, v: Json)
    ensures Put(fs, k, v) == Around(fs, k).0 + [Entry(k, v)] + Around(fs, k).1
  {}

  lemma DeleteAround(fs: Fields, k: string)
    ensures Delete(fs, k) == Around(fs, k).0 + Around(fs, k).1
  {}
}
