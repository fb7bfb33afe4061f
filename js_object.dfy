/** A plain JavaScript object with string keys, as the reducers and selectors use it:
    the values by key, and the keys in the order `Object.entries` visits them
    (insertion order; keys are assumed not to look like array indices, which
    JavaScript would visit first). */
module JsObject {
  import opened Wrappers
  import Seqs

  datatype Obj<V> = Obj(keys: seq<string>, vals: map<string, V>)

  /** Every key occurs once in the order and the order lists exactly the keys. */
  ghost predicate Valid<V>(o: Obj<V>) {
    Seqs.NoDuplicates(o.keys) && forall k :: k in o.vals <==> k in o.keys
  }

  function Empty<V>(): (r: Obj<V>)
    ensures Valid(r) && r.vals == map[]
  {
    Obj([], map[])
  }

  /** `o[k]`, with `undefined` as `None`. */
  function Get<V>(o: Obj<V>, k: string): Option<V> {
    if k in o.vals then Some(o.vals[k]) else None
  }

  /** `{ ...o, [k]: v }`: an existing key keeps its place, a new one goes last. */
  function Put<V>(o: Obj<V>, k: string, v: V): (r: Obj<V>)
    requires Valid(o)
    ensures Valid(r)
    ensures r.vals == o.vals[k := v]
    ensures r.keys == if k in o.vals then o.keys else o.keys + [k]
  {
    if k in o.vals then Obj(o.keys, o.vals[k := v]) else Obj(o.keys + [k], o.vals[k := v])
  }

  /** `delete o[k]` on a copy: the other keys keep their order. */
  function Delete<V>(o: Obj<V>, k: string): (r: Obj<V>)
    requires Valid(o)
    ensures Valid(r)
    ensures r.vals == o.vals - {k}
    ensures r.keys == Seqs.Filter(o.keys, Seqs.NotEqual(k))
    ensures forall x :: x in r.keys <==> x in o.keys && x != k
  {
    Seqs.FilterNoDuplicates(o.keys, Seqs.NotEqual(k));
    Obj(Seqs.Filter(o.keys, Seqs.NotEqual(k)), o.vals - {k})
  }

  /** Deleting a missing key gives back the same object. */
  lemma DeleteAbsent<V>(o: Obj<V>, k: string)
    requires Valid(o) && k !in o.vals
    ensures Delete(o, k) == o
  {
    Seqs.FilterAll(o.keys, Seqs.NotEqual(k));
    assert o.vals - {k} == o.vals;
  }

  /** `Object.values(o)`. */
  function Values<V>(o: Obj<V>): (r: seq<V>)
    requires Valid(o)
    ensures |r| == |o.keys|
    ensures forall i :: 0 <= i < |r| ==> o.keys[i] in o.vals && r[i] == o.vals[o.keys[i]]
  {
    ValuesOf(o, o.keys)
  }

  function ValuesOf<V>(o: Obj<V>, ks: seq<string>): (r: seq<V>)
    requires forall k :: k in ks ==> k in o.vals
    ensures |r| == |ks|
    ensures forall i :: 0 <= i < |r| ==> r[i] == o.vals[ks[i]]
  {
    if ks == [] then [] else [o.vals[ks[0]]] + ValuesOf(o, ks[1..])
  }

  /** `Object.entries(o).reduce((acc, [k, v]) => f(k, v) is Some(w) ? { ...acc, [k]: w } : acc, acc0)`
      from entry `i` on: the shape of the source's rebuild-by-reduce selectors and reducers. */
  function RebuildFrom<V>(o: Obj<V>, f: (string, V) -> Option<V>, i: nat, acc: Obj<V>): (r: Obj<V>)
    requires Valid(o) && Valid(acc) && i <= |o.keys|
    ensures Valid(r)
    decreases |o.keys| - i
  {
    if i == |o.keys| then acc
    else RebuildFrom(o, f, i + 1, Step(o, f, i, acc))
  }

  /** One step of the rebuild: entry `i` is added when `f` keeps it. */
  function Step<V>(o: Obj<V>, f: (string, V) -> Option<V>, i: nat, acc: Obj<V>): (r: Obj<V>)
    requires Valid(o) && Valid(acc) && i < |o.keys|
    ensures Valid(r)
  {
    var k := o.keys[i];
    var w := f(k, o.vals[k]);
    if w.Some? then Put(acc, k, w.value) else acc
  }

  function Rebuild<V>(o: Obj<V>, f: (string, V) -> Option<V>): Obj<V>
    requires Valid(o)
  {
    RebuildFrom(o, f, 0, Empty())
  }

  /** The keys `f` keeps. */
  function Kept<V>(o: Obj<V>, f: (string, V) -> Option<V>): string -> bool {
    k => k in o.vals && f(k, o.vals[k]).Some?
  }

  /** What the rebuild holds after the first `i` entries. */
  ghost predicate RebuiltUpTo<V>(o: Obj<V>, f: (string, V) -> Option<V>, i: nat, acc: Obj<V>)
    requires i <= |o.keys|
  {
    && acc.keys == Seqs.Filter(o.keys[..i], Kept(o, f))
    && (forall k :: k in acc.vals <==> k in o.keys[..i] && Kept(o, f)(k))
    && (forall k :: k in acc.vals ==> acc.vals[k] == f(k, o.vals[k]).value)
  }

  lemma {:induction false} RebuildFromSpec<V>(o: Obj<V>, f: (string, V) -> Option<V>, i: nat, acc: Obj<V>)
    requires Valid(o) && Valid(acc) && i <= |o.keys|
    requires RebuiltUpTo(o, f, i, acc)
    ensures RebuiltUpTo(o, f, |o.keys|, RebuildFrom(o, f, i, acc))
    decreases |o.keys| - i
  {
    if i < |o.keys| {
      StepSpec(o, f, i, acc);
      RebuildFromSpec(o, f, i + 1, Step(o, f, i, acc));
    }
  }

  lemma StepSpec<V>(o: Obj<V>, f: (string, V) -> Option<V>, i: nat, acc: Obj<V>)
    requires Valid(o) && Valid(acc) && i < |o.keys|
    requires RebuiltUpTo(o, f, i, acc)
    ensures RebuiltUpTo(o, f, i + 1, Step(o, f, i, acc))
  {
    if f(o.keys[i], o.vals[o.keys[i]]).Some? {
      StepKeptSpec(o, f, i, acc);
    } else {
      StepSkippedSpec(o, f, i, acc);
    }
  }

  /** The first `i + 1` keys are the first `i` and then a key not among them. */
  lemma NextPrefix<V>(o: Obj<V>, i: nat)
    requires Valid(o) && i < |o.keys|
    ensures o.keys[..i + 1] == o.keys[..i] + [o.keys[i]]
    ensures o.keys[i] !in o.keys[..i]
    ensures forall x :: x in o.keys[..i + 1] <==> x in o.keys[..i] || x == o.keys[i]
  {
    assert forall j :: 0 <= j < i ==> o.keys[..i][j] == o.keys[j] != o.keys[i];
  }

  /** A kept entry is appended to the rebuild. */
  lemma StepKeptSpec<V>(o: Obj<V>, f: (string, V) -> Option<V>, i: nat, acc: Obj<V>)
    requires Valid(o) && Valid(acc) && i < |o.keys|
    requires RebuiltUpTo(o, f, i, acc)
    requires f(o.keys[i], o.vals[o.keys[i]]).Some?
    ensures RebuiltUpTo(o, f, i + 1, Step(o, f, i, acc))
  {
    var k := o.keys[i];
    NextPrefix(o, i);
    FilterAppendOne(o.keys[..i], k, Kept(o, f));
    assert Kept(o, f)(k);
    var next := Step(o, f, i, acc);
    assert next == Obj(acc.keys + [k], acc.vals[k := f(k, o.vals[k]).value]);
    assert next.keys == Seqs.Filter(o.keys[..i + 1], Kept(o, f));
  }

  /** A dropped entry leaves the rebuild as it was. */
  lemma StepSkippedSpec<V>(o: Obj<V>, f: (string, V) -> Option<V>, i: nat, acc: Obj<V>)
    requires Valid(o) && Valid(acc) && i < |o.keys|
    requires RebuiltUpTo(o, f, i, acc)
    requires f(o.keys[i], o.vals[o.keys[i]]).None?
    ensures RebuiltUpTo(o, f, i + 1, Step(o, f, i, acc))
  {
    var k := o.keys[i];
    NextPrefix(o, i);
    FilterAppendOne(o.keys[..i], k, Kept(o, f));
    assert !Kept(o, f)(k);
    assert Step(o, f, i, acc) == acc;
  }

  /** Filtering a list with one more element at the end. */
  lemma FilterAppendOne<T>(s: seq<T>, x: T, p: T -> bool)
    ensures Seqs.Filter(s + [x], p) == Seqs.Filter(s, p) + if p(x) then [x] else []
  {
    Seqs.FilterConcat(s, [x], p);
    Seqs.FilterSingleton(x, p);
  }

  /** The rebuilt object holds exactly the entries `f` keeps, in their original order,
      each mapped to what `f` made of it. */
  lemma RebuildSpec<V>(o: Obj<V>, f: (string, V) -> Option<V>)
    requires Valid(o)
    ensures var r := Rebuild(o, f);
      && Valid(r)
      && r.keys == Seqs.Filter(o.keys, Kept(o, f))
      && (forall k :: k in r.vals <==> k in o.vals && f(k, o.vals[k]).Some?)
      && (forall k :: k in r.vals ==> r.vals[k] == f(k, o.vals[k]).value)
  {
    RebuildFromSpec(o, f, 0, Empty());
    assert o.keys[..|o.keys|] == o.keys;
  }
}
