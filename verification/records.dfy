/** Records as the pipeline sees them: a Python `dict` from field name to a
    scalar value. A dict remembers insertion order and never holds a key
    twice, so a record is an association list whose keys are distinct. */
module Records {
  import opened Fallible

  /** A scalar field value: text as read, a number (a reader may infer a
      numeric column, and the conversions produce numbers), or `None`
      (an XML element without text). */
  datatype Value = Text(text: string) | Number(number: real) | Null

  type Field = (string, Value)

  predicate NoDuplicates(ks: seq<string>) {
    forall i, j :: 0 <= i < j < |ks| ==> ks[i] != ks[j]
  }

  /** The field names of `fs`, in order (Python's `d.keys()`). */
  function Keys(fs: seq<Field>): (ks: seq<string>)
    ensures |ks| == |fs|
    ensures forall i :: 0 <= i < |fs| ==> ks[i] == fs[i].0
  {
    if fs == [] then [] else [fs[0].0] + Keys(fs[1..])
  }

  predicate DistinctKeys(fs: seq<Field>) {
    NoDuplicates(Keys(fs))
  }

  /** An insertion-ordered dict. */
  type Record = fs: seq<Field> | DistinctKeys(fs) witness []

  /** Python's `d.get(k)`. */
  function Lookup(fs: seq<Field>, k: string): Option<Value>
  {
    if fs == [] then None
    else if fs[0].0 == k then Some(fs[0].1)
    else Lookup(fs[1..], k)
  }

  lemma KeysAppend(fs: seq<Field>, f: Field)
    ensures Keys(fs + [f]) == Keys(fs) + [f.0]
  {
  }

  /** Assignment to a key of a field list: replace the value of the first
      field with that key where it stands, or append a new field. */
  function Assign(fs: seq<Field>, k: string, v: Value): seq<Field> {
    if fs == [] then [(k, v)]
    else if fs[0].0 == k then [(k, v)] + fs[1..]
    else [fs[0]] + Assign(fs[1..], k, v)
  }

  lemma {:induction false} AssignKeys(fs: seq<Field>, k: string, v: Value)
    ensures Keys(Assign(fs, k, v)) == if k in Keys(fs) then Keys(fs) else Keys(fs) + [k]
  {
    if fs != [] {
      AssignKeys(fs[1..], k, v);
      assert Keys(fs) == [fs[0].0] + Keys(fs[1..]);
      if fs[0].0 == k {
        assert ([(k, v)] + fs[1..])[1..] == fs[1..];
      } else {
        var a := Assign(fs[1..], k, v);
        assert ([fs[0]] + a)[1..] == a;
      }
    }
  }

  lemma {:induction false} AssignLookup(fs: seq<Field>, k: string, v: Value)
    ensures forall k' :: Lookup(Assign(fs, k, v), k') == if k' == k then Some(v) else Lookup(fs, k')
  {
    if fs != [] {
      AssignLookup(fs[1..], k, v);
      if fs[0].0 == k {
        assert ([(k, v)] + fs[1..])[1..] == fs[1..];
      } else {
        var a := Assign(fs[1..], k, v);
        assert ([fs[0]] + a)[1..] == a;
      }
    }
  }

  lemma NoDuplicatesAppend(ks: seq<string>, k: string)
    requires NoDuplicates(ks) && k !in ks
    ensures NoDuplicates(ks + [k])
  {
  }

  /** Python's `d[k] = v`: a key already present keeps its position and
      takes the new value; a new key is appended at the end. */
  function Put(r: Record, k: string, v: Value): (r': Record)
    ensures Keys(r') == if k in Keys(r) then Keys(r) else Keys(r) + [k]
    ensures Lookup(r', k) == Some(v)
    ensures forall k' :: k' != k ==> Lookup(r', k') == Lookup(r, k')
  {
    AssignKeys(r, k, v);
    AssignLookup(r, k, v);
    if k !in Keys(r) then NoDuplicatesAppend(Keys(r), k); Assign(r, k, v)
    else Assign(r, k, v)
  }

  /** Putting a key that is not yet present appends it. */
  lemma {:induction false} AssignNew(r: seq<Field>, k: string, v: Value)
    requires k !in Keys(r)
    ensures Assign(r, k, v) == r + [(k, v)]
  {
    if r != [] {
      assert Keys(r) == [r[0].0] + Keys(r[1..]);
      assert Assign(r, k, v) == [r[0]] + Assign(r[1..], k, v);
      AssignNew(r[1..], k, v);
      assert [r[0]] + (r[1..] + [(k, v)]) == r + [(k, v)];
    }
  }

  /** Python's dict comprehension `{k: v for (k, v) in ps}`: the pairs are
      put one after another, left to right. */
  function FromPairs(ps: seq<Field>): Record
  {
    if ps == [] then []
    else
      var last := ps[|ps| - 1];
      Put(FromPairs(ps[..|ps| - 1]), last.0, last.1)
  }

  /** `v` is the value of the last pair in `ps` whose key is `k`. */
  ghost predicate IsLastValue(ps: seq<Field>, k: string, v: Value) {
    exists j :: 0 <= j < |ps| && ps[j] == (k, v) && forall j' :: j < j' < |ps| ==> ps[j'].0 != k
  }

  /** The comprehension keeps every key of the pairs and no other. */
  lemma {:induction false} FromPairsKeys(ps: seq<Field>, k: string)
    ensures k in Keys(FromPairs(ps)) <==> k in Keys(ps)
  {
    if ps != [] {
      var p := ps[..|ps| - 1];
      var last := ps[|ps| - 1];
      assert ps == p + [last];
      KeysAppend(p, last);
      FromPairsKeys(p, k);
    }
  }

  /** A key given more than once keeps the value of its last occurrence. */
  lemma {:induction false} FromPairsLookup(ps: seq<Field>, k: string, v: Value)
    ensures Lookup(FromPairs(ps), k) == Some(v) <==> IsLastValue(ps, k, v)
  {
    if ps != [] {
      var p := ps[..|ps| - 1];
      var last := ps[|ps| - 1];
      FromPairsLookup(p, k, v);
      if last.0 == k {
        LastValueAtEnd(ps, k, v);
      } else {
        LastValueSkip(ps, k, v);
      }
    }
  }

  lemma LastValueAtEnd(ps: seq<Field>, k: string, v: Value)
    requires ps != [] && ps[|ps| - 1].0 == k
    ensures IsLastValue(ps, k, v) <==> ps[|ps| - 1].1 == v
  {
  }

  lemma LastValueSkip(ps: seq<Field>, k: string, v: Value)
    requires ps != [] && ps[|ps| - 1].0 != k
    ensures IsLastValue(ps, k, v) <==> IsLastValue(ps[..|ps| - 1], k, v)
  {
    var p := ps[..|ps| - 1];
    if IsLastValue(p, k, v) {
      var j :| 0 <= j < |p| && p[j] == (k, v) && forall j' :: j < j' < |p| ==> p[j'].0 != k;
      LastAt(ps, k, v, j);
    }
    if IsLastValue(ps, k, v) {
      var j :| 0 <= j < |ps| && ps[j] == (k, v) && forall j' :: j < j' < |ps| ==> ps[j'].0 != k;
      LastAt(p, k, v, j);
    }
  }

  lemma LastAt(ps: seq<Field>, k: string, v: Value, j: int)
    requires 0 <= j < |ps| && ps[j] == (k, v) && forall j' :: j < j' < |ps| ==> ps[j'].0 != k
    ensures IsLastValue(ps, k, v)
  {
  }

  /** `ks` with every repeat of an earlier element removed: each element
      once, at the place where it first occurs. */
  function FirstOccurrences(ks: seq<string>): seq<string> {
    if ks == [] then []
    else
      var init := ks[..|ks| - 1];
      if ks[|ks| - 1] in init then FirstOccurrences(init)
      else FirstOccurrences(init) + [ks[|ks| - 1]]
  }

  /** The first occurrences are the same elements, each once. */
  lemma {:induction false} FirstOccurrencesMembers(ks: seq<string>)
    ensures forall k :: k in FirstOccurrences(ks) <==> k in ks
    ensures NoDuplicates(FirstOccurrences(ks))
  {
    if ks != [] {
      var init := ks[..|ks| - 1];
      FirstOccurrencesMembers(init);
      assert ks == init + [ks[|ks| - 1]];
    }
  }

  /** The fields of a comprehension are in the order in which their keys
      first occur among the pairs: a key given again later takes the new
      value but keeps its first place. */
  lemma {:induction false} FromPairsOrder(ps: seq<Field>)
    ensures Keys(FromPairs(ps)) == FirstOccurrences(Keys(ps))
  {
    if ps != [] {
      var p := ps[..|ps| - 1];
      var last := ps[|ps| - 1];
      assert ps == p + [last];
      KeysAppend(p, last);
      FromPairsOrder(p);
      FirstOccurrencesMembers(Keys(p));
      assert Keys(ps)[..|ps| - 1] == Keys(p);
    }
  }

  /** `{a: 1, b: 2, a: 3}` is `{a: 3, b: 2}`. */
  lemma FromPairsRepeatExample()
    ensures FromPairs([("a", Text("1")), ("b", Text("2")), ("a", Text("3"))])
              == [("a", Text("3")), ("b", Text("2"))]
  {
    var ps := [("a", Text("1")), ("b", Text("2")), ("a", Text("3"))];
    assert ps[..2][..1] == [("a", Text("1"))];
    assert FromPairs([("a", Text("1"))]) == [("a", Text("1"))];
    assert FromPairs(ps[..2]) == [("a", Text("1")), ("b", Text("2"))];
  }

  /** When no key repeats, the comprehension returns the pairs themselves,
      in their order. */
  lemma {:induction false} FromPairsDistinct(ps: seq<Field>)
    requires DistinctKeys(ps)
    ensures FromPairs(ps) == ps
  {
    if ps != [] {
      var p := ps[..|ps| - 1];
      var last := ps[|ps| - 1];
      assert ps == p + [last];
      FromPairsDistinct(p);
      KeysAppend(p, last);
      assert last.0 !in Keys(p);
      AssignNew(p, last.0, last.1);
    }
  }
}
