/** Python values as YAML, JSON and the news-record dicts hold them, and the
    few built-in operations on them the parsers and the configuration loader use. */
module PyValues {
  import opened Wrappers
  import opened Text

  /** A Python value. A dict is kept as its insertion-ordered list of entries
      with string keys, as Python dicts iterate in insertion order. */
  datatype Py =
    | PyNone
    | PyBool(b: bool)
    | PyInt(i: int)
    | PyStr(s: string)
    | PyList(items: seq<Py>)
    | PyDict(entries: seq<(string, Py)>)

  /** The exceptions the modelled code raises or lets escape. */
  datatype PyError =
    | ValueError(detail: string)
    | KeyError(key: string)
    | TypeError
    | AttributeError(name: string)
    | NotImplementedError
    | UnknownTimeZoneError
    | RuntimeError(detail: string)

  /** Python truthiness (`bool(v)`). */
  predicate Truthy(v: Py) {
    match v
    case PyNone => false
    case PyBool(b) => b
    case PyInt(i) => i != 0
    case PyStr(s) => s != []
    case PyList(items) => items != []
    case PyDict(entries) => entries != []
  }

  /** The keys of a dict, in insertion order (`list(d)`). */
  function Keys<V>(entries: seq<(string, V)>): (ks: seq<string>)
    ensures |ks| == |entries|
    ensures forall i :: 0 <= i < |ks| ==> ks[i] == entries[i].0
  {
    seq(|entries|, i requires 0 <= i < |entries| => entries[i].0)
  }

  /** The value stored under `k`, if any. */
  function Lookup<V>(entries: seq<(string, V)>, k: string): (r: Option<V>)
    ensures r.None? <==> k !in Keys(entries)
    ensures r.Some? ==> (k, r.value) in entries
  {
    if entries == [] then None
    else if entries[0].0 == k then Some(entries[0].1)
    else Lookup(entries[1..], k)
  }

  /** `d[k] = v`: an existing key keeps its position, a new key goes last. */
  function Assign<V>(entries: seq<(string, V)>, k: string, v: V): seq<(string, V)> {
    if entries == [] then [(k, v)]
    else if entries[0].0 == k then [(k, v)] + entries[1..]
    else [entries[0]] + Assign(entries[1..], k, v)
  }

  /** Assigning keeps the key order and appends a new key at the end. */
  lemma AssignKeys<V>(entries: seq<(string, V)>, k: string, v: V)
    ensures Keys(Assign(entries, k, v)) == if k in Keys(entries) then Keys(entries) else Keys(entries) + [k]
  {
    if k in Keys(entries) {
      AssignKnownKey(entries, k, v);
    } else {
      AssignNew(entries, k, v);
      assert Keys(entries + [(k, v)]) == Keys(entries) + [k];
    }
  }

  /** Assigning a key that is already there keeps the keys as they are. */
  lemma {:induction false} AssignKnownKey<V>(entries: seq<(string, V)>, k: string, v: V)
    requires k in Keys(entries)
    ensures Keys(Assign(entries, k, v)) == Keys(entries)
  {
    var first := entries[0];
    var rest := entries[1..];
    assert entries == [first] + rest;
    KeysCons(first, rest);
    if first.0 == k {
      KeysCons((k, v), rest);
    } else {
      assert k in Keys(rest);
      AssignKnownKey(rest, k, v);
      KeysCons(first, Assign(rest, k, v));
    }
  }

  /** The keys of a dict with one more entry in front. */
  lemma KeysCons<V>(first: (string, V), rest: seq<(string, V)>)
    ensures Keys([first] + rest) == [first.0] + Keys(rest)
  {
    assert forall i :: 0 < i <= |rest| ==> ([first] + rest)[i] == rest[i - 1];
  }

  /** After `d[k] = v`, `d[k]` is `v` and every other key reads as before. */
  lemma {:induction false} AssignLookup<V>(entries: seq<(string, V)>, k: string, v: V, k': string)
    ensures Lookup(Assign(entries, k, v), k') == if k' == k then Some(v) else Lookup(entries, k')
  {
    if entries != [] && entries[0].0 != k {
      AssignLookup(entries[1..], k, v, k');
      var r := Assign(entries, k, v);
      assert r[1..] == Assign(entries[1..], k, v);
    }
  }

  /** Python dict keys are distinct. */
  predicate DistinctKeys<V>(items: seq<(string, V)>) {
    forall i, j :: 0 <= i < j < |items| ==> items[i].0 != items[j].0
  }

  /** Assigning to the first entry with key `entries[i].0` replaces its value in place. */
  lemma {:induction false} AssignAt<V>(entries: seq<(string, V)>, i: nat, v: V)
    requires i < |entries| && forall j :: 0 <= j < i ==> entries[j].0 != entries[i].0
    ensures Assign(entries, entries[i].0, v) == entries[i := (entries[i].0, v)]
  {
    var k := entries[i].0;
    if i > 0 {
      var rest := entries[1..];
      assert rest[i - 1] == entries[i];
      AssignAt(rest, i - 1, v);
      assert Assign(entries, k, v) == [entries[0]] + rest[i - 1 := (k, v)];
      assert entries[i := (k, v)] == [entries[0]] + rest[i - 1 := (k, v)];
    }
  }

  /** Assigning a new key appends it. */
  lemma {:induction false} AssignNew<V>(entries: seq<(string, V)>, k: string, v: V)
    requires k !in Keys(entries)
    ensures Assign(entries, k, v) == entries + [(k, v)]
  {
    if entries != [] {
      assert Keys(entries)[1..] == Keys(entries[1..]);
      AssignNew(entries[1..], k, v);
      assert entries == [entries[0]] + entries[1..];
    }
  }

  /** `d.update(pairs)`: the pairs assigned one after the other. */
  function Update<V>(entries: seq<(string, V)>, pairs: seq<(string, V)>): seq<(string, V)>
    decreases |pairs|
  {
    if pairs == [] then entries
    else Update(Assign(entries, pairs[0].0, pairs[0].1), pairs[1..])
  }

  /** Updating with two lists of pairs is updating with one, then the other. */
  lemma {:induction false} UpdateAppend<V>(entries: seq<(string, V)>, a: seq<(string, V)>, b: seq<(string, V)>)
    ensures Update(entries, a + b) == Update(Update(entries, a), b)
    decreases |a|
  {
    if a == [] {
      assert a + b == b;
    } else {
      assert (a + b)[0] == a[0] && (a + b)[1..] == a[1..] + b;
      UpdateAppend(Assign(entries, a[0].0, a[0].1), a[1..], b);
    }
  }

  /** Updating only keys already present keeps the key order. */
  lemma {:induction false} UpdateKnownKeys<V>(entries: seq<(string, V)>, pairs: seq<(string, V)>)
    requires forall i :: 0 <= i < |pairs| ==> pairs[i].0 in Keys(entries)
    ensures Keys(Update(entries, pairs)) == Keys(entries)
    decreases |pairs|
  {
    if pairs != [] {
      var next := Assign(entries, pairs[0].0, pairs[0].1);
      AssignKeys(entries, pairs[0].0, pairs[0].1);
      UpdateKnownKeys(next, pairs[1..]);
    }
  }

  /** Updating with known keys around one new key appends just that key. */
  lemma UpdateOneNewKey<V>(entries: seq<(string, V)>, a: seq<(string, V)>, p: (string, V), b: seq<(string, V)>)
    requires forall i :: 0 <= i < |a| ==> a[i].0 in Keys(entries)
    requires p.0 !in Keys(entries)
    requires forall i :: 0 <= i < |b| ==> b[i].0 in Keys(entries) || b[i].0 == p.0
    ensures Keys(Update(entries, a + [p] + b)) == Keys(entries) + [p.0]
  {
    UpdateAppend(entries, a + [p], b);
    UpdateAppend(entries, a, [p]);
    UpdateKnownKeys(entries, a);
    var ea := Update(entries, a);
    assert Update(ea, [p]) == Assign(ea, p.0, p.1);
    AssignKeys(ea, p.0, p.1);
    UpdateKnownKeys(Assign(ea, p.0, p.1), b);
  }

  /** After an update with distinct keys, each key reads as the pair that
      names it, and every other key as before. */
  lemma {:induction false} UpdateLookup<V>(entries: seq<(string, V)>, pairs: seq<(string, V)>, k: string)
    requires DistinctKeys(pairs)
    ensures Lookup(Update(entries, pairs), k) == if k in Keys(pairs) then Lookup(pairs, k) else Lookup(entries, k)
    decreases |pairs|
  {
    if pairs != [] {
      var next := Assign(entries, pairs[0].0, pairs[0].1);
      AssignLookup(entries, pairs[0].0, pairs[0].1, k);
      DistinctTail(pairs);
      UpdateLookup(next, pairs[1..], k);
      assert pairs == [pairs[0]] + pairs[1..];
      KeysCons(pairs[0], pairs[1..]);
    }
  }

  /** Behind the first entry of a dict with distinct keys, the keys stay
      distinct and the first key does not come back. */
  lemma DistinctTail<V>(pairs: seq<(string, V)>)
    requires DistinctKeys(pairs) && pairs != []
    ensures DistinctKeys(pairs[1..]) && pairs[0].0 !in Keys(pairs[1..])
  {
    var rest := pairs[1..];
    forall i | 0 <= i < |rest| ensures Keys(rest)[i] != pairs[0].0 {
      assert rest[i] == pairs[i + 1];
    }
  }

  /** With distinct keys, the key at position `i` reads as that entry's value. */
  lemma {:induction false} LookupDistinct<V>(entries: seq<(string, V)>, i: nat)
    requires DistinctKeys(entries) && i < |entries|
    ensures Lookup(entries, entries[i].0) == Some(entries[i].1)
  {
    if i > 0 {
      assert entries[1..][i - 1] == entries[i];
      LookupDistinct(entries[1..], i - 1);
    }
  }

  /** After an update with distinct keys, each updated key reads as its new value. */
  lemma UpdateLookupAt<V>(entries: seq<(string, V)>, pairs: seq<(string, V)>, i: nat)
    requires DistinctKeys(pairs) && i < |pairs|
    ensures Lookup(Update(entries, pairs), pairs[i].0) == Some(pairs[i].1)
  {
    UpdateLookup(entries, pairs, pairs[i].0);
    LookupDistinct(pairs, i);
    assert Keys(pairs)[i] == pairs[i].0;
  }

  /** Python's `k in container` for a string `k`: key membership for a dict,
      substring for a string, element equality for a list; other types raise. */
  function In(k: string, container: Py): (r: Result<bool, PyError>)
    ensures r.Err? <==> !(container.PyDict? || container.PyStr? || container.PyList?)
  {
    match container
    case PyDict(entries) => Ok(k in Keys(entries))
    case PyStr(s) => Ok(Contains(s, k))
    case PyList(items) => Ok(PyStr(k) in items)
    case _ => Err(TypeError)
  }

  /** Python's `container[k]` for a string `k`. Only a dict holding `k` answers;
      a dict without it raises KeyError, a str or list (integer indices) or a
      scalar (not subscriptable) raises TypeError. */
  function Index(container: Py, k: string): (r: Result<Py, PyError>)
    ensures r.Ok? <==> container.PyDict? && k in Keys(container.entries)
    ensures r.Ok? ==> (k, r.value) in container.entries
    ensures r.Err? && container.PyDict? ==> r.error == KeyError(k)
  {
    match container
    case PyDict(entries) =>
      (match Lookup(entries, k)
       case Some(v) => Ok(v)
       case None => Err(KeyError(k)))
    case _ => Err(TypeError)
  }

  /** Python's `s[:bound]`: `None` keeps everything, an int (a bool counts as
      0 or 1) cuts as Python slices do, counting from the end when negative;
      any other bound raises TypeError. */
  function SliceTo<T>(s: seq<T>, bound: Py): (r: Result<seq<T>, PyError>)
    ensures r.Ok? <==> (bound.PyNone? || bound.PyInt? || bound.PyBool?)
    ensures r.Ok? ==> |r.value| <= |s| && r.value == s[..|r.value|]
    ensures bound.PyNone? ==> r == Ok(s)
    ensures bound.PyInt? && bound.i >= 0 ==> r.Ok? && |r.value| == if bound.i < |s| then bound.i else |s|
    ensures bound.PyInt? && bound.i < 0 ==> r.Ok? && |r.value| == if |s| + bound.i > 0 then |s| + bound.i else 0
  {
    match bound
    case PyNone => Ok(s)
    case PyBool(b) => Ok(if b && |s| > 0 then s[..1] else [])
    case PyInt(n) =>
      if n >= 0 then Ok(if n < |s| then s[..n] else s)
      else Ok(if |s| + n > 0 then s[..|s| + n] else [])
    case _ => Err(TypeError)
  }
}
