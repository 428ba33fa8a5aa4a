/**
  A Python `dict` with string keys: a map together with the order in which
  its keys were first inserted. Assigning to a key that is already present
  replaces its value and keeps its position; a new key goes to the end.
 */
module OrderedDict {

  type Name = string

  /** No name is listed twice. */
  ghost predicate Distinct(names: seq<Name>) {
    forall i, j :: 0 <= i < j < |names| ==> names[i] != names[j]
  }

  /**
    The listed keys are the keys of the map, as if entered one at a time:
    the last key has a value, and the others list the map without it.
   */
  ghost predicate Entries<V>(keys: seq<Name>, vals: map<Name, V>)
    decreases |keys|
  {
    if keys == [] then vals == map[]
    else
      var last := keys[|keys| - 1];
      last in vals && Entries(keys[..|keys| - 1], vals - {last})
  }

  datatype Dict<V> = Dict(keys: seq<Name>, vals: map<Name, V>) {

    /** Exactly the keys of the map are listed (`Members`), each once (`KeysDistinct`). */
    ghost predicate Valid() {
      Entries(keys, vals)
    }
  }

  function Empty<V>(): (d: Dict<V>)
    ensures d.Valid() && d.keys == [] && d.vals == map[]
  {
    Dict([], map[])
  }

  /** `d[k] = v` */
  function Set<V>(d: Dict<V>, k: Name, v: V): (r: Dict<V>)
    requires d.Valid()
    ensures r.Valid()
    ensures r.vals == d.vals[k := v]
    ensures k in d.vals ==> r.keys == d.keys
    ensures k !in d.vals ==> r.keys == d.keys + [k]
  {
    if k in d.vals then
      EntriesUpdate(d.keys, d.vals, k, v);
      Dict(d.keys, d.vals[k := v])
    else
      assert (d.keys + [k])[..|d.keys|] == d.keys;
      assert d.vals[k := v] - {k} == d.vals;
      Dict(d.keys + [k], d.vals[k := v])
  }

  /** The value of the entry at position `i`. */
  function ValueAt<V>(d: Dict<V>, i: nat): (v: V)
    requires d.Valid() && i < |d.keys|
    ensures d.keys[i] in d.vals && v == d.vals[d.keys[i]]
  {
    Members(d);
    d.vals[d.keys[i]]
  }

  /** `list(d.values())`: the values in key order. */
  function Values<V>(d: Dict<V>): (s: seq<V>)
    requires d.Valid()
    ensures |s| == |d.keys|
    ensures forall i :: 0 <= i < |d.keys| ==> d.keys[i] in d.vals && s[i] == d.vals[d.keys[i]]
  {
    Members(d);
    seq(|d.keys|, i requires 0 <= i < |d.keys| => d.vals[d.keys[i]])
  }

  /** `values()` holds exactly the values stored under some key. */
  lemma ValuesMembers<V>(d: Dict<V>)
    requires d.Valid()
    ensures forall v :: v in Values(d) <==> exists k :: k in d.vals && d.vals[k] == v
  {
    Members(d);
    var vs := Values(d);
    forall v | v in vs
      ensures exists k :: k in d.vals && d.vals[k] == v
    {
      var i :| 0 <= i < |vs| && vs[i] == v;
      assert d.vals[d.keys[i]] == v;
    }
    forall v | exists k :: k in d.vals && d.vals[k] == v
      ensures v in vs
    {
      var k :| k in d.vals && d.vals[k] == v;
      var i :| 0 <= i < |d.keys| && d.keys[i] == k;
      assert vs[i] == v;
    }
  }

  /** Replacing the value of a listed key keeps the listing. */
  lemma {:induction false} EntriesUpdate<V>(keys: seq<Name>, vals: map<Name, V>, k: Name, v: V)
    requires Entries(keys, vals) && k in vals
    ensures Entries(keys, vals[k := v])
    decreases |keys|
  {
    var last := keys[|keys| - 1];
    if last == k {
      assert vals[k := v] - {last} == vals - {last};
    } else {
      EntriesUpdate(keys[..|keys| - 1], vals - {last}, k, v);
      assert vals[k := v] - {last} == (vals - {last})[k := v];
    }
  }

  /** A name has a value exactly when it is listed. */
  lemma {:induction false} EntriesMembers<V>(keys: seq<Name>, vals: map<Name, V>)
    requires Entries(keys, vals)
    ensures forall k :: k in vals <==> k in keys
    decreases |keys|
  {
    if keys != [] {
      var init, last := keys[..|keys| - 1], keys[|keys| - 1];
      EntriesMembers(init, vals - {last});
      assert keys == init + [last];
    }
  }

  lemma Members<V>(d: Dict<V>)
    requires d.Valid()
    ensures forall k :: k in d.vals <==> k in d.keys
  {
    EntriesMembers(d.keys, d.vals);
  }

  /** Appending a name keeps a list distinct exactly when the name is new. */
  lemma DistinctSnoc(init: seq<Name>, last: Name)
    ensures Distinct(init + [last]) <==> Distinct(init) && last !in init
  {
    var names := init + [last];
    if Distinct(names) {
      forall i, j | 0 <= i < j < |init|
        ensures init[i] != init[j]
      {
        assert names[i] == init[i] && names[j] == init[j];
      }
      forall j | 0 <= j < |init|
        ensures init[j] != last
      {
        assert names[j] == init[j] && names[|init|] == last;
      }
    }
    if Distinct(init) && last !in init {
      forall i, j | 0 <= i < j < |names|
        ensures names[i] != names[j]
      {
        assert names[i] == init[i];
      }
    }
  }

  /** Listed keys are distinct. */
  lemma {:induction false} EntriesDistinct<V>(keys: seq<Name>, vals: map<Name, V>)
    requires Entries(keys, vals)
    ensures Distinct(keys)
    decreases |keys|
  {
    if keys != [] {
      var init, last := keys[..|keys| - 1], keys[|keys| - 1];
      EntriesDistinct(init, vals - {last});
      EntriesMembers(init, vals - {last});
      assert keys == init + [last];
      DistinctSnoc(init, last);
    }
  }

  /** The keys of a dict are distinct. */
  lemma KeysDistinct<V>(d: Dict<V>)
    requires d.Valid()
    ensures Distinct(d.keys)
  {
    EntriesDistinct(d.keys, d.vals);
  }

  /** Distinct names, with a value for exactly those names, make a dict. */
  lemma {:induction false} FromDistinct<V>(d: Dict<V>)
    requires Distinct(d.keys)
    requires forall k :: k in d.vals <==> k in d.keys
    ensures d.Valid()
    decreases |d.keys|
  {
    if d.keys != [] {
      var init, last := d.keys[..|d.keys| - 1], d.keys[|d.keys| - 1];
      assert d.keys == init + [last];
      DistinctSnoc(init, last);
      FromDistinct(Dict(init, d.vals - {last}));
    }
  }

}
