/**
 * A plain JavaScript object used as a `Record<string, boolean>`. Its date keys
 * are not array indices, so `Object.entries` lists them in insertion order;
 * `obj[key] = value` overwrites an existing key in place and appends a new one.
 */
module Records {

  type Entries = seq<(string, bool)>

  function Keys(r: Entries): (ks: seq<string>)
    ensures |ks| == |r| && forall i :: 0 <= i < |r| ==> ks[i] == r[i].0
  {
    if r == [] then [] else [r[0].0] + Keys(r[1..])
  }

  predicate Distinct(ks: seq<string>) {
    forall i, j :: 0 <= i < j < |ks| ==> ks[i] != ks[j]
  }

  /** A JavaScript object never holds the same key twice. */
  predicate DistinctKeys(r: Entries) {
    Distinct(Keys(r))
  }

  /** `obj[key] = value`: the key keeps its place when present, else goes last. */
  function Assign(r: Entries, key: string, value: bool): Entries
  {
    if r == [] then [(key, value)]
    else if r[0].0 == key then [(key, value)] + r[1..]
    else [r[0]] + Assign(r[1..], key, value)
  }

  /** The object viewed as a finite map from keys to values. */
  function AsMap(r: Entries): map<string, bool>
  {
    if r == [] then map[] else AsMap(r[1..])[r[0].0 := r[0].1]
  }

  /** A key is among the keys exactly when it is among those before the last entry or is the last entry's. */
  lemma {:induction false} KeyInSnoc(r: Entries, key: string)
    requires r != []
    ensures key in Keys(r) <==> key in Keys(r[..|r| - 1]) || key == r[|r| - 1].0
  {
    if |r| > 1 {
      var init := r[..|r| - 1];
      KeyInSnoc(r[1..], key);
      assert r[1..][..|r| - 2] == init[1..];
      assert Keys(init) == [r[0].0] + Keys(init[1..]);
    }
  }

  /** The map view has exactly the object's keys. */
  lemma {:induction false} AsMapKeys(r: Entries, key: string)
    ensures key in AsMap(r) <==> key in Keys(r)
  {
    if r != [] {
      AsMapKeys(r[1..], key);
    }
  }

  /** In an object with distinct keys, each entry is what the map holds for its key. */
  lemma {:induction false} AsMapAt(r: Entries, i: int)
    requires DistinctKeys(r) && 0 <= i < |r|
    ensures r[i].0 in AsMap(r) && AsMap(r)[r[i].0] == r[i].1
  {
    if i > 0 {
      assert Keys(r[1..]) == Keys(r)[1..];
      AsMapAt(r[1..], i - 1);
      assert r[0].0 != r[i].0 by { assert Keys(r)[0] != Keys(r)[i]; }
    }
  }

  /** A prefix of an object's entries has distinct keys too. */
  lemma DistinctKeysPrefix(r: Entries, n: int)
    requires DistinctKeys(r) && 0 <= n <= |r|
    ensures DistinctKeys(r[..n])
  {
    forall i, j | 0 <= i < j < n ensures Keys(r[..n])[i] != Keys(r[..n])[j] {
      assert Keys(r)[i] != Keys(r)[j];
    }
  }

  /** Assignment keeps existing keys in place and appends a new key last. */
  lemma {:induction false} AssignKeys(r: Entries, key: string, value: bool)
    ensures Keys(Assign(r, key, value)) == if key in Keys(r) then Keys(r) else Keys(r) + [key]
  {
    if r != [] && r[0].0 != key {
      AssignKeys(r[1..], key, value);
      assert Keys(r) == [r[0].0] + Keys(r[1..]);
      assert ([r[0]] + Assign(r[1..], key, value))[1..] == Assign(r[1..], key, value);
    } else if r != [] {
      assert ([(key, value)] + r[1..])[1..] == r[1..];
    }
  }

  /** Assigning a key the object does not hold appends it. */
  lemma {:induction false} AssignAbsent(r: Entries, key: string, value: bool)
    requires key !in Keys(r)
    ensures Assign(r, key, value) == r + [(key, value)]
  {
    if r != [] {
      assert Keys(r)[0] == r[0].0 && Keys(r)[1..] == Keys(r[1..]);
      assert Assign(r, key, value) == [r[0]] + Assign(r[1..], key, value);
      AssignAbsent(r[1..], key, value);
      assert [r[0]] + (r[1..] + [(key, value)]) == r + [(key, value)];
    }
  }

  /** Assignment keeps the keys of the object distinct. */
  lemma AssignDistinct(r: Entries, key: string, value: bool)
    requires DistinctKeys(r)
    ensures DistinctKeys(Assign(r, key, value))
  {
    AssignKeys(r, key, value);
  }

  /** Assignment changes the map view at `key` only. */
  lemma {:induction false} AssignMap(r: Entries, key: string, value: bool)
    ensures AsMap(Assign(r, key, value)) == AsMap(r)[key := value]
  {
    if r == [] {
    } else if r[0].0 == key {
      assert ([(key, value)] + r[1..])[1..] == r[1..];
    } else {
      AssignMap(r[1..], key, value);
      assert ([r[0]] + Assign(r[1..], key, value))[1..] == Assign(r[1..], key, value);
    }
  }

  /** The JavaScript object itself, a reference that can be shared and rebound. */
  class Record {
    var entries: Entries

    /** `{}` */
    constructor ()
      ensures entries == []
    {
      entries := [];
    }

    /** `this[key] = value` */
    method Put(key: string, value: bool)
      modifies this
      ensures entries == Assign(old(entries), key, value)
    {
      entries := Assign(entries, key, value);
    }
  }
}
