/**
 * The insertion-ordered `Map` from signature to entry that a scan fills
 * (`userMap`). JavaScript's `Map` remembers the order in which keys were
 * first set; updating an existing key keeps its place. The class below keeps
 * that order in `keys` and the stored entries in `values`; `Table` is the
 * same pair as a value, and `Put` is `Map.prototype.set` on it.
 */
module UserMaps {
  import opened Text
  import opened EntryExtractor

  /** The keys in insertion order, with the entry stored under each. */
  datatype Table = Table(keys: seq<String>, values: map<String, Entry>)

  /** Every key is listed exactly once, and the listed keys are the stored ones. */
  ghost predicate WellFormed(t: Table)
  {
    (forall i, j :: 0 <= i < j < |t.keys| ==> t.keys[i] != t.keys[j])
    && (forall k :: k in t.values <==> k in t.keys)
  }

  const EMPTY: Table := Table([], map[])

  /** `map.set(key, e)`: a new key goes to the end; an existing key keeps its place and gets the new entry. */
  function Put(t: Table, key: String, e: Entry): Table
  {
    Table(if key in t.values then t.keys else t.keys + [key], t.values[key := e])
  }

  /** The entries listed by key order. */
  function InOrder(keys: seq<String>, values: map<String, Entry>): (r: seq<Entry>)
    requires forall k :: k in keys ==> k in values
    ensures |r| == |keys|
  {
    if keys == [] then [] else [values[keys[0]]] + InOrder(keys[1..], values)
  }

  /** `Array.from(map.values())`: the stored entries in insertion order. */
  function ValuesOf(t: Table): (r: seq<Entry>)
    requires forall k :: k in t.keys ==> k in t.values
    ensures |r| == |t.keys|
  {
    InOrder(t.keys, t.values)
  }

  /** The `i`-th listed entry is the one stored under the `i`-th key. */
  lemma {:induction false} InOrderAt(keys: seq<String>, values: map<String, Entry>, i: nat)
    requires forall k :: k in keys ==> k in values
    requires i < |keys|
    ensures InOrder(keys, values)[i] == values[keys[i]]
  {
    if i > 0 {
      assert forall k :: k in keys[1..] ==> k in keys;
      InOrderAt(keys[1..], values, i - 1);
    }
  }

  /** `set` keeps a well-formed table well-formed. */
  lemma PutKeepsWellFormed(t: Table, key: String, e: Entry)
    requires WellFormed(t)
    ensures WellFormed(Put(t, key, e))
  {
    var r := Put(t, key, e);
    if key !in t.values {
      forall i, j | 0 <= i < j < |r.keys| ensures r.keys[i] != r.keys[j] {
        if j == |t.keys| {
          assert r.keys[i] == t.keys[i];
          assert r.keys[i] in t.values;
        }
      }
    }
  }

  /**
   * After `set`, the key holds the new entry, every other key keeps its entry,
   * and the size grows by one exactly when the key was new.
   */
  lemma PutSemantics(t: Table, key: String, e: Entry)
    requires WellFormed(t)
    ensures var r := Put(t, key, e);
      && key in r.values && r.values[key] == e
      && (forall k :: k in t.values && k != key ==> k in r.values && r.values[k] == t.values[k])
      && |r.keys| == |t.keys| + (if key in t.values then 0 else 1)
      && t.keys <= r.keys
  {
  }

  /** In a well-formed table the number of listed keys is the number of stored entries (`map.size`). */
  lemma {:induction false} SizeIsEntryCount(t: Table)
    requires WellFormed(t)
    ensures |t.values.Keys| == |t.keys|
  {
    DistinctKeysCount(t.keys);
    assert t.values.Keys == set k | k in t.keys;
  }

  lemma {:induction false} DistinctKeysCount(keys: seq<String>)
    requires forall i, j :: 0 <= i < j < |keys| ==> keys[i] != keys[j]
    ensures |set k | k in keys| == |keys|
  {
    if keys != [] {
      var init := keys[..|keys| - 1];
      var last := keys[|keys| - 1];
      DistinctKeysCount(init);
      assert (set k | k in keys) == (set k | k in init) + {last} by {
        assert keys == init + [last];
      }
      assert last !in init by {
        forall i | 0 <= i < |init| ensures init[i] != last {
          assert init[i] == keys[i];
        }
      }
    }
  }

  /** The scan's `userMap`. */
  class UserMap {
    var keys: seq<String>
    var values: map<String, Entry>

    function Contents(): Table
      reads this
    {
      Table(keys, values)
    }

    ghost predicate Valid()
      reads this
    {
      WellFormed(Contents())
    }

    /** `new Map()`. */
    constructor()
      ensures Valid() && Contents() == EMPTY
    {
      keys := [];
      values := map[];
    }

    /** `map.has(key)`. */
    predicate Has(key: String)
      reads this
    {
      key in values
    }

    /** `map.size`. */
    function Size(): nat
      reads this
    {
      |keys|
    }

    /** `map.set(key, e)`. */
    method Set(key: String, e: Entry)
      requires Valid()
      modifies this
      ensures Valid() && Contents() == Put(old(Contents()), key, e)
    {
      PutKeepsWellFormed(Contents(), key, e);
      if key !in values {
        keys := keys + [key];
      }
      values := values[key := e];
    }

    /** `Array.from(map.values())`. */
    function Values(): (r: seq<Entry>)
      requires Valid()
      reads this
      ensures |r| == Size()
    {
      ValuesOf(Contents())
    }
  }
}
