/**
  * Python values as the `json` module reads and writes them, with the dictionary
  * operations the job records use (`d.get(k)`, `d[k] = v`) and Python truthiness.
  * A dictionary is an association list, so that its insertion order is kept.
  */
module Values {
  import opened Wrappers
  import opened Text

  datatype Value =
    | Null
    | Bool(b: bool)
    | Int(i: int)
    | Float(r: real)
    | Str(s: string)
    | List(items: seq<Value>)
    | Dict(entries: seq<(string, Value)>)

  /** Python truthiness (`if v:`, `v or default`). */
  predicate Truthy(v: Value) {
    match v
    case Null => false
    case Bool(b) => b
    case Int(i) => i != 0
    case Float(r) => r != 0.0
    case Str(s) => s != []
    case List(items) => items != []
    case Dict(entries) => entries != []
  }

  predicate HasKey<V>(entries: seq<(string, V)>, key: string) {
    exists i :: 0 <= i < |entries| && entries[i].0 == key
  }

  /** `d.get(key)`: the value stored under `key`, if any. */
  function Lookup<V>(entries: seq<(string, V)>, key: string): Option<V> {
    if entries == [] then None
    else if entries[0].0 == key then Some(entries[0].1)
    else Lookup(entries[1..], key)
  }

  /** `d.get(key)` finds a value exactly when `key in d`. */
  lemma {:induction false} LookupHasKey<V>(entries: seq<(string, V)>, key: string)
    ensures Lookup(entries, key).Some? <==> HasKey(entries, key)
  {
    if entries != [] && entries[0].0 != key {
      LookupHasKey(entries[1..], key);
      if HasKey(entries, key) {
        var i :| 0 <= i < |entries| && entries[i].0 == key;
        assert entries[1..][i - 1].0 == key;
      }
    }
  }

  /** `d.get(key)` finds the first entry stored under `key`. */
  lemma {:induction false} LookupAt<V>(entries: seq<(string, V)>, key: string, i: nat)
    requires i < |entries| && entries[i].0 == key
    requires forall j :: 0 <= j < i ==> entries[j].0 != key
    ensures Lookup(entries, key) == Some(entries[i].1)
  {
    if i > 0 {
      LookupAt(entries[1..], key, i - 1);
    }
  }

  predicate DistinctKeys<V>(entries: seq<(string, V)>) {
    forall i, j :: 0 <= i < j < |entries| ==> entries[i].0 != entries[j].0
  }

  /** `d[key] = v`: overwrite in place when the key is present, append otherwise. */
  function Assign<V>(entries: seq<(string, V)>, key: string, v: V): (r: seq<(string, V)>)
    ensures !HasKey(entries, key) ==> r == entries + [(key, v)]
  {
    if entries == [] then [(key, v)]
    else if entries[0].0 == key then [(key, v)] + entries[1..]
    else
      assert !HasKey(entries, key) ==> !HasKey(entries[1..], key) by {
        if HasKey(entries[1..], key) {
          var i :| 0 <= i < |entries[1..]| && entries[1..][i].0 == key;
          assert entries[i + 1].0 == key;
        }
      }
      [entries[0]] + Assign(entries[1..], key, v)
  }

  /** After `d[key] = v`, `d.get(key)` is `v` and every other key reads as before. */
  lemma {:induction false} AssignLookup<V>(entries: seq<(string, V)>, key: string, v: V, k: string)
    ensures Lookup(Assign(entries, key, v), k) == if k == key then Some(v) else Lookup(entries, k)
  {
    if entries != [] && entries[0].0 != key {
      AssignLookup(entries[1..], key, v, k);
    }
  }

  /** The keys after `d[key] = v` are the keys before, plus `key`. */
  lemma {:induction false} AssignKeys<V>(entries: seq<(string, V)>, key: string, v: V, k: string)
    ensures HasKey(Assign(entries, key, v), k) <==> HasKey(entries, k) || k == key
  {
    LookupHasKey(Assign(entries, key, v), k);
    LookupHasKey(entries, k);
    AssignLookup(entries, key, v, k);
  }

  /** Overwriting a present key keeps the dictionary's size. */
  lemma {:induction false} AssignSameLength<V>(entries: seq<(string, V)>, key: string, v: V)
    requires HasKey(entries, key)
    ensures |Assign(entries, key, v)| == |entries|
  {
    if entries[0].0 != key {
      var i :| 0 <= i < |entries| && entries[i].0 == key;
      assert entries[1..][i - 1].0 == key;
      AssignSameLength(entries[1..], key, v);
    }
  }

  /** Assigning keeps a dictionary's keys distinct. */
  lemma {:induction false} AssignDistinct<V>(entries: seq<(string, V)>, key: string, v: V)
    requires DistinctKeys(entries)
    ensures DistinctKeys(Assign(entries, key, v))
  {
    if entries != [] && entries[0].0 != key {
      var rest := Assign(entries[1..], key, v);
      AssignDistinct(entries[1..], key, v);
      assert !HasKey(entries[1..], entries[0].0) by {
        forall j | 0 <= j < |entries[1..]| ensures entries[1..][j].0 != entries[0].0 {
          assert entries[1..][j] == entries[j + 1];
        }
      }
      AssignKeys(entries[1..], key, v, entries[0].0);
      assert !HasKey(rest, entries[0].0);
      assert Assign(entries, key, v) == [entries[0]] + rest;
    }
  }

  /** `d[k] = v` for each entry of `updates` in turn. */
  function AssignAll<V>(entries: seq<(string, V)>, updates: seq<(string, V)>): seq<(string, V)>
    decreases |updates|
  {
    if updates == [] then entries
    else AssignAll(Assign(entries, updates[0].0, updates[0].1), updates[1..])
  }

  /** After a run of assignments with distinct keys, each assigned key reads as assigned
      and every other key reads as before. */
  lemma {:induction false} AssignAllLookup<V>(entries: seq<(string, V)>, updates: seq<(string, V)>, k: string)
    requires DistinctKeys(updates)
    ensures Lookup(AssignAll(entries, updates), k) ==
      if HasKey(updates, k) then Lookup(updates, k) else Lookup(entries, k)
    decreases |updates|
  {
    LookupHasKey(updates, k);
    if updates != [] {
      var rest := updates[1..];
      assert DistinctKeys(rest) by {
        forall i, j | 0 <= i < j < |rest| ensures rest[i].0 != rest[j].0 {
          assert rest[i] == updates[i + 1] && rest[j] == updates[j + 1];
        }
      }
      AssignAllLookup(Assign(entries, updates[0].0, updates[0].1), rest, k);
      AssignLookup(entries, updates[0].0, updates[0].1, k);
      LookupHasKey(rest, k);
      if k == updates[0].0 {
        assert !HasKey(rest, k) by {
          forall i | 0 <= i < |rest| ensures rest[i].0 != k {
            assert rest[i] == updates[i + 1];
          }
        }
      } else if HasKey(updates, k) {
        var i :| 0 <= i < |updates| && updates[i].0 == k;
        assert rest[i - 1].0 == k;
      }
    }
  }

  /** Python's `int(v)` for a value read from JSON: None where it raises TypeError or ValueError. */
  function IntOf(v: Value): Option<int> {
    match v
    case Int(i) => Some(i)
    case Bool(b) => Some(if b then 1 else 0)
    case Float(r) => Some(if r >= 0.0 then r.Floor else -((-r).Floor))
    case Str(s) => ParseInt(s)
    case _ => None
  }

  /** A number read from JSON as a float. */
  function RealOf(v: Value): Option<real> {
    match v
    case Float(r) => Some(r)
    case Int(i) => Some(i as real)
    case _ => None
  }
}
