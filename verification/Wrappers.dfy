/** Optional values, results, and the ordered string-keyed records the loaders read. */
module Wrappers {
  datatype Option<+T> = None | Some(value: T)

  /** A failure-compatible result: `:-` propagates the error. */
  datatype Result<+T, +E> = Ok(value: T) | Err(error: E) {
    predicate IsFailure() {
      Err?
    }

    function PropagateFailure<U>(): Result<U, E>
      requires Err?
    {
      Err(error)
    }

    function Extract(): T
      requires Ok?
    {
      value
    }
  }

  ghost predicate DistinctKeys<V>(entries: seq<(string, V)>) {
    forall i, j :: 0 <= i < j < |entries| ==> entries[i].0 != entries[j].0
  }

  /**
   * An object or a prototype-less record: its own members, each key once, in
   * the order they are visited.
   */
  type Rec<+V> = entries: seq<(string, V)> | DistinctKeys(entries) witness []

  predicate HasKey<V>(r: seq<(string, V)>, key: string) {
    exists i :: 0 <= i < |r| && r[i].0 == key
  }

  /** The value held under `key` as an own member. */
  function OwnValue<V>(r: seq<(string, V)>, key: string): (v: Option<V>)
    ensures v.Some? <==> HasKey(r, key)
    ensures v.Some? ==> exists i :: 0 <= i < |r| && r[i] == (key, v.value)
  {
    if r == [] then None
    else if r[0].0 == key then Some(r[0].1)
    else
      var rest := OwnValue(r[1..], key);
      assert HasKey(r[1..], key) <==> HasKey(r, key) by {
        forall i | 0 <= i < |r[1..]| ensures r[1..][i] == r[i + 1] {}
        if HasKey(r, key) {
          var i :| 0 <= i < |r| && r[i].0 == key;
          assert r[1..][i - 1].0 == key;
        }
      }
      rest
  }

  /** With each key once, `OwnValue` is the value at whichever index holds the key. */
  lemma OwnValueAt<V>(r: Rec<V>, i: nat)
    requires i < |r|
    ensures OwnValue(r, r[i].0) == Some(r[i].1)
  {
  }

  predicate Distinct<T(==)>(s: seq<T>) {
    forall i, j :: 0 <= i < j < |s| ==> s[i] != s[j]
  }

  ghost predicate Ascending(at: seq<nat>, n: nat) {
    (forall i :: 0 <= i < |at| ==> at[i] < n) && forall i, j :: 0 <= i < j < |at| ==> at[i] < at[j]
  }

  /** `kept` is what stands in `all` at the places `at`, in order. */
  ghost predicate Selects<T>(at: seq<nat>, all: seq<T>, kept: seq<T>) {
    Ascending(at, |all|) && |kept| == |at| && forall i :: 0 <= i < |at| ==> kept[i] == all[at[i]]
  }

  /** One element more: kept, or not. */
  lemma SelectsNext<T>(at: seq<nat>, all: seq<T>, kept: seq<T>, x: T, keep: bool)
    requires Selects(at, all, kept)
    ensures Selects(if keep then at + [|all|] else at, all + [x], if keep then kept + [x] else kept)
    ensures |all| !in at
  {
  }
}
