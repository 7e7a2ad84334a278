/** Building a keyed map by setting one entry per element, later elements overwriting
    earlier ones. The exam page does this twice with a loop: `loadAttemptsForSession`
    (src/pages/Index.tsx:101-104) and the cache priming in `createNewSession` and
    `resumeLastSession` (src/pages/Index.tsx:125-126, 193-197). */
module Keyed {

  /** The keys that the elements of `xs` are stored under. */
  function KeysOf<K, V>(xs: seq<V>, key: V -> K): set<K>
  {
    set i | 0 <= i < |xs| :: key(xs[i])
  }

  /** `m` after `m.set(key(x), x)` for every `x` of `xs`, first to last. */
  function Put<K, V>(m: map<K, V>, xs: seq<V>, key: V -> K): map<K, V>
    decreases |xs|
  {
    if xs == [] then m
    else Put(m, xs[..|xs| - 1], key)[key(xs[|xs| - 1]) := xs[|xs| - 1]]
  }

  /** `i` is the last position of `xs` whose element has key `key(xs[i])`. */
  ghost predicate IsLast<K, V>(xs: seq<V>, key: V -> K, i: int)
    requires 0 <= i < |xs|
  {
    forall j :: i < j < |xs| ==> key(xs[j]) != key(xs[i])
  }

  /** `r` is what `m` becomes when the elements of `xs` are stored by key: its keys are the
      old keys plus the keys of `xs`; a key no element has keeps its old value; a key some
      element has holds the LAST such element. */
  ghost predicate LastWins<K, V>(m: map<K, V>, xs: seq<V>, key: V -> K, r: map<K, V>)
  {
    && r.Keys == m.Keys + KeysOf(xs, key)
    && (forall k :: k in m && k !in KeysOf(xs, key) ==> k in r && r[k] == m[k])
    && (forall i :: 0 <= i < |xs| && IsLast(xs, key, i) ==> key(xs[i]) in r && r[key(xs[i])] == xs[i])
  }

  /** The keys of a list are those of all but its last element, plus the last one's. */
  lemma KeysOfSnoc<K, V>(xs: seq<V>, key: V -> K)
    requires xs != []
    ensures KeysOf(xs, key) == KeysOf(xs[..|xs| - 1], key) + {key(xs[|xs| - 1])}
  {
    var n := |xs| - 1;
    var init := xs[..n];
    forall k | k in KeysOf(xs, key) ensures k in KeysOf(init, key) + {key(xs[n])} {
      var i :| 0 <= i < |xs| && key(xs[i]) == k;
      if i < n { assert init[i] == xs[i]; }
    }
    forall k | k in KeysOf(init, key) ensures k in KeysOf(xs, key) {
      var i :| 0 <= i < |init| && key(init[i]) == k;
      assert xs[i] == init[i];
    }
  }

  /** A last occurrence other than the final element is also last in the shorter list. */
  lemma IsLastInit<K, V>(xs: seq<V>, key: V -> K, i: int)
    requires 0 <= i < |xs| - 1 && IsLast(xs, key, i)
    ensures IsLast(xs[..|xs| - 1], key, i)
  {
    var init := xs[..|xs| - 1];
    forall j | i < j < |init| ensures key(init[j]) != key(init[i]) {
      assert init[j] == xs[j];
    }
  }

  /** Setting the last element on top of a map that stores all but it. */
  lemma LastWinsSnoc<K, V>(m: map<K, V>, xs: seq<V>, key: V -> K, prev: map<K, V>)
    requires xs != [] && LastWins(m, xs[..|xs| - 1], key, prev)
    ensures LastWins(m, xs, key, prev[key(xs[|xs| - 1]) := xs[|xs| - 1]])
  {
    var n := |xs| - 1;
    var init := xs[..n];
    var r := prev[key(xs[n]) := xs[n]];
    KeysOfSnoc(xs, key);
    forall k | k in m && k !in KeysOf(xs, key) ensures k in r && r[k] == m[k] {
      assert k !in KeysOf(init, key);
    }
    forall i | 0 <= i < |xs| && IsLast(xs, key, i)
      ensures key(xs[i]) in r && r[key(xs[i])] == xs[i]
    {
      if i < n {
        IsLastInit(xs, key, i);
        assert init[i] == xs[i];
      }
    }
  }

  lemma {:induction false} PutLastWins<K, V>(m: map<K, V>, xs: seq<V>, key: V -> K)
    ensures LastWins(m, xs, key, Put(m, xs, key))
    decreases |xs|
  {
    if xs != [] {
      PutLastWins(m, xs[..|xs| - 1], key);
      LastWinsSnoc(m, xs, key, Put(m, xs[..|xs| - 1], key));
    }
  }

  /** Stores every element of `xs` into a copy of `m`, as the page's `for ... of` and
      `forEach` loops do. */
  method PutAll<K, V>(m: map<K, V>, xs: seq<V>, key: V -> K) returns (r: map<K, V>)
    ensures r == Put(m, xs, key)
    ensures LastWins(m, xs, key, r)
  {
    r := m;
    for i := 0 to |xs|
      invariant r == Put(m, xs[..i], key)
    {
      assert xs[..i + 1][..i] == xs[..i];
      r := r[key(xs[i]) := xs[i]];
    }
    assert xs[..|xs|] == xs;
    PutLastWins(m, xs, key);
  }

  /** When no two elements share a key, every element is found under its own key. */
  lemma PutDistinct<K, V>(m: map<K, V>, xs: seq<V>, key: V -> K)
    requires forall i, j :: 0 <= i < j < |xs| ==> key(xs[i]) != key(xs[j])
    ensures forall i :: 0 <= i < |xs| ==> key(xs[i]) in Put(m, xs, key) && Put(m, xs, key)[key(xs[i])] == xs[i]
  {
    PutLastWins(m, xs, key);
    forall i | 0 <= i < |xs| ensures IsLast(xs, key, i) {
    }
  }
}
