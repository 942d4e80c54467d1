/**
 * Plain-object dictionaries filled by a loop `for (x of xs) d[key(x)] = val(x)`
 * starting from `{}`: every assignment overwrites, so the last element with a
 * given key decides that key's value.
 */
module Dictionary {

  /** The index of the last element of `xs` whose key is `k`, or -1 when no element has that key. */
  function LastIndexOf<T>(xs: seq<T>, key: T -> string, k: string): (i: int)
    ensures -1 <= i < |xs|
    ensures 0 <= i ==> key(xs[i]) == k
    ensures forall j :: i < j < |xs| ==> key(xs[j]) != k
  {
    if xs == [] then -1
    else if key(xs[|xs| - 1]) == k then |xs| - 1
    else LastIndexOf(xs[..|xs| - 1], key, k)
  }

  /** The dictionary the loop leaves behind. */
  function Build<T, V>(xs: seq<T>, key: T -> string, val: T -> V): (d: map<string, V>)
    ensures forall k :: k in d <==> LastIndexOf(xs, key, k) >= 0
    ensures forall k :: k in d ==> d[k] == val(xs[LastIndexOf(xs, key, k)])
  {
    if xs == [] then map[]
    else Build(xs[..|xs| - 1], key, val)[key(xs[|xs| - 1]) := val(xs[|xs| - 1])]
  }

  /** The set of keys of the elements of `xs`. */
  function KeysOf<T>(xs: seq<T>, key: T -> string): set<string>
  {
    set i | 0 <= i < |xs| :: key(xs[i])
  }

  /** The dictionary has exactly one key per distinct key among the elements, and no other. */
  lemma BuildKeys<T, V>(xs: seq<T>, key: T -> string, val: T -> V)
    ensures Build(xs, key, val).Keys == KeysOf(xs, key)
  {
    var d := Build(xs, key, val);
    forall k | k in KeysOf(xs, key) ensures k in d {
      var j :| 0 <= j < |xs| && key(xs[j]) == k;
      assert LastIndexOf(xs, key, k) >= j;
    }
    forall k | k in d ensures k in KeysOf(xs, key) {
      var j := LastIndexOf(xs, key, k);
      assert 0 <= j < |xs| && key(xs[j]) == k;
    }
  }

  /** Appending an element overwrites (or adds) exactly its own key. */
  lemma BuildSnoc<T, V>(xs: seq<T>, x: T, key: T -> string, val: T -> V)
    ensures Build(xs + [x], key, val) == Build(xs, key, val)[key(x) := val(x)]
  {
    assert (xs + [x])[..|xs|] == xs;
  }
}
