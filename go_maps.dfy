/** Go's `map[string]string` and its `range` loop.

    A `range` over a Go map visits every key exactly once, in an order the
    runtime chooses afresh on every loop. The model therefore takes that order
    as an input: a sequence of the map's keys without repetitions. Everything
    stated about a rendered body either holds for every such order or is
    stated in terms of the map alone. */
module GoMaps {

  /** The keys of `order`, forgetting their order. */
  function KeySet(order: seq<string>): set<string> {
    set k | k in order
  }

  /** No key occurs twice in `order`. */
  predicate Distinct(order: seq<string>) {
    order == [] || (order[|order| - 1] !in order[..|order| - 1] && Distinct(order[..|order| - 1]))
  }

  /** `order` is one of the orders in which `range m` may visit `m`'s keys. */
  ghost predicate IsIterationOrder(m: map<string, string>, order: seq<string>) {
    Distinct(order) && KeySet(order) == m.Keys
  }

  /** The (key, value) pairs that `for key, value := range m` produces when the
      runtime visits the keys in `order`. */
  function Enumerate(m: map<string, string>, order: seq<string>): (pairs: seq<(string, string)>)
    requires forall k <- order :: k in m
    ensures |pairs| == |order|
    ensures forall i :: 0 <= i < |order| ==> pairs[i].0 == order[i] && pairs[i].1 == m[order[i]]
  {
    if order == [] then []
    else
      var last := order[|order| - 1];
      Enumerate(m, order[..|order| - 1]) + [(last, m[last])]
  }

  /** The total length of all keys and values in a sequence of pairs. */
  function TextLength(pairs: seq<(string, string)>): nat {
    if pairs == [] then 0
    else
      var last := pairs[|pairs| - 1];
      TextLength(pairs[..|pairs| - 1]) + |last.0| + |last.1|
  }

  /** The total length of the keys in `keys` and of their values in `m`,
      defined on the set of keys, without any order. */
  ghost function KeysTextLength(m: map<string, string>, keys: set<string>): nat
    requires keys <= m.Keys
    decreases keys
  {
    if keys == {} then 0
    else
      var k :| k in keys;
      |k| + |m[k]| + KeysTextLength(m, keys - {k})
  }

  /** The total length of all keys and values of a map. */
  ghost function MapTextLength(m: map<string, string>): nat {
    KeysTextLength(m, m.Keys)
  }

  /** Any key may be taken out first: the sum over a set does not depend on
      which element the definition happens to pick. */
  lemma {:induction false} KeysTextLengthRemove(m: map<string, string>, keys: set<string>, x: string)
    requires keys <= m.Keys && x in keys
    ensures KeysTextLength(m, keys) == |x| + |m[x]| + KeysTextLength(m, keys - {x})
    decreases keys
  {
    var y :| y in keys && KeysTextLength(m, keys) == |y| + |m[y]| + KeysTextLength(m, keys - {y});
    if y != x {
      KeysTextLengthRemove(m, keys - {y}, x);
      KeysTextLengthRemove(m, keys - {x}, y);
      assert keys - {y} - {x} == keys - {x} - {y};
    }
  }

  /** A sequence without repetitions has as many distinct keys as elements. */
  lemma {:induction false} DistinctKeyCount(order: seq<string>)
    requires Distinct(order)
    ensures |KeySet(order)| == |order|
  {
    if order != [] {
      var init, last := order[..|order| - 1], order[|order| - 1];
      assert Distinct(init);
      DistinctKeyCount(init);
      assert KeySet(order) == KeySet(init) + {last};
      assert last !in KeySet(init);
    }
  }

  /** Dropping the last key of a sequence without repetitions drops exactly
      that key from its key set. */
  lemma KeySetDropLast(order: seq<string>)
    requires order != [] && Distinct(order)
    ensures Distinct(order[..|order| - 1])
    ensures KeySet(order) - {order[|order| - 1]} == KeySet(order[..|order| - 1])
  {
    var init, last := order[..|order| - 1], order[|order| - 1];
    assert KeySet(order) == KeySet(init) + {last} by {
      assert order == init + [last];
    }
  }

  /** Visiting one more key adds that key's and its value's length. */
  lemma EnumerateDropLast(m: map<string, string>, order: seq<string>)
    requires order != [] && forall k <- order :: k in m
    ensures var last := order[|order| - 1];
      TextLength(Enumerate(m, order)) == TextLength(Enumerate(m, order[..|order| - 1])) + |last| + |m[last]|
  {
    var pairs := Enumerate(m, order);
    assert pairs[..|pairs| - 1] == Enumerate(m, order[..|order| - 1]);
  }

  /** Summing over the pairs in the order the loop visits them gives the same
      total as summing over the set of keys they come from. */
  lemma {:induction false} EnumerateTextLength(m: map<string, string>, order: seq<string>)
    requires forall k <- order :: k in m
    requires Distinct(order)
    ensures KeySet(order) <= m.Keys
    ensures TextLength(Enumerate(m, order)) == KeysTextLength(m, KeySet(order))
  {
    if order != [] {
      var init, last := order[..|order| - 1], order[|order| - 1];
      KeySetDropLast(order);
      EnumerateTextLength(m, init);
      KeysTextLengthRemove(m, KeySet(order), last);
      EnumerateDropLast(m, order);
    }
  }

  /** Whatever order the runtime picks, the loop visits `|m|` pairs whose
      keys and values have total length `MapTextLength(m)`. */
  lemma IterationOrderInvariants(m: map<string, string>, order: seq<string>)
    requires IsIterationOrder(m, order)
    ensures forall k <- order :: k in m
    ensures |order| == |m|
    ensures TextLength(Enumerate(m, order)) == MapTextLength(m)
  {
    DistinctKeyCount(order);
    assert KeySet(order) == m.Keys;
    assert |m.Keys| == |m|;
    EnumerateTextLength(m, order);
  }
}
