/** Sequences of indices that cover a range: such a sequence as long as the range names every index once,
    and picking the elements of another sequence by it permutes that sequence. The sorted batch of text
    edits and the ordered filesystem batch are both such selections. */
module Permutations {
  /** As many entries as positions, and every position named. */
  ghost predicate Covers(order: seq<nat>, count: nat) {
    |order| == count && forall i: nat :: i < count ==> i in order
  }

  predicate Within(order: seq<nat>, count: nat) {
    forall k :: 0 <= k < |order| ==> order[k] < count
  }

  function Without<T>(items: seq<T>, k: nat): seq<T>
    requires k < |items|
  {
    items[..k] + items[k + 1..]
  }

  lemma CoversWithout(order: seq<nat>, k: nat)
    requires k < |order| && Covers(order, |order|) && order[k] == |order| - 1
    ensures Covers(Without(order, k), |order| - 1)
  {
    forall i: nat | i < |order| - 1 ensures i in Without(order, k) {
      assert i in order;
    }
  }

  lemma {:induction false} CoversIsInjective(order: seq<nat>, count: nat)
    requires Covers(order, count)
    ensures Within(order, count)
    ensures forall a, b :: 0 <= a < b < count ==> order[a] != order[b]
  {
    if count == 0 {
    } else {
      assert count - 1 in order;
      var k :| 0 <= k < count && order[k] == count - 1;
      var rest := Without(order, k);
      CoversWithout(order, k);
      CoversIsInjective(rest, count - 1);
      forall j | 0 <= j < count && j != k ensures order[j] < count - 1 {
        assert order[j] == rest[if j < k then j else j - 1];
      }
      forall a, b | 0 <= a < b < count ensures order[a] != order[b] {
        if a != k && b != k {
          assert order[a] == rest[if a < k then a else a - 1];
          assert order[b] == rest[if b < k then b else b - 1];
        }
      }
    }
  }

  function Select<T>(items: seq<T>, order: seq<nat>): (out: seq<T>)
    requires Within(order, |items|)
    ensures |out| == |order|
    ensures forall k :: 0 <= k < |order| ==> out[k] == items[order[k]]
  {
    seq(|order|, k requires 0 <= k < |order| => items[order[k]])
  }

  lemma {:induction false} SelectPermutes<T>(items: seq<T>, order: seq<nat>)
    requires Covers(order, |items|)
    ensures Within(order, |items|)
    ensures multiset(Select(items, order)) == multiset(items)
  {
    CoversIsInjective(order, |items|);
    if items == [] {
      assert Select(items, order) == [];
    } else {
      var last := |items| - 1;
      assert last in order;
      var k :| 0 <= k < |order| && order[k] == last;
      CoversWithout(order, k);
      SelectPermutes(items[..last], Without(order, k));
      SelectWithout(items, order, k);
      assert Without(items, last) == items[..last];
      MultisetWithout(items, last);
    }
  }

  /** Selecting everything but the last item leaves out the one place that named it. */
  lemma SelectWithout<T>(items: seq<T>, order: seq<nat>, k: nat)
    requires k < |order| == |items| && order[k] == |items| - 1
    requires Within(order, |items|) && Within(Without(order, k), |items| - 1)
    ensures multiset(Select(items, order))
         == multiset(Select(items[..|items| - 1], Without(order, k))) + multiset{items[|items| - 1]}
  {
    var last := |items| - 1;
    var out := Select(items, order);
    assert Select(items[..last], Without(order, k)) == Without(out, k);
    MultisetWithout(out, k);
  }

  lemma MultisetWithout<T>(items: seq<T>, k: nat)
    requires k < |items|
    ensures multiset(items) == multiset(Without(items, k)) + multiset{items[k]}
  {
    assert items == items[..k] + [items[k]] + items[k + 1..];
  }

  // ---------------------------------------------------------------- counting

  function RangeSet(n: nat): (all: set<nat>)
    ensures forall i: nat :: i in all <==> i < n
    ensures |all| == n
  {
    if n == 0 then {} else RangeSet(n - 1) + {n - 1}
  }

  function ToSet(order: seq<nat>): (named: set<nat>)
    ensures forall i: nat :: i in named <==> i in order
    ensures |named| <= |order|
  {
    if order == [] then {} else
      assert order == [order[0]] + order[1..];
      {order[0]} + ToSet(order[1..])
  }

  lemma {:induction false} SubsetSize(a: set<nat>, b: set<nat>)
    requires a <= b
    ensures |a| <= |b|
  {
    if a != {} {
      var x :| x in a;
      SubsetSize(a - {x}, b - {x});
    }
  }

  lemma TooShortToCover(order: seq<nat>, count: nat)
    requires |order| < count
    ensures exists i: nat :: i < count && i !in order
  {
    if RangeSet(count) <= ToSet(order) {
      SubsetSize(RangeSet(count), ToSet(order));
    } else {
      var i: nat :| i in RangeSet(count) && i !in ToSet(order);
      assert i !in order;
    }
  }

  lemma {:induction false} InjectiveSize(order: seq<nat>)
    requires forall a, b :: 0 <= a < b < |order| ==> order[a] != order[b]
    ensures |ToSet(order)| == |order|
  {
    if order == [] {
    } else {
      InjectiveSize(order[1..]);
      assert order[0] !in order[1..];
    }
  }

  lemma InjectiveCovers(order: seq<nat>, count: nat)
    requires |order| == count && Within(order, count)
    requires forall a, b :: 0 <= a < b < count ==> order[a] != order[b]
    ensures Covers(order, count)
  {
    InjectiveSize(order);
    forall i: nat | i < count ensures i in order {
      if i !in order {
        SubsetSize(ToSet(order), RangeSet(count) - {i});
      }
    }
  }
}
