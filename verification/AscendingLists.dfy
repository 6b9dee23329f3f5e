/** Lists of step numbers in ascending order, for the packets that arrive and those that are missing: that
    such a list is decided by its members, that its last number is the highest and a higher one can follow
    it, and how many numbers of a list are not in another. Losses are counted by cause with them. */
module AscendingLists {

  ghost predicate Ascending(steps: seq<nat>) {
    forall j, k :: 0 <= j < k < |steps| ==> steps[j] < steps[k]
  }

  ghost predicate Within(a: seq<nat>, b: seq<nat>) {
    forall x :: x in a ==> x in b
  }

  lemma AllButLast(a: seq<nat>)
    requires a != [] && Ascending(a)
    ensures var n := |a| - 1; Ascending(a[..n]) && forall x :: x in a[..n] <==> x in a && x < a[n]
  {
    var n := |a| - 1;
    assert a == a[..n] + [a[n]];
  }

  lemma LastIsHighest(a: seq<nat>, x: nat)
    requires Ascending(a) && x in a
    ensures x <= a[|a| - 1]
  {
    var k :| 0 <= k < |a| && a[k] == x;
  }

  lemma {:induction false} AscendingUnique(a: seq<nat>, b: seq<nat>)
    requires Ascending(a) && Ascending(b) && Within(a, b) && Within(b, a)
    ensures a == b
    decreases |a|
  {
    assert b == [] || b[0] in b;
    if a == [] {
    } else {
      assert a[|a| - 1] in a;
      var m, n := |a| - 1, |b| - 1;
      assert b[n] in b;
      LastIsHighest(a, b[n]);
      LastIsHighest(b, a[m]);
      AllButLast(a);
      AllButLast(b);
      AscendingUnique(a[..m], b[..n]);
      assert a == a[..m] + [a[m]] && b == b[..n] + [b[n]];
    }
  }

  lemma OneMoreInOrder(a: seq<nat>, x: nat)
    requires Ascending(a) && forall y :: y in a ==> y < x
    ensures Ascending(a + [x])
  {
    forall k | 0 <= k < |a| ensures a[k] < x { assert a[k] in a; }
  }

  // ---------- Counting what is not there ----------

  // How many of the items are not in a list.
  function CountNot(items: seq<nat>, list: seq<nat>): nat
    decreases |items|
  {
    if items == [] then 0
    else
      var n := |items| - 1;
      CountNot(items[..n], list) + if items[n] in list then 0 else 1
  }

  lemma {:induction false} CountNotAgrees(items: seq<nat>, a: seq<nat>, b: seq<nat>)
    requires forall x :: x in items ==> (x in a <==> x in b)
    ensures CountNot(items, a) == CountNot(items, b)
    decreases |items|
  {
    if items != [] {
      assert items[|items| - 1] in items;
      CountNotAgrees(items[..|items| - 1], a, b);
    }
  }

  lemma {:induction false} CountNotRest(items: seq<nat>, list: seq<nat>)
    requires Ascending(items) && Ascending(list) && Within(list, items)
    ensures CountNot(items, list) == |items| - |list|
    decreases |items|
  {
    assert list == [] || list[0] in list;
    if items == [] {
    } else {
      var n := |items| - 1;
      AllButLast(items);
      if items[n] in list {
        var m := |list| - 1;
        LastIsHighest(list, items[n]);
        assert list[m] in list;
        LastIsHighest(items, list[m]);
        AllButLast(list);
        CountNotRest(items[..n], list[..m]);
        CountNotAgrees(items[..n], list, list[..m]);
      } else {
        CountNotRest(items[..n], list);
      }
    }
  }
}
