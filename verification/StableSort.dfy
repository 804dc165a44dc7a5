/**
 The stable sort of the two languages (Array.prototype.sort, sorted): a sort by key that
 keeps elements with equal keys in their old order. It is given as the order it puts the
 indices of its argument in.
 */
module StableSort {
  /** i is put before j: by key, and among equal keys by position. */
  predicate Before(keys: seq<real>, i: nat, j: nat)
    requires i < |keys| && j < |keys|
  {
    keys[i] < keys[j] || (keys[i] == keys[j] && i < j)
  }

  predicate InRange(order: seq<nat>, n: nat) {
    forall k :: 0 <= k < |order| ==> order[k] < n
  }

  ghost predicate Ascending(keys: seq<real>, order: seq<nat>)
    requires InRange(order, |keys|)
  {
    forall a, b :: 0 <= a < b < |order| ==> Before(keys, order[a], order[b])
  }

  /** Insert index i, larger than every index in order, after every key not above its own. */
  function Insert(keys: seq<real>, order: seq<nat>, i: nat): (r: seq<nat>)
    requires i < |keys| && InRange(order, i)
    ensures |r| == |order| + 1 && InRange(r, i + 1)
    ensures forall x :: x in r <==> x in order || x == i
  {
    if order == [] then [i]
    else if keys[i] < keys[order[0]] then [i] + order
    else
      var rest := Insert(keys, order[1..], i);
      assert order == [order[0]] + order[1..];
      [order[0]] + rest
  }

  function Sorted(keys: seq<real>, n: nat): (r: seq<nat>)
    requires n <= |keys|
    ensures |r| == n && InRange(r, n)
    ensures forall x :: 0 <= x < n ==> x in r
  {
    if n == 0 then [] else Insert(keys, Sorted(keys, n - 1), n - 1)
  }

  function Order(keys: seq<real>): (r: seq<nat>)
    ensures |r| == |keys| && InRange(r, |keys|)
    ensures forall x :: 0 <= x < |keys| ==> x in r
  {
    Sorted(keys, |keys|)
  }

  lemma {:induction false} InsertAscends(keys: seq<real>, order: seq<nat>, i: nat)
    requires i < |keys| && InRange(order, i) && Ascending(keys, order)
    ensures Ascending(keys, Insert(keys, order, i))
  {
    var r := Insert(keys, order, i);
    if order != [] && !(keys[i] < keys[order[0]]) {
      var rest := Insert(keys, order[1..], i);
      InsertAscends(keys, order[1..], i);
      forall a, b | 0 <= a < b < |r| ensures Before(keys, r[a], r[b]) {
        if a == 0 {
          assert r[b] == rest[b - 1] && r[b] in rest;
          if r[b] != i {
            var k :| 0 <= k < |order[1..]| && order[1..][k] == r[b];
            assert order[k + 1] == r[b];
          }
        } else {
          assert r[a] == rest[a - 1] && r[b] == rest[b - 1];
        }
      }
    } else if order != [] {
      forall a, b | 0 <= a < b < |r| ensures Before(keys, r[a], r[b]) {
        assert r[b] == order[b - 1];
        if a > 0 { assert r[a] == order[a - 1]; }
        if b > 1 { assert Before(keys, order[0], order[b - 1]); }
      }
    }
  }

  lemma {:induction false} SortedAscends(keys: seq<real>, n: nat)
    requires n <= |keys|
    ensures Ascending(keys, Sorted(keys, n))
  {
    if n == 0 {
    } else {
      SortedAscends(keys, n - 1);
      InsertAscends(keys, Sorted(keys, n - 1), n - 1);
    }
  }

  /** Every index once, in strictly ascending (key, position) order. */
  lemma OrderAscends(keys: seq<real>)
    ensures Ascending(keys, Order(keys))
  {
    SortedAscends(keys, |keys|);
  }

  /** No other sequence of the same indices ascends: the stable order is unique. */
  lemma {:induction false} AscendingIsUnique(keys: seq<real>, p: seq<nat>, q: seq<nat>)
    requires InRange(p, |keys|) && InRange(q, |keys|)
    requires Ascending(keys, p) && Ascending(keys, q)
    requires forall x :: x in p <==> x in q
    ensures p == q
  {
    if p == [] {
      assert forall k :: 0 <= k < |q| ==> q[k] in q;
    } else {
      assert p[0] in p;
      assert p[0] in q;
      var a: nat :| a < |q| && q[a] == p[0];
      assert q[0] in q;
      var b: nat :| b < |p| && p[b] == q[0];
      assert a == 0;
      TailsAgree(keys, p, q);
      AscendingIsUnique(keys, p[1..], q[1..]);
      assert p == [p[0]] + p[1..] && q == [q[0]] + q[1..];
    }
  }

  lemma TailsAgree(keys: seq<real>, p: seq<nat>, q: seq<nat>)
    requires InRange(p, |keys|) && InRange(q, |keys|) && p != [] && q != [] && p[0] == q[0]
    requires Ascending(keys, p) && Ascending(keys, q)
    requires forall x :: x in p <==> x in q
    ensures forall x :: x in p[1..] <==> x in q[1..]
  {
    TailWithin(keys, p, q);
    TailWithin(keys, q, p);
  }

  lemma TailWithin(keys: seq<real>, p: seq<nat>, q: seq<nat>)
    requires InRange(p, |keys|) && p != [] && q != [] && p[0] == q[0]
    requires Ascending(keys, p)
    requires forall x :: x in p ==> x in q
    ensures forall x :: x in p[1..] ==> x in q[1..]
  {
    forall x | x in p[1..] ensures x in q[1..] {
      var k :| 0 <= k < |p[1..]| && p[1..][k] == x;
      assert p[k + 1] == x && Before(keys, p[0], p[k + 1]);
      assert x in q;
      var m :| 0 <= m < |q| && q[m] == x;
      assert q[1..][m - 1] == x;
    }
  }
}
