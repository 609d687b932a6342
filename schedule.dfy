/** Processing orders. The fan-out in blueprint-summary.py starts one task
    per listed ID and the tasks complete in whatever order their responses
    arrive; here that order is an arbitrary arrangement of the listing
    positions, each taken exactly once. */
module Schedule {

  /** The positions `0 .. n - 1` in increasing order. */
  function Range(n: nat): (r: seq<nat>)
    ensures |r| == n
    ensures forall i :: 0 <= i < n ==> r[i] == i
  {
    seq(n, i requires 0 <= i => i)
  }

  /** `order` takes every position below `n` exactly once. */
  predicate IsOrder(order: seq<nat>, n: nat)
  {
    multiset(order) == multiset(Range(n))
  }

  /** Every position in `order` is below `n`. */
  predicate InRange(order: seq<nat>, n: nat)
  {
    forall k :: 0 <= k < |order| ==> order[k] < n
  }

  /** The elements of `xs` taken in the order `order` gives. */
  function Pick<T>(xs: seq<T>, order: seq<nat>): (r: seq<T>)
    requires InRange(order, |xs|)
    ensures |r| == |order|
    ensures forall k :: 0 <= k < |r| ==> r[k] == xs[order[k]]
  {
    seq(|order|, k requires 0 <= k < |order| => xs[order[k]])
  }

  /** An order of `n` positions has `n` elements, all below `n`. */
  lemma OrderInRange(order: seq<nat>, n: nat)
    requires IsOrder(order, n)
    ensures |order| == n && InRange(order, n)
  {
    calc {
      |order|;
      |multiset(order)|;
      |multiset(Range(n))|;
      |Range(n)|;
    }
    forall k | 0 <= k < |order| ensures order[k] < n {
      assert order[k] in multiset(order);
      assert order[k] in Range(n);
    }
  }

  /** Picking along `a + b` is picking along `a`, then along `b`. */
  lemma PickAppend<T>(xs: seq<T>, a: seq<nat>, b: seq<nat>)
    requires InRange(a, |xs|) && InRange(b, |xs|)
    ensures InRange(a + b, |xs|)
    ensures Pick(xs, a + b) == Pick(xs, a) + Pick(xs, b)
  {
  }

  /** Taking one position out of an order removes exactly one occurrence. */
  lemma MultisetWithout<T>(o: seq<T>, j: nat)
    requires j < |o|
    ensures multiset(o) == multiset(o[..j] + o[j + 1..]) + multiset{o[j]}
  {
    assert o == o[..j] + [o[j]] + o[j + 1..];
  }

  /** One occurrence of the same element can be cancelled on both sides. */
  lemma Cancel<T>(a: multiset<T>, b: multiset<T>, x: T)
    requires a + multiset{x} == b + multiset{x}
    ensures a == b
  {
    forall y ensures a[y] == b[y] {
      assert (a + multiset{x})[y] == (b + multiset{x})[y];
    }
  }

  /** Picking along an order splits around any one of its positions. */
  lemma PickAround<T>(xs: seq<T>, o: seq<nat>, j: nat)
    requires InRange(o, |xs|) && j < |o|
    ensures InRange(o[..j] + o[j + 1..], |xs|)
    ensures multiset(Pick(xs, o)) == multiset(Pick(xs, o[..j] + o[j + 1..])) + multiset{xs[o[j]]}
  {
    var before, after := o[..j], o[j + 1..];
    assert InRange(before, |xs|) && InRange(after, |xs|);
    PickAppend(xs, before, after);
    assert Pick(xs, o) == Pick(xs, before) + [xs[o[j]]] + Pick(xs, after);
  }

  /** The pieces of an order around its position `j` stay in range. */
  lemma InRangeAround(o: seq<nat>, j: nat, n: nat)
    requires InRange(o, n) && j < |o|
    ensures InRange(o[..j], n) && InRange(o[j + 1..], n) && InRange(o[..j] + o[j + 1..], n)
  {
    assert forall k :: 0 <= k < |o[..j] + o[j + 1..]| ==> (o[..j] + o[j + 1..])[k] == if k < j then o[k] else o[k + 1];
  }

  /** Removing the first position of `o1` and its occurrence at `j` in `o2`
      from two orders taking the same positions equally often leaves two
      orders that again take the same positions equally often. */
  lemma MultisetsAround<T>(o1: seq<T>, o2: seq<T>, j: nat)
    requires multiset(o1) == multiset(o2)
    requires |o1| > 0 && j < |o2| && o2[j] == o1[0]
    ensures multiset(o1[1..]) == multiset(o2[..j] + o2[j + 1..])
  {
    assert o1 == [o1[0]] + o1[1..];
    MultisetWithout(o2, j);
    Cancel(multiset(o1[1..]), multiset(o2[..j] + o2[j + 1..]), o1[0]);
  }

  /** Two orders taking the same positions equally often, split around the
      first position of `o1` and its occurrence at `j` in `o2`: what is left
      of each again takes the same positions equally often, and every piece
      stays in range. */
  lemma OrdersAround(o1: seq<nat>, o2: seq<nat>, j: nat, n: nat)
    requires InRange(o1, n) && InRange(o2, n)
    requires multiset(o1) == multiset(o2)
    requires |o1| > 0 && j < |o2| && o2[j] == o1[0]
    ensures o1 == [o1[0]] + o1[1..] && o2 == o2[..j] + ([o1[0]] + o2[j + 1..])
    ensures multiset(o1[1..]) == multiset(o2[..j] + o2[j + 1..])
    ensures InRange(o1[1..], n) && InRange(o2[..j], n) && InRange(o2[j + 1..], n)
    ensures InRange(o2[..j] + o2[j + 1..], n)
  {
    MultisetsAround(o1, o2, j);
    InRangeAround(o1, 0, n);
    InRangeAround(o2, j, n);
    assert o1[..0] + o1[1..] == o1[1..];
    assert o2 == o2[..j] + ([o1[0]] + o2[j + 1..]);
  }

  /** Two orders that take the same positions equally often pick the same
      elements equally often. */
  lemma {:induction false} PickRespectsMultiset<T>(xs: seq<T>, o1: seq<nat>, o2: seq<nat>)
    requires InRange(o1, |xs|) && InRange(o2, |xs|)
    requires multiset(o1) == multiset(o2)
    ensures multiset(Pick(xs, o1)) == multiset(Pick(xs, o2))
    decreases |o1|
  {
    if |o1| == 0 {
      assert |o2| == |multiset(o2)| == 0;
    } else {
      var x := o1[0];
      assert x in multiset(o2);
      var j :| 0 <= j < |o2| && o2[j] == x;
      OrdersAround(o1, o2, j, |xs|);
      var rest1, rest2 := o1[1..], o2[..j] + o2[j + 1..];
      assert o1[..0] + o1[1..] == rest1;
      PickAround(xs, o1, 0);
      PickAround(xs, o2, j);
      PickRespectsMultiset(xs, rest1, rest2);
    }
  }

  /** `f` applied to every element of `xs`, in order. */
  function Map<T, U>(xs: seq<T>, f: T -> U): (r: seq<U>)
    ensures |r| == |xs|
    ensures forall i :: 0 <= i < |xs| ==> r[i] == f(xs[i])
  {
    seq(|xs|, i requires 0 <= i < |xs| => f(xs[i]))
  }

  /** Mapping distributes over concatenation. */
  lemma MapAppend<T, U>(a: seq<T>, b: seq<T>, f: T -> U)
    ensures Map(a + b, f) == Map(a, f) + Map(b, f)
  {
    assert forall k :: 0 <= k < |a + b| ==> (a + b)[k] == if k < |a| then a[k] else b[k - |a|];
  }

  /** Mapping `x` first, or between `pre` and `post`, adds the same image
      to the images of the other elements. */
  lemma MapAround<T, U>(x: T, rest: seq<T>, pre: seq<T>, post: seq<T>, f: T -> U)
    ensures multiset(Map([x] + rest, f)) == multiset{f(x)} + multiset(Map(rest, f))
    ensures multiset(Map(pre + ([x] + post), f)) == multiset{f(x)} + multiset(Map(pre + post, f))
  {
    MapAppend([x], rest, f);
    MapAppend(pre, [x] + post, f);
    MapAppend([x], post, f);
    MapAppend(pre, post, f);
    assert Map([x], f) == [f(x)];
    var mp, mq := multiset(Map(pre, f)), multiset(Map(post, f));
    Regroup(multiset{f(x)}, mp, mq);
  }

  /** Multiset sums can be regrouped. */
  lemma Regroup<T>(x: multiset<T>, p: multiset<T>, q: multiset<T>)
    ensures x + (p + q) == p + (x + q)
  {
    forall y ensures (x + (p + q))[y] == (p + (x + q))[y] {
    }
  }

  /** Mapping two sequences holding the same elements equally often gives
      two sequences holding the same images equally often. */
  lemma {:induction false} MapRespectsMultiset<T, U>(xs: seq<T>, ys: seq<T>, f: T -> U)
    requires multiset(xs) == multiset(ys)
    ensures multiset(Map(xs, f)) == multiset(Map(ys, f))
    decreases |xs|
  {
    if |xs| == 0 {
      assert |ys| == |multiset(ys)| == 0;
    } else {
      var x := xs[0];
      assert x in multiset(ys);
      var j :| 0 <= j < |ys| && ys[j] == x;
      MultisetsAround(xs, ys, j);
      var pre, post, rest := ys[..j], ys[j + 1..], xs[1..];
      MapRespectsMultiset(rest, pre + post, f);
      assert xs == [x] + rest && ys == pre + ([x] + post);
      MapAround(x, rest, pre, post, f);
    }
  }

  /** Taking the elements of `xs` in any processing order rearranges them
      without losing or duplicating any. */
  lemma PickPermutes<T>(xs: seq<T>, order: seq<nat>)
    requires IsOrder(order, |xs|)
    ensures InRange(order, |xs|)
    ensures multiset(Pick(xs, order)) == multiset(xs)
  {
    OrderInRange(order, |xs|);
    var all := Range(|xs|);
    assert InRange(all, |xs|);
    PickRespectsMultiset(xs, order, all);
    assert Pick(xs, all) == xs;
  }
}
