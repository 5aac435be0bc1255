/** Order-preserving selection from a sequence, the behaviour of the array
    `filter` method that both the client and the store rely on. */
module Sequences {

  /** The elements of `s` that satisfy `p`, in their original order. */
  function Filter<T(==)>(s: seq<T>, p: T -> bool): (r: seq<T>)
    ensures |r| <= |s|
    ensures forall i :: 0 <= i < |r| ==> r[i] in s && p(r[i])
    ensures forall i :: 0 <= i < |s| && p(s[i]) ==> s[i] in r
  {
    if s == [] then []
    else if p(s[0]) then [s[0]] + Filter(s[1..], p)
    else Filter(s[1..], p)
  }

  /** The result of `Filter` is exactly the subsequence of `s` at the
      positions whose element satisfies `p`: `idx` lists those positions in
      increasing order, and position k of the result holds `s[idx[k]]`. */
  lemma FilterIndices<T>(s: seq<T>, p: T -> bool) returns (idx: seq<nat>)
    ensures |idx| == |Filter(s, p)|
    ensures forall k :: 0 <= k < |idx| ==> idx[k] < |s| && Filter(s, p)[k] == s[idx[k]]
    ensures forall k, l :: 0 <= k < l < |idx| ==> idx[k] < idx[l]
    ensures forall i :: 0 <= i < |s| ==> (i in idx <==> p(s[i]))
  {
    idx := Positions(s, p);
    PositionsSelect(s, p);
    PositionsIncrease(s, p);
    PositionsMembership(s, p);
  }

  /** The positions of `s` whose element satisfies `p`, in increasing order. */
  ghost function Positions<T>(s: seq<T>, p: T -> bool): (idx: seq<nat>)
  {
    if s == [] then []
    else (if p(s[0]) then [0] else []) + Shift(Positions(s[1..], p))
  }

  /** Every position moved one place to the right. */
  ghost function Shift(idx: seq<nat>): (r: seq<nat>)
    ensures |r| == |idx|
    ensures forall k :: 0 <= k < |idx| ==> r[k] == idx[k] + 1
  {
    seq(|idx|, k requires 0 <= k < |idx| => idx[k] + 1)
  }

  lemma {:induction false} PositionsSelect<T>(s: seq<T>, p: T -> bool)
    ensures |Positions(s, p)| == |Filter(s, p)|
    ensures forall k :: 0 <= k < |Positions(s, p)| ==>
      Positions(s, p)[k] < |s| && Filter(s, p)[k] == s[Positions(s, p)[k]]
  {
    if s != [] {
      PositionsSelect(s[1..], p);
      var rest, tail := Positions(s[1..], p), Filter(s[1..], p);
      var idx, r := Positions(s, p), Filter(s, p);
      if p(s[0]) {
        assert idx == [0] + Shift(rest);
        assert r == [s[0]] + tail;
        forall k | 1 <= k < |idx|
          ensures idx[k] < |s| && r[k] == s[idx[k]]
        {
          SelectStep(s, rest, tail, k - 1);
        }
      } else {
        assert idx == Shift(rest);
        assert r == tail;
        forall k | 0 <= k < |idx|
          ensures idx[k] < |s| && r[k] == s[idx[k]]
        {
          SelectStep(s, rest, tail, k);
        }
      }
    }
  }

  lemma SelectStep<T>(s: seq<T>, rest: seq<nat>, tail: seq<T>, k: nat)
    requires s != [] && k < |rest| == |tail|
    requires rest[k] < |s| - 1 && tail[k] == s[1..][rest[k]]
    ensures Shift(rest)[k] < |s| && tail[k] == s[Shift(rest)[k]]
  {
  }

  lemma {:induction false} PositionsIncrease<T>(s: seq<T>, p: T -> bool)
    ensures forall k :: 0 <= k < |Positions(s, p)| ==> Positions(s, p)[k] < |s|
    ensures forall k, l :: 0 <= k < l < |Positions(s, p)| ==> Positions(s, p)[k] < Positions(s, p)[l]
  {
    if s != [] {
      PositionsIncrease(s[1..], p);
    }
  }

  lemma {:induction false} PositionsMembership<T>(s: seq<T>, p: T -> bool)
    ensures forall i :: 0 <= i < |s| ==> (i in Positions(s, p) <==> p(s[i]))
  {
    if s != [] {
      PositionsMembership(s[1..], p);
      var rest := Positions(s[1..], p);
      var idx := Positions(s, p);
      forall i | 0 <= i < |s|
        ensures i in idx <==> p(s[i])
      {
        if i in Shift(rest) {
          var k :| 0 <= k < |rest| && Shift(rest)[k] == i;
          assert rest[k] == i - 1;
        }
        if 1 <= i && i - 1 in rest {
          var k :| 0 <= k < |rest| && rest[k] == i - 1;
          assert Shift(rest)[k] == i;
          assert s[1..][i - 1] == s[i];
        }
        if 1 <= i && p(s[i]) {
          assert s[1..][i - 1] == s[i];
        }
      }
    }
  }

  /** How often each value occurs in the result: as often as in `s` when it
      satisfies `p`, never otherwise. With `FilterIndices` this makes the
      result a permutation of the selected elements. */
  lemma {:induction false} FilterCount<T>(s: seq<T>, p: T -> bool, x: T)
    ensures multiset(Filter(s, p))[x] == if p(x) then multiset(s)[x] else 0
  {
    if s != [] {
      FilterCount(s[1..], p, x);
      assert s == [s[0]] + s[1..];
    }
  }

  /** Filtering distributes over concatenation. */
  lemma {:induction false} FilterAppend<T>(a: seq<T>, b: seq<T>, p: T -> bool)
    ensures Filter(a + b, p) == Filter(a, p) + Filter(b, p)
  {
    if a == [] {
      assert a + b == b;
    } else {
      assert (a + b)[0] == a[0];
      assert (a + b)[1..] == a[1..] + b;
      FilterAppend(a[1..], b, p);
      if p(a[0]) {
        calc {
          Filter(a + b, p);
          [a[0]] + Filter(a[1..] + b, p);
          [a[0]] + (Filter(a[1..], p) + Filter(b, p));
          ([a[0]] + Filter(a[1..], p)) + Filter(b, p);
          Filter(a, p) + Filter(b, p);
        }
      } else {
        calc {
          Filter(a + b, p);
          Filter(a[1..] + b, p);
          Filter(a[1..], p) + Filter(b, p);
          Filter(a, p) + Filter(b, p);
        }
      }
    }
  }

  /** Nothing is dropped when every element already satisfies `p`. */
  lemma {:induction false} FilterKeepsAll<T>(s: seq<T>, p: T -> bool)
    requires forall i :: 0 <= i < |s| ==> p(s[i])
    ensures Filter(s, p) == s
  {
    if s != [] {
      FilterKeepsAll(s[1..], p);
    }
  }

  /** Two filters can be applied in either order. */
  lemma {:induction false} FilterCommutes<T>(s: seq<T>, p: T -> bool, q: T -> bool)
    ensures Filter(Filter(s, p), q) == Filter(Filter(s, q), p)
  {
    if s != [] {
      FilterCommutes(s[1..], p, q);
    }
  }

  /** A predicate and its complement split `s` between them. */
  lemma {:induction false} FilterComplementLength<T>(s: seq<T>, p: T -> bool, q: T -> bool)
    requires forall x :: q(x) == !p(x)
    ensures |Filter(s, p)| + |Filter(s, q)| == |s|
  {
    if s != [] {
      FilterComplementLength(s[1..], p, q);
    }
  }
}
