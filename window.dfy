/** The per-symbol buffer: a double-ended queue with a maximum length of 100.
    Appending to a full buffer drops its oldest (leftmost) element first. */
module Window {

  /** The `maxlen` every buffer is created with. */
  const Capacity: nat := 100

  /** The last `n` elements of `s`, or all of `s` when it has at most `n`. */
  function Last<T>(s: seq<T>, n: nat): (r: seq<T>)
    ensures |r| == if |s| <= n then |s| else n
  {
    if |s| <= n then s else s[|s| - n..]
  }

  /** Appending one element at the right end of a bounded buffer keeps the
      last `Capacity` elements of the old contents followed by the new one. */
  function Pushed<T>(q: seq<T>, x: T): (r: seq<T>)
    requires |q| <= Capacity
    ensures r == Last(q + [x], Capacity)
  {
    if |q| < Capacity then q + [x] else q[1..] + [x]
  }

  /** The appended element ends the buffer; on a full buffer the length is
      kept and exactly the oldest element is evicted. */
  lemma PushedEvictsOldest<T>(q: seq<T>, x: T)
    requires |q| <= Capacity
    ensures 0 < |Pushed(q, x)| <= Capacity && Pushed(q, x)[|Pushed(q, x)| - 1] == x
    ensures |q| == Capacity ==> |Pushed(q, x)| == Capacity && Pushed(q, x)[..Capacity - 1] == q[1..]
  {
    if |q| == Capacity {
      assert (q + [x])[1..] == q[1..] + [x];
    }
  }

  /** Appending the elements of `xs` one at a time, in order. */
  function PushAll<T>(q: seq<T>, xs: seq<T>): (r: seq<T>)
    requires |q| <= Capacity
    ensures |r| <= Capacity
    decreases |xs|
  {
    if xs == [] then q else PushAll(Pushed(q, xs[0]), xs[1..])
  }

  /** Keeping the last `n` of `a` and then appending `b` keeps the same last
      `n` as appending `b` to all of `a`. */
  lemma {:induction false} LastAppend<T>(a: seq<T>, b: seq<T>, n: nat)
    ensures Last(Last(a, n) + b, n) == Last(a + b, n)
  {
    if |a| > n && |b| > 0 {
      var la := a[|a| - n..];
      var l, r := (la + b)[|b|..], (a + b)[|a| + |b| - n..];
      assert Last(a, n) == la;
      assert Last(la + b, n) == l;
      assert Last(a + b, n) == r;
      forall i | 0 <= i < n ensures l[i] == r[i] {
        if |b| + i < n {
          calc {
            l[i];
            (la + b)[|b| + i];
            la[|b| + i];
            a[|a| - n + |b| + i];
            (a + b)[|a| + |b| - n + i];
          }
        } else {
          calc {
            l[i];
            (la + b)[|b| + i];
            b[|b| + i - n];
            (a + b)[|a| + |b| - n + i];
          }
        }
      }
    } else if |a| > n {
      assert b == [] && Last(a, n) + b == Last(a, n) && a + b == a;
    }
  }

  /** A buffer that has had `xs` appended one at a time holds the last
      `Capacity` elements of its old contents followed by `xs`. */
  lemma {:induction false} PushAllKeepsLast<T>(q: seq<T>, xs: seq<T>)
    requires |q| <= Capacity
    ensures PushAll(q, xs) == Last(q + xs, Capacity)
    decreases |xs|
  {
    if xs == [] {
      assert q + xs == q;
    } else {
      var p := Pushed(q, xs[0]);
      calc {
        PushAll(q, xs);
        PushAll(p, xs[1..]);
        { PushAllKeepsLast(p, xs[1..]); }
        Last(p + xs[1..], Capacity);
        Last(Last(q + [xs[0]], Capacity) + xs[1..], Capacity);
        { LastAppend(q + [xs[0]], xs[1..], Capacity); }
        Last(q + [xs[0]] + xs[1..], Capacity);
        { assert q + [xs[0]] + xs[1..] == q + xs; }
        Last(q + xs, Capacity);
      }
    }
  }

  /** Appending N elements one at a time to an empty buffer leaves exactly the
      last min(N, Capacity) of them, in the order they were appended. */
  lemma PushAllFromEmpty<T>(xs: seq<T>)
    ensures var r := PushAll([], xs);
      |r| == (if |xs| <= Capacity then |xs| else Capacity) &&
      r == xs[|xs| - |r|..]
  {
    PushAllKeepsLast([], xs);
    assert [] + xs == xs;
  }
}
