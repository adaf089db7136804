/** The browser's pending callbacks as a list: one firing is removed by
    position, and `cancelAnimationFrame` / `clearInterval` drop the
    callback registered under a handle. */
module Timers {
  /** `xs` without its k-th entry, the rest in order. */
  function RemoveAt<T>(xs: seq<T>, k: nat): (r: seq<T>)
    requires k < |xs|
    ensures |r| == |xs| - 1
    ensures forall i :: 0 <= i < k ==> r[i] == xs[i]
    ensures forall i :: k <= i < |r| ==> r[i] == xs[i + 1]
  {
    xs[..k] + xs[k + 1..]
  }

  lemma RemoveAtMembers<T>(xs: seq<T>, k: nat)
    requires k < |xs|
    ensures forall x :: x in RemoveAt(xs, k) ==> x in xs
  {
    var r := RemoveAt(xs, k);
    forall x | x in r ensures x in xs {
      var i :| 0 <= i < |r| && r[i] == x;
      if i < k { assert xs[i] == x; } else { assert xs[i + 1] == x; }
    }
  }

  /** Cancelling handle `id`: the callbacks registered under it are
      dropped and every other stays (`CancelConcat` states the order). */
  function Cancel<T(!new)>(xs: seq<T>, handle: T -> nat, id: nat): (r: seq<T>)
    ensures forall x :: x in r <==> x in xs && handle(x) != id
    ensures (forall x :: x in xs ==> handle(x) != id) ==> r == xs
    ensures (forall x :: x in xs ==> handle(x) == id) ==> r == []
  {
    if |xs| == 0 then []
    else
      assert forall x :: x in xs <==> x == xs[0] || x in xs[1..];
      var tail := Cancel(xs[1..], handle, id);
      if handle(xs[0]) == id then tail
      else
        assert xs == [xs[0]] + xs[1..];
        [xs[0]] + tail
  }

  /** Cancelling keeps order and repeats: on a concatenation it is the
      concatenation of the two results. */
  lemma {:induction false} CancelConcat<T(!new)>(a: seq<T>, b: seq<T>, handle: T -> nat, id: nat)
    ensures Cancel(a + b, handle, id) == Cancel(a, handle, id) + Cancel(b, handle, id)
    decreases |a|
  {
    if |a| == 0 {
      assert a + b == b;
    } else {
      assert (a + b)[0] == a[0] && (a + b)[1..] == a[1..] + b;
      CancelConcat(a[1..], b, handle, id);
    }
  }

  /** A single callback stays exactly when its handle differs. */
  lemma CancelSingle<T(!new)>(x: T, handle: T -> nat, id: nat)
    ensures Cancel([x], handle, id) == if handle(x) != id then [x] else []
  {
    assert [x][1..] == [];
  }
}
