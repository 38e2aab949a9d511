/** The heap under the timers of `io_loop.h`: `push_heap`, `pop_heap` and `make_heap` on a vector whose
    root is the earliest deadline. */
module TimerHeap {

  /** `when` is in nanoseconds, the resolution of the system clock; `func` names the callback. */
  datatype EsTime = EsTime(id: int, when: int, func: nat)

  function Parent(j: int): int
    requires j > 0
  {
    (j - 1) / 2
  }

  predicate Above(v: seq<EsTime>, i: int, j: int)
    requires 0 <= i < |v| && 0 <= j < |v|
  {
    v[i].when <= v[j].when
  }

  /** No element is due before its parent, for parents at `from` or later. */
  ghost predicate HeapFrom(v: seq<EsTime>, from: int) {
    forall i, j :: 0 <= i < |v| && 0 < j < |v| && i == Parent(j) && from <= i ==> Above(v, i, j)
  }

  ghost predicate IsHeap(v: seq<EsTime>) {
    HeapFrom(v, 0)
  }

  lemma {:induction false} RootIsLeast(v: seq<EsTime>, j: nat)
    requires IsHeap(v) && j < |v|
    ensures v[0].when <= v[j].when
    decreases j
  {
    if j > 0 {
      assert Above(v, Parent(j), j);
      RootIsLeast(v, Parent(j));
    }
  }

  function Swap(v: seq<EsTime>, i: int, j: int): (r: seq<EsTime>)
    requires 0 <= i < |v| && 0 <= j < |v|
    ensures |r| == |v| && multiset(r) == multiset(v)
  {
    v[i := v[j]][j := v[i]]
  }

  // ------------------------------------------------------------------ the heap algorithms

  /** Heap order everywhere except between `k` and its parent, which is still below all of `k`'s
      children. */
  ghost predicate RisingAt(v: seq<EsTime>, k: int) {
    && 0 <= k < |v|
    && (forall i, j :: 0 <= i < |v| && 0 < j < |v| && i == Parent(j) && j != k ==> Above(v, i, j))
    && (k > 0 ==> forall j {:trigger Above(v, Parent(k), j)} ::
             0 < j < |v| && Parent(j) == k ==> Above(v, Parent(k), j))
  }

  lemma Rise(v: seq<EsTime>, k: int)
    requires RisingAt(v, k) && k > 0 && v[k].when < v[Parent(k)].when
    ensures RisingAt(Swap(v, k, Parent(k)), Parent(k))
  {
    var p, h := Parent(k), Swap(v, k, Parent(k));
    forall i, j | 0 <= i < |v| && 0 < j < |v| && i == Parent(j) && j != p
      ensures Above(h, i, j)
    {
      assert j != k ==> Above(v, i, j);
      assert i == k ==> Above(v, p, j);
    }
    if p > 0 {
      assert Above(v, Parent(p), p);
      forall j | 0 < j < |v| && Parent(j) == p
        ensures Above(h, Parent(p), j)
      {
        assert j != k ==> Above(v, p, j);
      }
    }
  }

  /** Moves the last element up; the rest is a heap. */
  method PushHeap(v: seq<EsTime>) returns (h: seq<EsTime>)
    requires v != [] && IsHeap(v[..|v| - 1])
    ensures IsHeap(h) && multiset(h) == multiset(v)
  {
    h := v;
    var k := |v| - 1;
    assert RisingAt(h, k) by {
      forall i, j | 0 <= i < |v| && 0 < j < |v| && i == Parent(j) && j != k
        ensures Above(v, i, j)
      {
        assert Above(v[..|v| - 1], i, j);
      }
    }
    while k > 0 && h[k].when < h[Parent(k)].when
      invariant RisingAt(h, k) && multiset(h) == multiset(v)
      decreases k
    {
      Rise(h, k);
      h := Swap(h, k, Parent(k));
      k := Parent(k);
    }
    forall i, j | 0 <= i < |h| && 0 < j < |h| && i == Parent(j)
      ensures Above(h, i, j)
    {
      assert j != k ==> Above(h, i, j);
    }
  }

  /** Heap order from `k` on among the first `n`, except below `i`, whose parent is still below all
      of `i`'s children. */
  ghost predicate SinkingAt(v: seq<EsTime>, n: int, k: int, i: int) {
    && 0 <= k <= i < n <= |v|
    && (forall p, j :: 0 <= p < n && 0 < j < n && p == Parent(j) && k <= p && p != i ==> Above(v, p, j))
    && (i > k ==> forall j {:trigger Above(v, Parent(i), j)} ::
             0 < j < n && Parent(j) == i && k <= Parent(i) ==> Above(v, Parent(i), j))
  }

  lemma Sink(v: seq<EsTime>, n: int, k: int, i: int, c: int)
    requires SinkingAt(v, n, k, i) && 0 < c < n && Parent(c) == i
    requires v[c].when < v[i].when
    requires forall j :: 0 < j < n && Parent(j) == i ==> Above(v, c, j)
    ensures SinkingAt(Swap(v, i, c), n, k, c)
  {
    var h := Swap(v, i, c);
    forall p, j | 0 <= p < n && 0 < j < n && p == Parent(j) && k <= p && p != c
      ensures Above(h, p, j)
    {
      assert p != i ==> Above(v, p, j);
      assert p == i ==> Above(v, c, j);
      assert j == i ==> Above(v, Parent(i), c);
    }
    forall j | 0 < j < n && Parent(j) == c
      ensures Above(h, Parent(c), j)
    {
      assert Above(v, c, j);
    }
  }

  function EarlierChild(v: seq<EsTime>, n: int, i: int): (c: int)
    requires 0 <= i && 2 * i + 1 < n <= |v|
    ensures 0 < c < n && Parent(c) == i && i < c
  {
    if 2 * i + 2 < n && v[2 * i + 2].when < v[2 * i + 1].when then 2 * i + 2 else 2 * i + 1
  }

  lemma EarlierChildIsLeast(v: seq<EsTime>, n: int, i: int, j: int)
    requires 0 <= i && 2 * i + 1 < n <= |v| && 0 < j < n && Parent(j) == i
    ensures Above(v, EarlierChild(v, n, i), j)
  {
    assert j == 2 * i + 1 || j == 2 * i + 2;
  }

  lemma Sunk(v: seq<EsTime>, n: int, k: int, i: int)
    requires SinkingAt(v, n, k, i)
    requires 2 * i + 1 < n ==> Above(v, i, EarlierChild(v, n, i))
    ensures HeapFrom(v[..n], k)
  {
    forall p, j | 0 <= p < n && 0 < j < n && p == Parent(j) && k <= p
      ensures Above(v[..n], p, j)
    {
      if p == i {
        EarlierChildIsLeast(v, n, i, j);
      } else {
        assert Above(v, p, j);
      }
    }
  }

  /** Moves the element at `k` down among the first `n` until the heap order holds from `k` on. */
  method SiftDown(v: seq<EsTime>, n: nat, k: nat) returns (h: seq<EsTime>)
    requires k < n <= |v|
    requires HeapFrom(v[..n], k + 1)
    ensures |h| == |v| && multiset(h) == multiset(v)
    ensures HeapFrom(h[..n], k)
    ensures forall i :: 0 <= i < |v| && !(k <= i < n) ==> h[i] == v[i]
  {
    h := v;
    var i := k;
    assert SinkingAt(h, n, k, i) by {
      forall p, j | 0 <= p < n && 0 < j < n && p == Parent(j) && k < p
        ensures Above(v, p, j)
      {
        assert Above(v[..n], p, j);
      }
    }
    while 2 * i + 1 < n
      invariant SinkingAt(h, n, k, i) && |h| == |v| && multiset(h) == multiset(v)
      invariant forall q :: 0 <= q < |v| && !(k <= q < n) ==> h[q] == v[q]
      decreases n - i
    {
      var c := EarlierChild(h, n, i);
      if h[i].when <= h[c].when {
        break;
      }
      forall j | 0 < j < n && Parent(j) == i ensures Above(h, c, j) {
        EarlierChildIsLeast(h, n, i, j);
      }
      Sink(h, n, k, i, c);
      h := Swap(h, i, c);
      i := c;
    }
    Sunk(h, n, k, i);
  }

  /** Moves the root to the end and restores the heap in front of it. */
  method PopHeap(v: seq<EsTime>) returns (h: seq<EsTime>)
    requires v != [] && IsHeap(v)
    ensures |h| == |v| && multiset(h) == multiset(v)
    ensures h[|v| - 1] == v[0] && IsHeap(h[..|v| - 1])
  {
    var n := |v| - 1;
    h := Swap(v, 0, n);
    if n > 0 {
      forall p, j | 0 <= p < n && 0 < j < n && p == Parent(j) && 1 <= p
        ensures Above(h[..n], p, j)
      {
        assert Above(v, p, j);
      }
      h := SiftDown(h, n, 0);
    }
  }

  method MakeHeap(v: seq<EsTime>) returns (h: seq<EsTime>)
    ensures IsHeap(h) && multiset(h) == multiset(v)
  {
    h := v;
    var k := |v| / 2;
    while k > 0
      invariant 0 <= k <= |v| / 2 && |h| == |v| && multiset(h) == multiset(v)
      invariant HeapFrom(h, k)
    {
      k := k - 1;
      assert h[..|h|] == h;
      h := SiftDown(h, |h|, k);
      assert h[..|h|] == h;
    }
  }
}
