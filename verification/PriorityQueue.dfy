/** The binary heap that the timer wheel and the node scheduler both use (std::priority_queue over a
    vector of pointers, earliest time at the root).

    `key` is what the comparator reads through the pointers while one operation runs: no operation
    of the queue changes a key. */
module PriorityQueue {

  ghost predicate Covers<T>(q: seq<T>, key: map<T, real>) {
    forall i :: 0 <= i < |q| ==> q[i] in key
  }

  /** Element i is no earlier than its parent. */
  ghost predicate Edge<T>(q: seq<T>, key: map<T, real>, i: int)
    requires Covers(q, key) && 0 < i < |q|
  {
    key[q[(i - 1) / 2]] <= key[q[i]]
  }

  ghost predicate IsHeap<T>(q: seq<T>, key: map<T, real>) {
    Covers(q, key) && forall i :: 0 < i < |q| ==> Edge(q, key, i)
  }

  /** What is left of the heap when the root's key has been raised in place. */
  ghost predicate IsHeapBelowRoot<T>(q: seq<T>, key: map<T, real>) {
    Covers(q, key) && forall i :: 2 < i < |q| ==> Edge(q, key, i)
  }

  /** The root is an earliest element. */
  lemma {:induction false} RootIsEarliest<T>(q: seq<T>, key: map<T, real>, j: nat)
    requires IsHeap(q, key)
    requires j < |q|
    ensures key[q[0]] <= key[q[j]]
  {
    if j != 0 {
      assert Edge(q, key, j);
      RootIsEarliest(q, key, (j - 1) / 2);
    }
  }

  /** A heap depends on the keys of its own elements only. */
  lemma SameKeys<T>(q: seq<T>, key: map<T, real>, key': map<T, real>)
    requires IsHeap(q, key)
    requires Covers(q, key')
    requires forall i :: 0 <= i < |q| ==> key'[q[i]] == key[q[i]]
    ensures IsHeap(q, key')
  {
    forall i | 0 < i < |q| ensures Edge(q, key', i) {
      assert Edge(q, key, i);
    }
  }

  /** Below the root, a heap depends on the keys of its other elements only. */
  lemma RaisedRoot<T>(q: seq<T>, key: map<T, real>, key': map<T, real>)
    requires IsHeap(q, key)
    requires Covers(q, key')
    requires forall i :: 0 < i < |q| ==> key'[q[i]] == key[q[i]]
    ensures IsHeapBelowRoot(q, key')
  {
    forall i | 2 < i < |q| ensures Edge(q, key', i) {
      assert Edge(q, key, i);
    }
  }

  /** A queue of distinct elements holds its root once. */
  lemma RootIsUnique<T>(q: seq<T>, elements: set<T>)
    requires q != [] && multiset(q) == multiset(elements)
    ensures q[0] in elements
    ensures forall i :: 0 < i < |q| ==> q[i] != q[0]
  {
    assert q == [q[0]] + q[1..];
    assert multiset(q)[q[0]] <= 1;
    forall i | 0 < i < |q| ensures q[i] != q[0] {
      assert q[i] == q[1..][i - 1] && q[i] in multiset(q[1..]);
    }
  }

  function Swap<T>(q: seq<T>, i: nat, j: nat): (r: seq<T>)
    requires i < |q| && j < |q|
  {
    q[i := q[j]][j := q[i]]
  }

  lemma SwapPermutes<T>(q: seq<T>, i: nat, j: nat)
    requires i < j < |q|
    ensures multiset(Swap(q, i, j)) == multiset(q)
  {
    assert q == q[..i] + [q[i]] + q[i + 1..j] + [q[j]] + q[j + 1..];
    assert Swap(q, i, j) == q[..i] + [q[j]] + q[i + 1..j] + [q[i]] + q[j + 1..];
  }

  /** A heap but for element i, whose children are still no earlier than its parent. */
  ghost predicate Rising<T>(q: seq<T>, key: map<T, real>, i: nat) {
    && i < |q|
    && Covers(q, key)
    && (forall j :: 0 < j < |q| && j != i ==> Edge(q, key, j))
    && (0 < i && 2 * i + 1 < |q| ==> key[q[(i - 1) / 2]] <= key[q[2 * i + 1]])
    && (0 < i && 2 * i + 2 < |q| ==> key[q[(i - 1) / 2]] <= key[q[2 * i + 2]])
  }

  lemma RisingStep<T>(q: seq<T>, key: map<T, real>, i: nat)
    requires 0 < i && Rising(q, key, i)
    requires key[q[i]] < key[q[(i - 1) / 2]]
    ensures Rising(Swap(q, (i - 1) / 2, i), key, (i - 1) / 2)
  {
    var p := (i - 1) / 2;
    var r := Swap(q, p, i);
    assert 0 < p ==> Edge(q, key, p);
    forall j | 0 < j < |q| && j != p ensures Edge(r, key, j) {
      if j != i { assert Edge(q, key, j); }
    }
    if 0 < p {
      assert 2 * p + 1 != i ==> Edge(q, key, 2 * p + 1);
      assert 2 * p + 2 < |q| && 2 * p + 2 != i ==> Edge(q, key, 2 * p + 2);
    }
  }

  lemma Risen<T>(q: seq<T>, key: map<T, real>, i: nat)
    requires Rising(q, key, i)
    requires 0 < i ==> key[q[(i - 1) / 2]] <= key[q[i]]
    ensures IsHeap(q, key)
  {
    assert 0 < i ==> Edge(q, key, i);
  }

  lemma AppendRising<T>(q: seq<T>, key: map<T, real>, x: T)
    requires IsHeap(q, key) && x in key
    ensures Rising(q + [x], key, |q|)
  {
    forall j | 0 < j < |q| ensures Edge(q + [x], key, j) {
      assert Edge(q, key, j);
    }
  }

  /** Append at the end, then sift up. */
  method Push<T(==)>(q: seq<T>, key: map<T, real>, x: T) returns (r: seq<T>)
    requires IsHeap(q, key)
    requires x in key
    ensures IsHeap(r, key)
    ensures multiset(r) == multiset(q) + multiset{x}
    ensures |r| == |q| + 1
  {
    r := q + [x];
    var i: nat := |q|;
    AppendRising(q, key, x);
    while 0 < i && key[r[i]] < key[r[(i - 1) / 2]]
      invariant Rising(r, key, i)
      invariant multiset(r) == multiset(q) + multiset{x}
      invariant |r| == |q| + 1
    {
      RisingStep(r, key, i);
      SwapPermutes(r, (i - 1) / 2, i);
      r := Swap(r, (i - 1) / 2, i);
      i := (i - 1) / 2;
    }
    Risen(r, key, i);
  }

  /** A heap but for the children of element i, which are still no earlier than its parent. */
  ghost predicate Sinking<T>(q: seq<T>, key: map<T, real>, i: nat) {
    && i < |q|
    && Covers(q, key)
    && (forall j :: 0 < j < |q| && j != 2 * i + 1 && j != 2 * i + 2 ==> Edge(q, key, j))
    && (0 < i && 2 * i + 1 < |q| ==> key[q[(i - 1) / 2]] <= key[q[2 * i + 1]])
    && (0 < i && 2 * i + 2 < |q| ==> key[q[(i - 1) / 2]] <= key[q[2 * i + 2]])
  }

  function EarlierChild<T>(q: seq<T>, key: map<T, real>, i: nat): (c: nat)
    requires Covers(q, key) && 2 * i + 1 < |q|
    ensures c < |q| && (c == 2 * i + 1 || c == 2 * i + 2)
    ensures key[q[c]] <= key[q[2 * i + 1]]
    ensures 2 * i + 2 < |q| ==> key[q[c]] <= key[q[2 * i + 2]]
  {
    if 2 * i + 2 < |q| && key[q[2 * i + 2]] < key[q[2 * i + 1]] then 2 * i + 2 else 2 * i + 1
  }

  lemma SinkingStep<T>(q: seq<T>, key: map<T, real>, i: nat)
    requires Sinking(q, key, i) && 2 * i + 1 < |q|
    requires key[q[EarlierChild(q, key, i)]] < key[q[i]]
    ensures Sinking(Swap(q, i, EarlierChild(q, key, i)), key, EarlierChild(q, key, i))
  {
    var c := EarlierChild(q, key, i);
    var r := Swap(q, i, c);
    forall j | 0 < j < |q| && j != 2 * c + 1 && j != 2 * c + 2 ensures Edge(r, key, j) {
      if j != 2 * i + 1 && j != 2 * i + 2 { assert Edge(q, key, j); }
    }
    assert 2 * c + 1 < |q| ==> Edge(q, key, 2 * c + 1);
    assert 2 * c + 2 < |q| ==> Edge(q, key, 2 * c + 2);
  }

  lemma Sunk<T>(q: seq<T>, key: map<T, real>, i: nat)
    requires Sinking(q, key, i)
    requires 2 * i + 1 < |q| ==> key[q[i]] <= key[q[EarlierChild(q, key, i)]]
    ensures IsHeap(q, key)
  {
    assert 2 * i + 1 < |q| ==> Edge(q, key, 2 * i + 1);
    assert 2 * i + 2 < |q| ==> Edge(q, key, 2 * i + 2);
  }

  /** The last element takes the place of the root. */
  function LastOnTop<T>(q: seq<T>): (r: seq<T>)
    requires 1 < |q|
  {
    q[..|q| - 1][0 := q[|q| - 1]]
  }

  lemma LastOnTopSinking<T>(q: seq<T>, key: map<T, real>)
    requires 1 < |q| && IsHeapBelowRoot(q, key)
    ensures Sinking(LastOnTop(q), key, 0)
    ensures multiset(LastOnTop(q)) == multiset(q) - multiset{q[0]}
  {
    var n := |q| - 1;
    var r := LastOnTop(q);
    forall j | 2 < j < n ensures Edge(r, key, j) {
      assert Edge(q, key, j);
    }
    assert q == [q[0]] + q[1..n] + [q[n]];
    assert r == [q[n]] + q[1..n];
  }

  /** Drop the root: move the last element up and sift it down.  The root's own key is never read. */
  method Pop<T(==)>(q: seq<T>, key: map<T, real>) returns (r: seq<T>)
    requires 0 < |q|
    requires IsHeapBelowRoot(q, key)
    ensures IsHeap(r, key)
    ensures multiset(r) == multiset(q) - multiset{q[0]}
    ensures |r| == |q| - 1
  {
    if |q| == 1 {
      assert q == [q[0]];
      return [];
    }
    r := LastOnTop(q);
    LastOnTopSinking(q, key);
    var i: nat := 0;
    while 2 * i + 1 < |r| && key[r[EarlierChild(r, key, i)]] < key[r[i]]
      invariant Sinking(r, key, i)
      invariant multiset(r) == multiset(q) - multiset{q[0]}
      invariant |r| == |q| - 1
    {
      var c := EarlierChild(r, key, i);
      SinkingStep(r, key, i);
      SwapPermutes(r, i, c);
      r := Swap(r, i, c);
      i := c;
    }
    Sunk(r, key, i);
  }
}
