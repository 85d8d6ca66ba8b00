/** What all parts share: machine integers, values that may be missing, sizes of maps. */
module Basics {

  datatype Option<+T> = None | Some(value: T)

  type uint8 = x: int | 0 <= x < 0x100
  type uint16 = x: int | 0 <= x < 0x1_0000
  type uint32 = x: int | 0 <= x < 0x1_0000_0000
  type uint64 = x: int | 0 <= x < 0x1_0000_0000_0000_0000
  type int16 = x: int | -0x8000 <= x < 0x8000
  type bit = x: int | 0 <= x < 2

  const TWO32: int := 0x1_0000_0000

  /** A value stored in 16 bits. */
  function U16(x: int): (r: uint16)
    ensures 0 <= x < 0x1_0000 ==> r == x
  {
    x % 0x1_0000
  }

  /** A value stored in 32 bits. */
  function U32(x: int): (r: uint32)
    ensures 0 <= x < TWO32 ==> r == x
  {
    x % TWO32
  }

  /** 0, 1, ..., n-1 */
  function Iota(n: nat): (s: seq<nat>)
    ensures |s| == n && forall i :: 0 <= i < n ==> s[i] == i
  {
    seq(n, i => i)
  }

  lemma RemovedKey<K, V>(m: map<K, V>, k: K)
    requires k in m
    ensures |m - {k}| == |m| - 1
  {
    assert m.Keys == (m - {k}).Keys + {k};
  }

  lemma AddedKey<K, V>(m: map<K, V>, k: K, v: V)
    requires k !in m
    ensures |m[k := v]| == |m| + 1
  {
    assert m[k := v].Keys == m.Keys + {k};
  }

  ghost predicate NoRepeats<T>(s: seq<T>) {
    forall i, j :: 0 <= i < j < |s| ==> s[i] != s[j]
  }

  /** All that a row of sequences holds, in order. */
  function Flatten<T>(rows: seq<seq<T>>): seq<T> {
    if rows == [] then [] else rows[0] + Flatten(rows[1..])
  }

  /** A product whose factors are not multiplied out. */
  function Mul(x: int, y: int): int { x * y }

  lemma MulGrows(a: int, b: int, c: nat)
    requires a <= b
    ensures Mul(a, c) <= Mul(b, c)
  {
    assert Mul(b, c) - Mul(a, c) == (b - a) * c;
    assert (b - a) * c >= 0;
  }
}
