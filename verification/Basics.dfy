/** Bytes, optional values and the few facts about finite maps and sets the other modules share. */
module Basics {

  newtype Byte = x: int | 0 <= x < 256

  type Bytes = seq<Byte>

  datatype Option<+T> = None | Some(value: T)

  datatype Result<+T, +E> = Ok(value: T) | Err(error: E)

  const U64_MAX: nat := 0xFFFF_FFFF_FFFF_FFFF

  function Min(a: int, b: int): int {
    if a <= b then a else b
  }

  function Max(a: int, b: int): int {
    if a >= b then a else b
  }

  /** Addition on `u64`/`usize` that stops at the largest value, as `saturating_add` does. */
  function SaturatingAdd(a: nat, b: nat): nat {
    Min(a + b, U64_MAX)
  }

  function Zeros(n: nat): (z: Bytes)
    ensures |z| == n && forall i :: 0 <= i < n ==> z[i] == 0
  {
    seq(n, _ => 0)
  }

  function Concat<T>(parts: seq<seq<T>>): seq<T> {
    if parts == [] then [] else parts[0] + Concat(parts[1..])
  }

  lemma {:induction false} ConcatAppend<T>(parts: seq<seq<T>>, last: seq<T>)
    ensures Concat(parts + [last]) == Concat(parts) + last
  {
    if parts == [] {
    } else {
      assert (parts + [last])[1..] == parts[1..] + [last];
      ConcatAppend(parts[1..], last);
    }
  }

  lemma SubsetSize<T>(a: set<T>, b: set<T>)
    requires a <= b
    ensures |a| <= |b|
  {
    if a != {} {
      var x :| x in a;
      SubsetSize(a - {x}, b - {x});
    }
  }

  /** The numbers `lo`, `lo + 1`, ... , `lo + n - 1`. */
  function Interval(lo: nat, n: nat): (s: set<nat>)
    ensures |s| == n && forall x :: x in s <==> lo <= x < lo + n
  {
    if n == 0 then {} else Interval(lo, n - 1) + {lo + n - 1}
  }

  /** A set of numbers from an interval is no larger than the interval. */
  lemma IntervalSize(s: set<nat>, lo: nat, n: nat)
    requires forall x :: x in s ==> lo <= x < lo + n
    ensures |s| <= n
  {
    SubsetSize(s, Interval(lo, n));
  }

  /** A set of `n` numbers from an interval of length `n` is the whole interval. */
  lemma FullInterval(s: set<nat>, lo: nat, n: nat)
    requires forall x :: x in s ==> lo <= x < lo + n
    requires |s| >= n
    ensures forall x :: lo <= x < lo + n ==> x in s
  {
    forall x | lo <= x < lo + n ensures x in s {
      if x !in s {
        IntervalSize(s + {x}, lo, n);
        assert false;
      }
    }
  }

  /** The total length of the payloads held in a buffer. */
  ghost function PayloadBytes(m: map<nat, Bytes>): nat {
    if m == map[] then 0 else
      var k :| k in m;
      |m[k]| + PayloadBytes(m - {k})
  }

  lemma {:induction false} PayloadBytesRemove(m: map<nat, Bytes>, k: nat)
    requires k in m
    ensures PayloadBytes(m) == |m[k]| + PayloadBytes(m - {k})
    decreases m
  {
    var j :| j in m && PayloadBytes(m) == |m[j]| + PayloadBytes(m - {j});
    if j != k {
      PayloadBytesRemove(m - {j}, k);
      PayloadBytesRemove(m - {k}, j);
      assert m - {j} - {k} == m - {k} - {j};
    }
  }

  lemma PayloadBytesInsert(m: map<nat, Bytes>, k: nat, v: Bytes)
    requires k !in m
    ensures PayloadBytes(m[k := v]) == PayloadBytes(m) + |v|
  {
    PayloadBytesRemove(m[k := v], k);
    assert m[k := v] - {k} == m;
  }

  lemma {:induction false} PayloadBytesBound(m: map<nat, Bytes>, most: nat)
    requires forall k :: k in m ==> |m[k]| <= most
    ensures PayloadBytes(m) <= |m| * most
    decreases m
  {
    if m != map[] {
      var k :| k in m;
      var rest := m - {k};
      assert rest.Keys == m.Keys - {k};
      PayloadBytesRemove(m, k);
      PayloadBytesBound(rest, most);
      hide PayloadBytes;
      Distribute(|rest|, most);
    }
  }

  lemma Distribute(n: nat, most: nat)
    ensures (n + 1) * most == n * most + most
  {
  }
}
