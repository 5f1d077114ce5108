/**
 * The few array primitives of JAX that the three engines depend on, stated on
 * sequences: `argmax` over a boolean vector, `nonzero(..., size=1)`,
 * `count_nonzero`, and the index convention of a gather (`x[i]` with a traced `i`).
 */
module Jax {

  /** Index of the first `true` entry of `a`, or `|a|` when there is none. */
  function FirstTrue(a: seq<bool>): (k: nat)
    ensures k <= |a|
    ensures k < |a| ==> a[k]
    ensures forall j | 0 <= j < k :: !a[j]
  {
    if a == [] then 0 else if a[0] then 0 else 1 + FirstTrue(a[1..])
  }

  /**
   * `jnp.argmax` on a boolean vector: the first position holding `true`;
   * position 0 when every entry is `false` (argmax of a constant vector).
   */
  function ArgMaxBool(a: seq<bool>): (k: nat)
    ensures |a| > 0 ==> k < |a|
    ensures k < |a| && a[k] ==> forall j | 0 <= j < k :: !a[j]
    ensures (exists i | 0 <= i < |a| :: a[i]) ==> k < |a| && a[k]
    ensures (forall i | 0 <= i < |a| :: !a[i]) ==> k == 0
  {
    var f := FirstTrue(a);
    if f == |a| then 0 else f
  }

  /** `jnp.count_nonzero` on a boolean vector. */
  function CountNonzero(a: seq<bool>): (n: nat)
    ensures n <= |a|
    ensures n == 0 <==> forall i | 0 <= i < |a| :: !a[i]
    ensures n == |a| <==> forall i | 0 <= i < |a| :: a[i]
  {
    if a == [] then 0 else (if a[0] then 1 else 0) + CountNonzero(a[1..])
  }

  /** The broadcast comparison `row == v` of JAX. */
  function Equals(row: seq<int>, v: int): (r: seq<bool>)
    ensures |r| == |row|
    ensures forall i | 0 <= i < |row| :: r[i] <==> row[i] == v
  {
    seq(|row|, i requires 0 <= i < |row| => row[i] == v)
  }

  /** `jnp.maximum` on two scalars. */
  function Max(a: int, b: int): (m: int)
    ensures m >= a && m >= b && (m == a || m == b)
  {
    if a < b then b else a
  }

  /**
   * The element a gather `x[i]` reads on an axis of length `n`: a negative index
   * counts once from the end, and an index still outside the axis is clamped to
   * its nearest end.
   */
  function GatherIndex(i: int, n: int): (k: int)
    requires n > 0
    ensures 0 <= k < n
    ensures 0 <= i < n ==> k == i
    ensures -n <= i < 0 ==> k == i + n
    ensures i >= n ==> k == n - 1
  {
    var j := if i < 0 then i + n else i;
    if j < 0 then 0 else if j >= n then n - 1 else j
  }

  /** Clearing one entry lowers the count by one exactly when that entry was set. */
  lemma {:induction false} CountClear(a: seq<bool>, i: int)
    requires 0 <= i < |a|
    ensures CountNonzero(a[i := false]) == CountNonzero(a) - (if a[i] then 1 else 0)
  {
    if i > 0 {
      assert a[i := false][1..] == a[1..][i - 1 := false];
      CountClear(a[1..], i - 1);
    } else {
      assert a[i := false][1..] == a[1..];
    }
  }

  /** Setting one entry raises the count by one exactly when that entry was clear. */
  lemma {:induction false} CountSet(a: seq<bool>, i: int)
    requires 0 <= i < |a|
    ensures CountNonzero(a[i := true]) == CountNonzero(a) + (if a[i] then 0 else 1)
  {
    if i > 0 {
      assert a[i := true][1..] == a[1..][i - 1 := true];
      CountSet(a[1..], i - 1);
    } else {
      assert a[i := true][1..] == a[1..];
    }
  }

  /** Clearing entries never raises the count. */
  lemma {:induction false} CountMonotone(a: seq<bool>, b: seq<bool>)
    requires |a| == |b|
    requires forall i | 0 <= i < |a| :: b[i] ==> a[i]
    ensures CountNonzero(b) <= CountNonzero(a)
  {
    if a != [] {
      CountMonotone(a[1..], b[1..]);
    }
  }

  /** The count of a vector that is the disjoint union of two others is their sum. */
  lemma {:induction false} CountDisjointUnion(a: seq<bool>, b: seq<bool>, c: seq<bool>)
    requires |a| == |b| == |c|
    requires forall i | 0 <= i < |a| :: a[i] == (b[i] || c[i]) && !(b[i] && c[i])
    ensures CountNonzero(a) == CountNonzero(b) + CountNonzero(c)
  {
    if a != [] {
      CountDisjointUnion(a[1..], b[1..], c[1..]);
    }
  }
}
