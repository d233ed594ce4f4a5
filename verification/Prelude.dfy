/** Small vocabulary shared by the other modules. */
module Prelude {

  datatype Option<+T> = None | Some(value: T)

  type byte = b: int | 0 <= b < 256

  const U32_LIMIT: nat := 0x1_0000_0000
  const U64_LIMIT: nat := 0x1_0000_0000_0000_0000

  function MinNat(x: nat, y: nat): nat {
    if x <= y then x else y
  }

  function MaxNat(x: nat, y: nat): nat {
    if x <= y then y else x
  }

  function Min(x: real, y: real): real {
    if x <= y then x else y
  }

  function Max(x: real, y: real): real {
    if x <= y then y else x
  }

  function Clamp(x: real, lo: real, hi: real): real
    requires lo <= hi
  {
    if x < lo then lo else if x > hi then hi else x
  }

  /** `u64::saturating_sub`. */
  function Monus(x: nat, y: nat): nat {
    if x < y then 0 else x - y
  }

  /** Integer division rounding up. */
  function DivCeil(n: nat, d: nat): nat
    requires d > 0
  {
    if n % d == 0 then n / d else n / d + 1
  }

  /** `f64::ceil` followed by the cast to an unsigned integer, for x >= 0. */
  function Ceil(x: real): nat
    requires x >= 0.0
  {
    if x == x.Floor as real then x.Floor else x.Floor + 1
  }

  /** The set {0, ..., n-1}. */
  function Below(n: nat): (s: set<nat>)
    ensures forall i: nat :: i in s <==> i < n
    ensures |s| == n
  {
    if n == 0 then {} else Below(n - 1) + {n - 1}
  }

  lemma SubsetSize<T>(a: set<T>, b: set<T>)
    requires a <= b
    ensures |b - a| == |b| - |a|
    ensures |a| <= |b|
  {
    assert b == a + (b - a);
  }

  /** Number of true entries. */
  function CountTrue(s: seq<bool>): nat {
    if s == [] then 0 else CountTrue(s[..|s| - 1]) + (if s[|s| - 1] then 1 else 0)
  }

  lemma {:induction false} CountTrueBound(s: seq<bool>)
    ensures CountTrue(s) <= |s|
    ensures CountTrue(s) == |s| <==> forall i | 0 <= i < |s| :: s[i]
  {
    if s != [] {
      CountTrueBound(s[..|s| - 1]);
      assert forall i | 0 <= i < |s| - 1 :: s[..|s| - 1][i] == s[i];
      assert (forall i | 0 <= i < |s| :: s[i]) <==> s[|s| - 1] && forall i | 0 <= i < |s| - 1 :: s[i];
    }
  }

  /** Switching one false entry on raises the count by one. */
  lemma {:induction false} CountTrueSet(s: seq<bool>, i: nat)
    requires i < |s| && !s[i]
    ensures CountTrue(s[i := true]) == CountTrue(s) + 1
  {
    var t := s[i := true];
    if i == |s| - 1 {
      assert t[..|s| - 1] == s[..|s| - 1];
    } else {
      assert t[..|s| - 1] == s[..|s| - 1][i := true];
      CountTrueSet(s[..|s| - 1], i);
    }
  }

  lemma {:induction false} AllFalse(n: nat)
    ensures CountTrue(seq(n, _ => false)) == 0
  {
    if n > 0 {
      AllFalse(n - 1);
      assert seq(n, _ => false)[..n - 1] == seq(n - 1, _ => false);
    }
  }

  ghost predicate Distinct(s: seq<nat>) {
    forall i, j | 0 <= i < j < |s| :: s[i] != s[j]
  }

  lemma MulMono(a: nat, b: nat, c: nat)
    requires a <= b
    ensures a * c <= b * c
  {
  }

  lemma Cancel(a: real, b: real, r: real)
    requires r > 0.0
    ensures a * r >= b * r ==> a >= b
  {
    if a < b {
      assert (b - a) * r > 0.0;
    }
  }
}
