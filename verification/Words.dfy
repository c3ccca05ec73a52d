/**
 Machine words.  Kernel fields are naturals; every C operation that can wrap
 is written with the wrapping operator of its width.
 */
module Words {

  const TWO16: nat := 0x1_0000
  const TWO32: nat := 0x1_0000_0000
  const TWO64: nat := 0x1_0000_0000_0000_0000
  const UINT64_MAX: nat := 0xFFFF_FFFF_FFFF_FFFF

  type u16 = x: nat | x < 0x1_0000
  type u32 = x: nat | x < 0x1_0000_0000
  type u64 = x: nat | x < 0x1_0000_0000_0000_0000

  datatype Option<+T> = None | Some(value: T)

  /** uint64_t addition. */
  function Add64(a: nat, b: nat): nat {
    (a + b) % TWO64
  }

  /** uint32_t addition. */
  function Add32(a: nat, b: nat): nat {
    (a + b) % TWO32
  }

  function Max(a: nat, b: nat): nat {
    if a < b then b else a
  }
}

/** Sums over sequences of naturals, and how they react to pointwise change. */
module Sums {

  function Sum(a: seq<nat>): nat {
    if a == [] then 0 else Sum(a[..|a| - 1]) + a[|a| - 1]
  }

  lemma {:induction false} SumMonotone(a: seq<nat>, b: seq<nat>)
    requires |a| == |b|
    requires forall i :: 0 <= i < |a| ==> a[i] <= b[i]
    ensures Sum(a) <= Sum(b)
  {
    if a != [] {
      SumMonotone(a[..|a| - 1], b[..|b| - 1]);
    }
  }

  /** Lowering one element by k, and no element rising, lowers the sum by k. */
  lemma {:induction false} SumDrop(a: seq<nat>, b: seq<nat>, c: nat, k: nat)
    requires |a| == |b| && c < |a|
    requires forall i :: 0 <= i < |a| ==> a[i] <= b[i]
    requires a[c] + k <= b[c]
    ensures Sum(a) + k <= Sum(b)
  {
    var n := |a| - 1;
    if c == n {
      SumMonotone(a[..n], b[..n]);
    } else {
      SumDrop(a[..n], b[..n], c, k);
    }
  }

  lemma {:induction false} SumAtLeast(a: seq<nat>, c: nat)
    requires c < |a|
    ensures a[c] <= Sum(a)
  {
    if c < |a| - 1 {
      SumAtLeast(a[..|a| - 1], c);
    }
  }

  lemma {:induction false} SumUpdate(a: seq<nat>, c: nat, v: nat)
    requires c < |a|
    ensures Sum(a[c := v]) + a[c] == Sum(a) + v
  {
    var n := |a| - 1;
    if c == n {
      assert a[c := v][..n] == a[..n];
    } else {
      assert a[c := v][..n] == a[..n][c := v];
      SumUpdate(a[..n], c, v);
    }
  }
}
