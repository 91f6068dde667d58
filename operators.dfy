/**
  The operator string of the series expansion and the spin configuration.

  Slot `p` of `op_string` holds `-1` for the identity, or `2*b + a` for an
  operator on bond `b`, with `a == 0` for the diagonal and `a == 1` for the
  off-diagonal operator (src/hm/updates.rs:3-10).  `n` counts the slots that
  are not the identity.
 */
module Operators {
  import opened Lattice

  /** The entry of an identity slot. */
  const Identity: int := -1

  predicate IsDiagonal(op: int)
  {
    op >= 0 && op % 2 == 0
  }

  predicate IsOffDiagonal(op: int)
  {
    op >= 0 && op % 2 == 1
  }

  /**
    `op ^= 1` on an operator: diagonal and off-diagonal swap, the bond stays.
   */
  function FlipType(op: int): (r: int)
    requires op >= 0
    ensures r >= 0 && r / 2 == op / 2
    ensures IsDiagonal(r) <==> IsOffDiagonal(op)
  {
    if op % 2 == 0 then op + 1 else op - 1
  }

  /** Number of slots that hold an operator (`n`). */
  function CountOps(ops: seq<int>): (c: nat)
    ensures c <= |ops|
  {
    if |ops| == 0 then 0
    else (if ops[0] != Identity then 1 else 0) + CountOps(ops[1..])
  }

  /**
    Overwriting one slot changes the count by the change in that slot alone.
    In particular an identity slot leaves room (`n < m`) and an operator slot
    means `n >= 1`, so neither `m - n` nor `n - 1` can underflow.
   */
  lemma {:induction false} CountUpdate(ops: seq<int>, p: nat, x: int)
    requires p < |ops|
    ensures ops[p] == Identity ==> CountOps(ops) < |ops|
    ensures ops[p] != Identity ==> CountOps(ops) >= 1
    ensures CountOps(ops[p := x]) ==
      CountOps(ops) - (if ops[p] != Identity then 1 else 0) + (if x != Identity then 1 else 0)
  {
    if p == 0 {
      assert ops[p := x][1..] == ops[1..];
    } else {
      CountUpdate(ops[1..], p - 1, x);
      assert ops[p := x][1..] == ops[1..][p - 1 := x];
    }
  }

  /** Appending identity slots does not change the count. */
  lemma {:induction false} CountAppendIdentities(ops: seq<int>, k: nat)
    ensures CountOps(ops + seq(k, _ => Identity)) == CountOps(ops)
  {
    if |ops| == 0 {
      IdentitiesCountZero(k);
      assert ops + seq(k, _ => Identity) == seq(k, _ => Identity);
    } else {
      CountAppendIdentities(ops[1..], k);
      assert (ops + seq(k, _ => Identity))[1..] == ops[1..] + seq(k, _ => Identity);
    }
  }

  /** An operator string of identities only holds no operator. */
  lemma {:induction false} IdentitiesCountZero(k: nat)
    ensures CountOps(seq(k, _ => Identity)) == 0
  {
    if k > 0 {
      IdentitiesCountZero(k - 1);
      assert seq(k, _ => Identity)[1..] == seq(k - 1, _ => Identity);
    }
  }

  /** Flipping the type of operators keeps every slot an operator or an identity. */
  lemma {:induction false} CountSameShape(ops: seq<int>, ops': seq<int>)
    requires |ops'| == |ops|
    requires forall p :: 0 <= p < |ops| ==> (ops[p] == Identity <==> ops'[p] == Identity)
    ensures CountOps(ops') == CountOps(ops)
  {
    if |ops| > 0 {
      CountSameShape(ops[1..], ops'[1..]);
    }
  }

  /**
    Every slot is the identity or an operator on an existing bond whose two
    ends are distinct sites.
   */
  ghost predicate ProperOps(ops: seq<int>, bonds: seq<Bond>)
  {
    forall p :: 0 <= p < |ops| ==>
      ops[p] == Identity ||
      (0 <= ops[p] < 2 * |bonds| && bonds[ops[p] / 2].s0 != bonds[ops[p] / 2].s1)
  }

  /** Every spin is `+1` or `-1`. */
  ghost predicate ValidSpins(spins: seq<int>)
  {
    forall i :: 0 <= i < |spins| ==> spins[i] == 1 || spins[i] == -1
  }

  /**
    A double that may be `+inf`: `prob_remove_factor` is `1/prob_add_factor`,
    which is infinite when `beta == 0` and negative when `beta` is.
   */
  datatype Factor = Finite(value: real) | Infinite

  /** `1.0 / x` in double arithmetic, taking `1.0 / 0.0` to `+inf`. */
  function Reciprocal(x: real): (r: Factor)
    ensures r.Infinite? <==> x == 0.0
    ensures r.Finite? ==> r.value * x == 1.0
  {
    if x == 0.0 then Infinite else Finite(1.0 / x)
  }

  /**
    `f * k >= t` in double arithmetic, for a count `k >= 1`: always for
    `+inf`, otherwise exactly when `f` reaches `t / k`.
   */
  predicate ScaledAtLeast(f: Factor, k: nat, t: real)
    requires k >= 1
    ensures f.Infinite? ==> ScaledAtLeast(f, k, t)
    ensures f.Finite? ==> (ScaledAtLeast(f, k, t) <==> f.value >= t / k as real)
  {
    f.Infinite? || f.value * k as real >= t
  }
}
