/**
  Specification of the diagonal update `diag_update` (src/hm/updates.rs:13-60).

  The update walks the slots of the operator string in order.  At an identity
  slot it draws a bond and may insert a diagonal operator there; at a diagonal
  slot it may remove the operator; at an off-diagonal slot it flips the two
  spins of the bond, so that the spins stay those of the current imaginary
  time.  The random generator is a stream read at position `pos`: its k-th
  output read as a bond index is `bondAt(k)`, read as a probability in [0, 1)
  is `probAt(k)`.
 */
module Diagonal {
  import opened Lattice
  import opened Operators

  /** The part of the simulation state the diagonal update reads and writes. */
  datatype Config = Config(spins: seq<int>, ops: seq<int>, n: int, pos: nat)

  /** The bookkeeping every configuration keeps. */
  ghost predicate WellFormed(bonds: seq<Bond>, c: Config)
  {
    && SitesInRange(bonds, |c.spins|)
    && ValidSpins(c.spins)
    && ProperOps(c.ops, bonds)
    && c.n == CountOps(c.ops)
  }

  /** Every bond the generator can draw exists. */
  ghost predicate BondStream(bondAt: nat -> nat, nBonds: nat)
  {
    forall k: nat :: bondAt(k) < nBonds
  }

  /** The two spins of a bond differ: only then may a diagonal operator sit on it. */
  predicate Antiparallel(spins: seq<int>, bond: Bond)
    requires bond.s0 < |spins| && bond.s1 < |spins|
  {
    spins[bond.s0] != spins[bond.s1]
  }

  /**
    Insertion is accepted without a draw: `prob_add_factor >= m - n`, that is
    when the insertion ratio `prob_add_factor / (m - n)` is at least one.
   */
  predicate AddForced(addFactor: real, m: nat, n: int)
    ensures n < m ==> (AddForced(addFactor, m, n) <==> addFactor / (m - n) as real >= 1.0)
  {
    addFactor >= (m - n) as real
  }

  /**
    Insertion is accepted by the draw `u`: `prob_add_factor >= u * (m - n)`,
    that is when `u` is at most the insertion ratio `prob_add_factor / (m - n)`.
   */
  predicate AddAccepted(addFactor: real, m: nat, n: int, u: real)
    ensures n < m ==> (AddAccepted(addFactor, m, n, u) <==> u <= addFactor / (m - n) as real)
  {
    addFactor >= u * (m - n) as real
  }

  /**
    Removal is accepted without a draw: `prob_remove_factor * (m - n + 1) >= 1`.
    With `beta == 0` it always is; with a positive factor, exactly when
    `m - n + 1` reaches the insertion factor `1 / prob_remove_factor`.
   */
  predicate RemoveForced(removeFactor: Factor, m: nat, n: int)
    requires 0 <= n <= m
    ensures removeFactor.Infinite? ==> RemoveForced(removeFactor, m, n)
    ensures removeFactor.Finite? && removeFactor.value > 0.0 ==>
      (RemoveForced(removeFactor, m, n) <==> (m - n + 1) as real >= 1.0 / removeFactor.value)
  {
    ScaledAtLeast(removeFactor, m - n + 1, 1.0)
  }

  /**
    Removal is accepted by the draw `u`: `u <= prob_remove_factor * (m - n + 1)`.
    With `beta == 0` it always is; with a positive factor, exactly when `u`
    times the insertion factor `1 / prob_remove_factor` is at most `m - n + 1`.
   */
  predicate RemoveAccepted(removeFactor: Factor, m: nat, n: int, u: real)
    requires 0 <= n <= m
    ensures removeFactor.Infinite? ==> RemoveAccepted(removeFactor, m, n, u)
    ensures removeFactor.Finite? && removeFactor.value > 0.0 ==>
      (RemoveAccepted(removeFactor, m, n, u) <==> u * (1.0 / removeFactor.value) <= (m - n + 1) as real)
  {
    ScaledAtLeast(removeFactor, m - n + 1, u)
  }

  /**
    The first test of each `||` in the source only saves a draw: whenever it
    holds, every draw in `[0, 1]` would be accepted as well.
   */
  lemma ForcedIsAccepted(addFactor: real, removeFactor: Factor, m: nat, n: int, u: real)
    requires 0.0 <= u <= 1.0
    ensures n < m && AddForced(addFactor, m, n) ==> AddAccepted(addFactor, m, n, u)
    ensures 0 <= n <= m && RemoveForced(removeFactor, m, n) ==> RemoveAccepted(removeFactor, m, n, u)
  {
  }

  /**
    Whether slot `p` consumes a probability draw: only when the deterministic
    threshold test fails (the `||` in the source short-circuits).
   */
  ghost predicate DrawsProbability(bonds: seq<Bond>, addFactor: real, removeFactor: Factor,
                                   bondAt: nat -> nat, c: Config, p: nat)
    requires WellFormed(bonds, c) && p < |c.ops| && BondStream(bondAt, |bonds|)
  {
    CountUpdate(c.ops, p, c.ops[p]);
    if c.ops[p] == Identity then
      Antiparallel(c.spins, bonds[bondAt(c.pos)]) && !AddForced(addFactor, |c.ops|, c.n)
    else
      IsDiagonal(c.ops[p]) && !RemoveForced(removeFactor, |c.ops|, c.n)
  }

  /** One iteration of the loop of `diag_update`, at slot `p`. */
  function DiagStep(bonds: seq<Bond>, addFactor: real, removeFactor: Factor,
                    bondAt: nat -> nat, probAt: nat -> real, c: Config, p: nat): (r: Config)
    requires WellFormed(bonds, c) && p < |c.ops| && BondStream(bondAt, |bonds|)
    ensures WellFormed(bonds, r)
    ensures |r.ops| == |c.ops| && |r.spins| == |c.spins|
    // only slot p of the operator string can change
    ensures forall q :: 0 <= q < |c.ops| && q != p ==> r.ops[q] == c.ops[q]
    // an identity slot stays one or receives a diagonal operator on the drawn
    // bond, and only when that bond's spins are antiparallel
    ensures c.ops[p] == Identity ==>
      r.spins == c.spins &&
      (r.ops[p] == Identity ||
       (r.ops[p] == 2 * bondAt(c.pos) && Antiparallel(c.spins, bonds[bondAt(c.pos)])))
    // a diagonal operator stays or is removed
    ensures IsDiagonal(c.ops[p]) ==>
      r.spins == c.spins && (r.ops[p] == c.ops[p] || r.ops[p] == Identity)
    // an off-diagonal operator stays and negates exactly the two spins of its bond
    ensures IsOffDiagonal(c.ops[p]) ==>
      r.ops[p] == c.ops[p] &&
      forall i :: 0 <= i < |c.spins| ==>
        r.spins[i] == (if i == bonds[c.ops[p] / 2].s0 || i == bonds[c.ops[p] / 2].s1
                       then -c.spins[i] else c.spins[i])
    // n moves by one exactly when the slot changes
    ensures r.n == c.n + (if r.ops[p] == c.ops[p] then 0 else if r.ops[p] == Identity then -1 else 1)
    ensures SlotTransition(c.ops[p], r.ops[p])
    ensures r.pos >= c.pos
  {
    if c.ops[p] == Identity then InsertStep(bonds, addFactor, bondAt, probAt, c, p)
    else if IsDiagonal(c.ops[p]) then RemoveStep(bonds, removeFactor, probAt, c, p)
    else OffDiagonalStep(bonds, c, p)
  }

  /** A bond is drawn at every identity slot, a probability only when the threshold test fails. */
  lemma DiagStepDraws(bonds: seq<Bond>, addFactor: real, removeFactor: Factor,
                      bondAt: nat -> nat, probAt: nat -> real, c: Config, p: nat)
    requires WellFormed(bonds, c) && p < |c.ops| && BondStream(bondAt, |bonds|)
    ensures DiagStep(bonds, addFactor, removeFactor, bondAt, probAt, c, p).pos
         == c.pos + (if c.ops[p] == Identity then 1 else 0)
                  + (if DrawsProbability(bonds, addFactor, removeFactor, bondAt, c, p) then 1 else 0)
  {
  }

  /**
    An identity slot: draw a bond; when its spins are antiparallel, insert a
    diagonal operator on it unless the acceptance test rejects it.
   */
  function InsertStep(bonds: seq<Bond>, addFactor: real, bondAt: nat -> nat, probAt: nat -> real,
                      c: Config, p: nat): (r: Config)
    requires WellFormed(bonds, c) && p < |c.ops| && c.ops[p] == Identity && BondStream(bondAt, |bonds|)
    ensures WellFormed(bonds, r)
    ensures r.spins == c.spins && |r.ops| == |c.ops|
    ensures forall q :: 0 <= q < |c.ops| && q != p ==> r.ops[q] == c.ops[q]
    ensures r.ops[p] == Identity ||
            (r.ops[p] == 2 * bondAt(c.pos) && Antiparallel(c.spins, bonds[bondAt(c.pos)]))
    ensures r.n == c.n + (if r.ops[p] == Identity then 0 else 1)
    ensures SlotTransition(Identity, r.ops[p])
    ensures r.pos == c.pos + 1 + (if Antiparallel(c.spins, bonds[bondAt(c.pos)])
                                    && !AddForced(addFactor, |c.ops|, c.n) then 1 else 0)
  {
    var m := |c.ops|;
    var newBond := bondAt(c.pos);
    if Antiparallel(c.spins, bonds[newBond]) then
      var forced := AddForced(addFactor, m, c.n);
      var accept := forced || AddAccepted(addFactor, m, c.n, probAt(c.pos + 1));
      var pos' := if forced then c.pos + 1 else c.pos + 2;
      if accept then
        InsertKeepsWellFormed(bonds, c, p, newBond);
        c.(ops := c.ops[p := 2 * newBond], n := c.n + 1, pos := pos')
      else
        c.(pos := pos')
    else
      c.(pos := c.pos + 1)
  }

  /** A diagonal operator on a bond with antiparallel spins keeps the configuration well formed. */
  lemma InsertKeepsWellFormed(bonds: seq<Bond>, c: Config, p: nat, b: nat)
    requires WellFormed(bonds, c) && p < |c.ops| && c.ops[p] == Identity && b < |bonds|
    requires bonds[b].s0 < |c.spins| && bonds[b].s1 < |c.spins| && Antiparallel(c.spins, bonds[b])
    ensures WellFormed(bonds, c.(ops := c.ops[p := 2 * b], n := c.n + 1))
  {
    CountUpdate(c.ops, p, 2 * b);
  }

  /** A diagonal slot: remove the operator unless the acceptance test rejects it. */
  function RemoveStep(bonds: seq<Bond>, removeFactor: Factor, probAt: nat -> real,
                      c: Config, p: nat): (r: Config)
    requires WellFormed(bonds, c) && p < |c.ops| && IsDiagonal(c.ops[p])
    ensures WellFormed(bonds, r)
    ensures r.spins == c.spins && |r.ops| == |c.ops|
    ensures forall q :: 0 <= q < |c.ops| && q != p ==> r.ops[q] == c.ops[q]
    ensures r.ops[p] == c.ops[p] || r.ops[p] == Identity
    ensures r.n == c.n - (if r.ops[p] == Identity then 1 else 0)
    ensures SlotTransition(c.ops[p], r.ops[p])
    ensures r.pos == c.pos + (if RemoveForced(removeFactor, |c.ops|, c.n) then 0 else 1)
  {
    var m := |c.ops|;
    CountUpdate(c.ops, p, c.ops[p]);
    var forced := RemoveForced(removeFactor, m, c.n);
    var accept := forced || RemoveAccepted(removeFactor, m, c.n, probAt(c.pos));
    var pos' := if forced then c.pos else c.pos + 1;
    if accept then
      RemoveKeepsWellFormed(bonds, c, p);
      c.(ops := c.ops[p := Identity], n := c.n - 1, pos := pos')
    else
      c.(pos := pos')
  }

  /** Removing an operator keeps the configuration well formed. */
  lemma RemoveKeepsWellFormed(bonds: seq<Bond>, c: Config, p: nat)
    requires WellFormed(bonds, c) && p < |c.ops| && c.ops[p] != Identity
    ensures WellFormed(bonds, c.(ops := c.ops[p := Identity], n := c.n - 1))
  {
    CountUpdate(c.ops, p, Identity);
  }

  /** An off-diagonal slot: the operator stays and negates the two spins of its bond. */
  function OffDiagonalStep(bonds: seq<Bond>, c: Config, p: nat): (r: Config)
    requires WellFormed(bonds, c) && p < |c.ops| && IsOffDiagonal(c.ops[p])
    ensures WellFormed(bonds, r)
    ensures r.ops == c.ops && r.n == c.n && r.pos == c.pos && |r.spins| == |c.spins|
    ensures forall i :: 0 <= i < |c.spins| ==>
      r.spins[i] == (if i == bonds[c.ops[p] / 2].s0 || i == bonds[c.ops[p] / 2].s1
                     then -c.spins[i] else c.spins[i])
  {
    var bond := bonds[c.ops[p] / 2];
    var flipped := c.spins[bond.s0 := -c.spins[bond.s0]];
    c.(spins := flipped[bond.s1 := -flipped[bond.s1]])
  }

  /** How an operator-string entry may change over a diagonal sweep. */
  predicate SlotTransition(before: int, after: int)
  {
    && (IsOffDiagonal(before) ==> after == before)
    && (IsDiagonal(before) ==> after == before || after == Identity)
    && (before == Identity ==> after == Identity || IsDiagonal(after))
  }

  /** The state after the first `k` iterations of `diag_update`. */
  function DiagUpTo(bonds: seq<Bond>, addFactor: real, removeFactor: Factor,
                    bondAt: nat -> nat, probAt: nat -> real, c: Config, k: nat): (r: Config)
    requires WellFormed(bonds, c) && k <= |c.ops| && BondStream(bondAt, |bonds|)
    ensures WellFormed(bonds, r)
    ensures |r.ops| == |c.ops| && |r.spins| == |c.spins| && r.pos >= c.pos
    ensures forall q :: k <= q < |c.ops| ==> r.ops[q] == c.ops[q]
    ensures forall q :: 0 <= q < k ==> SlotTransition(c.ops[q], r.ops[q])
    decreases k
  {
    if k == 0 then c
    else
      var prev := DiagUpTo(bonds, addFactor, removeFactor, bondAt, probAt, c, k - 1);
      DiagStep(bonds, addFactor, removeFactor, bondAt, probAt, prev, k - 1)
  }

  /** One more iteration after the first `k`. */
  lemma DiagUpToStep(bonds: seq<Bond>, addFactor: real, removeFactor: Factor,
                     bondAt: nat -> nat, probAt: nat -> real, c: Config, k: nat, prev: Config, next: Config)
    requires WellFormed(bonds, c) && k < |c.ops| && BondStream(bondAt, |bonds|)
    requires prev == DiagUpTo(bonds, addFactor, removeFactor, bondAt, probAt, c, k)
    requires next == DiagStep(bonds, addFactor, removeFactor, bondAt, probAt, prev, k)
    ensures next == DiagUpTo(bonds, addFactor, removeFactor, bondAt, probAt, c, k + 1)
  {
  }

  /**
    After a full sweep `n` still counts the operators, the spins are still
    `+1`/`-1`, no off-diagonal operator appeared or vanished, and every slot
    changed only as `SlotTransition` allows.
   */
  lemma DiagSweepKeepsInvariants(bonds: seq<Bond>, addFactor: real, removeFactor: Factor,
                                 bondAt: nat -> nat, probAt: nat -> real, c: Config)
    requires WellFormed(bonds, c) && BondStream(bondAt, |bonds|)
    ensures var r := DiagUpTo(bonds, addFactor, removeFactor, bondAt, probAt, c, |c.ops|);
      && r.n == CountOps(r.ops) <= |r.ops| == |c.ops|
      && ValidSpins(r.spins)
      && forall q :: 0 <= q < |c.ops| ==> (IsOffDiagonal(r.ops[q]) <==> IsOffDiagonal(c.ops[q]))
  {
    var r := DiagUpTo(bonds, addFactor, removeFactor, bondAt, probAt, c, |c.ops|);
    forall q | 0 <= q < |c.ops|
      ensures IsOffDiagonal(r.ops[q]) <==> IsOffDiagonal(c.ops[q])
    {
      assert SlotTransition(c.ops[q], r.ops[q]);
    }
  }

  /**
    The spins just after the operator `op` acts on `spins`: an off-diagonal
    operator negates the two spins of its bond, anything else changes none.
   */
  function Apply(bonds: seq<Bond>, spins: seq<int>, op: int): (r: seq<int>)
    requires SitesInRange(bonds, |spins|)
    requires op == Identity || 0 <= op < 2 * |bonds|
    ensures |r| == |spins|
    ensures forall i :: 0 <= i < |spins| ==>
      r[i] == (if Negated(bonds, op, i) then -spins[i] else spins[i])
    ensures ValidSpins(spins) ==> ValidSpins(r)
  {
    if IsOffDiagonal(op) then
      var bond := bonds[op / 2];
      var flipped := spins[bond.s0 := -spins[bond.s0]];
      flipped[bond.s1 := -flipped[bond.s1]]
    else spins
  }

  /** Site `i` is one of the two distinct sites of the bond of the off-diagonal operator `op`. */
  predicate Negated(bonds: seq<Bond>, op: int, i: nat)
    requires op == Identity || 0 <= op < 2 * |bonds|
  {
    && IsOffDiagonal(op)
    && bonds[op / 2].s0 != bonds[op / 2].s1
    && (i == bonds[op / 2].s0 || i == bonds[op / 2].s1)
  }

  /** An operator acting twice gives back the spins it started from. */
  lemma ApplyTwice(bonds: seq<Bond>, spins: seq<int>, op: int)
    requires SitesInRange(bonds, |spins|)
    requires op == Identity || 0 <= op < 2 * |bonds|
    ensures Apply(bonds, Apply(bonds, spins, op), op) == spins
  {
    var r := Apply(bonds, Apply(bonds, spins, op), op);
    assert forall i :: 0 <= i < |spins| ==> r[i] == spins[i];
  }

  /**
    Propagation of the spins through the operators `ops` in imaginary-time
    order: only the off-diagonal operators change them.
   */
  function Propagate(bonds: seq<Bond>, spins: seq<int>, ops: seq<int>): (r: seq<int>)
    requires SitesInRange(bonds, |spins|) && ProperOps(ops, bonds)
    ensures |r| == |spins|
  {
    if |ops| == 0 then spins
    else Apply(bonds, Propagate(bonds, spins, ops[..|ops| - 1]), ops[|ops| - 1])
  }

  /**
    After `k` iterations the spins are those of imaginary time `k`: the start
    spins propagated through the first `k` slots of the operator string.
   */
  lemma {:induction false} DiagUpToPropagates(bonds: seq<Bond>, addFactor: real, removeFactor: Factor,
                                              bondAt: nat -> nat, probAt: nat -> real, c: Config, k: nat)
    requires WellFormed(bonds, c) && k <= |c.ops| && BondStream(bondAt, |bonds|)
    ensures DiagUpTo(bonds, addFactor, removeFactor, bondAt, probAt, c, k).spins
         == Propagate(bonds, c.spins, c.ops[..k])
  {
    if k > 0 {
      DiagUpToPropagates(bonds, addFactor, removeFactor, bondAt, probAt, c, k - 1);
      var prev := DiagUpTo(bonds, addFactor, removeFactor, bondAt, probAt, c, k - 1);
      StepPropagates(bonds, addFactor, removeFactor, bondAt, probAt, prev, k - 1);
      PropagateSnoc(bonds, c.spins, c.ops, k - 1);
    }
  }

  /** Propagating through one more slot applies that slot's operator. */
  lemma PropagateSnoc(bonds: seq<Bond>, spins: seq<int>, ops: seq<int>, k: nat)
    requires SitesInRange(bonds, |spins|) && ProperOps(ops, bonds) && k < |ops|
    ensures ProperOps(ops[..k], bonds) && ProperOps(ops[..k + 1], bonds)
    ensures Propagate(bonds, spins, ops[..k + 1]) == Apply(bonds, Propagate(bonds, spins, ops[..k]), ops[k])
  {
    assert ops[..k + 1][..k] == ops[..k];
  }

  /** One iteration moves the spins across the operator of its slot. */
  lemma StepPropagates(bonds: seq<Bond>, addFactor: real, removeFactor: Factor,
                       bondAt: nat -> nat, probAt: nat -> real, c: Config, p: nat)
    requires WellFormed(bonds, c) && p < |c.ops| && BondStream(bondAt, |bonds|)
    ensures DiagStep(bonds, addFactor, removeFactor, bondAt, probAt, c, p).spins
         == Apply(bonds, c.spins, c.ops[p])
  {
    var r := DiagStep(bonds, addFactor, removeFactor, bondAt, probAt, c, p);
    var applied := Apply(bonds, c.spins, c.ops[p]);
    if IsOffDiagonal(c.ops[p]) {
      forall i | 0 <= i < |r.spins|
        ensures r.spins[i] == applied[i]
      {
      }
    }
  }

  /** Strings that agree on their off-diagonal operators propagate spins alike. */
  lemma {:induction false} PropagateOffDiagonalOnly(bonds: seq<Bond>, spins: seq<int>, ops: seq<int>, ops': seq<int>)
    requires SitesInRange(bonds, |spins|) && ProperOps(ops, bonds) && ProperOps(ops', bonds)
    requires |ops'| == |ops|
    requires forall q :: 0 <= q < |ops| ==> (IsOffDiagonal(ops[q]) || IsOffDiagonal(ops'[q]) ==> ops[q] == ops'[q])
    ensures Propagate(bonds, spins, ops) == Propagate(bonds, spins, ops')
  {
    if |ops| > 0 {
      PropagateOffDiagonalOnly(bonds, spins, ops[..|ops| - 1], ops'[..|ops| - 1]);
    }
  }

  /**
    A full sweep leaves the spins at the end of imaginary time for the new
    operator string, and a configuration whose world lines are periodic
    (propagation through the whole string returns the start spins) ends the
    sweep with the spins it started with.
   */
  lemma DiagSweepSpins(bonds: seq<Bond>, addFactor: real, removeFactor: Factor,
                       bondAt: nat -> nat, probAt: nat -> real, c: Config)
    requires WellFormed(bonds, c) && BondStream(bondAt, |bonds|)
    ensures var r := DiagUpTo(bonds, addFactor, removeFactor, bondAt, probAt, c, |c.ops|);
      && r.spins == Propagate(bonds, c.spins, r.ops)
      && (Propagate(bonds, c.spins, c.ops) == c.spins ==> r.spins == c.spins)
  {
    var r := DiagUpTo(bonds, addFactor, removeFactor, bondAt, probAt, c, |c.ops|);
    DiagUpToPropagates(bonds, addFactor, removeFactor, bondAt, probAt, c, |c.ops|);
    assert c.ops[..|c.ops|] == c.ops;
    forall q | 0 <= q < |c.ops|
      ensures IsOffDiagonal(c.ops[q]) || IsOffDiagonal(r.ops[q]) ==> c.ops[q] == r.ops[q]
    {
      assert SlotTransition(c.ops[q], r.ops[q]);
    }
    PropagateOffDiagonalOnly(bonds, c.spins, c.ops, r.ops);
  }
}
