/**
  The simulation state `HeisenbergModel` (src/hm.rs) and its update methods
  (src/hm/ini.rs, src/hm/updates.rs).

  The random generator is the stream described in module `Diagonal`: the
  field `rngPos` stands for the generator state `rng` and counts the draws
  made so far; `bondAt(k)` and `probAt(k)` are the k-th output read as a bond
  index and as a probability.
 */
module Heisenberg {
  import opened Lattice
  import opened Operators
  import opened Diagonal
  import opened Vertex
  import opened Loops

  /** The initial spin for a draw `u`: up when `u > 0.5`. */
  function SpinFromDraw(u: real): (s: int)
    ensures s == 1 || s == -1
    ensures s == 1 <==> u > 0.5
  {
    if u > 0.5 then 1 else -1
  }

  /** Both ends of every bond of the reference table are sites. */
  lemma BondTableInRange(lx: nat, ly: nat, lattice: seq<Bond>)
    requires |lattice| == NumBonds(lx, ly)
    requires forall b :: 0 <= b < |lattice| ==> lattice[b] == BondSites(lx, ly, b)
    ensures SitesInRange(lattice, lx * ly)
  {
  }

  /** Spins drawn as `+1`/`-1` and a string of identities form a well-formed configuration. */
  lemma InitialConfig(bonds: seq<Bond>, spins: seq<int>, m: nat, pos: nat)
    requires SitesInRange(bonds, |spins|)
    requires forall i :: 0 <= i < |spins| ==> spins[i] == 1 || spins[i] == -1
    ensures WellFormed(bonds, Config(spins, seq(m, _ => Identity), 0, pos))
  {
    IdentitiesCountZero(m);
  }

  /** Appending identities keeps a configuration well formed. */
  lemma GrowString(bonds: seq<Bond>, c: Config, k: nat)
    requires WellFormed(bonds, c)
    ensures WellFormed(bonds, c.(ops := c.ops + seq(k, _ => Identity)))
  {
    CountAppendIdentities(c.ops, k);
  }

  /**
    `prob_add_factor`: `beta * n_bonds / 2`.  It has the sign of `beta` on a
    lattice with bonds, and is zero, which makes `prob_remove_factor`
    infinite, exactly when `beta` is zero or there are no bonds.
   */
  function AddFactor(beta: real, nBonds: nat): (r: real)
    ensures r == 0.0 <==> beta == 0.0 || nBonds == 0
    ensures nBonds > 0 ==> (r > 0.0 <==> beta > 0.0)
  {
    0.5 * beta * nBonds as real
  }

  /** Number of sites below `i` without a leg: the sites that draw a coin of their own. */
  function CountIsolated(first: seq<int>, i: nat): (k: nat)
    requires i <= |first|
    ensures k <= i
  {
    if i == 0 then 0 else CountIsolated(first, i - 1) + (if first[i - 1] == Unlinked then 1 else 0)
  }

  /**
    Whether site `i` flips in the spin part of `loop_update`, when its coins
    start at draw `pos`: by the mark of its first leg if it has one, by its
    own draw otherwise.
   */
  ghost predicate SpinFlipped(first: seq<int>, vl: seq<int>, probAt: nat -> real, pos: nat, i: nat)
    requires i < |first|
  {
    if first[i] != Unlinked then 0 <= first[i] < |vl| && vl[first[i]] == FlipMark
    else probAt(pos + CountIsolated(first, i)) < 0.5
  }

  class HeisenbergModel {
    const lx: nat
    const ly: nat
    const beta: real
    /** Number of sites. */
    const nSites: nat := lx * ly
    /** The generator's k-th output read as a bond index, and as a probability. */
    const bondAt: nat -> nat
    const probAt: nat -> real

    /** Number of operators in the string, and its length (truncation order). */
    var n: nat
    var m: nat
    var nBonds: nat
    var bSites: seq<Bond>
    var probAddFactor: real
    var probRemoveFactor: Factor
    /** Number of draws taken from the generator. */
    var rngPos: nat

    var spins: seq<int>
    var opString: seq<int>
    var vFirst: seq<int>
    var vLast: seq<int>
    var vertexList: seq<int>

    /** The part of the state the diagonal update works on. */
    ghost function Current(): Config
      reads this`spins, this`opString, this`n, this`rngPos
    {
      Config(spins, opString, n, rngPos)
    }

    /** The three arrays `make_vertex_lists` fills. */
    ghost function Linking(): Links
      reads this`vertexList, this`vFirst, this`vLast
    {
      Links(vertexList, vFirst, vLast)
    }

    /** The bond table is the reference lattice, and the generator draws only its bonds. */
    ghost predicate LatticeBuilt()
      reads this`nBonds, this`bSites
    {
      && nBonds == NumBonds(lx, ly)
      && |bSites| == nBonds
      && (forall b {:trigger BondSites(lx, ly, b)} :: 0 <= b < nBonds ==> bSites[b] == BondSites(lx, ly, b))
      && BondStream(bondAt, nBonds)
    }

    /**
      The invariant of an initialized model: the reference lattice, spins
      `+1`/`-1`, an operator string of length `m` on proper bonds with `n`
      operators, and working arrays of the right sizes.  (The two factors are
      set by `Initialization` and no other method writes them.)
     */
    ghost predicate Valid()
      reads this
    {
      && LatticeBuilt()
      && WellFormed(bSites, Current())
      && |spins| == nSites
      && |opString| == m
      && |vFirst| == nSites && |vLast| == nSites
      && |vertexList| == 4 * m
    }

    /** `new`: the parameters, `m = 20`, and empty tables. */
    constructor (lx: nat, ly: nat, beta: real, bondAt: nat -> nat, probAt: nat -> real)
      ensures this.lx == lx && this.ly == ly && this.beta == beta
      ensures this.bondAt == bondAt && this.probAt == probAt
      ensures nSites == lx * ly && n == 0 && m == 20 && nBonds == 0 && bSites == []
      ensures probAddFactor == 0.0 && probRemoveFactor == Finite(0.0) && rngPos == 0
      ensures spins == [] && opString == [] && vFirst == [] && vLast == [] && vertexList == []
    {
      this.lx := lx;
      this.ly := ly;
      this.beta := beta;
      this.bondAt := bondAt;
      this.probAt := probAt;
      n := 0;
      m := 20;
      nBonds := 0;
      bSites := [];
      probAddFactor := 0.0;
      probRemoveFactor := Finite(0.0);
      rngPos := 0;
      spins := [];
      opString := [];
      vFirst := [];
      vLast := [];
      vertexList := [];
    }

    /** `rand_bond`: the next output of the generator, read as a bond index. */
    method RandBond() returns (b: nat)
      modifies this`rngPos
      ensures b == bondAt(old(rngPos)) && rngPos == old(rngPos) + 1
    {
      b := bondAt(rngPos);
      rngPos := rngPos + 1;
    }

    /** `rand_prob`: the next output of the generator, read as a probability. */
    method RandProb() returns (u: real)
      modifies this`rngPos
      ensures u == probAt(old(rngPos)) && rngPos == old(rngPos) + 1
    {
      u := probAt(rngPos);
      rngPos := rngPos + 1;
    }

    /**
      `initialization`: the bond table, the two factors, one random spin per
      site, and an operator string of `m` identities.  The count `n` is left
      as it is, so the model is valid when it starts from `n == 0`, as after
      the constructor, and the generator's bond draws fit the table built.
     */
    method Initialization()
      modifies this
      ensures nBonds == NumBonds(lx, ly) && |bSites| == nBonds
      ensures forall b :: 0 <= b < nBonds ==> bSites[b] == BondSites(lx, ly, b)
      ensures probAddFactor == AddFactor(beta, nBonds)
      ensures probRemoveFactor == Reciprocal(probAddFactor)
      ensures |spins| == nSites && rngPos == old(rngPos) + nSites
      ensures forall i :: 0 <= i < nSites ==> spins[i] == SpinFromDraw(probAt(old(rngPos) + i))
      ensures opString == seq(m, _ => Identity) && vertexList == seq(4 * m, _ => Unlinked)
      ensures vFirst == seq(nSites, _ => Unlinked) && vLast == seq(nSites, _ => Unlinked)
      ensures n == old(n) && m == old(m)
      ensures old(n) == 0 && BondStream(bondAt, nBonds) ==> Valid()
    {
      SetLattice();
      SetFactors();
      var drawn := DrawSpins();
      spins := drawn;
      ResetArrays();
      InitialConfig(bSites, drawn, m, rngPos);
    }

    /** The bond table of `initialization`: `n_bonds` and `b_sites`. */
    method SetLattice()
      modifies this`nBonds, this`bSites
      ensures nBonds == NumBonds(lx, ly) && |bSites| == nBonds
      ensures forall b :: 0 <= b < nBonds ==> bSites[b] == BondSites(lx, ly, b)
      ensures SitesInRange(bSites, nSites)
    {
      nBonds := if ly == 1 then lx else 2 * (lx * ly);
      var lattice := BuildBonds(lx, ly);
      BondTableInRange(lx, ly, lattice);
      bSites := lattice;
    }

    /** The working arrays of `initialization`: `m` identities and unlinked legs and sites. */
    method ResetArrays()
      modifies this`opString, this`vFirst, this`vLast, this`vertexList
      ensures opString == seq(m, _ => Identity) && vertexList == seq(4 * m, _ => Unlinked)
      ensures vFirst == seq(nSites, _ => Unlinked) && vLast == seq(nSites, _ => Unlinked)
    {
      opString := seq(m, _ => Identity);
      vFirst := seq(nSites, _ => Unlinked);
      vLast := seq(nSites, _ => Unlinked);
      vertexList := seq(4 * m, _ => Unlinked);
    }

    /** The two factors of `initialization`: `beta * n_bonds / 2` and its reciprocal. */
    method SetFactors()
      modifies this`probAddFactor, this`probRemoveFactor
      ensures probAddFactor == AddFactor(beta, nBonds)
      ensures probRemoveFactor == Reciprocal(probAddFactor)
    {
      probAddFactor := AddFactor(beta, nBonds);
      probRemoveFactor := Reciprocal(probAddFactor);
    }

    /** The spins of `initialization`: one draw per site, up when it exceeds one half. */
    method DrawSpins() returns (drawn: seq<int>)
      modifies this`rngPos
      ensures |drawn| == nSites && rngPos == old(rngPos) + nSites
      ensures forall i :: 0 <= i < nSites ==> drawn[i] == SpinFromDraw(probAt(old(rngPos) + i))
    {
      drawn := [];
      for i := 0 to nSites
        invariant |drawn| == i && rngPos == old(rngPos) + i
        invariant forall j :: 0 <= j < i ==> drawn[j] == SpinFromDraw(probAt(old(rngPos) + j))
      {
        var u := RandProb();
        drawn := drawn + [if u > 0.5 then 1 else -1];
      }
    }

    /**
      `diag_update`: one sweep over the slots of the operator string, as
      `DiagUpTo` describes it, keeping the invariant.
     */
    method DiagUpdate()
      requires Valid()
      modifies this`spins, this`opString, this`n, this`rngPos
      ensures Valid()
      ensures Current() == DiagUpTo(bSites, probAddFactor, probRemoveFactor, bondAt, probAt, old(Current()), m)
    {
      ghost var c0 := Current();
      for p := 0 to m
        invariant Valid()
        invariant Current() == DiagUpTo(bSites, probAddFactor, probRemoveFactor, bondAt, probAt, c0, p)
      {
        DiagSweepSlot(p, c0);
      }
    }

    /** One iteration of the loop of `diag_update`, at slot `p`, as the `p`-th step of a sweep from `c0`. */
    method DiagSweepSlot(p: nat, ghost c0: Config)
      requires Valid() && p < m
      requires WellFormed(bSites, c0) && |c0.ops| == m
      requires Current() == DiagUpTo(bSites, probAddFactor, probRemoveFactor, bondAt, probAt, c0, p)
      modifies this`spins, this`opString, this`n, this`rngPos
      ensures Valid()
      ensures Current() == DiagUpTo(bSites, probAddFactor, probRemoveFactor, bondAt, probAt, c0, p + 1)
    {
      ghost var before := Current();
      DiagSlot(p);
      DiagUpToStep(bSites, probAddFactor, probRemoveFactor, bondAt, probAt, c0, p, before, Current());
    }

    /** One iteration of the loop of `diag_update`, at slot `p`. */
    method DiagSlot(p: nat)
      requires Valid() && p < m
      modifies this`spins, this`opString, this`n, this`rngPos
      ensures Valid()
      ensures Current() == DiagStep(bSites, probAddFactor, probRemoveFactor, bondAt, probAt, old(Current()), p)
    {
      CountUpdate(opString, p, opString[p]);
      var op := opString[p];
      if op < 0 {
        TryInsert(p);
      } else if op % 2 == 0 {
        TryRemove(p);
      } else {
        var theBond := op / 2;
        spins := spins[bSites[theBond].s0 := -spins[bSites[theBond].s0]];
        spins := spins[bSites[theBond].s1 := -spins[bSites[theBond].s1]];
      }
    }

    /**
      An identity slot: draw a bond, and when its spins are antiparallel put a
      diagonal operator on it with probability `min(1, prob_add_factor/(m-n))`.
     */
    method TryInsert(p: nat)
      requires Valid() && p < m && opString[p] == Identity
      modifies this`opString, this`n, this`rngPos
      ensures Valid()
      ensures Current() == InsertStep(bSites, probAddFactor, bondAt, probAt, old(Current()), p)
    {
      ghost var c0 := Current();
      var newBond := RandBond();
      if spins[bSites[newBond].s0] != spins[bSites[newBond].s1] {
        var accept := AddForced(probAddFactor, m, n);
        if !accept {
          var u := RandProb();
          accept := AddAccepted(probAddFactor, m, n, u);
        }
        if accept {
          opString := opString[p := 2 * newBond];
          n := n + 1;
        }
      }
      assert Current() == InsertStep(bSites, probAddFactor, bondAt, probAt, c0, p);
    }

    /**
      A diagonal slot: remove the operator with probability
      `min(1, prob_remove_factor * (m-n+1))`.
     */
    method TryRemove(p: nat)
      requires Valid() && p < m && IsDiagonal(opString[p])
      modifies this`opString, this`n, this`rngPos
      ensures Valid()
      ensures Current() == RemoveStep(bSites, probRemoveFactor, probAt, old(Current()), p)
    {
      CountUpdate(opString, p, opString[p]);
      var accept := RemoveForced(probRemoveFactor, m, n);
      if !accept {
        var u := RandProb();
        accept := RemoveAccepted(probRemoveFactor, m, n, u);
      }
      if accept {
        CountUpdate(opString, p, Identity);
        opString := opString[p := Identity];
        n := n - 1;
      }
    }

    /**
      `make_vertex_lists`: reset the arrays, link the legs of consecutive
      operators on each site in imaginary-time order, and close every site's
      world line across the periodic boundary.
     */
    method MakeVertexLists()
      requires Valid()
      modifies this`vertexList, this`vFirst, this`vLast
      ensures Valid()
      ensures LinksBuilt(opString, bSites, nSites, Linking())
    {
      ResetLinks();
      ScanStart(opString, bSites, nSites, Linking());
      ScanLinks();
      CloseLinks();
    }

    /**
      The linking loop of `make_vertex_lists`: slot by slot, each operator's
      legs are linked to the previous legs of its two sites.
     */
    method ScanLinks()
      requires Valid() && ScanInv(opString, bSites, nSites, Linking(), 0)
      modifies this`vertexList, this`vFirst, this`vLast
      ensures Valid() && ScanInv(opString, bSites, nSites, Linking(), 2 * m)
    {
      for p := 0 to m
        invariant |vertexList| == 4 * m && |vFirst| == nSites && |vLast| == nSites
        invariant ScanInv(opString, bSites, nSites, Linking(), 2 * p)
      {
        ghost var L := Linking();
        SlotScan(opString, bSites, nSites, L, p);
        LinkSlot(p);
        assert Linking() == SlotLinks(opString, bSites, L, p);
      }
    }

    /** The reset of `make_vertex_lists`: every leg unlinked, no site with a leg. */
    method ResetLinks()
      requires Valid()
      modifies this`vertexList, this`vFirst, this`vLast
      ensures Valid()
      ensures forall x :: 0 <= x < |vertexList| ==> vertexList[x] == Unlinked
      ensures forall s :: 0 <= s < nSites ==> vFirst[s] == Unlinked && vLast[s] == Unlinked
    {
      for v := 0 to 4 * m
        invariant |vertexList| == 4 * m && |vFirst| == nSites && |vLast| == nSites
        invariant forall x :: 0 <= x < v ==> vertexList[x] == Unlinked
      {
        vertexList := vertexList[v := Unlinked];
      }
      for s := 0 to nSites
        invariant |vertexList| == 4 * m && |vFirst| == nSites && |vLast| == nSites
        invariant forall x :: 0 <= x < |vertexList| ==> vertexList[x] == Unlinked
        invariant forall t :: 0 <= t < s ==> vFirst[t] == Unlinked && vLast[t] == Unlinked
      {
        vFirst := vFirst[s := Unlinked];
        vLast := vLast[s := Unlinked];
      }
    }

    /** The linking of slot `p`: for an operator, the blocks of its two sites in turn. */
    method LinkSlot(p: nat)
      requires SlotReady(opString, bSites, Linking(), p)
      modifies this`vertexList, this`vFirst, this`vLast
      ensures Linking() == SlotLinks(opString, bSites, old(Linking()), p)
    {
      var op := opString[p];
      if op != Identity {
        var b := op / 2;
        var s0, s1 := bSites[b].s0, bSites[b].s1;
        var leg0 := 4 * p;
        var s0Last := vLast[s0];
        var s1Last := vLast[s1];
        LinkLeg(s0, leg0, s0Last);
        LinkLeg(s1, leg0 + 1, s1Last);
      }
    }

    /** One site of an operator, as `LinkSite` describes it. */
    method LinkLeg(s: nat, leg: nat, sLast: int)
      requires s < |vFirst| && s < |vLast| && leg < |vertexList| && sLast < |vertexList|
      modifies this`vertexList, this`vFirst, this`vLast
      ensures |vertexList| == old(|vertexList|) && |vFirst| == old(|vFirst|) && |vLast| == old(|vLast|)
      ensures Linking() == LinkSite(old(Linking()), s, leg, sLast)
    {
      if sLast > -1 {
        vertexList := vertexList[sLast := leg];
        vertexList := vertexList[leg := sLast];
      } else {
        vFirst := vFirst[s := leg];
      }
      vLast := vLast[s := leg + 2];
    }

    /**
      The periodic-boundary correction of `make_vertex_lists`: the last leg
      of every site with legs is linked to its first.
     */
    method CloseLinks()
      requires Valid()
      requires ScanInv(opString, bSites, nSites, Linking(), 2 * m)
      modifies this`vertexList
      ensures Valid()
      ensures LinksBuilt(opString, bSites, nSites, Linking())
    {
      ghost var L := Linking();
      var vl := vertexList;
      forall x | 0 <= x < |vl|
        ensures vl[x] == Closed(opString, bSites, nSites, L, 0, x)
      {
      }
      for s := 0 to nSites
        invariant |vl| == 4 * m
        invariant forall x :: 0 <= x < |vl| ==> vl[x] == Closed(opString, bSites, nSites, L, s, x)
      {
        CloseStep(opString, bSites, nSites, L, s, vl);
        var sFirst := vFirst[s];
        var sLast := vLast[s];
        if sFirst != Unlinked {
          vl := vl[sFirst := sLast];
          vl := vl[sLast := sFirst];
        }
      }
      Closing(opString, bSites, nSites, L, vl);
      vertexList := vl;
    }

    /**
      `loop_update`: every loop of the linked legs is traversed once and, on
      a fair coin, flipped (its operators change type, its legs are marked
      `-2`) or left as it is (its legs are marked `-1`); then every site
      whose world line meets an operator takes the flip of the loop through
      its first leg, and every other site is flipped on a coin of its own.
      `starts` are the legs at which the traversals began, in order.
     */
    method LoopUpdate() returns (ghost starts: seq<nat>, ghost loops: seq<seq<nat>>)
      requires Valid() && LinksBuilt(opString, bSites, nSites, Linking())
      modifies this`opString, this`vertexList, this`spins, this`rngPos
      ensures Valid()
      ensures Sweep(old(vertexList), old(opString), opString, vertexList, 4 * m)
      ensures LoopsFound(old(vertexList), vertexList, starts, loops, probAt, old(rngPos))
      ensures forall i :: 0 <= i < nSites ==>
        spins[i] == (if SpinFlipped(vFirst, vertexList, probAt, old(rngPos) + |starts|, i)
                     then -old(spins)[i] else old(spins)[i])
      ensures rngPos == old(rngPos) + |starts| + CountIsolated(vFirst, nSites)
    {
      ghost var ops0 := opString;
      BuiltLinksPair(opString, bSites, nSites, Linking());
      FirstLegsInRange(opString, bSites, nSites, Linking());
      starts, loops := UpdateOperators();
      FlipsKeepOps(ops0, opString, vertexList, bSites);
      UpdateSpins();
    }

    /**
      The operator part of `loop_update`: for each even leg `v` not yet
      marked, a traversal of its loop, flipped when the draw is below one half.
     */
    method UpdateOperators() returns (ghost starts: seq<nat>, ghost loops: seq<seq<nat>>)
      requires |opString| == m && |vertexList| == 4 * m
      requires IsPairing(vertexList) && LinkedOnOps(vertexList, opString) && Processed(vertexList, vertexList)
      modifies this`opString, this`vertexList, this`rngPos
      ensures Sweep(old(vertexList), old(opString), opString, vertexList, 4 * m)
      ensures LoopsFound(old(vertexList), vertexList, starts, loops, probAt, old(rngPos))
      ensures rngPos == old(rngPos) + |starts|
    {
      ghost var links, ops0, pos0 := vertexList, opString, rngPos;
      SweepBegin(links, ops0, probAt, pos0);
      starts, loops := [], [];
      var v := 0;
      while v < 4 * m
        invariant |opString| == m && |vertexList| == 4 * m
        invariant Sweep(links, ops0, opString, vertexList, v)
        invariant LoopsFound(links, vertexList, starts, loops, probAt, pos0)
        invariant forall j :: 0 <= j < |starts| ==> starts[j] < v
        invariant rngPos == pos0 + |starts|
      {
        if vertexList[v] >= 0 {
          starts, loops := TraverseLeg(v, links, ops0, pos0, starts, loops);
        } else {
          SweepSkip(links, ops0, opString, vertexList, v);
        }
        v := v + 2;
      }
    }

    /**
      The body of the loop over even legs of `loop_update` at an unmarked leg
      `v`: a draw, and the traversal of the loop through `v`, flipped when
      the draw is below one half; that loop becomes the next one found.
     */
    method TraverseLeg(v: nat, ghost links: seq<int>, ghost ops0: seq<int>, ghost pos0: nat,
                       ghost starts: seq<nat>, ghost loops: seq<seq<nat>>)
      returns (ghost starts': seq<nat>, ghost loops': seq<seq<nat>>)
      requires v < 4 * m && |opString| == m && |vertexList| == 4 * m && vertexList[v] >= 0
      requires Sweep(links, ops0, opString, vertexList, v)
      requires LoopsFound(links, vertexList, starts, loops, probAt, pos0)
      requires forall j :: 0 <= j < |starts| ==> starts[j] < v
      requires rngPos == pos0 + |starts|
      modifies this`opString, this`vertexList, this`rngPos
      ensures |opString| == m && |vertexList| == 4 * m
      ensures Sweep(links, ops0, opString, vertexList, v + 2)
      ensures LoopsFound(links, vertexList, starts', loops', probAt, pos0)
      ensures starts' == starts + [v] && |loops'| == |loops| + 1
      ensures rngPos == pos0 + |starts'|
    {
      ghost var ops1, vl1 := opString, vertexList;
      var u := RandProb();
      assert probAt(pos0 + |starts|) == u;
      ghost var path := TraverseLoop(v, u < 0.5, links, ops0);
      SweepTraversed(links, ops0, ops1, vl1, opString, vertexList, v, path, LoopMark(u < 0.5));
      LoopsTraversed(links, vl1, vertexList, v, starts, loops, path, probAt, pos0);
      starts', loops' := starts + [v], loops + [path];
    }

    /**
      One traversal of `loop_update`, from the unmarked leg `v`: mark the
      head, step to its partner `head ^ 1`, mark it, follow its link, until
      the head is back at `v`; when `flip`, every head's operator changes
      type.  The heads visited form `path`, the loop through `v`; its legs
      get the loop's mark and no other entry changes.
     */
    method TraverseLoop(v: nat, flip: bool, ghost links: seq<int>, ghost ops0: seq<int>) returns (ghost path: seq<nat>)
      requires Processed(links, vertexList) && v < |vertexList| && vertexList[v] >= 0
      requires |vertexList| == 4 * |opString| && |ops0| == |opString|
      requires LinkedOnOps(links, ops0) && FlipsMatch(ops0, opString, vertexList)
      modifies this`opString, this`vertexList
      ensures |opString| == old(|opString|) && |vertexList| == old(|vertexList|)
      ensures Processed(links, vertexList) && v < |vertexList| && vertexList[v] == LoopMark(flip)
      ensures FlipsMatch(ops0, opString, vertexList)
      ensures IsLoop(links, path, v) && LoopMarked(old(vertexList), vertexList, path, LoopMark(flip))
    {
      ghost var vl0 := vertexList;
      TraverseBegin(links, ops0, opString, vertexList, v, flip);
      var head := v;
      path := [];
      while true
        invariant TraverseState(links, ops0, vl0, opString, vertexList, v, head, path, flip, false)
        decreases CountLinked(vertexList)
      {
        TraverseAdvance(links, ops0, vl0, opString, vertexList, v, head, path, flip);
        path := path + [head];
        head := MarkStep(head, flip);
        if head == v {
          TraverseFinish(links, ops0, vl0, opString, vertexList, v, head, path, flip);
          break;
        }
      }
    }

    /**
      One turn of a traversal loop of `loop_update`: when flipping, the
      head's operator changes type (`^= 1`); the head and its partner are
      marked, and the next head is the leg the partner was linked to.
     */
    method MarkStep(head: nat, flip: bool) returns (next: nat)
      requires head < |vertexList| && Partner(head) < |vertexList| && head / 4 < |opString|
      requires Partner(head) != head && vertexList[Partner(head)] >= 0
      requires flip ==> opString[head / 4] >= 0
      modifies this`opString, this`vertexList
      ensures next == old(vertexList)[Partner(head)]
      ensures vertexList == old(vertexList)[head := LoopMark(flip)][Partner(head) := LoopMark(flip)]
      ensures opString == if flip then old(opString)[head / 4 := FlipType(old(opString)[head / 4])] else old(opString)
    {
      if flip {
        opString := opString[head / 4 := FlipType(opString[head / 4])];
      }
      var mark := LoopMark(flip);
      vertexList := vertexList[head := mark];
      var tail := Partner(head);
      next := vertexList[tail];
      vertexList := vertexList[tail := mark];
    }

    /**
      The spin part of `loop_update`: a site with an operator flips when the
      loop through its first leg was flipped; any other site flips when its
      draw is below one half.
     */
    method UpdateSpins()
      requires |spins| == nSites && |vFirst| == nSites
      requires forall i :: 0 <= i < nSites && vFirst[i] != Unlinked ==> 0 <= vFirst[i] < |vertexList|
      modifies this`spins, this`rngPos
      ensures |spins| == nSites
      ensures forall i :: 0 <= i < nSites ==>
        spins[i] == (if SpinFlipped(vFirst, vertexList, probAt, old(rngPos), i) then -old(spins)[i] else old(spins)[i])
      ensures rngPos == old(rngPos) + CountIsolated(vFirst, nSites)
    {
      ghost var pos0 := rngPos;
      for i := 0 to nSites
        invariant |spins| == nSites && rngPos == pos0 + CountIsolated(vFirst, i)
        invariant forall j :: i <= j < nSites ==> spins[j] == old(spins)[j]
        invariant forall j :: 0 <= j < i ==>
          spins[j] == (if SpinFlipped(vFirst, vertexList, probAt, pos0, j) then -old(spins)[j] else old(spins)[j])
      {
        if vFirst[i] != Unlinked {
          if vertexList[vFirst[i]] == FlipMark {
            spins := spins[i := -spins[i]];
          }
        } else {
          var u := RandProb();
          if u < 0.5 {
            spins := spins[i := -spins[i]];
          }
        }
      }
    }

    /**
      `adjust_m`: when the string is shorter than `n + n/3`, it grows to that
      length with identities and the vertex list is reallocated.  Afterwards
      the string has room for a third more operators than it holds.
     */
    method AdjustM()
      requires Valid()
      modifies this`opString, this`m, this`vertexList
      ensures Valid()
      ensures m >= n + n / 3 && m >= old(m)
      ensures old(m) < n + n / 3 ==>
        m == n + n / 3 &&
        opString == old(opString) + seq(m - old(m), _ => Identity) &&
        vertexList == seq(4 * m, _ => Unlinked)
      ensures old(m) >= n + n / 3 ==> m == old(m) && opString == old(opString) && vertexList == old(vertexList)
    {
      var newM := n + n / 3;
      if m < newM {
        GrowString(bSites, Current(), newM - m);
        opString := opString + seq(newM - m, _ => Identity);
        m := newM;
        vertexList := seq(4 * newM, _ => Unlinked);
      }
    }
  }
}
