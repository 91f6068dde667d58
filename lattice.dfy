/**
  The lattice of the Heisenberg model: the bond table `b_sites` that
  `initialization` builds (src/hm/ini.rs).  A lattice of `lx` by `ly` sites is
  a periodic chain of `lx` bonds when `ly == 1`, and otherwise a periodic square
  lattice with `lx*ly` horizontal bonds followed by `lx*ly` vertical bonds.
  Site `(i, j)` (column `i`, row `j`) has index `lx*j + i`.
 */
module Lattice {

  /** One nearest-neighbour bond: the two sites its operator acts on. */
  datatype Bond = Bond(s0: nat, s1: nat)

  /**
    Number of bonds of the lattice (`n_bonds`): one per site on a chain, two
    per site on a square lattice; the table is empty exactly when one of the
    sizes is zero.
   */
  function NumBonds(lx: nat, ly: nat): (n: nat)
    ensures lx * ly <= n <= 2 * (lx * ly)
    ensures n == 0 <==> lx == 0 || ly == 0
  {
    if ly == 1 then lx else 2 * (lx * ly)
  }

  /**
    Reference definition of bond `b`, written from its index alone; both of
    its ends are sites of the lattice.
   */
  function BondSites(lx: nat, ly: nat, b: nat): (r: Bond)
    requires b < NumBonds(lx, ly)
    ensures r.s0 < lx * ly && r.s1 < lx * ly
  {
    if ly == 1 then
      Bond(b, (b + 1) % (lx * ly))
    else if b < lx * ly then
      SiteRowColumn(lx, ly, b);
      var j, i := b / lx, b % lx;
      SiteBelow(lx, ly, j, (i + 1) % lx);
      Bond(lx * j + i, lx * j + (i + 1) % lx)
    else
      var c := b - lx * ly;
      SiteRowColumn(lx, ly, c);
      var j, i := c / lx, c % lx;
      Bond(lx * j + i, (lx * j + lx + i) % (lx * ly))
  }

  /** Every bond joins two sites of a lattice with `nSites` sites. */
  ghost predicate SitesInRange(bonds: seq<Bond>, nSites: nat)
  {
    forall b :: 0 <= b < |bonds| ==> bonds[b].s0 < nSites && bonds[b].s1 < nSites
  }

  /** Row-major indexing: site `lx*j + i` lies in row `j` and column `i`. */
  lemma RowMajor(lx: nat, j: nat, i: nat)
    requires i < lx
    ensures (lx * j + i) / lx == j && (lx * j + i) % lx == i
  {
    var q, r := (lx * j + i) / lx, (lx * j + i) % lx;
    assert lx * q + r == lx * j + i;
    MulMono(lx, q + 1, j);
    MulMono(lx, j + 1, q);
    MulSucc(lx, q);
    MulSucc(lx, j);
  }

  lemma MulMono(a: nat, x: nat, y: nat)
    ensures x <= y ==> a * x <= a * y
  {
  }

  /** A site `lx*j + i` with `j < ly` and `i < lx` lies inside the lattice. */
  lemma SiteBelow(lx: nat, ly: nat, j: nat, i: nat)
    requires j < ly && i < lx
    ensures lx * j + i < lx * ly
  {
    MulMono(lx, j + 1, ly);
  }

  /**
    Builds the bond table as the nested loops of `initialization` push it:
    the chain bonds, or the rows of horizontal bonds followed by the rows of
    vertical bonds.  The result is the reference table, entry by entry.
   */
  method BuildBonds(lx: nat, ly: nat) returns (lattice: seq<Bond>)
    ensures |lattice| == NumBonds(lx, ly)
    ensures forall b :: 0 <= b < |lattice| ==> lattice[b] == BondSites(lx, ly, b)
  {
    var nSites := lx * ly;
    lattice := [];
    if ly == 1 {
      for i := 0 to nSites
        invariant |lattice| == i
        invariant forall b :: 0 <= b < i ==> lattice[b] == BondSites(lx, ly, b)
      {
        lattice := lattice + [Bond(i, (i + 1) % nSites)];
      }
    } else {
      for j := 0 to ly
        invariant |lattice| == lx * j <= nSites
        invariant forall b :: 0 <= b < |lattice| ==> lattice[b] == BondSites(lx, ly, b)
      {
        lattice := PushHorizontalRow(lx, ly, j, lattice);
      }
      for j := 0 to ly
        invariant |lattice| == nSites + lx * j <= 2 * nSites
        invariant forall b :: 0 <= b < |lattice| ==> lattice[b] == BondSites(lx, ly, b)
      {
        lattice := PushVerticalRow(lx, ly, j, lattice);
      }
    }
  }

  /** Pushes the horizontal bonds of row `j`, column by column. */
  method PushHorizontalRow(lx: nat, ly: nat, j: nat, lattice0: seq<Bond>) returns (lattice: seq<Bond>)
    requires ly != 1 && j < ly && |lattice0| == lx * j <= lx * ly
    requires forall b :: 0 <= b < |lattice0| ==> lattice0[b] == BondSites(lx, ly, b)
    ensures |lattice| == lx * (j + 1) <= lx * ly
    ensures forall b :: 0 <= b < |lattice| ==> lattice[b] == BondSites(lx, ly, b)
  {
    MulSucc(lx, j);
    MulMono(lx, j + 1, ly);
    lattice := lattice0;
    for i := 0 to lx
      invariant |lattice| == lx * j + i
      invariant forall b :: 0 <= b < |lattice| ==> lattice[b] == BondSites(lx, ly, b)
    {
      HorizontalBond(lx, ly, j, i);
      lattice := lattice + [Bond(lx * j + i, lx * j + (i + 1) % lx)];
    }
  }

  /** Pushes the vertical bonds of row `j`, column by column. */
  method PushVerticalRow(lx: nat, ly: nat, j: nat, lattice0: seq<Bond>) returns (lattice: seq<Bond>)
    requires ly != 1 && j < ly && |lattice0| == lx * ly + lx * j <= 2 * (lx * ly)
    requires forall b :: 0 <= b < |lattice0| ==> lattice0[b] == BondSites(lx, ly, b)
    ensures |lattice| == lx * ly + lx * (j + 1) <= 2 * (lx * ly)
    ensures forall b :: 0 <= b < |lattice| ==> lattice[b] == BondSites(lx, ly, b)
  {
    MulSucc(lx, j);
    MulMono(lx, j + 1, ly);
    lattice := lattice0;
    for i := 0 to lx
      invariant |lattice| == lx * ly + lx * j + i
      invariant forall b :: 0 <= b < |lattice| ==> lattice[b] == BondSites(lx, ly, b)
    {
      SiteBelow(lx, ly, j, i);
      VerticalAt(lx, ly, j, i);
      lattice := lattice + [Bond(lx * j + i, (lx * j + lx + i) % (lx * ly))];
    }
  }

  lemma MulSucc(a: nat, j: nat)
    ensures a * (j + 1) == a * j + a
  {
  }

  /** Chain: bond `i` joins site `i` to its right neighbour, wrapping at the end. */
  lemma ChainBond(lx: nat, i: nat)
    requires i < NumBonds(lx, 1)
    ensures BondSites(lx, 1, i) == Bond(i, if i + 1 == lx then 0 else i + 1)
  {
  }

  /**
    Square lattice, horizontal bonds: bond `lx*j + i` joins site `(i, j)` to
    `((i+1) mod lx, j)`; both ends lie in row `j`.
   */
  lemma HorizontalBond(lx: nat, ly: nat, j: nat, i: nat)
    requires ly != 1 && j < ly && i < lx
    ensures lx * j + i < NumBonds(lx, ly)
    ensures BondSites(lx, ly, lx * j + i) == Bond(lx * j + i, lx * j + (i + 1) % lx)
    ensures BondSites(lx, ly, lx * j + i).s0 / lx == j && BondSites(lx, ly, lx * j + i).s1 / lx == j
  {
    SiteBelow(lx, ly, j, i);
    RowMajor(lx, j, i);
    RowMajor(lx, j, (i + 1) % lx);
  }

  /**
    Square lattice, vertical bonds: bond `lx*ly + lx*j + i` joins site `(i, j)`
    to `(i, (j+1) mod ly)`, the site below it on a periodic column.
   */
  lemma VerticalBond(lx: nat, ly: nat, j: nat, i: nat)
    requires ly != 1 && j < ly && i < lx
    ensures lx * j + i < lx * ly && lx * ly + lx * j + i < NumBonds(lx, ly)
    ensures BondSites(lx, ly, lx * ly + lx * j + i) == Bond(lx * j + i, lx * ((j + 1) % ly) + i)
  {
    SiteBelow(lx, ly, j, i);
    VerticalAt(lx, ly, j, i);
    NextRow(lx, ly, j, i);
  }

  /** The vertical bond of site `(i, j)` as the table computes it. */
  lemma VerticalAt(lx: nat, ly: nat, j: nat, i: nat)
    requires ly != 1 && lx * j + i < lx * ly && i < lx
    ensures lx * ly + lx * j + i < NumBonds(lx, ly)
    ensures BondSites(lx, ly, lx * ly + lx * j + i) == Bond(lx * j + i, (lx * j + lx + i) % (lx * ly))
  {
    RowMajor(lx, j, i);
  }

  /** The site `lx` places after `(i, j)`, taken modulo the lattice, is `(i, (j+1) mod ly)`. */
  lemma NextRow(lx: nat, ly: nat, j: nat, i: nat)
    requires j < ly && i < lx
    ensures (lx * j + lx + i) % (lx * ly) == lx * ((j + 1) % ly) + i
  {
    MulSucc(lx, j);
    if j + 1 < ly {
      SiteBelow(lx, ly, j + 1, i);
      ModSmall(lx * (j + 1) + i, lx * ly);
      ModSmall(j + 1, ly);
    } else {
      ModWrap(lx * ly + i, lx * ly);
      ModWrap(j + 1, ly);
    }
  }

  lemma ModSmall(x: nat, n: nat)
    requires x < n
    ensures x % n == x
  {
  }

  lemma ModWrap(x: nat, n: nat)
    requires n <= x < 2 * n
    ensures x % n == x - n
  {
  }

  /** Site `c` of the lattice lies in row `c / lx < ly` and column `c % lx`. */
  lemma SiteRowColumn(lx: nat, ly: nat, c: nat)
    requires c < lx * ly
    ensures lx > 0 && c / lx < ly && c % lx < lx && c == lx * (c / lx) + c % lx
  {
    MulMono(lx, ly, c / lx);
  }

  /**
    A bond joins a site to itself exactly when `lx == 1` and it is a chain
    bond or a horizontal bond.  Such a bond never carries an operator, since
    its two spins are always equal.
   */
  lemma DegenerateBonds(lx: nat, ly: nat, b: nat)
    requires b < NumBonds(lx, ly)
    ensures BondSites(lx, ly, b).s0 == BondSites(lx, ly, b).s1 <==> lx == 1 && (ly == 1 || b < lx * ly)
  {
    if ly == 1 {
      ChainSelfLoop(lx, b);
    } else if b < lx * ly {
      HorizontalSelfLoop(lx, ly, b);
    } else {
      VerticalNoSelfLoop(lx, ly, b);
    }
  }

  lemma ChainSelfLoop(lx: nat, b: nat)
    requires b < NumBonds(lx, 1)
    ensures BondSites(lx, 1, b).s0 == BondSites(lx, 1, b).s1 <==> lx == 1
  {
    assert BondSites(lx, 1, b) == Bond(b, (b + 1) % lx);
    NextInRing(b, lx);
  }

  lemma HorizontalSelfLoop(lx: nat, ly: nat, b: nat)
    requires ly != 1 && b < lx * ly
    ensures b < NumBonds(lx, ly)
    ensures BondSites(lx, ly, b).s0 == BondSites(lx, ly, b).s1 <==> lx == 1
  {
    SiteRowColumn(lx, ly, b);
    HorizontalBond(lx, ly, b / lx, b % lx);
    NextInRing(b % lx, lx);
  }

  lemma VerticalNoSelfLoop(lx: nat, ly: nat, b: nat)
    requires ly != 1 && lx * ly <= b < NumBonds(lx, ly)
    ensures BondSites(lx, ly, b).s0 != BondSites(lx, ly, b).s1
  {
    var c := b - lx * ly;
    SiteRowColumn(lx, ly, c);
    VerticalBondProper(lx, ly, c / lx, c % lx);
  }

  /** On a ring of `k` sites, the right neighbour of `i` is `i` itself only when `k == 1`. */
  lemma NextInRing(i: nat, k: nat)
    requires i < k
    ensures (i + 1) % k == i <==> k == 1
  {
    if i + 1 < k {
      assert (i + 1) % k == i + 1;
    } else {
      assert (i + 1) % k == 0;
    }
  }

  /** No vertical bond of a square lattice (`ly >= 2`) is a self-loop. */
  lemma VerticalBondProper(lx: nat, ly: nat, j: nat, i: nat)
    requires ly != 1 && j < ly && i < lx
    ensures lx * ly + lx * j + i < NumBonds(lx, ly)
    ensures BondSites(lx, ly, lx * ly + lx * j + i).s0 != BondSites(lx, ly, lx * ly + lx * j + i).s1
  {
    VerticalBond(lx, ly, j, i);
    RowMajor(lx, j, i);
    RowMajor(lx, (j + 1) % ly, i);
    NextInRing(j, ly);
  }

  /** The two sizes stated for the system: a 6-site chain and a 4 by 4 lattice. */
  lemma ExampleSizes()
    ensures NumBonds(6, 1) == 6 && NumBonds(4, 4) == 32
    ensures BondSites(6, 1, 5) == Bond(5, 0)
    ensures BondSites(4, 4, 3) == Bond(3, 0) && BondSites(4, 4, 31) == Bond(15, 3)
  {
    assert BondSites(4, 4, 31) == Bond(15, 19 % 16);
  }
}
