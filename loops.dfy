/**
  Specification of the loop traversal of `loop_update`
  (src/hm/updates.rs:153-216).

  The vertex list built by the linking is a pairing of legs: every leg of an
  operator is linked to another leg, which is linked back.  A loop alternates
  between a link and the move `v ^ 1` to the partner leg on the same side of
  the same vertex.  The update walks each loop once, overwriting every leg
  it passes with a mark: `-2` when the loop is flipped (and then every vertex
  side it passes changes type), `-1` when it is not.
 */
module Loops {
  import opened Lattice
  import opened Operators
  import opened Vertex

  /** Mark of a leg on a flipped loop. */
  const FlipMark: int := -2
  /** Mark of a leg on a loop left as it is (also the entry of a leg without a link). */
  const KeepMark: int := -1

  /** The leg `x ^ 1`: the other leg on the same side (entry or exit) of the same vertex. */
  function Partner(x: nat): (y: nat)
    ensures y / 2 == x / 2 && y / 4 == x / 4 && y != x && y % 2 != x % 2
  {
    PartnerArith(x);
    if x % 2 == 0 then x + 1 else x - 1
  }

  lemma PartnerArith(x: nat)
    ensures x % 2 == 0 ==> (x + 1) / 2 == x / 2 && (x + 1) / 4 == x / 4 && (x + 1) % 2 == 1
    ensures x % 2 == 1 ==> (x - 1) / 2 == x / 2 && (x - 1) / 4 == x / 4 && (x - 1) % 2 == 0
  {
    var q, r := x / 4, x % 4;
    assert x == 4 * q + r && r < 4;
    DivMod(x, 2, 2 * q + r / 2, r % 2);
    if r % 2 == 0 {
      DivMod(x + 1, 4, q, r + 1);
      DivMod(x + 1, 2, 2 * q + r / 2, 1);
    } else {
      DivMod(x - 1, 4, q, r - 1);
      DivMod(x - 1, 2, 2 * q + r / 2, 0);
    }
  }

  /** Quotient and remainder by a small constant divisor. */
  lemma DivMod(a: nat, d: nat, q: nat, r: nat)
    requires (d == 2 || d == 4) && r < d && a == d * q + r
    ensures a / d == q && a % d == r
  {
  }

  /**
    `links` pairs legs: a linked leg is linked to another leg, neither itself
    nor its partner, which is linked back; a leg is linked exactly when its
    partner is.
   */
  ghost predicate IsPairing(links: seq<int>)
  {
    && |links| % 4 == 0
    && (forall x :: 0 <= x < |links| && links[x] != -1 ==>
          0 <= links[x] < |links| && links[x] != x && links[links[x]] == x)
    && (forall x {:trigger Partner(x)} :: 0 <= x < |links| && links[x] != -1 ==> links[x] != Partner(x))
    && (forall x :: 0 <= x < |links| ==>
          Partner(x) < |links| && (links[x] == -1 <==> links[Partner(x)] == -1))
  }

  /**
    The vertex list `vl` during the traversal of `links`: unlinked legs stay
    `-1`; a linked leg still holds its link or carries a mark; partners carry
    the same mark.
   */
  ghost predicate MarksWellFormed(links: seq<int>, vl: seq<int>)
  {
    && IsPairing(links)
    && |vl| == |links|
    && (forall x :: 0 <= x < |vl| ==>
          if links[x] == -1 then vl[x] == -1
          else vl[x] == links[x] || vl[x] == FlipMark || vl[x] == KeepMark)
    && (forall x :: 0 <= x < |vl| && vl[x] < 0 ==> vl[Partner(x)] == vl[x])
  }

  /** Every marked leg is linked to a leg with the same mark, except possibly `a` and `b`. */
  ghost predicate MarksClosedExcept(links: seq<int>, vl: seq<int>, a: int, b: int)
    requires MarksWellFormed(links, vl)
  {
    forall x {:trigger vl[links[x]]} :: 0 <= x < |vl| && links[x] >= 0 && vl[x] < 0 && x != a && x != b ==> vl[links[x]] == vl[x]
  }

  /** Between two traversals: each loop is either wholly marked, with one mark, or untouched. */
  ghost predicate Processed(links: seq<int>, vl: seq<int>)
  {
    MarksWellFormed(links, vl) && MarksClosedExcept(links, vl, -1, -1)
  }

  /**
    The traversal of the loop through `v` with mark `c`, at head `h`.  Before
    the first step `h` is `v` and nothing of the loop is marked.  After it the
    marked legs form a path from `v` to the leg `links[h]`, the open ends; the
    head is unmarked until the traversal is `done`, which is exactly when it
    is back at `v`.
   */
  ghost predicate Traversing(links: seq<int>, vl: seq<int>, v: nat, h: nat, c: int, done: bool)
  {
    && MarksWellFormed(links, vl)
    && (c == FlipMark || c == KeepMark)
    && v < |vl| && h < |vl| && links[v] >= 0 && links[h] >= 0
    && MarksClosedExcept(links, vl, v, links[h])
    && (vl[v] >= 0 ==> h == v && !done && vl[links[v]] >= 0)
    && (vl[v] < 0 ==> vl[v] == c && vl[links[h]] == c && (done <==> h == v) && (!done ==> vl[h] >= 0))
  }

  /** Number of legs that still hold a link. */
  function CountLinked(vl: seq<int>): (c: nat)
    ensures c <= |vl|
  {
    if |vl| == 0 then 0 else (if vl[0] >= 0 then 1 else 0) + CountLinked(vl[1..])
  }

  /** Marking a leg that holds a link lowers the count by one. */
  lemma {:induction false} CountMark(vl: seq<int>, x: nat, c: int)
    requires x < |vl| && vl[x] >= 0 && c < 0
    ensures CountLinked(vl[x := c]) == CountLinked(vl) - 1
  {
    if x == 0 {
      assert vl[x := c][1..] == vl[1..];
    } else {
      CountMark(vl[1..], x - 1, c);
      assert vl[x := c][1..] == vl[1..][x - 1 := c];
    }
  }

  /** Starting the traversal of an unmarked leg `v` of a processed list. */
  lemma TraverseStart(links: seq<int>, vl: seq<int>, v: nat, c: int)
    requires Processed(links, vl) && v < |vl| && vl[v] >= 0
    requires c == FlipMark || c == KeepMark
    ensures Traversing(links, vl, v, v, c, false)
  {
    assert links[v] >= 0;
  }

  /**
    One step of the traversal: mark the head and its partner; the new head is
    the leg linked to the partner, which is `v` or still unmarked.
   */
  lemma TraverseStep(links: seq<int>, vl: seq<int>, v: nat, h: nat, c: int)
    requires Traversing(links, vl, v, h, c, false)
    ensures Partner(h) < |vl| && vl[h] >= 0 && vl[Partner(h)] >= 0
    ensures 0 <= vl[Partner(h)] < |vl| && vl[Partner(h)] == links[Partner(h)]
    ensures Traversing(links, vl[h := c][Partner(h) := c], v, vl[Partner(h)], c, vl[Partner(h)] == v)
    ensures CountLinked(vl[h := c][Partner(h) := c]) == CountLinked(vl) - 2
  {
    var t := Partner(h);
    StepHeads(links, vl, v, h, c);
    var vl' := vl[h := c][t := c];
    StepWellFormed(links, vl, h, c);
    StepClosed(links, vl, v, h, c);
    CountMark(vl, h, c);
    CountMark(vl[h := c], t, c);
  }

  /** The partner of the head is unmarked, and the leg linked to it is `v` or unmarked. */
  lemma StepHeads(links: seq<int>, vl: seq<int>, v: nat, h: nat, c: int)
    requires Traversing(links, vl, v, h, c, false)
    ensures Partner(h) < |vl| && vl[h] >= 0 && vl[Partner(h)] >= 0 && links[Partner(h)] >= 0
    ensures vl[Partner(h)] == links[Partner(h)] && links[Partner(h)] != h && links[Partner(h)] != Partner(h)
    ensures links[links[Partner(h)]] == Partner(h)
    ensures links[Partner(h)] != v ==> vl[links[Partner(h)]] >= 0
  {
    var t := Partner(h);
    PartnerInvolutive(h);
    PartnerAlike(links, vl, t);
    var h' := links[t];
    assert links[h'] == t && links[links[h]] == h;
    assert h' != links[h];
    LinkAlike(links, vl, v, links[h], h');
  }

  /** A marked leg's partner carries its mark. */
  lemma PartnerAlike(links: seq<int>, vl: seq<int>, x: nat)
    requires MarksWellFormed(links, vl) && x < |vl|
    ensures Partner(x) < |vl| && (vl[x] < 0 ==> vl[Partner(x)] == vl[x])
  {
  }

  /** A marked leg other than `a` and `b` is linked to a leg with its mark. */
  lemma LinkAlike(links: seq<int>, vl: seq<int>, a: int, b: int, x: nat)
    requires MarksWellFormed(links, vl) && MarksClosedExcept(links, vl, a, b)
    requires x < |vl| && links[x] >= 0
    ensures 0 <= links[x] < |vl|
    ensures vl[x] < 0 && x != a && x != b ==> vl[links[x]] == vl[x]
  {
  }

  /** `x ^ 1 ^ 1 == x`. */
  lemma PartnerInvolutive(x: nat)
    ensures Partner(Partner(x)) == x
  {
  }

  /** Marking the head and its partner with one mark keeps partners alike. */
  lemma StepWellFormed(links: seq<int>, vl: seq<int>, h: nat, c: int)
    requires MarksWellFormed(links, vl) && h < |vl| && links[h] >= 0
    requires c == FlipMark || c == KeepMark
    ensures Partner(h) < |vl|
    ensures MarksWellFormed(links, vl[h := c][Partner(h) := c])
  {
    var t := Partner(h);
    var vl' := vl[h := c][t := c];
    forall x | 0 <= x < |vl'| && vl'[x] < 0
      ensures vl'[Partner(x)] == vl'[x]
    {
      PartnerInvolutive(x);
      PartnerInvolutive(h);
    }
  }

  /** After the step the marked legs are closed under links but for `v` and the new open end. */
  lemma StepClosed(links: seq<int>, vl: seq<int>, v: nat, h: nat, c: int)
    requires Traversing(links, vl, v, h, c, false)
    requires Partner(h) < |vl| && vl[h] >= 0 && vl[Partner(h)] >= 0 && links[Partner(h)] >= 0
    requires links[Partner(h)] != h && links[links[Partner(h)]] == Partner(h)
    requires MarksWellFormed(links, vl[h := c][Partner(h) := c])
    ensures MarksClosedExcept(links, vl[h := c][Partner(h) := c], v, Partner(h))
  {
    var t := Partner(h);
    var vl' := vl[h := c][t := c];
    forall x | 0 <= x < |vl'| && links[x] >= 0 && vl'[x] < 0 && x != v && x != t
      ensures vl'[links[x]] == vl'[x]
    {
      if x != h {
        assert vl[x] < 0;
        if x == links[h] {
          assert vl'[h] == c;
        } else {
          assert vl[links[x]] == vl[x];
          assert links[x] != h;
          assert links[x] != t;
        }
      }
    }
  }

  /** A finished traversal leaves the list processed again. */
  lemma TraverseDone(links: seq<int>, vl: seq<int>, v: nat, h: nat, c: int)
    requires Traversing(links, vl, v, h, c, true)
    ensures Processed(links, vl) && vl[v] == c
  {
  }

  /** Every linked leg belongs to a slot holding an operator. */
  ghost predicate LinkedOnOps(links: seq<int>, ops: seq<int>)
    requires |links| == 4 * |ops|
  {
    forall x :: 0 <= x < |links| && links[x] != -1 ==> ops[x / 4] >= 0
  }

  /**
    The operator string `ops` differs from `ops0` exactly at the operators
    whose entry pair and exit pair carry different flip marks: those changed
    type, diagonal against off-diagonal.
   */
  ghost predicate FlipsMatch(ops0: seq<int>, ops: seq<int>, vl: seq<int>)
    requires |ops| == |ops0| && |vl| == 4 * |ops|
  {
    forall p {:trigger vl[4 * p]} :: 0 <= p < |ops| ==>
      ops[p] == (if ops0[p] >= 0 && (vl[4 * p] == FlipMark) != (vl[4 * p + 2] == FlipMark)
                 then FlipType(ops0[p]) else ops0[p])
  }

  /** `FlipsMatch` at one slot. */
  lemma FlipsMatchAt(ops0: seq<int>, ops: seq<int>, vl: seq<int>, p: nat)
    requires |ops| == |ops0| && |vl| == 4 * |ops| && FlipsMatch(ops0, ops, vl) && p < |ops|
    ensures ops[p] == (if ops0[p] >= 0 && (vl[4 * p] == FlipMark) != (vl[4 * p + 2] == FlipMark)
                       then FlipType(ops0[p]) else ops0[p])
  {
    assert 4 * p < |vl| && vl[4 * p] == vl[4 * p];
  }

  /** Flipping the operator of an unmarked head while marking the head's pair `-2`. */
  lemma FlipStep(ops0: seq<int>, ops: seq<int>, links: seq<int>, vl: seq<int>, h: nat)
    requires |ops| == |ops0| && |vl| == 4 * |ops| && |links| == |vl|
    requires LinkedOnOps(links, ops0) && FlipsMatch(ops0, ops, vl)
    requires h < |vl| && Partner(h) < |vl| && links[h] >= 0 && vl[h] >= 0 && vl[Partner(h)] >= 0
    ensures ops[h / 4] >= 0
    ensures FlipsMatch(ops0, ops[h / 4 := FlipType(ops[h / 4])], vl[h := FlipMark][Partner(h) := FlipMark])
  {
    var p, t := h / 4, Partner(h);
    var vl' := vl[h := FlipMark][t := FlipMark];
    FlipsMatchAt(ops0, ops, vl, p);
    assert ops0[p] >= 0 && ops[p] >= 0;
    var ops' := ops[p := FlipType(ops[p])];
    var side := 4 * p + (h % 4) / 2 * 2;
    assert side == h || side == t;
    assert vl[side] >= 0 && vl'[side] == FlipMark;
    forall q | 0 <= q < |ops'|
      ensures ops'[q] == (if ops0[q] >= 0 && (vl'[4 * q] == FlipMark) != (vl'[4 * q + 2] == FlipMark)
                          then FlipType(ops0[q]) else ops0[q])
    {
      if q != p {
        assert vl'[4 * q] == vl[4 * q] && vl'[4 * q + 2] == vl[4 * q + 2];
      }
    }
  }

  /** Marking an unmarked head's pair `-1` leaves the operators as they are. */
  lemma KeepStep(ops0: seq<int>, ops: seq<int>, vl: seq<int>, h: nat)
    requires |ops| == |ops0| && |vl| == 4 * |ops|
    requires FlipsMatch(ops0, ops, vl)
    requires h < |vl| && Partner(h) < |vl| && vl[h] >= 0 && vl[Partner(h)] >= 0
    ensures FlipsMatch(ops0, ops, vl[h := KeepMark][Partner(h) := KeepMark])
  {
    var vl' := vl[h := KeepMark][Partner(h) := KeepMark];
    forall q | 0 <= q < |ops|
      ensures ops[q] == (if ops0[q] >= 0 && (vl'[4 * q] == FlipMark) != (vl'[4 * q + 2] == FlipMark)
                         then FlipType(ops0[q]) else ops0[q])
    {
      assert (vl'[4 * q] == FlipMark) == (vl[4 * q] == FlipMark);
    }
  }

  /**
    The links `make_vertex_lists` builds pair the legs of the operators, and
    as a vertex list they are processed with nothing marked yet.
   */
  lemma BuiltLinksPair(ops: seq<int>, bonds: seq<Bond>, nSites: nat, L: Links)
    requires LinksBuilt(ops, bonds, nSites, L)
    ensures |L.vl| == 4 * |ops| && IsPairing(L.vl) && LinkedOnOps(L.vl, ops) && Processed(L.vl, L.vl)
  {
    var vl := L.vl;
    forall x | 0 <= x < |vl| && vl[x] != -1
      ensures 0 <= vl[x] < |vl| && vl[x] != x && vl[x] != Partner(x) && vl[vl[x]] == x
      ensures ops[x / 4] >= 0
    {
      PairedAt(ops, bonds, vl, x);
    }
    forall x | 0 <= x < |vl|
      ensures Partner(x) < |vl| && (vl[x] == -1 <==> vl[Partner(x)] == -1)
    {
      PartnerLinked(ops, vl, x);
    }
  }

  /** A linked leg's link is another leg, not its partner, and links back. */
  lemma PairedAt(ops: seq<int>, bonds: seq<Bond>, vl: seq<int>, x: nat)
    requires ProperOps(ops, bonds) && |vl| == 4 * |ops| && x < |vl| && vl[x] != -1
    requires PairedLeg(ops, bonds, vl, x)
    ensures 0 <= vl[x] < |vl| && vl[x] != x && vl[x] != Partner(x) && vl[vl[x]] == x
    ensures ops[x / 4] >= 0
  {
    assert IsEntry(Partner(x)) == IsEntry(x);
  }

  /** A leg is linked exactly when its partner is: both belong to one slot. */
  lemma PartnerLinked(ops: seq<int>, vl: seq<int>, x: nat)
    requires |vl| == 4 * |ops| && x < |vl|
    requires forall y :: 0 <= y < |vl| ==> (vl[y] == Unlinked <==> ops[y / 4] == Identity)
    ensures Partner(x) < |vl| && (vl[x] == -1 <==> vl[Partner(x)] == -1)
  {
    assert Partner(x) / 4 == x / 4 < |ops|;
  }

  /** Before any traversal no leg carries a flip mark, so no operator is due to change. */
  lemma NoMarksYet(ops: seq<int>, links: seq<int>)
    requires IsPairing(links) && |links| == 4 * |ops|
    ensures FlipsMatch(ops, ops, links)
  {
    forall p | 0 <= p < |ops|
      ensures links[4 * p] != FlipMark && links[4 * p + 2] != FlipMark
    {
    }
  }

  /**
    Operators changed by flips keep their bonds, so the string stays proper
    and holds as many operators as before.
   */
  lemma FlipsKeepOps(ops0: seq<int>, ops: seq<int>, vl: seq<int>, bonds: seq<Bond>)
    requires |ops| == |ops0| && |vl| == 4 * |ops| && FlipsMatch(ops0, ops, vl)
    requires ProperOps(ops0, bonds)
    ensures ProperOps(ops, bonds) && CountOps(ops) == CountOps(ops0)
    ensures forall p :: 0 <= p < |ops| ==> (ops[p] == Identity <==> ops0[p] == Identity)
    ensures forall p :: 0 <= p < |ops| && ops[p] != Identity ==> ops[p] / 2 == ops0[p] / 2
  {
    forall p | 0 <= p < |ops|
      ensures ops[p] == Identity <==> ops0[p] == Identity
      ensures ops[p] != Identity ==> ops[p] / 2 == ops0[p] / 2 && 0 <= ops[p] < 2 * |bonds|
    {
      FlipsMatchAt(ops0, ops, vl, p);
      if ops0[p] >= 0 {
        assert ops0[p] < 2 * |bonds|;
      }
    }
    CountSameShape(ops0, ops);
  }

  /** The mark of a loop that is flipped (`-2`) or left as it is (`-1`). */
  function LoopMark(flip: bool): (c: int)
    ensures c == FlipMark || c == KeepMark
    ensures c == FlipMark <==> flip
  {
    if flip then FlipMark else KeepMark
  }

  /** Leg `x` lies on the loop walked through the heads `path`: it is a head or the partner of one. */
  ghost predicate OnLoop(path: seq<nat>, x: nat)
  {
    x in path || Partner(x) in path
  }

  /**
    `path` is a walk of heads from `v`: it starts at `v`, each next head is
    the leg linked to the previous head's partner, and no later head is `v`.
   */
  ghost predicate PathFrom(links: seq<int>, path: seq<nat>, v: nat)
  {
    && (forall i :: 0 <= i < |path| ==> path[i] < |links| && Partner(path[i]) < |links|)
    && (|path| > 0 ==> path[0] == v)
    && (forall i, j {:trigger path[i], path[j]} :: 0 <= i && j == i + 1 && j < |path| ==>
          path[j] == links[Partner(path[i])] && path[j] != v)
  }

  /** `h` is the head after the walk `path` from `v`: `v` itself before the first step. */
  ghost predicate HeadAfter(links: seq<int>, path: seq<nat>, v: nat, h: nat)
    requires PathFrom(links, path, v)
  {
    if |path| == 0 then h == v else h == links[Partner(path[|path| - 1])]
  }

  /**
    `path` is the loop through `v`: the walk from `v` that comes back to `v`
    right after its last head, and not before.
   */
  ghost predicate IsLoop(links: seq<int>, path: seq<nat>, v: nat)
  {
    PathFrom(links, path, v) && |path| > 0 && HeadAfter(links, path, v, v)
  }

  /**
    Going from `vl0` to `vl`, the legs on the walk `path` were marked `c`,
    all of them unmarked before, and every other leg kept its entry.
   */
  ghost predicate LoopMarked(vl0: seq<int>, vl: seq<int>, path: seq<nat>, c: int)
  {
    && |vl| == |vl0|
    && (forall x :: 0 <= x < |vl| ==>
          if OnLoop(path, x) then vl[x] == c && vl0[x] >= 0 else vl[x] == vl0[x])
  }

  /**
    A traversal from `v` with head `h` that started on the vertex list `vl0`:
    the marks are as `Traversing` says, the operators match the flip marks,
    and the marked legs are exactly those of the walk `path` taken so far.
   */
  ghost predicate TraverseState(links: seq<int>, ops0: seq<int>, vl0: seq<int>, ops: seq<int>, vl: seq<int>,
                                v: nat, h: nat, path: seq<nat>, flip: bool, done: bool)
  {
    && |ops| == |ops0| && |vl| == 4 * |ops| && |links| == |vl|
    && LinkedOnOps(links, ops0)
    && Traversing(links, vl, v, h, LoopMark(flip), done)
    && FlipsMatch(ops0, ops, vl)
    && LoopMarked(vl0, vl, path, LoopMark(flip)) && vl0[v] >= 0
    && PathFrom(links, path, v) && HeadAfter(links, path, v, h)
  }

  /** The start of a traversal. */
  lemma TraverseBegin(links: seq<int>, ops0: seq<int>, ops: seq<int>, vl: seq<int>, v: nat, flip: bool)
    requires Processed(links, vl) && v < |vl| && vl[v] >= 0
    requires |ops| == |ops0| && |vl| == 4 * |ops| && LinkedOnOps(links, ops0) && FlipsMatch(ops0, ops, vl)
    ensures TraverseState(links, ops0, vl, ops, vl, v, v, [], flip, false)
  {
    TraverseStart(links, vl, v, LoopMark(flip));
  }

  /**
    One step of a traversal (one turn of the source's `loop`): mark the head
    and its partner, change the head's operator when flipping, and move to
    the leg linked to the partner.
   */
  lemma TraverseAdvance(links: seq<int>, ops0: seq<int>, vl0: seq<int>, ops: seq<int>, vl: seq<int>,
                        v: nat, h: nat, path: seq<nat>, flip: bool)
    requires TraverseState(links, ops0, vl0, ops, vl, v, h, path, flip, false)
    ensures h < |vl| && Partner(h) < |vl| && h / 4 < |ops| && Partner(h) != h
    ensures flip ==> ops[h / 4] >= 0
    ensures 0 <= vl[Partner(h)] < |vl|
    ensures var vl' := vl[h := LoopMark(flip)][Partner(h) := LoopMark(flip)];
      var ops' := if flip then ops[h / 4 := FlipType(ops[h / 4])] else ops;
      && TraverseState(links, ops0, vl0, ops', vl', v, vl[Partner(h)], path + [h], flip, vl[Partner(h)] == v)
      && CountLinked(vl') < CountLinked(vl)
  {
    var c := LoopMark(flip);
    TraverseStep(links, vl, v, h, c);
    if |path| > 0 {
      assert path[0] in path;
    }
    PathAdvance(links, vl0, vl, path, v, h, c);
    if flip {
      FlipStep(ops0, ops, links, vl, h);
    } else {
      KeepStep(ops0, ops, vl, h);
    }
  }

  /** Marking the head and its partner extends the walk by the head. */
  lemma PathAdvance(links: seq<int>, vl0: seq<int>, vl: seq<int>, path: seq<nat>, v: nat, h: nat, c: int)
    requires PathFrom(links, path, v) && HeadAfter(links, path, v, h) && LoopMarked(vl0, vl, path, c)
    requires c < 0 && |links| == |vl| && h < |vl| && Partner(h) < |vl| && links[Partner(h)] >= 0
    requires vl[h] >= 0 && vl[Partner(h)] >= 0 && (|path| > 0 ==> h != v)
    ensures PathFrom(links, path + [h], v) && HeadAfter(links, path + [h], v, links[Partner(h)])
    ensures LoopMarked(vl0, vl[h := c][Partner(h) := c], path + [h], c)
  {
    WalkExtend(links, path, v, h);
    MarkExtend(vl0, vl, path, h, c);
  }

  /** The walk from `v` extends by its current head. */
  lemma WalkExtend(links: seq<int>, path: seq<nat>, v: nat, h: nat)
    requires PathFrom(links, path, v) && HeadAfter(links, path, v, h)
    requires h < |links| && Partner(h) < |links| && links[Partner(h)] >= 0 && (|path| > 0 ==> h != v)
    ensures PathFrom(links, path + [h], v) && HeadAfter(links, path + [h], v, links[Partner(h)])
  {
    var path' := path + [h];
    forall i: int, j: int | 0 <= i && j == i + 1 && j < |path'|
      ensures path'[j] == links[Partner(path'[i])] && path'[j] != v
    {
      assert path'[i] == path[i];
      if j < |path| {
        assert path'[j] == path[j];
      }
    }
  }

  /** Marking the unmarked head and its partner marks exactly the legs of the extended walk. */
  lemma MarkExtend(vl0: seq<int>, vl: seq<int>, path: seq<nat>, h: nat, c: int)
    requires LoopMarked(vl0, vl, path, c) && c < 0
    requires h < |vl| && Partner(h) < |vl| && vl[h] >= 0 && vl[Partner(h)] >= 0
    ensures LoopMarked(vl0, vl[h := c][Partner(h) := c], path + [h], c)
  {
    var path' := path + [h];
    var vl' := vl[h := c][Partner(h) := c];
    forall x | 0 <= x < |vl'|
      ensures if OnLoop(path', x) then vl'[x] == c && vl0[x] >= 0 else vl'[x] == vl0[x]
    {
      PartnerInvolutive(x);
      PartnerInvolutive(h);
      assert OnLoop(path', x) <==> OnLoop(path, x) || x == h || x == Partner(h);
    }
  }

  /**
    A finished traversal: the list is processed, the walk taken is the loop
    through `v`, and its legs, and only they, carry the loop's mark.
   */
  lemma TraverseFinish(links: seq<int>, ops0: seq<int>, vl0: seq<int>, ops: seq<int>, vl: seq<int>,
                       v: nat, h: nat, path: seq<nat>, flip: bool)
    requires TraverseState(links, ops0, vl0, ops, vl, v, h, path, flip, true)
    ensures Processed(links, vl) && v < |vl| && vl[v] == LoopMark(flip)
    ensures IsLoop(links, path, v)
  {
    TraverseDone(links, vl, v, h, LoopMark(flip));
  }

  /**
    The operator part of `loop_update` before even leg `v`, started from the
    links `links` and the string `ops0`: every leg below `v` is marked, the
    list is processed and the operators match the flip marks.
   */
  ghost predicate Sweep(links: seq<int>, ops0: seq<int>, ops: seq<int>, vl: seq<int>, v: nat)
  {
    && v % 2 == 0 && v <= |vl|
    && |ops| == |ops0| && |vl| == 4 * |ops| && |links| == |vl|
    && Processed(links, vl) && LinkedOnOps(links, ops0) && FlipsMatch(ops0, ops, vl)
    && (forall x :: 0 <= x < v ==> vl[x] < 0)
  }

  /**
    The loops traversed so far, from the starts `starts`, the j-th flipped
    when `draws(pos + j)` is below one half: the j-th is the loop through
    `starts[j]`, the least leg on it, and every leg on it carries the j-th
    coin's mark.  Later starts lie higher, no two loops share a leg, and
    every marked leg lies on one of them.
   */
  ghost predicate LoopsFound(links: seq<int>, vl: seq<int>, starts: seq<nat>, loops: seq<seq<nat>>,
                             draws: nat -> real, pos: nat)
  {
    && |loops| == |starts| && |links| == |vl|
    && LoopsFrom(links, starts, loops)
    && LoopsMarked(vl, starts, loops, draws, pos)
    && LoopsDisjoint(loops)
    && LoopsCover(links, vl, loops)
  }

  /** The j-th loop is the loop through the j-th start, and the starts increase. */
  ghost predicate LoopsFrom(links: seq<int>, starts: seq<nat>, loops: seq<seq<nat>>)
    requires |loops| == |starts|
  {
    && (forall j :: 0 <= j < |starts| ==> IsLoop(links, loops[j], starts[j]))
    && (forall j, k :: 0 <= j < k < |starts| ==> starts[j] < starts[k])
  }

  /** Every leg on the j-th loop lies at or above its start and carries the j-th coin's mark. */
  ghost predicate LoopsMarked(vl: seq<int>, starts: seq<nat>, loops: seq<seq<nat>>, draws: nat -> real, pos: nat)
    requires |loops| == |starts|
  {
    forall j, x {:trigger OnLoop(loops[j], x)} :: 0 <= j < |starts| && 0 <= x < |vl| && OnLoop(loops[j], x) ==>
      starts[j] <= x && vl[x] == LoopMark(draws(pos + j) < 0.5)
  }

  /** No leg lies on two of the loops. */
  ghost predicate LoopsDisjoint(loops: seq<seq<nat>>)
  {
    forall j, k, x :: 0 <= j < k < |loops| && OnLoop(loops[j], x) ==> !OnLoop(loops[k], x)
  }

  /** Every marked leg with a link lies on one of the loops. */
  ghost predicate LoopsCover(links: seq<int>, vl: seq<int>, loops: seq<seq<nat>>)
  {
    forall x :: MarkedLink(links, vl, x) ==> exists j :: 0 <= j < |loops| && OnLoop(loops[j], x)
  }

  /** Leg `x` has a link and carries a mark. */
  ghost predicate MarkedLink(links: seq<int>, vl: seq<int>, x: nat)
  {
    x < |vl| && x < |links| && links[x] != -1 && vl[x] < 0
  }

  /** Before the first leg nothing is marked and no loop is found: the sweep starts. */
  lemma SweepBegin(links: seq<int>, ops: seq<int>, draws: nat -> real, pos: nat)
    requires IsPairing(links) && |links| == 4 * |ops| && LinkedOnOps(links, ops) && Processed(links, links)
    ensures Sweep(links, ops, ops, links, 0) && LoopsFound(links, links, [], [], draws, pos)
  {
    NoMarksYet(ops, links);
  }

  /** An even leg already marked is skipped. */
  lemma SweepSkip(links: seq<int>, ops0: seq<int>, ops: seq<int>, vl: seq<int>, v: nat)
    requires Sweep(links, ops0, ops, vl, v) && v < |vl| && vl[v] < 0
    ensures Sweep(links, ops0, ops, vl, v + 2)
  {
    EvenStep(v, |ops|);
    PartnerAlike(links, vl, v);
  }

  /** An even leg not yet marked: the traversal from it marks its loop, `v` and its partner included. */
  lemma SweepTraversed(links: seq<int>, ops0: seq<int>, ops: seq<int>, vl: seq<int>,
                       ops': seq<int>, vl': seq<int>, v: nat, path: seq<nat>, c: int)
    requires Sweep(links, ops0, ops, vl, v) && v < |vl| && vl[v] >= 0 && c < 0
    requires |ops'| == |ops| && Processed(links, vl') && FlipsMatch(ops0, ops', vl')
    requires IsLoop(links, path, v) && LoopMarked(vl, vl', path, c)
    ensures Sweep(links, ops0, ops', vl', v + 2)
  {
    EvenStep(v, |ops|);
    PartnerInvolutive(v);
    assert OnLoop(path, v) && OnLoop(path, v + 1) by {
      assert path[0] in path;
    }
    forall x | 0 <= x < v + 2
      ensures vl'[x] < 0
    {
      if x == v + 1 {
        assert OnLoop(path, v + 1);
      } else if x == v {
        assert OnLoop(path, v);
      }
    }
  }

  /**
    The loops found after a traversal from the unmarked leg `v`, above every
    start so far and with every leg below it marked: the loop through `v`,
    with the next coin's mark, is the next one.
   */
  lemma LoopsTraversed(links: seq<int>, vl: seq<int>, vl': seq<int>, v: nat,
                       starts: seq<nat>, loops: seq<seq<nat>>, path: seq<nat>, draws: nat -> real, pos: nat)
    requires LoopsFound(links, vl, starts, loops, draws, pos) && v <= |vl|
    requires forall j :: 0 <= j < |starts| ==> starts[j] < v
    requires forall x :: 0 <= x < v ==> vl[x] < 0
    requires IsLoop(links, path, v) && LoopMarked(vl, vl', path, LoopMark(draws(pos + |starts|) < 0.5))
    ensures LoopsFound(links, vl', starts + [v], loops + [path], draws, pos)
  {
    LoopsFromAdd(links, starts, loops, path, v);
    LoopsMarkedAdd(vl, vl', starts, loops, path, v, draws, pos);
    LoopsDisjointAdd(links, vl, vl', starts, loops, path, v, draws, pos);
    LoopsCoverAdd(links, vl, vl', loops, path, LoopMark(draws(pos + |starts|) < 0.5));
  }

  /** The loop through `v`, above every start so far, is the next loop found. */
  lemma LoopsFromAdd(links: seq<int>, starts: seq<nat>, loops: seq<seq<nat>>, path: seq<nat>, v: nat)
    requires |loops| == |starts| && LoopsFrom(links, starts, loops) && IsLoop(links, path, v)
    requires forall j :: 0 <= j < |starts| ==> starts[j] < v
    ensures LoopsFrom(links, starts + [v], loops + [path])
  {
    var starts', loops' := starts + [v], loops + [path];
    forall j | 0 <= j < |starts'|
      ensures IsLoop(links, loops'[j], starts'[j])
    {
      if j < |starts| {
        assert loops'[j] == loops[j] && starts'[j] == starts[j];
      }
    }
  }

  /**
    The marks after a traversal from `v`, with every leg below `v` marked
    before: the old loops keep theirs, and the new loop, all of whose legs
    were unmarked, lies at or above `v` with the new coin's mark.
   */
  lemma LoopsMarkedAdd(vl: seq<int>, vl': seq<int>, starts: seq<nat>, loops: seq<seq<nat>>,
                       path: seq<nat>, v: nat, draws: nat -> real, pos: nat)
    requires |loops| == |starts| && LoopsMarked(vl, starts, loops, draws, pos) && v <= |vl|
    requires forall x :: 0 <= x < v ==> vl[x] < 0
    requires LoopMarked(vl, vl', path, LoopMark(draws(pos + |starts|) < 0.5))
    ensures LoopsMarked(vl', starts + [v], loops + [path], draws, pos)
  {
    var starts', loops' := starts + [v], loops + [path];
    forall j: int, x: nat | 0 <= j < |starts'| && 0 <= x < |vl'| && OnLoop(loops'[j], x)
      ensures starts'[j] <= x && vl'[x] == LoopMark(draws(pos + j) < 0.5)
    {
      if j < |starts| {
        assert loops'[j] == loops[j] && starts'[j] == starts[j];
        assert vl[x] < 0;
      } else {
        assert loops'[j] == path;
      }
    }
  }

  /** A leg on a walk is a leg of the list. */
  lemma OnLoopInRange(links: seq<int>, path: seq<nat>, v: nat, x: nat)
    requires PathFrom(links, path, v)
    ensures OnLoop(path, x) ==> x < |links|
  {
    if OnLoop(path, x) && x !in path {
      var i :| 0 <= i < |path| && path[i] == Partner(x);
      PartnerInvolutive(x);
    }
  }

  /** The new loop shares no leg with the old ones: its legs were unmarked, theirs marked. */
  lemma LoopsDisjointAdd(links: seq<int>, vl: seq<int>, vl': seq<int>, starts: seq<nat>, loops: seq<seq<nat>>,
                         path: seq<nat>, v: nat, draws: nat -> real, pos: nat)
    requires |loops| == |starts| && LoopsMarked(vl, starts, loops, draws, pos) && LoopsDisjoint(loops)
    requires LoopMarked(vl, vl', path, LoopMark(draws(pos + |starts|) < 0.5))
    requires IsLoop(links, path, v) && |links| == |vl|
    ensures LoopsDisjoint(loops + [path])
  {
    var loops' := loops + [path];
    forall j: nat, k: nat, x: nat | j < k < |loops'| && OnLoop(loops'[j], x)
      ensures !OnLoop(loops'[k], x)
    {
      assert loops'[j] == loops[j];
      if k < |loops| {
        assert loops'[k] == loops[k];
      } else {
        OnLoopInRange(links, path, v, x);
      }
    }
  }

  /** The newly marked legs lie on the new loop; the others were covered before. */
  lemma LoopsCoverAdd(links: seq<int>, vl: seq<int>, vl': seq<int>, loops: seq<seq<nat>>, path: seq<nat>, c: int)
    requires |links| == |vl| && LoopsCover(links, vl, loops) && LoopMarked(vl, vl', path, c)
    ensures LoopsCover(links, vl', loops + [path])
  {
    var loops' := loops + [path];
    forall x | MarkedLink(links, vl', x)
      ensures exists j :: 0 <= j < |loops'| && OnLoop(loops'[j], x)
    {
      if OnLoop(path, x) {
        assert loops'[|loops|] == path;
      } else {
        assert MarkedLink(links, vl, x);
        var j :| 0 <= j < |loops| && OnLoop(loops[j], x);
        assert loops'[j] == loops[j];
      }
    }
  }

  /**
    After the whole sweep every linked leg lies on exactly one loop found,
    and carries that loop's coin's mark.
   */
  lemma SweepDone(links: seq<int>, ops0: seq<int>, ops: seq<int>, vl: seq<int>,
                  starts: seq<nat>, loops: seq<seq<nat>>, draws: nat -> real, pos: nat)
    requires Sweep(links, ops0, ops, vl, |vl|) && LoopsFound(links, vl, starts, loops, draws, pos)
    ensures forall x :: 0 <= x < |vl| && links[x] != -1 ==>
      exists j :: 0 <= j < |starts| && OnLoop(loops[j], x) && vl[x] == LoopMark(draws(pos + j) < 0.5)
    ensures forall j, k, x :: 0 <= j < |starts| && 0 <= k < |starts| && OnLoop(loops[j], x) && OnLoop(loops[k], x) ==> j == k
  {
    forall x | 0 <= x < |vl| && links[x] != -1
      ensures exists j :: 0 <= j < |starts| && OnLoop(loops[j], x) && vl[x] == LoopMark(draws(pos + j) < 0.5)
    {
      assert MarkedLink(links, vl, x);
      var j :| 0 <= j < |starts| && OnLoop(loops[j], x);
    }
  }

  /**
    After the whole sweep an operator changes type exactly when the loops
    through its entry side and its exit side drew different coins.
   */
  lemma SweepFlips(links: seq<int>, ops0: seq<int>, ops: seq<int>, vl: seq<int>,
                   starts: seq<nat>, loops: seq<seq<nat>>, draws: nat -> real, pos: nat, p: nat, j: nat, k: nat)
    requires Sweep(links, ops0, ops, vl, |vl|) && LoopsFound(links, vl, starts, loops, draws, pos)
    requires p < |ops| && ops0[p] >= 0
    requires j < |starts| && k < |starts| && OnLoop(loops[j], 4 * p) && OnLoop(loops[k], 4 * p + 2)
    ensures ops[p] == if (draws(pos + j) < 0.5) != (draws(pos + k) < 0.5) then FlipType(ops0[p]) else ops0[p]
  {
    FlipsMatchAt(ops0, ops, vl, p);
  }

  /** The next even leg after an even leg is still a leg, since legs come in fours. */
  lemma EvenStep(v: nat, n: nat)
    requires v % 2 == 0 && v < 4 * n
    ensures v + 2 <= 4 * n && (v + 2) % 2 == 0 && Partner(v) == v + 1
  {
  }
}
