# HeisenbergSSE core in Dafny

This project models the sweep engine of HeisenbergSSE. HeisenbergSSE simulates the
spin-1/2 Heisenberg antiferromagnet by Stochastic Series Expansion (SSE) with
the loop algorithm. The model covers the simulation state `HeisenbergModel`
(src/hm.rs) and five operations:

- **`new` and `initialization`** (src/hm/ini.rs): build the bond table `b_sites` of a periodic chain
  (`ly == 1`) or a periodic square lattice. Then set the two acceptance factors, draw one
  random spin per site, and fill the operator string and the working arrays with `-1`.
- **`diag_update`** (src/hm/updates.rs): one pass over the slots of the operator string.
  - At an identity slot, draw a bond and possibly insert a diagonal operator.
  - At a diagonal slot, possibly remove the operator.
  - At an off-diagonal slot, negate the two spins of its bond.
- **`make_vertex_lists`**: link every leg of an operator to the neighbouring leg of the same
  site in imaginary time, then close each site's world line periodically.
- **`loop_update`**: traverse every loop of linked legs, and flip it on a fair coin (its
  operators change between diagonal and off-diagonal). Then flip the spins whose loop was
  flipped, and flip each isolated spin on a coin of its own.
- **`adjust_m`**: grow the truncation order `m` to `n + n/3` when that is larger.

Layout:

- `lattice.dfy` (module `Lattice`): the bond table. `BondSites` is a reference definition
  of bond `b` written from its index alone. `BuildBonds` pushes the bonds in the source's
  loop order and is proved equal to it entry by entry.
- `operators.dfy` (module `Operators`): the encoding of the operator string.
  - Slot `p` holds `-1` for the identity, or `2*b + a` for an operator on bond `b`
    (`a == 0` diagonal, `a == 1` off-diagonal).
  - `CountOps` is the count `n`.
  - `Factor` represents a double that may be `+inf`, as `prob_remove_factor` can be.
- `diagonal.dfy` (module `Diagonal`): the diagonal update as functions on a `Config`
  (spins, operator string, `n`, generator position). `DiagStep` is one slot. `DiagUpTo` is
  the first `k` slots.
- `vertex.dfy` (module `Vertex`): what the linking loop keeps after each event, and
  `LinksBuilt`, the finished vertex list.
  - `ScanInv` describes the state after each event. An event is one site of one operator,
    in imaginary-time order.
  - `LinksBuilt` is symmetric links between an exit leg and the entry leg of the next event
    on its site (cyclically), with `v_first`/`v_last` holding each site's end legs.
- `loops.dfy` (module `Loops`): the traversal invariants of `loop_update`.
  - Legs are marked `-2` on a flipped loop and `-1` on a kept one.
  - Each loop is wholly marked or untouched.
  - The operators differ from the old string exactly where a flip mark crosses them.
- `model.dfy` (module `Heisenberg`): the class `HeisenbergModel`, whose fields mirror the
  struct. Its methods are the source's methods, with the source's loops. The two traversal
  loops of `loop_update` (src/hm/updates.rs:169-179 flips, 183-191 keeps) differ only in
  whether the head's operator toggles and in the mark. They are one method,
  `TraverseLoop`, whose step `MarkStep` takes a `flip` flag. Each method is proved
  against the specification functions and predicates above, and keeps the invariant `Valid()`.

The generator (`rng`, with `rand_bond` and `rand_prob`) is modelled as a stream.
- The class constants `bondAt` and `probAt` give the generator's k-th output read as a
  bond index or as a probability.
- The field `rngPos` counts the draws taken.

So the model keeps the order and the number of draws. That includes the short-circuit `||`
of both acceptance tests: the probability is drawn only when the deterministic threshold
test fails.

Two details the model takes from the code as written:
- `adjust_m` refills the reallocated vertex list with `-1`; `make_vertex_lists` rebuilds it
  before it is read.
- A flipped traversal marks the head leg and its partner `head ^ 1`, then moves to the leg
  linked to the partner.

## Model

| member | source | states |
|---|---|---|
| Lattice.BuildBonds | src/hm/ini.rs:56-87 | the pushed table has `NumBonds(lx, ly)` entries and entry `b` is the reference bond `BondSites(lx, ly, b)` |
| Lattice.NumBonds | src/hm/ini.rs:54 | a chain has `lx` bonds and a square lattice `2*lx*ly`, so between `lx*ly` and `2*lx*ly`, and none exactly when a side is 0 |
| Lattice.BondSites | src/hm/ini.rs:56-87 | every bond of the reference table joins two sites of the lattice |
| Lattice.PushHorizontalRow | src/hm/ini.rs:68-75 | pushing row `j` of horizontal bonds extends a correct prefix of length `lx*j` to a correct prefix of length `lx*(j+1)` |
| Lattice.PushVerticalRow | src/hm/ini.rs:77-84 | pushing row `j` of vertical bonds extends a correct prefix of length `lx*ly + lx*j` to one of length `lx*ly + lx*(j+1)` |
| Lattice.ChainBond | src/hm/ini.rs:60-64 | chain bond `i` joins `i` and its right neighbour, `0` after the last site |
| Lattice.HorizontalBond | src/hm/ini.rs:68-75 | bond `lx*j+i` joins `lx*j+i` and `lx*j+(i+1)%lx`, and both ends lie in row `j` |
| Lattice.VerticalBond | src/hm/ini.rs:77-84 | bond `lx*ly+lx*j+i` joins site `(i, j)` to `(i, (j+1) mod ly)`, the next site of column `i` |
| Lattice.VerticalAt | src/hm/ini.rs:79-82 | the vertical bond of `(i, j)` is `(lx*j+i, (lx*j+lx+i) % (lx*ly))` as the table computes it |
| Lattice.DegenerateBonds | src/hm/ini.rs:56-87 | a bond joins a site to itself exactly when `lx == 1` and it is a chain or horizontal bond |
| Lattice.VerticalBondProper | src/hm/ini.rs:77-84 | no vertical bond of a lattice with `ly != 1` is a self-loop |
| Lattice.ExampleSizes | src/hm/ini.rs:54 | a 6x1 chain has 6 bonds and a 4x4 lattice 32, with the wrap-around bonds `(5, 0)`, `(3, 0)` and `(15, 3)` |
| Operators.FlipType | src/hm/updates.rs:170 | `op ^= 1` keeps the bond `op/2` and swaps diagonal and off-diagonal |
| Operators.CountOps | src/hm/updates.rs:32-33 | the number of operators `n` never exceeds the number of slots `m` |
| Operators.CountUpdate | src/hm/updates.rs:29-46 | overwriting one slot changes the count by that slot alone; an identity slot implies `n < m`, an operator slot `n >= 1`, so neither `m - n` nor `n - 1` underflows |
| Operators.CountAppendIdentities | src/hm/updates.rs:222 | appending `-1` slots does not change the count |
| Operators.IdentitiesCountZero | src/hm/ini.rs:97 | a string of `-1` holds no operator |
| Operators.CountSameShape | src/hm/updates.rs:170 | strings with identities in the same slots hold the same number of operators |
| Operators.Reciprocal | src/hm/ini.rs:90 | `1.0 / x` is `+inf` exactly when `x == 0`, otherwise its product with `x` is 1 |
| Operators.ScaledAtLeast | src/hm/updates.rs:42-44 | `prob_remove_factor * k >= t` holds always for `+inf`, and otherwise exactly when the factor reaches `t / k` |
| Diagonal.DiagStep | src/hm/updates.rs:20-57 | one slot keeps the configuration well formed and changes only slot `p`. An identity becomes a diagonal operator on the drawn bond only when its spins are antiparallel. A diagonal operator stays or is removed. An off-diagonal operator stays and negates exactly its bond's two spins. `n` moves by one exactly when the slot changes |
| Diagonal.AddForced | src/hm/updates.rs:29-31 | the insertion is certain without a draw exactly when the ratio `prob_add_factor / (m - n)` is at least 1 |
| Diagonal.AddAccepted | src/hm/updates.rs:29-31 | the draw `u` accepts the insertion exactly when `u` is at most the ratio `prob_add_factor / (m - n)` |
| Diagonal.RemoveForced | src/hm/updates.rs:42-44 | the removal is certain without a draw when the factor is `+inf`, and for a positive factor exactly when `m - n + 1` reaches `1 / prob_remove_factor` |
| Diagonal.RemoveAccepted | src/hm/updates.rs:42-44 | the draw `u` accepts the removal when the factor is `+inf`, and for a positive factor exactly when `u / prob_remove_factor <= m - n + 1` |
| Diagonal.ForcedIsAccepted | src/hm/updates.rs:29-31 | for a draw in `[0, 1]`, a certain insertion or removal is also one the draw would accept, so skipping the draw does not change the outcome |
| Diagonal.DiagStepDraws | src/hm/updates.rs:26-44 | one draw for the bond at every identity slot, and a probability draw exactly when the threshold test fails |
| Diagonal.InsertStep | src/hm/updates.rs:25-35 | the slot receives `2*bondAt(pos)` only when that bond is antiparallel, and `n` grows by one exactly then. The spins and other slots are unchanged. Draws: the bond, plus a probability unless `prob_add_factor >= m - n` |
| Diagonal.InsertKeepsWellFormed | src/hm/updates.rs:32-33 | inserting a diagonal operator on an antiparallel bond with `n + 1` keeps `n` the count and the operators proper |
| Diagonal.RemoveStep | src/hm/updates.rs:41-47 | the diagonal operator stays or becomes `-1` with `n - 1`, and the spins are unchanged. A probability is drawn unless `prob_remove_factor * (m - n + 1) >= 1` |
| Diagonal.RemoveKeepsWellFormed | src/hm/updates.rs:45-46 | removing an operator with `n - 1` keeps `n` the count |
| Diagonal.OffDiagonalStep | src/hm/updates.rs:53-57 | exactly the two sites of bond `op/2` are negated, all else unchanged, and spins stay +1/-1 |
| Diagonal.Apply | src/hm/updates.rs:53-56 | an off-diagonal operator negates exactly the two sites of its bond when they differ (a bond from a site to itself negates it twice, leaving it), every other operator leaves the spins alone, and +1/-1 spins stay +1/-1 |
| Diagonal.ApplyTwice | src/hm/updates.rs:53-56 | applying an operator twice gives back the spins |
| Diagonal.DiagUpTo | src/hm/updates.rs:19-58 | after `k` slots the configuration is well formed, slots from `k` on are untouched, and each earlier slot changed only as `SlotTransition` allows |
| Diagonal.DiagUpToStep | src/hm/updates.rs:19-58 | slot `k` applied after `k` slots is the state after `k + 1` slots |
| Diagonal.DiagSweepKeepsInvariants | src/hm/updates.rs:13-60 | after a sweep `n` counts the operators with `n <= m`, spins are +1/-1, and no off-diagonal operator appears or disappears |
| Diagonal.DiagUpToPropagates | src/hm/updates.rs:53-57 | after `k` slots the spins are the start spins propagated through the first `k` operators |
| Diagonal.PropagateSnoc | src/hm/updates.rs:53-57 | propagating through one more slot applies that slot's operator |
| Diagonal.StepPropagates | src/hm/updates.rs:53-57 | one slot moves the spins across that slot's operator |
| Diagonal.PropagateOffDiagonalOnly | src/hm/updates.rs:53-57 | only off-diagonal operators move spins: strings agreeing on them propagate alike |
| Diagonal.DiagSweepSpins | src/hm/updates.rs:13-60 | a sweep leaves the spins propagated through the new string, and periodic world lines come back to the start spins |
| Vertex.Event | src/hm/updates.rs:97 | leg `x` belongs to event `2*(x/4) + x%2`, on the entry or exit side |
| Vertex.EntryLeg | src/hm/updates.rs:97 | the entry leg of event `e` is `4*(e/2) + e%2` |
| Vertex.LegSite | src/hm/updates.rs:94-96 | the site of a leg is the site of its event |
| Vertex.ScanStart | src/hm/updates.rs:75-82 | the reset arrays satisfy the scan invariant before any event |
| Vertex.SlotEvents | src/hm/updates.rs:97 | slot `p`'s events are `2p` (site `s0`, leg `4p`) and `2p+1` (site `s1`, leg `4p+1`) |
| Vertex.LinkSiteLinks | src/hm/updates.rs:102-117 | one site's block links the entry leg and the site's last leg both ways, or records the entry leg as the site's first when it has no last leg; the exit leg `leg + 2` becomes the site's last, and no other entry changes |
| Vertex.SlotLinksLinks | src/hm/updates.rs:91-130 | an identity slot changes nothing; an operator slot links `4p` and `4p+1` with its two sites' last legs (or records them as first legs), makes `4p+2` and `4p+3` the last legs, and changes no other leg |
| Vertex.SlotScan | src/hm/updates.rs:91-130 | the loop body for slot `p` can be applied (every index in range) and takes the scan invariant from event `2p` to `2p+2` |
| Vertex.IdentitySlotScan | src/hm/updates.rs:93 | an identity slot leaves the arrays as they are and the invariant moves past its events |
| Vertex.OperatorSlotScan | src/hm/updates.rs:94-129 | the blocks for `s0` and then `s1` keep the scan invariant and the array sizes |
| Vertex.LastInRange | src/hm/updates.rs:98-99 | during the scan `v_last[s]` is `-1` or an index of the vertex list |
| Vertex.EventScan | src/hm/updates.rs:102-117 | one site's block is the scan of its event |
| Vertex.ScanStep | src/hm/updates.rs:102-117 | scanning one event keeps the scan invariant |
| Vertex.ScanSkip | src/hm/updates.rs:93 | events of identity slots change nothing |
| Vertex.ScanLink | src/hm/updates.rs:102-108 | linking `v_last[s]` with the entry leg keeps the invariant |
| Vertex.ScanLinkPaired | src/hm/updates.rs:106-107 | after linking, links stay symmetric, per site, entry against exit |
| Vertex.ScanLinkForward | src/hm/updates.rs:106-107 | after linking, every exit leg links to the next event of its site |
| Vertex.ScanLinkEnds | src/hm/updates.rs:106-117 | after linking, the only unlinked scanned legs are each site's first and last |
| Vertex.ScanLinkFirstLast | src/hm/updates.rs:106-117 | after linking, every site's first and last legs are as described |
| Vertex.LinkFirstLastAt | src/hm/updates.rs:117 | one site's first and last legs after a linking block |
| Vertex.LinkFirstLastOwn | src/hm/updates.rs:117 | the linked site keeps its first leg and takes the new exit leg as last |
| Vertex.LinkFirstLastOther | src/hm/updates.rs:117 | every other site keeps its first and last legs |
| Vertex.ScanFirst | src/hm/updates.rs:110-117 | recording a site's first leg keeps the invariant |
| Vertex.ScanFirstEnds | src/hm/updates.rs:110-117 | after recording, the only unlinked scanned legs are each site's first and last |
| Vertex.ScanFirstFirstLast | src/hm/updates.rs:110-117 | after recording, every site's first and last legs are as described |
| Vertex.FirstFirstLastAt | src/hm/updates.rs:113-117 | one site's first and last legs after recording a first leg |
| Vertex.NoTouchExtend | src/hm/updates.rs:93-129 | a site untouched before and at event `k` is untouched up to `k + 1` |
| Vertex.CloseStep | src/hm/updates.rs:142-148 | closing site `t` links its last and first legs and changes no other leg |
| Vertex.Closing | src/hm/updates.rs:141-149 | the scan followed by closing every site yields `LinksBuilt`: exactly the legs of operators are linked, symmetrically, each exit leg to the next entry on its site cyclically, with `v_first`/`v_last` each site's end legs or `-1` exactly when no operator touches it |
| Vertex.ClosedLeg | src/hm/updates.rs:141-149 | each leg of the closed list is linked exactly when its slot holds an operator, and correctly |
| Vertex.ClosedInner | src/hm/updates.rs:141-149 | a leg the scan linked keeps its link |
| Vertex.ClosedEnds | src/hm/updates.rs:145-148 | a site's first and last legs link to each other across the periodic boundary |
| Vertex.FirstLegsInRange | src/hm/updates.rs:202-203 | once built, `v_first[i]` is `-1` or an index of the vertex list |
| Loops.Partner | src/hm/updates.rs:172 | `v ^ 1` is the other leg of the same side of the same slot |
| Loops.PartnerArith | src/hm/updates.rs:172 | `v ^ 1` written as `v + 1` or `v - 1` stays in the pair and slot of `v` |
| Loops.PartnerInvolutive | src/hm/updates.rs:172 | `v ^ 1 ^ 1 == v` |
| Loops.CountLinked | src/hm/updates.rs:161-192 | the number of legs still holding a link, the measure that bounds a traversal, is at most the list length |
| Loops.CountMark | src/hm/updates.rs:171 | marking a linked leg lowers that number by one |
| Loops.BuiltLinksPair | src/hm/updates.rs:161-192 | a built vertex list pairs legs (symmetric, never to itself or its partner), only on operators, with nothing marked |
| Loops.PairedAt | src/hm/updates.rs:173 | a linked leg's link is another leg, not its partner, and links back |
| Loops.PartnerLinked | src/hm/updates.rs:172-173 | a leg is linked exactly when its partner is |
| Loops.NoMarksYet | src/hm/updates.rs:161 | before any traversal no operator is due to change |
| Loops.TraverseStart | src/hm/updates.rs:166 | an unmarked leg of a processed list starts a traversal |
| Loops.TraverseStep | src/hm/updates.rs:170-178 | one step keeps the traversal invariant, reads a leg index, and lowers the count of linked legs by two |
| Loops.StepHeads | src/hm/updates.rs:172-173 | the partner of the head is unmarked, and the leg linked to it is the start or unmarked |
| Loops.PartnerAlike | src/hm/updates.rs:171-174 | a marked leg's partner carries the same mark |
| Loops.LinkAlike | src/hm/updates.rs:173 | a marked leg other than the open ends links to a leg with its mark |
| Loops.StepWellFormed | src/hm/updates.rs:171-174 | marking the head and its partner keeps partners alike |
| Loops.StepClosed | src/hm/updates.rs:171-174 | after a step the marked legs are closed under links but for the start and the new open end |
| Loops.TraverseDone | src/hm/updates.rs:176-178 | a traversal back at its start leaves every loop wholly marked or untouched |
| Loops.FlipsMatchAt | src/hm/updates.rs:170 | at each slot the operator is the old one flipped exactly when its entry and exit pairs differ in flip marks |
| Loops.FlipStep | src/hm/updates.rs:170-174 | toggling the head's operator while marking the head pair `-2` keeps that match |
| Loops.KeepStep | src/hm/updates.rs:184-187 | marking the head pair `-1` keeps the match with the operators unchanged |
| Loops.FlipsKeepOps | src/hm/updates.rs:170 | flips keep identities as `-1`, keep every operator's bond, keep the operators proper and keep `n` |
| Loops.LoopMark | src/hm/updates.rs:171 | the mark is `-2` exactly on a flipped loop and `-1` otherwise |
| Loops.TraverseBegin | src/hm/updates.rs:166-168 | the start of a traversal from an unmarked leg |
| Loops.TraverseAdvance | src/hm/updates.rs:169-191 | one turn of either `loop` keeps the traversal state, with the head appended to the walk, every index in range, and strictly lowers the count of linked legs (termination) |
| Loops.PathAdvance | src/hm/updates.rs:169-191 | marking the head and its partner extends the walk by the head, the next head is the leg linked to the partner, and the marked legs are still exactly the walk's |
| Loops.WalkExtend | src/hm/updates.rs:172-173 | the walk from `v` extended by its head is still a walk from `v`, headed by the leg linked to the head's partner |
| Loops.MarkExtend | src/hm/updates.rs:171-174 | marking an unmarked head and its partner marks exactly the legs of the extended walk, every other entry kept |
| Loops.TraverseFinish | src/hm/updates.rs:176-191 | a finished traversal leaves the list processed, the start leg carrying the loop's mark, and the walk taken is the loop through the start, closing back on it |
| Loops.SweepBegin | src/hm/updates.rs:161 | the sweep over even legs starts with nothing marked and no loop found |
| Loops.SweepSkip | src/hm/updates.rs:162-164 | an already marked even leg is skipped |
| Loops.SweepTraversed | src/hm/updates.rs:166-192 | a traversal from an unmarked even leg that marks exactly its loop advances the sweep past that leg |
| Loops.LoopsTraversed | src/hm/updates.rs:162-192 | the loop through an unmarked leg above every earlier start, marked with the next draw's mark, is the next loop found |
| Loops.LoopsFromAdd | src/hm/updates.rs:162-166 | the new loop goes through its start, and the starts stay increasing |
| Loops.LoopsMarkedAdd | src/hm/updates.rs:161-192 | earlier loops keep their marks, and the new loop lies at or above its start with the new draw's mark |
| Loops.OnLoopInRange | src/hm/updates.rs:169-191 | every leg on a walk is a leg of the list |
| Loops.LoopsDisjointAdd | src/hm/updates.rs:162-192 | the new loop shares no leg with an earlier one, whose legs were all marked |
| Loops.LoopsCoverAdd | src/hm/updates.rs:162-192 | every marked linked leg still lies on a loop found |
| Loops.SweepDone | src/hm/updates.rs:161-193 | after the sweep every linked leg lies on exactly one loop found and carries that loop's draw's mark |
| Loops.SweepFlips | src/hm/updates.rs:161-193 | after the sweep an operator changes type exactly when the loops through its entry leg `4p` and exit leg `4p+2` drew different coins |
| Loops.EvenStep | src/hm/updates.rs:161 | even legs step by two inside the list, and the partner of an even leg is the next leg |
| Heisenberg.SpinFromDraw | src/hm/ini.rs:94 | the initial spin is +1 exactly when the draw exceeds one half, and -1 otherwise |
| Heisenberg.AddFactor | src/hm/ini.rs:89 | `prob_add_factor` is zero exactly when `beta` is zero or there are no bonds, and on a lattice with bonds it is positive exactly when `beta` is |
| Heisenberg.BondTableInRange | src/hm/ini.rs:56-87 | the built table's bonds join sites of the lattice |
| Heisenberg.InitialConfig | src/hm/ini.rs:93-100 | +1/-1 spins with an all-identity string and `n == 0` are a well-formed configuration |
| Heisenberg.GrowString | src/hm/updates.rs:222 | appending identities keeps the configuration well formed |
| Heisenberg.CountIsolated | src/hm/updates.rs:209-212 | the number of sites below `i` without a leg, each of which takes a draw |
| Heisenberg.HeisenbergModel.constructor | src/hm/ini.rs:5-51 | the parameters are kept, `n == 0`, `m == 20`, the tables are empty, both factors are 0 |
| Heisenberg.HeisenbergModel.RandBond | src/hm/updates.rs:26 | a bond draw is the stream's next output, and advances it by one |
| Heisenberg.HeisenbergModel.RandProb | src/hm/updates.rs:31 | a probability draw is the stream's next output, and advances it by one |
| Heisenberg.HeisenbergModel.Initialization | src/hm/ini.rs:53-101 | `n_bonds` and `b_sites` are the reference lattice. `prob_add_factor = beta*n_bonds/2` and `prob_remove_factor` is its reciprocal. Spin `i` comes from draw `i`. The string is `m` copies of `-1`, and `vertex_list`, `v_first`, `v_last` are all `-1`. `n` and `m` are unchanged, and the model is valid when `n` started at 0 and the bond draws fit the table built |
| Heisenberg.HeisenbergModel.SetLattice | src/hm/ini.rs:54-87 | `n_bonds` and `b_sites` are the reference lattice, with every bond on lattice sites |
| Heisenberg.HeisenbergModel.SetFactors | src/hm/ini.rs:89-90 | the two acceptance factors |
| Heisenberg.HeisenbergModel.DrawSpins | src/hm/ini.rs:93-95 | one draw per site in order, spin +1 when the draw exceeds one half |
| Heisenberg.HeisenbergModel.ResetArrays | src/hm/ini.rs:97-100 | the string and the three working arrays are filled with `-1` at their sizes |
| Heisenberg.HeisenbergModel.DiagUpdate | src/hm/updates.rs:13-60 | the new spins, string, `n` and generator position are those of `DiagUpTo` over all `m` slots, and `Valid()` is kept |
| Heisenberg.HeisenbergModel.DiagSweepSlot | src/hm/updates.rs:19-58 | iteration `p` of the sweep takes the state after `p` slots to the state after `p + 1` |
| Heisenberg.HeisenbergModel.DiagSlot | src/hm/updates.rs:20-57 | one iteration is `DiagStep` and keeps `Valid()` |
| Heisenberg.HeisenbergModel.TryInsert | src/hm/updates.rs:25-36 | the identity branch is `InsertStep` and keeps `Valid()` |
| Heisenberg.HeisenbergModel.TryRemove | src/hm/updates.rs:41-48 | the diagonal branch is `RemoveStep` and keeps `Valid()` |
| Heisenberg.HeisenbergModel.MakeVertexLists | src/hm/updates.rs:62-151 | the three arrays satisfy `LinksBuilt` for the current string and lattice, and `Valid()` is kept |
| Heisenberg.HeisenbergModel.ResetLinks | src/hm/updates.rs:75-82 | every leg and every site pointer is `-1` |
| Heisenberg.HeisenbergModel.ScanLinks | src/hm/updates.rs:90-131 | the linking loop takes the scan invariant from the start to the end of the string |
| Heisenberg.HeisenbergModel.LinkSlot | src/hm/updates.rs:91-130 | the loop body for slot `p` is `SlotLinks` |
| Heisenberg.HeisenbergModel.LinkLeg | src/hm/updates.rs:102-117 | one site's block is `LinkSite` |
| Heisenberg.HeisenbergModel.CloseLinks | src/hm/updates.rs:141-149 | after the periodic correction the arrays satisfy `LinksBuilt` |
| Heisenberg.HeisenbergModel.LoopUpdate | src/hm/updates.rs:153-216 | every leg is marked afterwards (no entry `>= 0`). The traversals found loops: the j-th is the loop through its start, the least leg on it; every linked leg lies on exactly one of them and carries the mark of that loop's draw, `-2` when the j-th draw is below one half. Operators change type exactly where flip marks cross them, keeping their bonds, identities and `n`. Site `i` is negated exactly when the loop through its first leg was flipped, or, for a site without legs, when its own draw is below one half. The draws are one per traversal and one per isolated site |
| Heisenberg.HeisenbergModel.UpdateOperators | src/hm/updates.rs:161-193 | the even-leg sweep marks every leg; the j-th traversal, from the j-th start, found the loop through it and marked exactly that loop's legs with the j-th draw's mark; the loops are disjoint and cover every linked leg; one draw per traversal |
| Heisenberg.HeisenbergModel.TraverseLeg | src/hm/updates.rs:162-192 | at an unmarked even leg: one draw, and the loop through the leg, marked by that draw, becomes the next loop found |
| Heisenberg.HeisenbergModel.TraverseLoop | src/hm/updates.rs:166-191 | the traversal terminates back at `v` and returns the walk of heads, which is the loop through `v`; exactly the legs on that loop, all unmarked before, get the mark, every other entry is kept, and the operators still match the flip marks |
| Heisenberg.HeisenbergModel.MarkStep | src/hm/updates.rs:170-174 | one turn: the head's operator toggles when flipping (else the string is untouched), the head and its partner get the mark, and the next head is the partner's old link |
| Heisenberg.HeisenbergModel.UpdateSpins | src/hm/updates.rs:200-214 | site `i` is negated exactly as `SpinFlipped` says, and only isolated sites consume a draw |
| Heisenberg.HeisenbergModel.AdjustM | src/hm/updates.rs:218-226 | `m` becomes `max(m, n + n/3)`. On growth the old string is a prefix, the new slots are `-1` and the vertex list is `4m` copies of `-1`. Otherwise nothing changes. `n` and `Valid()` are kept |

## Left out

- src/main.rs (argument parsing, the sweep schedule, output files, timing) and the measurement routines (measurements.rs is not part of this model), with the fields `energy`, `energy2`, `heat_capacity` and `zz_correlation`: I/O and floating-point statistics outside the sweep engine.
- The MT19937 generator and `rand_bond`/`rand_prob` (random.rs is not part of this model). They are the stream `bondAt`/`probAt` read at `rngPos`. That every bond draw lies in `[0, n_bonds)` is the assumption `BondStream`, required by the methods that draw bonds. Determinism is immediate, since the model is a function of the stream.
- Floating-point arithmetic: `beta`, the factors and the acceptance tests are exact reals. Rounding of `0.5 * beta * n_bonds`, of `u * (m - n)` and of `prob_remove_factor * (m - n + 1)` is not modelled. `+inf` for `beta == 0` is modelled. NaN is not.
- Integer widths: `usize` and `i32` are unbounded integers. The casts `2 * new_bond as i32` and `(op / 2) as usize` are exact, so the model assumes fewer than 2^30 bonds and no overflow of `4 * m` or `n + n / 3`.
- Heisenberg.HeisenbergModel.Valid: does not carry the two acceptance factors. `Initialization` sets them and no other method writes them, so they are stated as `Initialization`'s postconditions instead.
- Lattice sizes: `new` and `Initialization` accept any `lx` and `ly`. `Valid()` and the methods that draw a bond require `BondStream`, which no stream meets when there are no bonds (`lx == 0` or `ly == 0`). So `Initialization` establishes `Valid()` only for `lx, ly >= 1`, a sweep is modelled only for those sizes, and what `rand_bond` does on an empty range is not modelled.
- Heisenberg.HeisenbergModel.Initialization: establishes `Valid()` only when `n` was 0, as after `new`, because the source does not reset `n`, and only when the bond stream fits the table (see Lattice sizes).
- Periodicity of world lines (propagation through the whole string returns the spins) is used by `DiagSweepSpins` as a hypothesis. It is not proved to be preserved by `loop_update`.
- The bound of `4M` steps per traversal is not stated as such. Termination is proved by the count of linked legs, which each step lowers by two.
- Unchecked indexing (`unsafe_get!`/`unsafe_idx!`, src/hm.rs:11-31) is ordinary indexing, proved in range at every access.
