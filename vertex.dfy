/**
  Specification of the vertex linking `make_vertex_lists`
  (src/hm/updates.rs:62-151).

  The operator in slot `p` owns four legs `4p .. 4p+3`: `4p` and `4p+1` are
  where the world lines of its bond's sites `s0` and `s1` enter it, `4p+2` and
  `4p+3` where they leave it.  The linking connects every exit leg with the
  entry leg of the same site at the next operator on that site in imaginary
  time, and the last exit leg of a site with its first entry leg (periodic
  boundary in imaginary time).  `vertex_list[v]` holds the leg linked to `v`,
  or `-1`.

  The scan is described at the granularity of events: event `2p + side` is the
  passage of the world line of site `side` of slot `p`'s bond through that
  slot, with entry leg `4p + side` and exit leg `4p + 2 + side`.  Events are
  numbered in imaginary-time order.
 */
module Vertex {
  import opened Lattice
  import opened Operators

  /** The three working arrays the linking fills: `vertex_list`, `v_first`, `v_last`. */
  datatype Links = Links(vl: seq<int>, first: seq<int>, last: seq<int>)

  /** Sentinel of a leg without a link, and of a site without a leg. */
  const Unlinked: int := -1

  /** Entry legs are `4p` and `4p+1`; exit legs are `4p+2` and `4p+3`. */
  predicate IsEntry(x: int)
  {
    x % 4 < 2
  }

  /** The event a leg belongs to. */
  function Event(x: nat): (e: nat)
    ensures e / 2 == x / 4 && e % 2 == x % 2
    ensures x == 4 * (e / 2) + e % 2 + (if IsEntry(x) then 0 else 2)
  {
    2 * (x / 4) + x % 2
  }

  /** The entry leg of event `e`. */
  function EntryLeg(e: nat): (x: nat)
    ensures Event(x) == e && IsEntry(x) && x / 4 == e / 2
  {
    4 * (e / 2) + e % 2
  }

  /** The exit leg of event `e`. */
  function ExitLeg(e: nat): (x: nat)
    ensures Event(x) == e && !IsEntry(x) && x / 4 == e / 2
  {
    4 * (e / 2) + e % 2 + 2
  }

  /** The site whose world line passes through event `e`. */
  function EventSite(ops: seq<int>, bonds: seq<Bond>, e: nat): nat
    requires ProperOps(ops, bonds) && e / 2 < |ops| && ops[e / 2] != Identity
  {
    var bond := bonds[ops[e / 2] / 2];
    if e % 2 == 0 then bond.s0 else bond.s1
  }

  /** The site of leg `x`. */
  function LegSite(ops: seq<int>, bonds: seq<Bond>, x: nat): (s: nat)
    requires ProperOps(ops, bonds) && x / 4 < |ops| && ops[x / 4] != Identity
    ensures s == EventSite(ops, bonds, Event(x))
  {
    var bond := bonds[ops[x / 4] / 2];
    if x % 2 == 0 then bond.s0 else bond.s1
  }

  /** Event `e` belongs to an operator acting on site `s`. */
  predicate Touches(ops: seq<int>, bonds: seq<Bond>, e: nat, s: nat)
    requires ProperOps(ops, bonds) && e / 2 < |ops|
  {
    ops[e / 2] != Identity && EventSite(ops, bonds, e) == s
  }

  /** No event strictly between `lo` and `hi` touches site `s`. */
  ghost predicate NoTouchBetween(ops: seq<int>, bonds: seq<Bond>, s: nat, lo: int, hi: int)
    requires ProperOps(ops, bonds) && hi <= 2 * |ops|
  {
    forall e: nat :: lo < e < hi ==> !Touches(ops, bonds, e, s)
  }

  /** The sizes of the working arrays. */
  ghost predicate Shape(ops: seq<int>, bonds: seq<Bond>, nSites: nat, L: Links)
  {
    && ProperOps(ops, bonds)
    && SitesInRange(bonds, nSites)
    && |L.vl| == 4 * |ops|
    && |L.first| == nSites
    && |L.last| == nSites
  }

  /**
    Leg `x` is linked to a leg of the same site, of an operator slot, on the
    other side (entry against exit), which is linked back to `x`.
   */
  ghost predicate PairedLeg(ops: seq<int>, bonds: seq<Bond>, vl: seq<int>, x: nat)
    requires ProperOps(ops, bonds) && |vl| == 4 * |ops| && x < |vl|
  {
    var y := vl[x];
    && 0 <= y < |vl|
    && ops[x / 4] != Identity
    && ops[y / 4] != Identity
    && vl[y] == x
    && LegSite(ops, bonds, y) == LegSite(ops, bonds, x)
    && IsEntry(y) != IsEntry(x)
  }

  /**
    What a site's first and last legs are once the events before `k` are
    scanned: none if no such event touches the site; otherwise the entry leg
    of its earliest event and the exit leg of its latest, both still unlinked.
   */
  ghost predicate FirstLastAt(ops: seq<int>, bonds: seq<Bond>, L: Links, s: nat, k: nat)
    requires ProperOps(ops, bonds) && |L.vl| == 4 * |ops| && s < |L.first| == |L.last| && k <= 2 * |ops|
  {
    && (L.first[s] == Unlinked <==> L.last[s] == Unlinked)
    && (L.first[s] == Unlinked ==> NoTouchBetween(ops, bonds, s, -1, k))
    && (L.first[s] != Unlinked ==>
          && 0 <= L.first[s] < |L.vl|
          && IsEntry(L.first[s]) && Event(L.first[s]) < k
          && ops[L.first[s] / 4] != Identity
          && LegSite(ops, bonds, L.first[s]) == s
          && L.vl[L.first[s]] == Unlinked
          && NoTouchBetween(ops, bonds, s, -1, Event(L.first[s])))
    && (L.last[s] != Unlinked ==>
          && 0 <= L.last[s] < |L.vl|
          && !IsEntry(L.last[s]) && Event(L.last[s]) < k
          && ops[L.last[s] / 4] != Identity
          && LegSite(ops, bonds, L.last[s]) == s
          && L.vl[L.last[s]] == Unlinked
          && NoTouchBetween(ops, bonds, s, Event(L.last[s]), k))
  }

  /** The state of the linking scan after the events before `k`. */
  ghost predicate ScanInv(ops: seq<int>, bonds: seq<Bond>, nSites: nat, L: Links, k: nat)
    requires Shape(ops, bonds, nSites, L) && k <= 2 * |ops|
  {
    // legs of events not yet scanned, and legs of identity slots, are unlinked
    && (forall x :: 0 <= x < |L.vl| && (Event(x) >= k || ops[x / 4] == Identity) ==> L.vl[x] == Unlinked)
    // links are symmetric and join legs of one site
    && (forall x :: 0 <= x < |L.vl| && L.vl[x] != Unlinked ==> PairedLeg(ops, bonds, L.vl, x))
    // an exit leg is linked forward, to the next event on its site
    && (forall x :: 0 <= x < |L.vl| && L.vl[x] != Unlinked && !IsEntry(x) ==>
          Event(x) < Event(L.vl[x]) < k &&
          NoTouchBetween(ops, bonds, LegSite(ops, bonds, x), Event(x), Event(L.vl[x])))
    // a scanned operator leg still unlinked is its site's first or last leg
    && (forall x :: 0 <= x < |L.vl| && Event(x) < k && ops[x / 4] != Identity && L.vl[x] == Unlinked ==>
          if IsEntry(x) then L.first[LegSite(ops, bonds, x)] == x else L.last[LegSite(ops, bonds, x)] == x)
    && AllFirstLast(ops, bonds, nSites, L, k)
  }

  /** `FirstLastAt` for every site. */
  ghost predicate AllFirstLast(ops: seq<int>, bonds: seq<Bond>, nSites: nat, L: Links, k: nat)
    requires Shape(ops, bonds, nSites, L) && k <= 2 * |ops|
  {
    forall s :: 0 <= s < nSites ==> FirstLastAt(ops, bonds, L, s, k)
  }

  /** The reset state: every entry `-1`. */
  lemma ScanStart(ops: seq<int>, bonds: seq<Bond>, nSites: nat, L: Links)
    requires Shape(ops, bonds, nSites, L)
    requires forall x :: 0 <= x < |L.vl| ==> L.vl[x] == Unlinked
    requires forall s :: 0 <= s < nSites ==> L.first[s] == Unlinked && L.last[s] == Unlinked
    ensures ScanInv(ops, bonds, nSites, L, 0)
  {
  }

  /**
    Scanning event `k` (the source's block for one site of slot `k/2`): link
    the site's last leg with this entry leg, or record the entry leg as the
    site's first; the exit leg becomes the site's last.
   */
  ghost function ScanEvent(ops: seq<int>, bonds: seq<Bond>, nSites: nat, L: Links, k: nat): Links
    requires Shape(ops, bonds, nSites, L) && k < 2 * |ops|
    requires ScanInv(ops, bonds, nSites, L, k)
  {
    if ops[k / 2] == Identity then L
    else
      var s, entry := EventSite(ops, bonds, k), EntryLeg(k);
      assert FirstLastAt(ops, bonds, L, s, k);
      var last := L.last[s];
      if last > -1 then
        Links(L.vl[last := entry][entry := last], L.first, L.last[s := entry + 2])
      else
        Links(L.vl, L.first[s := entry], L.last[s := entry + 2])
  }

  /** The two events of slot `p` are `2p` (site `s0`) and `2p+1` (site `s1`), entering at legs `4p` and `4p+1`. */
  lemma SlotEvents(p: nat)
    ensures (2 * p) / 2 == p && (2 * p) % 2 == 0 && (2 * p + 1) / 2 == p && (2 * p + 1) % 2 == 1
    ensures EntryLeg(2 * p) == 4 * p && EntryLeg(2 * p + 1) == 4 * p + 1
  {
  }

  /**
    The source's block for one site of an operator: link the site's last leg
    `sLast` with the entry leg `leg`, or, when the site has no leg yet, make
    `leg` its first; the exit leg `leg + 2` becomes the site's last.
   */
  function LinkSite(L: Links, s: nat, leg: nat, sLast: int): Links
    requires s < |L.first| && s < |L.last| && leg < |L.vl| && sLast < |L.vl|
  {
    if sLast > -1 then Links(L.vl[sLast := leg][leg := sLast], L.first, L.last[s := leg + 2])
    else Links(L.vl, L.first[s := leg], L.last[s := leg + 2])
  }

  /**
    One site's block links the entry leg `leg` and the site's last leg both
    ways, or makes `leg` the site's first when there is no last leg; the
    exit leg `leg + 2` becomes the site's last, and nothing else changes.
   */
  lemma LinkSiteLinks(L: Links, s: nat, leg: nat, sLast: int)
    requires s < |L.first| && s < |L.last| && leg < |L.vl| && sLast < |L.vl|
    ensures var r := LinkSite(L, s, leg, sLast);
      && |r.vl| == |L.vl| && |r.first| == |L.first| && |r.last| == |L.last|
      && r.last[s] == leg + 2 && (forall t :: 0 <= t < |L.last| && t != s ==> r.last[t] == L.last[t])
      && (sLast >= 0 && sLast != leg ==> r.vl[leg] == sLast && r.vl[sLast] == leg && r.first == L.first)
      && (sLast < 0 ==> r.first[s] == leg && r.vl == L.vl)
      && (forall t :: 0 <= t < |L.first| && t != s ==> r.first[t] == L.first[t])
      && (forall x :: 0 <= x < |L.vl| && x != leg && x != sLast ==> r.vl[x] == L.vl[x])
  {
  }

  /**
    The last legs of the two sites of slot `p` are legs (or `-1`), so the
    blocks of `LinkSite` can be applied.
   */
  predicate SlotReady(ops: seq<int>, bonds: seq<Bond>, L: Links, p: nat)
  {
    && p < |ops| && 4 * |ops| == |L.vl| && |L.first| == |L.last|
    && (ops[p] != Identity ==>
          && 0 <= ops[p] < 2 * |bonds|
          && bonds[ops[p] / 2].s0 < |L.last| && bonds[ops[p] / 2].s1 < |L.last|
          && bonds[ops[p] / 2].s0 != bonds[ops[p] / 2].s1
          && L.last[bonds[ops[p] / 2].s0] < |L.vl| && L.last[bonds[ops[p] / 2].s1] < |L.vl|)
  }

  /**
    The source's loop body for slot `p`: nothing at an identity; otherwise
    the block of site `s0` with entry leg `4p`, then that of site `s1` with
    entry leg `4p+1`, each with the site's last leg as it was before the slot.
   */
  function SlotLinks(ops: seq<int>, bonds: seq<Bond>, L: Links, p: nat): Links
    requires SlotReady(ops, bonds, L, p)
  {
    if ops[p] == Identity then L
    else
      var bond := bonds[ops[p] / 2];
      LinkSite(LinkSite(L, bond.s0, 4 * p, L.last[bond.s0]), bond.s1, 4 * p + 1, L.last[bond.s1])
  }

  /**
    The loop body at an operator slot `p`, with the sites' last legs below
    the slot and no leg the last of two sites: each entry leg, `4p` for `s0` and `4p+1` for `s1`, is linked
    both ways with its site's last leg, or becomes the site's first leg; the
    exit legs `4p+2` and `4p+3` become the sites' last legs; no other leg
    changes.  An identity slot changes nothing.
   */
  lemma SlotLinksLinks(ops: seq<int>, bonds: seq<Bond>, L: Links, p: nat)
    requires SlotReady(ops, bonds, L, p)
    requires forall t :: 0 <= t < |L.last| ==> L.last[t] < 4 * p
    requires forall t, u :: 0 <= t < u < |L.last| && L.last[t] >= 0 ==> L.last[t] != L.last[u]
    ensures var r := SlotLinks(ops, bonds, L, p);
      && |r.vl| == |L.vl| && |r.first| == |L.first| && |r.last| == |L.last|
      && (ops[p] == Identity ==> r == L)
      && (ops[p] != Identity ==>
            var b := bonds[ops[p] / 2];
            && r.last[b.s0] == 4 * p + 2 && r.last[b.s1] == 4 * p + 3
            && (L.last[b.s0] >= 0 ==> r.vl[4 * p] == L.last[b.s0] && r.vl[L.last[b.s0]] == 4 * p)
            && (L.last[b.s0] < 0 ==> r.first[b.s0] == 4 * p)
            && (L.last[b.s1] >= 0 ==> r.vl[4 * p + 1] == L.last[b.s1] && r.vl[L.last[b.s1]] == 4 * p + 1)
            && (L.last[b.s1] < 0 ==> r.first[b.s1] == 4 * p + 1)
            && (forall x :: 0 <= x < |L.vl| && x != 4 * p && x != 4 * p + 1 && x != L.last[b.s0] && x != L.last[b.s1]
                  ==> r.vl[x] == L.vl[x]))
  {
    if ops[p] != Identity {
      var b := bonds[ops[p] / 2];
      var L1 := LinkSite(L, b.s0, 4 * p, L.last[b.s0]);
      LinkSiteLinks(L, b.s0, 4 * p, L.last[b.s0]);
      LinkSiteLinks(L1, b.s1, 4 * p + 1, L.last[b.s1]);
    }
  }

  /**
    The source's loop body for slot `p` scans the two events of the slot:
    from the scan state before the slot it can be applied, and it yields the
    scan state after the slot.
   */
  lemma SlotScan(ops: seq<int>, bonds: seq<Bond>, nSites: nat, L: Links, p: nat)
    requires Shape(ops, bonds, nSites, L) && p < |ops|
    requires ScanInv(ops, bonds, nSites, L, 2 * p)
    ensures SlotReady(ops, bonds, L, p)
    ensures Shape(ops, bonds, nSites, SlotLinks(ops, bonds, L, p))
    ensures ScanInv(ops, bonds, nSites, SlotLinks(ops, bonds, L, p), 2 * (p + 1))
  {
    assert 2 * p + 2 == 2 * (p + 1);
    if ops[p] == Identity {
      IdentitySlotScan(ops, bonds, nSites, L, p);
    } else {
      OperatorSlotScan(ops, bonds, nSites, L, p);
    }
  }

  /** `SlotScan` at an identity slot: both events are skipped. */
  lemma IdentitySlotScan(ops: seq<int>, bonds: seq<Bond>, nSites: nat, L: Links, p: nat)
    requires Shape(ops, bonds, nSites, L) && p < |ops| && ops[p] == Identity
    requires ScanInv(ops, bonds, nSites, L, 2 * p)
    ensures ScanInv(ops, bonds, nSites, L, 2 * p + 2)
  {
    SlotEvents(p);
    var k0, k1, k2 := 2 * p, 2 * p + 1, 2 * p + 2;
    assert k0 + 1 == k1 && k1 + 1 == k2;
    ScanSkip(ops, bonds, nSites, L, k0);
    ScanSkip(ops, bonds, nSites, L, k1);
  }

  /** `SlotScan` at an operator slot: the events of `s0` and then `s1`. */
  lemma OperatorSlotScan(ops: seq<int>, bonds: seq<Bond>, nSites: nat, L: Links, p: nat)
    requires Shape(ops, bonds, nSites, L) && p < |ops| && ops[p] != Identity
    requires ScanInv(ops, bonds, nSites, L, 2 * p)
    ensures SlotReady(ops, bonds, L, p)
    ensures Shape(ops, bonds, nSites, SlotLinks(ops, bonds, L, p))
    ensures ScanInv(ops, bonds, nSites, SlotLinks(ops, bonds, L, p), 2 * p + 2)
  {
    SlotEvents(p);
    var k0, k1, k2 := 2 * p, 2 * p + 1, 2 * p + 2;
    assert k0 + 1 == k1 && k1 + 1 == k2;
    var bond := bonds[ops[p] / 2];
    var s0, s1 := bond.s0, bond.s1;
    assert EventSite(ops, bonds, k0) == s0 && EventSite(ops, bonds, k1) == s1;
    LastInRange(ops, bonds, nSites, L, k0, s1);
    EventScan(ops, bonds, nSites, L, k0, s0, 4 * p);
    var L1 := LinkSite(L, s0, 4 * p, L.last[s0]);
    assert L1.last[s1] == L.last[s1];
    EventScan(ops, bonds, nSites, L1, k1, s1, 4 * p + 1);
    var L2 := LinkSite(L1, s1, 4 * p + 1, L1.last[s1]);
    assert SlotLinks(ops, bonds, L, p) == L2;
  }

  /** During the scan every site's last leg is a leg or `-1`. */
  lemma LastInRange(ops: seq<int>, bonds: seq<Bond>, nSites: nat, L: Links, k: nat, t: nat)
    requires Shape(ops, bonds, nSites, L) && k <= 2 * |ops| && t < nSites
    requires ScanInv(ops, bonds, nSites, L, k)
    ensures L.last[t] == Unlinked || 0 <= L.last[t] < |L.vl|
  {
    assert FirstLastAt(ops, bonds, L, t, k);
  }

  /** Scanning event `k` of an operator, on site `s` with entry leg `leg`, is the block `LinkSite`. */
  lemma EventScan(ops: seq<int>, bonds: seq<Bond>, nSites: nat, L: Links, k: nat, s: nat, leg: nat)
    requires Shape(ops, bonds, nSites, L) && k < 2 * |ops| && ops[k / 2] != Identity
    requires ScanInv(ops, bonds, nSites, L, k)
    requires s == EventSite(ops, bonds, k) && leg == EntryLeg(k)
    ensures s < nSites && L.last[s] < |L.vl| && leg < |L.vl|
    ensures Shape(ops, bonds, nSites, LinkSite(L, s, leg, L.last[s]))
    ensures ScanInv(ops, bonds, nSites, LinkSite(L, s, leg, L.last[s]), k + 1)
  {
    assert FirstLastAt(ops, bonds, L, s, k);
    ScanStep(ops, bonds, nSites, L, k);
  }

  /** Scanning one event keeps the scan invariant. */
  lemma ScanStep(ops: seq<int>, bonds: seq<Bond>, nSites: nat, L: Links, k: nat)
    requires Shape(ops, bonds, nSites, L) && k < 2 * |ops|
    requires ScanInv(ops, bonds, nSites, L, k)
    ensures Shape(ops, bonds, nSites, ScanEvent(ops, bonds, nSites, L, k))
    ensures ScanInv(ops, bonds, nSites, ScanEvent(ops, bonds, nSites, L, k), k + 1)
  {
    var N := ScanEvent(ops, bonds, nSites, L, k);
    if ops[k / 2] == Identity {
      ScanSkip(ops, bonds, nSites, L, k);
    } else {
      var s := EventSite(ops, bonds, k);
      if L.last[s] != Unlinked {
        ScanLink(ops, bonds, nSites, L, k);
      } else {
        ScanFirst(ops, bonds, nSites, L, k);
      }
    }
  }

  /** An identity slot's events change nothing. */
  lemma ScanSkip(ops: seq<int>, bonds: seq<Bond>, nSites: nat, L: Links, k: nat)
    requires Shape(ops, bonds, nSites, L) && k < 2 * |ops| && ops[k / 2] == Identity
    requires ScanInv(ops, bonds, nSites, L, k)
    ensures ScanInv(ops, bonds, nSites, L, k + 1)
  {
    var k1 := k + 1;
    forall s | 0 <= s < nSites
      ensures FirstLastAt(ops, bonds, L, s, k1)
    {
      assert FirstLastAt(ops, bonds, L, s, k);
    }
  }

  /** The event's site was seen before: its last leg is linked to this entry leg. */
  lemma ScanLink(ops: seq<int>, bonds: seq<Bond>, nSites: nat, L: Links, k: nat)
    requires Shape(ops, bonds, nSites, L) && k < 2 * |ops| && ops[k / 2] != Identity
    requires ScanInv(ops, bonds, nSites, L, k)
    requires L.last[EventSite(ops, bonds, k)] != Unlinked
    ensures Shape(ops, bonds, nSites, ScanEvent(ops, bonds, nSites, L, k))
    ensures ScanInv(ops, bonds, nSites, ScanEvent(ops, bonds, nSites, L, k), k + 1)
  {
    var s, entry := EventSite(ops, bonds, k), EntryLeg(k);
    assert FirstLastAt(ops, bonds, L, s, k);
    var last := L.last[s];
    var N := Links(L.vl[last := entry][entry := last], L.first, L.last[s := entry + 2]);
    assert N == ScanEvent(ops, bonds, nSites, L, k);
    ScanLinkPaired(ops, bonds, nSites, L, k, N);
    ScanLinkForward(ops, bonds, nSites, L, k, N);
    ScanLinkEnds(ops, bonds, nSites, L, k, N);
    ScanLinkFirstLast(ops, bonds, nSites, L, k, N);
  }

  /** Linking keeps the links symmetric and per site. */
  lemma ScanLinkPaired(ops: seq<int>, bonds: seq<Bond>, nSites: nat, L: Links, k: nat, N: Links)
    requires Shape(ops, bonds, nSites, L) && k < 2 * |ops| && ops[k / 2] != Identity
    requires ScanInv(ops, bonds, nSites, L, k)
    requires L.last[EventSite(ops, bonds, k)] != Unlinked
    requires FirstLastAt(ops, bonds, L, EventSite(ops, bonds, k), k)
    requires N == Links(L.vl[L.last[EventSite(ops, bonds, k)] := EntryLeg(k)][EntryLeg(k) := L.last[EventSite(ops, bonds, k)]],
                        L.first, L.last[EventSite(ops, bonds, k) := EntryLeg(k) + 2])
    ensures Shape(ops, bonds, nSites, N)
    ensures forall x :: 0 <= x < |N.vl| && (Event(x) >= k + 1 || ops[x / 4] == Identity) ==> N.vl[x] == Unlinked
    ensures forall x :: 0 <= x < |N.vl| && N.vl[x] != Unlinked ==> PairedLeg(ops, bonds, N.vl, x)
  {
    var s, entry := EventSite(ops, bonds, k), EntryLeg(k);
    var last := L.last[s];
    assert L.vl[entry] == Unlinked;
    assert LegSite(ops, bonds, entry) == s;
    forall x | 0 <= x < |N.vl| && N.vl[x] != Unlinked
      ensures PairedLeg(ops, bonds, N.vl, x)
    {
      if x != last && x != entry {
        assert PairedLeg(ops, bonds, L.vl, x);
      }
      PairedAfterLink(ops, bonds, L.vl, last, entry, x);
    }
  }

  /**
    Linking two unlinked operator legs `a` and `b` of one site, on opposite
    sides, keeps every linked leg paired.
   */
  lemma PairedAfterLink(ops: seq<int>, bonds: seq<Bond>, vl: seq<int>, a: nat, b: nat, x: nat)
    requires ProperOps(ops, bonds) && |vl| == 4 * |ops| && a < |vl| && b < |vl| && x < |vl|
    requires vl[a] == Unlinked && vl[b] == Unlinked && ops[a / 4] != Identity && ops[b / 4] != Identity
    requires LegSite(ops, bonds, a) == LegSite(ops, bonds, b) && IsEntry(a) != IsEntry(b)
    requires x != a && x != b && vl[x] != Unlinked ==> PairedLeg(ops, bonds, vl, x)
    ensures vl[a := b][b := a][x] != Unlinked ==> PairedLeg(ops, bonds, vl[a := b][b := a], x)
  {
  }

  /** Linking keeps every exit leg linked forward, to the next event on its site. */
  lemma ScanLinkForward(ops: seq<int>, bonds: seq<Bond>, nSites: nat, L: Links, k: nat, N: Links)
    requires Shape(ops, bonds, nSites, L) && k < 2 * |ops| && ops[k / 2] != Identity
    requires ScanInv(ops, bonds, nSites, L, k)
    requires L.last[EventSite(ops, bonds, k)] != Unlinked
    requires FirstLastAt(ops, bonds, L, EventSite(ops, bonds, k), k)
    requires N == Links(L.vl[L.last[EventSite(ops, bonds, k)] := EntryLeg(k)][EntryLeg(k) := L.last[EventSite(ops, bonds, k)]],
                        L.first, L.last[EventSite(ops, bonds, k) := EntryLeg(k) + 2])
    ensures forall x :: 0 <= x < |N.vl| && N.vl[x] != Unlinked && !IsEntry(x) ==>
          Event(x) < Event(N.vl[x]) < k + 1 &&
          NoTouchBetween(ops, bonds, LegSite(ops, bonds, x), Event(x), Event(N.vl[x]))
  {
    var s, entry := EventSite(ops, bonds, k), EntryLeg(k);
    var last := L.last[s];
    forall x | 0 <= x < |N.vl| && N.vl[x] != Unlinked && !IsEntry(x)
      ensures Event(x) < Event(N.vl[x]) < k + 1
      ensures NoTouchBetween(ops, bonds, LegSite(ops, bonds, x), Event(x), Event(N.vl[x]))
    {
      if x != last {
        assert PairedLeg(ops, bonds, L.vl, x);
      }
    }
  }

  /** Linking leaves unlinked only the first and last legs of each site. */
  lemma ScanLinkEnds(ops: seq<int>, bonds: seq<Bond>, nSites: nat, L: Links, k: nat, N: Links)
    requires Shape(ops, bonds, nSites, L) && k < 2 * |ops| && ops[k / 2] != Identity
    requires ScanInv(ops, bonds, nSites, L, k)
    requires L.last[EventSite(ops, bonds, k)] != Unlinked
    requires FirstLastAt(ops, bonds, L, EventSite(ops, bonds, k), k)
    requires N == Links(L.vl[L.last[EventSite(ops, bonds, k)] := EntryLeg(k)][EntryLeg(k) := L.last[EventSite(ops, bonds, k)]],
                        L.first, L.last[EventSite(ops, bonds, k) := EntryLeg(k) + 2])
    ensures Shape(ops, bonds, nSites, N)
    ensures forall x :: 0 <= x < |N.vl| && Event(x) < k + 1 && ops[x / 4] != Identity && N.vl[x] == Unlinked ==>
          if IsEntry(x) then N.first[LegSite(ops, bonds, x)] == x else N.last[LegSite(ops, bonds, x)] == x
  {
    var s, entry := EventSite(ops, bonds, k), EntryLeg(k);
    var last := L.last[s];
    forall x | 0 <= x < |N.vl| && Event(x) < k + 1 && ops[x / 4] != Identity && N.vl[x] == Unlinked
      ensures if IsEntry(x) then N.first[LegSite(ops, bonds, x)] == x else N.last[LegSite(ops, bonds, x)] == x
    {
      if Event(x) < k {
        assert L.vl[x] == Unlinked;
      }
    }
  }

  /** After linking, every site's first and last legs are as described. */
  lemma ScanLinkFirstLast(ops: seq<int>, bonds: seq<Bond>, nSites: nat, L: Links, k: nat, N: Links)
    requires Shape(ops, bonds, nSites, L) && k < 2 * |ops| && ops[k / 2] != Identity
    requires ScanInv(ops, bonds, nSites, L, k)
    requires L.last[EventSite(ops, bonds, k)] != Unlinked
    requires FirstLastAt(ops, bonds, L, EventSite(ops, bonds, k), k)
    requires N == Links(L.vl[L.last[EventSite(ops, bonds, k)] := EntryLeg(k)][EntryLeg(k) := L.last[EventSite(ops, bonds, k)]],
                        L.first, L.last[EventSite(ops, bonds, k) := EntryLeg(k) + 2])
    ensures Shape(ops, bonds, nSites, N)
    ensures AllFirstLast(ops, bonds, nSites, N, k + 1)
  {
    var k1 := k + 1;
    assert L.vl[EntryLeg(k)] == Unlinked && L.vl[ExitLeg(k)] == Unlinked;
    forall t | 0 <= t < nSites
      ensures FirstLastAt(ops, bonds, N, t, k1)
    {
      assert FirstLastAt(ops, bonds, L, t, k);
      LinkFirstLastAt(ops, bonds, nSites, L, k, N, t);
    }
  }

  /** One site's first and last legs after linking event `k`. */
  lemma LinkFirstLastAt(ops: seq<int>, bonds: seq<Bond>, nSites: nat, L: Links, k: nat, N: Links, t: nat)
    requires Shape(ops, bonds, nSites, L) && k < 2 * |ops| && ops[k / 2] != Identity && t < nSites
    requires L.last[EventSite(ops, bonds, k)] != Unlinked
    requires FirstLastAt(ops, bonds, L, EventSite(ops, bonds, k), k)
    requires FirstLastAt(ops, bonds, L, t, k)
    requires L.vl[EntryLeg(k)] == Unlinked && L.vl[ExitLeg(k)] == Unlinked
    requires N == Links(L.vl[L.last[EventSite(ops, bonds, k)] := EntryLeg(k)][EntryLeg(k) := L.last[EventSite(ops, bonds, k)]],
                        L.first, L.last[EventSite(ops, bonds, k) := EntryLeg(k) + 2])
    ensures FirstLastAt(ops, bonds, N, t, k + 1)
  {
    var s := EventSite(ops, bonds, k);
    if t == s {
      LinkFirstLastOwn(ops, bonds, L, k, N, s, L.last[s]);
    } else {
      LinkFirstLastOther(ops, bonds, L, k, N, s, L.last[s], t);
    }
  }

  /** The linked site: its first leg stays, its last leg is the new exit leg. */
  lemma LinkFirstLastOwn(ops: seq<int>, bonds: seq<Bond>, L: Links, k: nat, N: Links, s: nat, last: nat)
    requires ProperOps(ops, bonds) && |L.vl| == 4 * |ops| && s < |L.first| == |L.last|
    requires k < 2 * |ops| && ops[k / 2] != Identity && s == EventSite(ops, bonds, k)
    requires last == L.last[s] && FirstLastAt(ops, bonds, L, s, k)
    requires L.vl[ExitLeg(k)] == Unlinked
    requires N == Links(L.vl[last := EntryLeg(k)][EntryLeg(k) := last], L.first, L.last[s := ExitLeg(k)])
    ensures FirstLastAt(ops, bonds, N, s, k + 1)
  {
    assert N.last[s] == ExitLeg(k) && N.vl[ExitLeg(k)] == Unlinked;
    assert N.first[s] == L.first[s] && N.vl[L.first[s]] == Unlinked;
  }

  /** Another site: its first and last legs stay. */
  lemma LinkFirstLastOther(ops: seq<int>, bonds: seq<Bond>, L: Links, k: nat, N: Links, s: nat, last: nat, t: nat)
    requires ProperOps(ops, bonds) && |L.vl| == 4 * |ops| && s < |L.first| == |L.last| && t < |L.first|
    requires k < 2 * |ops| && ops[k / 2] != Identity && s == EventSite(ops, bonds, k) && t != s
    requires last == L.last[s] && FirstLastAt(ops, bonds, L, s, k) && FirstLastAt(ops, bonds, L, t, k)
    requires N == Links(L.vl[last := EntryLeg(k)][EntryLeg(k) := last], L.first, L.last[s := ExitLeg(k)])
    ensures FirstLastAt(ops, bonds, N, t, k + 1)
  {
    assert !Touches(ops, bonds, k, t);
    if L.first[t] != Unlinked {
      NoTouchExtend(ops, bonds, t, Event(L.last[t]), k);
      assert N.vl[L.first[t]] == Unlinked && N.vl[L.last[t]] == Unlinked;
    } else {
      NoTouchExtend(ops, bonds, t, -1, k);
    }
  }

  /** The event's site is met for the first time: this entry leg is its first. */
  lemma ScanFirst(ops: seq<int>, bonds: seq<Bond>, nSites: nat, L: Links, k: nat)
    requires Shape(ops, bonds, nSites, L) && k < 2 * |ops| && ops[k / 2] != Identity
    requires ScanInv(ops, bonds, nSites, L, k)
    requires L.last[EventSite(ops, bonds, k)] == Unlinked
    ensures Shape(ops, bonds, nSites, ScanEvent(ops, bonds, nSites, L, k))
    ensures ScanInv(ops, bonds, nSites, ScanEvent(ops, bonds, nSites, L, k), k + 1)
  {
    var s, entry := EventSite(ops, bonds, k), EntryLeg(k);
    assert FirstLastAt(ops, bonds, L, s, k);
    var N := Links(L.vl, L.first[s := entry], L.last[s := entry + 2]);
    assert N == ScanEvent(ops, bonds, nSites, L, k);
    ScanFirstEnds(ops, bonds, nSites, L, k, N);
    ScanFirstFirstLast(ops, bonds, nSites, L, k, N);
  }

  /** Recording a first leg leaves unlinked only the first and last legs of each site. */
  lemma ScanFirstEnds(ops: seq<int>, bonds: seq<Bond>, nSites: nat, L: Links, k: nat, N: Links)
    requires Shape(ops, bonds, nSites, L) && k < 2 * |ops| && ops[k / 2] != Identity
    requires ScanInv(ops, bonds, nSites, L, k)
    requires L.last[EventSite(ops, bonds, k)] == Unlinked
    requires FirstLastAt(ops, bonds, L, EventSite(ops, bonds, k), k)
    requires N == Links(L.vl, L.first[EventSite(ops, bonds, k) := EntryLeg(k)], L.last[EventSite(ops, bonds, k) := EntryLeg(k) + 2])
    ensures forall x :: 0 <= x < |N.vl| && Event(x) < k + 1 && ops[x / 4] != Identity && N.vl[x] == Unlinked ==>
          if IsEntry(x) then N.first[LegSite(ops, bonds, x)] == x else N.last[LegSite(ops, bonds, x)] == x
  {
    var s := EventSite(ops, bonds, k);
    var k1 := k + 1;
    forall x | 0 <= x < |N.vl| && Event(x) < k1 && ops[x / 4] != Identity && N.vl[x] == Unlinked
      ensures if IsEntry(x) then N.first[LegSite(ops, bonds, x)] == x else N.last[LegSite(ops, bonds, x)] == x
    {
      if Event(x) < k {
        assert !Touches(ops, bonds, Event(x), s);
      }
    }
  }

  /** After recording a first leg, every site's first and last legs are as described. */
  lemma ScanFirstFirstLast(ops: seq<int>, bonds: seq<Bond>, nSites: nat, L: Links, k: nat, N: Links)
    requires Shape(ops, bonds, nSites, L) && k < 2 * |ops| && ops[k / 2] != Identity
    requires ScanInv(ops, bonds, nSites, L, k)
    requires L.last[EventSite(ops, bonds, k)] == Unlinked
    requires FirstLastAt(ops, bonds, L, EventSite(ops, bonds, k), k)
    requires N == Links(L.vl, L.first[EventSite(ops, bonds, k) := EntryLeg(k)], L.last[EventSite(ops, bonds, k) := EntryLeg(k) + 2])
    ensures AllFirstLast(ops, bonds, nSites, N, k + 1)
  {
    var k1 := k + 1;
    assert L.vl[EntryLeg(k)] == Unlinked && L.vl[ExitLeg(k)] == Unlinked;
    forall t | 0 <= t < nSites
      ensures FirstLastAt(ops, bonds, N, t, k1)
    {
      assert FirstLastAt(ops, bonds, L, t, k);
      FirstFirstLastAt(ops, bonds, nSites, L, k, N, t);
    }
  }

  /** One site's first and last legs after recording event `k` as a first leg. */
  lemma FirstFirstLastAt(ops: seq<int>, bonds: seq<Bond>, nSites: nat, L: Links, k: nat, N: Links, t: nat)
    requires Shape(ops, bonds, nSites, L) && k < 2 * |ops| && ops[k / 2] != Identity && t < nSites
    requires L.last[EventSite(ops, bonds, k)] == Unlinked
    requires FirstLastAt(ops, bonds, L, EventSite(ops, bonds, k), k)
    requires FirstLastAt(ops, bonds, L, t, k)
    requires L.vl[EntryLeg(k)] == Unlinked && L.vl[ExitLeg(k)] == Unlinked
    requires N == Links(L.vl, L.first[EventSite(ops, bonds, k) := EntryLeg(k)], L.last[EventSite(ops, bonds, k) := EntryLeg(k) + 2])
    ensures FirstLastAt(ops, bonds, N, t, k + 1)
  {
    var s := EventSite(ops, bonds, k);
    if t == s {
      assert N.first[t] == EntryLeg(k) && N.last[t] == ExitLeg(k);
      assert NoTouchBetween(ops, bonds, t, -1, k);
    } else {
      assert !Touches(ops, bonds, k, t);
      if L.first[t] != Unlinked {
        NoTouchExtend(ops, bonds, t, Event(L.last[t]), k);
      } else {
        NoTouchExtend(ops, bonds, t, -1, k);
      }
    }
  }

  /** A site untouched before event `k` and at `k` is untouched before `k + 1`. */
  lemma NoTouchExtend(ops: seq<int>, bonds: seq<Bond>, s: nat, lo: int, k: nat)
    requires ProperOps(ops, bonds) && k < 2 * |ops|
    requires NoTouchBetween(ops, bonds, s, lo, k) && !Touches(ops, bonds, k, s)
    ensures NoTouchBetween(ops, bonds, s, lo, k + 1)
  {
  }

  /**
    The periodic-boundary correction after site `t` of the closing loop: each
    of the sites below `t` that has legs has its last leg linked to its first;
    every other leg keeps the link the scan gave it.
   */
  ghost function Closed(ops: seq<int>, bonds: seq<Bond>, nSites: nat, L: Links, t: nat, x: nat): int
    requires Shape(ops, bonds, nSites, L) && x < |L.vl|
  {
    if ops[x / 4] == Identity || LegSite(ops, bonds, x) >= t then L.vl[x]
    else if x == L.first[LegSite(ops, bonds, x)] then L.last[LegSite(ops, bonds, x)]
    else if x == L.last[LegSite(ops, bonds, x)] then L.first[LegSite(ops, bonds, x)]
    else L.vl[x]
  }

  /** One step of the closing loop: the links of site `t` change and no other. */
  lemma CloseStep(ops: seq<int>, bonds: seq<Bond>, nSites: nat, L: Links, t: nat, vl: seq<int>)
    requires Shape(ops, bonds, nSites, L) && t < nSites
    requires AllFirstLast(ops, bonds, nSites, L, 2 * |ops|)
    requires |vl| == |L.vl|
    requires forall x :: 0 <= x < |vl| ==> vl[x] == Closed(ops, bonds, nSites, L, t, x)
    ensures L.first[t] != Unlinked ==> 0 <= L.first[t] < |vl| && 0 <= L.last[t] < |vl|
    ensures var vl' := if L.first[t] != Unlinked then vl[L.first[t] := L.last[t]][L.last[t] := L.first[t]] else vl;
      forall x :: 0 <= x < |vl'| ==> vl'[x] == Closed(ops, bonds, nSites, L, t + 1, x)
  {
    assert FirstLastAt(ops, bonds, L, t, 2 * |ops|);
    var vl' := if L.first[t] != Unlinked then vl[L.first[t] := L.last[t]][L.last[t] := L.first[t]] else vl;
    forall x | 0 <= x < |vl'|
      ensures vl'[x] == Closed(ops, bonds, nSites, L, t + 1, x)
    {
    }
  }

  /**
    Leg `y` is the entry leg of the next event on the site of exit leg `x`,
    cyclically in imaginary time: no event of that site lies between them,
    going around the end of the operator string when `y` is not later.
   */
  ghost predicate CyclicNext(ops: seq<int>, bonds: seq<Bond>, x: nat, y: nat)
    requires ProperOps(ops, bonds) && x / 4 < |ops| && ops[x / 4] != Identity && y < 4 * |ops|
  {
    var s, a, b := LegSite(ops, bonds, x), Event(x), Event(y);
    if a < b then NoTouchBetween(ops, bonds, s, a, b)
    else NoTouchBetween(ops, bonds, s, a, 2 * |ops|) && NoTouchBetween(ops, bonds, s, -1, b)
  }

  /**
    The first and last legs of site `s` once the whole string is scanned:
    none when no operator acts on `s`, otherwise the entry leg of its earliest
    event and the exit leg of its latest.
   */
  ghost predicate EndsOf(ops: seq<int>, bonds: seq<Bond>, first: seq<int>, last: seq<int>, s: nat)
    requires ProperOps(ops, bonds) && s < |first| == |last|
  {
    && (first[s] == Unlinked <==> last[s] == Unlinked)
    && (first[s] == Unlinked ==> NoTouchBetween(ops, bonds, s, -1, 2 * |ops|))
    && (first[s] != Unlinked ==>
          && 0 <= first[s] < 4 * |ops| && IsEntry(first[s])
          && ops[first[s] / 4] != Identity && LegSite(ops, bonds, first[s]) == s
          && NoTouchBetween(ops, bonds, s, -1, Event(first[s])))
    && (last[s] != Unlinked ==>
          && 0 <= last[s] < 4 * |ops| && !IsEntry(last[s])
          && ops[last[s] / 4] != Identity && LegSite(ops, bonds, last[s]) == s
          && NoTouchBetween(ops, bonds, s, Event(last[s]), 2 * |ops|))
  }

  /**
    What `make_vertex_lists` builds: every leg of an operator is linked, and
    only those; links are symmetric, join an entry leg to an exit leg of the
    same site, and go from each exit leg to the next event on its site
    (cyclically); `first` and `last` hold each site's end legs.
   */
  ghost predicate LinksBuilt(ops: seq<int>, bonds: seq<Bond>, nSites: nat, L: Links)
  {
    && Shape(ops, bonds, nSites, L)
    && (forall x :: 0 <= x < |L.vl| ==> (L.vl[x] == Unlinked <==> ops[x / 4] == Identity))
    && (forall x :: 0 <= x < |L.vl| && L.vl[x] != Unlinked ==> PairedLeg(ops, bonds, L.vl, x))
    && (forall x :: 0 <= x < |L.vl| && L.vl[x] != Unlinked && !IsEntry(x) ==> 0 <= L.vl[x] < |L.vl| && CyclicNext(ops, bonds, x, L.vl[x]))
    && (forall s :: 0 <= s < nSites ==> EndsOf(ops, bonds, L.first, L.last, s))
  }

  /** The scan followed by the closing of every site builds the links. */
  lemma Closing(ops: seq<int>, bonds: seq<Bond>, nSites: nat, L: Links, vl: seq<int>)
    requires Shape(ops, bonds, nSites, L)
    requires ScanInv(ops, bonds, nSites, L, 2 * |ops|)
    requires |vl| == |L.vl|
    requires forall x :: 0 <= x < |vl| ==> vl[x] == Closed(ops, bonds, nSites, L, nSites, x)
    ensures LinksBuilt(ops, bonds, nSites, Links(vl, L.first, L.last))
  {
    var N := Links(vl, L.first, L.last);
    forall s | 0 <= s < nSites
      ensures EndsOf(ops, bonds, L.first, L.last, s)
    {
      assert FirstLastAt(ops, bonds, L, s, 2 * |ops|);
    }
    forall x | 0 <= x < |vl|
      ensures vl[x] == Unlinked <==> ops[x / 4] == Identity
      ensures vl[x] != Unlinked ==> PairedLeg(ops, bonds, vl, x)
      ensures vl[x] != Unlinked && !IsEntry(x) ==> 0 <= vl[x] < |vl| && CyclicNext(ops, bonds, x, vl[x])
    {
      ClosedLeg(ops, bonds, nSites, L, vl, x);
    }
  }

  /** One leg of the closed links. */
  lemma ClosedLeg(ops: seq<int>, bonds: seq<Bond>, nSites: nat, L: Links, vl: seq<int>, x: nat)
    requires Shape(ops, bonds, nSites, L)
    requires ScanInv(ops, bonds, nSites, L, 2 * |ops|)
    requires |vl| == |L.vl| && x < |vl|
    requires forall x :: 0 <= x < |vl| ==> vl[x] == Closed(ops, bonds, nSites, L, nSites, x)
    ensures vl[x] == Unlinked <==> ops[x / 4] == Identity
    ensures vl[x] != Unlinked ==> PairedLeg(ops, bonds, vl, x)
    ensures vl[x] != Unlinked && !IsEntry(x) ==> 0 <= vl[x] < |vl| && CyclicNext(ops, bonds, x, vl[x])
  {
    if ops[x / 4] != Identity {
      var s := LegSite(ops, bonds, x);
      assert FirstLastAt(ops, bonds, L, s, 2 * |ops|);
      if L.vl[x] != Unlinked {
        ClosedInner(ops, bonds, nSites, L, vl, x, s);
      } else if IsEntry(x) {
        assert x == L.first[s];
        ClosedEnds(ops, bonds, nSites, L, vl, s);
      } else {
        assert x == L.last[s];
        ClosedEnds(ops, bonds, nSites, L, vl, s);
      }
    }
  }

  /** A leg the scan linked keeps its link. */
  lemma ClosedInner(ops: seq<int>, bonds: seq<Bond>, nSites: nat, L: Links, vl: seq<int>, x: nat, s: nat)
    requires Shape(ops, bonds, nSites, L)
    requires ScanInv(ops, bonds, nSites, L, 2 * |ops|)
    requires |vl| == |L.vl| && x < |vl| && ops[x / 4] != Identity && L.vl[x] != Unlinked
    requires s == LegSite(ops, bonds, x) && FirstLastAt(ops, bonds, L, s, 2 * |ops|)
    requires forall x :: 0 <= x < |vl| ==> vl[x] == Closed(ops, bonds, nSites, L, nSites, x)
    ensures vl[x] != Unlinked && PairedLeg(ops, bonds, vl, x)
    ensures !IsEntry(x) ==> 0 <= vl[x] < |vl| && CyclicNext(ops, bonds, x, vl[x])
  {
    var y := L.vl[x];
    assert PairedLeg(ops, bonds, L.vl, x);
    assert x != L.first[s] && x != L.last[s];
    assert y != L.first[s] && y != L.last[s];
    assert vl[x] == y && vl[y] == x;
  }

  /** The first and last legs of a site are linked to each other. */
  lemma ClosedEnds(ops: seq<int>, bonds: seq<Bond>, nSites: nat, L: Links, vl: seq<int>, s: nat)
    requires Shape(ops, bonds, nSites, L) && s < nSites
    requires FirstLastAt(ops, bonds, L, s, 2 * |ops|) && L.first[s] != Unlinked
    requires |vl| == |L.vl|
    requires forall x :: 0 <= x < |vl| ==> vl[x] == Closed(ops, bonds, nSites, L, nSites, x)
    ensures vl[L.first[s]] == L.last[s] && vl[L.last[s]] == L.first[s]
    ensures PairedLeg(ops, bonds, vl, L.first[s]) && PairedLeg(ops, bonds, vl, L.last[s])
    ensures CyclicNext(ops, bonds, L.last[s], L.first[s])
  {
    var x, y := L.last[s], L.first[s];
    assert vl[x] == y && vl[y] == x;
    assert Touches(ops, bonds, Event(x), s);
    assert Event(y) <= Event(x);
  }

  /** Once built, a site's first leg is a leg of the list or `-1`. */
  lemma FirstLegsInRange(ops: seq<int>, bonds: seq<Bond>, nSites: nat, L: Links)
    requires LinksBuilt(ops, bonds, nSites, L)
    ensures |L.first| == nSites
    ensures forall s :: 0 <= s < nSites && L.first[s] != Unlinked ==> 0 <= L.first[s] < |L.vl|
  {
    forall s | 0 <= s < nSites && L.first[s] != Unlinked
      ensures 0 <= L.first[s] < |L.vl|
    {
      assert EndsOf(ops, bonds, L.first, L.last, s);
    }
  }
}
