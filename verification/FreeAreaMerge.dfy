/**
  What add_free does to the free-area list (memory/memalloc.c): linking, merging on one side or both, and the cases it
  does not check.
 */
module FreeAreaMerge {

  import opened Basics
  import opened FreeAreas

  // The list afterwards is in order and covers the old free memory and the region.
  ghost predicate Grows(l: seq<Cell>, r: seq<Cell>, start: int, size: int) {
    Ordered(r) && forall x :: Covers(r, x) <==> Covers(l, x) || InRegion(x, start, size)
  }

  // A step that replaces the areas lo..hi by one area c, which covers what they covered and the region.
  lemma ReplaceByOne(l: seq<Cell>, r: seq<Cell>, lo: int, hi: int, c: Cell, tail: seq<Cell>, start: int, size: int)
    requires Ordered(l) && 0 <= lo <= hi <= |l| && Fits(l, lo, hi, [c]) && SameAreas(tail, l[hi..])
    requires r == l[..lo] + [c] + tail
    requires 0 <= c.start && 0 < c.size < W32 && End(c) <= W32
    requires forall x :: c.start <= x < End(c) <==> Covers(l[lo..hi], x) || InRegion(x, start, size)
    ensures Grows(l, r, start, size)
  {
    OneArea(c);
    SpliceOrdered(l, lo, hi, [c], tail);
    forall x ensures Covers(r, x) <==> Covers(l, x) || InRegion(x, start, size) {
      SpliceCovers(l, lo, hi, [c], tail, x);
    }
  }

  lemma CoversTwo(a: Cell, b: Cell, x: int)
    ensures Covers([a, b], x) <==> a.start <= x < End(a) || b.start <= x < End(b)
    ensures Covers([a], x) <==> a.start <= x < End(a)
    ensures !Covers([], x)
  {
    if a.start <= x < End(a) { assert [a, b][0] == a && [a][0] == a; }
    if b.start <= x < End(b) { assert [a, b][1] == b; }
  }

  // The new area lies between the neighbours of lo..hi.
  lemma FitsOne(l: seq<Cell>, lo: int, hi: int, c: Cell)
    requires Ordered(l) && 0 <= lo <= hi <= |l| && 0 <= c.start && 0 < c.size < W32 && End(c) <= W32
    requires lo > 0 ==> End(l[lo - 1]) < c.start
    requires hi < |l| ==> End(c) < l[hi].start
    ensures Fits(l, lo, hi, [c])
  {
    OneArea(c);
  }

  lemma GapToPrev(l: seq<Cell>, i: int)
    requires Ordered(l) && 0 < i < |l|
    ensures End(l[i - 1]) < l[i].start
  {
    assert Gap(l, i - 1, i);
  }

  // Linking at the end or in the middle, when a new node is made.
  lemma LinkNew(l: seq<Cell>, r: seq<Cell>, k: nat, start: int, size: int, c: Cell, tail: seq<Cell>)
    requires Ordered(l) && k <= |l| && Region(start, size)
    requires k > 0 ==> End(l[k - 1]) < start
    requires k < |l| ==> start + size < l[k].start
    requires SameAreas(tail, l[k..]) && r == l[..k] + [c] + tail && c.start == start && c.size == size
    ensures Grows(l, r, start, size)
  {
    FitsOne(l, k, k, c);
    assert l[k..k] == [];
    ReplaceByOne(l, r, k, k, c, tail, start, size);
  }

  // An area that covers only old areas and the region is smaller than the address space, so its size does not wrap.
  lemma NotWhole(l: seq<Cell>, lo: int, hi: int, c: Cell, start: int, size: int)
    requires 0 <= lo <= hi <= |l| && LeavesGap(l, start, size) && 0 <= c.start && End(c) <= W32
    requires forall x :: c.start <= x < End(c) <==> Covers(l[lo..hi], x) || InRegion(x, start, size)
    ensures c.size < W32
  {
    var x :| 0 <= x < W32 && !Covers(l, x) && !InRegion(x, start, size);
    SpliceCovers(l, lo, hi, [], l[hi..], x);
  }

  lemma OneOf(l: seq<Cell>, i: nat)
    requires i < |l|
    ensures l[i..i + 1] == [l[i]]
  {
    assert |l[i..i + 1]| == 1 && l[i..i + 1][0] == l[i];
  }

  // Extending the area at i to the right (its end meets the region) or to the left.
  lemma LinkExtend(l: seq<Cell>, r: seq<Cell>, i: nat, start: int, size: int, c: Cell)
    requires Ordered(l) && i < |l| && Region(start, size) && LeavesGap(l, start, size)
    requires c.size == (l[i].size + size) % W32
    requires (End(l[i]) == start && c.start == l[i].start) || (start + size == l[i].start && c.start == start)
    requires i > 0 ==> End(l[i - 1]) < c.start
    requires i + 1 < |l| ==> c.start + l[i].size + size < l[i + 1].start
    requires r == l[i := c]
    ensures Grows(l, r, start, size)
  {
    assert AreaOk(l, i);
    var full := c.(size := l[i].size + size);
    OneOf(l, i);
    forall x ensures full.start <= x < End(full) <==> Covers(l[i..i + 1], x) || InRegion(x, start, size) {
      CoversTwo(l[i], full, x);
    }
    NotWhole(l, i, i + 1, full, start, size);
    assert c == full;
    FitsOne(l, i, i + 1, c);
    assert r == l[..i] + [c] + l[i + 1..];
    ReplaceByOne(l, r, i, i + 1, c, l[i + 1..], start, size);
  }

  // Merging the areas around the region.
  lemma LinkMerge(l: seq<Cell>, r: seq<Cell>, k: nat, start: int, size: int, c: Cell, tail: seq<Cell>)
    requires Ordered(l) && 0 < k < |l| && Region(start, size) && LeavesGap(l, start, size)
    requires End(l[k - 1]) == start && start + size == l[k].start
    requires c == l[k - 1].(size := (l[k - 1].size + (size + l[k].size)) % W32)
    requires SameAreas(tail, l[k + 1..]) && r == l[..k - 1] + [c] + tail
    ensures Grows(l, r, start, size)
  {
    assert AreaOk(l, k) && AreaOk(l, k - 1);
    if k - 1 > 0 { GapToPrev(l, k - 1); }
    if k + 1 < |l| { GapToPrev(l, k + 1); }
    var full := c.(size := l[k - 1].size + (size + l[k].size));
    assert l[k - 1..k + 1] == [l[k - 1], l[k]];
    forall x ensures full.start <= x < End(full) <==> Covers(l[k - 1..k + 1], x) || InRegion(x, start, size) {
      CoversTwo(l[k - 1], l[k], x);
    }
    NotWhole(l, k - 1, k + 1, full, start, size);
    assert c == full;
    FitsOne(l, k - 1, k + 1, c);
    ReplaceByOne(l, r, k - 1, k + 1, c, tail, start, size);
  }

  // The region fits at position k of the list.
  ghost predicate FitsAt(l: seq<Cell>, k: nat, start: int, size: int) {
    && Ordered(l) && l != [] && k <= |l| && Region(start, size) && LeavesGap(l, start, size)
    && (k > 0 ==> End(l[k - 1]) <= start && End(l[k - 1]) < W32)
    && (k < |l| ==> start + size <= l[k].start && start + size < W32)
  }

  lemma LinkTwoSided(l: seq<Cell>, k: nat, start: int, size: int, node: int)
    requires node != NULL && FitsAt(l, k, start, size) && 0 < k < |l| && End(l[k - 1]) == start
      && start + size == l[k].start
    ensures var (r, err) := Link(l, k, start, size, node); err == NoErr && Grows(l, r, start, size)
  {
    assert AreaOk(l, k - 1) && AreaOk(l, k);
    LinkMerge(l, Link(l, k, start, size, node).0, k, start, size,
      l[k - 1].(size := (l[k - 1].size + (size + l[k].size)) % W32), l[k + 1..]);
  }

  lemma LinkToPrev(l: seq<Cell>, k: nat, start: int, size: int, node: int)
    requires node != NULL && FitsAt(l, k, start, size) && k > 0 && End(l[k - 1]) == start
      && (k < |l| ==> start + size < l[k].start)
    ensures var (r, err) := Link(l, k, start, size, node); err == NoErr && Grows(l, r, start, size)
  {
    assert AreaOk(l, k - 1);
    if k - 1 > 0 { GapToPrev(l, k - 1); }
    LinkExtend(l, Link(l, k, start, size, node).0, k - 1, start, size, l[k - 1].(size := (l[k - 1].size + size) % W32));
  }

  lemma LinkToNext(l: seq<Cell>, k: nat, start: int, size: int, node: int)
    requires node != NULL && FitsAt(l, k, start, size) && k < |l| && start + size == l[k].start
      && (k > 0 ==> End(l[k - 1]) < start)
    ensures var (r, err) := Link(l, k, start, size, node); err == NoErr && Grows(l, r, start, size)
  {
    if k > 0 { assert AreaOk(l, k - 1); }
    if k + 1 < |l| { GapToPrev(l, k + 1); }
    LinkExtend(l, Link(l, k, start, size, node).0, k, start, size,
      l[k].(start := start, size := (l[k].size + size) % W32));
  }

  // The list when the region is linked by a node of its own.
  function LinkedAlone(l: seq<Cell>, k: nat, start: int, size: int, node: int): seq<Cell>
    requires k <= |l|
  {
    l[..k] + [Cell(start, size, node, if k > 0 then l[k - 1].node else NULL)]
      + (if k == |l| then [] else [l[k].(prev := node)] + l[k + 1..])
  }

  lemma LinkAloneIs(l: seq<Cell>, k: nat, start: int, size: int, node: int)
    requires l != [] && k <= |l| && node != NULL
    requires (k > 0 ==> End(l[k - 1]) % W32 != start) && (k < |l| ==> (start + size) % W32 != l[k].start)
    ensures Link(l, k, start, size, node) == (LinkedAlone(l, k, start, size, node), NoErr)
  {
    var c := Cell(start, size, node, if k > 0 then l[k - 1].node else NULL);
    if k == |l| {
      assert LinkedAlone(l, k, start, size, node) == l + [c];
    } else {
      assert LinkedAlone(l, k, start, size, node) == Inserted(l, k, c);
    }
  }

  lemma LinkAlone(l: seq<Cell>, k: nat, start: int, size: int, node: int)
    requires node != NULL && FitsAt(l, k, start, size) && (k > 0 ==> End(l[k - 1]) < start)
      && (k < |l| ==> start + size < l[k].start)
    ensures var (r, err) := Link(l, k, start, size, node); err == NoErr && Grows(l, r, start, size)
  {
    if k > 0 { assert AreaOk(l, k - 1); }
    var c := Cell(start, size, node, if k > 0 then l[k - 1].node else NULL);
    var tail := if k == |l| then [] else [l[k].(prev := node)] + l[k + 1..];
    LinkAloneIs(l, k, start, size, node);
    LinkNew(l, LinkedAlone(l, k, start, size, node), k, start, size, c, tail);
  }

  lemma LinkGrows(l: seq<Cell>, k: nat, start: int, size: int, node: int)
    requires node != NULL && FitsAt(l, k, start, size)
    ensures var (r, err) := Link(l, k, start, size, node); err == NoErr && Grows(l, r, start, size)
  {
    if k > 0 && End(l[k - 1]) == start {
      if k < |l| && start + size == l[k].start { LinkTwoSided(l, k, start, size, node); }
      else { LinkToPrev(l, k, start, size, node); }
    } else if k < |l| && start + size == l[k].start {
      LinkToNext(l, k, start, size, node);
    } else {
      LinkAlone(l, k, start, size, node);
    }
  }

  // ----- The nodes -----

  lemma InsertedWired(l: seq<Cell>, k: nat, c: Cell)
    requires Wired(l) && k < |l| && c.node != NULL && Unused(l, c.node) && (c.prev == NULL <==> k == 0)
    ensures Wired(Inserted(l, k, c))
  {
    var r := Inserted(l, k, c);
    forall i | 0 <= i < |r| ensures NodeOk(r, i) {
      if i != k { assert NodeOk(l, if i < k then i else i - 1); }
    }
    forall i, j | 0 <= i < j < |r| ensures TwoNodes(r, i, j) {
      if i != k && j != k { assert TwoNodes(l, if i < k then i else i - 1, if j < k then j else j - 1); }
    }
  }

  lemma AppendedWired(l: seq<Cell>, c: Cell)
    requires Wired(l) && l != [] && c.node != NULL && Unused(l, c.node) && c.prev != NULL
    ensures Wired(l + [c])
  {
    var r := l + [c];
    forall i | 0 <= i < |r| ensures NodeOk(r, i) { if i < |l| { assert NodeOk(l, i); } }
    forall i, j | 0 <= i < j < |r| ensures TwoNodes(r, i, j) { if j < |l| { assert TwoNodes(l, i, j); } }
  }

  lemma ResizedWired(l: seq<Cell>, k: nat, c: Cell)
    requires Wired(l) && k < |l| && c.node == l[k].node && c.prev == l[k].prev
    ensures Wired(l[k := c])
  {
    var r := l[k := c];
    forall i | 0 <= i < |r| ensures NodeOk(r, i) { assert NodeOk(l, i); }
    forall i, j | 0 <= i < j < |r| ensures TwoNodes(r, i, j) { assert TwoNodes(l, i, j); }
  }

  lemma AbsorbedWired(l: seq<Cell>, k: nat, size: int)
    requires Wired(l) && 0 < k < |l|
    ensures Wired(Absorbed(l, k, size))
  {
    var r := Absorbed(l, k, size);
    forall i | 0 <= i < |r| ensures NodeOk(r, i) { assert NodeOk(l, if i < k then i else i + 1); }
    forall i, j | 0 <= i < j < |r| ensures TwoNodes(r, i, j) {
      assert TwoNodes(l, if i < k then i else i + 1, if j < k then j else j + 1);
    }
  }

  // Whatever region is linked or merged, and whichever unused address kmalloc delivers.
  lemma LinkWired(l: seq<Cell>, k: nat, start: int, size: int, node: int)
    requires Wired(l) && l != [] && k <= |l| && Unused(l, node)
    ensures Wired(Link(l, k, start, size, node).0)
  {
    if k > 0 {
      assert NodeOk(l, k - 1);
      ResizedWired(l, k - 1, l[k - 1].(size := (l[k - 1].size + size) % W32));
      if k == |l| && node != NULL { AppendedWired(l, Cell(start, size, node, l[k - 1].node)); }
      if k < |l| { AbsorbedWired(l, k, size); }
    }
    if k < |l| {
      ResizedWired(l, k, l[k].(start := start, size := (l[k].size + size) % W32));
      if node != NULL { InsertedWired(l, k, Cell(start, size, node, if k > 0 then l[k - 1].node else NULL)); }
    }
  }

  lemma AddFreeWired(l: seq<Cell>, start: int, size: int, node: int)
    requires Wired(l) && Unused(l, node)
    ensures Wired(AddFree(l, start, size, node).0)
  {
    if l != [] { LinkWired(l, Place(l, start), start, size, node); }
  }

  // ----- The list after add_free -----

  /** Freeing a non-empty region outside the free memory succeeds, and the list stays the sorted, maximally merged
      decomposition of the free addresses. */
  lemma AddFreeCanonical(l: seq<Cell>, start: int, size: int, node: int)
    requires Canonical(l) && Region(start, size) && Disjoint(l, start, size) && LeavesGap(l, start, size)
    requires node != NULL && Unused(l, node)
    ensures var (r, err) := AddFree(l, start, size, node);
      err == NoErr && Canonical(r) && Grows(l, r, start, size)
  {
    AddFreeWired(l, start, size, node);
    if l == [] {
      OneArea(Cell(start, size, node, NULL));
    } else {
      var k := Place(l, start);
      AtPlace(l, start, size, k);
      LinkGrows(l, k, start, size, node);
    }
  }

  // The addresses right before and right after an area are not free.
  lemma AroundArea(l: seq<Cell>, i: nat)
    requires Ordered(l) && i < |l|
    ensures !Covers(l, l[i].start - 1) && !Covers(l, End(l[i]))
  {
    forall j | 0 <= j < |l|
      ensures !(l[j].start <= l[i].start - 1 < End(l[j])) && !(l[j].start <= End(l[i]) < End(l[j])) {
      assert AreaOk(l, i);
      assert j < i ==> Gap(l, j, i);
      assert i < j ==> Gap(l, i, j);
    }
  }

  // The same for a region that starts or ends the list.
  lemma AroundRegion(l: seq<Cell>, start: int, size: int)
    requires Ordered(l) && Region(start, size) && Disjoint(l, start, size)
    ensures Place(l, start) == 0 ==> !Covers(l, start - 1)
    ensures Place(l, start) == |l| ==> !Covers(l, start + size)
  {
    forall j | 0 <= j < |l| && Place(l, start) == 0 ensures l[j].start > start {
      assert j > 0 ==> Gap(l, 0, j);
      assert AreaOk(l, 0);
    }
    forall j | 0 <= j < |l| && Place(l, start) == |l| ensures End(l[j]) <= start {
      assert Beside(l, j, start, size) && AreaOk(l, j);
    }
  }

  // A region that fills the last gap reaches from its neighbour, or address 0, to its neighbour, or the top.
  lemma LastGap(l: seq<Cell>, start: int, size: int, k: nat)
    requires Ordered(l) && Region(start, size) && Disjoint(l, start, size) && !LeavesGap(l, start, size)
      && k == Place(l, start)
    ensures if k > 0 then l[k - 1].start == 0 && End(l[k - 1]) == start else start == 0
    ensures if k < |l| then start + size == l[k].start && End(l[k]) == W32 else start + size == W32
  {
    AtPlace(l, start, size, k);
    AroundRegion(l, start, size);
    if k > 0 { AroundArea(l, k - 1); assert AreaOk(l, k - 1); }
    if k < |l| { AroundArea(l, k); assert AreaOk(l, k); }
    assert forall x :: 0 <= x < W32 ==> Covers(l, x) || InRegion(x, start, size);
  }

  lemma WrappedLink(l: seq<Cell>, start: int, size: int, k: nat, node: int)
    requires l != [] && k <= |l| && Region(start, size)
    requires if k > 0 then l[k - 1].start == 0 && End(l[k - 1]) == start && start < W32 else start == 0
    requires if k < |l| then start + size == l[k].start && End(l[k]) == W32 && start + size < W32
      else start + size == W32
    ensures !Canonical(Link(l, k, start, size, node).0)
  {
    var r := Link(l, k, start, size, node).0;
    var i := if k == 0 then 0 else k - 1;
    if 0 < k < |l| {
      assert r[i] == l[k - 1].(size := (l[k - 1].size + (size + l[k].size)) % W32);
      assert l[k - 1].size + (size + l[k].size) == W32;
    }
    assert r[i].size == 0;
    assert !AreaOk(r, i);
  }

  /** The list stays canonical exactly when some address stays in use: the 32-bit size of an area that covers the
      whole address space would be zero. */
  lemma AddFreeCanonicalIff(l: seq<Cell>, start: int, size: int, node: int)
    requires Canonical(l) && Region(start, size) && Disjoint(l, start, size) && node != NULL && Unused(l, node)
    ensures Canonical(AddFree(l, start, size, node).0) <==> LeavesGap(l, start, size)
  {
    if LeavesGap(l, start, size) {
      AddFreeCanonical(l, start, size, node);
    } else {
      var k := Place(l, start);
      LastGap(l, start, size, k);
      AtPlace(l, start, size, k);
      WrappedLink(l, start, size, k, node);
    }
  }

  // What the two checks find: an area before the place that reaches into the region, or one behind it that the region
  // reaches into, unless the 32-bit sum is zero because the area or the region ends at the top of memory.
  predicate Noticed(l: seq<Cell>, start: int, size: int) {
    var k := Place(l, start);
    k > 0 && (start < End(l[k - 1]) < W32 || (k < |l| && l[k].start < start + size < W32))
  }

  // An overlap is one with a neighbour of the place.
  lemma OverlapsNeighbour(l: seq<Cell>, start: int, size: int, k: nat)
    requires Ordered(l) && Region(start, size) && !Disjoint(l, start, size) && k == Place(l, start)
    ensures (k > 0 && End(l[k - 1]) > start) || (k < |l| && start + size > l[k].start)
  {
    var i :| 0 <= i < |l| && !Beside(l, i, start, size);
    assert AreaOk(l, i);
    if i < k {
      assert i < k - 1 ==> Gap(l, i, k - 1);
    } else if i > k {
      assert Gap(l, k, i) && AreaOk(l, k);
    }
  }

  lemma NoticedIsRefused(l: seq<Cell>, start: int, size: int, k: nat)
    requires Ordered(l) && Region(start, size) && k == Place(l, start)
    ensures Overlaps(l, k, start, size) <==> Noticed(l, start, size)
  {
    if k > 0 { assert AreaOk(l, k - 1); }
    if k < |l| { assert AreaOk(l, k); }
  }

  // An overlap that is not noticed is linked or merged, and the areas are out of order.
  lemma UnnoticedAlone(l: seq<Cell>, start: int, size: int, node: int, k: nat)
    requires l != [] && k <= |l| && node != NULL
    requires (k > 0 ==> End(l[k - 1]) % W32 != start) && (k < |l| ==> (start + size) % W32 != l[k].start)
    requires (k > 0 && End(l[k - 1]) > start) || (k < |l| && start + size > l[k].start)
    ensures Link(l, k, start, size, node).1 == NoErr && !Ordered(Link(l, k, start, size, node).0)
  {
    LinkAloneIs(l, k, start, size, node);
    var r := LinkedAlone(l, k, start, size, node);
    if k > 0 && End(l[k - 1]) > start {
      assert !Gap(r, k - 1, k);
    } else {
      assert !Gap(r, k, k + 1);
    }
  }

  lemma UnnoticedMerged(l: seq<Cell>, start: int, size: int, node: int, k: nat)
    requires Ordered(l) && 0 < k < |l| && Region(start, size) && start + size == W32
      && End(l[k - 1]) == start < l[k].start
    ensures Link(l, k, start, size, node).1 == NoErr && !Ordered(Link(l, k, start, size, node).0)
  {
    assert AreaOk(l, k - 1) && AreaOk(l, k);
    var r := Link(l, k, start, size, node).0;
    assert r == l[k - 1 := l[k - 1].(size := (l[k - 1].size + size) % W32)];
    if l[k - 1].size + size < W32 { assert !Gap(r, k - 1, k); } else { assert !AreaOk(r, k - 1); }
  }

  lemma UnnoticedBreaksOrder(l: seq<Cell>, start: int, size: int, node: int, k: nat)
    requires Ordered(l) && l != [] && Region(start, size) && k == Place(l, start) && node != NULL
      && !Noticed(l, start, size)
    requires (k > 0 && End(l[k - 1]) > start) || (k < |l| && start + size > l[k].start)
    ensures Link(l, k, start, size, node).1 == NoErr && !Ordered(Link(l, k, start, size, node).0)
  {
    if k > 0 { assert AreaOk(l, k - 1); }
    if k < |l| { assert AreaOk(l, k); }
    if 0 < k < |l| && End(l[k - 1]) == start {
      UnnoticedMerged(l, start, size, node, k);
    } else {
      if 0 < k < |l| { assert Gap(l, k - 1, k); }
      UnnoticedAlone(l, start, size, node, k);
    }
  }

  /** An overlapping region is refused, and the list stays canonical, exactly when the overlap is noticed: behind the
      first area, and not with a 32-bit sum that wraps to zero at the top of memory. */
  lemma OverlapRefusedIff(l: seq<Cell>, start: int, size: int, node: int)
    requires Canonical(l) && Region(start, size) && !Disjoint(l, start, size) && node != NULL
    ensures AddFree(l, start, size, node).1 == UnauthorizedAction <==> Noticed(l, start, size)
    ensures Canonical(AddFree(l, start, size, node).0) <==> Noticed(l, start, size)
  {
    var k := Place(l, start);
    OverlapsNeighbour(l, start, size, k);
    NoticedIsRefused(l, start, size, k);
    if !Noticed(l, start, size) {
      UnnoticedBreaksOrder(l, start, size, node, k);
    }
  }

  /** Both ways in which the check fails are met: in front of the first area, and at the top of memory. */
  lemma OverlapAccepted(a: int, b: int, node: int)
    requires a != NULL && b != NULL && node != NULL && a != b && node != a && node != b
    ensures var l := [Cell(0x1000, 0x1000, a, NULL), Cell(W32 - 0x2000, 0x2000, b, a)];
      && Canonical(l)
      && !Disjoint(l, 0, 0x1800) && AddFree(l, 0, 0x1800, node).1 == NoErr && !Canonical(AddFree(l, 0, 0x1800, node).0)
      && !Disjoint(l, W32 - 0x1000, 0x1000) && AddFree(l, W32 - 0x1000, 0x1000, node).1 == NoErr
      && !Canonical(AddFree(l, W32 - 0x1000, 0x1000, node).0)
  {
    var l := [Cell(0x1000, 0x1000, a, NULL), Cell(W32 - 0x2000, 0x2000, b, a)];
    assert !Beside(l, 0, 0, 0x1800) && !Beside(l, 1, W32 - 0x1000, 0x1000);
    PlaceIs(l, 0, 0);
    PlaceIs(l, W32 - 0x1000, 2);
    UnnoticedBreaksOrder(l, 0, 0x1800, node, 0);
    UnnoticedBreaksOrder(l, W32 - 0x1000, 0x1000, node, 2);
  }

  // The region meets the edge of a free area.
  ghost predicate Touches(l: seq<Cell>, start: int, size: int) {
    exists i :: 0 <= i < |l| && (End(l[i]) == start || start + size == l[i].start)
  }

  // A touched area is a neighbour of the region's place.
  lemma TouchedAt(l: seq<Cell>, start: int, size: int, k: nat)
    requires Ordered(l) && Region(start, size) && Disjoint(l, start, size) && k == Place(l, start)
    ensures k > 0 ==> 0 <= End(l[k - 1]) <= start
    ensures Touches(l, start, size) <==> (k > 0 && End(l[k - 1]) == start) || (k < |l| && start + size == l[k].start)
  {
    AtPlace(l, start, size, k);
    if k > 0 { assert AreaOk(l, k - 1); }
    if k < |l| { assert AreaOk(l, k); }
    if i :| 0 <= i < |l| && (End(l[i]) == start || start + size == l[i].start) {
      assert AreaOk(l, i);
      assert i < k - 1 ==> Gap(l, i, k - 1);
      assert i > k ==> Gap(l, k, i);
    }
  }

  lemma LinkWithoutMemory(l: seq<Cell>, start: int, size: int, k: nat, node: int)
    requires l != [] && k <= |l| && 0 <= start && 0 < size
    requires (k > 0 ==> 0 <= End(l[k - 1]) < W32) && (k < |l| ==> start + size < W32)
    ensures Link(l, k, start, size, NULL) ==
      if (k > 0 && End(l[k - 1]) == start) || (k < |l| && start + size == l[k].start) then Link(l, k, start, size, node)
      else (l, MallocFailed)
  {
    if k > 0 { assert End(l[k - 1]) % W32 == End(l[k - 1]); }
    if k < |l| { assert (start + size) % W32 == start + size; }
  }

  /** Without memory for a node, freeing a region still works exactly when the region touches a free area, and then no
      node is used; otherwise nothing changes, and with an empty list the code writes through a null pointer. */
  lemma AddFreeWithoutMemory(l: seq<Cell>, start: int, size: int, node: int)
    requires Canonical(l) && Region(start, size) && Disjoint(l, start, size)
    ensures AddFree(l, start, size, NULL) ==
      if Touches(l, start, size) then AddFree(l, start, size, node)
      else (l, if l == [] then NullFault else MallocFailed)
  {
    if l != [] {
      var k := Place(l, start);
      AtPlace(l, start, size, k);
      TouchedAt(l, start, size, k);
      LinkWithoutMemory(l, start, size, k, node);
    }
  }

  // ----- The nodes -----

  predicate SameNode(c: Cell, d: Cell) {
    c.node == d.node && c.prev == d.prev
  }

  // Which areas a region borders on.
  lemma BorderAt(l: seq<Cell>, start: int, size: int, k: nat)
    requires Ordered(l) && Region(start, size) && Disjoint(l, start, size) && k == Place(l, start)
    ensures Covers(l, start - 1) <==> k > 0 && End(l[k - 1]) == start
    ensures Covers(l, start + size) <==> k < |l| && l[k].start == start + size
  {
    AtPlace(l, start, size, k);
    if k > 0 { assert AreaOk(l, k - 1); }
    if k < |l| { assert AreaOk(l, k); }
    forall i | 0 <= i < |l| ensures l[i].start <= start - 1 < End(l[i]) ==> i == k - 1 {
      assert AreaOk(l, i);
      assert i < k - 1 ==> Gap(l, i, k - 1);
      assert i > k ==> Gap(l, k, i);
    }
    forall i | 0 <= i < |l| ensures l[i].start <= start + size < End(l[i]) ==> i == k {
      assert AreaOk(l, i) && Beside(l, i, start, size);
      assert i < k - 1 ==> Gap(l, i, k - 1);
      assert i > k ==> Gap(l, k, i);
    }
  }

  lemma LinkNodes(l: seq<Cell>, start: int, size: int, node: int, k: nat)
    requires l != [] && k <= |l| && node != NULL && 0 <= start && 0 < size
    requires (k > 0 ==> 0 <= End(l[k - 1]) < W32) && (k < |l| ==> start + size < W32)
    ensures var r := Link(l, k, start, size, node).0;
      var below, above := k > 0 && End(l[k - 1]) == start, k < |l| && l[k].start == start + size;
      && |r| == |l| + (if below && above then -1 else if below || above then 0 else 1)
      && (below != above ==> forall i :: 0 <= i < |l| ==> SameNode(l[i], r[i]))
      && (!below && !above ==> r == LinkedAlone(l, k, start, size, node))
      && (below && above ==>
            (forall i :: 0 <= i < k ==> SameNode(l[i], r[i])) && forall i :: k < i < |l| ==> SameNode(l[i], r[i - 1]))
  {
    if k > 0 { assert End(l[k - 1]) % W32 == End(l[k - 1]); }
    if k < |l| { assert (start + size) % W32 == start + size; }
    if !(k > 0 && End(l[k - 1]) == start) && !(k < |l| && l[k].start == start + size) {
      LinkAloneIs(l, k, start, size, node);
    }
  }

  lemma LinkedAloneNodes(l: seq<Cell>, k: nat, start: int, size: int, node: int)
    requires k <= |l|
    ensures var r := LinkedAlone(l, k, start, size, node);
      && |r| == |l| + 1 && SameNode(r[k], Cell(start, size, node, if k > 0 then l[k - 1].node else NULL))
      && (forall i :: 0 <= i < k ==> SameNode(l[i], r[i]))
      && forall i :: k <= i < |l| ==> SameNode(if i == k then l[i].(prev := node) else l[i], r[i + 1])
  {
  }

  /** The nodes and their prev links after add_free. A region that touches one area leaves them all as they are. One
      that touches none gets the new node, and its prev link and that of the node behind it are set. One that touches
      two areas frees the node of the upper one and leaves every other link as it is, the one that names the freed node
      included. */
  lemma AddFreeLinks(l: seq<Cell>, start: int, size: int, node: int)
    requires Canonical(l) && Region(start, size) && Disjoint(l, start, size) && node != NULL && Unused(l, node)
    ensures var r, k := AddFree(l, start, size, node).0, Place(l, start);
      var below, above := Covers(l, start - 1), Covers(l, start + size);
      && |r| == |l| + (if below && above then -1 else if below || above then 0 else 1)
      && (below != above ==> forall i :: 0 <= i < |l| ==> SameNode(l[i], r[i]))
      && (!below && !above ==>
            && SameNode(r[k], Cell(start, size, node, if k > 0 then l[k - 1].node else NULL))
            && (forall i :: 0 <= i < k ==> SameNode(l[i], r[i]))
            && forall i :: k <= i < |l| ==> SameNode(if i == k then l[i].(prev := node) else l[i], r[i + 1]))
      && (below && above ==>
            && 0 < k < |l| && (forall i :: 0 <= i < k ==> SameNode(l[i], r[i]))
            && forall i :: k < i < |l| ==> SameNode(l[i], r[i - 1]))
  {
    var k := Place(l, start);
    BorderAt(l, start, size, k);
    if l != [] {
      AtPlace(l, start, size, k);
      if k > 0 { assert AreaOk(l, k - 1); }
      LinkNodes(l, start, size, node, k);
    }
    LinkedAloneNodes(l, k, start, size, node);
  }
}
