/**
  What get_block does to the free-area list (memory/memalloc.c), and why the list depends only on the free addresses.
 */
module FreeAreaFit {

  import opened Basics
  import opened FreeAreas
  import opened FreeAreaMerge

  lemma TailOrdered(l: seq<Cell>, k: nat)
    requires Ordered(l) && k <= |l|
    ensures Ordered(l[k..]) && SameAreas(l[k..], l[k..])
  {
    var t := l[k..];
    forall i | 0 <= i < |t| ensures AreaOk(t, i) { assert AreaOk(l, i + k); }
    forall i, j | 0 <= i < j < |t| ensures Gap(t, i, j) { assert Gap(l, i + k, j + k); }
  }

  // Only the area at k covers its addresses.
  lemma OnlyArea(l: seq<Cell>, k: nat, x: int)
    requires Ordered(l) && k < |l|
    ensures l[k].start <= x < End(l[k]) ==> !Covers(l[..k], x) && !Covers(l[k + 1..], x)
  {
    if i :| 0 <= i < k && l[..k][i].start <= x < End(l[..k][i]) { assert Gap(l, i, k); }
    var t := l[k + 1..];
    if i :| 0 <= i < |t| && t[i].start <= x < End(t[i]) { assert Gap(l, k, k + 1 + i); }
  }

  // Replacing the area at k by what is left of it behind the block, which may be nothing.
  lemma ReplaceByRest(l: seq<Cell>, r: seq<Cell>, k: nat, need: int, mid: seq<Cell>, tail: seq<Cell>)
    requires Ordered(l) && k < |l| && 0 < need <= l[k].size && SameAreas(tail, l[k + 1..]) && r == l[..k] + mid + tail
    requires if l[k].size == need then mid == []
      else mid == [l[k].(start := l[k].start + need, size := l[k].size - need)]
    ensures Ordered(r) && forall x :: Covers(r, x) <==> Covers(l, x) && !InRegion(x, l[k].start, need)
  {
    assert AreaOk(l, k);
    var rest := l[k].(start := l[k].start + need, size := l[k].size - need);
    if mid != [] {
      if k > 0 { GapToPrev(l, k); }
      if k + 1 < |l| { GapToPrev(l, k + 1); }
      FitsOne(l, k, k + 1, rest);
    }
    SpliceOrdered(l, k, k + 1, mid, tail);
    assert l[k..k + 1] == [l[k]];
    forall x ensures Covers(r, x) <==> Covers(l, x) && !InRegion(x, l[k].start, need) {
      SpliceCovers(l, k, k + 1, mid, tail, x);
      CoversTwo(l[k], rest, x);
      CoversTwo(rest, rest, x);
      OnlyArea(l, k, x);
    }
  }

  // ----- The nodes -----

  // Each node has one position.
  lemma PositionIs(l: seq<Cell>, j: nat)
    requires Wired(l) && j < |l|
    ensures Position(l, l[j].node) == j
  {
    var i := Position(l, l[j].node);
    assert i < j ==> TwoNodes(l, i, j);
    assert j < i ==> TwoNodes(l, j, i);
  }

  lemma BehindSame(l: seq<Cell>, k: nat)
    requires k < |l|
    ensures |Behind(l, k)| == |l| - k - 1 && SameAreas(Behind(l, k), l[k + 1..])
    ensures forall i :: 0 <= i < |l| - k - 1 ==> Behind(l, k)[i].node == l[k + 1 + i].node
    ensures forall i :: 0 < i < |l| - k - 1 ==> Behind(l, k)[i] == l[k + 1 + i]
    ensures k + 1 < |l| ==> Behind(l, k)[0].prev == l[k].prev
  {
    var tail := l[k + 1..];
    if tail != [] {
      var first := tail[0].(prev := l[k].prev);
      forall i | 0 <= i < |tail| ensures Behind(l, k)[i] == if i == 0 then first else l[k + 1 + i] {}
    }
  }

  // Removing a node whose prev link is right.
  lemma CutLinked(l: seq<Cell>, k: nat)
    requires Wired(l) && k < |l| && Linked(l, k)
    ensures Cut(l, k) == Some(l[..k] + Behind(l, k))
  {
    if k > 0 {
      assert NodeOk(l, k - 1);
      PositionIs(l, k - 1);
      var j := k - 1;
      assert l[k].prev == l[j].node && Position(l, l[k].prev) == j && l[..j + 1] == l[..k];
    } else {
      assert l[..0] + Behind(l, 0) == Behind(l, 0);
    }
  }

  // The cell at i after the one at k has been cut out.
  lemma CutCell(l: seq<Cell>, k: nat, i: nat)
    requires Wired(l) && k < |l| && Linked(l, k) && i < |l| - 1
    ensures |l[..k] + Behind(l, k)| == |l| - 1
    ensures var r, o := l[..k] + Behind(l, k), if i < k then i else i + 1;
      r[i].node == l[o].node && NodeOk(r, i)
  {
    BehindSame(l, k);
    var o := if i < k then i else i + 1;
    assert NodeOk(l, o) && NodeOk(l, k);
    if k > 0 { assert NodeOk(l, k - 1); }
  }

  lemma BehindWired(l: seq<Cell>, k: nat)
    requires Wired(l) && k < |l| && Linked(l, k)
    ensures Wired(l[..k] + Behind(l, k))
  {
    var r := l[..k] + Behind(l, k);
    BehindSame(l, k);
    forall i | 0 <= i < |r| ensures NodeOk(r, i) { CutCell(l, k, i); }
    forall i, j | 0 <= i < j < |r| ensures TwoNodes(r, i, j) {
      CutCell(l, k, i);
      CutCell(l, k, j);
      assert TwoNodes(l, if i < k then i else i + 1, if j < k then j else j + 1);
    }
  }

  // Without the areas from j + 1 to k.
  lemma AreasLost(l: seq<Cell>, j: nat, k: nat, tail: seq<Cell>, x: int)
    requires Ordered(l) && j < k < |l| && SameAreas(tail, l[k + 1..])
    ensures Covers(l[..j + 1] + tail, x) <==> Covers(l, x) && !(l[j + 1].start <= x < End(l[k]))
  {
    SpliceCovers(l, j + 1, k + 1, [], tail, x);
    assert l[..j + 1] + [] + tail == l[..j + 1] + tail;
    assert AreaOk(l, j + 1) && AreaOk(l, k);
    var a, b, c := l[..j + 1], l[j + 1..k + 1], l[k + 1..];
    if i :| 0 <= i < |a| && a[i].start <= x < End(a[i]) { assert Gap(l, i, j + 1); }
    if i :| 0 <= i < |c| && c[i].start <= x < End(c[i]) { assert Gap(l, k, k + 1 + i); }
    if i :| 0 <= i < |b| && b[i].start <= x < End(b[i]) {
      assert i > 0 ==> Gap(l, j + 1, j + 1 + i);
      assert j + 1 + i < k ==> Gap(l, j + 1 + i, k);
      assert AreaOk(l, j + 1 + i);
    }
  }

  // ----- The list after get_block -----

  // An exact fit on a node whose prev link does not name the node in front of it.
  predicate Corrupts(l: seq<Cell>, need: int) {
    var k := FirstFit(l, need);
    k >= 0 && l[k].size == need && !Linked(l, k)
  }

  // The list is canonical and lacks exactly the block.
  ghost predicate Shrinks(l: seq<Cell>, r: Option<seq<Cell>>, start: int, need: int) {
    r.Some? && Canonical(r.value) && forall x :: Covers(r.value, x) <==> Covers(l, x) && !InRegion(x, start, need)
  }

  // The area at k with its front taken off; nothing is left of it in an exact fit.
  function Trimmed(l: seq<Cell>, k: nat, need: int): seq<Cell>
    requires k < |l|
  {
    l[k := l[k].(start := (l[k].start + need) % W32, size := l[k].size - need)]
  }

  lemma TrimmedWired(l: seq<Cell>, k: nat, need: int)
    requires Wired(l) && k < |l|
    ensures Wired(Trimmed(l, k, need)) && forall node :: Position(Trimmed(l, k, need), node) == Position(l, node)
  {
    var m := Trimmed(l, k, need);
    ResizedWired(l, k, m[k]);
    forall node ensures Position(m, node) == Position(l, node) {
      var i := Position(l, node);
      if i >= 0 { PositionIs(m, i); } else { assert forall a :: 0 <= a < |m| ==> m[a].node == l[a].node; }
    }
  }

  lemma ExactFitLinked(l: seq<Cell>, k: nat, need: int)
    requires Canonical(l) && k < |l| && 0 < need == l[k].size && Linked(l, k)
    ensures Shrinks(l, TakeFront(l, k, need), l[k].start, need)
  {
    var m := Trimmed(l, k, need);
    TrimmedWired(l, k, need);
    CutLinked(m, k);
    BehindWired(m, k);
    BehindSame(m, k);
    assert m[..k] == l[..k] && m[k + 1..] == l[k + 1..];
    var r := l[..k] + Behind(m, k);
    assert r == l[..k] + [] + Behind(m, k);
    ReplaceByRest(l, r, k, need, [], Behind(m, k));
  }

  // What an exact fit leaves behind when the prev link of its node is wrong.
  lemma ExactFitUnlinked(l: seq<Cell>, k: nat, need: int)
    requires Canonical(l) && k < |l| && 0 < need == l[k].size && !Linked(l, k)
    ensures k > 0
    ensures var j, r := Position(l, l[k].prev), TakeFront(l, k, need);
      && (j < 0 || j == k ==> r.Some? && |r.value| == |l| && r.value[k].node == l[k].node && r.value[k].size == 0)
      && (0 <= j < k ==> j < k - 1 && r.Some? && forall x ::
         Covers(r.value, x) <==> Covers(l, x) && !(l[j + 1].start <= x < End(l[k])))
      && (j > k ==> r == None)
  {
    assert NodeOk(l, k);
    var m := Trimmed(l, k, need);
    BehindSame(m, k);
    EmptiedNode(l, k, need);
    var j := Position(l, l[k].prev);
    if 0 <= j < k {
      var r := m[..j + 1] + Behind(m, k);
      assert TakeFront(l, k, need) == Some(r);
      forall x ensures Covers(r, x) <==> Covers(l, x) && !(l[j + 1].start <= x < End(l[k]))
      { PrefixLost(l, m, j, k, x); }
    } else if j <= k {
      assert TakeFront(l, k, need) == Some(m[..k + 1] + Behind(m, k));
      assert (m[..k + 1] + Behind(m, k))[k] == m[k];
    }
  }

  // The node of an exact fit, as it is when it is to be removed.
  lemma EmptiedNode(l: seq<Cell>, k: nat, need: int)
    requires Canonical(l) && k < |l| && 0 < need == l[k].size
    ensures var m := Trimmed(l, k, need);
      && m == l[k := m[k]] && m[k].node == l[k].node && m[k].prev == l[k].prev && m[k].size == 0
      && Position(m, m[k].prev) == Position(l, l[k].prev) && TakeFront(l, k, need) == Cut(m, k)
  {
    TrimmedWired(l, k, need);
    SamePosition(l, Trimmed(l, k, need), l[k].prev);
  }

  lemma {:induction false} SamePosition(l: seq<Cell>, m: seq<Cell>, node: int)
    requires |l| == |m| && forall i :: 0 <= i < |l| ==> l[i].node == m[i].node
    ensures Position(l, node) == Position(m, node)
  {
    if l != [] { SamePosition(l[1..], m[1..], node); }
  }

  lemma PrefixLost(l: seq<Cell>, m: seq<Cell>, j: nat, k: nat, x: int)
    requires Canonical(l) && j < k < |l| && |m| == |l| && m == l[k := m[k]]
    ensures Covers(m[..j + 1] + Behind(m, k), x) <==> Covers(l, x) && !(l[j + 1].start <= x < End(l[k]))
  {
    BehindSame(m, k);
    assert m[..j + 1] == l[..j + 1] && m[k + 1..] == l[k + 1..];
    AreasLost(l, j, k, Behind(m, k), x);
  }

  /** A block that get_block hands out was free, and the list stays canonical and loses exactly the block if and only if
      the block is not an exact fit on a node whose prev link does not name the node in front of it. */
  lemma GetBlockExact(l: seq<Cell>, need: int)
    requires Canonical(l) && 0 < need && GetBlock(l, need).1.Some?
    ensures var (r, a) := GetBlock(l, need);
      && 0 <= a.value && a.value + need <= W32
      && (forall x :: InRegion(x, a.value, need) ==> Covers(l, x))
      && (Shrinks(l, r, a.value, need) <==> !Corrupts(l, need))
  {
    var k := FirstFit(l, need);
    var (r, a) := GetBlock(l, need);
    assert AreaOk(l, k);
    var c := l[k];
    if c.size != need {
      var m := Trimmed(l, k, need);
      assert m == l[..k] + [m[k]] + l[k + 1..];
      TrimmedWired(l, k, need);
      ReplaceByRest(l, m, k, need, [m[k]], l[k + 1..]);
    } else if Linked(l, k) {
      ExactFitLinked(l, k, need);
    } else {
      ExactFitUnlinked(l, k, need);
      UnlinkedIsWrong(l, k, need);
    }
  }

  lemma UnlinkedIsWrong(l: seq<Cell>, k: nat, need: int)
    requires Canonical(l) && k < |l| && 0 < need == l[k].size && !Linked(l, k)
    ensures !Shrinks(l, TakeFront(l, k, need), l[k].start, need)
  {
    ExactFitUnlinked(l, k, need);
    var j, r := Position(l, l[k].prev), TakeFront(l, k, need);
    if j < 0 || j == k {
      assert !AreaOk(r.value, k);
    } else if j < k {
      var x := l[j + 1].start;
      assert AreaOk(l, j + 1) && Gap(l, j + 1, k);
      assert Covers(l, x) && !Covers(r.value, x) && !InRegion(x, l[k].start, need);
    }
  }

  /** The three outcomes of the failing case: the prev link names no other node of the list, and the node stays linked
      with nothing in it although its memory has been given back; it names a node further in front, and every area
      between that node and the block is lost as well; or it names a node behind, and the links run in a circle. */
  lemma CorruptOutcomes(l: seq<Cell>, need: int)
    requires Canonical(l) && 0 < need && Corrupts(l, need)
    ensures var k := FirstFit(l, need);
      var j, r := Position(l, l[k].prev), GetBlock(l, need).0;
      && (j < 0 || j == k ==> r.Some? && |r.value| == |l| && r.value[k].node == l[k].node && r.value[k].size == 0)
      && (0 <= j < k ==> j < k - 1 && r.Some? && forall x ::
         Covers(r.value, x) <==> Covers(l, x) && !(l[j + 1].start <= x < End(l[k])))
      && (j > k ==> r == None)
  {
    ExactFitUnlinked(l, FirstFit(l, need), need);
  }

  ghost predicate FreeRun(l: seq<Cell>, start: int, size: int) {
    forall x {:trigger Covers(l, x)} :: InRegion(x, start, size) ==> Covers(l, x)
  }

  // No two areas share or adjoin an address.
  lemma AreaAt(l: seq<Cell>, i: nat, j: nat, x: int)
    requires Ordered(l) && i < |l| && j < |l| && l[i].start <= x <= End(l[i]) && l[j].start <= x < End(l[j])
    ensures i == j
  {
    assert i < j ==> Gap(l, i, j);
    assert j < i ==> Gap(l, j, i);
  }

  // A contiguous free run lies inside one area.
  lemma RunInOneArea(l: seq<Cell>, start: int, size: int) returns (i: nat)
    requires Ordered(l) && 0 < size && FreeRun(l, start, size)
    ensures i < |l| && l[i].start <= start && start + size <= End(l[i])
  {
    assert Covers(l, start);
    i :| 0 <= i < |l| && l[i].start <= start < End(l[i]);
    var x := End(l[i]);
    if x < start + size {
      assert Covers(l, x);
      var j :| 0 <= j < |l| && l[j].start <= x < End(l[j]);
      AreaAt(l, i, j, x);
    }
  }

  lemma SizeFits(l: seq<Cell>, i: nat)
    requires Ordered(l) && i < |l|
    ensures l[i].size < W32
  {
    assert AreaOk(l, i);
  }

  // A list of areas whose sizes fit in 32 bits leaves some address out.
  lemma HasGap(l: seq<Cell>) returns (x: int)
    requires Ordered(l)
    ensures 0 <= x < W32 && !Covers(l, x)
  {
    if FreeRun(l, 0, W32) {
      var i := RunInOneArea(l, 0, W32);
      SizeFits(l, i);
    }
    x :| InRegion(x, 0, W32) && !Covers(l, x);
  }

  /** Allocation fails exactly when no contiguous run of free addresses is long enough. */
  lemma GetBlockFailsIff(l: seq<Cell>, need: int)
    requires Canonical(l) && 0 < need
    ensures GetBlock(l, need).1 == None <==> !exists a :: FreeRun(l, a, need)
    ensures GetBlock(l, need).1 == None ==> GetBlock(l, need).0 == Some(l)
  {
    if GetBlock(l, need).1.Some? {
      GetBlockExact(l, need);
      assert FreeRun(l, GetBlock(l, need).1.value, need);
    } else if a :| FreeRun(l, a, need) {
      var i := RunInOneArea(l, a, need);
      assert false;
    }
  }

  /** The block handed out starts at the lowest address at which a free run of that length begins. */
  lemma GetBlockLowest(l: seq<Cell>, need: int)
    requires Canonical(l) && 0 < need && GetBlock(l, need).1.Some?
    ensures FreeRun(l, GetBlock(l, need).1.value, need)
    ensures forall a :: FreeRun(l, a, need) ==> GetBlock(l, need).1.value <= a
  {
    GetBlockExact(l, need);
    var k := FirstFit(l, need);
    forall a | FreeRun(l, a, need) ensures l[k].start <= a {
      var i := RunInOneArea(l, a, need);
      if k < i { assert Gap(l, k, i) && AreaOk(l, k); }
    }
  }

  // The nodes and links of r are those of l without the node at k, whose prev link the node behind takes over.
  ghost predicate WithoutNode(l: seq<Cell>, r: seq<Cell>, k: nat)
    requires k < |l|
  {
    && |r| == |l| - 1 && (forall i :: 0 <= i < k ==> SameNode(l[i], r[i]))
    && (forall i :: k < i < |l| ==> r[i - 1].node == l[i].node)
    && (forall i :: k + 1 < i < |l| ==> r[i - 1].prev == l[i].prev)
    && (k + 1 < |l| ==> r[k].prev == l[k].prev)
  }

  lemma CutNodes(m: seq<Cell>, k: nat)
    requires Wired(m) && k < |m| && Linked(m, k)
    ensures Cut(m, k).Some? && WithoutNode(m, Cut(m, k).value, k)
  {
    CutLinked(m, k);
    BehindSame(m, k);
    var r := m[..k] + Behind(m, k);
    forall i | 0 <= i < |m| - k - 1 ensures r[k + i] == Behind(m, k)[i] {}
  }

  lemma ResizedNodes(l: seq<Cell>, m: seq<Cell>, r: seq<Cell>, k: nat)
    requires |l| == |m| && (forall i :: 0 <= i < |l| ==> SameNode(l[i], m[i])) && k < |l|
    ensures WithoutNode(m, r, k) ==> WithoutNode(l, r, k)
  {
  }

  // The first area long enough is the one at k.
  lemma FitIs(l: seq<Cell>, need: int, k: nat)
    requires Ordered(l) && k < |l| && GetBlock(l, need).1 == Some(l[k].start)
    ensures FirstFit(l, need) == k && need <= l[k].size
  {
    var f := FirstFit(l, need);
    assert AreaOk(l, k) && AreaOk(l, f);
    assert f < k ==> Gap(l, f, k);
    assert k < f ==> Gap(l, k, f);
  }

  lemma ExactNodes(l: seq<Cell>, need: int, k: nat)
    requires Canonical(l) && 0 < need && k < |l| && need == l[k].size && Linked(l, k)
    ensures TakeFront(l, k, need).Some? && WithoutNode(l, TakeFront(l, k, need).value, k)
  {
    var m := Trimmed(l, k, need);
    TrimmedWired(l, k, need);
    assert TakeFront(l, k, need) == Cut(m, k);
    CutNodes(m, k);
    ResizedNodes(l, m, Cut(m, k).value, k);
  }

  /** The nodes and their prev links afterwards: all as before when the area is longer than the block; after an exact
      fit on a node whose prev link is right, its node is gone and the node behind takes over its prev link. */
  lemma GetBlockLinks(l: seq<Cell>, need: int, k: nat)
    requires Canonical(l) && 0 < need && k < |l| && GetBlock(l, need).1 == Some(l[k].start)
    ensures need <= l[k].size
    ensures var r := GetBlock(l, need).0;
      && (need < l[k].size ==> r.Some? && |r.value| == |l| && forall i :: 0 <= i < |l| ==> SameNode(l[i], r.value[i]))
      && (need == l[k].size && Linked(l, k) ==> r.Some? && WithoutNode(l, r.value, k))
  {
    FitIs(l, need, k);
    if need == l[k].size && Linked(l, k) { ExactNodes(l, need, k); }
    if need < l[k].size { assert TakeFront(l, k, need) == Some(Trimmed(l, k, need)); }
  }

  lemma NeedModulo(count: int)
    requires 0 <= count < W32
    ensures Need(count) == PAGE * (count % 0x10_0000)
  {
    var q, r := count / 0x10_0000, count % 0x10_0000;
    assert PAGE * count == W32 * q + PAGE * r;
  }

  /** 4096 * block_count is computed in 32 bits, so a request for 2^20 blocks or more gets what the remainder modulo
      2^20 asks for. If that is zero, an address is handed out whenever any area is free, and nothing is taken. */
  lemma NeedWraps(l: seq<Cell>, count: int)
    requires Canonical(l) && 0 <= count < W32
    ensures Need(count) == PAGE * count <==> count < 0x10_0000
    ensures GetBlock(l, Need(count)) == GetBlock(l, PAGE * (count % 0x10_0000))
    ensures count % 0x10_0000 == 0 ==> GetBlock(l, Need(count)) == (Some(l), if l == [] then None else Some(l[0].start))
  {
    NeedModulo(count);
    if count % 0x10_0000 == 0 && l != [] {
      assert AreaOk(l, 0);
      assert l[0 := l[0].(start := l[0].start % W32)] == l;
    }
  }

  /** The free memory then loses only the pages of the remainder: one page for a request of 2^20 + 1 blocks. */
  lemma WrappedRequest(l: seq<Cell>, count: int, need: int)
    requires Canonical(l) && 0 <= count < W32 && need == PAGE * (count % 0x10_0000) > 0
    requires GetBlock(l, Need(count)).1.Some? && !Corrupts(l, need)
    ensures Shrinks(l, GetBlock(l, Need(count)).0, GetBlock(l, Need(count)).1.value, need)
  {
    NeedModulo(count);
    GetBlockExact(l, need);
  }

  // ----- The list depends only on the free addresses -----

  lemma FirstAreaStart(l: seq<Cell>, m: seq<Cell>)
    requires Ordered(l) && Ordered(m) && l != [] && SameFree(l, m)
    ensures m != [] && m[0].start <= l[0].start
  {
    assert AreaOk(l, 0);
    assert Covers(l, l[0].start);
    var j :| 0 <= j < |m| && m[j].start <= l[0].start < End(m[j]);
    if j > 0 { assert Gap(m, 0, j); assert AreaOk(m, 0); }
  }

  lemma FirstAreaEnd(l: seq<Cell>, m: seq<Cell>)
    requires Ordered(l) && Ordered(m) && l != [] && m != [] && SameFree(l, m) && m[0].start == l[0].start
    ensures End(m[0]) <= End(l[0])
  {
    var x := End(l[0]);
    assert AreaOk(l, 0);
    if x < End(m[0]) {
      assert m[0].start <= x < End(m[0]);
      assert Covers(m, x);
      assert Covers(l, x);
      var j :| 0 <= j < |l| && l[j].start <= x < End(l[j]);
      AreaAt(l, 0, j, x);
    }
  }

  ghost predicate SameFree(l: seq<Cell>, m: seq<Cell>) {
    forall x :: Covers(l, x) <==> Covers(m, x)
  }

  lemma CoversTail(l: seq<Cell>, x: int)
    requires Ordered(l) && l != []
    ensures Covers(l[1..], x) <==> Covers(l, x) && !(l[0].start <= x < End(l[0]))
  {
    if i :| 0 <= i < |l| - 1 && l[1..][i].start <= x < End(l[1..][i])
    { assert l[i + 1] == l[1..][i]; assert Gap(l, 0, i + 1); }
    if i :| 0 <= i < |l| && l[i].start <= x < End(l[i]) && i > 0 { assert l[1..][i - 1] == l[i]; }
  }

  /** Two lists with the same free addresses hold the same areas, whatever their histories. */
  lemma {:induction false} CanonicalUnique(l: seq<Cell>, m: seq<Cell>)
    requires Ordered(l) && Ordered(m) && SameFree(l, m)
    ensures SameAreas(l, m)
  {
    if l == [] {
      if m != [] { FirstAreaStart(m, l); }
    } else {
      FirstAreaStart(l, m);
      FirstAreaStart(m, l);
      FirstAreaEnd(l, m);
      FirstAreaEnd(m, l);
      forall x ensures Covers(l[1..], x) <==> Covers(m[1..], x) {
        CoversTail(l, x);
        CoversTail(m, x);
      }
      TailOrdered(l, 1);
      TailOrdered(m, 1);
      CanonicalUnique(l[1..], m[1..]);
      assert forall i :: 1 <= i < |l| ==> l[i] == l[1..][i - 1] && m[i] == m[1..][i - 1];
    }
  }

  lemma NotCoveredIsDisjoint(l: seq<Cell>, start: int, size: int)
    requires Ordered(l) && 0 < size && forall x :: InRegion(x, start, size) ==> !Covers(l, x)
    ensures Disjoint(l, start, size)
  {
    forall i | 0 <= i < |l| ensures Beside(l, i, start, size) {
      assert AreaOk(l, i);
      var x := if start < l[i].start then l[i].start else start;
      if !Beside(l, i, start, size) {
        assert l[i].start <= x < End(l[i]) && InRegion(x, start, size);
        assert Covers(l, x);
      }
    }
  }

  /** Giving a block back right after taking it restores the areas. */
  lemma GetThenFree(l: seq<Cell>, need: int, node: int)
    requires Canonical(l) && 0 < need && GetBlock(l, need).1.Some? && !Corrupts(l, need)
    requires node != NULL && GetBlock(l, need).0.Some? && Unused(GetBlock(l, need).0.value, node)
    ensures var (r, a) := GetBlock(l, need);
      var (s, err) := AddFree(r.value, a.value, need, node);
      err == NoErr && Canonical(s) && SameAreas(s, l)
  {
    var (r, a) := GetBlock(l, need);
    GetBlockExact(l, need);
    assert AreaOk(l, FirstFit(l, need));
    NotCoveredIsDisjoint(r.value, a.value, need);
    var x := HasGap(l);
    assert LeavesGap(r.value, a.value, need);
    AddFreeCanonical(r.value, a.value, need, node);
    var s := AddFree(r.value, a.value, need, node).0;
    CanonicalUnique(s, l);
  }
}
