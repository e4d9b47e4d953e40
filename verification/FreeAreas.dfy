/**
  The free-area list of the page and frame allocator (memory/memalloc.c) as a value: areas in address
  order, first fit, merging on both sides. A cell also holds the address of its node and the prev link of the
  node, because a two-sided merge does not update the prev link of the node behind it, and kmalloc may hand out
  the address of a freed node again.
 */
module FreeAreas {

  import opened Basics

  const PAGE: int := 4096

  const NULL: int := 0

  datatype Cell = Cell(start: int, size: int, node: int, prev: int)

  datatype Error = NoErr | MallocFailed | UnauthorizedAction | NullFault

  function End(c: Cell): int {
    c.start + c.size
  }

  // ----- add_free -----

  // The position of the first cell behind the given address.
  function Place(l: seq<Cell>, start: int): (k: nat)
    ensures k <= |l| && (k < |l| ==> l[k].start > start)
    ensures forall i :: 0 <= i < k ==> l[i].start <= start
  {
    if l == [] || l[0].start > start then 0 else 1 + Place(l[1..], start)
  }

  // Where a region goes is determined by the order of the starts.
  lemma PlaceIs(l: seq<Cell>, start: int, k: nat)
    requires k <= |l| && (forall i :: 0 <= i < k ==> l[i].start <= start) && (k < |l| ==> l[k].start > start)
    ensures Place(l, start) == k
  {
  }

  // A new cell in front of the one at k, whose prev link is set to it.
  function Inserted(l: seq<Cell>, k: nat, c: Cell): seq<Cell>
    requires k < |l|
  {
    l[..k] + [c] + [l[k].(prev := c.node)] + l[k + 1..]
  }

  // The cell at k and the region before it go into the cell at k - 1. The prev link behind them is left alone.
  function Absorbed(l: seq<Cell>, k: nat, size: int): seq<Cell>
    requires 0 < k < |l|
  {
    var merged := l[k - 1].(size := (l[k - 1].size + (size + l[k].size)) % W32);
    l[..k - 1] + [merged] + l[k + 1..]
  }

  // Linking or merging the region at position k of a non-empty list. node: what kmalloc delivers.
  function Link(l: seq<Cell>, k: nat, start: int, size: int, node: int): (seq<Cell>, Error)
    requires l != [] && k <= |l|
  {
    if k == |l| then
      var save := l[k - 1];
      if End(save) % W32 == start then (l[k - 1 := save.(size := (save.size + size) % W32)], NoErr)
      else if node == NULL then (l, MallocFailed)
      else (l + [Cell(start, size, node, save.node)], NoErr)
    else if k == 0 then
      var cursor := l[0];
      if (start + size) % W32 == cursor.start then
        (l[0 := cursor.(start := start, size := (cursor.size + size) % W32)], NoErr)
      else if node == NULL then (l, MallocFailed)
      else (Inserted(l, 0, Cell(start, size, node, NULL)), NoErr)
    else
      var save, cursor := l[k - 1], l[k];
      if End(save) % W32 == start then
        if (start + size) % W32 == cursor.start then
          (Absorbed(l, k, size), NoErr)
        else (l[k - 1 := save.(size := (save.size + size) % W32)], NoErr)
      else if (start + size) % W32 == cursor.start then
        (l[k := cursor.(start := start, size := (cursor.size + size) % W32)], NoErr)
      else if node == NULL then (l, MallocFailed)
      else (Inserted(l, k, Cell(start, size, node, save.node)), NoErr)
  }

  // The boundary checks: none is made in front of the first area.
  predicate Overlaps(l: seq<Cell>, k: nat, start: int, size: int)
    requires k <= |l|
  {
    k > 0 && (End(l[k - 1]) % W32 > start || (k < |l| && (start + size) % W32 > l[k].start))
  }

  /** add_free */
  function AddFree(l: seq<Cell>, start: int, size: int, node: int): (seq<Cell>, Error) {
    if l == [] then
      if node == NULL then (l, NullFault) else ([Cell(start, size, node, NULL)], NoErr)
    else
      var k := Place(l, start);
      if Overlaps(l, k, start, size) then (l, UnauthorizedAction) else Link(l, k, start, size, node)
  }

  // ----- get_block -----

  // Bytes asked for, in 32-bit arithmetic.
  function Need(count: int): (n: int)
    requires 0 <= count < W32
    ensures 0 <= n < W32
  {
    PAGE * count % W32
  }

  function FirstFit(l: seq<Cell>, need: int): (k: int)
    ensures -1 <= k < |l|
    ensures k >= 0 ==> l[k].size >= need
    ensures forall i :: 0 <= i < (if k < 0 then |l| else k) ==> l[i].size < need
  {
    if l == [] then -1
    else if l[0].size >= need then 0
    else
      var later := FirstFit(l[1..], need);
      if later < 0 then -1 else later + 1
  }

  // The position of a node in the list, -1 when it is not there.
  function Position(l: seq<Cell>, node: int): (j: int)
    ensures -1 <= j < |l|
    ensures if j >= 0 then l[j].node == node else forall i :: 0 <= i < |l| ==> l[i].node != node
  {
    if l == [] then -1
    else if l[0].node == node then 0
    else
      var later := Position(l[1..], node);
      if later < 0 then -1 else later + 1
  }

  // The nodes behind a removed one: the first takes over its prev link.
  function Behind(l: seq<Cell>, k: nat): seq<Cell>
    requires k < |l|
  {
    var tail := l[k + 1..];
    if tail == [] then [] else [tail[0].(prev := l[k].prev)] + tail[1..]
  }

  // remove_free of the node at k: the next link of the node its prev link names goes to the node behind it, and the
  // list is what the next links then run through. When the prev link names no node of the list, the write goes
  // elsewhere and the node stays; when it names a node further in front, the nodes between are lost; when it names a
  // node behind, the links run in a circle and there is no list.
  function Cut(l: seq<Cell>, k: nat): Option<seq<Cell>>
    requires k < |l|
  {
    if l[k].prev == NULL then Some(Behind(l, k))
    else
      var j := Position(l, l[k].prev);
      if j < 0 || j == k then Some(l[..k + 1] + Behind(l, k))
      else if j < k then Some(l[..j + 1] + Behind(l, k))
      else None
  }

  function TakeFront(l: seq<Cell>, k: nat, need: int): Option<seq<Cell>>
    requires k < |l|
  {
    var c := l[k];
    var left := c.(start := (c.start + need) % W32, size := c.size - need);
    if left.size == 0 then Cut(l[k := left], k) else Some(l[k := left])
  }

  /** get_block: the list afterwards, if there is one, and the address, or no block. */
  function GetBlock(l: seq<Cell>, need: int): (Option<seq<Cell>>, Option<int>) {
    var k := FirstFit(l, need);
    if k < 0 then (Some(l), None) else (TakeFront(l, k, need), Some(l[k].start))
  }

  // ----- Canonical lists -----

  ghost predicate Canonical(l: seq<Cell>) {
    Ordered(l) && Wired(l)
  }

  // Nodes are different from each other and from NULL, and only the first has no prev link.
  ghost predicate Wired(l: seq<Cell>) {
    && (forall i {:trigger NodeOk(l, i)} :: 0 <= i < |l| ==> NodeOk(l, i))
    && (forall i, j {:trigger TwoNodes(l, i, j)} :: 0 <= i < j < |l| ==> TwoNodes(l, i, j))
  }

  ghost predicate NodeOk(l: seq<Cell>, i: int)
    requires 0 <= i < |l|
  {
    l[i].node != NULL && (l[i].prev == NULL <==> i == 0)
  }

  ghost predicate TwoNodes(l: seq<Cell>, i: int, j: int)
    requires 0 <= i < |l| && 0 <= j < |l|
  {
    l[i].node != l[j].node
  }

  // An address that kmalloc may deliver: NULL, or that of no node in the list.
  ghost predicate Unused(l: seq<Cell>, node: int) {
    forall i :: 0 <= i < |l| ==> l[i].node != node
  }

  // The prev link of the node at k names the node in front of it.
  predicate Linked(l: seq<Cell>, k: nat)
    requires k < |l|
  {
    l[k].prev == if k > 0 then l[k - 1].node else NULL
  }

  // Areas are non-empty, inside the address space, in order and separated by a gap.
  ghost predicate Ordered(l: seq<Cell>) {
    && (forall i {:trigger AreaOk(l, i)} :: 0 <= i < |l| ==> AreaOk(l, i))
    && (forall i, j {:trigger Gap(l, i, j)} :: 0 <= i < j < |l| ==> Gap(l, i, j))
  }

  ghost predicate AreaOk(l: seq<Cell>, i: int)
    requires 0 <= i < |l|
  {
    0 <= l[i].start && 0 < l[i].size < W32 && End(l[i]) <= W32
  }

  ghost predicate Gap(l: seq<Cell>, i: int, j: int)
    requires 0 <= i < |l| && 0 <= j < |l|
  {
    End(l[i]) < l[j].start
  }

  // The free addresses.
  ghost predicate Covers(l: seq<Cell>, x: int) {
    exists i :: 0 <= i < |l| && l[i].start <= x < End(l[i])
  }

  // A non-empty region of the 32-bit address space.
  ghost predicate Region(start: int, size: int) {
    0 <= start && 0 < size < W32 && start + size <= W32
  }

  // Some address is neither free nor in the region.
  ghost predicate LeavesGap(l: seq<Cell>, start: int, size: int) {
    exists x :: 0 <= x < W32 && !Covers(l, x) && !InRegion(x, start, size)
  }

  // The region does not meet the free memory.
  ghost predicate Disjoint(l: seq<Cell>, start: int, size: int) {
    forall i {:trigger Beside(l, i, start, size)} :: 0 <= i < |l| ==> Beside(l, i, start, size)
  }

  ghost predicate Beside(l: seq<Cell>, i: int, start: int, size: int)
    requires 0 <= i < |l|
  {
    End(l[i]) <= start || start + size <= l[i].start
  }

  lemma OneArea(c: Cell)
    requires 0 <= c.start && 0 < c.size < W32 && End(c) <= W32
    ensures Ordered([c]) && forall x :: Covers([c], x) <==> c.start <= x < End(c)
  {
    forall x | c.start <= x < End(c) ensures Covers([c], x) {
      assert [c][0] == c;
    }
  }

  // What the surroundings of position k look like for a disjoint region.
  lemma AtPlace(l: seq<Cell>, start: int, size: int, k: nat)
    requires Ordered(l) && Region(start, size) && Disjoint(l, start, size) && k == Place(l, start)
    ensures k > 0 ==> End(l[k - 1]) <= start && End(l[k - 1]) < W32
    ensures k < |l| ==> start + size <= l[k].start && start + size < W32
    ensures !Overlaps(l, k, start, size)
  {
    if k > 0 {
      assert Beside(l, k - 1, start, size) && AreaOk(l, k - 1);
    }
    if k < |l| {
      assert Beside(l, k, start, size) && AreaOk(l, k);
    }
  }

  // ----- Splicing lists -----

  // Replacing cells i..j of a canonical list by cells that fit between the neighbours.
  ghost predicate Fits(l: seq<Cell>, lo: int, hi: int, mid: seq<Cell>)
    requires 0 <= lo <= hi <= |l|
  {
    && Ordered(mid)
    && (lo > 0 ==> forall i :: 0 <= i < |mid| ==> End(l[lo - 1]) < mid[i].start)
    && (hi < |l| ==> forall i :: 0 <= i < |mid| ==> End(mid[i]) < l[hi].start)
  }

  // The same areas, whatever their nodes.
  ghost predicate SameAreas(l: seq<Cell>, m: seq<Cell>) {
    |l| == |m| && forall i :: 0 <= i < |l| ==> l[i].start == m[i].start && l[i].size == m[i].size
  }

  lemma SpliceOrdered(l: seq<Cell>, lo: int, hi: int, mid: seq<Cell>, tail: seq<Cell>)
    requires Ordered(l) && 0 <= lo <= hi <= |l| && Fits(l, lo, hi, mid) && SameAreas(tail, l[hi..])
    ensures Ordered(l[..lo] + mid + tail)
  {
    var r := l[..lo] + mid + tail;
    var m := lo + |mid|;
    forall i | 0 <= i < |r| ensures AreaOk(r, i) {
      if i < lo { assert AreaOk(l, i); }
      else if i < m { assert AreaOk(mid, i - lo); }
      else { assert AreaOk(l, i - m + hi); }
    }
    forall i, j | 0 <= i < j < |r| ensures Gap(r, i, j) {
      if j < lo { assert Gap(l, i, j); }
      else if i >= m { assert Gap(l, i - m + hi, j - m + hi); }
      else if lo <= i && j < m { assert Gap(mid, i - lo, j - lo); }
      else if i < lo && j >= m { assert Gap(l, i, j - m + hi); }
      else if i < lo {
        if i < lo - 1 { assert Gap(l, i, lo - 1); assert AreaOk(l, lo - 1); }
      } else {
        if j - m > 0 { assert Gap(l, hi, j - m + hi); assert AreaOk(l, hi); }
      }
    }
  }

  lemma SpliceCovers(l: seq<Cell>, lo: int, hi: int, mid: seq<Cell>, tail: seq<Cell>, x: int)
    requires 0 <= lo <= hi <= |l| && SameAreas(tail, l[hi..])
    ensures Covers(l[..lo] + mid + tail, x) <==> Covers(l[..lo], x) || Covers(mid, x) || Covers(l[hi..], x)
    ensures Covers(l, x) <==> Covers(l[..lo], x) || Covers(l[lo..hi], x) || Covers(l[hi..], x)
  {
    var r := l[..lo] + mid + tail;
    var m := lo + |mid|;
    if i :| 0 <= i < |r| && r[i].start <= x < End(r[i]) {
      if i < lo { assert l[..lo][i] == r[i]; }
      else if i < m { assert mid[i - lo] == r[i]; }
      else { assert l[hi..][i - m].start == r[i].start; }
    }
    if i :| 0 <= i < lo && l[..lo][i].start <= x < End(l[..lo][i]) { assert r[i] == l[i]; }
    if i :| 0 <= i < |mid| && mid[i].start <= x < End(mid[i]) { assert r[lo + i] == mid[i]; }
    if i :| 0 <= i < |l| - hi && l[hi..][i].start <= x < End(l[hi..][i])
    { assert r[m + i].start == l[hi..][i].start && l[hi + i] == l[hi..][i]; }
    if i :| 0 <= i < |l| && l[i].start <= x < End(l[i]) {
      if i < lo { assert l[..lo][i] == l[i]; }
      else if i < hi { assert l[lo..hi][i - lo] == l[i]; }
      else { assert l[hi..][i - hi] == l[i]; }
    }
    if i :| 0 <= i < hi - lo && l[lo..hi][i].start <= x < End(l[lo..hi][i]) { assert l[lo + i] == l[lo..hi][i]; }
  }

  ghost predicate InRegion(x: int, start: int, size: int) {
    start <= x < start + size
  }
}
