/**
  The kernel heap (memory/kheap.c) as a value: chunk headers linked in address order between two
  used sentinels, and 32 bins of free chunks by power-of-two size. Sizes are those of the 32-bit
  target: HEADER_SIZE is 12, sizeof(mem_chunk_t) is 20.
 */
module HeapModel {

  import opened Basics

  const HEADER: int := 12
  const CHUNK: int := 20
  const MIN_SIZE: int := 8
  const NUM_SIZES: int := 32

  // The header of a chunk: its neighbours in the list of all chunks, and the used flag.
  datatype Hdr = Hdr(next: int, prev: int, used: bool)

  datatype Ends = Ends(first: int, last: int)

  // bins[k] lists the free chunks of slot k, head first. meta is mem_meta.
  datatype Heap = Heap(hdr: map<int, Hdr>, bins: seq<seq<int>>, ends: Ends, meta: int)

  // ----- Sizes and slots -----

  // memory_chunk_size
  function Size(hdr: map<int, Hdr>, a: int): int
    requires a in hdr
  {
    hdr[a].next - a - HEADER
  }

  // memory_chunk_slot: floor of the base-two logarithm, -1 for zero.
  function Slot(size: int): (n: int)
    ensures -1 <= n && (size >= 1 <==> n >= 0)
  {
    if size <= 0 then -1 else 1 + Slot(size / 2)
  }

  lemma {:induction false} SlotIsLog(size: int)
    requires size >= 1
    ensures Pow2(Slot(size)) <= size < 2 * Pow2(Slot(size))
  {
    if size > 1 {
      SlotIsLog(size / 2);
    }
  }

  lemma {:induction false} Pow2Mono(i: nat, j: nat)
    requires i <= j
    ensures Pow2(i) <= Pow2(j)
    ensures i < j ==> 2 * Pow2(i) <= Pow2(j)
  {
    if i < j {
      Pow2Mono(i, j - 1);
    }
  }

  // A chunk is at least 2^n bytes long exactly when its slot is at least n.
  lemma SlotAtLeast(size: int, n: nat)
    requires size >= 1
    ensures Slot(size) >= n <==> size >= Pow2(n)
  {
    SlotIsLog(size);
    if Slot(size) >= n {
      Pow2Mono(n, Slot(size));
    } else {
      Pow2Mono(Slot(size), n);
    }
  }

  lemma SlotBelow32(size: int)
    requires 1 <= size < W32
    ensures 0 <= Slot(size) < NUM_SIZES
  {
    assert Pow2(8) == 0x100;
    assert Pow2(16) == 0x1_0000;
    assert Pow2(24) == 0x100_0000;
    assert Pow2(32) == W32;
    SlotAtLeast(size, 32);
  }

  // The rounding at the start of kmalloc, in 32-bit arithmetic.
  function Rounded(request: int): (size: int)
    requires 0 <= request < W32
    ensures size % 4 == 0 && MIN_SIZE <= size < W32
    ensures request <= W32 - 4 ==> request <= size && (size > MIN_SIZE ==> size < request + 4)
    ensures request > W32 - 4 ==> size == MIN_SIZE
  {
    var r := (request + 3) % W32 / 4 * 4;
    if r < MIN_SIZE then MIN_SIZE else r
  }

  // The first bin kmalloc looks at: the base-two logarithm, rounded up.
  function FirstBin(size: int): (n: int)
    requires size >= 2
    ensures n >= 1
  {
    Slot(size - 1) + 1
  }

  lemma FirstBinIsCeiling(size: int)
    requires size >= 2
    ensures Pow2(FirstBin(size) - 1) < size <= Pow2(FirstBin(size))
  {
    SlotIsLog(size - 1);
  }

  // ----- The bins -----

  ghost predicate Distinct(s: seq<int>) {
    forall i, j :: 0 <= i < j < |s| ==> s[i] != s[j]
  }

  function RemoveOne(s: seq<int>, a: int): seq<int> {
    if s == [] then [] else if s[0] == a then s[1..] else [s[0]] + RemoveOne(s[1..], a)
  }

  lemma {:induction false} RemoveOneMembers(s: seq<int>, a: int)
    requires Distinct(s)
    ensures Distinct(RemoveOne(s, a))
    ensures forall x :: x in RemoveOne(s, a) <==> x in s && x != a
  {
    if s != [] {
      assert forall x :: x in s <==> x == s[0] || x in s[1..];
      if s[0] != a {
        RemoveOneMembers(s[1..], a);
        var r := RemoveOne(s[1..], a);
        assert RemoveOne(s, a) == [s[0]] + r;
        assert s[0] !in r;
      }
    }
  }

  // The bins hold exactly the addresses of the map, each once, in the bin the map names.
  ghost predicate BinsMatch(bins: seq<seq<int>>, free: map<int, int>) {
    && |bins| == NUM_SIZES
    && (forall k :: 0 <= k < NUM_SIZES ==> Distinct(bins[k]))
    && (forall a, k :: 0 <= k < NUM_SIZES ==> (a in bins[k] <==> a in free && free[a] == k))
    && (forall a :: a in free ==> 0 <= free[a] < NUM_SIZES)
  }

  function PushBin(bins: seq<seq<int>>, k: int, a: int): seq<seq<int>>
    requires 0 <= k < |bins|
  {
    bins[k := [a] + bins[k]]
  }

  function RemoveBin(bins: seq<seq<int>>, k: int, a: int): seq<seq<int>>
    requires 0 <= k < |bins|
  {
    bins[k := RemoveOne(bins[k], a)]
  }

  lemma PushMatches(bins: seq<seq<int>>, free: map<int, int>, k: int, a: int)
    requires BinsMatch(bins, free) && 0 <= k < NUM_SIZES && a !in free
    ensures BinsMatch(PushBin(bins, k, a), free[a := k])
  {
    var b := PushBin(bins, k, a);
    assert a !in bins[k];
    forall x, j | 0 <= j < NUM_SIZES ensures x in b[j] <==> x in free[a := k] && free[a := k][x] == j {
      assert x in bins[j] <==> x in free && free[x] == j;
    }
  }

  lemma RemoveMatches(bins: seq<seq<int>>, free: map<int, int>, a: int)
    requires BinsMatch(bins, free) && a in free
    ensures BinsMatch(RemoveBin(bins, free[a], a), free - {a})
  {
    var b := RemoveBin(bins, free[a], a);
    RemoveOneMembers(bins[free[a]], a);
    forall x, j | 0 <= j < NUM_SIZES ensures x in b[j] <==> x in free - {a} && (free - {a})[x] == j {
      assert x in bins[j] <==> x in free && free[x] == j;
    }
  }

  // A chunk that changes its size moves to the front of another bin.
  lemma MoveMatches(bins: seq<seq<int>>, free: map<int, int>, a: int, k: int)
    requires BinsMatch(bins, free) && a in free && 0 <= k < NUM_SIZES
    ensures BinsMatch(PushBin(RemoveBin(bins, free[a], a), k, a), (free - {a})[a := k])
  {
    RemoveMatches(bins, free, a);
    PushMatches(RemoveBin(bins, free[a], a), free - {a}, k, a);
  }

  // ----- The list of all chunks -----

  // The chunks tile the heap: every next link leads to the following header, no header lies inside
  // another chunk, and the two links are inverse.
  ghost predicate Tile(hdr: map<int, Hdr>, e: Ends) {
    && e.first in hdr && e.last in hdr && 0 < e.first && e.last + CHUNK <= W32
    && hdr[e.first].used && hdr[e.last].used
    && hdr[e.first].next == e.first + CHUNK && hdr[e.last].next == e.first && hdr[e.first].prev == e.last
    && (forall a :: a in hdr ==> e.first <= a <= e.last && a % 4 == 0)
    && (forall a {:trigger Forward(hdr, e, a)} :: a in hdr && a != e.last ==> Forward(hdr, e, a))
    && (forall a {:trigger Backward(hdr, a)} :: a in hdr && a != e.first ==> Backward(hdr, a))
    && (forall a, b {:trigger Apart(hdr, a, b)} :: a in hdr && b in hdr && a < b ==> Apart(hdr, a, b))
  }

  ghost predicate Forward(hdr: map<int, Hdr>, e: Ends, a: int)
    requires a in hdr
  {
    var n := hdr[a].next;
    n in hdr && a + CHUNK <= n && n != e.first && hdr[n].prev == a
  }

  ghost predicate Backward(hdr: map<int, Hdr>, a: int)
    requires a in hdr
  {
    hdr[a].prev in hdr && hdr[hdr[a].prev].next == a
  }

  ghost predicate Apart(hdr: map<int, Hdr>, a: int, b: int)
    requires a in hdr
  {
    hdr[a].next <= b
  }

  ghost predicate NoFreeNeighbours(hdr: map<int, Hdr>) {
    forall a {:trigger UsedNext(hdr, a)} :: a in hdr && !hdr[a].used ==> UsedNext(hdr, a)
  }

  ghost predicate UsedNext(hdr: map<int, Hdr>, a: int)
    requires a in hdr
  {
    hdr[a].next in hdr && hdr[hdr[a].next].used
  }

  // The free chunks and their slots.
  function FreeSlots(hdr: map<int, Hdr>): map<int, int> {
    map a | a in hdr && !hdr[a].used :: Slot(Size(hdr, a))
  }

  ghost predicate Inv(h: Heap) {
    && Tile(h.hdr, h.ends)
    && NoFreeNeighbours(h.hdr)
    && BinsMatch(h.bins, FreeSlots(h.hdr))
    && h.meta == 2 * CHUNK + HEADER * (|h.hdr| - 2)
  }

  // insert_after with a fresh free header b behind a.
  function InsertAfter(hdr: map<int, Hdr>, a: int, b: int): map<int, Hdr>
    requires a in hdr && hdr[a].next in hdr
  {
    var n := hdr[a].next;
    hdr[n := hdr[n].(prev := b)][a := hdr[a].(next := b)][b := Hdr(n, a, false)]
  }

  // remove: the header x leaves the list.
  function RemoveHdr(hdr: map<int, Hdr>, x: int): map<int, Hdr>
    requires x in hdr && hdr[x].prev in hdr && hdr[x].next in hdr && hdr[x].prev != x && hdr[x].next != x
  {
    var p, n := hdr[x].prev, hdr[x].next;
    (hdr - {x})[n := hdr[n].(prev := p)][p := (hdr[n := hdr[n].(prev := p)])[p].(next := n)]
  }

  // No header lies inside a chunk.
  lemma InsideIsFree(hdr: map<int, Hdr>, e: Ends, a: int, b: int)
    requires Tile(hdr, e) && a in hdr && a < b < hdr[a].next
    ensures b !in hdr
  {
    assert b in hdr ==> Apart(hdr, a, b);
  }

  lemma InsertApart(hdr: map<int, Hdr>, e: Ends, a: int, b: int)
    requires Tile(hdr, e) && a in hdr && a < b < hdr[a].next && hdr[a].next in hdr
    ensures var t := InsertAfter(hdr, a, b);
      forall c, d {:trigger Apart(t, c, d)} :: c in t && d in t && c < d ==> Apart(t, c, d)
  {
    var t := InsertAfter(hdr, a, b);
    InsideIsFree(hdr, e, a, b);
    forall c, d | c in t && d in t && c < d ensures Apart(t, c, d) {
      if c == b {
        assert Apart(hdr, a, d);
      } else if d == b {
        assert c < a ==> Apart(hdr, c, a);
        assert a < c ==> Apart(hdr, a, c);
      } else {
        assert Apart(hdr, c, d);
      }
    }
  }

  lemma InsertKeepsTile(hdr: map<int, Hdr>, e: Ends, a: int, b: int)
    requires Tile(hdr, e) && a in hdr && a != e.first && a != e.last
    requires a + CHUNK <= b && b + CHUNK <= hdr[a].next && b % 4 == 0
    ensures b !in hdr && hdr[a].next in hdr && hdr[a].next <= e.last
    ensures Tile(InsertAfter(hdr, a, b), e) && |InsertAfter(hdr, a, b)| == |hdr| + 1
  {
    assert Forward(hdr, e, a);
    InsideIsFree(hdr, e, a, b);
    var t := InsertAfter(hdr, a, b);
    assert t.Keys == hdr.Keys + {b};
    forall c | c in t && c != e.last ensures Forward(t, e, c) {
      if c != b { assert Forward(hdr, e, c); }
    }
    forall c | c in t && c != e.first ensures Backward(t, c) {
      if c != b { assert Backward(hdr, c); }
    }
    InsertApart(hdr, e, a, b);
  }

  lemma RemoveApart(hdr: map<int, Hdr>, e: Ends, x: int)
    requires Tile(hdr, e) && x in hdr && hdr[x].prev in hdr && hdr[x].next in hdr && hdr[x].prev < x < hdr[x].next
    requires hdr[hdr[x].prev].next == x
    ensures var t := RemoveHdr(hdr, x);
      forall c, d {:trigger Apart(t, c, d)} :: c in t && d in t && c < d ==> Apart(t, c, d)
  {
    var t := RemoveHdr(hdr, x);
    forall c, d | c in t && d in t && c < d ensures Apart(t, c, d) {
      assert Apart(hdr, c, d);
      if c == hdr[x].prev {
        assert x < d;
        assert Apart(hdr, x, d);
      }
    }
  }

  lemma RemoveKeepsTile(hdr: map<int, Hdr>, e: Ends, x: int)
    requires Tile(hdr, e) && x in hdr && x != e.first && x != e.last && hdr[x].prev != e.first
    ensures hdr[x].prev in hdr && hdr[x].next in hdr && hdr[x].prev < x < hdr[x].next
    ensures Tile(RemoveHdr(hdr, x), e) && |RemoveHdr(hdr, x)| == |hdr| - 1
  {
    assert Forward(hdr, e, x) && Backward(hdr, x);
    assert Forward(hdr, e, hdr[x].prev);
    var t := RemoveHdr(hdr, x);
    assert t.Keys == hdr.Keys - {x};
    forall c | c in t && c != e.last ensures Forward(t, e, c) { RemoveForward(hdr, e, x, c); }
    forall c | c in t && c != e.first ensures Backward(t, c) { RemoveBackward(hdr, e, x, c); }
    RemoveApart(hdr, e, x);
  }

  lemma RemoveForward(hdr: map<int, Hdr>, e: Ends, x: int, c: int)
    requires Tile(hdr, e) && x in hdr && x != e.first && x != e.last && hdr[x].prev != e.first && c in hdr && c != x
      && c != e.last
    ensures hdr[x].prev in hdr && hdr[x].next in hdr && hdr[x].prev < x < hdr[x].next && c in RemoveHdr(hdr, x)
      && Forward(RemoveHdr(hdr, x), e, c)
  {
    assert Forward(hdr, e, x) && Backward(hdr, x) && Forward(hdr, e, hdr[x].prev) && Forward(hdr, e, c);
  }

  lemma RemoveBackward(hdr: map<int, Hdr>, e: Ends, x: int, c: int)
    requires Tile(hdr, e) && x in hdr && x != e.first && x != e.last && hdr[x].prev != e.first && c in hdr && c != x
      && c != e.first
    ensures hdr[x].prev in hdr && hdr[x].next in hdr && hdr[x].prev < x < hdr[x].next && c in RemoveHdr(hdr, x)
      && Backward(RemoveHdr(hdr, x), c)
  {
    assert Forward(hdr, e, x) && Backward(hdr, x) && Forward(hdr, e, hdr[x].prev) && Backward(hdr, c);
  }

  // ----- kmalloc -----

  // The first non-empty bin from n upwards.
  function FindBin(bins: seq<seq<int>>, n: nat): (k: int)
    ensures k == -1 || (n <= k < |bins| && bins[k] != [])
    ensures forall j :: n <= j < (if k == -1 then |bins| else k) ==> bins[j] == []
    decreases |bins| - n
  {
    if n >= |bins| then -1 else if bins[n] != [] then n else FindBin(bins, n + 1)
  }

  // Whether the chunk taken is long enough to leave a second chunk behind the block.
  predicate Splits(size: int, size2: int) {
    size + CHUNK <= size2
  }

  // Taking the free chunk a, head of bin k, as a whole.
  function TakeWhole(h: Heap, k: int, a: int): Heap
    requires a in h.hdr && 0 <= k < |h.bins| && h.bins[k] != []
  {
    Heap(h.hdr[a := h.hdr[a].(used := true)], h.bins[k := h.bins[k][1..]], h.ends, h.meta)
  }

  // Taking the front of it, with a new free chunk behind a block of the given size.
  function TakeFront(h: Heap, k: int, a: int, size: int): Heap
    requires a in h.hdr && h.hdr[a].next in h.hdr && 0 <= k < |h.bins| && h.bins[k] != []
    requires 0 <= Slot(Size(h.hdr, a) - size - HEADER) < |h.bins|
  {
    var b := a + HEADER + size;
    var hdr := InsertAfter(h.hdr, a, b);
    Heap(hdr[a := hdr[a].(used := true)],
         PushBin(h.bins[k := h.bins[k][1..]], Slot(Size(h.hdr, a) - size - HEADER), b), h.ends, h.meta + HEADER)
  }

  // What the head of a non-empty bin is.
  lemma HeadOfBin(h: Heap, k: int)
    requires Inv(h) && 0 <= k < NUM_SIZES && h.bins[k] != []
    ensures var a := h.bins[k][0];
      && a in h.hdr && !h.hdr[a].used && a != h.ends.first && a != h.ends.last && Slot(Size(h.hdr, a)) == k
      && h.hdr[a].next in h.hdr && MIN_SIZE <= Size(h.hdr, a) < W32 && h.hdr[h.hdr[a].next].used
  {
    var a := h.bins[k][0];
    assert a in h.bins[k];
    assert a in FreeSlots(h.hdr);
    assert Forward(h.hdr, h.ends, a) && UsedNext(h.hdr, a);
  }

  // The rest of a chunk that is split has a slot.
  lemma RestHasSlot(size: int, size2: int)
    requires 0 <= size && Splits(size, size2) && size2 < W32
    ensures 0 <= Slot(size2 - size - HEADER) < NUM_SIZES
  {
    SlotBelow32(size2 - size - HEADER);
  }

  // Taking the head of bin k for a block of the rounded size.
  ghost function TakeFor(h: Heap, k: int, size: int): Heap
    requires Inv(h) && 0 <= k < NUM_SIZES && h.bins[k] != [] && MIN_SIZE <= size
  {
    HeadOfBin(h, k);
    var a := h.bins[k][0];
    if Splits(size, Size(h.hdr, a)) then
      RestHasSlot(size, Size(h.hdr, a));
      TakeFront(h, k, a, size)
    else TakeWhole(h, k, a)
  }

  // The bin kmalloc takes from, or -1.
  ghost function ChosenBin(h: Heap, size: int): (k: int)
    requires |h.bins| == NUM_SIZES && size >= 2
    ensures k == -1 || (FirstBin(size) <= k < NUM_SIZES && h.bins[k] != [])
  {
    var n := FirstBin(size);
    if n >= NUM_SIZES then -1 else FindBin(h.bins, n)
  }

  /** kmalloc: the heap afterwards and the address of the block, or no block. */
  ghost function Malloc(h: Heap, request: int): (Heap, Option<int>)
    requires Inv(h) && 0 <= request < W32
  {
    var size := Rounded(request);
    var k := ChosenBin(h, size);
    if k == -1 then (h, None) else (TakeFor(h, k, size), Some(h.bins[k][0] + HEADER))
  }

  // Popping the head of a bin.
  lemma PopMatches(bins: seq<seq<int>>, free: map<int, int>, k: int)
    requires BinsMatch(bins, free) && 0 <= k < NUM_SIZES && bins[k] != []
    ensures bins[k][0] in free && free[bins[k][0]] == k
    ensures BinsMatch(bins[k := bins[k][1..]], free - {bins[k][0]})
  {
    var a := bins[k][0];
    assert a in bins[k];
    RemoveMatches(bins, free, a);
    assert RemoveOne(bins[k], a) == bins[k][1..];
  }

  lemma SplitSlots(hdr: map<int, Hdr>, a: int, b: int)
    requires a in hdr && !hdr[a].used && a < b < hdr[a].next && hdr[a].next in hdr && b !in hdr
    ensures var t := InsertAfter(hdr, a, b);
      FreeSlots(t[a := t[a].(used := true)]) == (FreeSlots(hdr) - {a})[b := Slot(hdr[a].next - b - HEADER)]
  {
    var t := InsertAfter(hdr, a, b);
    var t' := t[a := t[a].(used := true)];
    SameSlots(hdr, t', {a, b});
    assert FreeSlots(t')[b] == Slot(hdr[a].next - b - HEADER);
  }

  // Headers whose next link and used flag are kept keep their slot.
  lemma SameSlots(hdr: map<int, Hdr>, t: map<int, Hdr>, except: set<int>)
    requires forall c :: c !in except ==> (c in hdr <==> c in t)
    requires forall c :: c in hdr && c !in except ==> t[c].next == hdr[c].next && t[c].used == hdr[c].used
    ensures FreeSlots(t) - except == FreeSlots(hdr) - except
  {
  }

  lemma MarkUsedKeepsTile(hdr: map<int, Hdr>, e: Ends, a: int)
    requires Tile(hdr, e) && a in hdr
    ensures Tile(hdr[a := hdr[a].(used := true)], e)
  {
    var t := hdr[a := hdr[a].(used := true)];
    forall c | c in t && c != e.last ensures Forward(t, e, c) { assert Forward(hdr, e, c); }
    forall c | c in t && c != e.first ensures Backward(t, c) { assert Backward(hdr, c); }
    forall c, d | c in t && d in t && c < d ensures Apart(t, c, d) { assert Apart(hdr, c, d); }
  }

  lemma TakeWholeKeepsInv(h: Heap, k: int, a: int)
    requires Inv(h) && 0 <= k < NUM_SIZES && h.bins[k] != [] && a == h.bins[k][0] && a in h.hdr
    ensures Inv(TakeWhole(h, k, a))
  {
    HeadOfBin(h, k);
    PopMatches(h.bins, FreeSlots(h.hdr), k);
    var n := TakeWhole(h, k, a);
    MarkUsedKeepsTile(h.hdr, h.ends, a);
    SameSlots(h.hdr, n.hdr, {a});
    assert FreeSlots(n.hdr) == FreeSlots(h.hdr) - {a};
    assert n.hdr.Keys == h.hdr.Keys;
    forall c | c in n.hdr && !n.hdr[c].used ensures UsedNext(n.hdr, c) {
      assert UsedNext(h.hdr, c);
    }
  }

  // Splitting a free chunk in two and marking the front used.
  lemma SplitKeepsTile(hdr: map<int, Hdr>, e: Ends, a: int, size: int)
    requires Tile(hdr, e) && a in hdr && a != e.first && a != e.last && hdr[a].next in hdr
    requires MIN_SIZE <= size && size % 4 == 0 && Splits(size, Size(hdr, a))
    ensures var b := a + HEADER + size;
      var t := InsertAfter(hdr, a, b);
      b !in hdr && Tile(t[a := t[a].(used := true)], e) && |t[a := t[a].(used := true)]| == |hdr| + 1
  {
    var b := a + HEADER + size;
    InsertKeepsTile(hdr, e, a, b);
    var t := InsertAfter(hdr, a, b);
    MarkUsedKeepsTile(t, e, a);
    assert t[a := t[a].(used := true)].Keys == t.Keys;
  }

  lemma TakeFrontBins(h: Heap, k: int, a: int, size: int)
    requires Inv(h) && 0 <= k < NUM_SIZES && h.bins[k] != [] && a == h.bins[k][0] && a in h.hdr
      && h.hdr[a].next in h.hdr
    requires MIN_SIZE <= size && Splits(size, Size(h.hdr, a)) && a + HEADER + size !in h.hdr
    requires 0 <= Slot(Size(h.hdr, a) - size - HEADER) < NUM_SIZES
    ensures var n := TakeFront(h, k, a, size);
      BinsMatch(n.bins, FreeSlots(n.hdr))
  {
    HeadOfBin(h, k);
    PopMatches(h.bins, FreeSlots(h.hdr), k);
    var b := a + HEADER + size;
    SplitSlots(h.hdr, a, b);
    PushMatches(h.bins[k := h.bins[k][1..]], FreeSlots(h.hdr) - {a}, Slot(Size(h.hdr, a) - size - HEADER), b);
  }

  lemma TakeKeepsInv(h: Heap, k: int, size: int)
    requires Inv(h) && 0 <= k < NUM_SIZES && h.bins[k] != [] && MIN_SIZE <= size && size % 4 == 0
    ensures Inv(TakeFor(h, k, size))
  {
    var a := h.bins[k][0];
    HeadOfBin(h, k);
    if Splits(size, Size(h.hdr, a)) {
      RestHasSlot(size, Size(h.hdr, a));
      SplitKeepsTile(h.hdr, h.ends, a, size);
      TakeFrontBins(h, k, a, size);
      TakeFrontNeighbours(h, k, a, size);
    } else {
      TakeWholeKeepsInv(h, k, a);
    }
  }

  lemma TakeFrontNeighbours(h: Heap, k: int, a: int, size: int)
    requires Inv(h) && 0 <= k < NUM_SIZES && h.bins[k] != [] && a == h.bins[k][0] && a in h.hdr
      && h.hdr[a].next in h.hdr
    requires MIN_SIZE <= size && Splits(size, Size(h.hdr, a))
    requires 0 <= Slot(Size(h.hdr, a) - size - HEADER) < NUM_SIZES
    ensures NoFreeNeighbours(TakeFront(h, k, a, size).hdr)
  {
    HeadOfBin(h, k);
    var n := TakeFront(h, k, a, size);
    InsideIsFree(h.hdr, h.ends, a, a + HEADER + size);
    forall c | c in n.hdr && !n.hdr[c].used ensures UsedNext(n.hdr, c) {
      if c in h.hdr {
        assert UsedNext(h.hdr, c);
      }
    }
  }

  // ----- kfree -----

  // A block handed out and not freed: a used chunk between the sentinels.
  predicate Live(h: Heap, a: int) {
    a in h.hdr && h.hdr[a].used && a != h.ends.first && a != h.ends.last
  }

  // The chunk behind a, being free, is joined to a.
  ghost function AbsorbNext(h: Heap, a: int): Heap
    requires Inv(h) && Live(h, a) && h.hdr[a].next in h.hdr && !h.hdr[h.hdr[a].next].used
  {
    var x := h.hdr[a].next;
    FreeChunk(h, x);
    BehindLive(h, a);
    RemoveKeepsTile(h.hdr, h.ends, x);
    Heap(RemoveHdr(h.hdr, x), RemoveBin(h.bins, Slot(Size(h.hdr, x)), x), h.ends, h.meta - HEADER)
  }

  // The chunk a joins the free chunk in front of it, which moves to the bin of its new size.
  ghost function JoinPrev(h: Heap, a: int): Heap
    requires CanJoin(h, a)
  {
    var p := h.hdr[a].prev;
    var bins := RemoveBin(h.bins, Slot(Size(h.hdr, p)), p);
    Heap(RemoveHdr(h.hdr, a), PushBin(bins, Slot(h.hdr[a].next - p - HEADER), p), h.ends, h.meta - HEADER)
  }

  ghost predicate CanJoin(h: Heap, a: int) {
    && a in h.hdr && h.hdr[a].prev in h.hdr && h.hdr[a].next in h.hdr && h.hdr[a].prev < a < h.hdr[a].next
    && h.hdr[h.hdr[a].prev].next == a && h.hdr[a].prev in FreeSlots(h.hdr)
    && 0 <= Slot(Size(h.hdr, h.hdr[a].prev)) < |h.bins|
    && 0 <= Slot(h.hdr[a].next - h.hdr[a].prev - HEADER) < |h.bins|
  }

  // The chunk a becomes free on its own.
  ghost function MarkFree(h: Heap, a: int): Heap
    requires Inv(h) && Live(h, a)
  {
    LiveSize(h, a);
    Heap(h.hdr[a := h.hdr[a].(used := false)], PushBin(h.bins, Slot(Size(h.hdr, a)), a), h.ends, h.meta)
  }

  // What is known of a free chunk.
  lemma FreeChunk(h: Heap, x: int)
    requires Inv(h) && x in h.hdr && !h.hdr[x].used
    ensures x != h.ends.first && x != h.ends.last && h.hdr[x].next in h.hdr && h.hdr[h.hdr[x].next].used
    ensures x in FreeSlots(h.hdr) && 0 <= Slot(Size(h.hdr, x)) < NUM_SIZES && x < h.hdr[x].next
  {
    assert UsedNext(h.hdr, x) && Forward(h.hdr, h.ends, x);
    assert x in FreeSlots(h.hdr);
  }

  // What is known of a live block's chunk.
  lemma LiveSize(h: Heap, a: int)
    requires Inv(h) && Live(h, a)
    ensures h.hdr[a].next in h.hdr && h.hdr[a].prev in h.hdr && h.hdr[h.hdr[a].prev].next == a
    ensures MIN_SIZE <= Size(h.hdr, a) < W32 && 0 <= Slot(Size(h.hdr, a)) < NUM_SIZES
    ensures a < h.hdr[a].next <= h.ends.last && h.hdr[h.hdr[a].next].prev == a
  {
    assert Forward(h.hdr, h.ends, a) && Backward(h.hdr, a);
    SlotBelow32(Size(h.hdr, a));
  }

  lemma BehindLive(h: Heap, a: int)
    requires Inv(h) && Live(h, a)
    ensures h.hdr[a].next in h.hdr && h.hdr[h.hdr[a].next].prev == a
  {
    LiveSize(h, a);
  }

  lemma JoinedSize(h: Heap, a: int)
    requires Inv(h) && Live(h, a) && h.hdr[a].prev in h.hdr && !h.hdr[h.hdr[a].prev].used
    ensures CanJoin(h, a) && h.hdr[a].prev != h.ends.first
  {
    LiveSize(h, a);
    FreeChunk(h, h.hdr[a].prev);
    SlotBelow32(h.hdr[a].next - h.hdr[a].prev - HEADER);
  }

  // The free chunks after the free chunk x was joined to the used chunk in front of it.
  lemma AbsorbSlots(hdr: map<int, Hdr>, x: int, p: int)
    requires x in hdr && p in hdr && hdr[x].prev == p && hdr[x].next in hdr && p < x < hdr[x].next
    requires !hdr[x].used && hdr[p].used
    ensures FreeSlots(RemoveHdr(hdr, x)) == FreeSlots(hdr) - {x}
  {
    var t := RemoveHdr(hdr, x);
    SameSlots(hdr, t, {x, p});
    assert p !in FreeSlots(t) && p !in FreeSlots(hdr);
    assert FreeSlots(t) - {x, p} == FreeSlots(t);
    assert FreeSlots(hdr) - {x, p} == FreeSlots(hdr) - {x};
  }

  // What removing a header leaves as it was.
  lemma RemoveFrame(hdr: map<int, Hdr>, x: int)
    requires x in hdr && hdr[x].prev in hdr && hdr[x].next in hdr && hdr[x].prev < x < hdr[x].next
    ensures var t := RemoveHdr(hdr, x);
      && t.Keys == hdr.Keys - {x}
      && t[hdr[x].prev] == hdr[hdr[x].prev].(next := hdr[x].next)
      && t[hdr[x].next] == hdr[hdr[x].next].(prev := hdr[x].prev)
      && (forall c :: c in t ==> t[c].used == hdr[c].used)
      && (forall c :: c in t && c != hdr[x].prev ==> t[c].next == hdr[c].next)
      && (forall c :: c in t && c != hdr[x].next ==> t[c].prev == hdr[c].prev)
  {
  }

  lemma AbsorbKeepsInv(h: Heap, a: int)
    requires Inv(h) && Live(h, a) && h.hdr[a].next in h.hdr && !h.hdr[h.hdr[a].next].used
    ensures var n := AbsorbNext(h, a);
      && Inv(n) && Live(n, a) && n.ends == h.ends
      && n.hdr[a] == h.hdr[a].(next := h.hdr[h.hdr[a].next].next)
      && n.hdr[a].next in n.hdr && n.hdr[n.hdr[a].next].used
      && n.hdr.Keys == h.hdr.Keys - {h.hdr[a].next}
      && forall c :: c in n.hdr && c != a ==> n.hdr[c].used == h.hdr[c].used && n.hdr[c].next == h.hdr[c].next
  {
    var x := h.hdr[a].next;
    FreeChunk(h, x);
    BehindLive(h, a);
    RemoveKeepsTile(h.hdr, h.ends, x);
    RemoveFrame(h.hdr, x);
    AbsorbSlots(h.hdr, x, a);
    RemoveMatches(h.bins, FreeSlots(h.hdr), x);
    OnlyPrev(h.hdr, h.ends, x);
    AbsorbNeighbours(h.hdr, x);
  }

  lemma AbsorbNeighbours(hdr: map<int, Hdr>, x: int)
    requires NoFreeNeighbours(hdr) && x in hdr && !hdr[x].used
    requires hdr[x].prev in hdr && hdr[x].next in hdr && hdr[x].prev < x < hdr[x].next && hdr[hdr[x].prev].used
    requires forall c :: c in hdr && hdr[c].next == x ==> c == hdr[x].prev
    ensures NoFreeNeighbours(RemoveHdr(hdr, x))
  {
    var t := RemoveHdr(hdr, x);
    forall c | c in t && !t[c].used ensures UsedNext(t, c) {
      assert UsedNext(hdr, c);
    }
  }

  // The free chunks after a joined the free chunk in front of it.
  lemma JoinSlots(hdr: map<int, Hdr>, a: int, p: int)
    requires a in hdr && p in hdr && hdr[a].prev == p && hdr[a].next in hdr && p < a < hdr[a].next
    requires hdr[a].used && !hdr[p].used
    ensures FreeSlots(RemoveHdr(hdr, a)) == (FreeSlots(hdr) - {p})[p := Slot(hdr[a].next - p - HEADER)]
  {
    var t := RemoveHdr(hdr, a);
    SameSlots(hdr, t, {a, p});
    SlotsAgree(FreeSlots(hdr), FreeSlots(t), a, p);
  }

  lemma SlotsAgree(was: map<int, int>, now: map<int, int>, a: int, p: int)
    requires was - {a, p} == now - {a, p} && a !in was && a !in now && p in now && a != p
    ensures now == (was - {p})[p := now[p]]
  {
    assert was - {a, p} == was - {p};
    assert now - {a, p} == now - {p};
  }

  lemma JoinNeighbours(hdr: map<int, Hdr>, a: int, p: int)
    requires NoFreeNeighbours(hdr) && a in hdr && p in hdr && hdr[a].prev == p && hdr[a].next in hdr
      && p < a < hdr[a].next
    requires hdr[a].used && !hdr[p].used && hdr[hdr[a].next].used && hdr[p].next == a
    requires forall c :: c in hdr && hdr[c].next == a ==> c == p
    ensures NoFreeNeighbours(RemoveHdr(hdr, a))
  {
    var t := RemoveHdr(hdr, a);
    forall c | c in t && !t[c].used ensures UsedNext(t, c) {
      assert UsedNext(hdr, c);
    }
  }

  lemma OnlyPrev(hdr: map<int, Hdr>, e: Ends, a: int)
    requires Tile(hdr, e) && a in hdr && a != e.first
    ensures forall c :: c in hdr && hdr[c].next == a ==> c == hdr[a].prev
  {
    forall c | c in hdr && hdr[c].next == a ensures c == hdr[a].prev {
      assert Forward(hdr, e, c);
    }
  }

  lemma JoinKeepsInv(h: Heap, a: int)
    requires Inv(h) && Live(h, a) && CanJoin(h, a) && !h.hdr[h.hdr[a].prev].used && h.hdr[a].prev != h.ends.first
    requires h.hdr[h.hdr[a].next].used
    ensures Inv(JoinPrev(h, a))
  {
    var p := h.hdr[a].prev;
    RemoveKeepsTile(h.hdr, h.ends, a);
    OnlyPrev(h.hdr, h.ends, a);
    JoinNeighbours(h.hdr, a, p);
    JoinBins(h, a);
  }

  lemma JoinBins(h: Heap, a: int)
    requires BinsMatch(h.bins, FreeSlots(h.hdr)) && CanJoin(h, a) && h.hdr[a].used && !h.hdr[h.hdr[a].prev].used
    ensures BinsMatch(JoinPrev(h, a).bins, FreeSlots(JoinPrev(h, a).hdr))
  {
    var p := h.hdr[a].prev;
    JoinSlots(h.hdr, a, p);
    MoveMatches(h.bins, FreeSlots(h.hdr), p, Slot(h.hdr[a].next - p - HEADER));
  }

  lemma MarkFreeKeepsInv(h: Heap, a: int)
    requires Inv(h) && Live(h, a) && h.hdr[a].prev in h.hdr && h.hdr[h.hdr[a].prev].used
    requires h.hdr[a].next in h.hdr && h.hdr[h.hdr[a].next].used
    ensures var n := MarkFree(h, a);
      && Inv(n) && n.ends == h.ends && n.hdr.Keys == h.hdr.Keys
      && forall c :: c in n.hdr && c != a ==> n.hdr[c] == h.hdr[c]
  {
    LiveSize(h, a);
    var n := MarkFree(h, a);
    MarkFreeTile(h, a);
    SameSlots(h.hdr, n.hdr, {a});
    assert a !in FreeSlots(h.hdr);
    assert FreeSlots(n.hdr) == FreeSlots(h.hdr)[a := Slot(Size(h.hdr, a))];
    PushMatches(h.bins, FreeSlots(h.hdr), Slot(Size(h.hdr, a)), a);
    forall c | c in n.hdr && !n.hdr[c].used ensures UsedNext(n.hdr, c) {
      if c != a {
        assert UsedNext(h.hdr, c) && Forward(h.hdr, h.ends, c);
      }
    }
  }

  lemma MarkFreeTile(h: Heap, a: int)
    requires Inv(h) && Live(h, a)
    ensures Tile(h.hdr[a := h.hdr[a].(used := false)], h.ends)
    ensures h.hdr[a := h.hdr[a].(used := false)].Keys == h.hdr.Keys
  {
    var hdr, e := h.hdr, h.ends;
    var t := hdr[a := hdr[a].(used := false)];
    forall c | c in t && c != e.last ensures Forward(t, e, c) { assert Forward(hdr, e, c); }
    forall c | c in t && c != e.first ensures Backward(t, c) { assert Backward(hdr, c); }
    forall c, d | c in t && d in t && c < d ensures Apart(t, c, d) { assert Apart(hdr, c, d); }
  }

  // The first half of kfree.
  ghost function FreeStep1(h: Heap, a: int): Heap
    requires Inv(h) && Live(h, a)
  {
    LiveSize(h, a);
    if !h.hdr[h.hdr[a].next].used then AbsorbNext(h, a) else h
  }

  lemma FreeStep1Inv(h: Heap, a: int)
    requires Inv(h) && Live(h, a)
    ensures var n := FreeStep1(h, a);
      && Inv(n) && Live(n, a) && n.ends == h.ends && n.hdr[a].next in n.hdr && n.hdr[n.hdr[a].next].used
      && n.hdr[a].prev == h.hdr[a].prev && n.hdr.Keys <= h.hdr.Keys
      && (forall c :: Live(h, c) ==> Live(n, c))
      && (forall c :: Live(h, c) && c != a ==> n.hdr[c].next == h.hdr[c].next)
      && (forall c :: c in n.hdr ==> n.hdr[c].used == h.hdr[c].used)
  {
    LiveSize(h, a);
    if !h.hdr[h.hdr[a].next].used {
      AbsorbKeepsInv(h, a);
    }
  }

  /** kfree of a live block: coalescing with the free chunks on both sides. */
  ghost function Free(h: Heap, block: int): Heap
    requires Inv(h) && Live(h, block - HEADER)
  {
    var a := block - HEADER;
    var m := FreeStep1(h, a);
    FreeStep1Inv(h, a);
    LiveSize(m, a);
    if !m.hdr[m.hdr[a].prev].used then JoinedSize(m, a); JoinPrev(m, a) else MarkFree(m, a)
  }

  // ----- One call of each -----

  lemma MallocKeepsInv(h: Heap, request: int)
    requires Inv(h) && 0 <= request < W32
    ensures Inv(Malloc(h, request).0) && Malloc(h, request).0.ends == h.ends
  {
    var k := ChosenBin(h, Rounded(request));
    if k != -1 {
      TakeKeepsInv(h, k, Rounded(request));
    }
  }

  lemma FreeKeepsInv(h: Heap, block: int)
    requires Inv(h) && Live(h, block - HEADER)
    ensures Inv(Free(h, block)) && Free(h, block).ends == h.ends
  {
    var a := block - HEADER;
    var m := FreeStep1(h, a);
    FreeStep1Inv(h, a);
    LiveSize(m, a);
    if !m.hdr[m.hdr[a].prev].used {
      JoinedSize(m, a);
      JoinKeepsInv(m, a);
    } else {
      MarkFreeKeepsInv(m, a);
    }
  }

  /** kmalloc succeeds exactly when some free chunk has at least the request's power-of-two ceiling. */
  lemma MallocSucceedsIff(h: Heap, request: int)
    requires Inv(h) && 0 <= request < W32
    ensures Malloc(h, request).1.Some? <==>
      exists a :: a in h.hdr && !h.hdr[a].used && Size(h.hdr, a) >= Pow2(FirstBin(Rounded(request)))
  {
    var n := FirstBin(Rounded(request));
    var k := ChosenBin(h, Rounded(request));
    if k != -1 {
      HeadOfBin(h, k);
      SlotAtLeast(Size(h.hdr, h.bins[k][0]), n);
    } else {
      forall a | a in h.hdr && !h.hdr[a].used ensures Size(h.hdr, a) < Pow2(n) {
        FreeChunk(h, a);
        SlotAtLeast(Size(h.hdr, a), n);
        assert a in h.bins[FreeSlots(h.hdr)[a]];
      }
    }
  }

  /** A block that kmalloc returns starts a header behind its chunk, was free before and is live now, holds the
      rounded size and exceeds it by less than a chunk; every other live block keeps its place and size. */
  lemma MallocBlock(h: Heap, request: int)
    requires Inv(h) && 0 <= request < W32 && Malloc(h, request).1.Some?
    ensures var (n, r) := Malloc(h, request);
      var a := r.value - HEADER;
      && a in h.hdr && !h.hdr[a].used && Live(n, a)
      && Rounded(request) <= Size(n.hdr, a) < Rounded(request) + CHUNK
      && (forall c :: Live(n, c) <==> Live(h, c) || c == a)
      && (forall c :: Live(h, c) ==> n.hdr[c].next == h.hdr[c].next)
  {
    var size := Rounded(request);
    var k := ChosenBin(h, size);
    var a := h.bins[k][0];
    HeadOfBin(h, k);
    SlotAtLeast(Size(h.hdr, a), FirstBin(size));
    FirstBinIsCeiling(size);
    if Splits(size, Size(h.hdr, a)) {
      InsideIsFree(h.hdr, h.ends, a, a + HEADER + size);
    }
  }

  // The bytes of the block of a chunk, behind its header.
  predicate InBlock(hdr: map<int, Hdr>, a: int, x: int) {
    a in hdr && a + HEADER <= x < hdr[a].next
  }

  // A byte of one block lies between the sentinels, in no other block and in no header.
  lemma BlockByte(h: Heap, a: int, c: int, x: int)
    requires Inv(h) && a in h.hdr && a != h.ends.last && c in h.hdr && InBlock(h.hdr, a, x)
    ensures h.ends.first + HEADER <= x < h.ends.last
    ensures !(c <= x < c + HEADER) && (c != a ==> !InBlock(h.hdr, c, x))
  {
    assert Apart(h.hdr, a, h.ends.last);
    if c < a {
      assert Apart(h.hdr, c, a) && Forward(h.hdr, h.ends, c);
    } else if a < c {
      assert Apart(h.hdr, a, c);
    }
  }

  /** A new block has as many bytes as were asked for, except in the wrap-around of the rounding; all of them lie
      between the two sentinels, none belongs to a block that was live, and none to a header. */
  lemma NewBlockIsDisjoint(h: Heap, request: int)
    requires Inv(h) && 0 <= request < W32 && Malloc(h, request).1.Some?
    ensures var (n, r) := Malloc(h, request);
      var a := r.value - HEADER;
      && (request <= W32 - 4 ==> forall x :: r.value <= x < r.value + request ==> InBlock(n.hdr, a, x))
      && forall x :: InBlock(n.hdr, a, x) ==>
           && h.ends.first + HEADER <= x < h.ends.last
           && (forall c :: Live(h, c) ==> !InBlock(h.hdr, c, x))
           && (forall c :: c in n.hdr ==> !(c <= x < c + HEADER))
  {
    var (n, r) := Malloc(h, request);
    var a := r.value - HEADER;
    MallocBlock(h, request);
    MallocKeepsInv(h, request);
    forall x | InBlock(n.hdr, a, x)
      ensures h.ends.first + HEADER <= x < h.ends.last
      ensures forall c :: Live(h, c) ==> !InBlock(h.hdr, c, x)
      ensures forall c :: c in n.hdr ==> !(c <= x < c + HEADER)
    {
      NewByte(h, n, a, x);
    }
  }

  lemma NewByte(h: Heap, n: Heap, a: int, x: int)
    requires Inv(n) && n.ends == h.ends && Live(n, a) && !Live(h, a) && InBlock(n.hdr, a, x)
    requires forall c :: Live(h, c) ==> Live(n, c) && n.hdr[c].next == h.hdr[c].next
    ensures h.ends.first + HEADER <= x < h.ends.last
    ensures forall c :: Live(h, c) ==> !InBlock(h.hdr, c, x)
    ensures forall c :: c in n.hdr ==> !(c <= x < c + HEADER)
  {
    forall c | c in n.hdr ensures !(c <= x < c + HEADER) { BlockByte(n, a, c, x); }
    forall c | Live(h, c) ensures !InBlock(h.hdr, c, x) { BlockByte(n, a, c, x); }
    BlockByte(n, a, a, x);
  }

  /** kfree ends exactly the life of its block; every other live block keeps its place and size. */
  lemma FreeBlock(h: Heap, block: int)
    requires Inv(h) && Live(h, block - HEADER)
    ensures var n := Free(h, block);
      && (forall c :: Live(n, c) <==> Live(h, c) && c != block - HEADER)
      && (forall c :: Live(n, c) ==> n.hdr[c].next == h.hdr[c].next)
  {
    var a := block - HEADER;
    var m := FreeStep1(h, a);
    FreeStep1Inv(h, a);
    LiveSize(m, a);
    if !m.hdr[m.hdr[a].prev].used {
      JoinedSize(m, a);
      RemoveFrame(m.hdr, a);
    } else {
      MarkFreeKeepsInv(m, a);
    }
  }

  // ----- Round trips -----

  // The neighbours of a free chunk are used.
  lemma FreeHasUsedPrev(h: Heap, a: int)
    requires Inv(h) && a in h.hdr && !h.hdr[a].used
    ensures h.hdr[a].prev in h.hdr && h.hdr[h.hdr[a].prev].used
  {
    FreeChunk(h, a);
    assert Backward(h.hdr, a);
    var p := h.hdr[a].prev;
    assert !h.hdr[p].used ==> UsedNext(h.hdr, p);
  }

  lemma WholeRoundTrip(h: Heap, k: int, a: int)
    requires Inv(h) && 0 <= k < NUM_SIZES && h.bins[k] != [] && a == h.bins[k][0] && a in h.hdr
    requires Inv(TakeWhole(h, k, a)) && Live(TakeWhole(h, k, a), a)
    ensures FreeStep1(TakeWhole(h, k, a), a) == TakeWhole(h, k, a)
    ensures Free(TakeWhole(h, k, a), a + HEADER) == h
  {
    HeadOfBin(h, k);
    FreeHasUsedPrev(h, a);
    var n := TakeWhole(h, k, a);
    assert FreeStep1(n, a) == n;
    var f := MarkFree(n, a);
    assert f.hdr == h.hdr;
    assert [a] + h.bins[k][1..] == h.bins[k];
    assert f.bins == h.bins;
  }

  lemma FrontAbsorbed(h: Heap, k: int, a: int, size: int)
    requires Inv(h) && 0 <= k < NUM_SIZES && h.bins[k] != [] && a == h.bins[k][0] && a in h.hdr
      && h.hdr[a].next in h.hdr
    requires MIN_SIZE <= size && size % 4 == 0 && Splits(size, Size(h.hdr, a))
    requires 0 <= Slot(Size(h.hdr, a) - size - HEADER) < NUM_SIZES
    requires Inv(TakeFront(h, k, a, size)) && Live(TakeFront(h, k, a, size), a)
    ensures FreeStep1(TakeFront(h, k, a, size), a) == TakeWhole(h, k, a)
  {
    HeadOfBin(h, k);
    var n := TakeFront(h, k, a, size);
    var b := a + HEADER + size;
    InsideIsFree(h.hdr, h.ends, a, b);
    InsertThenRemove(h.hdr, h.ends, a, b);
    var slot := Slot(Size(n.hdr, b));
    var bins := h.bins[k := h.bins[k][1..]];
    assert RemoveOne([b] + bins[slot], b) == bins[slot];
    assert FreeStep1(n, a).bins == bins;
  }

  // Removing a header that was just inserted behind a.
  lemma InsertThenRemove(hdr: map<int, Hdr>, e: Ends, a: int, b: int)
    requires Tile(hdr, e) && a in hdr && a != e.last && a < b < hdr[a].next && b !in hdr && hdr[a].next in hdr
    ensures var t := InsertAfter(hdr, a, b);
      var u := t[a := t[a].(used := true)];
      && u[b].prev == a && u[b].next == hdr[a].next && u[a].next == b && !u[b].used
      && RemoveHdr(u, b) == hdr[a := hdr[a].(used := true)]
  {
    assert Forward(hdr, e, a);
    var t := InsertAfter(hdr, a, b);
    var u := t[a := t[a].(used := true)];
    assert RemoveHdr(u, b).Keys == hdr.Keys;
  }

  lemma FrontRoundTrip(h: Heap, k: int, a: int, size: int)
    requires Inv(h) && 0 <= k < NUM_SIZES && h.bins[k] != [] && a == h.bins[k][0] && a in h.hdr
      && h.hdr[a].next in h.hdr
    requires MIN_SIZE <= size && size % 4 == 0 && Splits(size, Size(h.hdr, a))
    requires 0 <= Slot(Size(h.hdr, a) - size - HEADER) < NUM_SIZES
    requires Inv(TakeFront(h, k, a, size)) && Live(TakeFront(h, k, a, size), a)
    requires Inv(TakeWhole(h, k, a)) && Live(TakeWhole(h, k, a), a)
    ensures Free(TakeFront(h, k, a, size), a + HEADER) == h
  {
    WholeRoundTrip(h, k, a);
    FrontAbsorbed(h, k, a, size);
    SameAfterStep1(TakeFront(h, k, a, size), TakeWhole(h, k, a), a);
  }

  lemma TakeIsLive(h: Heap, k: int, size: int)
    requires Inv(h) && 0 <= k < NUM_SIZES && h.bins[k] != [] && MIN_SIZE <= size
    ensures h.bins[k][0] in h.hdr && Live(TakeFor(h, k, size), h.bins[k][0])
    ensures Live(TakeWhole(h, k, h.bins[k][0]), h.bins[k][0])
  {
    HeadOfBin(h, k);
  }

  lemma ChunkOfHead(h: Heap, k: int, size: int)
    requires Inv(h) && 0 <= k < NUM_SIZES && h.bins[k] != [] && MIN_SIZE <= size
    ensures var a := h.bins[k][0];
      && a in h.hdr && h.hdr[a].next in h.hdr
      && (Splits(size, Size(h.hdr, a)) ==>
           0 <= Slot(Size(h.hdr, a) - size - HEADER) < NUM_SIZES && TakeFor(h, k, size) == TakeFront(h, k, a, size))
      && (!Splits(size, Size(h.hdr, a)) ==> TakeFor(h, k, size) == TakeWhole(h, k, a))
  {
    HeadOfBin(h, k);
    if Splits(size, Size(h.hdr, h.bins[k][0])) {
      RestHasSlot(size, Size(h.hdr, h.bins[k][0]));
    }
  }

  lemma TakeRoundTrip(h: Heap, k: int, size: int)
    requires Inv(h) && 0 <= k < NUM_SIZES && h.bins[k] != [] && MIN_SIZE <= size && size % 4 == 0
    ensures Inv(TakeFor(h, k, size)) && Live(TakeFor(h, k, size), h.bins[k][0])
    ensures Free(TakeFor(h, k, size), h.bins[k][0] + HEADER) == h
  {
    var a := h.bins[k][0];
    TakeKeepsInv(h, k, size);
    TakeIsLive(h, k, size);
    TakeWholeKeepsInv(h, k, a);
    ChunkOfHead(h, k, size);
    if Splits(size, Size(h.hdr, a)) {
      FrontRoundTrip(h, k, a, size);
    } else {
      WholeRoundTrip(h, k, a);
    }
  }

  // The rest of kfree depends only on the heap after its first half.
  lemma SameAfterStep1(n: Heap, w: Heap, a: int)
    requires Inv(n) && Live(n, a) && Inv(w) && Live(w, a) && FreeStep1(n, a) == w && FreeStep1(w, a) == w
    ensures Free(n, a + HEADER) == Free(w, a + HEADER)
  {
  }

  /** kfree right after a successful kmalloc restores the heap: the same chunks, the same bins in the same
      order, the same metadata count. */
  lemma FreeUndoesMalloc(h: Heap, request: int)
    requires Inv(h) && 0 <= request < W32 && Malloc(h, request).1.Some?
    ensures var (n, r) := Malloc(h, request);
      Inv(n) && Live(n, r.value - HEADER) && Free(n, r.value) == h
  {
    TakeRoundTrip(h, ChosenBin(h, Rounded(request)), Rounded(request));
  }

  // ----- Whole runs -----

  // kheap_init: one free chunk between the sentinels.
  function InitHeap(e: Ends): Heap
    requires 0 < e.first && e.first + 2 * CHUNK <= e.last && e.last + CHUNK <= W32
  {
    var second := e.first + CHUNK;
    var size := e.last - second - HEADER;
    SlotBelow32(size);
    Heap(map[e.first := Hdr(second, e.last, true)][second := Hdr(e.last, e.first, false)]
           [e.last := Hdr(e.first, second, true)],
         EmptyBins()[Slot(size) := [second]], e, 2 * CHUNK + HEADER)
  }

  function EmptyBins(): (bins: seq<seq<int>>)
    ensures |bins| == NUM_SIZES && forall k :: 0 <= k < NUM_SIZES ==> bins[k] == []
  {
    seq(NUM_SIZES, _ => [])
  }

  ghost predicate Room(e: Ends) {
    0 < e.first && e.first % 4 == 0 && e.last % 4 == 0 && e.first + 2 * CHUNK <= e.last && e.last + CHUNK <= W32
  }

  lemma InitTile(e: Ends)
    requires Room(e)
    ensures Tile(InitHeap(e).hdr, e) && NoFreeNeighbours(InitHeap(e).hdr)
    ensures |InitHeap(e).hdr| == 3
  {
    var hdr := InitHeap(e).hdr;
    var second := e.first + CHUNK;
    assert hdr.Keys == {e.first, second, e.last};
    assert second % 4 == 0;
    ThreeChunks(hdr, e, second);
  }

  // The three headers that kheap_init writes, in its order, whatever the bounds.
  function FirstHeaders(e: Ends): map<int, Hdr> {
    var second := e.first + CHUNK;
    map[e.first := Hdr(second, e.last, true)][second := Hdr(e.last, e.first, false)][e.last := Hdr(e.first, second,
      true)]
  }

  lemma NextFar(hdr: map<int, Hdr>, e: Ends, a: int)
    requires Tile(hdr, e) && a in hdr && a != e.last
    ensures hdr[a].next in hdr && a + CHUNK <= hdr[a].next && hdr[hdr[a].next].prev == a
  {
    assert Forward(hdr, e, a);
  }

  /** kheap_init does not check its bounds: the headers it writes tile the heap exactly when there is room for the two
      sentinels and a chunk between them. */
  lemma RoomExact(e: Ends)
    requires 0 < e.first && e.first % 4 == 0 && e.last % 4 == 0 && e.last + CHUNK <= W32
    ensures Tile(FirstHeaders(e), e) <==> Room(e)
  {
    var hdr, second := FirstHeaders(e), e.first + CHUNK;
    if Room(e) {
      assert hdr == InitHeap(e).hdr;
      InitTile(e);
    } else if Tile(hdr, e) {
      assert e.first in hdr && (second < e.last ==> second in hdr);
      if second < e.last { NextFar(hdr, e, second); } else { NextFar(hdr, e, e.first); }
    }
  }

  // A free chunk between the two sentinels.
  ghost predicate Three(hdr: map<int, Hdr>, e: Ends, second: int) {
    && e.first in hdr && second in hdr && e.last in hdr
    && (forall a :: a in hdr ==> a == e.first || a == second || a == e.last)
    && hdr[e.first] == Hdr(second, e.last, true) && hdr[second] == Hdr(e.last, e.first, false)
       && hdr[e.last] == Hdr(e.first, second, true)
    && second == e.first + CHUNK && second + CHUNK <= e.last
  }

  lemma ThreeChunks(hdr: map<int, Hdr>, e: Ends, second: int)
    requires Room(e) && second % 4 == 0 && Three(hdr, e, second)
    ensures Tile(hdr, e) && NoFreeNeighbours(hdr)
  {
    ThreeLinks(hdr, e, second);
    assert forall a :: a in hdr ==> e.first <= a <= e.last && a % 4 == 0;
  }

  lemma ThreeLinks(hdr: map<int, Hdr>, e: Ends, second: int)
    requires Three(hdr, e, second)
    ensures forall a {:trigger Forward(hdr, e, a)} :: a in hdr && a != e.last ==> Forward(hdr, e, a)
    ensures forall a {:trigger Backward(hdr, a)} :: a in hdr && a != e.first ==> Backward(hdr, a)
    ensures forall a, b {:trigger Apart(hdr, a, b)} :: a in hdr && b in hdr && a < b ==> Apart(hdr, a, b)
    ensures NoFreeNeighbours(hdr)
  {
    forall a | a in hdr && !hdr[a].used ensures UsedNext(hdr, a) {}
  }

  lemma InitSlots(e: Ends)
    requires Room(e)
    ensures FreeSlots(InitHeap(e).hdr) == map[e.first + CHUNK := Slot(e.last - (e.first + CHUNK) - HEADER)]
  {
    var f := FreeSlots(InitHeap(e).hdr);
    var second := e.first + CHUNK;
    assert f.Keys == {second};
    assert f[second] == Slot(e.last - second - HEADER);
  }

  lemma InitBinsMatch(e: Ends)
    requires Room(e)
    ensures BinsMatch(InitHeap(e).bins, FreeSlots(InitHeap(e).hdr))
  {
    var second := e.first + CHUNK;
    InitSlots(e);
    SlotBelow32(e.last - second - HEADER);
    InitBins(second, Slot(e.last - second - HEADER));
  }

  lemma InitInv(e: Ends)
    requires Room(e)
    ensures Inv(InitHeap(e))
  {
    InitTile(e);
    InitBinsMatch(e);
  }

  lemma InitBins(a: int, slot: int)
    requires 0 <= slot < NUM_SIZES
    ensures BinsMatch(EmptyBins()[slot := [a]], map[a := slot])
  {
    var bins := EmptyBins()[slot := [a]];
    forall x, k | 0 <= k < NUM_SIZES ensures x in bins[k] <==> x in map[a := slot] && map[a := slot][x] == k {
    }
  }

  /** A heap with no live block is the initial heap. */
  lemma NoLiveMeansInitial(h: Heap)
    requires Inv(h) && Room(h.ends) && forall a :: !Live(h, a)
    ensures h == InitHeap(h.ends)
  {
    var e, hdr := h.ends, h.hdr;
    var second := e.first + CHUNK;
    assert Forward(hdr, e, e.first);
    assert !Live(h, second);
    FreeChunk(h, second);
    assert !Live(h, hdr[second].next);
    assert hdr[second].next == e.last;
    forall c | c in hdr ensures c == e.first || c == second || c == e.last {
      assert e.first < c ==> Apart(hdr, e.first, c);
      assert second < c ==> Apart(hdr, second, c);
    }
    assert hdr.Keys == {e.first, second, e.last};
    assert Forward(hdr, e, second) && Backward(hdr, e.last);
    assert hdr == InitHeap(e).hdr;
    SingleBin(h.bins, FreeSlots(hdr), second);
    assert h.bins == InitHeap(e).bins;
  }

  // Bins that match a single free chunk.
  lemma SingleBin(bins: seq<seq<int>>, free: map<int, int>, a: int)
    requires BinsMatch(bins, free) && free.Keys == {a}
    ensures 0 <= free[a] < NUM_SIZES && bins == EmptyBins()[free[a] := [a]]
  {
    assert a in free;
    forall k | 0 <= k < NUM_SIZES ensures bins[k] == if k == free[a] then [a] else [] {
      forall i | 0 <= i < |bins[k]| ensures bins[k][i] == a && k == free[a] {
        BinMember(bins, free, k, bins[k][i]);
      }
      assert k == free[a] ==> a in bins[k];
      OneValue(bins[k], a);
    }
  }

  lemma {:induction false} DistinctLength(s: seq<int>)
    requires Distinct(s)
    ensures |s| == |set x | x in s|
  {
    if s != [] {
      DistinctLength(s[1..]);
      assert s == [s[0]] + s[1..];
      assert (set x | x in s) == {s[0]} + (set x | x in s[1..]);
    }
  }

  lemma OneValue(s: seq<int>, a: int)
    requires Distinct(s) && forall i :: 0 <= i < |s| ==> s[i] == a
    ensures s == [] || s == [a]
  {
    DistinctLength(s);
    if s != [] {
      assert (set x | x in s) == {a};
    }
  }

  lemma BinMember(bins: seq<seq<int>>, free: map<int, int>, k: int, x: int)
    requires BinsMatch(bins, free) && 0 <= k < NUM_SIZES && x in bins[k]
    ensures x in free && free[x] == k
  {
  }

  datatype Event = MallocCall(request: int) | FreeCall(block: int)

  // Freeing anything but a live block is not a legal call (only NULL is ignored); such events are skipped.
  ghost function Next(h: Heap, e: Event): (r: Heap)
    requires Inv(h)
    ensures Inv(r) && r.ends == h.ends
  {
    match e
    case MallocCall(request) =>
      if 0 <= request < W32 then MallocKeepsInv(h, request); Malloc(h, request).0 else h
    case FreeCall(block) =>
      if Live(h, block - HEADER) then FreeKeepsInv(h, block); Free(h, block) else h
  }

  ghost function Exec(h: Heap, es: seq<Event>): (r: Heap)
    requires Inv(h)
    ensures Inv(r) && r.ends == h.ends
  {
    if es == [] then h else Next(Exec(h, es[..|es| - 1]), es[|es| - 1])
  }

  /** After any run of allocations and releases, in any order, in which every live block has been freed, the
      heap is again the single initial free chunk. */
  lemma AllFreedIsInitial(e: Ends, es: seq<Event>)
    requires Room(e)
    ensures Inv(InitHeap(e))
    ensures (forall a :: !Live(Exec(InitHeap(e), es), a)) ==> Exec(InitHeap(e), es) == InitHeap(e)
  {
    InitInv(e);
    var f := Exec(InitHeap(e), es);
    if forall a :: !Live(f, a) {
      NoLiveMeansInitial(f);
    }
  }

  // ----- Conservation -----

  // The payload bytes and the number of the chunks from a up to the last sentinel.
  ghost function Payload(hdr: map<int, Hdr>, e: Ends, a: int): (int, int)
    requires Tile(hdr, e) && a in hdr
    decreases e.last - a
  {
    if a == e.last then (0, 0)
    else
      assert Forward(hdr, e, a);
      var (bytes, count) := Payload(hdr, e, hdr[a].next);
      (Size(hdr, a) + bytes, 1 + count)
  }

  ghost function From(hdr: map<int, Hdr>, e: Ends, a: int): set<int> {
    set c | c in hdr && a <= c < e.last
  }

  lemma {:induction false} PayloadSum(hdr: map<int, Hdr>, e: Ends, a: int)
    requires Tile(hdr, e) && a in hdr
    ensures Payload(hdr, e, a).0 == e.last - a - HEADER * |From(hdr, e, a)|
    ensures Payload(hdr, e, a).1 == |From(hdr, e, a)|
    decreases e.last - a
  {
    if a == e.last {
      assert From(hdr, e, a) == {};
    } else {
      assert Forward(hdr, e, a);
      var n := hdr[a].next;
      PayloadSum(hdr, e, n);
      forall c | c in hdr && a <= c < e.last ensures c == a || n <= c {
        assert a < c ==> Apart(hdr, a, c);
      }
      assert From(hdr, e, a) == {a} + From(hdr, e, n);
    }
  }

  /** In every reachable heap the metadata count and the payload bytes of all chunks between the sentinels
      add up to the length of the heap. */
  lemma Conservation(h: Heap)
    requires Inv(h)
    ensures h.ends.first + CHUNK in h.hdr
    ensures h.meta + Payload(h.hdr, h.ends, h.ends.first + CHUNK).0 == h.ends.last + CHUNK - h.ends.first
  {
    var e, hdr := h.ends, h.hdr;
    assert Forward(hdr, e, e.first);
    var second := e.first + CHUNK;
    PayloadSum(hdr, e, second);
    forall c | c in hdr && c != e.first ensures second <= c {
      assert Apart(hdr, e.first, c);
    }
    assert From(hdr, e, second) == hdr.Keys - {e.first} - {e.last};
  }
}
