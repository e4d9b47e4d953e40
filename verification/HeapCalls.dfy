/**
  The two calls of the kernel heap (memory/kheap.c) in terms of what is asked for: how long a block is, when there is
  one, which chunk it comes from, and where the bins hold what is left and what is given back.
 */
module HeapCalls {

  import opened Basics
  import opened HeapModel

  // ----- Sizes -----

  // The bytes a block must hold: the rounding of a request beyond 2^32 - 4 wraps around to zero.
  function Asked(request: int): (bytes: int)
    ensures bytes >= MIN_SIZE
  {
    if MIN_SIZE < request <= W32 - 4 then request else MIN_SIZE
  }

  /** A request is rounded to the least multiple of 4 that holds it and that a chunk can have as its size. */
  lemma RoundedIsLeast(request: int, size: int)
    requires 0 <= request < W32
    ensures Rounded(request) % 4 == 0 && Asked(request) <= Rounded(request) < Asked(request) + 4
    ensures size % 4 == 0 && size >= Asked(request) ==> Rounded(request) <= size
  {
    if request <= W32 - 4 {
      assert (request + 3) % W32 == request + 3;
    }
  }

  // A free chunk of at least 2^k bytes, where 2^k bytes are enough for the request.
  ghost predicate Serves(h: Heap, request: int, a: int, k: nat) {
    a in h.hdr && !h.hdr[a].used && Asked(request) <= Pow2(k) <= Size(h.hdr, a)
  }

  lemma PowerHolds(request: int, k: nat)
    requires 0 <= request < W32
    ensures Asked(request) <= Pow2(k) <==> FirstBin(Rounded(request)) <= k
  {
    var n := FirstBin(Rounded(request));
    FirstBinIsCeiling(Rounded(request));
    RoundedIsLeast(request, Pow2(k));
    if k >= n {
      Pow2Mono(n, k);
    } else {
      Pow2Mono(k, n - 1);
      PowersOfFour(k);
    }
  }

  lemma {:induction false} PowersOfFour(k: nat)
    ensures k >= 2 ==> Pow2(k) % 4 == 0
    ensures k < 2 ==> Pow2(k) < MIN_SIZE
  {
    if k > 2 { PowersOfFour(k - 1); }
    assert Pow2(0) == 1 && Pow2(1) == 2 && Pow2(2) == 4;
  }

  /** kmalloc succeeds exactly when some free chunk holds a power of two that is enough for the request. */
  lemma MallocServes(h: Heap, request: int)
    requires Inv(h) && 0 <= request < W32
    ensures Malloc(h, request).1.Some? <==> exists a, k :: Serves(h, request, a, k)
    ensures Malloc(h, request).1.None? ==> Malloc(h, request).0 == h
  {
    var n := FirstBin(Rounded(request));
    MallocSucceedsIff(h, request);
    PowerHolds(request, n);
    if a :| a in h.hdr && !h.hdr[a].used && Size(h.hdr, a) >= Pow2(n) {
      assert Serves(h, request, a, n);
    }
    forall a, k: nat | Serves(h, request, a, k) ensures Size(h.hdr, a) >= Pow2(n) {
      PowerHolds(request, k);
      Pow2Mono(n, k);
    }
  }

  /** A block holds what was asked for. It is the front of a free chunk, cut off at the next multiple of 4, or the whole
      chunk when less than the 20 bytes of another chunk would be left. */
  lemma MallocSize(h: Heap, request: int, size: int)
    requires Inv(h) && 0 <= request < W32 && Malloc(h, request).1.Some?
    requires size % 4 == 0 && Asked(request) <= size < Asked(request) + 4
    ensures var (n, r) := Malloc(h, request);
      var a := r.value - HEADER;
      && a in h.hdr && !h.hdr[a].used && a in n.hdr && n.hdr[a].used
      && Size(n.hdr, a) == (if size + CHUNK <= Size(h.hdr, a) then size else Size(h.hdr, a)) >= Asked(request)
  {
    RoundedIsLeast(request, size);
    assert size == Rounded(request);
    MallocBlock(h, request);
    var k := ChosenBin(h, size);
    ChunkOfHead(h, k, size);
  }

  // ----- Bins -----

  // The bins when the head of bin k has been taken out; a free chunk b behind the block has entered its bin.
  ghost predicate Taken(h: Heap, n: Heap, a: int, k: int) {
    && a in n.hdr && n.hdr[a].next in n.hdr && |h.bins| == |n.bins| == NUM_SIZES
    && 0 <= k < NUM_SIZES && h.bins[k] != []
    && var b := n.hdr[a].next;
    forall j :: 0 <= j < NUM_SIZES ==>
      n.bins[j] == (if !n.hdr[b].used && j == Slot(Size(n.hdr, b)) then [b] else [])
        + (if j == k then h.bins[j][1..] else h.bins[j])
  }

  lemma FrontTaken(h: Heap, k: int, a: int, size: int)
    requires Inv(h) && 0 <= k < NUM_SIZES && h.bins[k] != [] && a in h.hdr && h.hdr[a].next in h.hdr
    requires 0 <= size && Splits(size, Size(h.hdr, a)) && 0 <= Slot(Size(h.hdr, a) - size - HEADER) < NUM_SIZES
    ensures Taken(h, TakeFront(h, k, a, size), a, k)
  {
    var n, b := TakeFront(h, k, a, size), a + HEADER + size;
    InsideIsFree(h.hdr, h.ends, a, b);
    assert n.hdr[a].next == b && !n.hdr[b].used && Size(n.hdr, b) == Size(h.hdr, a) - size - HEADER;
  }

  lemma TakenBins(h: Heap, k: int, size: int)
    requires Inv(h) && 0 <= k < NUM_SIZES && h.bins[k] != [] && MIN_SIZE <= size
    ensures Taken(h, TakeFor(h, k, size), h.bins[k][0], k)
  {
    var a := h.bins[k][0];
    HeadOfBin(h, k);
    ChunkOfHead(h, k, size);
    if Splits(size, Size(h.hdr, a)) { FrontTaken(h, k, a, size); }
  }

  /** The block comes from the head of the lowest bin that has a chunk that serves: no free chunk that is long enough
      has a smaller slot. That head leaves its bin, and what is cut off becomes the head of the bin of its own size. */
  lemma MallocPlace(h: Heap, request: int)
    requires Inv(h) && 0 <= request < W32 && Malloc(h, request).1.Some?
    ensures var (n, r) := Malloc(h, request);
      var a := r.value - HEADER;
      && a in h.hdr && !h.hdr[a].used
      && var slot := Slot(Size(h.hdr, a));
      && 0 <= slot < NUM_SIZES && h.bins[slot] != [] && h.bins[slot][0] == a
      && (forall c, k :: Serves(h, request, c, k) ==> slot <= Slot(Size(h.hdr, c)))
      && Taken(h, n, a, slot)
  {
    var size := Rounded(request);
    var k := ChosenBin(h, size);
    HeadOfBin(h, k);
    SlotAtLeast(Size(h.hdr, h.bins[k][0]), FirstBin(size));
    TakenBins(h, k, size);
    forall c, i: nat | Serves(h, request, c, i) ensures k <= Slot(Size(h.hdr, c)) {
      LowestServes(h, request, c, i);
    }
  }

  lemma LowestServes(h: Heap, request: int, c: int, i: nat)
    requires Inv(h) && 0 <= request < W32 && Serves(h, request, c, i) && ChosenBin(h, Rounded(request)) != -1
    ensures ChosenBin(h, Rounded(request)) <= Slot(Size(h.hdr, c))
  {
    PowerHolds(request, i);
    Pow2Mono(FirstBin(Rounded(request)), i);
    FreeChunk(h, c);
    SlotAtLeast(Size(h.hdr, c), FirstBin(Rounded(request)));
    assert c in h.bins[FreeSlots(h.hdr)[c]];
  }

  // What is left of a bin, in its order.
  function Sift(s: seq<int>, gone: set<int>): seq<int> {
    if s == [] then [] else (if s[0] in gone then [] else [s[0]]) + Sift(s[1..], gone)
  }

  lemma {:induction false} SiftNone(s: seq<int>, gone: set<int>)
    requires forall i :: 0 <= i < |s| ==> s[i] !in gone
    ensures Sift(s, gone) == s
  {
    if s != [] {
      SiftNone(s[1..], gone);
    }
  }

  lemma {:induction false} SiftTwo(s: seq<int>, x: int, y: int)
    ensures Sift(Sift(s, {x}), {y}) == Sift(s, {x, y})
  {
    if s != [] {
      SiftTwo(s[1..], x, y);
      var rest := Sift(s[1..], {x});
      if s[0] == x {
        assert Sift(s, {x}) == [] + rest == rest;
      } else {
        assert Sift(s, {x}) == [s[0]] + rest && ([s[0]] + rest)[1..] == rest;
        assert Sift([s[0]] + rest, {y}) == (if s[0] == y then [] else [s[0]]) + Sift(rest, {y});
      }
    }
  }

  lemma {:induction false} RemoveOneSifts(s: seq<int>, x: int)
    requires HeapModel.Distinct(s)
    ensures RemoveOne(s, x) == Sift(s, {x})
  {
    if s != [] {
      if s[0] == x {
        assert x !in s[1..];
        SiftNone(s[1..], {x});
        assert [] + s[1..] == s[1..];
      } else {
        RemoveOneSifts(s[1..], x);
      }
    }
  }

  // The bins after a chunk left its bin.
  lemma RemoveSifts(bins: seq<seq<int>>, free: map<int, int>, x: int, j: int)
    requires BinsMatch(bins, free) && x in free && 0 <= j < NUM_SIZES
    ensures RemoveBin(bins, free[x], x)[j] == Sift(bins[j], {x})
  {
    if j == free[x] {
      RemoveOneSifts(bins[j], x);
    } else {
      assert x !in bins[j];
      SiftNone(bins[j], {x});
    }
  }

  lemma UsedSifts(h: Heap, x: int, j: int)
    requires Inv(h) && 0 <= j < NUM_SIZES && (x in h.hdr ==> h.hdr[x].used)
    ensures Sift(h.bins[j], {x}) == h.bins[j]
  {
    assert x !in FreeSlots(h.hdr);
    SiftNone(h.bins[j], {x});
  }

  // The bins after the first half of kfree.
  lemma Step1Sifts(h: Heap, a: int, j: int)
    requires Inv(h) && Live(h, a) && 0 <= j < NUM_SIZES
    ensures |FreeStep1(h, a).bins| == NUM_SIZES && FreeStep1(h, a).bins[j] == Sift(h.bins[j], {h.hdr[a].next})
  {
    var x := h.hdr[a].next;
    LiveSize(h, a);
    if !h.hdr[x].used {
      FreeChunk(h, x);
      RemoveSifts(h.bins, FreeSlots(h.hdr), x, j);
    } else {
      UsedSifts(h, x, j);
    }
  }

  // The free chunk p reaches up to next and is the head of the bin of its size; in bin j the rest is as given.
  ghost predicate PutBack(n: Heap, p: int, next: int, j: int, rest: seq<int>) {
    && p in n.hdr && !n.hdr[p].used && n.hdr[p].next == next
    && 0 <= j < |n.bins| == NUM_SIZES
    && n.bins[j] == (if j == Slot(next - p - HEADER) then [p] else []) + rest
  }

  lemma JoinPuts(m: Heap, a: int, j: int)
    requires Inv(m) && Live(m, a) && m.hdr[a].prev in m.hdr && !m.hdr[m.hdr[a].prev].used && 0 <= j < NUM_SIZES
    ensures CanJoin(m, a)
    ensures PutBack(JoinPrev(m, a), m.hdr[a].prev, m.hdr[a].next, j, Sift(m.bins[j], {m.hdr[a].prev}))
  {
    var q := m.hdr[a].prev;
    LiveSize(m, a);
    JoinedSize(m, a);
    RemoveSifts(m.bins, FreeSlots(m.hdr), q, j);
    RemoveFrame(m.hdr, a);
  }

  lemma MarkPuts(m: Heap, a: int, j: int)
    requires Inv(m) && Live(m, a) && m.hdr[a].prev in m.hdr && m.hdr[m.hdr[a].prev].used && 0 <= j < NUM_SIZES
    ensures PutBack(MarkFree(m, a), a, m.hdr[a].next, j, Sift(m.bins[j], {m.hdr[a].prev}))
  {
    LiveSize(m, a);
    UsedSifts(m, m.hdr[a].prev, j);
  }

  /** kfree puts the chunk, joined with its free neighbours, at the head of the bin of its new size. The neighbours
      leave their bins, and every bin keeps its order. */
  lemma FreePlace(h: Heap, block: int, j: int)
    requires Inv(h) && Live(h, block - HEADER) && 0 <= j < NUM_SIZES
    ensures var c := h.hdr[block - HEADER];
      && c.prev in h.hdr && c.next in h.hdr
      && PutBack(Free(h, block), if h.hdr[c.prev].used then block - HEADER else c.prev,
           if h.hdr[c.next].used then c.next else h.hdr[c.next].next, j, Sift(h.bins[j], {c.next, c.prev}))
  {
    var a := block - HEADER;
    var m, q, x := FreeStep1(h, a), h.hdr[a].prev, h.hdr[a].next;
    LiveSize(h, a);
    FreeStep1Inv(h, a);
    LiveSize(m, a);
    if !h.hdr[x].used { AbsorbKeepsInv(h, a); }
    Step1Sifts(h, a, j);
    SiftTwo(h.bins[j], x, q);
    if !m.hdr[q].used { JoinPuts(m, a, j); } else { MarkPuts(m, a, j); }
  }
}
