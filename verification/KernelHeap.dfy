/**
  The kernel heap (memory/kheap.c) with its pointers: chunk headers in an address-ordered circular list,
  and one circular list of free chunks per bin, threaded through the payload of the free chunks.
 */
module KernelHeap {

  import opened Basics
  import opened HeapModel

  // The list node of a chunk's free links lies at the start of its payload.
  function NodeOf(a: int): int {
    a + HEADER
  }

  // A circular list of the nodes of s, starting at s[0].
  ghost predicate Ring(next: map<int, int>, prev: map<int, int>, s: seq<int>) {
    forall i {:trigger LinkAt(next, prev, s, i)} :: 0 <= i < |s| ==> LinkAt(next, prev, s, i)
  }

  ghost predicate LinkAt(next: map<int, int>, prev: map<int, int>, s: seq<int>, i: int)
    requires 0 <= i < |s|
  {
    && NodeOf(s[i]) in next && NodeOf(s[i]) in prev
    && next[NodeOf(s[i])] == NodeOf(if i + 1 < |s| then s[i + 1] else s[0])
    && prev[NodeOf(s[i])] == NodeOf(if i > 0 then s[i - 1] else s[|s| - 1])
  }

  /** The links of the list nodes, and the list primitives. The null pointer is 0. */
  class FreeLinks {
    var next: map<int, int>
    var prev: map<int, int>

    constructor ()
      ensures next == map[] && prev == map[]
    {
      next, prev := map[], map[];
    }

    ghost predicate Alone(node: int)
      reads this
    {
      node in next && node in prev && next[node] == node && prev[node] == node
    }

    method ListInit(node: int)
      modifies this
      ensures next == old(next)[node := node] && prev == old(prev)[node := node]
    {
      next := next[node := node];
      prev := prev[node := node];
    }

    // insert_before, in front of the first node of a ring.
    method InsertBefore(current: int, node: int, ghost s: seq<int>, ghost a: int)
      requires s != [] && Ring(next, prev, s) && Distinct(s) && current == NodeOf(s[0])
      requires Alone(node) && node == NodeOf(a) && a !in s
      modifies this
      ensures Ring(next, prev, [a] + s)
      ensures next.Keys == old(next.Keys) && prev.Keys == old(prev.Keys)
      ensures forall x :: x in next && x - HEADER !in s && x != node ==> next[x] == old(next)[x]
      ensures forall x :: x in prev && x - HEADER !in s && x != node ==> prev[x] == old(prev)[x]
    {
      assert LinkAt(next, prev, s, 0);
      assert LinkAt(next, prev, s, |s| - 1);
      var currentPrev := prev[current];
      var newPrev := prev[node];
      next := next[currentPrev := node];
      prev := prev[node := currentPrev];
      next := next[newPrev := current];
      prev := prev[current := newPrev];
      PushedRing(old(next), old(prev), next, prev, s, a);
    }

    // remove: unlinks the node at position i and leaves it alone.
    method RemoveNode(node: int, ghost s: seq<int>, ghost i: nat)
      requires i < |s| && Ring(next, prev, s) && Distinct(s) && node == NodeOf(s[i])
      modifies this
      ensures Ring(next, prev, s[..i] + s[i + 1..]) && Alone(node)
      ensures next.Keys == old(next.Keys) && prev.Keys == old(prev.Keys)
      ensures forall x :: x in next && x - HEADER !in s ==> next[x] == old(next)[x]
      ensures forall x :: x in prev && x - HEADER !in s ==> prev[x] == old(prev)[x]
    {
      RingNeighbours(next, prev, s, i);
      var p, n := prev[node], next[node];
      next := next[p := n];
      prev := prev[n := p];
      next := next[node := node];
      prev := prev[node := node];
      RemovedRing(old(next), old(prev), next, prev, s, i);
    }
  }

  // The neighbours of a node are nodes of the ring.
  lemma RingNeighbours(next: map<int, int>, prev: map<int, int>, s: seq<int>, i: nat)
    requires i < |s| && Ring(next, prev, s)
    ensures var node := NodeOf(s[i]);
      && node in next && node in prev && next[node] in prev && prev[node] in next
      && next[node] - HEADER in s && prev[node] - HEADER in s
  {
    assert LinkAt(next, prev, s, i);
    assert LinkAt(next, prev, s, if i + 1 < |s| then i + 1 else 0);
    assert LinkAt(next, prev, s, if i > 0 then i - 1 else |s| - 1);
  }

  // The four assignments of insert_before at the head of a ring.
  lemma PushedRing(next: map<int, int>, prev: map<int, int>, next': map<int, int>, prev': map<int, int>, s: seq<int>,
                   a: int)
    requires s != [] && Ring(next, prev, s) && Distinct(s) && a !in s
    requires next' == next[NodeOf(s[|s| - 1]) := NodeOf(a)][NodeOf(a) := NodeOf(s[0])]
    requires prev' == prev[NodeOf(a) := NodeOf(s[|s| - 1])][NodeOf(s[0]) := NodeOf(a)]
    ensures Ring(next', prev', [a] + s)
  {
    var r := [a] + s;
    forall i | 0 <= i < |r| ensures LinkAt(next', prev', r, i) {
      if i > 0 {
        assert LinkAt(next, prev, s, i - 1);
      }
    }
  }

  // The assignments of remove on the node at position i.
  lemma RemovedRing(next: map<int, int>, prev: map<int, int>, next': map<int, int>, prev': map<int, int>, s: seq<int>,
                    i: nat)
    requires i < |s| && Ring(next, prev, s) && Distinct(s)
    requires var node := NodeOf(s[i]);
      && node in next && node in prev
      && next' == next[prev[node] := next[node]][node := node] && prev' == prev[next[node] := prev[node]][node := node]
    ensures Ring(next', prev', s[..i] + s[i + 1..])
  {
    var r := s[..i] + s[i + 1..];
    assert LinkAt(next, prev, s, i);
    forall j | 0 <= j < |r| ensures LinkAt(next', prev', r, j) {
      var o := if j < i then j else j + 1;
      assert LinkAt(next, prev, s, o);
    }
  }

  lemma {:induction false} RemoveOneAt(s: seq<int>, i: nat)
    requires i < |s| && Distinct(s)
    ensures RemoveOne(s, s[i]) == s[..i] + s[i + 1..]
  {
    if i > 0 {
      assert s[0] != s[i];
      RemoveOneAt(s[1..], i - 1);
      assert s[1..][i - 1] == s[i];
      assert s[..i] + s[i + 1..] == [s[0]] + (s[1..][..i - 1] + s[1..][i..]);
    }
  }

  function InitEnds(heapStart: int, heapEnd: int): Ends {
    Ends((heapStart + 3) / 4 * 4, heapEnd / 4 * 4 - CHUNK)
  }

  lemma NoFreeBins()
    ensures BinsMatch(EmptyBins(), map[])
  {
  }

  /** memory_chunk_slot: the loop counts the halvings. */
  method ChunkSlot(size: int) returns (n: int)
    requires 0 <= size
    ensures n == Slot(size)
  {
    n := -1;
    var rest := size;
    while rest > 0
      invariant 0 <= rest && -1 <= n
      invariant Slot(size) == n + 1 + Slot(rest)
    {
      n := n + 1;
      rest := rest / 2;
    }
  }

  // The head pointer of bin k and its circular list.
  ghost predicate BinRing(next: map<int, int>, prev: map<int, int>, bins: seq<seq<int>>, heads: seq<int>, k: int)
    requires 0 <= k < |bins| == |heads|
  {
    heads[k] == (if bins[k] == [] then 0 else bins[k][0]) && Ring(next, prev, bins[k])
  }

  ghost predicate Rings(next: map<int, int>, prev: map<int, int>, bins: seq<seq<int>>, heads: seq<int>) {
    && |bins| == |heads| == NUM_SIZES
    && forall k {:trigger BinRing(next, prev, bins, heads, k)} ::
       0 <= k < NUM_SIZES ==> BinRing(next, prev, bins, heads, k)
  }

  // The links outside the nodes of s and the node of a are as before.
  ghost predicate SameElsewhere(links: map<int, int>, links': map<int, int>, s: seq<int>, a: int) {
    && links.Keys <= links'.Keys
    && forall x :: x in links && x - HEADER !in s && x != NodeOf(a) ==> links'[x] == links[x]
  }

  // A chunk of another bin is neither in bin k nor the chunk a.
  lemma OtherBin(bins: seq<seq<int>>, free: map<int, int>, k: int, a: int, j: int, x: int)
    requires BinsMatch(bins, free) && 0 <= k < NUM_SIZES && 0 <= j < NUM_SIZES && j != k && x in bins[j]
    requires a in free ==> free[a] == k
    ensures x !in bins[k] && x != a
  {
    BinMember(bins, free, j, x);
    if x in bins[k] {
      BinMember(bins, free, k, x);
    }
  }

  lemma OtherRing(next: map<int, int>, prev: map<int, int>, next': map<int, int>, prev': map<int, int>,
                  bins: seq<seq<int>>, free: map<int, int>, k: int, a: int, j: int)
    requires BinsMatch(bins, free) && 0 <= k < NUM_SIZES && 0 <= j < NUM_SIZES && j != k && (a in free ==> free[a] == k)
    requires Ring(next, prev, bins[j])
    requires SameElsewhere(next, next', bins[k], a) && SameElsewhere(prev, prev', bins[k], a)
    ensures Ring(next', prev', bins[j])
  {
    forall i | 0 <= i < |bins[j]| ensures LinkAt(next', prev', bins[j], i) {
      assert LinkAt(next, prev, bins[j], i);
      OtherBin(bins, free, k, a, j, bins[j][i]);
    }
  }

  // Updating bin k: its new ring, and links changed only at its nodes and at a.
  lemma UpdateRings(next: map<int, int>, prev: map<int, int>, next': map<int, int>, prev': map<int, int>,
                    bins: seq<seq<int>>, heads: seq<int>, free: map<int, int>, k: int, a: int, s: seq<int>, head: int)
    requires Rings(next, prev, bins, heads) && BinsMatch(bins, free) && 0 <= k < NUM_SIZES
      && (a in free ==> free[a] == k)
    requires SameElsewhere(next, next', bins[k], a) && SameElsewhere(prev, prev', bins[k], a)
    requires Ring(next', prev', s) && head == if s == [] then 0 else s[0]
    ensures Rings(next', prev', bins[k := s], heads[k := head])
  {
    var bins', heads' := bins[k := s], heads[k := head];
    forall j | 0 <= j < NUM_SIZES ensures BinRing(next', prev', bins', heads', j) {
      assert BinRing(next, prev, bins, heads, j);
      if j != k {
        OtherRing(next, prev, next', prev', bins, free, k, a, j);
      }
    }
  }

  /** The heap object: free_chunk[], the chunk headers, the free links and mem_meta. */
  class KHeap {
    var init: bool
    var hdr: map<int, Hdr>
    const heads: array<int>
    const links: FreeLinks
    var memMeta: int
    const ends: Ends
    ghost var bins: seq<seq<int>>

    ghost function View(): Heap
      reads this
    {
      Heap(hdr, bins, ends, memMeta)
    }

    ghost predicate Linked()
      reads this, heads, links
    {
      heads.Length == NUM_SIZES && Rings(links.next, links.prev, bins, heads[..])
    }

    ghost predicate Valid()
      reads this, heads, links
    {
      init && Linked() && Inv(View())
    }

    /** kheap_init: the heap bounds are rounded inwards to the alignment, and one free chunk is set up
        between the two sentinels. */
    constructor (heapStart: int, heapEnd: int)
      requires 0 < heapStart && Room(InitEnds(heapStart, heapEnd))
      ensures Valid() && fresh(heads) && fresh(links)
      ensures View() == InitHeap(InitEnds(heapStart, heapEnd))
    {
      ends := InitEnds(heapStart, heapEnd);
      heads := new int[NUM_SIZES](_ => 0);
      links := new FreeLinks();
      init, memMeta, bins := false, 0, EmptyBins();
      hdr := map[];
      new;
      SetUp();
    }

    method SetUp()
      requires Room(ends) && heads.Length == NUM_SIZES && (forall k :: 0 <= k < NUM_SIZES ==> heads[k] == 0)
      requires hdr == map[] && bins == EmptyBins() && links.next == map[] && links.prev == map[]
      modifies this, heads, links
      ensures Valid() && View() == InitHeap(ends)
    {
      var second := ends.first + CHUNK;
      SetUpHeaders();
      var n := ChunkSlot(ends.last - second - HEADER);
      SlotBelow32(ends.last - second - HEADER);
      SetUpBins(n, second);
      memMeta := CHUNK * 2 + HEADER;
      init := true;
      InitialState(hdr, bins, ends, memMeta, n);
      InitInv(ends);
    }

    method SetUpBins(n: int, second: int)
      requires heads.Length == NUM_SIZES && (forall k :: 0 <= k < NUM_SIZES ==> heads[k] == 0)
      requires bins == EmptyBins() && links.next == map[] && links.prev == map[] && 0 <= n < NUM_SIZES && second != 0
      modifies this`bins, heads, links
      ensures Linked() && bins == EmptyBins()[n := [second]]
    {
      links.ListInit(NodeOf(second));
      NoFreeBins();
      EmptyRings(links.next, links.prev, heads[..]);
      ListPush(n, second, map[]);
      FirstBins(n, second);
    }

    // The three chunk headers and the two insertions of kheap_init.
    method SetUpHeaders()
      requires Room(ends)
      modifies this`hdr
      ensures hdr == InitHeap(ends).hdr
    {
      var first, second, last := ends.first, ends.first + CHUNK, ends.last;
      hdr := map[first := Hdr(first, first, false)];
      hdr := hdr[second := Hdr(second, second, false)];
      hdr := hdr[last := Hdr(last, last, false)];
      LinkAfter(first, second);
      LinkAfter(second, last);
      hdr := hdr[first := hdr[first].(used := true)];
      hdr := hdr[last := hdr[last].(used := true)];
    }

    // insert_after on the list of all chunks, for a header that is alone.
    method LinkAfter(a: int, b: int)
      requires a in hdr && hdr[a].next in hdr && b in hdr && hdr[b].next == hdr[b].prev == b && a != b
        && hdr[a].next != b
      modifies this`hdr
      ensures var n := old(hdr)[a].next;
        && (n != a ==>
           hdr == old(hdr)[a := old(hdr)[a].(next := b)][n := old(hdr)[n].(prev := b)][b := Hdr(n, a,
             old(hdr)[b].used)])
        && (n == a ==> hdr == old(hdr)[a := old(hdr)[a].(next := b, prev := b)][b := Hdr(a, a, old(hdr)[b].used)])
    {
      var currentNext := hdr[a].next;
      var newPrev := hdr[b].prev;
      hdr := hdr[a := hdr[a].(next := b)];
      hdr := hdr[b := hdr[b].(prev := a)];
      hdr := hdr[newPrev := hdr[newPrev].(next := currentNext)];
      hdr := hdr[currentNext := hdr[currentNext].(prev := newPrev)];
    }

    // remove on the list of all chunks; the header stops being one.
    method Unlink(x: int)
      requires x in hdr && hdr[x].prev in hdr && hdr[x].next in hdr && hdr[x].prev != x && hdr[x].next != x
      modifies this`hdr
      ensures hdr == RemoveHdr(old(hdr), x)
    {
      var p, n := hdr[x].prev, hdr[x].next;
      hdr := hdr[p := hdr[p].(next := n)];
      hdr := hdr[n := hdr[n].(prev := p)];
      hdr := hdr - {x};
    }

    // memory_chunk_init on the header b, followed by insert_after.
    method SplitOff(a: int, b: int)
      requires a in hdr && hdr[a].next in hdr && b !in hdr && hdr[a].next != a
      modifies this`hdr
      ensures hdr == InsertAfter(old(hdr), a, b)
    {
      hdr := hdr[b := Hdr(b, b, false)];
      LinkAfter(a, b);
    }

    // LIST_PUSH on free_chunk[k].
    method ListPush(k: int, a: int, ghost free: map<int, int>)
      requires Linked() && 0 <= k < NUM_SIZES && BinsMatch(bins, free) && a !in free && a != 0 && 0 !in free
      requires links.Alone(NodeOf(a))
      modifies this`bins, heads, links
      ensures Linked() && bins == PushBin(old(bins), k, a)
      ensures forall x :: old(links.Alone(x)) && x - HEADER !in old(bins[k]) && x != NodeOf(a) ==> links.Alone(x)
    {
      ghost var next, prev, heads0, s := links.next, links.prev, heads[..], bins[k];
      assert BinRing(next, prev, bins, heads0, k);
      assert a !in s;
      if heads[k] != 0 {
        links.InsertBefore(NodeOf(heads[k]), NodeOf(a), s, a);
      } else {
        if s != [] { BinMember(bins, free, k, s[0]); }
        assert [a] + s == [a];
        assert LinkAt(links.next, links.prev, [a], 0);
      }
      UpdateRings(next, prev, links.next, links.prev, bins, heads0, free, k, a, [a] + s, a);
      heads[k] := a;
      bins := PushBin(bins, k, a);
      assert heads[..] == heads0[k := a];
    }

    // LIST_POP on free_chunk[k].
    method ListPop(k: int, ghost free: map<int, int>) returns (a: int)
      requires Linked() && 0 <= k < NUM_SIZES && BinsMatch(bins, free) && bins[k] != []
      modifies this`bins, heads, links
      ensures Linked() && a == old(bins[k])[0] && bins == old(bins)[k := old(bins[k])[1..]]
      ensures links.Alone(NodeOf(a))
    {
      ghost var next, prev, heads0, s := links.next, links.prev, heads[..], bins[k];
      assert BinRing(next, prev, bins, heads0, k);
      a := heads[k];
      assert a in s;
      assert LinkAt(next, prev, s, 0);
      var nextTop := links.next[NodeOf(a)];
      links.RemoveNode(NodeOf(a), s, 0);
      assert s[..0] + s[1..] == s[1..];
      var head := if nextTop == NodeOf(a) then 0 else nextTop - HEADER;
      UpdateRings(next, prev, links.next, links.prev, bins, heads0, free, k, a, s[1..], head);
      heads[k] := head;
      bins := bins[k := bins[k][1..]];
      assert heads[..] == heads0[k := head];
    }

    // LIST_REMOVE_FROM on free_chunk[k].
    method ListRemove(k: int, a: int, ghost free: map<int, int>)
      requires Linked() && 0 <= k < NUM_SIZES && BinsMatch(bins, free) && a in free && free[a] == k
      modifies this`bins, heads, links
      ensures Linked() && bins == RemoveBin(old(bins), k, a)
      ensures links.Alone(NodeOf(a))
    {
      ghost var next, prev, heads0, s := links.next, links.prev, heads[..], bins[k];
      assert BinRing(next, prev, bins, heads0, k);
      assert a in s;
      ghost var i :| 0 <= i < |s| && s[i] == a;
      RemoveOneAt(s, i);
      if heads[k] == a {
        assert s[0] == a;
        var top := ListPop(k, free);
        assert RemoveOne(s, a) == s[1..];
      } else {
        assert s[0] != a;
        links.RemoveNode(NodeOf(a), s, i);
        UpdateRings(next, prev, links.next, links.prev, bins, heads0, free, k, a, RemoveOne(s, a), heads[k]);
        bins := RemoveBin(bins, k, a);
        assert heads[..] == heads0[k := heads[k]];
      }
    }

    /** kmalloc. The block address is read from the data field of the chunk, which shares its place with
        the next link of the free node: the link points to the node itself after the removal. */
    method Kmalloc(request: int) returns (p: int)
      requires 0 <= request < W32 && (init ==> Valid())
      modifies this, heads, links
      ensures init == old(init) && (init ==> Valid())
      ensures !init ==> p == 0 && View() == old(View())
      ensures init ==> View() == Malloc(old(View()), request).0
      ensures init ==> Malloc(old(View()), request).1 == if p == 0 then None else Some(p)
    {
      if !init {
        return 0;
      }
      ghost var h := View();
      var size := RoundRequest(request);
      p := Allocate(size);
      MallocResult(h, request);
    }

    method RoundRequest(request: int) returns (size: int)
      requires 0 <= request < W32
      ensures size == Rounded(request)
    {
      size := (request + 3) % W32 / 4 * 4;
      if size < MIN_SIZE {
        size := MIN_SIZE;
      }
    }

    // The part of kmalloc that follows the rounding.
    method Allocate(size: int) returns (p: int)
      requires Valid() && MIN_SIZE <= size && size % 4 == 0
      modifies this`hdr, this`memMeta, this`bins, heads, links
      ensures Valid()
      ensures ChosenBin(old(View()), size) == -1 ==> p == 0 && View() == old(View())
      ensures var k := ChosenBin(old(View()), size);
        k != -1 ==> View() == TakeFor(old(View()), k, size) && p == old(bins)[k][0] + HEADER && p != 0
    {
      ghost var h := View();
      ChosenIs(h, size);
      var slot := ChunkSlot(size - 1);
      var n := slot + 1;
      if n >= NUM_SIZES {
        return 0;
      }
      n := SearchBins(n);
      assert n == ChosenBin(h, size);
      if n == -1 {
        return 0;
      }
      p := TakeBlock(n, size);
    }

    // The search for a non-empty bin.
    method SearchBins(from: int) returns (n: int)
      requires Valid() && 0 <= from < NUM_SIZES
      ensures n == FindBin(bins, from)
    {
      n := from;
      assert BinRing(links.next, links.prev, bins, heads[..], n);
      BinHeads(n);
      while heads[n] == 0
        invariant 0 <= n < NUM_SIZES
        invariant FindBin(bins, n) == FindBin(bins, from)
        invariant heads[n] == 0 <==> bins[n] == []
        decreases NUM_SIZES - n
      {
        n := n + 1;
        if n >= NUM_SIZES {
          return -1;
        }
        BinHeads(n);
      }
    }

    // A bin is empty exactly when its head is null.
    lemma BinHeads(n: int)
      requires Valid() && 0 <= n < NUM_SIZES
      ensures heads[n] == 0 <==> bins[n] == []
      ensures bins[n] != [] ==> heads[n] == bins[n][0]
    {
      assert BinRing(links.next, links.prev, bins, heads[..], n);
      FreeNotNull(View());
      if bins[n] != [] {
        BinMember(bins, FreeSlots(hdr), n, bins[n][0]);
      }
    }

    // From LIST_POP to the end of kmalloc.
    method TakeBlock(n: int, size: int) returns (p: int)
      requires Valid() && 0 <= n < NUM_SIZES && bins[n] != [] && MIN_SIZE <= size && size % 4 == 0
      modifies this`hdr, this`memMeta, this`bins, heads, links
      ensures Valid() && p != 0
      ensures View() == TakeFor(old(View()), n, size) && p == old(bins[n])[0] + HEADER
    {
      ghost var h := View();
      HeadOfBin(h, n);
      FreeNotNull(h);
      TakeKeepsInv(h, n, size);
      ghost var a := h.bins[n][0];
      if Splits(size, Size(h.hdr, a)) {
        RestHasSlot(size, Size(h.hdr, a));
        SplitKeepsTile(h.hdr, h.ends, a, size);
      }
      p := Carve(n, size, FreeSlots(hdr));
    }

    // The statements of TakeBlock, on the fields alone.
    method Carve(n: int, size: int, ghost free: map<int, int>) returns (p: int)
      requires Linked() && BinsMatch(bins, free) && 0 !in free && 0 <= n < NUM_SIZES && bins[n] != []
      requires bins[n][0] in hdr && hdr[bins[n][0]].next in hdr && hdr[bins[n][0]].next != bins[n][0]
      requires Splits(size, Size(hdr, bins[n][0])) ==>
        && 0 <= Slot(Size(hdr, bins[n][0]) - size - HEADER) < NUM_SIZES
        && bins[n][0] + HEADER + size !in hdr && bins[n][0] + HEADER + size !in free
        && 0 < bins[n][0] + HEADER + size && HEADER + size != 0
      modifies this`hdr, this`memMeta, this`bins, heads, links
      ensures Linked() && p == old(bins[n])[0] + HEADER
      ensures View() == if Splits(size, old(Size(hdr, bins[n][0])))
        then TakeFront(old(View()), n, old(bins[n])[0], size)
                        else TakeWhole(old(View()), n, old(bins[n])[0])
    {
      PopMatches(bins, free, n);
      var chunk := ListPop(n, free);
      var size2 := hdr[chunk].next - chunk - HEADER;
      if size + CHUNK <= size2 {
        var chunk2 := chunk + HEADER + size;
        SplitOff(chunk, chunk2);
        var len := size2 - size - HEADER;
        var k := ChunkSlot(len);
        PushRest(k, chunk, chunk2, free - {chunk});
        memMeta := memMeta + HEADER;
      }
      hdr := hdr[chunk := hdr[chunk].(used := true)];
      p := links.next[NodeOf(chunk)];
    }

    // LIST_INIT and LIST_PUSH of the second half of a split chunk.
    method PushRest(k: int, chunk: int, chunk2: int, ghost free: map<int, int>)
      requires Linked() && 0 <= k < NUM_SIZES && BinsMatch(bins, free) && 0 !in free && 0 != chunk2
      requires chunk !in free && chunk2 !in free && chunk != chunk2 && links.Alone(NodeOf(chunk))
      modifies this`bins, heads, links
      ensures Linked() && bins == PushBin(old(bins), k, chunk2) && links.Alone(NodeOf(chunk))
    {
      NewNode(chunk2, free);
      if chunk in bins[k] { BinMember(bins, free, k, chunk); }
      ListPush(k, chunk2, free);
    }

    // LIST_INIT of the free node of a chunk that is in no bin.
    method NewNode(a: int, ghost free: map<int, int>)
      requires Linked() && BinsMatch(bins, free) && a !in free
      modifies links
      ensures Linked() && links.Alone(NodeOf(a))
      ensures links.next == old(links.next)[NodeOf(a) := NodeOf(a)]
        && links.prev == old(links.prev)[NodeOf(a) := NodeOf(a)]
    {
      ghost var next, prev := links.next, links.prev;
      links.ListInit(NodeOf(a));
      InitKeepsRings(next, prev, bins, heads[..], free, a);
    }

    /** kfree. NULL is ignored; any other pointer must be a live block. */
    method Kfree(ptr: int)
      requires init ==> Valid()
      requires init && ptr != 0 ==> Live(View(), ptr - HEADER)
      modifies this, heads, links
      ensures init == old(init) && (init ==> Valid())
      ensures !init || ptr == 0 ==> View() == old(View())
      ensures init && ptr != 0 ==> View() == Free(old(View()), ptr)
    {
      if !init || ptr == 0 {
        return;
      }
      var chunk := ptr - HEADER;
      ghost var h := View();
      FreeStep1Inv(h, chunk);
      MergeNext(chunk);
      ghost var m := View();
      assert m == FreeStep1(h, chunk);
      LiveSize(m, chunk);
      var prev := hdr[chunk].prev;
      if !hdr[prev].used {
        JoinedSize(m, chunk);
        MergePrev(chunk);
      } else {
        Release(chunk);
      }
    }

    // The first half of kfree: a free chunk behind is joined to this one.
    method MergeNext(chunk: int)
      requires Valid() && Live(View(), chunk)
      modifies this`hdr, this`memMeta, this`bins, heads, links
      ensures Valid() && View() == FreeStep1(old(View()), chunk)
    {
      ghost var h := View();
      LiveSize(h, chunk);
      FreeStep1Inv(h, chunk);
      var next := hdr[chunk].next;
      if !hdr[next].used {
        FreeChunk(h, next);
        RemoveKeepsTile(h.hdr, h.ends, next);
        TakeOut(next, FreeSlots(hdr));
      }
    }

    // A free chunk leaves its bin and the list of all chunks.
    method TakeOut(x: int, ghost free: map<int, int>)
      requires Linked() && BinsMatch(bins, free) && x in free && x in hdr && free[x] == Slot(Size(hdr, x))
        && x < hdr[x].next
      requires hdr[x].prev in hdr && hdr[x].next in hdr && hdr[x].prev < x && HEADER <= hdr[x].next - x
      modifies this`hdr, this`memMeta, this`bins, heads, links
      ensures Linked() && hdr == RemoveHdr(old(hdr), x) && memMeta == old(memMeta) - HEADER
      ensures bins == RemoveBin(old(bins), Slot(Size(old(hdr), x)), x)
    {
      var n := ChunkSlot(hdr[x].next - x - HEADER);
      ListRemove(n, x, free);
      Unlink(x);
      memMeta := memMeta - HEADER;
    }

    // The second half of kfree when the chunk in front is free.
    method MergePrev(chunk: int)
      requires Valid() && Live(View(), chunk) && CanJoin(View(), chunk)
      requires !hdr[hdr[chunk].prev].used && hdr[hdr[chunk].next].used
      modifies this`hdr, this`memMeta, this`bins, heads, links
      ensures Valid() && View() == JoinPrev(old(View()), chunk)
    {
      ghost var h := View();
      JoinInv(h, chunk);
      JoinIsReady(h, chunk);
      JoinCode(chunk, FreeSlots(h.hdr));
      assert View() == JoinPrev(h, chunk);
    }

    // The statements of MergePrev, on the fields alone.
    method JoinCode(chunk: int, ghost free: map<int, int>)
      requires Linked() && JoinReady(hdr, bins, free, chunk)
      modifies this`hdr, this`memMeta, this`bins, heads, links
      ensures Linked() && hdr == RemoveHdr(old(hdr), chunk) && memMeta == old(memMeta) - HEADER
      ensures var p := old(hdr)[chunk].prev;
        bins == PushBin(RemoveBin(old(bins), Slot(Size(old(hdr), p)), p), Slot(old(hdr)[chunk].next - p - HEADER), p)
    {
      var prev := hdr[chunk].prev;
      var n := ChunkSlot(hdr[prev].next - prev - HEADER);
      RemoveMatches(bins, free, prev);
      ListRemove(n, prev, free);
      Unlink(chunk);
      var k := ChunkSlot(hdr[prev].next - prev - HEADER);
      ListPush(k, prev, free - {prev});
      memMeta := memMeta - HEADER;
    }

    // The second half of kfree when the chunk in front is used.
    method Release(chunk: int)
      requires Valid() && Live(View(), chunk)
      requires hdr[chunk].prev in hdr && hdr[hdr[chunk].prev].used && hdr[chunk].next in hdr
        && hdr[hdr[chunk].next].used
      modifies this`hdr, this`bins, heads, links
      ensures Valid() && View() == MarkFree(old(View()), chunk)
    {
      ghost var h := View();
      LiveSize(h, chunk);
      MarkFreeKeepsInv(h, chunk);
      FreeNotNull(h);
      ReleaseCode(chunk, FreeSlots(h.hdr));
      assert View() == MarkFree(h, chunk);
    }

    // The statements of Release, on the fields alone.
    method ReleaseCode(chunk: int, ghost free: map<int, int>)
      requires Linked() && BinsMatch(bins, free) && 0 !in free && chunk != 0 && chunk in hdr && chunk !in free
      requires HEADER <= hdr[chunk].next - chunk && 0 <= Slot(Size(hdr, chunk)) < NUM_SIZES
      modifies this`hdr, this`bins, heads, links
      ensures Linked() && hdr == old(hdr)[chunk := old(hdr)[chunk].(used := false)]
      ensures bins == PushBin(old(bins), Slot(Size(old(hdr), chunk)), chunk)
    {
      hdr := hdr[chunk := hdr[chunk].(used := false)];
      NewNode(chunk, free);
      var n := ChunkSlot(hdr[chunk].next - chunk - HEADER);
      ListPush(n, chunk, free);
    }
  }

  // Initialising the node of a chunk that is in no bin touches no ring.
  lemma InitKeepsRings(next: map<int, int>, prev: map<int, int>, bins: seq<seq<int>>, heads: seq<int>,
                       free: map<int, int>, a: int)
    requires Rings(next, prev, bins, heads) && BinsMatch(bins, free) && a !in free
    ensures Rings(next[NodeOf(a) := NodeOf(a)], prev[NodeOf(a) := NodeOf(a)], bins, heads)
  {
    var next', prev' := next[NodeOf(a) := NodeOf(a)], prev[NodeOf(a) := NodeOf(a)];
    forall k | 0 <= k < NUM_SIZES ensures BinRing(next', prev', bins, heads, k) {
      assert BinRing(next, prev, bins, heads, k);
      forall i | 0 <= i < |bins[k]| ensures LinkAt(next', prev', bins[k], i) {
        assert LinkAt(next, prev, bins[k], i);
        BinMember(bins, free, k, bins[k][i]);
      }
    }
  }

  // The free chunks of a heap, as the list primitives need them.
  lemma FreeNotNull(h: Heap)
    requires Inv(h)
    ensures 0 !in FreeSlots(h.hdr) && BinsMatch(h.bins, FreeSlots(h.hdr)) && 0 !in h.hdr
  {
  }

  lemma InitialState(hdr: map<int, Hdr>, bins: seq<seq<int>>, e: Ends, meta: int, n: int)
    requires Room(e) && hdr == InitHeap(e).hdr && meta == CHUNK * 2 + HEADER
    requires n == Slot(e.last - (e.first + CHUNK) - HEADER) && 0 <= n < NUM_SIZES
    requires bins == EmptyBins()[n := [e.first + CHUNK]]
    ensures Heap(hdr, bins, e, meta) == InitHeap(e)
  {
  }

  lemma ChosenIs(h: Heap, size: int)
    requires |h.bins| == NUM_SIZES && size >= 2
    ensures var n := Slot(size - 1) + 1; ChosenBin(h, size) == if n >= NUM_SIZES then -1 else FindBin(h.bins, n)
  {
  }

  lemma MallocResult(h: Heap, request: int)
    requires Inv(h) && 0 <= request < W32
    ensures var k := ChosenBin(h, Rounded(request));
      && (k == -1 ==> Malloc(h, request).0 == h && Malloc(h, request).1 == None)
      && (k != -1 ==>
         Malloc(h, request).0 == TakeFor(h, k, Rounded(request)) && Malloc(h, request).1 == Some(h.bins[k][0] + HEADER))
  {
  }

  // What the statements of MergePrev rely on.
  ghost predicate JoinReady(hdr: map<int, Hdr>, bins: seq<seq<int>>, free: map<int, int>, a: int) {
    && BinsMatch(bins, free) && 0 !in free && a in hdr && hdr[a].prev in hdr && hdr[a].next in hdr
    && hdr[a].prev < a < hdr[a].next && hdr[a].prev in free
    && HEADER <= hdr[hdr[a].prev].next - hdr[a].prev && HEADER <= hdr[a].next - hdr[a].prev
    && free[hdr[a].prev] == Slot(Size(hdr, hdr[a].prev))
    && 0 <= Slot(hdr[a].next - hdr[a].prev - HEADER) < NUM_SIZES
  }

  lemma JoinIsReady(h: Heap, a: int)
    requires Inv(h) && CanJoin(h, a) && !h.hdr[h.hdr[a].prev].used
    ensures JoinReady(h.hdr, h.bins, FreeSlots(h.hdr), a)
  {
    FreeNotNull(h);
    SizesForJoin(h, a);
  }

  lemma SizesForJoin(h: Heap, a: int)
    requires Inv(h) && CanJoin(h, a) && !h.hdr[h.hdr[a].prev].used
    ensures HEADER <= h.hdr[h.hdr[a].prev].next - h.hdr[a].prev && HEADER <= h.hdr[a].next - h.hdr[a].prev
    ensures FreeSlots(h.hdr)[h.hdr[a].prev] == Slot(Size(h.hdr, h.hdr[a].prev))
  {
    FreeChunk(h, h.hdr[a].prev);
  }

  // The heap after a join, without its frame.
  lemma JoinInv(h: Heap, a: int)
    requires Inv(h) && Live(h, a) && CanJoin(h, a) && !h.hdr[h.hdr[a].prev].used && h.hdr[h.hdr[a].next].used
    ensures Inv(JoinPrev(h, a))
  {
    JoinedSize(h, a);
    JoinKeepsInv(h, a);
  }

  lemma FirstBins(n: int, a: int)
    requires 0 <= n < NUM_SIZES
    ensures PushBin(EmptyBins(), n, a) == EmptyBins()[n := [a]]
  {
    assert [a] + EmptyBins()[n] == [a];
  }

  lemma EmptyRings(next: map<int, int>, prev: map<int, int>, heads: seq<int>)
    requires |heads| == NUM_SIZES && forall k :: 0 <= k < NUM_SIZES ==> heads[k] == 0
    ensures Rings(next, prev, EmptyBins(), heads)
  {
    forall k | 0 <= k < NUM_SIZES ensures BinRing(next, prev, EmptyBins(), heads, k) {
    }
  }
}
