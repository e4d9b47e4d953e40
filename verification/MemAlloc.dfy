/**
  The linked free-area list of the page and frame allocator (memory/memalloc.c), proved against the list of cells
  of FreeAreas. Nodes live at addresses; kmalloc may deliver any address that is no node's, also that of a node freed
  before, and a write through a wrong prev link goes wherever that link points.
 */
module MemAlloc {

  import opened Basics
  import opened FreeAreas
  import opened FreeAreaMerge
  import opened FreeAreaFit

  datatype Area = Area(start: int, size: int, next: int, prev: int)

  // ----- What the memory holds -----

  function NextNode(l: seq<Cell>, i: int): int
    requires 0 <= i < |l|
  {
    if i + 1 < |l| then l[i + 1].node else NULL
  }

  ghost predicate At(memory: map<int, Area>, l: seq<Cell>, i: int)
    requires 0 <= i < |l|
  {
    && l[i].node != NULL && l[i].node in memory
    && memory[l[i].node] == Area(l[i].start, l[i].size, NextNode(l, i), l[i].prev)
  }

  // The next links from the head run through the cells and end.
  ghost predicate Chain(memory: map<int, Area>, list: int, l: seq<Cell>) {
    && list == (if l == [] then NULL else l[0].node)
    && (forall i {:trigger At(memory, l, i)} :: 0 <= i < |l| ==> At(memory, l, i))
    && (forall i, j {:trigger TwoNodes(l, i, j)} :: 0 <= i < j < |l| ==> TwoNodes(l, i, j))
  }

  function Read(memory: map<int, Area>, a: int): Area {
    if a in memory then memory[a] else Area(0, 0, NULL, NULL)
  }

  // A node of the chain is met at one position only.
  lemma NodeIsAt(memory: map<int, Area>, list: int, l: seq<Cell>, i: nat, j: nat)
    requires Chain(memory, list, l) && i < |l| && j < |l| && l[i].node == l[j].node
    ensures i == j
  {
    assert i < j ==> TwoNodes(l, i, j);
    assert j < i ==> TwoNodes(l, j, i);
  }

  lemma Resized(memory: map<int, Area>, list: int, l: seq<Cell>, k: nat, start: int, size: int)
    requires Chain(memory, list, l) && k < |l|
    ensures l[k].node in memory
    ensures Chain(memory[l[k].node := memory[l[k].node].(start := start, size := size)], list,
      l[k := l[k].(start := start, size := size)])
  {
    assert At(memory, l, k);
    var m, r := memory[l[k].node := memory[l[k].node].(start := start, size := size)],
      l[k := l[k].(start := start, size := size)];
    forall i | 0 <= i < |r| ensures At(m, r, i) {
      assert At(memory, l, i);
      if i != k && l[i].node == l[k].node { NodeIsAt(memory, list, l, i, k); }
    }
    forall i, j | 0 <= i < j < |r| ensures TwoNodes(r, i, j) { assert TwoNodes(l, i, j); }
  }

  // A new node between the ones at k - 1 and k, either of which may be missing.
  function WithNode(memory: map<int, Area>, l: seq<Cell>, k: nat, start: int, size: int, node: int): map<int, Area>
    requires k <= |l|
  {
    var save, cursor := if k > 0 then l[k - 1].node else NULL, if k < |l| then l[k].node else NULL;
    var m1 := memory[node := Area(start, size, cursor, save)];
    var m2 := if save == NULL then m1 else m1[save := Read(m1, save).(next := node)];
    if cursor == NULL then m2 else m2[cursor := Read(m2, cursor).(prev := node)]
  }

  lemma NodeAdded(memory: map<int, Area>, list: int, l: seq<Cell>, k: nat, start: int, size: int, node: int)
    requires Chain(memory, list, l) && k <= |l| && node != NULL && Unused(l, node)
    ensures Chain(WithNode(memory, l, k, start, size, node), if k == 0 then node else list,
      LinkedAlone(l, k, start, size, node))
  {
    var m, r := WithNode(memory, l, k, start, size, node), LinkedAlone(l, k, start, size, node);
    if k > 0 { assert At(memory, l, k - 1); }
    if k < |l| { assert At(memory, l, k); }
    if 0 < k < |l| { assert TwoNodes(l, k - 1, k); }
    forall i | 0 <= i < |r| ensures At(m, r, i) {
      if i < k {
        assert At(memory, l, i);
        if i < k - 1 { assert TwoNodes(l, i, k - 1); }
        if k < |l| { assert TwoNodes(l, i, k); }
      } else if i > k {
        assert At(memory, l, i - 1);
        if k > 0 { assert TwoNodes(l, k - 1, i - 1); }
        if i > k + 1 { assert TwoNodes(l, k, i - 1); }
      }
    }
    forall i, j | 0 <= i < j < |r| ensures TwoNodes(r, i, j) {
      if i != k && j != k { assert TwoNodes(l, if i < k then i else i - 1, if j < k then j else j - 1); }
    }
  }

  // The two-sided merge.
  lemma NodeAbsorbed(memory: map<int, Area>, list: int, l: seq<Cell>, k: nat, size: int)
    requires Chain(memory, list, l) && 0 < k < |l|
    ensures l[k - 1].node in memory && l[k].node in memory
    ensures var save, cursor := memory[l[k - 1].node], memory[l[k].node];
      Chain(memory[l[k - 1].node := save.(size := (save.size + (size + cursor.size)) % W32, next := cursor.next)],
        list, Absorbed(l, k, size))
  {
    assert At(memory, l, k - 1) && At(memory, l, k);
    var save, cursor := memory[l[k - 1].node], memory[l[k].node];
    var m := memory[l[k - 1].node := save.(size := (save.size + (size + cursor.size)) % W32, next := cursor.next)];
    var r := Absorbed(l, k, size);
    forall i | 0 <= i < |r| ensures At(m, r, i) {
      var o := if i < k then i else i + 1;
      assert At(memory, l, o);
      if o != k - 1 && l[o].node == l[k - 1].node { NodeIsAt(memory, list, l, o, k - 1); }
    }
    forall i, j | 0 <= i < j < |r| ensures TwoNodes(r, i, j) {
      assert TwoNodes(l, if i < k then i else i + 1, if j < k then j else j + 1);
    }
  }

  // ----- remove_free -----

  // The memory and the head after the node at k has been unlinked through its own links.
  function Unlinked(memory: map<int, Area>, node: int): map<int, Area> {
    var area := Read(memory, node);
    var m1 := if area.next == NULL then memory else memory[area.next := Read(memory, area.next).(prev := area.prev)];
    if area.prev == NULL then m1 else m1[area.prev := Read(m1, area.prev).(next := area.next)]
  }

  function HeadAfter(memory: map<int, Area>, list: int, node: int): int {
    if Read(memory, node).prev == NULL then Read(memory, node).next else list
  }

  // The nodes other than the one the prev link names keep their next links, and the node behind gets the prev link.
  lemma UnlinkedAt(memory: map<int, Area>, list: int, l: seq<Cell>, k: nat, i: nat)
    requires Chain(memory, list, l) && k < |l| && i < |l|
    ensures var m := Unlinked(memory, l[k].node);
      && l[i].node in m
      && m[l[i].node] == Area(l[i].start, l[i].size, if l[i].node == l[k].prev then NextNode(l, k) else NextNode(l, i),
         if i == k + 1 then l[k].prev else l[i].prev)
  {
    assert At(memory, l, k) && At(memory, l, i);
    if k + 1 < |l| {
      assert At(memory, l, k + 1);
      if l[i].node == l[k + 1].node { NodeIsAt(memory, list, l, i, k + 1); }
    }
  }

  // Where the cells come from when everything between j and k is cut out, or nothing is (j == k).
  function Origin(k: int, j: int, i: int): int {
    if i <= j then i else i - j + k
  }

  lemma CutCellAt(l: seq<Cell>, k: nat, j: int, i: nat)
    requires -1 <= j <= k < |l| && i < |l| - k + j
    ensures |l[..j + 1] + Behind(l, k)| == |l| - k + j
    ensures var r, o := l[..j + 1] + Behind(l, k), Origin(k, j, i);
      && 0 <= o < |l| && r[i] == l[o].(prev := if o == k + 1 then l[k].prev else l[o].prev)
      && NextNode(r, i) == if i == j then NextNode(l, k) else NextNode(l, o)
  {
    BehindSame(l, k);
  }

  // Unlinking the node at k when its prev link names the node at j, none (j == -1), or no other node (j == k).
  lemma CutChain(memory: map<int, Area>, list: int, l: seq<Cell>, k: nat, j: int)
    requires Chain(memory, list, l) && -1 <= j <= k < |l|
    requires forall o :: 0 <= o < |l| && l[o].node == l[k].prev ==> o == j
    requires if j == k then l[k].prev != NULL else if j < 0 then l[k].prev == NULL else l[j].node == l[k].prev
    ensures Chain(Unlinked(memory, l[k].node), HeadAfter(memory, list, l[k].node), l[..j + 1] + Behind(l, k))
  {
    var m, r := Unlinked(memory, l[k].node), l[..j + 1] + Behind(l, k);
    assert At(memory, l, k);
    if j >= 0 { assert At(memory, l, j); }
    BehindSame(l, k);
    forall i | 0 <= i < |r| ensures At(m, r, i) {
      var o := Origin(k, j, i);
      CutCellAt(l, k, j, i);
      assert At(memory, l, o);
      UnlinkedAt(memory, list, l, k, o);
    }
    forall a, b | 0 <= a < b < |r| ensures TwoNodes(r, a, b) {
      CutCellAt(l, k, j, a);
      CutCellAt(l, k, j, b);
      assert TwoNodes(l, Origin(k, j, a), Origin(k, j, b));
    }
  }

  // Nodes from which the next links never lead to NULL.
  ghost predicate Endless(memory: map<int, Area>, nodes: set<int>) {
    forall a :: a in nodes ==> a != NULL && a in memory && memory[a].next in nodes
  }

  lemma {:induction false} EndlessFrom(memory: map<int, Area>, list: int, l: seq<Cell>, nodes: set<int>, i: nat)
    requires Chain(memory, list, l) && Endless(memory, nodes) && list in nodes && i < |l|
    ensures l[i].node in nodes
  {
    if i > 0 {
      EndlessFrom(memory, list, l, nodes, i - 1);
      assert At(memory, l, i - 1);
    }
  }

  lemma LastEnds(memory: map<int, Area>, list: int, l: seq<Cell>)
    requires Chain(memory, list, l) && l != []
    ensures l[|l| - 1].node in memory && memory[l[|l| - 1].node].next == NULL
  {
    assert At(memory, l, |l| - 1);
  }

  lemma EndlessIsNoChain(memory: map<int, Area>, list: int, nodes: set<int>)
    requires Endless(memory, nodes) && list in nodes
    ensures !exists l :: Chain(memory, list, l)
  {
    forall l ensures !Chain(memory, list, l) {
      if Chain(memory, list, l) {
        EndlessFrom(memory, list, l, nodes, |l| - 1);
        LastEnds(memory, list, l);
      }
    }
  }

  // The prev link names a node behind: from the head the links reach that node, and from there they run in a circle.
  lemma CircleIsNoChain(memory: map<int, Area>, list: int, l: seq<Cell>, k: nat, j: nat)
    requires Chain(memory, list, l) && k < j < |l| && l[j].node == l[k].prev
    ensures !exists r :: Chain(Unlinked(memory, l[k].node), HeadAfter(memory, list, l[k].node), r)
  {
    var m := Unlinked(memory, l[k].node);
    var nodes := set i | 0 <= i <= j :: l[i].node;
    assert At(memory, l, k) && At(memory, l, j) && At(memory, l, 0);
    forall a | a in nodes ensures a != NULL && a in m && m[a].next in nodes {
      var i :| 0 <= i <= j && l[i].node == a;
      assert At(memory, l, i);
      UnlinkedAt(memory, list, l, k, i);
      if i == j { assert l[k + 1].node in nodes; } else {
        if l[i].node == l[j].node { NodeIsAt(memory, list, l, i, j); }
        assert l[i + 1].node in nodes;
      }
    }
    assert l[0].node in nodes;
    EndlessIsNoChain(m, list, nodes);
  }

  lemma OnlyAt(memory: map<int, Area>, list: int, l: seq<Cell>, k: nat, j: nat)
    requires Chain(memory, list, l) && k < |l| && j < |l|
    requires l[j].node == l[k].prev || forall o :: 0 <= o < |l| ==> l[o].node != l[k].prev
    ensures forall o :: 0 <= o < |l| && l[o].node == l[k].prev ==> o == j
  {
    forall o | 0 <= o < |l| && l[o].node == l[k].prev ensures o == j {
      NodeIsAt(memory, list, l, o, j);
    }
  }

  // remove_free in memory is Cut on the list.
  lemma UnlinkedIsCut(memory: map<int, Area>, list: int, l: seq<Cell>, k: nat)
    requires Chain(memory, list, l) && k < |l|
    ensures var m, head, r := Unlinked(memory, l[k].node), HeadAfter(memory, list, l[k].node), Cut(l, k);
      if r.Some? then Chain(m, head, r.value) else !exists s :: Chain(m, head, s)
  {
    var j := Position(l, l[k].prev);
    if l[k].prev == NULL {
      forall o | 0 <= o < |l| ensures l[o].node != NULL { assert At(memory, l, o); }
      CutChain(memory, list, l, k, -1);
      assert l[..0] + Behind(l, k) == Behind(l, k);
    } else if j < 0 || j == k {
      OnlyAt(memory, list, l, k, k);
      CutChain(memory, list, l, k, k);
    } else if j < k {
      OnlyAt(memory, list, l, k, j);
      CutChain(memory, list, l, k, j);
    } else {
      CircleIsNoChain(memory, list, l, k, j);
    }
  }

  class AreaList {
    var list: int
    var memory: map<int, Area>
    ghost var cells: seq<Cell>

    ghost predicate Valid()
      reads this
    {
      Chain(memory, list, cells)
    }

    constructor ()
      ensures Valid() && cells == []
    {
      list, memory, cells := NULL, map[], [];
    }

    // The search loop of add_free.
    method FindPlace(start: int) returns (save: int, cursor: int, ghost k: nat)
      requires Valid() && list != NULL
      ensures k == Place(cells, start)
      ensures cursor == if k < |cells| then cells[k].node else NULL
      ensures save == cells[if k > 0 then k - 1 else 0].node
    {
      cursor, save, k := list, list, 0;
      assert At(memory, cells, 0);
      while cursor != NULL && !(memory[cursor].start > start)
        invariant k <= |cells|
        invariant cursor == if k < |cells| then cells[k].node else NULL
        invariant k < |cells| ==> At(memory, cells, k)
        invariant save == cells[if k > 0 then k - 1 else 0].node
        invariant forall i :: 0 <= i < k ==> cells[i].start <= start
        decreases |cells| - k
      {
        save := cursor;
        cursor := memory[cursor].next;
        k := k + 1;
        assert k < |cells| ==> At(memory, cells, k);
      }
      PlaceIs(cells, start, k);
    }

    // Changing the extent of the node at k.
    method Resize(a: int, ghost k: nat, start: int, size: int)
      requires Valid() && k < |cells| && a == cells[k].node && a in memory
      modifies this`memory, this`cells
      ensures Valid() && cells == old(cells)[k := old(cells)[k].(start := start, size := size)]
    {
      Resized(memory, list, cells, k, start, size);
      memory := memory[a := memory[a].(start := start, size := size)];
      cells := cells[k := cells[k].(start := start, size := size)];
    }

    // A new node between two others; save or cursor is NULL at the ends.
    method LinkNode(save: int, cursor: int, ghost k: nat, start: int, size: int, node: int)
      requires Valid() && k <= |cells| && node != NULL && Unused(cells, node)
      requires save == (if k > 0 then cells[k - 1].node else NULL) && cursor == if k < |cells| then cells[k].node
        else NULL
      modifies this
      ensures Valid() && cells == LinkedAlone(old(cells), k, start, size, node)
    {
      NodeAdded(memory, list, cells, k, start, size, node);
      ghost var m := WithNode(memory, cells, k, start, size, node);
      if k > 0 { assert At(memory, cells, k - 1); }
      if k < |cells| { assert At(memory, cells, k); }
      memory := memory[node := Area(start, size, cursor, save)];
      if save != NULL {
        memory := memory[save := memory[save].(next := node)];
      } else {
        list := node;
      }
      if cursor != NULL {
        memory := memory[cursor := memory[cursor].(prev := node)];
      }
      assert memory == m;
      cells := LinkedAlone(cells, k, start, size, node);
    }

    // The two-sided merge: the prev link of the node behind the merged one is left alone.
    method Absorb(save: int, cursor: int, ghost k: nat, size: int)
      requires Valid() && 0 < k < |cells| && save == cells[k - 1].node && cursor == cells[k].node && save in memory
        && cursor in memory
      modifies this`memory, this`cells
      ensures Valid() && cells == Absorbed(old(cells), k, size)
    {
      NodeAbsorbed(memory, list, cells, k, size);
      var merged := (memory[save].size + (size + memory[cursor].size)) % W32;
      memory := memory[save := memory[save].(size := merged, next := memory[cursor].next)];
      cells := Absorbed(cells, k, size);
    }

    // The merging and linking part of add_free.
    method Link(save: int, cursor: int, ghost k: nat, start: int, size: int, node: int) returns (err: Error)
      requires Valid() && k <= |cells| != 0 && (node != NULL ==> Unused(cells, node))
      requires cursor == (if k < |cells| then cells[k].node else NULL) && save == cells[if k > 0 then k - 1 else 0].node
      modifies this
      ensures Valid()
      ensures (cells, err) == FreeAreas.Link(old(cells), k, start, size, node)
    {
      err := NoErr;
      assert At(memory, cells, if k > 0 then k - 1 else 0);
      if k < |cells| { assert At(memory, cells, k); }
      if 0 < k < |cells| { assert TwoNodes(cells, k - 1, k); }
      ghost var l := cells;
      if cursor == NULL {
        if (memory[save].start + memory[save].size) % W32 != start {
          if node == NULL { return MallocFailed; }
          LinkAloneIs(l, k, start, size, node);
          LinkNode(save, NULL, k, start, size, node);
        } else {
          Resize(save, k - 1, memory[save].start, (memory[save].size + size) % W32);
        }
      } else if cursor == save {
        if (start + size) % W32 == memory[cursor].start {
          Resize(cursor, 0, start, (memory[cursor].size + size) % W32);
        } else {
          if node == NULL { return MallocFailed; }
          LinkAloneIs(l, k, start, size, node);
          LinkNode(NULL, cursor, 0, start, size, node);
        }
      } else {
        err := LinkInside(save, cursor, k, start, size, node);
      }
    }

    method LinkInside(save: int, cursor: int, ghost k: nat, start: int, size: int, node: int) returns (err: Error)
      requires Valid() && 0 < k < |cells| && cursor == cells[k].node && save == cells[k - 1].node
        && (node != NULL ==> Unused(cells, node))
      modifies this
      ensures Valid()
      ensures (cells, err) == FreeAreas.Link(old(cells), k, start, size, node)
    {
      err := NoErr;
      assert At(memory, cells, k - 1) && At(memory, cells, k);
      if (memory[save].start + memory[save].size) % W32 == start {
        if (start + size) % W32 == memory[cursor].start {
          Absorb(save, cursor, k, size);
        } else {
          Resize(save, k - 1, memory[save].start, (memory[save].size + size) % W32);
        }
      } else if (start + size) % W32 == memory[cursor].start {
        Resize(cursor, k, start, (memory[cursor].size + size) % W32);
      } else {
        if node == NULL { return MallocFailed; }
        LinkAloneIs(cells, k, start, size, node);
        LinkNode(save, cursor, k, start, size, node);
      }
    }

    /** add_free. node: what kmalloc delivers, NULL or an address that is no node's. */
    method AddFree(start: int, size: int, node: int) returns (err: Error)
      requires Valid() && (node != NULL ==> Unused(cells, node))
      modifies this
      ensures Valid()
      ensures (cells, err) == FreeAreas.AddFree(old(cells), start, size, node)
    {
      if list == NULL {
        assert cells != [] ==> At(memory, cells, 0);
        if node == NULL { return NullFault; }
        LinkNode(NULL, NULL, 0, start, size, node);
        assert cells == [Cell(start, size, node, NULL)];
        return NoErr;
      }
      var save, cursor, k := FindPlace(start);
      assert At(memory, cells, if k > 0 then k - 1 else 0);
      if k < |cells| { assert At(memory, cells, k); }
      if 0 < k < |cells| { assert TwoNodes(cells, k - 1, k); }
      if save != cursor && (memory[save].start + memory[save].size) % W32 > start {
        return UnauthorizedAction;
      }
      if save != cursor && cursor != NULL && (start + size) % W32 > memory[cursor].start {
        return UnauthorizedAction;
      }
      err := Link(save, cursor, k, start, size, node);
    }

    /** remove_free: the list afterwards is what the next links run through, if they end. */
    method RemoveFree(node: int, ghost k: nat)
      requires Valid() && k < |cells| && node == cells[k].node && node in memory
      modifies this
      ensures var r := Cut(old(cells), k);
        if r.Some? then Valid() && cells == r.value else !exists s :: Chain(memory, list, s)
    {
      UnlinkedIsCut(memory, list, cells, k);
      ghost var m, head, r := Unlinked(memory, node), HeadAfter(memory, list, node), Cut(cells, k);
      assert At(memory, cells, k);
      assert k + 1 < |cells| ==> At(memory, cells, k + 1);
      var next, prev := memory[node].next, memory[node].prev;
      if next == NULL {
        if prev == NULL {
          list := NULL;
        } else {
          memory := memory[prev := Read(memory, prev).(next := NULL)];
        }
      } else if prev == NULL {
        memory := memory[next := memory[next].(prev := NULL)];
        list := next;
      } else {
        memory := memory[next := memory[next].(prev := prev)];
        memory := memory[prev := Read(memory, prev).(next := next)];
      }
      assert memory == m && list == head;
      if r.Some? {
        cells := r.value;
      }
    }

    // The search loop of get_block.
    method FindFit(need: int) returns (cursor: int, ghost k: nat)
      requires Valid()
      ensures if cursor == NULL then FirstFit(cells, need) == -1
        else k < |cells| && cursor == cells[k].node && cursor in memory && k == FirstFit(cells, need)
    {
      cursor, k := list, 0;
      assert cells != [] ==> At(memory, cells, 0);
      while cursor != NULL && !(memory[cursor].size >= need)
        invariant k <= |cells|
        invariant cursor == if k < |cells| then cells[k].node else NULL
        invariant k < |cells| ==> At(memory, cells, k)
        invariant forall i :: 0 <= i < k ==> cells[i].size < need
        decreases |cells| - k
      {
        cursor := memory[cursor].next;
        k := k + 1;
        assert k < |cells| ==> At(memory, cells, k);
      }
    }

    // The second half of get_block.
    method TakeOff(node: int, ghost k: nat, need: int)
      requires Valid() && k < |cells| && node == cells[k].node && node in memory
      modifies this
      ensures var r := TakeFront(old(cells), k, need);
        if r.Some? then Valid() && cells == r.value else !exists s :: Chain(memory, list, s)
    {
      assert At(memory, cells, k);
      Resize(node, k, (memory[node].start + need) % W32, memory[node].size - need);
      assert At(memory, cells, k);
      if memory[node].size == 0 {
        RemoveFree(node, k);
      }
    }

    /** get_block, for need bytes. */
    method GetBlock(need: int) returns (block: Option<int>)
      requires Valid()
      modifies this
      ensures var (r, a) := FreeAreas.GetBlock(old(cells), need);
        block == a && if r.Some? then Valid() && cells == r.value else !exists s :: Chain(memory, list, s)
    {
      var cursor, k := FindFit(need);
      if cursor == NULL {
        return None;
      }
      assert At(memory, cells, k);
      block := Some(memory[cursor].start);
      TakeOff(cursor, k, need);
    }
  }
}
