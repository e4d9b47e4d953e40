/**
  Whole runs of the page and frame allocator (memory/memalloc.c): the free-area list after any history of freed regions
  and allocated blocks.
 */
module FreeAreaRuns {

  import opened Basics
  import opened FreeAreas
  import opened FreeAreaMerge
  import opened FreeAreaFit

  // A region freed with the address that kmalloc would deliver for a node, or a block asked for.
  datatype Event = FreeEvent(start: int, size: int, node: int) | GetEvent(need: int)

  function Step(l: seq<Cell>, e: Event): Option<seq<Cell>> {
    match e
    case FreeEvent(start, size, node) => Some(AddFree(l, start, size, node).0)
    case GetEvent(need) => GetBlock(l, need).0
  }

  // The list after a run, as long as the links form one.
  function Run(es: seq<Event>): Option<seq<Cell>> {
    if es == [] then Some([])
    else
      var l := Run(es[..|es| - 1]);
      if l.None? then None else Step(l.value, es[|es| - 1])
  }

  function Before(es: seq<Event>): seq<Event>
    requires es != []
  {
    es[..|es| - 1]
  }

  // The free addresses as the callers see them: what was freed successfully and not handed out since.
  ghost predicate IsFree(es: seq<Event>, x: int)
    decreases |es|
  {
    if es == [] || Run(Before(es)).None? then false
    else
      var l := Run(Before(es)).value;
      match es[|es| - 1]
      case FreeEvent(start, size, node) =>
        IsFree(Before(es), x) || (InRegion(x, start, size) && AddFree(l, start, size, node).1 == NoErr)
      case GetEvent(need) =>
        var a := GetBlock(l, need).1;
        IsFree(Before(es), x) && !(a.Some? && InRegion(x, a.value, need))
  }

  // A step that keeps the list canonical: a region freed is non-empty, inside the address space and not free already,
  // and some address stays in use; kmalloc delivers NULL or an address that is no node's, and not NULL for the first
  // node; a block asked for is non-empty and not an exact fit on a node whose prev link is wrong.
  ghost predicate Allowed(l: seq<Cell>, e: Event) {
    match e
    case FreeEvent(start, size, node) =>
      && Region(start, size) && Disjoint(l, start, size) && LeavesGap(l, start, size)
      && Unused(l, node) && (l == [] ==> node != NULL)
    case GetEvent(need) => 0 < need && !Corrupts(l, need)
  }

  ghost predicate Proper(es: seq<Event>)
    decreases |es|
  {
    es != [] ==> Proper(Before(es)) && Run(Before(es)).Some? && Allowed(Run(Before(es)).value, es[|es| - 1])
  }

  lemma FreeStep(l: seq<Cell>, start: int, size: int, node: int)
    requires Canonical(l) && Allowed(l, FreeEvent(start, size, node))
    ensures var (r, err) := AddFree(l, start, size, node);
      Canonical(r) && forall x :: Covers(r, x) <==> Covers(l, x) || (InRegion(x, start, size) && err == NoErr)
  {
    if node != NULL {
      AddFreeCanonical(l, start, size, node);
    } else {
      var other := UnusedNode(l);
      AddFreeWithoutMemory(l, start, size, other);
      AddFreeCanonical(l, start, size, other);
    }
  }

  // Some address is no node's.
  lemma {:induction false} UnusedAbove(l: seq<Cell>) returns (top: int)
    ensures top > 0 && forall i :: 0 <= i < |l| ==> l[i].node < top
  {
    if l == [] {
      top := 1;
    } else {
      var rest := UnusedAbove(l[1..]);
      top := if rest > l[0].node then rest else l[0].node + 1;
      assert forall i :: 1 <= i < |l| ==> l[i] == l[1..][i - 1];
    }
  }

  lemma UnusedNode(l: seq<Cell>) returns (node: int)
    ensures node != NULL && Unused(l, node)
  {
    node := UnusedAbove(l);
  }

  /** After every proper run, failed allocations of nodes included, the list is the sorted, maximally merged
      decomposition of the free addresses. */
  lemma {:induction false} EveryRun(es: seq<Event>)
    requires Proper(es)
    ensures Run(es).Some? && Canonical(Run(es).value) && forall x :: Covers(Run(es).value, x) <==> IsFree(es, x)
    decreases |es|
  {
    if es != [] {
      EveryRun(Before(es));
      var l := Run(Before(es)).value;
      match es[|es| - 1]
      case FreeEvent(start, size, node) => FreeStep(l, start, size, node);
      case GetEvent(need) =>
        if GetBlock(l, need).1.Some? { GetBlockExact(l, need); }
    }
  }

  /** History does not matter: two proper runs that leave the same addresses free leave the same list of areas. */
  lemma RunsAgree(es: seq<Event>, fs: seq<Event>)
    requires Proper(es) && Proper(fs) && forall x :: IsFree(es, x) <==> IsFree(fs, x)
    ensures Run(es).Some? && Run(fs).Some? && SameAreas(Run(es).value, Run(fs).value)
  {
    EveryRun(es);
    EveryRun(fs);
    CanonicalUnique(Run(es).value, Run(fs).value);
  }

  // ----- A run that leaves a wrong prev link, and what becomes of it -----

  lemma AfterEvent(es: seq<Event>, e: Event)
    requires Run(es).Some?
    ensures Run(es + [e]) == Step(Run(es).value, e)
    ensures Proper(es) && Allowed(Run(es).value, e) ==> Proper(es + [e])
  {
    assert Before(es + [e]) == es;
  }

  lemma FreeAfter(es: seq<Event>, l: seq<Cell>, start: int, size: int, node: int, r: seq<Cell>)
    requires Proper(es) && Run(es) == Some(l) && Allowed(l, FreeEvent(start, size, node))
      && AddFree(l, start, size, node).0 == r
    ensures var fs := es + [FreeEvent(start, size, node)]; Proper(fs) && Run(fs) == Some(r)
  {
    AfterEvent(es, FreeEvent(start, size, node));
  }

  lemma TopStays(l: seq<Cell>, start: int, size: int)
    requires start + size < W32 && forall i :: 0 <= i < |l| ==> End(l[i]) < W32
    ensures LeavesGap(l, start, size)
  {
    assert !Covers(l, W32 - 1) && !InRegion(W32 - 1, start, size);
  }

  // What add_free makes of a region behind all areas, in front of them, and in a hole.
  lemma AddBehind(l: seq<Cell>, start: int, size: int, node: int)
    requires l != [] && node != NULL && forall i :: 0 <= i < |l| ==> 0 <= l[i].start < End(l[i]) < start < W32
    ensures AddFree(l, start, size, node).0 == l + [Cell(start, size, node, l[|l| - 1].node)]
  {
    PlaceIs(l, start, |l|);
  }

  lemma AddInFront(a: Cell, b: Cell, start: int, size: int, node: int)
    requires 0 <= start < start + size < a.start < W32 && node != NULL
    ensures AddFree([a, b], start, size, node).0 == [Cell(start, size, node, NULL), a.(prev := node), b]
  {
    PlaceIs([a, b], start, 0);
    assert Inserted([a, b], 0, Cell(start, size, node, NULL)) == [Cell(start, size, node, NULL), a.(prev := node), b];
  }

  lemma AddInHole(a: Cell, b: Cell, c: Cell)
    requires 0 <= a.start < End(a) < b.start < End(b) < c.start < W32
    ensures AddFree([a, b, c], End(a), b.start - End(a), NULL).0 == [a.(size := End(b) - a.start), c]
  {
    var l, start, size := [a, b, c], End(a), b.start - End(a);
    PlaceIs(l, start, 1);
    assert (a.size + (size + b.size)) % W32 == End(b) - a.start;
    assert Absorbed(l, 1, size) == [a.(size := End(b) - a.start), c];
  }

  // The same as steps of a run.
  lemma FreeBehind(es: seq<Event>, l: seq<Cell>, start: int, size: int, node: int)
    requires Proper(es) && Run(es) == Some(l) && l != [] && Region(start, size) && start + size < W32 && node != NULL
      && Unused(l, node)
    requires forall i :: 0 <= i < |l| ==> 0 <= l[i].start < End(l[i]) < start
    ensures Proper(es + [FreeEvent(start, size, node)])
    ensures Run(es + [FreeEvent(start, size, node)]) == Some(l + [Cell(start, size, node, l[|l| - 1].node)])
  {
    forall i | 0 <= i < |l| ensures Beside(l, i, start, size) {}
    TopStays(l, start, size);
    AfterEvent(es, FreeEvent(start, size, node));
    AddBehind(l, start, size, node);
  }

  lemma FreeInFront(es: seq<Event>, a: Cell, b: Cell, start: int, size: int, node: int)
    requires Proper(es) && Run(es) == Some([a, b]) && Region(start, size)
      && start + size < a.start < End(a) < b.start < End(b) < W32
    requires node != NULL && node != a.node && node != b.node
    ensures Proper(es + [FreeEvent(start, size, node)])
    ensures Run(es + [FreeEvent(start, size, node)]) == Some([Cell(start, size, node, NULL), a.(prev := node), b])
  {
    var l := [a, b];
    forall i | 0 <= i < |l| ensures Beside(l, i, start, size) {}
    TopStays(l, start, size);
    AfterEvent(es, FreeEvent(start, size, node));
    AddInFront(a, b, start, size, node);
  }

  lemma HoleAllowed(a: Cell, b: Cell, c: Cell)
    requires a.node != NULL && b.node != NULL && c.node != NULL
    requires 0 <= a.start < End(a) < b.start < End(b) < c.start < End(c) < W32
    ensures Allowed([a, b, c], FreeEvent(End(a), b.start - End(a), NULL))
  {
    var l, start, size := [a, b, c], End(a), b.start - End(a);
    forall i | 0 <= i < |l| ensures Beside(l, i, start, size) {}
    TopStays(l, start, size);
  }

  // Filling the hole between the first two of three areas: the third keeps its prev link.
  lemma FillHole(es: seq<Event>, a: Cell, b: Cell, c: Cell)
    requires Proper(es) && Run(es) == Some([a, b, c]) && a.node != NULL && b.node != NULL && c.node != NULL
    requires 0 <= a.start < End(a) < b.start < End(b) < c.start < End(c) < W32
    ensures var fs := es + [FreeEvent(End(a), b.start - End(a), NULL)];
      Proper(fs) && Run(fs) == Some([a.(size := End(b) - a.start), c])
  {
    var l := [a, b, c];
    HoleAllowed(a, b, c);
    AddInHole(a, b, c);
    FreeAfter(es, l, End(a), b.start - End(a), NULL, AddFree(l, End(a), b.start - End(a), NULL).0);
  }

  lemma FirstFree(start: int, size: int, node: int)
    requires Region(start, size) && start + size < W32 && node != NULL
    ensures var es := [FreeEvent(start, size, node)]; Proper(es) && Run(es) == Some([Cell(start, size, node, NULL)])
  {
    TopStays([], start, size);
    AfterEvent([], FreeEvent(start, size, node));
    assert [] + [FreeEvent(start, size, node)] == [FreeEvent(start, size, node)];
  }

  // Three regions freed in address order, then the hole between the first two.
  function HoleFilled(a: int, b: int, c: int): seq<Event> {
    [FreeEvent(0x3000, 0x1000, a), FreeEvent(0x5000, 0x1000, b), FreeEvent(0x8000, 0x8000, c)]
      + [FreeEvent(0x4000, 0x1000, NULL)]
  }

  lemma HoleFilledRun(a: int, b: int, c: int)
    requires a != NULL && b != NULL && c != NULL && a != b && a != c && b != c
    ensures Proper(HoleFilled(a, b, c))
    ensures Run(HoleFilled(a, b, c)) == Some([Cell(0x3000, 0x3000, a, NULL), Cell(0x8000, 0x8000, c, b)])
  {
    var e1, e2, e3 := FreeEvent(0x3000, 0x1000, a), FreeEvent(0x5000, 0x1000, b), FreeEvent(0x8000, 0x8000, c);
    var c1, c2, c3 := Cell(0x3000, 0x1000, a, NULL), Cell(0x5000, 0x1000, b, a), Cell(0x8000, 0x8000, c, b);
    FirstFree(0x3000, 0x1000, a);
    FreeBehind([e1], [c1], 0x5000, 0x1000, b);
    assert [e1] + [e2] == [e1, e2] && [c1] + [c2] == [c1, c2];
    FreeBehind([e1, e2], [c1, c2], 0x8000, 0x8000, c);
    assert [e1, e2] + [e3] == [e1, e2, e3] && [c1, c2] + [c3] == [c1, c2, c3];
    FillHole([e1, e2, e3], c1, c2, c3);
  }

  lemma LastFits(a: Cell, b: Cell, need: int)
    requires a.size < need <= b.size
    ensures FirstFit([a, b], need) == 1
  {
    assert [a, b][1..] == [b];
  }

  /** The wrong link is met by disjoint, page-sized regions: filling the hole between the first two areas frees the node
      that the third one's prev link names, and asking for all of the third area then leaves its node linked. */
  lemma StaleLinkCorrupts(a: int, b: int, c: int)
    requires a != NULL && b != NULL && c != NULL && a != b && a != c && b != c
    ensures var es := HoleFilled(a, b, c);
      && Proper(es) && Corrupts(Run(es).value, 0x8000)
      && Run(es + [GetEvent(0x8000)]).Some? && !Canonical(Run(es + [GetEvent(0x8000)]).value)
  {
    var es := HoleFilled(a, b, c);
    HoleFilledRun(a, b, c);
    LastFits(Cell(0x3000, 0x3000, a, NULL), Cell(0x8000, 0x8000, c, b), 0x8000);
    EveryRun(es);
    AfterEvent(es, GetEvent(0x8000));
    CorruptOutcomes(Run(es).value, 0x8000);
    assert !AreaOk(Run(es + [GetEvent(0x8000)]).value, 1);
  }

  // kmalloc delivers the freed node again for a region in front.
  function Reused(a: int, b: int, c: int): seq<Event> {
    HoleFilled(a, b, c) + [FreeEvent(0x1000, 0x1000, b)]
  }

  lemma ReusedRun(a: int, b: int, c: int)
    requires a != NULL && b != NULL && c != NULL && a != b && a != c && b != c
    ensures Proper(Reused(a, b, c))
    ensures Run(Reused(a, b, c)) == Some([Cell(0x1000, 0x1000, b, NULL), Cell(0x3000, 0x3000, a, b),
      Cell(0x8000, 0x8000, c, b)])
  {
    HoleFilledRun(a, b, c);
    FreeInFront(HoleFilled(a, b, c), Cell(0x3000, 0x3000, a, NULL), Cell(0x8000, 0x8000, c, b), 0x1000, 0x1000, b);
  }

  lemma ThirdFits(a: Cell, b: Cell, c: Cell, need: int)
    requires a.size < need <= c.size && b.size < need
    ensures FirstFit([a, b, c], need) == 2
  {
    assert [a, b, c][1..] == [b, c];
    LastFits(b, c, need);
  }

  /** When kmalloc delivers the freed node again for an area in front, the same request loses the area between as
      well. */
  lemma ReuseLosesArea(a: int, b: int, c: int)
    requires a != NULL && b != NULL && c != NULL && a != b && a != c && b != c
    ensures var es := Reused(a, b, c);
      && Proper(es) && Corrupts(Run(es).value, 0x8000) && IsFree(es, 0x3000)
      && Run(es + [GetEvent(0x8000)]).Some? && !Covers(Run(es + [GetEvent(0x8000)]).value, 0x3000)
  {
    var es := Reused(a, b, c);
    ReusedRun(a, b, c);
    var l := [Cell(0x1000, 0x1000, b, NULL), Cell(0x3000, 0x3000, a, b), Cell(0x8000, 0x8000, c, b)];
    ThirdFits(l[0], l[1], l[2], 0x8000);
    EveryRun(es);
    AfterEvent(es, GetEvent(0x8000));
    PositionIs(l, 0);
    CorruptOutcomes(l, 0x8000);
    assert l[1].start <= 0x3000 < End(l[1]);
  }

  /** When the hole in front is filled too, the reused node is the one in front, the link is right again, and the
      request is served. */
  lemma ReuseRepairs(a: int, b: int, c: int)
    requires a != NULL && b != NULL && c != NULL && a != b && a != c && b != c
    ensures var es := Reused(a, b, c) + [FreeEvent(0x2000, 0x1000, NULL)];
      && Proper(es) && Run(es) == Some([Cell(0x1000, 0x5000, b, NULL), Cell(0x8000, 0x8000, c, b)])
      && Proper(es + [GetEvent(0x8000)])
  {
    ReusedRun(a, b, c);
    FillHole(Reused(a, b, c), Cell(0x1000, 0x1000, b, NULL), Cell(0x3000, 0x3000, a, b), Cell(0x8000, 0x8000, c, b));
    var es := Reused(a, b, c) + [FreeEvent(0x2000, 0x1000, NULL)];
    LastFits(Cell(0x1000, 0x5000, b, NULL), Cell(0x8000, 0x8000, c, b), 0x8000);
    AfterEvent(es, GetEvent(0x8000));
  }
}
