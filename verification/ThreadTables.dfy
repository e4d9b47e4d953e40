/**
  What the linked tables of the scheduler (core/scheduler.c) and the wait queues beside them stand for: each place has
  its own queue in the kernel's memory, and each thread has one scheduling node, which is in one table or in one wait
  queue at most.
 */
module ThreadTables {

  import opened KernelQueue
  import opened Scheduling

  type Nodes = map<int, Node<int>>

  // The entries of a table. The key matters in a sleep table only.
  ghost function Rows(nodes: Nodes, l: seq<int>, sleep: bool): (s: seq<Item<int>>)
    requires InNodes(nodes, l)
    ensures |s| == |l| && forall i :: 0 <= i < |s| ==>
      s[i] == Item(if sleep then nodes[l[i]].priority else 0, nodes[l[i]].data)
  {
    seq(|l|, i requires 0 <= i < |l| => Item(if sleep then nodes[l[i]].priority else 0, nodes[l[i]].data))
  }

  // The queues of the places, the nodes of the threads and the tables they are in, and what the tables stand for.
  // blocked: the wait queues that threads are in. waits: the threads in each wait queue, head first.
  datatype Layout = Layout(
    tables: map<Place, int>,
    global: int,
    nodeOf: map<int, int>,
    where: map<int, Place>,
    rows: map<Place, seq<Item<int>>>,
    blocked: map<int, int>,
    waits: map<int, seq<int>>)

  // The nodes in a table are the scheduling nodes of the threads that are there.
  ghost predicate PlaceOk(nodes: Nodes, lists: map<int, seq<int>>, y: Layout, pl: Place)
    requires pl in y.tables
  {
    var q := y.tables[pl];
    && q != NULL && q in lists && q != y.global && InNodes(nodes, lists[q])
    && pl in y.rows && y.rows[pl] == Rows(nodes, lists[q], pl.SleepTable?)
    && forall i :: 0 <= i < |lists[q]| ==>
         var t := nodes[lists[q][i]].data;
         t in y.nodeOf && y.nodeOf[t] == lists[q][i] && t in y.where && y.where[t] == pl
  }

  // The nodes in a wait queue are the scheduling nodes of the threads that wait there.
  ghost predicate WaitOk(nodes: Nodes, lists: map<int, seq<int>>, y: Layout, q: int)
    requires q in y.waits
  {
    && q != NULL && q in lists && q != y.global && NoTable(y, q) && InNodes(nodes, lists[q])
    && y.waits[q] == Data(nodes, lists[q])
    && forall i :: 0 <= i < |lists[q]| ==>
         var t := nodes[lists[q][i]].data;
         t in y.nodeOf && y.nodeOf[t] == lists[q][i] && t in y.blocked && y.blocked[t] == q
  }

  predicate NoTable(y: Layout, q: int) {
    q !in y.tables.Values
  }

  ghost predicate TwoPlaces(y: Layout, pl: Place, ql: Place)
    requires pl in y.tables && ql in y.tables
  {
    y.tables[pl] != y.tables[ql]
  }

  ghost predicate NodeAt(nodes: Nodes, lists: map<int, seq<int>>, y: Layout, t: int)
    requires t in y.nodeOf
  {
    var n := y.nodeOf[t];
    && n != NULL && n in nodes && nodes[n].data == t
    && (nodes[n].enlisted <==> t in y.where || t in y.blocked) && !(t in y.where && t in y.blocked)
    && (t in y.where ==> y.where[t] in y.tables && y.tables[y.where[t]] in lists && n in lists[y.tables[y.where[t]]])
    && (t in y.blocked ==> y.blocked[t] in y.waits && y.blocked[t] in lists && n in lists[y.blocked[t]])
  }

  ghost predicate LayoutOk(nodes: Nodes, lists: map<int, seq<int>>, y: Layout) {
    && y.global != NULL && y.global in lists && InNodes(nodes, lists[y.global])
    && (forall t :: t in y.where ==> t in y.nodeOf) && (forall t :: t in y.blocked ==> t in y.nodeOf)
    && y.rows.Keys == y.tables.Keys
    && (forall pl {:trigger PlaceOk(nodes, lists, y, pl)} :: pl in y.tables ==> PlaceOk(nodes, lists, y, pl))
    && (forall pl, ql {:trigger TwoPlaces(y, pl, ql)} ::
       pl in y.tables && ql in y.tables && pl != ql ==> TwoPlaces(y, pl, ql))
    && (forall q {:trigger WaitOk(nodes, lists, y, q)} :: q in y.waits ==> WaitOk(nodes, lists, y, q))
    && (forall t {:trigger NodeAt(nodes, lists, y, t)} :: t in y.nodeOf ==> NodeAt(nodes, lists, y, t))
  }

  ghost function Data(nodes: Nodes, l: seq<int>): (s: seq<int>)
    requires InNodes(nodes, l)
    ensures |s| == |l| && forall i :: 0 <= i < |s| ==> s[i] == nodes[l[i]].data
  {
    seq(|l|, i requires 0 <= i < |l| => nodes[l[i]].data)
  }

  // A thread is in a table exactly when its node is recorded there.
  lemma HeldWhere(nodes: Nodes, lists: map<int, seq<int>>, y: Layout, pl: Place, t: int)
    requires LayoutOk(nodes, lists, y) && pl in y.tables
    ensures PlaceOk(nodes, lists, y, pl)
    ensures Holds(y.rows[pl], t) <==> t in y.where && y.where[t] == pl
  {
    assert PlaceOk(nodes, lists, y, pl);
    var l := lists[y.tables[pl]];
    var rows := y.rows[pl];
    if i :| 0 <= i < |rows| && rows[i].value == t {
      assert nodes[l[i]].data == t;
    }
    if t in y.where && y.where[t] == pl {
      assert NodeAt(nodes, lists, y, t);
      var i :| 0 <= i < |l| && l[i] == y.nodeOf[t];
      assert rows[i].value == t;
    }
  }

  // Rows of a list whose nodes keep data and priority.
  lemma RowsSame(was: Nodes, now: Nodes, l: seq<int>, sleep: bool, but: int)
    requires InNodes(was, l) && SameData(was, now, but) && but !in l
    ensures InNodes(now, l) && Rows(now, l, sleep) == Rows(was, l, sleep)
  {
    forall i | 0 <= i < |l|
      ensures l[i] in now && now[l[i]].priority == was[l[i]].priority && now[l[i]].data == was[l[i]].data {
      var n := l[i];
      assert n in l && n in was;
    }
  }

  // ----- One table changes -----

  // What a queue operation on the table of pl leaves alone.
  ghost predicate OnlyPlace(nodes: Nodes, lists: map<int, seq<int>>, now: Nodes, lists': map<int, seq<int>>, y: Layout,
                            pl: Place, node: int)
    requires pl in y.tables
  {
    && lists'.Keys == lists.Keys && (forall q :: q in lists && q != y.tables[pl] ==> lists'[q] == lists[q])
    && SameData(nodes, now, node)
    && forall n :: n in nodes && n != node ==> now[n].enlisted == nodes[n].enlisted
  }

  // Neither the threads nor the wait queues change.
  ghost predicate SameThreads(y: Layout, y': Layout) {
    && y'.tables == y.tables && y'.global == y.global && y'.nodeOf == y.nodeOf
    && y'.blocked == y.blocked && y'.waits == y.waits
  }

  // A list of nodes none of which is the node of t keeps what it stands for.
  lemma ListKept(nodes: Nodes, now: Nodes, l: seq<int>, but: int)
    requires InNodes(nodes, l) && SameData(nodes, now, but)
    ensures InNodes(now, l) && Data(now, l) == Data(nodes, l)
    ensures forall i :: 0 <= i < |l| ==> now[l[i]].data == nodes[l[i]].data
  {
    forall i | 0 <= i < |l| ensures l[i] in now && now[l[i]].data == nodes[l[i]].data {
      var n := l[i];
      assert n in nodes;
    }
  }

  // The wait queues, when the table of pl changes.
  lemma OtherWait(nodes: Nodes, lists: map<int, seq<int>>, now: Nodes, lists': map<int, seq<int>>, y: Layout,
                  y': Layout, pl: Place, q: int, but: int)
    requires LayoutOk(nodes, lists, y) && pl in y.tables && q in y.waits
      && OnlyPlace(nodes, lists, now, lists', y, pl, but)
    requires SameThreads(y, y')
    ensures WaitOk(now, lists', y', q)
  {
    assert WaitOk(nodes, lists, y, q);
    assert y.tables[pl] in y.tables.Values;
    ListKept(nodes, now, lists[q], but);
  }

  // The other places and the global table.
  lemma OtherPlace(nodes: Nodes, lists: map<int, seq<int>>, now: Nodes, lists': map<int, seq<int>>, y: Layout,
                   y': Layout, pl: Place, ql: Place, t: int)
    requires LayoutOk(nodes, lists, y) && pl in y.tables && ql in y.tables && ql != pl && t in y.nodeOf
    requires OnlyPlace(nodes, lists, now, lists', y, pl, y.nodeOf[t])
    requires SameThreads(y, y')
    requires forall u :: u != t ==> (u in y'.where <==> u in y.where) && (u in y.where ==> y'.where[u] == y.where[u])
    requires !(t in y.where && y.where[t] == ql) && ql in y.rows && ql in y'.rows && y'.rows[ql] == y.rows[ql]
    ensures PlaceOk(now, lists', y', ql)
  {
    assert PlaceOk(nodes, lists, y, ql) && TwoPlaces(y, pl, ql) && TwoPlaces(y, ql, pl);
    var l := lists[y.tables[ql]];
    forall i | 0 <= i < |l| ensures l[i] != y.nodeOf[t] && l[i] in now && now[l[i]].data == nodes[l[i]].data {
      assert nodes[l[i]].data != t;
      assert NodeAt(nodes, lists, y, t);
    }
    RowsSame(nodes, now, l, ql.SleepTable?, y.nodeOf[t]);
  }

  // The nodes of the table of pl after the change are those of the threads that are there.
  ghost predicate Refilled(now: Nodes, nodeOf: map<int, int>, where: map<int, Place>, pl: Place, l: seq<int>) {
    && InNodes(now, l)
    && (forall i :: 0 <= i < |l| ==>
          var u := now[l[i]].data; u in nodeOf && nodeOf[u] == l[i] && u in where && where[u] == pl)
    && (forall u :: u in where && where[u] == pl ==> u in nodeOf && nodeOf[u] in l)
  }

  /** When one thread enters, leaves or keeps the table of pl, the layout stays right and only that table changes. */
  lemma TableChanges(nodes: Nodes, lists: map<int, seq<int>>, now: Nodes, lists': map<int, seq<int>>, y: Layout,
                     y': Layout, pl: Place, t: int)
    requires LayoutOk(nodes, lists, y) && pl in y.tables && t in y.nodeOf && t !in y.blocked
    requires OnlyPlace(nodes, lists, now, lists', y, pl, y.nodeOf[t])
    requires SameThreads(y, y')
    requires forall u :: u != t ==> (u in y'.where <==> u in y.where) && (u in y.where ==> y'.where[u] == y.where[u])
    requires t in y.where ==> y.where[t] == pl
    requires t in y'.where ==> y'.where[t] == pl
    requires y.tables[pl] in lists' && Refilled(now, y'.nodeOf, y'.where, pl, lists'[y.tables[pl]])
    requires y.nodeOf[t] in now && (now[y.nodeOf[t]].enlisted <==> t in y'.where)
    requires y'.rows == y.rows[pl := Rows(now, lists'[y.tables[pl]], pl.SleepTable?)]
    ensures LayoutOk(now, lists', y')
    ensures lists'[y.global] == lists[y.global] && Data(now, lists[y.global]) == Data(nodes, lists[y.global])
  {
    assert PlaceOk(nodes, lists, y, pl) && NodeAt(nodes, lists, y, t);
    assert forall u :: u in y'.where ==> u in y'.nodeOf;
    forall ql | ql in y'.tables ensures PlaceOk(now, lists', y', ql) {
      if ql != pl {
        assert PlaceOk(nodes, lists, y, ql);
        OtherPlace(nodes, lists, now, lists', y, y', pl, ql, t);
      }
    }
    forall a, b | a in y'.tables && b in y'.tables && a != b ensures TwoPlaces(y', a, b) { assert TwoPlaces(y, a, b); }
    forall q | q in y'.waits ensures WaitOk(now, lists', y', q) {
      OtherWait(nodes, lists, now, lists', y, y', pl, q, y.nodeOf[t]);
    }
    forall u | u in y'.nodeOf ensures NodeAt(now, lists', y', u) {
      OtherNode(nodes, lists, now, lists', y, y', pl, t, u);
    }
    ListKept(nodes, now, lists[y.global], y.nodeOf[t]);
  }

  lemma OtherNode(nodes: Nodes, lists: map<int, seq<int>>, now: Nodes, lists': map<int, seq<int>>, y: Layout,
                  y': Layout, pl: Place, t: int, u: int)
    requires LayoutOk(nodes, lists, y) && pl in y.tables && t in y.nodeOf && u in y.nodeOf && t !in y.blocked
    requires OnlyPlace(nodes, lists, now, lists', y, pl, y.nodeOf[t])
    requires SameThreads(y, y')
    requires u != t ==> (u in y'.where <==> u in y.where) && (u in y.where ==> y'.where[u] == y.where[u])
    requires t in y'.where ==> y'.where[t] == pl
    requires y.tables[pl] in lists' && Refilled(now, y'.nodeOf, y'.where, pl, lists'[y.tables[pl]])
    requires y.nodeOf[t] in now && (now[y.nodeOf[t]].enlisted <==> t in y'.where)
    ensures NodeAt(now, lists', y', u)
  {
    assert PlaceOk(nodes, lists, y, pl) && NodeAt(nodes, lists, y, u) && NodeAt(nodes, lists, y, t);
    if u != t && u in y.where && y.where[u] != pl {
      assert TwoPlaces(y, y.where[u], pl);
    }
    if u in y.blocked {
      assert WaitOk(nodes, lists, y, y.blocked[u]);
      assert y.tables[pl] in y.tables.Values;
    }
  }

  // ----- The queue operations on a table -----

  lemma SameDataAlso(a: Nodes, b: Nodes, but: int)
    requires SameData(a, b, NULL) && NULL !in a
    ensures SameData(a, b, but)
  {
  }

  // Rows after a push.
  lemma RowsPushed(nodes: Nodes, now: Nodes, l: seq<int>, node: int)
    requires InNodes(nodes, l) && SameData(nodes, now, NULL) && NULL !in nodes && node in nodes
    ensures InNodes(now, [node] + l) && Rows(now, [node] + l, false) ==
      [Item(0, nodes[node].data)] + Rows(nodes, l, false)
  {
    var r := [node] + l;
    forall i | 0 <= i < |r| ensures r[i] in now && now[r[i]].data == nodes[r[i]].data {
      var n := r[i];
      assert i > 0 ==> n == l[i - 1];
      assert n in nodes;
    }
  }

  lemma OnlyPlaceIs(nodes: Nodes, lists: map<int, seq<int>>, now: Nodes, l: seq<int>, y: Layout, pl: Place, node: int)
    requires pl in y.tables && y.tables[pl] in lists && SameData(nodes, now, NULL) && NULL !in nodes
    requires forall n :: n in nodes && n != node ==> now[n].enlisted == nodes[n].enlisted
    ensures OnlyPlace(nodes, lists, now, lists[y.tables[pl] := l], y, pl, node)
  {
    SameDataAlso(nodes, now, node);
  }

  // A thread that is in no table is pushed on one.
  lemma PushedRows(nodes: Nodes, lists: map<int, seq<int>>, now: Nodes, lists': map<int, seq<int>>, y: Layout,
                   y': Layout, pl: Place, t: int)
    requires LayoutOk(nodes, lists, y) && NULL !in nodes && pl in y.tables && !pl.SleepTable?
    requires t in y.nodeOf && t !in y.where && t !in y.blocked
    requires y.tables[pl] in lists && lists' == lists[y.tables[pl] := [y.nodeOf[t]] + lists[y.tables[pl]]]
    requires pl in y.rows && y' == y.(where := y.where[t := pl], rows := y.rows[pl := [Item(0, t)] + y.rows[pl]])
    requires SameData(nodes, now, NULL)
    requires forall n :: n in nodes ==> now[n].enlisted == (n == y.nodeOf[t] || nodes[n].enlisted)
    ensures LayoutOk(now, lists', y') && lists'[y.global] == lists[y.global]
      && Data(now, lists[y.global]) == Data(nodes, lists[y.global])
  {
    assert PlaceOk(nodes, lists, y, pl) && NodeAt(nodes, lists, y, t);
    var q, node := y.tables[pl], y.nodeOf[t];
    var l := lists[q];
    OnlyPlaceIs(nodes, lists, now, [node] + l, y, pl, node);
    PushedRefill(nodes, lists, now, y, pl, t);
    RowsPushed(nodes, now, l, node);
    TableChanges(nodes, lists, now, lists', y, y', pl, t);
  }

  lemma PushedRefill(nodes: Nodes, lists: map<int, seq<int>>, now: Nodes, y: Layout, pl: Place, t: int)
    requires LayoutOk(nodes, lists, y) && NULL !in nodes && pl in y.tables && t in y.nodeOf && t !in y.where
      && SameData(nodes, now, NULL)
    ensures y.tables[pl] in lists && Refilled(now, y.nodeOf, y.where[t := pl], pl, [y.nodeOf[t]] + lists[y.tables[pl]])
  {
    var y', node := y.(where := y.where[t := pl]), y.nodeOf[t];
    assert PlaceOk(nodes, lists, y, pl) && NodeAt(nodes, lists, y, t);
    var l := lists[y.tables[pl]];
    var r := [node] + l;
    forall i | 0 <= i < |r|
      ensures r[i] in now && var u := now[r[i]].data;
        u in y'.nodeOf && y'.nodeOf[u] == r[i] && u in y'.where && y'.where[u] == pl {
      if i > 0 { assert r[i] == l[i - 1] && l[i - 1] in nodes; }
    }
    forall u | u in y'.where && y'.where[u] == pl ensures u in y'.nodeOf && y'.nodeOf[u] in r {
      if u != t { assert NodeAt(nodes, lists, y, u); }
    }
  }

  // A sleeper is inserted by its key.
  lemma RowsInserted(nodes: Nodes, now: Nodes, l: seq<int>, k: nat, node: int, key: int)
    requires InNodes(nodes, l) && SameData(nodes, now, node) && node in nodes && node !in l && k <= |l|
      && now[node].priority == key
    requires PrioPlace(nodes, l, k, key)
    ensures InNodes(now, l[..k] + [node] + l[k..])
    ensures Rows(now, l[..k] + [node] + l[k..], true) == InsertItem(Rows(nodes, l, true), Item(key, nodes[node].data))
  {
    var rows, r := Rows(nodes, l, true), l[..k] + [node] + l[k..];
    InsertItemAt(rows, Item(key, nodes[node].data), k);
    forall i | 0 <= i < |r|
      ensures r[i] in now && now[r[i]].data == nodes[r[i]].data
        && (i != k ==> now[r[i]].priority == nodes[r[i]].priority) {
      var n := r[i];
      assert i < k ==> n == l[i];
      assert i > k ==> n == l[i - 1];
      assert n in nodes;
    }
    assert Rows(now, r, true) == rows[..k] + [Item(key, nodes[node].data)] + rows[k..];
  }

  lemma InsertedRefill(nodes: Nodes, lists: map<int, seq<int>>, now: Nodes, y: Layout, pl: Place, t: int, k: nat)
    requires LayoutOk(nodes, lists, y) && pl in y.tables && y.tables[pl] in lists && t in y.nodeOf && t !in y.where
      && SameData(nodes, now, y.nodeOf[t])
    requires k <= |lists[y.tables[pl]]|
    ensures var l := lists[y.tables[pl]]; Refilled(now, y.nodeOf, y.where[t := pl], pl, l[..k] + [y.nodeOf[t]] + l[k..])
  {
    var y', node := y.(where := y.where[t := pl]), y.nodeOf[t];
    assert PlaceOk(nodes, lists, y, pl) && NodeAt(nodes, lists, y, t);
    var l := lists[y.tables[pl]];
    var r := l[..k] + [node] + l[k..];
    forall i | 0 <= i < |r|
      ensures r[i] in now && var u := now[r[i]].data;
        u in y'.nodeOf && y'.nodeOf[u] == r[i] && u in y'.where && y'.where[u] == pl {
      if i != k {
        var o := if i < k then i else i - 1;
        assert r[i] == l[o] && l[o] in nodes;
      }
    }
    forall u | u in y'.where && y'.where[u] == pl ensures u in y'.nodeOf && y'.nodeOf[u] in r {
      if u != t {
        assert NodeAt(nodes, lists, y, u);
        var i :| 0 <= i < |l| && l[i] == y.nodeOf[u];
        assert r[if i < k then i else i + 1] == l[i];
      }
    }
  }

  lemma SleptRows(nodes: Nodes, lists: map<int, seq<int>>, now: Nodes, lists': map<int, seq<int>>, y: Layout,
                  y': Layout, pl: Place, t: int, k: nat, key: int)
    requires LayoutOk(nodes, lists, y) && pl in y.tables && y.tables[pl] in lists && pl.SleepTable?
    requires t in y.nodeOf && t !in y.where && t !in y.blocked
    requires SameData(nodes, now, y.nodeOf[t]) && k <= |lists[y.tables[pl]]| && y.nodeOf[t] in now
      && now[y.nodeOf[t]].priority == key
    requires forall n :: n in nodes ==> now[n].enlisted == (n == y.nodeOf[t] || nodes[n].enlisted)
    requires InNodes(nodes, lists[y.tables[pl]]) && PrioPlace(nodes, lists[y.tables[pl]], k, key)
    requires var l := lists[y.tables[pl]]; lists' == lists[y.tables[pl] := l[..k] + [y.nodeOf[t]] + l[k..]]
    requires pl in y.rows && y' == y.(where := y.where[t := pl],
      rows := y.rows[pl := InsertItem(y.rows[pl], Item(key, t))])
    ensures LayoutOk(now, lists', y') && lists'[y.global] == lists[y.global]
      && Data(now, lists[y.global]) == Data(nodes, lists[y.global])
  {
    assert PlaceOk(nodes, lists, y, pl) && NodeAt(nodes, lists, y, t);
    var q, node := y.tables[pl], y.nodeOf[t];
    var l := lists[q];
    var r := l[..k] + [node] + l[k..];
    assert OnlyPlace(nodes, lists, now, lists[q := r], y, pl, node);
    InsertedRefill(nodes, lists, now, y, pl, t, k);
    forall i | 0 <= i < |l| ensures l[i] != node { assert nodes[l[i]].data != t; }
    RowsInserted(nodes, now, l, k, node, key);
    TableChanges(nodes, lists, now, lists[q := r], y, y', pl, t);
  }

  // The node at position k leaves its table.
  lemma LeftRefill(nodes: Nodes, lists: map<int, seq<int>>, now: Nodes, y: Layout, pl: Place, t: int, k: nat)
    requires LayoutOk(nodes, lists, y) && NULL !in nodes && pl in y.tables && y.tables[pl] in lists
      && SameData(nodes, now, NULL)
    requires k < |lists[y.tables[pl]]| && t in y.nodeOf && lists[y.tables[pl]][k] == y.nodeOf[t]
    requires forall i, j :: 0 <= i < j < |lists[y.tables[pl]]| ==> lists[y.tables[pl]][i] != lists[y.tables[pl]][j]
    ensures var l := lists[y.tables[pl]]; Refilled(now, y.nodeOf, y.where - {t}, pl, l[..k] + l[k + 1..])
  {
    var y' := y.(where := y.where - {t});
    assert PlaceOk(nodes, lists, y, pl) && NodeAt(nodes, lists, y, t);
    var l := lists[y.tables[pl]];
    var r := l[..k] + l[k + 1..];
    forall i | 0 <= i < |r|
      ensures r[i] in now && var u := now[r[i]].data;
        u in y'.nodeOf && y'.nodeOf[u] == r[i] && u in y'.where && y'.where[u] == pl {
      var o := if i < k then i else i + 1;
      assert r[i] == l[o] && l[o] in nodes && l[o] != l[k];
    }
    forall u | u in y'.where && y'.where[u] == pl ensures u in y'.nodeOf && y'.nodeOf[u] in r {
      assert NodeAt(nodes, lists, y, u);
      var i :| 0 <= i < |l| && l[i] == y.nodeOf[u];
      assert i != k;
      assert r[if i < k then i else i - 1] == l[i];
    }
  }

  lemma LeftRows(nodes: Nodes, lists: map<int, seq<int>>, now: Nodes, lists': map<int, seq<int>>, y: Layout,
                 y': Layout, pl: Place, t: int, k: nat)
    requires LayoutOk(nodes, lists, y) && NULL !in nodes && pl in y.tables && y.tables[pl] in lists
      && SameData(nodes, now, NULL)
    requires k < |lists[y.tables[pl]]| && t in y.nodeOf && lists[y.tables[pl]][k] == y.nodeOf[t]
    requires forall i, j :: 0 <= i < j < |lists[y.tables[pl]]| ==> lists[y.tables[pl]][i] != lists[y.tables[pl]][j]
    requires forall n :: n in nodes ==> now[n].enlisted == (n != y.nodeOf[t] && nodes[n].enlisted)
    requires var l := lists[y.tables[pl]]; lists' == lists[y.tables[pl] := l[..k] + l[k + 1..]]
    requires pl in y.rows && |y.rows[pl]| == |lists[y.tables[pl]]|
    requires y' == y.(where := y.where - {t}, rows := y.rows[pl := y.rows[pl][..k] + y.rows[pl][k + 1..]])
    ensures LayoutOk(now, lists', y') && lists'[y.global] == lists[y.global]
      && Data(now, lists[y.global]) == Data(nodes, lists[y.global])
  {
    assert PlaceOk(nodes, lists, y, pl) && NodeAt(nodes, lists, y, t);
    var q, node := y.tables[pl], y.nodeOf[t];
    var l := lists[q];
    var r := l[..k] + l[k + 1..];
    assert nodes[l[k]].data == t;
    OnlyPlaceIs(nodes, lists, now, r, y, pl, node);
    LeftRefill(nodes, lists, now, y, pl, t, k);
    RowsLeft(nodes, now, l, k, pl.SleepTable?);
    TableChanges(nodes, lists, now, lists[q := r], y, y', pl, t);
  }

  // The tail leaves.
  lemma PoppedRows(nodes: Nodes, lists: map<int, seq<int>>, now: Nodes, lists': map<int, seq<int>>, y: Layout,
                   y': Layout, pl: Place, t: int)
    requires LayoutOk(nodes, lists, y) && NULL !in nodes && pl in y.tables && y.tables[pl] in lists
      && lists[y.tables[pl]] != [] && SameData(nodes, now, NULL)
    requires forall i, j :: 0 <= i < j < |lists[y.tables[pl]]| ==> lists[y.tables[pl]][i] != lists[y.tables[pl]][j]
    requires forall n :: n in nodes ==>
      now[n].enlisted == (n != lists[y.tables[pl]][|lists[y.tables[pl]]| - 1] && nodes[n].enlisted)
    requires var l := lists[y.tables[pl]];
      lists' == lists[y.tables[pl] := l[..|l| - 1]] && l[|l| - 1] in nodes && nodes[l[|l| - 1]].data == t
    requires pl in y.rows && |y.rows[pl]| == |lists[y.tables[pl]]|
    requires y' == y.(where := y.where - {t}, rows := y.rows[pl := y.rows[pl][..|y.rows[pl]| - 1]])
    ensures y.rows[pl][|y.rows[pl]| - 1].value == t && t in y.nodeOf && t !in y.blocked
    ensures LayoutOk(now, lists', y') && lists'[y.global] == lists[y.global]
      && Data(now, lists[y.global]) == Data(nodes, lists[y.global])
  {
    assert PlaceOk(nodes, lists, y, pl);
    var l, q := lists[y.tables[pl]], y.rows[pl];
    assert NodeAt(nodes, lists, y, t);
    assert l[..|l| - 1] + l[|l|..] == l[..|l| - 1] && q[..|l| - 1] + q[|l|..] == q[..|l| - 1];
    LeftRows(nodes, lists, now, lists', y, y', pl, t, |l| - 1);
  }

  lemma RowsLeft(nodes: Nodes, now: Nodes, l: seq<int>, k: nat, sleep: bool)
    requires InNodes(nodes, l) && SameData(nodes, now, NULL) && NULL !in nodes && k < |l|
    ensures InNodes(now, l[..k] + l[k + 1..])
    ensures var rows := Rows(nodes, l, sleep); Rows(now, l[..k] + l[k + 1..], sleep) == rows[..k] + rows[k + 1..]
  {
    var r := l[..k] + l[k + 1..];
    forall i | 0 <= i < |r|
      ensures r[i] in now && now[r[i]].data == nodes[r[i]].data && now[r[i]].priority == nodes[r[i]].priority {
      var n := r[i];
      assert n == l[if i < k then i else i + 1];
      assert n in nodes;
    }
  }

  // ----- Threads that come and go -----

  // New nodes do not disturb the layout.
  lemma NodesAdded(nodes: Nodes, lists: map<int, seq<int>>, now: Nodes, y: Layout)
    requires LayoutOk(nodes, lists, y) && forall n :: n in nodes ==> n in now && now[n] == nodes[n]
    ensures LayoutOk(now, lists, y) && Data(now, lists[y.global]) == Data(nodes, lists[y.global])
  {
    Kept(nodes, now, lists[y.global]);
    forall pl | pl in y.tables ensures PlaceOk(now, lists, y, pl) {
      assert PlaceOk(nodes, lists, y, pl);
      Kept(nodes, now, lists[y.tables[pl]]);
    }
    forall q | q in y.waits ensures WaitOk(now, lists, y, q) {
      assert WaitOk(nodes, lists, y, q);
      Kept(nodes, now, lists[q]);
    }
    forall t | t in y.nodeOf ensures NodeAt(now, lists, y, t) { assert NodeAt(nodes, lists, y, t); }
  }

  // A node becomes the scheduling node of a new thread.
  lemma NodeTaken(nodes: Nodes, lists: map<int, seq<int>>, y: Layout, y': Layout, id: int, node: int)
    requires LayoutOk(nodes, lists, y) && id !in y.nodeOf && node != NULL && node in nodes
    requires nodes[node].data == id && !nodes[node].enlisted && y' == y.(nodeOf := y.nodeOf[id := node])
    ensures LayoutOk(nodes, lists, y')
  {
    forall pl | pl in y'.tables ensures PlaceOk(nodes, lists, y', pl) { assert PlaceOk(nodes, lists, y, pl); }
    forall a, b | a in y'.tables && b in y'.tables && a != b ensures TwoPlaces(y', a, b) { assert TwoPlaces(y, a, b); }
    forall q | q in y'.waits ensures WaitOk(nodes, lists, y', q) { assert WaitOk(nodes, lists, y, q); }
    forall t | t in y'.nodeOf ensures NodeAt(nodes, lists, y', t) { if t != id { assert NodeAt(nodes, lists, y, t); } }
  }

  lemma NodeAdded(nodes: Nodes, lists: map<int, seq<int>>, now: Nodes, y: Layout, y': Layout, id: int, node: int)
    requires LayoutOk(nodes, lists, y) && id !in y.nodeOf && node != NULL && node in now
    requires now[node].data == id && !now[node].enlisted && forall n :: n in nodes ==> n in now && now[n] == nodes[n]
    requires y' == y.(nodeOf := y.nodeOf[id := node])
    ensures LayoutOk(now, lists, y') && Data(now, lists[y.global]) == Data(nodes, lists[y.global])
  {
    NodesAdded(nodes, lists, now, y);
    NodeTaken(now, lists, y, y', id, node);
  }

  lemma Kept(nodes: Nodes, now: Nodes, l: seq<int>)
    requires InNodes(nodes, l) && forall n :: n in nodes ==> n in now && now[n] == nodes[n]
    ensures InNodes(now, l) && forall i :: 0 <= i < |l| ==> now[l[i]] == nodes[l[i]]
  {
    forall i | 0 <= i < |l| ensures l[i] in now && now[l[i]] == nodes[l[i]] { var n := l[i]; assert n in nodes; }
  }

  // The global table gains or loses a node that is no scheduling node.
  lemma GlobalChanges(nodes: Nodes, lists: map<int, seq<int>>, now: Nodes, lists': map<int, seq<int>>, l: seq<int>,
                      y: Layout, node: int)
    requires LayoutOk(nodes, lists, y) && NULL !in nodes && SameData(nodes, now, NULL) && InNodes(now, l)
    requires forall n :: n in nodes && n != node ==> now[n].enlisted == nodes[n].enlisted
    requires forall t :: t in y.nodeOf ==> y.nodeOf[t] != node
    requires lists' == lists[y.global := l]
    ensures LayoutOk(now, lists', y)
  {
    forall pl | pl in y.tables ensures PlaceOk(now, lists', y, pl) {
      assert PlaceOk(nodes, lists, y, pl);
      var m := lists[y.tables[pl]];
      forall i | 0 <= i < |m|
        ensures m[i] in now && now[m[i]].data == nodes[m[i]].data { var n := m[i]; assert n in nodes; }
      forall i | 0 <= i < |m| ensures m[i] != NULL { var n := m[i]; assert n in nodes; }
      RowsSame(nodes, now, m, pl.SleepTable?, NULL);
    }
    forall q | q in y.waits ensures WaitOk(now, lists', y, q) {
      assert WaitOk(nodes, lists, y, q);
      ListKept(nodes, now, lists[q], NULL);
    }
    forall t | t in y.nodeOf ensures NodeAt(now, lists', y, t) {
      assert NodeAt(nodes, lists, y, t);
      if t in y.where { assert PlaceOk(nodes, lists, y, y.where[t]); }
      if t in y.blocked { assert WaitOk(nodes, lists, y, y.blocked[t]); }
    }
  }

  lemma StillIn(nodes: Nodes, now: Nodes, l: seq<int>, node: int)
    requires InNodes(nodes, l) && node !in l && (now == nodes || now == nodes - {node})
    ensures InNodes(now, l) && forall i :: 0 <= i < |l| ==> now[l[i]] == nodes[l[i]]
  {
    forall i | 0 <= i < |l| ensures l[i] in now { assert l[i] in l; }
  }

  // A thread without place loses its node.
  lemma NodeDropped(nodes: Nodes, lists: map<int, seq<int>>, now: Nodes, y: Layout, y': Layout, x: int)
    requires LayoutOk(nodes, lists, y) && x in y.nodeOf && x !in y.where && x !in y.blocked
    requires now == nodes || now == nodes - {y.nodeOf[x]}
    requires forall q :: q in lists ==> y.nodeOf[x] !in lists[q]
    requires y' == y.(nodeOf := y.nodeOf - {x})
    ensures LayoutOk(now, lists, y') && Data(now, lists[y.global]) == Data(nodes, lists[y.global])
  {
    assert NodeAt(nodes, lists, y, x);
    StillIn(nodes, now, lists[y.global], y.nodeOf[x]);
    forall pl | pl in y'.tables ensures PlaceOk(now, lists, y', pl) && PlaceOk(nodes, lists, y, pl) {
      assert PlaceOk(nodes, lists, y, pl);
      var l := lists[y.tables[pl]];
      StillIn(nodes, now, l, y.nodeOf[x]);
      forall i | 0 <= i < |l| ensures nodes[l[i]].data != x { assert l[i] in l; }
    }
    forall pl, ql | pl in y'.tables && ql in y'.tables && pl != ql
      ensures TwoPlaces(y', pl, ql) { assert TwoPlaces(y, pl, ql); }
    forall q | q in y'.waits ensures WaitOk(now, lists, y', q) {
      assert WaitOk(nodes, lists, y, q);
      StillIn(nodes, now, lists[q], y.nodeOf[x]);
      forall i | 0 <= i < |lists[q]| ensures nodes[lists[q][i]].data != x { assert lists[q][i] in lists[q]; }
    }
    forall t | t in y'.nodeOf ensures NodeAt(now, lists, y', t) {
      assert NodeAt(nodes, lists, y, t);
    }
  }

  // A node that is no scheduling node and in no queue may be freed.
  lemma OtherDropped(nodes: Nodes, lists: map<int, seq<int>>, y: Layout, node: int)
    requires LayoutOk(nodes, lists, y) && (forall t :: t in y.nodeOf ==> y.nodeOf[t] != node)
    requires forall q :: q in lists ==> node !in lists[q]
    ensures LayoutOk(nodes - {node}, lists, y)
    ensures Data(nodes - {node}, lists[y.global]) == Data(nodes, lists[y.global])
  {
    var now := nodes - {node};
    StillIn(nodes, now, lists[y.global], node);
    forall pl | pl in y.tables ensures PlaceOk(now, lists, y, pl) && PlaceOk(nodes, lists, y, pl) {
      assert PlaceOk(nodes, lists, y, pl);
      StillIn(nodes, now, lists[y.tables[pl]], node);
    }
    forall q | q in y.waits ensures WaitOk(now, lists, y, q) {
      assert WaitOk(nodes, lists, y, q);
      StillIn(nodes, now, lists[q], node);
    }
    forall t | t in y.nodeOf ensures NodeAt(now, lists, y, t) { assert NodeAt(nodes, lists, y, t); }
  }

  // A new node, which is no scheduling node, is pushed on the global table.
  lemma GlobalPushed(nodes: Nodes, lists: map<int, seq<int>>, now: Nodes, lists': map<int, seq<int>>, y: Layout,
                     node: int)
    requires LayoutOk(nodes, lists, y) && NULL !in nodes && node in nodes && SameData(nodes, now, NULL)
    requires forall n :: n in nodes && n != node ==> now[n].enlisted == nodes[n].enlisted
    requires forall t :: t in y.nodeOf ==> y.nodeOf[t] != node
    requires lists' == lists[y.global := [node] + lists[y.global]]
    ensures LayoutOk(now, lists', y) && Data(now, lists'[y.global]) == [nodes[node].data] + Data(nodes, lists[y.global])
  {
    var l := lists[y.global];
    ListKept(nodes, now, l, NULL);
    GlobalChanges(nodes, lists, now, lists', [node] + l, y, node);
  }

  // ----- Wait queues -----

  // What an operation on the wait queue q by the thread t leaves alone.
  ghost predicate OnlyWait(nodes: Nodes, lists: map<int, seq<int>>, now: Nodes, lists': map<int, seq<int>>, q: int,
                           node: int) {
    && q in lists' && lists' == lists[q := lists'[q]] && SameData(nodes, now, NULL) && NULL !in nodes
    && forall n :: n in nodes && n != node ==> now[n].enlisted == nodes[n].enlisted
  }

  // The nodes of the wait queue after the change are those of the threads that wait there.
  ghost predicate Waiters(now: Nodes, nodeOf: map<int, int>, blocked: map<int, int>, q: int, l: seq<int>) {
    && InNodes(now, l)
    && (forall i :: 0 <= i < |l| ==>
          var u := now[l[i]].data; u in nodeOf && nodeOf[u] == l[i] && u in blocked && blocked[u] == q)
    && (forall u :: u in blocked && blocked[u] == q ==> u in nodeOf && nodeOf[u] in l)
  }

  /** When one thread enters or leaves a wait queue, the layout stays right, and no table and no other wait queue
      changes. */
  lemma WaitChanges(nodes: Nodes, lists: map<int, seq<int>>, now: Nodes, lists': map<int, seq<int>>, y: Layout,
                    y': Layout, q: int, t: int)
    requires LayoutOk(nodes, lists, y) && q in y.waits && t in y.nodeOf && t !in y.where
    requires OnlyWait(nodes, lists, now, lists', q, y.nodeOf[t])
    requires y' == y.(blocked := y'.blocked, waits := y'.waits)
    requires forall u :: u != t ==>
      (u in y'.blocked <==> u in y.blocked) && (u in y.blocked ==> y'.blocked[u] == y.blocked[u])
    requires t in y.blocked ==> y.blocked[t] == q
    requires t in y'.blocked ==> y'.blocked[t] == q
    requires Waiters(now, y.nodeOf, y'.blocked, q, lists'[q]) && y'.waits == y.waits[q := Data(now, lists'[q])]
    requires y.nodeOf[t] in now && (now[y.nodeOf[t]].enlisted <==> t in y'.blocked)
    ensures LayoutOk(now, lists', y')
    ensures lists'[y.global] == lists[y.global] && Data(now, lists[y.global]) == Data(nodes, lists[y.global])
  {
    assert WaitOk(nodes, lists, y, q) && NodeAt(nodes, lists, y, t);
    assert forall u :: u in y'.blocked ==> u in y'.nodeOf;
    forall pl | pl in y'.tables
      ensures PlaceOk(now, lists', y', pl) { WaitTable(nodes, lists, now, lists', y, y', q, pl, y.nodeOf[t]); }
    forall a, b | a in y'.tables && b in y'.tables && a != b ensures TwoPlaces(y', a, b) { assert TwoPlaces(y, a, b); }
    forall w | w in y'.waits
      ensures WaitOk(now, lists', y', w) { WaitOther(nodes, lists, now, lists', y, y', q, w, t); }
    forall u | u in y'.nodeOf
      ensures NodeAt(now, lists', y', u) { WaitNode(nodes, lists, now, lists', y, y', q, t, u); }
    ListKept(nodes, now, lists[y.global], NULL);
  }

  lemma WaitTable(nodes: Nodes, lists: map<int, seq<int>>, now: Nodes, lists': map<int, seq<int>>, y: Layout,
                  y': Layout, q: int, pl: Place, node: int)
    requires LayoutOk(nodes, lists, y) && q in y.waits && pl in y.tables && OnlyWait(nodes, lists, now, lists', q, node)
    requires y' == y.(blocked := y'.blocked, waits := y'.waits)
    ensures PlaceOk(now, lists', y', pl)
  {
    assert WaitOk(nodes, lists, y, q) && PlaceOk(nodes, lists, y, pl);
    assert y.tables[pl] in y.tables.Values;
    var l := lists[y.tables[pl]];
    ListKept(nodes, now, l, NULL);
    forall i | 0 <= i < |l| ensures l[i] != NULL { var n := l[i]; assert n in nodes; }
    RowsSame(nodes, now, l, pl.SleepTable?, NULL);
  }

  lemma WaitOther(nodes: Nodes, lists: map<int, seq<int>>, now: Nodes, lists': map<int, seq<int>>, y: Layout,
                  y': Layout, q: int, w: int, t: int)
    requires LayoutOk(nodes, lists, y) && q in y.waits && t in y.nodeOf && w in y'.waits
    requires OnlyWait(nodes, lists, now, lists', q, y.nodeOf[t])
    requires y' == y.(blocked := y'.blocked, waits := y'.waits)
    requires forall u :: u != t ==>
      (u in y'.blocked <==> u in y.blocked) && (u in y.blocked ==> y'.blocked[u] == y.blocked[u])
    requires t in y.blocked ==> y.blocked[t] == q
    requires Waiters(now, y.nodeOf, y'.blocked, q, lists'[q]) && y'.waits == y.waits[q := Data(now, lists'[q])]
    ensures WaitOk(now, lists', y', w)
  {
    assert WaitOk(nodes, lists, y, q) && WaitOk(nodes, lists, y, w);
    if w != q {
      ListKept(nodes, now, lists[w], NULL);
      forall i | 0 <= i < |lists[w]| ensures nodes[lists[w][i]].data != t {}
    }
  }

  lemma WaitNode(nodes: Nodes, lists: map<int, seq<int>>, now: Nodes, lists': map<int, seq<int>>, y: Layout,
                 y': Layout, q: int, t: int, u: int)
    requires LayoutOk(nodes, lists, y) && q in y.waits && t in y.nodeOf && t !in y.where && u in y.nodeOf
    requires OnlyWait(nodes, lists, now, lists', q, y.nodeOf[t])
    requires y' == y.(blocked := y'.blocked, waits := y'.waits)
    requires u != t ==> (u in y'.blocked <==> u in y.blocked) && (u in y.blocked ==> y'.blocked[u] == y.blocked[u])
    requires t in y'.blocked ==> y'.blocked[t] == q
    requires Waiters(now, y.nodeOf, y'.blocked, q, lists'[q]) && y'.waits == y.waits[q := Data(now, lists'[q])]
    requires y.nodeOf[t] in now && (now[y.nodeOf[t]].enlisted <==> t in y'.blocked)
    ensures NodeAt(now, lists', y', u)
  {
    assert WaitOk(nodes, lists, y, q) && NodeAt(nodes, lists, y, u) && NodeAt(nodes, lists, y, t);
    if u in y.where {
      assert PlaceOk(nodes, lists, y, y.where[u]) && y.tables[y.where[u]] in y.tables.Values;
    }
  }

  // A thread that is in no table and in no wait queue is pushed on one.
  lemma WaitPushed(nodes: Nodes, lists: map<int, seq<int>>, now: Nodes, lists': map<int, seq<int>>, y: Layout,
                   y': Layout, q: int, t: int)
    requires LayoutOk(nodes, lists, y) && NULL !in nodes && q in y.waits && q in lists
    requires t in y.nodeOf && t !in y.where && t !in y.blocked && SameData(nodes, now, NULL)
    requires forall n :: n in nodes ==> now[n].enlisted == (n == y.nodeOf[t] || nodes[n].enlisted)
    requires lists' == lists[q := [y.nodeOf[t]] + lists[q]]
    requires y' == y.(blocked := y.blocked[t := q], waits := y.waits[q := [t] + y.waits[q]])
    ensures LayoutOk(now, lists', y') && lists'[y.global] == lists[y.global]
      && Data(now, lists[y.global]) == Data(nodes, lists[y.global])
  {
    assert WaitOk(nodes, lists, y, q) && NodeAt(nodes, lists, y, t);
    var node, l := y.nodeOf[t], lists[q];
    var r := [node] + l;
    ListKept(nodes, now, l, NULL);
    forall i | 0 <= i < |r| ensures r[i] in now { if i > 0 { assert r[i] == l[i - 1]; } }
    assert Data(now, r) == [t] + Data(nodes, l);
    forall u | u in y'.blocked && y'.blocked[u] == q ensures u in y.nodeOf && y.nodeOf[u] in r {
      if u != t { assert NodeAt(nodes, lists, y, u); }
    }
    WaitChanges(nodes, lists, now, lists', y, y', q, t);
  }

  // The tail of a wait queue is popped.
  lemma WaitPopped(nodes: Nodes, lists: map<int, seq<int>>, now: Nodes, lists': map<int, seq<int>>, y: Layout,
                   y': Layout, q: int, t: int)
    requires LayoutOk(nodes, lists, y) && NULL !in nodes && q in y.waits && q in lists && lists[q] != []
      && SameData(nodes, now, NULL)
    requires forall i, j :: 0 <= i < j < |lists[q]| ==> lists[q][i] != lists[q][j]
    requires forall n :: n in nodes ==> now[n].enlisted == (n != lists[q][|lists[q]| - 1] && nodes[n].enlisted)
    requires lists' == lists[q := lists[q][..|lists[q]| - 1]] && y.waits[q] != [] && t == y.waits[q][|y.waits[q]| - 1]
    requires y' == y.(blocked := y.blocked - {t}, waits := y.waits[q := y.waits[q][..|y.waits[q]| - 1]])
    ensures t in y.nodeOf && t !in y.where && lists[q][|lists[q]| - 1] == y.nodeOf[t]
    ensures LayoutOk(now, lists', y') && lists'[y.global] == lists[y.global]
      && Data(now, lists[y.global]) == Data(nodes, lists[y.global])
  {
    assert WaitOk(nodes, lists, y, q);
    var l, w := lists[q], y.waits[q];
    var r := l[..|l| - 1];
    assert NodeAt(nodes, lists, y, t);
    ListKept(nodes, now, l, NULL);
    assert Data(now, r) == w[..|w| - 1];
    forall i | 0 <= i < |r| ensures now[r[i]].data != t { assert r[i] == l[i]; }
    forall u | u in y'.blocked && y'.blocked[u] == q ensures u in y.nodeOf && y.nodeOf[u] in r {
      assert NodeAt(nodes, lists, y, u);
      var i :| 0 <= i < |l| && l[i] == y.nodeOf[u];
      assert i < |l| - 1;
      assert r[i] == l[i];
    }
    WaitChanges(nodes, lists, now, lists', y, y', q, t);
  }

  // An empty queue beside all others becomes a wait queue.
  lemma WaitCreated(nodes: Nodes, lists: map<int, seq<int>>, lists': map<int, seq<int>>, y: Layout, y': Layout, q: int)
    requires LayoutOk(nodes, lists, y) && q != NULL && q !in lists
    requires lists' == lists[q := []] && y' == y.(waits := y.waits[q := []])
    ensures LayoutOk(nodes, lists', y') && lists'[y.global] == lists[y.global]
  {
    forall pl | pl in y.tables ensures PlaceOk(nodes, lists', y', pl) { assert PlaceOk(nodes, lists, y, pl); }
    forall a, b | a in y.tables && b in y.tables && a != b ensures TwoPlaces(y', a, b) { assert TwoPlaces(y, a, b); }
    forall pl | pl in y.tables ensures y.tables[pl] != q { assert PlaceOk(nodes, lists, y, pl); }
    forall w | w in y'.waits ensures WaitOk(nodes, lists', y', w) {
      if w != q { assert WaitOk(nodes, lists, y, w); }
    }
    forall t | t in y.nodeOf ensures NodeAt(nodes, lists', y', t) { assert NodeAt(nodes, lists, y, t); }
  }

  // ----- Find followed by remove -----

  // In a table it takes the first entry of x out, in the global table the first occurrence.
  lemma FoundRows(nodes: Nodes, l: seq<int>, k: nat, x: int)
    requires InNodes(nodes, l) && k <= |l| && (forall i :: 0 <= i < k ==> nodes[l[i]].data != x)
      && (k < |l| ==> nodes[l[k]].data == x)
    ensures var rows := Rows(nodes, l, false); Without(rows, x) == if k < |l| then rows[..k] + rows[k + 1..] else rows
  {
    var rows := Rows(nodes, l, false);
    if k < |l| { WithoutAt(rows, x, k); } else { WithoutNone(rows, x); }
  }

  lemma FoundData(nodes: Nodes, l: seq<int>, k: nat, x: int)
    requires InNodes(nodes, l) && k < |l| && (forall i :: 0 <= i < k ==> nodes[l[i]].data != x) && nodes[l[k]].data == x
    ensures Drop(Data(nodes, l), x) == Data(nodes, l)[..k] + Data(nodes, l)[k + 1..]
  {
    DropAt(Data(nodes, l), x, k);
  }

  lemma DataLeft(nodes: Nodes, now: Nodes, l: seq<int>, k: nat)
    requires InNodes(nodes, l) && SameData(nodes, now, NULL) && k < |l|
    ensures InNodes(now, l[..k] + l[k + 1..])
    ensures Data(now, l[..k] + l[k + 1..]) == Data(nodes, l)[..k] + Data(nodes, l)[k + 1..]
  {
    var r := l[..k] + l[k + 1..];
    forall i | 0 <= i < |r| ensures r[i] in now && now[r[i]].data == nodes[r[i]].data {
      var n := r[i];
      assert n == l[if i < k then i else i + 1];
      assert n in nodes;
    }
  }

  // No scheduling node is in the global table.
  lemma GlobalNotScheduling(nodes: Nodes, queues: map<int, QueueRecord>, lists: map<int, seq<int>>,
                            removed: map<int, nat>, y: Layout, node: int)
    requires AllOk(nodes, queues, lists, removed) && LayoutOk(nodes, lists, y) && node in lists[y.global]
    ensures forall t :: t in y.nodeOf ==> y.nodeOf[t] != node
  {
    QueueAt(nodes, queues, lists, removed, y.global);
    var i :| 0 <= i < |lists[y.global]| && lists[y.global][i] == node;
    assert At(nodes, lists[y.global], i);
    forall t | t in y.nodeOf ensures y.nodeOf[t] != node {
      assert NodeAt(nodes, lists, y, t);
      if t in y.where {
        assert PlaceOk(nodes, lists, y, y.where[t]);
        assert Apart(lists, y.global, y.tables[y.where[t]]);
      }
      if t in y.blocked {
        assert WaitOk(nodes, lists, y, y.blocked[t]);
        assert Apart(lists, y.global, y.blocked[t]);
      }
    }
  }
}
