/**
 The breadth-first labelling of the islands of a grid, and its exactness.
 */
module AvatarIslands {
  import opened Machine
  import opened Grids

  // ----- What a labelling means

  /** Labels are exactly 1 to count on foreground cells and 0 elsewhere, and two
      foreground cells share one exactly when a path of neighbours joins them. */
  ghost predicate Exact(cells: seq<bool>, grid: nat, conn: nat, labels: seq<int>, count: nat)
    requires grid * grid <= |cells|
  {
    && |labels| == grid * grid
    && (forall i | 0 <= i < |labels| :: 0 <= labels[i] <= count && (labels[i] != 0 <==> cells[i]))
    && (forall l | 1 <= l <= count :: l in labels)
    && (forall i, j | 0 <= i < |labels| && 0 <= j < |labels| && cells[i] && cells[j] ::
          labels[i] == labels[j] <==> Connected(cells, grid, conn, i, j))
  }

  /** Islands are numbered in the order the scan meets them: before any cell of one there
      is a cell of the one before it. */
  ghost predicate InScanOrder(labels: seq<int>) {
    forall i: nat | i < |labels| && labels[i] > 1 :: exists j: nat | j < i :: labels[j] == labels[i] - 1
  }

  /** A label of a partial labelling belongs to one root, and reaches only cells connected to it. */
  ghost predicate Rooted(cells: seq<bool>, grid: nat, conn: nat, labels: seq<int>, roots: seq<nat>)
    requires grid * grid <= |cells|
  {
    && |labels| == grid * grid
    && (forall k | 0 <= k < |roots| :: roots[k] < grid * grid && labels[roots[k]] == k + 1)
    && (forall i | 0 <= i < |labels| :: 0 <= labels[i] <= |roots|)
    && (forall i | 0 <= i < |labels| && labels[i] != 0 ::
          cells[i] && Connected(cells, grid, conn, roots[labels[i] - 1], i))
  }

  /** Labels spread to every foreground neighbour, except from the cells still waiting. */
  ghost predicate Spread(cells: seq<bool>, grid: nat, conn: nat, labels: seq<int>, waiting: set<nat>)
    requires grid * grid <= |cells|
  {
    && |labels| == grid * grid
    && forall i, j | 0 <= i < |labels| && 0 <= j < |labels| && grid > 0 && labels[i] != 0 && i !in waiting
         && Adjacent(i, j, grid, conn) && cells[j] :: labels[j] == labels[i]
  }

  lemma {:induction false} SpreadAlong(cells: seq<bool>, grid: nat, conn: nat, labels: seq<int>, p: seq<nat>)
    requires grid * grid <= |cells| && Spread(cells, grid, conn, labels, {})
    requires Path(cells, grid, conn, p) && labels[p[0]] != 0
    ensures labels[p[|p| - 1]] == labels[p[0]]
    decreases |p|
  {
    hide Adjacent;
    if |p| > 1 {
      var q := p[..|p| - 1];
      assert forall k | 0 <= k < |q| - 1 :: Adjacent(q[k], q[k + 1], grid, conn) by {
        forall k | 0 <= k < |q| - 1 ensures Adjacent(q[k], q[k + 1], grid, conn) {
          assert Adjacent(p[k], p[k + 1], grid, conn);
        }
      }
      assert Path(cells, grid, conn, q);
      SpreadAlong(cells, grid, conn, labels, q);
      assert Adjacent(p[|p| - 2], p[|p| - 1], grid, conn);
    }
  }

  lemma RootedSpreadIsExact(cells: seq<bool>, grid: nat, conn: nat, labels: seq<int>, roots: seq<nat>)
    requires grid * grid <= |cells|
    requires Rooted(cells, grid, conn, labels, roots) && Spread(cells, grid, conn, labels, {})
    requires forall i | 0 <= i < grid * grid && cells[i] :: labels[i] != 0
    ensures Exact(cells, grid, conn, labels, |roots|)
  {
    hide Spread;
    forall l | 1 <= l <= |roots| ensures l in labels {
      assert labels[roots[l - 1]] == l;
    }
    forall i: nat, j: nat | i < |labels| && j < |labels| && cells[i] && cells[j]
      ensures labels[i] == labels[j] <==> Connected(cells, grid, conn, i, j)
    {
      if labels[i] == labels[j] {
        var r := roots[labels[i] - 1];
        ConnectedSymmetric(cells, grid, conn, r, i);
        ConnectedTransitive(cells, grid, conn, i, r, j);
      } else if Connected(cells, grid, conn, i, j) {
        var p: seq<nat> :| Path(cells, grid, conn, p) && p[0] == i && p[|p| - 1] == j;
        SpreadAlong(cells, grid, conn, labels, p);
      }
    }
  }

  // ----- Labelling, one island at a time

  /** While flooding from `start`: old labels stand, the new label marks exactly the
      queued cells, and only the unvisited end of the queue has yet to spread it. */
  ghost predicate Flooding(
      cells: seq<bool>, grid: nat, conn: nat, before: seq<int>, labels: seq<int>,
      start: nat, mark: int, queue: seq<nat>, waiting: set<nat>)
    requires grid * grid <= |cells|
  {
    && |before| == |labels| == grid * grid && start < |labels| && mark > 0
    && (forall i | 0 <= i < |labels| :: before[i] < mark)
    && (forall i | 0 <= i < |labels| :: if before[i] != 0 then labels[i] == before[i] else labels[i] in {0, mark})
    && (forall i: nat | i < |labels| :: labels[i] == mark <==> i in queue)
    && (forall i | i in queue :: i < |labels| && cells[i] && Connected(cells, grid, conn, start, i))
    && start in queue
    && Spread(cells, grid, conn, before, {})
    && Spread(cells, grid, conn, labels, waiting)
  }

  /** The cells of the queue from position `from` on. */
  function Tail(queue: seq<nat>, from: nat): set<nat>
    requires from <= |queue|
  {
    set i | i in queue[from..]
  }

  lemma FloodBegins(cells: seq<bool>, grid: nat, conn: nat, before: seq<int>, start: nat, mark: int)
    requires grid * grid <= |cells| && |before| == grid * grid && start < |before| && mark > 0 && grid > 0
    requires cells[start] && before[start] == 0 && (forall i | 0 <= i < |before| :: 0 <= before[i] < mark)
    requires Spread(cells, grid, conn, before, {})
    ensures Flooding(cells, grid, conn, before, before[start := mark], start, mark, [start], {start})
  {
    hide Adjacent;
    ConnectedSelf(cells, grid, conn, start);
    var labels := before[start := mark];
    forall i, j | 0 <= i < |labels| && 0 <= j < |labels| && labels[i] != 0 && i !in {start}
      && Adjacent(i, j, grid, conn) && cells[j] ensures labels[j] == labels[i]
    {
      assert before[j] == before[i];
    }
  }

  /** A foreground neighbour without a label takes this one and joins the queue. */
  lemma FloodTakes(cells: seq<bool>, grid: nat, conn: nat, before: seq<int>, labels: seq<int>,
                   start: nat, mark: int, queue: seq<nat>, waiting: set<nat>, cur: nat, ni: nat)
    requires grid * grid <= |cells| && grid > 0
    requires Flooding(cells, grid, conn, before, labels, start, mark, queue, waiting)
    requires cur in queue && ni < |labels| && cells[ni] && labels[ni] == 0
    requires Adjacent(cur, ni, grid, conn)
    ensures Flooding(cells, grid, conn, before, labels[ni := mark], start, mark, queue + [ni], waiting + {ni})
  {
    hide Adjacent, Connected;
    ConnectedStep(cells, grid, conn, start, cur, ni);
    var labels', queue' := labels[ni := mark], queue + [ni];
    assert forall i :: i in queue' <==> i in queue || i == ni;
    forall i, j | 0 <= i < |labels| && 0 <= j < |labels| && labels'[i] != 0 && i !in waiting + {ni}
      && Adjacent(i, j, grid, conn) && cells[j] ensures labels'[j] == labels'[i]
    {
      assert labels[j] == labels[i];
    }
  }

  /** Once all its neighbours are labelled, a cell stops waiting: none of them can
      carry an older mark, since that island would have claimed this cell too. */
  lemma FloodVisited(cells: seq<bool>, grid: nat, conn: nat, before: seq<int>, labels: seq<int>,
                     start: nat, mark: int, queue: seq<nat>, waiting: set<nat>, cur: nat)
    requires grid * grid <= |cells| && grid > 0
    requires Flooding(cells, grid, conn, before, labels, start, mark, queue, waiting)
    requires cur in queue
    requires forall j: nat | j < |labels| && Adjacent(cur, j, grid, conn) && cells[j] :: labels[j] != 0
    ensures Flooding(cells, grid, conn, before, labels, start, mark, queue, waiting - {cur})
  {
    hide Adjacent, Connected;
    assert before[cur] == 0;
    forall j: nat | j < |labels| && Adjacent(cur, j, grid, conn) && cells[j] ensures labels[j] == mark {
      AdjacentSymmetric(cur, j, grid, conn);
      assert before[j] == 0;
    }
    forall i: nat, j: nat | i < |labels| && j < |labels| && labels[i] != 0 && i !in waiting - {cur}
      && Adjacent(i, j, grid, conn) && cells[j] ensures labels[j] == labels[i]
    {
      if i == cur { assert labels[cur] == mark; }
    }
  }

  lemma FloodEnds(cells: seq<bool>, grid: nat, conn: nat, before: seq<int>, labels: seq<int>,
                  start: nat, queue: seq<nat>, roots: seq<nat>)
    requires grid * grid <= |cells|
    requires Rooted(cells, grid, conn, before, roots) && start < |before| && before[start] == 0
    requires Flooding(cells, grid, conn, before, labels, start, |roots| + 1, queue, {})
    ensures Rooted(cells, grid, conn, labels, roots + [start]) && Spread(cells, grid, conn, labels, {})
    ensures forall i | 0 <= i < |labels| ::
              if before[i] != 0 then labels[i] == before[i] else labels[i] in {0, |roots| + 1}
    ensures labels[start] != 0
  {
    hide Connected, Spread, Rooted;
    assert forall i: nat | i < |labels| && labels[i] == |roots| + 1 :: i in queue;
    NewRoot(cells, grid, conn, before, labels, start, roots);
  }

  lemma NewRoot(cells: seq<bool>, grid: nat, conn: nat, before: seq<int>, labels: seq<int>,
                start: nat, roots: seq<nat>)
    requires grid * grid <= |cells|
    requires Rooted(cells, grid, conn, before, roots) && start < |before| == |labels| && before[start] == 0
    requires forall i | 0 <= i < |labels| ::
      if before[i] != 0 then labels[i] == before[i] else labels[i] in {0, |roots| + 1}
    requires forall i: nat | i < |labels| && labels[i] == |roots| + 1 ::
      cells[i] && Connected(cells, grid, conn, start, i)
    requires labels[start] == |roots| + 1
    ensures Rooted(cells, grid, conn, labels, roots + [start])
  {
    hide Connected;
    var roots' := roots + [start];
    forall k | 0 <= k < |roots'| ensures roots'[k] < grid * grid && labels[roots'[k]] == k + 1 {
      if k < |roots| { assert before[roots[k]] == k + 1; }
    }
    forall i: nat | i < |labels| && labels[i] != 0
      ensures cells[i] && Connected(cells, grid, conn, roots'[labels[i] - 1], i)
    {
      if before[i] != 0 { assert roots'[labels[i] - 1] == roots[before[i] - 1]; }
    }
  }

  lemma RootedShape(cells: seq<bool>, grid: nat, conn: nat, labels: seq<int>, roots: seq<nat>)
    requires grid * grid <= |cells| && Rooted(cells, grid, conn, labels, roots)
    ensures |labels| == grid * grid && forall i | 0 <= i < |labels| :: 0 <= labels[i] <= |roots|
  {
  }

  /** The cells without a label, which every push makes fewer. */
  ghost function Unlabelled(labels: seq<int>): set<nat> {
    set i: nat | i < |labels| && labels[i] == 0
  }

  /** Taking one neighbour: it waits at the end of the queue, and one cell fewer is unlabelled. */
  lemma TakeOne(cells: seq<bool>, grid: nat, conn: nat, before: seq<int>, labels: seq<int>,
                start: nat, mark: int, queue: seq<nat>, from: nat, waiting: set<nat>, cur: nat, ni: nat)
      returns (labels': seq<int>, queue': seq<nat>)
    requires grid * grid <= |cells| && grid > 0 && from <= |queue|
    requires Flooding(cells, grid, conn, before, labels, start, mark, queue, waiting + Tail(queue, from))
    requires cur in queue && ni < |labels| && cells[ni] && labels[ni] == 0 && Adjacent(cur, ni, grid, conn)
    ensures labels' == labels[ni := mark] && queue' == queue + [ni] && queue'[..from] == queue[..from] && cur in queue'
    ensures Flooding(cells, grid, conn, before, labels', start, mark, queue', waiting + Tail(queue', from))
    ensures Unlabelled(labels') < Unlabelled(labels) && mark != 0
  {
    hide Adjacent, Flooding, Tail;
    labels', queue' := labels[ni := mark], queue + [ni];
    FloodTakes(cells, grid, conn, before, labels, start, mark, queue, waiting + Tail(queue, from), cur, ni);
    FloodShape(cells, grid, conn, before, labels, start, mark, queue, waiting + Tail(queue, from));
    TailGrows(queue, from, ni);
    assert waiting + Tail(queue', from) == waiting + Tail(queue, from) + {ni};
    assert ni in Unlabelled(labels) && ni !in Unlabelled(labels');
  }

  /** A new label unsettles no direction. */
  lemma StillSettled(cells: seq<bool>, grid: nat, conn: nat, labels: seq<int>, labels': seq<int>, cur: nat, d: nat)
    requires grid > 0 && d <= |Dirs(conn)| && |labels'| == |labels|
    requires forall i | 0 <= i < |labels| && labels[i] != 0 :: labels'[i] != 0
    requires forall e | 0 <= e < d :: Settled(cells, labels, Neighbour(cur, Dirs(conn)[e], grid))
    ensures forall e | 0 <= e < d :: Settled(cells, labels', Neighbour(cur, Dirs(conn)[e], grid))
  {
    hide Neighbour;
  }

  /** Look at every neighbour of one cell; label and queue those that are new. */
  method Visit(cells: seq<bool>, grid: nat, conn: nat, labels: array<int>, mark: int, cur: nat, queue0: seq<nat>,
               ghost before: seq<int>, ghost start: nat, ghost waiting: set<nat>) returns (queue: seq<nat>)
    requires grid * grid <= |cells| && grid > 0 && cur in queue0
    requires Flooding(cells, grid, conn, before, labels[..], start, mark, queue0, waiting)
    modifies labels
    ensures |queue| >= |queue0| && queue[..|queue0|] == queue0
    ensures Flooding(cells, grid, conn, before, labels[..], start, mark, queue,
                     waiting + Tail(queue, |queue0|))
    ensures forall j: nat | j < labels.Length && Adjacent(cur, j, grid, conn) && cells[j] :: labels[j] != 0
    ensures Unlabelled(labels[..]) <= Unlabelled(old(labels[..]))
    ensures queue != queue0 ==> Unlabelled(labels[..]) < Unlabelled(old(labels[..]))
  {
    hide Adjacent, Flooding, Neighbour;
    queue := queue0;
    assert Tail(queue, |queue0|) == {};
    assert waiting + {} == waiting;
    FloodShape(cells, grid, conn, before, labels[..], start, mark, queue0, waiting);
    for d := 0 to |Dirs(conn)|
      invariant |queue| >= |queue0| && queue[..|queue0|] == queue0 && cur in queue
      invariant Flooding(cells, grid, conn, before, labels[..], start, mark, queue, waiting + Tail(queue, |queue0|))
      invariant forall e | 0 <= e < d :: Settled(cells, labels[..], Neighbour(cur, Dirs(conn)[e], grid))
      invariant Unlabelled(labels[..]) <= Unlabelled(old(labels[..]))
      invariant queue != queue0 ==> Unlabelled(labels[..]) < Unlabelled(old(labels[..]))
    {
      var next := Neighbour(cur, Dirs(conn)[d], grid);
      if next.Some? {
        NeighbourIsAdjacent(cur, d, grid, conn);
        if cells[next.value] && labels[next.value] == 0 {
          ghost var was := labels[..];
          ghost var l, q := TakeOne(cells, grid, conn, before, labels[..], start, mark, queue, |queue0|, waiting, cur, next.value);
          labels[next.value] := mark;
          queue := queue + [next.value];
          assert labels[..] == l;
          StillSettled(cells, grid, conn, was, l, cur, d);
        }
      }
    }
    forall j: nat | j < labels.Length && Adjacent(cur, j, grid, conn) && cells[j] ensures labels[j] != 0 {
      var k := AdjacentIsNeighbour(cur, j, grid, conn);
      assert Settled(cells, labels[..], Neighbour(cur, Dirs(conn)[k], grid));
    }
  }

  /** Nothing more to do in this direction. */
  predicate Settled(cells: seq<bool>, labels: seq<int>, next: Option<nat>) {
    next.Some? && next.value < |cells| && next.value < |labels| && cells[next.value] ==> labels[next.value] != 0
  }

  lemma TailGrows(queue: seq<nat>, from: nat, ni: nat)
    requires from <= |queue|
    ensures Tail(queue + [ni], from) == Tail(queue, from) + {ni}
  {
    assert (queue + [ni])[from..] == queue[from..] + [ni];
  }

  lemma FloodShape(cells: seq<bool>, grid: nat, conn: nat, before: seq<int>, labels: seq<int>,
                   start: nat, mark: int, queue: seq<nat>, waiting: set<nat>)
    requires grid * grid <= |cells| && Flooding(cells, grid, conn, before, labels, start, mark, queue, waiting)
    ensures |labels| == grid * grid && mark > 0 && forall i | i in queue :: i < grid * grid
  {
  }

  /** Breadth-first search from one unlabelled cell. */
  method Flood(cells: seq<bool>, grid: nat, conn: nat, labels: array<int>, start: nat, mark: int, ghost roots: seq<nat>)
    requires grid * grid <= |cells| && labels.Length == grid * grid && start < labels.Length
    requires cells[start] && labels[start] == 0 && mark == |roots| + 1
    requires Rooted(cells, grid, conn, labels[..], roots) && Spread(cells, grid, conn, labels[..], {})
    modifies labels
    ensures Rooted(cells, grid, conn, labels[..], roots + [start]) && Spread(cells, grid, conn, labels[..], {})
    ensures forall i | 0 <= i < labels.Length ::
              if old(labels[i]) != 0 then labels[i] == old(labels[i]) else labels[i] in {0, mark}
    ensures labels[start] != 0
  {
    hide Flooding, Rooted, Spread;
    ghost var before := labels[..];
    GridIsNotEmpty(grid, start);
    RootedShape(cells, grid, conn, before, roots);
    FloodBegins(cells, grid, conn, before, start, mark);
    labels[start] := mark;
    assert labels[..] == before[start := mark];
    var queue := [start];
    var qi := 0;
    assert Tail(queue, 0) == {start};
    while qi < |queue|
      invariant qi <= |queue|
      invariant Flooding(cells, grid, conn, before, labels[..], start, mark, queue, Tail(queue, qi))
      decreases Unlabelled(labels[..]), |queue| - qi
    {
      var cur := queue[qi];
      qi := qi + 1;
      ghost var waiting, queue0 := Tail(queue, qi - 1), queue;
      assert cur in queue;
      queue := Visit(cells, grid, conn, labels, mark, cur, queue, before, start, waiting);
      assert cur in queue by { assert queue[..|queue0|][qi - 1] == cur; }
      FloodVisited(cells, grid, conn, before, labels[..], start, mark, queue, waiting + Tail(queue, |queue0|), cur);
      TailMoves(queue0, queue, qi);
      FloodWaits(cells, grid, conn, before, labels[..], start, mark, queue,
                 waiting + Tail(queue, |queue0|) - {cur}, Tail(queue, qi));
    }
    assert Tail(queue, |queue|) == {};
    FloodEnds(cells, grid, conn, before, labels[..], start, queue, roots);
  }

  lemma GridIsNotEmpty(grid: nat, start: nat)
    requires start < grid * grid
    ensures grid > 0
  {
  }

  /** What waits after a visit: the rest of the old queue and all that was added. */
  lemma TailMoves(queue0: seq<nat>, queue: seq<nat>, qi: nat)
    requires 0 < qi <= |queue0| <= |queue| && queue[..|queue0|] == queue0
    ensures Tail(queue0, qi - 1) + Tail(queue, |queue0|) - {queue0[qi - 1]} <= Tail(queue, qi)
  {
    var cur := queue0[qi - 1];
    forall i | i in Tail(queue0, qi - 1) + Tail(queue, |queue0|) - {cur} ensures i in Tail(queue, qi) {
      if i in queue0[qi - 1..] {
        var k :| 0 <= k < |queue0[qi - 1..]| && queue0[qi - 1..][k] == i;
        assert k > 0 && queue[qi - 1 + k] == queue[..|queue0|][qi - 1 + k] == i;
        assert queue[qi..][k - 1] == i;
      } else {
        var k :| 0 <= k < |queue[|queue0|..]| && queue[|queue0|..][k] == i;
        assert queue[qi..][|queue0| - qi + k] == i;
      }
    }
  }

  lemma FloodWaits(cells: seq<bool>, grid: nat, conn: nat, before: seq<int>, labels: seq<int>,
                   start: nat, mark: int, queue: seq<nat>, a: set<nat>, b: set<nat>)
    requires grid * grid <= |cells| && Flooding(cells, grid, conn, before, labels, start, mark, queue, a) && a <= b
    ensures Flooding(cells, grid, conn, before, labels, start, mark, queue, b)
  {
    hide Adjacent, Connected;
  }

  /** Label every island; the labels returned are exact. */
  method FindIslands(cells: seq<bool>, grid: nat, conn: nat) returns (labels: array<int>, count: nat)
    requires grid * grid <= |cells|
    ensures fresh(labels) && Exact(cells, grid, conn, labels[..], count) && InScanOrder(labels[..])
  {
    hide Rooted, Spread;
    var total := grid * grid;
    labels := new int[total](_ => 0);
    var nextLabel := 1;
    ghost var roots: seq<nat> := [];
    NothingLabelled(cells, grid, conn, labels[..]);
    for start := 0 to total
      invariant nextLabel == |roots| + 1
      invariant Rooted(cells, grid, conn, labels[..], roots) && Spread(cells, grid, conn, labels[..], {})
      invariant forall i | 0 <= i < start && cells[i] :: labels[i] != 0
      invariant Scanned(labels[..], roots, start)
    {
      if !cells[start] || labels[start] != 0 {
        continue;
      }
      var mark := nextLabel;
      nextLabel := nextLabel + 1;
      ghost var before := labels[..];
      RootedShape(cells, grid, conn, before, roots);
      Flood(cells, grid, conn, labels, start, mark, roots);
      RootedCells(cells, grid, conn, labels[..], roots + [start]);
      ScanFinds(cells, before, labels[..], roots, start);
      roots := roots + [start];
    }
    count := nextLabel - 1;
    ScannedInOrder(cells, grid, conn, labels[..], roots);
    RootedSpreadIsExact(cells, grid, conn, labels[..], roots);
  }

  /** Each root so far is the first cell of its island, and they ascend. */
  ghost predicate Scanned(labels: seq<int>, roots: seq<nat>, start: nat) {
    && (forall k | 0 <= k < |roots| :: roots[k] < start)
    && (forall k | 0 <= k < |roots| - 1 :: roots[k] < roots[k + 1])
    && (forall i: nat | i < |labels| && labels[i] != 0 :: 0 < labels[i] <= |roots| && roots[labels[i] - 1] <= i)
  }

  lemma RootedCells(cells: seq<bool>, grid: nat, conn: nat, labels: seq<int>, roots: seq<nat>)
    requires grid * grid <= |cells| && Rooted(cells, grid, conn, labels, roots)
    ensures |labels| == grid * grid && forall i: nat | i < |labels| && labels[i] != 0 :: cells[i]
  {
  }

  lemma ScanFinds(cells: seq<bool>, before: seq<int>, labels: seq<int>, roots: seq<nat>, start: nat)
    requires |before| == |labels| <= |cells| && Scanned(before, roots, start)
    requires forall i: nat | i < start && i < |before| && cells[i] :: before[i] != 0
    requires forall i: nat | i < |labels| && labels[i] != 0 :: cells[i]
    requires forall i | 0 <= i < |labels| ::
               if before[i] != 0 then labels[i] == before[i] else labels[i] in {0, |roots| + 1}
    ensures Scanned(labels, roots + [start], start + 1)
  {
  }

  lemma ScannedInOrder(cells: seq<bool>, grid: nat, conn: nat, labels: seq<int>, roots: seq<nat>)
    requires grid * grid <= |cells| && Rooted(cells, grid, conn, labels, roots) && Scanned(labels, roots, |labels|)
    ensures InScanOrder(labels)
  {
    hide Connected;
    forall i: nat | i < |labels| && labels[i] > 1 ensures exists j: nat | j < i :: labels[j] == labels[i] - 1 {
      var l := labels[i];
      assert roots[l - 2] < roots[l - 2 + 1] <= i;
      assert labels[roots[l - 2]] == l - 1;
    }
  }

  lemma NothingLabelled(cells: seq<bool>, grid: nat, conn: nat, labels: seq<int>)
    requires grid * grid <= |cells| && |labels| == grid * grid && forall i | 0 <= i < |labels| :: labels[i] == 0
    ensures Rooted(cells, grid, conn, labels, []) && Spread(cells, grid, conn, labels, {})
  {
  }

  // ----- Symmetric patterns have symmetric islands

  /** On a symmetric pattern, mirroring maps islands to islands. */
  lemma MirrorKeepsIslands(cells: seq<bool>, grid: nat, conn: nat, labels: seq<int>, count: nat, i: nat, j: nat)
    requires Symmetric(cells, grid) && Exact(cells, grid, conn, labels, count)
    requires i < grid * grid && j < grid * grid && cells[i] && cells[j]
    ensures Mirror(i, grid) < |labels| && Mirror(j, grid) < |labels|
    ensures labels[Mirror(i, grid)] != 0 && labels[Mirror(j, grid)] != 0
    ensures labels[i] == labels[j] <==> labels[Mirror(i, grid)] == labels[Mirror(j, grid)]
  {
    MirrorOf(i, grid);
    MirrorOf(j, grid);
    var mi, mj := Mirror(i, grid), Mirror(j, grid);
    hide Connected, Mirror;
    assert cells[mi] == cells[i] && cells[mj] == cells[j];
    if Connected(cells, grid, conn, i, j) { MirrorConnected(cells, grid, conn, i, j); }
    if Connected(cells, grid, conn, mi, mj) { MirrorConnected(cells, grid, conn, mi, mj); }
  }
}
