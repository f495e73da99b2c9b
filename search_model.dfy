/**
 * The search of src/pathfind/Pathfinder.ts seen as values: one node per grid
 * cell (its type, its g cost and the index of its previous cell), the
 * invariant every step of `pathfind` keeps, and the facts the path
 * reconstruction of `beginPathfind` and the final answer rest on.
 */
module SearchModel {
  import opened Tiles
  import opened BoardGeometry
  import opened SeqUtil
  import opened PathCell

  /** A cell's search state; prev is the index of its previous cell, or negative for none. */
  datatype Node = Node(kind: CellType, g: int, prev: int)

  /** The type `generateGridFromTiles` gives the cell of tile i. */
  function InitialKind(tiles: seq<Color>, s: int, e: int, i: int): (t: CellType)
    requires 0 <= i < |tiles|
    ensures t == Wall <==> tiles[i] != Empty
    ensures t == Start <==> i == s && i != e && tiles[i] == Empty
    ensures t == End <==> i == e && tiles[i] == Empty
    ensures t == Open <==> i != s && i != e && tiles[i] == Empty
  {
    var base := if tiles[i] == Empty then Open else Wall;
    var afterStart := if i == s && base != Wall then Start else base;
    if i == e && afterStart != Wall then End else afterStart
  }

  /** The freshly generated grid: initial types, zero costs, no previous cells. */
  function InitialNodes(tiles: seq<Color>, s: int, e: int): (nodes: seq<Node>)
    ensures |nodes| == |tiles|
  {
    seq(|tiles|, i requires 0 <= i < |tiles| => Node(InitialKind(tiles, s, e, i), 0, -1))
  }

  /** A cell other than the start that has been discovered (and maybe closed). */
  predicate Tracked(nodes: seq<Node>, s: int, i: int)
    requires 0 <= i < |nodes|
  {
    i != s && (nodes[i].kind == Discovered || nodes[i].kind == Closed)
  }

  /** A cell whose neighbours have all been looked at. */
  predicate Expanded(nodes: seq<Node>, s: int, i: int)
    requires 0 <= i < |nodes|
  {
    i == s || nodes[i].kind == Closed
  }

  /**
   * The back link of cell i leads to a 4-neighbour that is the start
   * (and then g is 1) or a tracked cell whose g is one less.
   */
  predicate LinkOk(nodes: seq<Node>, w: int, s: int, i: int)
    requires w > 0 && 0 <= i < |nodes|
  {
    var p := nodes[i].prev;
    && 0 <= p < |nodes|
    && Adjacent(w, p, i)
    && ((p == s && nodes[i].g == 1) || (Tracked(nodes, s, p) && nodes[i].g == nodes[p].g + 1))
  }

  /** Every tracked cell has a good back link and a positive g. */
  predicate BackOk(nodes: seq<Node>, w: int, s: int, i: int)
    requires w > 0 && 0 <= i < |nodes|
  {
    Tracked(nodes, s, i) ==> LinkOk(nodes, w, s, i) && nodes[i].g >= 1
  }

  /** What the type of cell i says about its tile, before (begun false) and after the first step. */
  predicate KindOk(nodes: seq<Node>, tiles: seq<Color>, s: int, e: int, begun: bool, i: int)
    requires 0 <= i < |nodes| == |tiles|
  {
    var t := nodes[i].kind;
    && (i != s && tiles[i] != Empty ==> t == Wall)
    && (t == Wall ==> tiles[i] != Empty)
    && (t == Start ==> i == s)
    && (t == End ==> i == e)
    && (i == e && i != s && tiles[i] == Empty ==> t == End)
    && (i == s ==> if begun then t == Start || t == Closed else t == Start || t == Wall || t == End)
    && (!begun ==> t != Discovered && t != Closed)
  }

  /** No open or end cell next to an expanded one. */
  predicate ClosedUnder(nodes: seq<Node>, w: int, s: int)
    requires w > 0
  {
    forall i, j :: 0 <= i < |nodes| && 0 <= j < |nodes| && Expanded(nodes, s, i) && Adjacent(w, i, j) ==>
      nodes[j].kind != Open && nodes[j].kind != End
  }

  /** The invariant of `pathfind`'s loop. */
  predicate Search(nodes: seq<Node>, tiles: seq<Color>, w: int, s: int, e: int, begun: bool)
  {
    && w > 0 && |nodes| == |tiles| && 0 <= s < |nodes| && 0 <= e < |nodes|
    && nodes[s].g == 0
    && (forall i :: 0 <= i < |nodes| ==> KindOk(nodes, tiles, s, e, begun, i))
    && (forall i :: 0 <= i < |nodes| ==> BackOk(nodes, w, s, i))
    && (begun ==> ClosedUnder(nodes, w, s))
  }

  /** The freshly generated grid satisfies the invariant before the first step. */
  lemma InitialSearch(tiles: seq<Color>, w: int, s: int, e: int)
    requires w > 0 && 0 <= s < |tiles| && 0 <= e < |tiles|
    ensures Search(InitialNodes(tiles, s, e), tiles, w, s, e, false)
  {
  }

  /** Cell i is among the valid neighbours of cell ci (`getValidNeighbours`). */
  predicate NewlyFound(nodes: seq<Node>, w: int, ci: int, i: int)
    requires w > 0 && 0 <= i < |nodes|
  {
    Adjacent(w, ci, i) && (nodes[i].kind == Open || nodes[i].kind == End)
  }

  /**
   * The first half of `step` from cell ci: every valid neighbour becomes
   * discovered (an end cell keeps its type), points back to ci and gets
   * g one more than ci's.
   */
  function Expand(nodes: seq<Node>, w: int, ci: int): (r: seq<Node>)
    requires w > 0 && 0 <= ci < |nodes|
    ensures |r| == |nodes|
  {
    seq(|nodes|, i requires 0 <= i < |nodes| =>
      if NewlyFound(nodes, w, ci, i)
      then Node(if nodes[i].kind == Open then Discovered else End, nodes[ci].g + 1, ci)
      else nodes[i])
  }

  /** The second half of `step`: the current cell is closed unless it is the start. */
  function Close(nodes: seq<Node>, ci: int): (r: seq<Node>)
    requires 0 <= ci < |nodes|
    ensures |r| == |nodes|
  {
    nodes[ci := nodes[ci].(kind := if nodes[ci].kind == Start then Start else Closed)]
  }

  /** The cell a step may expand: the start first, a discovered cell afterwards. */
  predicate Expandable(nodes: seq<Node>, s: int, ci: int, begun: bool)
    requires 0 <= ci < |nodes|
  {
    if begun then nodes[ci].kind == Discovered else ci == s
  }

  lemma AdjacentIrreflexive(w: int, i: int)
    requires w > 0
    ensures !Adjacent(w, i, i)
  {
  }

  lemma AdjacentSymmetric(w: int, i: int, j: int)
    requires w > 0
    ensures Adjacent(w, i, j) == Adjacent(w, j, i)
  {
  }

  /** A step that does not find the end keeps the invariant. */
  lemma StepKeepsSearch(nodes: seq<Node>, tiles: seq<Color>, w: int, s: int, e: int, begun: bool, ci: int)
    requires Search(nodes, tiles, w, s, e, begun)
    requires 0 <= ci < |nodes| && Expandable(nodes, s, ci, begun)
    requires !NewlyFound(nodes, w, ci, e)
    ensures Search(Close(Expand(nodes, w, ci), ci), tiles, w, s, e, true)
  {
    StepKeepsKinds(nodes, tiles, w, s, e, begun, ci);
    StepKeepsLinks(nodes, tiles, w, s, e, begun, ci);
    StepKeepsClosure(nodes, tiles, w, s, e, begun, ci);
    StepKeepsStartCost(nodes, tiles, w, s, e, begun, ci);
  }

  lemma StepKeepsStartCost(nodes: seq<Node>, tiles: seq<Color>, w: int, s: int, e: int, begun: bool, ci: int)
    requires Search(nodes, tiles, w, s, e, begun)
    requires 0 <= ci < |nodes| && Expandable(nodes, s, ci, begun)
    ensures Close(Expand(nodes, w, ci), ci)[s].g == 0
  {
    AdjacentIrreflexive(w, s);
    assert KindOk(nodes, tiles, s, e, begun, s);
  }

  lemma StepKeepsKinds(nodes: seq<Node>, tiles: seq<Color>, w: int, s: int, e: int, begun: bool, ci: int)
    requires Search(nodes, tiles, w, s, e, begun)
    requires 0 <= ci < |nodes| && Expandable(nodes, s, ci, begun)
    requires !NewlyFound(nodes, w, ci, e)
    ensures var r := Close(Expand(nodes, w, ci), ci);
      forall i :: 0 <= i < |r| ==> KindOk(r, tiles, s, e, true, i)
  {
    var x := Expand(nodes, w, ci);
    var r := Close(x, ci);
    AdjacentIrreflexive(w, ci);
    assert x[ci] == nodes[ci];
    forall i | 0 <= i < |r|
      ensures KindOk(r, tiles, s, e, true, i)
    {
      assert KindOk(nodes, tiles, s, e, begun, i);
    }
  }

  lemma StepKeepsLinks(nodes: seq<Node>, tiles: seq<Color>, w: int, s: int, e: int, begun: bool, ci: int)
    requires Search(nodes, tiles, w, s, e, begun)
    requires 0 <= ci < |nodes| && Expandable(nodes, s, ci, begun)
    requires !NewlyFound(nodes, w, ci, e)
    ensures var r := Close(Expand(nodes, w, ci), ci);
      forall i :: 0 <= i < |r| ==> BackOk(r, w, s, i)
  {
    var x := Expand(nodes, w, ci);
    var r := Close(x, ci);
    AdjacentIrreflexive(w, ci);
    assert x[ci] == nodes[ci];
    assert BackOk(nodes, w, s, ci);
    forall i | 0 <= i < |r|
      ensures BackOk(r, w, s, i)
    {
      assert BackOk(nodes, w, s, i);
      if i != ci && !NewlyFound(nodes, w, ci, i) {
        var p := nodes[i].prev;
        if Tracked(nodes, s, i) && p != ci && 0 <= p < |nodes| {
          assert KindOk(nodes, tiles, s, e, begun, p);
          assert !NewlyFound(nodes, w, ci, p);
        }
      }
    }
  }

  lemma StepKeepsClosure(nodes: seq<Node>, tiles: seq<Color>, w: int, s: int, e: int, begun: bool, ci: int)
    requires Search(nodes, tiles, w, s, e, begun)
    requires 0 <= ci < |nodes| && Expandable(nodes, s, ci, begun)
    requires !NewlyFound(nodes, w, ci, e)
    ensures ClosedUnder(Close(Expand(nodes, w, ci), ci), w, s)
  {
    var x := Expand(nodes, w, ci);
    var r := Close(x, ci);
    AdjacentIrreflexive(w, ci);
    forall i, j | 0 <= i < |r| && 0 <= j < |r| && Expanded(r, s, i) && Adjacent(w, i, j)
      ensures r[j].kind != Open && r[j].kind != End
    {
      assert KindOk(nodes, tiles, s, e, begun, j);
      if i != ci {
        assert KindOk(nodes, tiles, s, e, begun, i);
        assert Expanded(nodes, s, i);
      }
    }
  }

  /** The cells of one type, as a set of indices. */
  function OfKind(nodes: seq<Node>, t: CellType): set<int>
  {
    set i | 0 <= i < |nodes| && nodes[i].kind == t
  }

  /** Fewer open cells, or as many open cells and fewer discovered ones. */
  predicate Progress(before: seq<Node>, after: seq<Node>)
  {
    || OfKind(after, Open) < OfKind(before, Open)
    || (OfKind(after, Open) == OfKind(before, Open) && OfKind(after, Discovered) < OfKind(before, Discovered))
  }

  /**
   * Termination of `pathfind`: a later step either discovers an open cell
   * or, when it discovers none, removes the current cell from the
   * discovered ones.
   */
  lemma StepProgresses(nodes: seq<Node>, tiles: seq<Color>, w: int, s: int, e: int, ci: int)
    requires Search(nodes, tiles, w, s, e, true)
    requires 0 <= ci < |nodes| && nodes[ci].kind == Discovered
    requires !NewlyFound(nodes, w, ci, e)
    ensures Progress(nodes, Close(Expand(nodes, w, ci), ci))
  {
    var r := Close(Expand(nodes, w, ci), ci);
    AdjacentIrreflexive(w, ci);
    forall i | i in OfKind(r, Open)
      ensures i in OfKind(nodes, Open)
    {
    }
    if exists j :: 0 <= j < |nodes| && NewlyFound(nodes, w, ci, j) {
      var j :| 0 <= j < |nodes| && NewlyFound(nodes, w, ci, j);
      assert KindOk(nodes, tiles, s, e, true, j);
      assert j in OfKind(nodes, Open) && j !in OfKind(r, Open);
    } else {
      forall i | i in OfKind(r, Discovered)
        ensures i in OfKind(nodes, Discovered)
      {
      }
      assert ci !in OfKind(r, Discovered);
    }
  }

  /** The state in which `step` returns the end cell: the back links lead from it to the start. */
  predicate FoundOk(nodes: seq<Node>, tiles: seq<Color>, w: int, s: int, e: int)
  {
    && w > 0 && |nodes| == |tiles| && 0 <= s < |nodes| && 0 <= e < |nodes|
    && e != s && tiles[e] == Empty
    && LinkOk(nodes, w, s, e) && nodes[e].g >= 1
    && (forall i :: 0 <= i < |nodes| ==> BackOk(nodes, w, s, i))
    && (forall i :: 0 <= i < |nodes| && Tracked(nodes, s, i) ==> tiles[i] == Empty)
  }

  /** A step that discovers the end leaves a state from which the path can be rebuilt. */
  lemma StepFindsEnd(nodes: seq<Node>, tiles: seq<Color>, w: int, s: int, e: int, begun: bool, ci: int)
    requires Search(nodes, tiles, w, s, e, begun)
    requires 0 <= ci < |nodes| && Expandable(nodes, s, ci, begun)
    requires NewlyFound(nodes, w, ci, e)
    ensures FoundOk(Expand(nodes, w, ci), tiles, w, s, e)
  {
    var x := Expand(nodes, w, ci);
    AdjacentIrreflexive(w, ci);
    assert x[ci] == nodes[ci];
    assert KindOk(nodes, tiles, s, e, begun, e);
    assert KindOk(nodes, tiles, s, e, begun, ci);
    assert BackOk(nodes, w, s, ci);
    forall i | 0 <= i < |x|
      ensures BackOk(x, w, s, i)
      ensures Tracked(x, s, i) ==> tiles[i] == Empty
    {
      assert BackOk(nodes, w, s, i);
      assert KindOk(nodes, tiles, s, e, begun, i);
      if i != ci && !NewlyFound(nodes, w, ci, i) {
        var p := nodes[i].prev;
        if Tracked(nodes, s, i) && p != ci && 0 <= p < |nodes| {
          assert KindOk(nodes, tiles, s, e, begun, p);
          assert !NewlyFound(nodes, w, ci, p);
        }
      }
    }
  }

  /** The first step at the end cell itself never finds it: a cell is not its own neighbour. */
  lemma StartIsNotFound(nodes: seq<Node>, w: int, s: int)
    requires w > 0 && 0 <= s < |nodes|
    ensures !NewlyFound(nodes, w, s, s)
  {
    AdjacentIrreflexive(w, s);
  }

  /** A later step never finds the start: it is a start or closed cell by then. */
  lemma LaterStepsMissStart(nodes: seq<Node>, tiles: seq<Color>, w: int, s: int, e: int, ci: int)
    requires Search(nodes, tiles, w, s, e, true) && 0 <= ci < |nodes|
    ensures !NewlyFound(nodes, w, ci, s)
  {
    assert KindOk(nodes, tiles, s, e, true, s);
  }

  /** Along an empty walk from the start, every cell has been expanded. */
  lemma {:induction false} WalkStaysExpanded(nodes: seq<Node>, tiles: seq<Color>, w: int, s: int, e: int,
                                             walk: seq<int>, k: nat)
    requires Search(nodes, tiles, w, s, e, true)
    requires forall i :: 0 <= i < |nodes| ==> nodes[i].kind != Discovered
    requires IsEmptyWalk(tiles, w, walk, s, e) && k < |walk|
    ensures Expanded(nodes, s, walk[k])
  {
    if k > 0 {
      WalkStaysExpanded(nodes, tiles, w, s, e, walk, k - 1);
      var a, b := walk[k - 1], walk[k];
      assert Adjacent(w, a, b);
      assert tiles[b] == Empty;
      assert KindOk(nodes, tiles, s, e, true, b);
    }
  }

  /**
   * Completeness: when the search runs out of discovered cells, an empty
   * end tile other than the start cannot be reached through empty tiles.
   */
  lemma ExhaustedMeansUnreachable(nodes: seq<Node>, tiles: seq<Color>, w: int, s: int, e: int)
    requires Search(nodes, tiles, w, s, e, true)
    requires forall i :: 0 <= i < |nodes| ==> nodes[i].kind != Discovered
    requires s != e && tiles[e] == Empty
    ensures !Reachable(tiles, w, s, e)
  {
    assert KindOk(nodes, tiles, s, e, true, e);
    forall walk
      ensures !IsEmptyWalk(tiles, w, walk, s, e)
    {
      WalkEndsExpanded(nodes, tiles, w, s, e, walk);
    }
  }

  lemma WalkEndsExpanded(nodes: seq<Node>, tiles: seq<Color>, w: int, s: int, e: int, walk: seq<int>)
    requires Search(nodes, tiles, w, s, e, true)
    requires forall i :: 0 <= i < |nodes| ==> nodes[i].kind != Discovered
    ensures IsEmptyWalk(tiles, w, walk, s, e) ==> Expanded(nodes, s, e)
  {
    if IsEmptyWalk(tiles, w, walk, s, e) {
      WalkStaysExpanded(nodes, tiles, w, s, e, walk, |walk| - 1);
    }
  }

  /**
   * A chain of back links from the end: chain[0] is e, each next entry
   * is the previous cell of the one before, all but the first are tracked,
   * and g falls by one per entry.
   */
  predicate BackChain(nodes: seq<Node>, w: int, s: int, e: int, chain: seq<int>)
    requires w > 0
  {
    && |chain| >= 1 && chain[0] == e
    && (forall k :: 0 <= k < |chain| ==> 0 <= chain[k] < |nodes|)
    && (forall k :: 0 <= k < |chain| ==> LinkOk(nodes, w, s, chain[k]))
    && (forall k :: 0 <= k < |chain| - 1 ==> nodes[chain[k]].prev == chain[k + 1])
    && (forall k :: 0 < k < |chain| ==> Tracked(nodes, s, chain[k]))
    && (forall k :: 0 <= k < |chain| ==> nodes[chain[k]].g == nodes[e].g - k)
  }

  /** The chain can be followed one more step when the last entry does not point at the start. */
  lemma BackChainExtend(nodes: seq<Node>, tiles: seq<Color>, w: int, s: int, e: int, chain: seq<int>)
    requires FoundOk(nodes, tiles, w, s, e) && BackChain(nodes, w, s, e, chain)
    requires nodes[chain[|chain| - 1]].prev != s
    ensures BackChain(nodes, w, s, e, chain + [nodes[chain[|chain| - 1]].prev])
    ensures nodes[nodes[chain[|chain| - 1]].prev].g == nodes[chain[|chain| - 1]].g - 1
    ensures nodes[nodes[chain[|chain| - 1]].prev].g >= 1
  {
    var c := chain + [nodes[chain[|chain| - 1]].prev];
    var p := c[|c| - 1];
    assert LinkOk(nodes, w, s, chain[|chain| - 1]);
    assert BackOk(nodes, w, s, p);
    forall k | 0 <= k < |c| ensures LinkOk(nodes, w, s, c[k]) {
      if k < |chain| {
        assert c[k] == chain[k];
      }
    }
  }

  /**
   * The reversed chain followed by the start is an empty walk from the
   * start to the end with g(end) + 1 cells.
   */
  lemma BackChainIsWalk(nodes: seq<Node>, tiles: seq<Color>, w: int, s: int, e: int, chain: seq<int>)
    requires FoundOk(nodes, tiles, w, s, e) && BackChain(nodes, w, s, e, chain)
    requires nodes[chain[|chain| - 1]].prev == s
    ensures IsEmptyWalk(tiles, w, Reverse(chain + [s]), s, e)
    ensures |Reverse(chain + [s])| == nodes[e].g + 1
  {
    var q := chain + [s];
    var r := Reverse(q);
    var n := |q|;
    var last := chain[|chain| - 1];
    assert LinkOk(nodes, w, s, last);
    ReverseAt(q, 0);
    ReverseAt(q, n - 1);
    forall k | 0 <= k < n
      ensures 0 <= r[k] < |tiles|
      ensures k > 0 ==> tiles[r[k]] == Empty
    {
      ReverseAt(q, k);
      if n - 1 - k < |chain| {
        assert q[n - 1 - k] == chain[n - 1 - k];
        if 0 < n - 1 - k {
          assert Tracked(nodes, s, chain[n - 1 - k]);
        }
      }
    }
    forall k | 0 <= k < n - 1
      ensures Adjacent(w, r[k], r[k + 1])
    {
      ReverseAt(q, k);
      ReverseAt(q, k + 1);
      var m := n - 2 - k;
      assert r[k] == q[m + 1] && r[k + 1] == q[m];
      assert LinkOk(nodes, w, s, chain[m]);
      if m + 1 < |chain| {
        assert nodes[chain[m]].prev == chain[m + 1];
      }
    }
  }
}
