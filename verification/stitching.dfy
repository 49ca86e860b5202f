/** Eight-way stitching of a tile's border against its registered neighbours.

    For each direction whose neighbour mesh is known, the tile's facing edge
    row or column (or its corner vertex) takes the neighbour's height and
    normal, keeping its own X and Z. Directions are applied in the order N, S,
    W, E, NW, NE, SW, SE, so a later direction wins where two write the same
    vertex. */
module Stitching {
  import opened Geometry
  import opened Grid
  import opened Wrappers

  /** The eight neighbours of a tile, as compass directions. */
  datatype Direction = North | South | West | East | NorthWest | NorthEast | SouthWest | SouthEast

  /** The order in which the neighbours are visited. */
  const StitchOrder: seq<Direction> := [North, South, West, East, NorthWest, NorthEast, SouthWest, SouthEast]

  /** The four neighbours that share a whole edge (the others share one corner). */
  predicate IsEdge(d: Direction) {
    d.North? || d.South? || d.West? || d.East?
  }

  /** The direction back from the neighbour to the tile. */
  function Opposite(d: Direction): Direction {
    match d
    case North => South
    case South => North
    case West => East
    case East => West
    case NorthWest => SouthEast
    case NorthEast => SouthWest
    case SouthWest => NorthEast
    case SouthEast => NorthWest
  }

  /** The corner vertex a diagonal neighbour touches. */
  function Corner(n: nat, d: Direction): nat
    requires n >= 2 && !IsEdge(d)
  {
    match d
    case NorthWest => Idx(n, 0, 0)
    case NorthEast => Idx(n, n - 1, 0)
    case SouthWest => Idx(n, 0, n - 1)
    case SouthEast => Idx(n, n - 1, n - 1)
  }

  /** Whether stitching toward d writes this tile's vertex j: row 0 for the
      north neighbour, row n-1 for the south, column 0 for the west, column
      n-1 for the east, the touching corner for a diagonal. */
  predicate Covers(n: nat, d: Direction, j: nat)
    requires n >= 2
  {
    j < n * n &&
    match d
    case North => Row(n, j) == 0
    case South => Row(n, j) == n - 1
    case West => Col(n, j) == 0
    case East => Col(n, j) == n - 1
    case _ => j == Corner(n, d)
  }

  /** The neighbour's vertex facing this tile's vertex j across the shared
      edge or corner: the same column on the opposite row, the same row on the
      opposite column, or the opposite corner. */
  function Partner(n: nat, d: Direction, j: nat): (r: nat)
    requires n >= 2 && Covers(n, d, j)
    ensures r < n * n
  {
    RowInGrid(n, j);
    IdxInGrid(n, n - 1, n - 1);
    match d
    case North => IdxInGrid(n, Col(n, j), n - 1); Idx(n, Col(n, j), n - 1)
    case South => IdxInGrid(n, Col(n, j), 0); Idx(n, Col(n, j), 0)
    case West => IdxInGrid(n, n - 1, Row(n, j)); Idx(n, n - 1, Row(n, j))
    case East => IdxInGrid(n, 0, Row(n, j)); Idx(n, 0, Row(n, j))
    case NorthWest => Idx(n, n - 1, n - 1)
    case NorthEast => IdxInGrid(n, 0, n - 1); Idx(n, 0, n - 1)
    case SouthWest => Idx(n, n - 1, 0)
    case SouthEast => Idx(n, 0, 0)
  }

  /** Stitching is mutual: the partner of a border vertex lies on the
      neighbour's opposite border, and its own partner back is the vertex. */
  lemma PartnerIsMutual(n: nat, d: Direction, j: nat)
    requires n >= 2 && Covers(n, d, j)
    ensures Covers(n, Opposite(d), Partner(n, d, j))
    ensures Partner(n, Opposite(d), Partner(n, d, j)) == j
  {
    if IsEdge(d) {
      RowInGrid(n, j);
      CellOfIdx(n, Col(n, j), Row(n, j));
      if d == North || d == South {
        RowPartnerIsMutual(n, d, j, Col(n, j));
      } else {
        ColumnPartnerIsMutual(n, d, j, Row(n, j));
      }
    } else {
      CornerPartnerIsMutual(n, d);
    }
  }

  /** PartnerIsMutual for the north and south neighbours, at column x. */
  lemma RowPartnerIsMutual(n: nat, d: Direction, j: nat, x: nat)
    requires n >= 2 && (d == North || d == South) && Covers(n, d, j)
    requires x == Col(n, j) && j == Idx(n, x, Row(n, j))
    ensures Covers(n, Opposite(d), Partner(n, d, j))
    ensures Partner(n, Opposite(d), Partner(n, d, j)) == j
  {
    CellOfIdx(n, x, n - 1);
    CellOfIdx(n, x, 0);
    IdxInGrid(n, x, n - 1);
  }

  /** PartnerIsMutual for the west and east neighbours, at row y. */
  lemma ColumnPartnerIsMutual(n: nat, d: Direction, j: nat, y: nat)
    requires n >= 2 && (d == West || d == East) && Covers(n, d, j)
    requires y == Row(n, j) && y < n && j == Idx(n, Col(n, j), y)
    ensures Covers(n, Opposite(d), Partner(n, d, j))
    ensures Partner(n, Opposite(d), Partner(n, d, j)) == j
  {
    CellOfIdx(n, n - 1, y);
    CellOfIdx(n, 0, y);
    IdxInGrid(n, n - 1, y);
  }

  /** PartnerIsMutual for the diagonal neighbours, whose border is one corner. */
  lemma CornerPartnerIsMutual(n: nat, d: Direction)
    requires n >= 2 && !IsEdge(d)
    ensures Covers(n, d, Corner(n, d))
    ensures Covers(n, Opposite(d), Partner(n, d, Corner(n, d)))
    ensures Partner(n, Opposite(d), Partner(n, d, Corner(n, d))) == Corner(n, d)
  {
    CellOfIdx(n, 0, 0);
    CellOfIdx(n, n - 1, 0);
    CellOfIdx(n, 0, n - 1);
    CellOfIdx(n, n - 1, n - 1);
    IdxInGrid(n, n - 1, n - 1);
  }

  /** Number of iterations of the source's loop for direction d. */
  function Span(n: nat, d: Direction): nat {
    if IsEdge(d) then n else 1
  }

  /** The loop iteration that writes vertex j (its position along the border). */
  function Pos(n: nat, d: Direction, j: nat): nat
    requires n >= 2
  {
    match d
    case North => Col(n, j)
    case South => Col(n, j)
    case West => Row(n, j)
    case East => Row(n, j)
    case _ => 0
  }

  /** The index the source writes at iteration i. */
  function Target(n: nat, d: Direction, i: nat): int {
    match d
    case North => i
    case South => n * n - n + i
    case West => i * n
    case East => i * n + n - 1
    case NorthWest => 0
    case NorthEast => n - 1
    case SouthWest => n * n - n
    case SouthEast => n * n - 1
  }

  /** The neighbour index the source reads at iteration i. */
  function Source(n: nat, d: Direction, i: nat): int {
    match d
    case North => n * n - n + i
    case South => i
    case West => i * n + n - 1
    case East => i * n
    case NorthWest => n * n - 1
    case NorthEast => n * n - n
    case SouthWest => n - 1
    case SouthEast => 0
  }

  /** Iteration i of the north or south loop writes column i of the tile's
      edge row and reads column i of the neighbour's opposite row. */
  lemma RowTargetIsBorderVertex(n: nat, d: Direction, i: nat)
    requires n >= 2 && (d == North || d == South) && i < n
    ensures 0 <= Target(n, d, i) < n * n && 0 <= Source(n, d, i) < n * n
    ensures Covers(n, d, Target(n, d, i)) && Pos(n, d, Target(n, d, i)) == i
    ensures Partner(n, d, Target(n, d, i)) == Source(n, d, i)
  {
    assert (n - 1) * n == n * n - n;
    CellOfIdx(n, i, 0);
    CellOfIdx(n, i, n - 1);
    IdxInGrid(n, i, n - 1);
  }

  /** Iteration i of the west or east loop writes row i of the tile's edge
      column and reads row i of the neighbour's opposite column. */
  lemma ColumnTargetIsBorderVertex(n: nat, d: Direction, i: nat)
    requires n >= 2 && (d == West || d == East) && i < n
    ensures 0 <= Target(n, d, i) < n * n && 0 <= Source(n, d, i) < n * n
    ensures Covers(n, d, Target(n, d, i)) && Pos(n, d, Target(n, d, i)) == i
    ensures Partner(n, d, Target(n, d, i)) == Source(n, d, i)
  {
    CellOfIdx(n, 0, i);
    CellOfIdx(n, n - 1, i);
    IdxInGrid(n, n - 1, i);
  }

  /** A diagonal's single iteration writes the touching corner and reads the
      neighbour's opposite corner. */
  lemma CornerTargetIsBorderVertex(n: nat, d: Direction)
    requires n >= 2 && !IsEdge(d)
    ensures 0 <= Target(n, d, 0) < n * n && 0 <= Source(n, d, 0) < n * n
    ensures Covers(n, d, Target(n, d, 0)) && Pos(n, d, Target(n, d, 0)) == 0
    ensures Partner(n, d, Target(n, d, 0)) == Source(n, d, 0)
  {
    assert (n - 1) * n == n * n - n;
    IdxInGrid(n, n - 1, n - 1);
    IdxInGrid(n, 0, n - 1);
  }

  /** Iteration i of the source's loop writes the i-th vertex along the
      border and reads that vertex's partner. */
  lemma TargetIsBorderVertex(n: nat, d: Direction, i: nat)
    requires n >= 2 && i < Span(n, d)
    ensures 0 <= Target(n, d, i) < n * n && 0 <= Source(n, d, i) < n * n
    ensures Covers(n, d, Target(n, d, i)) && Pos(n, d, Target(n, d, i)) == i
    ensures Partner(n, d, Target(n, d, i)) == Source(n, d, i)
  {
    if d == North || d == South {
      RowTargetIsBorderVertex(n, d, i);
    } else if d == West || d == East {
      ColumnTargetIsBorderVertex(n, d, i);
    } else {
      CornerTargetIsBorderVertex(n, d);
    }
  }

  /** Every border vertex is written by the iteration at its position. */
  lemma BorderVertexIsTarget(n: nat, d: Direction, j: nat)
    requires n >= 2 && Covers(n, d, j)
    ensures Pos(n, d, j) < Span(n, d) && Target(n, d, Pos(n, d, j)) == j
  {
    RowInGrid(n, j);
    assert j == Row(n, j) * n + Col(n, j);
    assert (n - 1) * n == n * n - n;
  }

  /** The source's index expressions are the border correspondence: iteration i
      writes the i-th vertex along the border, reading its partner, and no
      other iteration writes that vertex. */
  lemma TargetFacts(n: nat, d: Direction, i: nat)
    requires n >= 2 && i < Span(n, d)
    ensures 0 <= Target(n, d, i) < n * n && 0 <= Source(n, d, i) < n * n
    ensures Covers(n, d, Target(n, d, i)) && Pos(n, d, Target(n, d, i)) == i
    ensures Partner(n, d, Target(n, d, i)) == Source(n, d, i)
    ensures forall j :: Covers(n, d, j) && Pos(n, d, j) == i ==> j == Target(n, d, i)
  {
    TargetIsBorderVertex(n, d, i);
    forall j | Covers(n, d, j) && Pos(n, d, j) == i
      ensures j == Target(n, d, i)
    {
      BorderVertexIsTarget(n, d, j);
    }
  }

  /** This tile's vertex j after snapping to a neighbour vertex: its own X and
      Z, the neighbour's Y. */
  function SnapVertex(own: Vec3, from: Vec3): (r: Vec3)
    ensures SameGround(r, own) && r.y == from.y
  {
    Vec3(own.x, from.y, own.z)
  }

  /** The source's loop for one direction, from iteration i on. */
  function StitchFrom(n: nat, s: Surface, nb: Surface, d: Direction, i: nat): (r: Surface)
    requires n >= 2 && Fits(n, s) && Fits(n, nb) && i <= Span(n, d)
    ensures |r.vertices| == |s.vertices| && |r.normals| == |s.normals|
    ensures forall j :: 0 <= j < |s.vertices| ==>
      r.vertices[j] == if Covers(n, d, j) && Pos(n, d, j) >= i
                       then SnapVertex(s.vertices[j], nb.vertices[Partner(n, d, j)])
                       else s.vertices[j]
    ensures forall j :: 0 <= j < |s.normals| ==>
      r.normals[j] == if Covers(n, d, j) && Pos(n, d, j) >= i
                      then nb.normals[Partner(n, d, j)]
                      else s.normals[j]
    decreases Span(n, d) - i
  {
    if i == Span(n, d) then
      assert forall j :: Covers(n, d, j) ==> Pos(n, d, j) < i by {
        forall j | Covers(n, d, j) ensures Pos(n, d, j) < i {
          RowInGrid(n, j);
        }
      }
      s
    else
      TargetFacts(n, d, i);
      var t, src := Target(n, d, i), Source(n, d, i);
      var next := Surface(s.vertices[t := SnapVertex(s.vertices[t], nb.vertices[src])],
                          s.normals[t := nb.normals[src]]);
      StitchFrom(n, next, nb, d, i + 1)
  }

  /** Stitching toward one present neighbour: every vertex it covers snaps to
      its partner's height and copies its partner's normal; nothing else
      changes. */
  function StitchSide(n: nat, s: Surface, nb: Surface, d: Direction): (r: Surface)
    requires n >= 2 && Fits(n, s) && Fits(n, nb)
    ensures |r.vertices| == |s.vertices| && |r.normals| == |s.normals|
    ensures forall j :: 0 <= j < |s.vertices| ==>
      r.vertices[j] == if Covers(n, d, j) then SnapVertex(s.vertices[j], nb.vertices[Partner(n, d, j)]) else s.vertices[j]
    ensures forall j :: 0 <= j < |s.normals| ==>
      r.normals[j] == if Covers(n, d, j) then nb.normals[Partner(n, d, j)] else s.normals[j]
  {
    StitchFrom(n, s, nb, d, 0)
  }

  /** Every neighbour that is present has a full grid. */
  predicate NeighboursFit(n: nat, neighbours: Direction -> Option<Surface>) {
    forall d :: neighbours(d).Some? ==> Fits(n, neighbours(d).value)
  }

  /** Visits the directions ds in order, stitching toward each present neighbour. */
  function StitchAll(n: nat, s: Surface, neighbours: Direction -> Option<Surface>, ds: seq<Direction>): (r: Surface)
    requires n >= 2 && Fits(n, s) && NeighboursFit(n, neighbours)
    ensures |r.vertices| == |s.vertices| && |r.normals| == |s.normals|
    decreases |ds|
  {
    if |ds| == 0 then s
    else
      var next := match neighbours(ds[0])
        case None => s
        case Some(nb) => StitchSide(n, s, nb, ds[0]);
      StitchAll(n, next, neighbours, ds[1..])
  }

  /** The tile's stitching against all eight neighbours. */
  function FixStitches(n: nat, s: Surface, neighbours: Direction -> Option<Surface>): (r: Surface)
    requires n >= 2 && Fits(n, s) && NeighboursFit(n, neighbours)
    ensures |r.vertices| == |s.vertices| && |r.normals| == |s.normals|
  {
    StitchAll(n, s, neighbours, StitchOrder)
  }

  /** The last direction of ds whose neighbour is present and covers vertex j. */
  function LastWriter(n: nat, neighbours: Direction -> Option<Surface>, ds: seq<Direction>, j: nat): (r: Option<Direction>)
    requires n >= 2
    ensures r.Some? ==> r.value in ds && neighbours(r.value).Some? && Covers(n, r.value, j)
    decreases |ds|
  {
    if |ds| == 0 then None
    else
      var later := LastWriter(n, neighbours, ds[1..], j);
      if later.Some? then later
      else if neighbours(ds[0]).Some? && Covers(n, ds[0], j) then Some(ds[0])
      else None
  }

  /** The vertex j ends up with after the writer w (if any) has stitched it. */
  function ResolvedVertex(n: nat, s: Surface, neighbours: Direction -> Option<Surface>, w: Option<Direction>, j: nat): Vec3
    requires n >= 2 && j < |s.vertices| && NeighboursFit(n, neighbours)
    requires w.Some? ==> neighbours(w.value).Some? && Covers(n, w.value, j)
  {
    match w
    case None => s.vertices[j]
    case Some(d) => SnapVertex(s.vertices[j], neighbours(d).value.vertices[Partner(n, d, j)])
  }

  /** The normal j ends up with after the writer w (if any) has stitched it. */
  function ResolvedNormal(n: nat, s: Surface, neighbours: Direction -> Option<Surface>, w: Option<Direction>, j: nat): Vec3
    requires n >= 2 && j < |s.normals| && NeighboursFit(n, neighbours)
    requires w.Some? ==> neighbours(w.value).Some? && Covers(n, w.value, j)
  {
    match w
    case None => s.normals[j]
    case Some(d) => neighbours(d).value.normals[Partner(n, d, j)]
  }

  /** Visiting directions in order leaves every vertex as its last writer
      made it: X and Z of its own, Y and normal of the last present neighbour
      that covers it, or untouched when none does. */
  lemma {:induction false} StitchAllIsLastWriter(n: nat, s: Surface, neighbours: Direction -> Option<Surface>, ds: seq<Direction>, j: nat)
    requires n >= 2 && Fits(n, s) && NeighboursFit(n, neighbours)
    ensures j < |s.vertices| ==>
      StitchAll(n, s, neighbours, ds).vertices[j] == ResolvedVertex(n, s, neighbours, LastWriter(n, neighbours, ds, j), j)
    ensures j < |s.normals| ==>
      StitchAll(n, s, neighbours, ds).normals[j] == ResolvedNormal(n, s, neighbours, LastWriter(n, neighbours, ds, j), j)
    decreases |ds|
  {
    if |ds| > 0 {
      var next := match neighbours(ds[0])
        case None => s
        case Some(nb) => StitchSide(n, s, nb, ds[0]);
      StitchAllIsLastWriter(n, next, neighbours, ds[1..], j);
      assert StitchAll(n, s, neighbours, ds) == StitchAll(n, next, neighbours, ds[1..]);
    }
  }

  /** The first direction of ds whose neighbour is present. */
  function FirstPresent(neighbours: Direction -> Option<Surface>, ds: seq<Direction>): (r: Option<Direction>)
    ensures r.Some? ==> r.value in ds && neighbours(r.value).Some?
    decreases |ds|
  {
    if |ds| == 0 then None
    else if neighbours(ds[0]).Some? then Some(ds[0])
    else FirstPresent(neighbours, ds[1..])
  }

  /** Which neighbour decides vertex j, stated border by border: a corner
      follows its diagonal neighbour, else the west/east neighbour, else the
      north/south one; any other border vertex follows the neighbour of its
      edge; interior vertices follow nobody. */
  function Decider(n: nat, neighbours: Direction -> Option<Surface>, j: nat): Option<Direction>
    requires n >= 2
  {
    if j >= n * n then None
    else if j == Corner(n, NorthWest) then FirstPresent(neighbours, [NorthWest, West, North])
    else if j == Corner(n, NorthEast) then FirstPresent(neighbours, [NorthEast, East, North])
    else if j == Corner(n, SouthWest) then FirstPresent(neighbours, [SouthWest, West, South])
    else if j == Corner(n, SouthEast) then FirstPresent(neighbours, [SouthEast, East, South])
    else if Row(n, j) == 0 then FirstPresent(neighbours, [North])
    else if Row(n, j) == n - 1 then FirstPresent(neighbours, [South])
    else if Col(n, j) == 0 then FirstPresent(neighbours, [West])
    else if Col(n, j) == n - 1 then FirstPresent(neighbours, [East])
    else None
  }

  /** The four corners are distinct cells with the expected rows and columns. */
  lemma CornerCells(n: nat)
    requires n >= 2
    ensures Row(n, Corner(n, NorthWest)) == 0 && Col(n, Corner(n, NorthWest)) == 0
    ensures Row(n, Corner(n, NorthEast)) == 0 && Col(n, Corner(n, NorthEast)) == n - 1
    ensures Row(n, Corner(n, SouthWest)) == n - 1 && Col(n, Corner(n, SouthWest)) == 0
    ensures Row(n, Corner(n, SouthEast)) == n - 1 && Col(n, Corner(n, SouthEast)) == n - 1
    ensures Corner(n, SouthEast) < n * n
  {
    CellOfIdx(n, 0, 0);
    CellOfIdx(n, n - 1, 0);
    CellOfIdx(n, 0, n - 1);
    CellOfIdx(n, n - 1, n - 1);
    IdxInGrid(n, n - 1, n - 1);
  }

  /** Whether the neighbour toward d is present and writes vertex j. */
  predicate Writes(n: nat, neighbours: Direction -> Option<Surface>, d: Direction, j: nat)
    requires n >= 2
  {
    neighbours(d).Some? && Covers(n, d, j)
  }

  /** The last writer in the stitching order, scanned from the back. */
  lemma LastWriterInStitchOrder(n: nat, neighbours: Direction -> Option<Surface>, j: nat)
    requires n >= 2
    ensures LastWriter(n, neighbours, StitchOrder, j) ==
      if Writes(n, neighbours, SouthEast, j) then Some(SouthEast)
      else if Writes(n, neighbours, SouthWest, j) then Some(SouthWest)
      else if Writes(n, neighbours, NorthEast, j) then Some(NorthEast)
      else if Writes(n, neighbours, NorthWest, j) then Some(NorthWest)
      else if Writes(n, neighbours, East, j) then Some(East)
      else if Writes(n, neighbours, West, j) then Some(West)
      else if Writes(n, neighbours, South, j) then Some(South)
      else if Writes(n, neighbours, North, j) then Some(North)
      else None
  {
    var o := StitchOrder;
    assert o[1..] == [South, West, East, NorthWest, NorthEast, SouthWest, SouthEast];
    assert o[1..][1..] == [West, East, NorthWest, NorthEast, SouthWest, SouthEast];
    assert o[1..][1..][1..] == [East, NorthWest, NorthEast, SouthWest, SouthEast];
    assert o[1..][1..][1..][1..] == [NorthWest, NorthEast, SouthWest, SouthEast];
    assert o[1..][1..][1..][1..][1..] == [NorthEast, SouthWest, SouthEast];
    assert o[1..][1..][1..][1..][1..][1..] == [SouthWest, SouthEast];
    assert o[1..][1..][1..][1..][1..][1..][1..] == [SouthEast];
  }

  /** A grid vertex is a corner exactly when it lies on both an edge row and an
      edge column, and the edge rows (and columns) are distinct. */
  lemma CornerIff(n: nat, j: nat)
    requires n >= 2
    ensures j == Corner(n, NorthWest) <==> j < n * n && Row(n, j) == 0 && Col(n, j) == 0
    ensures j == Corner(n, NorthEast) <==> j < n * n && Row(n, j) == 0 && Col(n, j) == n - 1
    ensures j == Corner(n, SouthWest) <==> j < n * n && Row(n, j) == n - 1 && Col(n, j) == 0
    ensures j == Corner(n, SouthEast) <==> j < n * n && Row(n, j) == n - 1 && Col(n, j) == n - 1
  {
    CornerCells(n);
    if j < n * n {
      assert j == Row(n, j) * n + Col(n, j);
    }
  }

  /** The precedence of the N, S, W, E, NW, NE, SW, SE order is exactly the
      border-by-border rule of Decider. */
  lemma LastWriterIsDecider(n: nat, neighbours: Direction -> Option<Surface>, j: nat)
    requires n >= 2
    ensures LastWriter(n, neighbours, StitchOrder, j) == Decider(n, neighbours, j)
  {
    CornerIff(n, j);
    if j >= n * n {
      LastWriterInStitchOrder(n, neighbours, j);
    } else if j == Corner(n, NorthWest) || j == Corner(n, NorthEast) || j == Corner(n, SouthWest) || j == Corner(n, SouthEast) {
      CornerDecided(n, neighbours, j);
    } else {
      EdgeDecided(n, neighbours, j);
    }
  }

  /** LastWriterIsDecider at the four corners. */
  lemma CornerDecided(n: nat, neighbours: Direction -> Option<Surface>, j: nat)
    requires n >= 2
    requires j == Corner(n, NorthWest) || j == Corner(n, NorthEast) || j == Corner(n, SouthWest) || j == Corner(n, SouthEast)
    ensures LastWriter(n, neighbours, StitchOrder, j) == Decider(n, neighbours, j)
  {
    LastWriterInStitchOrder(n, neighbours, j);
    CornerIff(n, j);
    FirstPresentOfThree(neighbours, NorthWest, West, North);
    FirstPresentOfThree(neighbours, NorthEast, East, North);
    FirstPresentOfThree(neighbours, SouthWest, West, South);
    FirstPresentOfThree(neighbours, SouthEast, East, South);
  }

  /** LastWriterIsDecider off the corners: the edge's own neighbour, or nobody. */
  lemma EdgeDecided(n: nat, neighbours: Direction -> Option<Surface>, j: nat)
    requires n >= 2 && j < n * n
    requires j != Corner(n, NorthWest) && j != Corner(n, NorthEast) && j != Corner(n, SouthWest) && j != Corner(n, SouthEast)
    ensures LastWriter(n, neighbours, StitchOrder, j) == Decider(n, neighbours, j)
  {
    LastWriterInStitchOrder(n, neighbours, j);
    CornerIff(n, j);
    FirstPresentOfOne(neighbours, North);
    FirstPresentOfOne(neighbours, South);
    FirstPresentOfOne(neighbours, West);
    FirstPresentOfOne(neighbours, East);
  }

  /** FirstPresent over three directions, spelled out. */
  lemma FirstPresentOfThree(neighbours: Direction -> Option<Surface>, a: Direction, b: Direction, c: Direction)
    ensures FirstPresent(neighbours, [a, b, c]) ==
      if neighbours(a).Some? then Some(a)
      else if neighbours(b).Some? then Some(b)
      else if neighbours(c).Some? then Some(c)
      else None
  {
    assert [a, b, c][1..] == [b, c] && [b, c][1..] == [c];
    FirstPresentOfOne(neighbours, c);
    assert FirstPresent(neighbours, [b, c]) == if neighbours(b).Some? then Some(b) else FirstPresent(neighbours, [c]);
  }

  /** FirstPresent over one direction, spelled out. */
  lemma FirstPresentOfOne(neighbours: Direction -> Option<Surface>, a: Direction)
    ensures FirstPresent(neighbours, [a]) == if neighbours(a).Some? then Some(a) else None
  {
    assert [a][1..] == [];
  }

  /** What stitching does to each vertex, stated through Decider. */
  lemma FixStitchesAt(n: nat, s: Surface, neighbours: Direction -> Option<Surface>, j: nat)
    requires n >= 2 && Fits(n, s) && NeighboursFit(n, neighbours)
    ensures var w := Decider(n, neighbours, j);
      && (w.Some? ==> neighbours(w.value).Some? && Covers(n, w.value, j))
      && (j < |s.vertices| ==> FixStitches(n, s, neighbours).vertices[j] == ResolvedVertex(n, s, neighbours, w, j))
      && (j < |s.normals| ==> FixStitches(n, s, neighbours).normals[j] == ResolvedNormal(n, s, neighbours, w, j))
  {
    LastWriterIsDecider(n, neighbours, j);
    StitchAllIsLastWriter(n, s, neighbours, StitchOrder, j);
  }

  /** A vertex on the border of the grid. */
  predicate OnBorder(n: nat, j: nat)
    requires n >= 2
  {
    j < n * n && (Row(n, j) == 0 || Row(n, j) == n - 1 || Col(n, j) == 0 || Col(n, j) == n - 1)
  }

  /** Stitching keeps every vertex's X and Z, and changes nothing off the
      border (interior vertices and entries past the grid). */
  lemma StitchTouchesOnlyBorderHeights(n: nat, s: Surface, neighbours: Direction -> Option<Surface>)
    requires n >= 2 && Fits(n, s) && NeighboursFit(n, neighbours)
    ensures var r := FixStitches(n, s, neighbours);
      && (forall j :: 0 <= j < |s.vertices| ==> SameGround(r.vertices[j], s.vertices[j]))
      && (forall j :: 0 <= j < |s.vertices| && !OnBorder(n, j) ==> r.vertices[j] == s.vertices[j])
      && (forall j :: 0 <= j < |s.normals| && !OnBorder(n, j) ==> r.normals[j] == s.normals[j])
  {
    forall j | 0 <= j < |s.vertices| {
      StitchTouchesOnlyBorderAt(n, s, neighbours, j);
    }
    forall j | 0 <= j < |s.normals| {
      StitchTouchesOnlyBorderAt(n, s, neighbours, j);
    }
  }

  /** StitchTouchesOnlyBorderHeights at vertex j. */
  lemma StitchTouchesOnlyBorderAt(n: nat, s: Surface, neighbours: Direction -> Option<Surface>, j: nat)
    requires n >= 2 && Fits(n, s) && NeighboursFit(n, neighbours)
    ensures var r := FixStitches(n, s, neighbours);
      && (j < |s.vertices| ==> SameGround(r.vertices[j], s.vertices[j]))
      && (j < |s.vertices| && !OnBorder(n, j) ==> r.vertices[j] == s.vertices[j])
      && (j < |s.normals| && !OnBorder(n, j) ==> r.normals[j] == s.normals[j])
  {
    CornerCells(n);
    FixStitchesAt(n, s, neighbours, j);
  }

  /** With no neighbour registered in any direction, stitching is a no-op. */
  lemma NoNeighboursNoChange(n: nat, s: Surface, neighbours: Direction -> Option<Surface>)
    requires n >= 2 && Fits(n, s)
    requires forall d :: neighbours(d).None?
    ensures NeighboursFit(n, neighbours)
    ensures FixStitches(n, s, neighbours) == s
  {
    var r := FixStitches(n, s, neighbours);
    forall j | 0 <= j < |s.vertices|
      ensures r.vertices[j] == s.vertices[j]
    {
      StitchAllIsLastWriter(n, s, neighbours, StitchOrder, j);
    }
    forall j | 0 <= j < |s.normals|
      ensures r.normals[j] == s.normals[j]
    {
      StitchAllIsLastWriter(n, s, neighbours, StitchOrder, j);
    }
  }

  /** At one vertex, stitching a stitched surface again changes nothing. */
  lemma StitchIdempotentAt(n: nat, s: Surface, neighbours: Direction -> Option<Surface>, j: nat)
    requires n >= 2 && Fits(n, s) && NeighboursFit(n, neighbours)
    ensures Fits(n, FixStitches(n, s, neighbours))
    ensures var once := FixStitches(n, s, neighbours);
      && (j < |s.vertices| ==> FixStitches(n, once, neighbours).vertices[j] == once.vertices[j])
      && (j < |s.normals| ==> FixStitches(n, once, neighbours).normals[j] == once.normals[j])
  {
    var once := FixStitches(n, s, neighbours);
    var w := LastWriter(n, neighbours, StitchOrder, j);
    StitchAllIsLastWriter(n, s, neighbours, StitchOrder, j);
    StitchAllIsLastWriter(n, once, neighbours, StitchOrder, j);
  }

  /** Stitching twice against the same neighbours gives the same surface as
      stitching once. */
  lemma StitchIdempotent(n: nat, s: Surface, neighbours: Direction -> Option<Surface>)
    requires n >= 2 && Fits(n, s) && NeighboursFit(n, neighbours)
    ensures Fits(n, FixStitches(n, s, neighbours))
    ensures FixStitches(n, FixStitches(n, s, neighbours), neighbours) == FixStitches(n, s, neighbours)
  {
    var once := FixStitches(n, s, neighbours);
    var twice := FixStitches(n, once, neighbours);
    forall j | 0 <= j < |s.vertices|
      ensures twice.vertices[j] == once.vertices[j]
    {
      StitchIdempotentAt(n, s, neighbours, j);
    }
    forall j | 0 <= j < |s.normals|
      ensures twice.normals[j] == once.normals[j]
    {
      StitchIdempotentAt(n, s, neighbours, j);
    }
    assert twice.vertices == once.vertices;
    assert twice.normals == once.normals;
  }

  /** A present diagonal neighbour decides its corner: the corner takes the
      height and normal of the neighbour's opposite corner. */
  lemma DiagonalDecidesCorner(n: nat, s: Surface, neighbours: Direction -> Option<Surface>, d: Direction)
    requires n >= 2 && Fits(n, s) && NeighboursFit(n, neighbours)
    requires !IsEdge(d) && neighbours(d).Some?
    ensures Corner(n, d) < n * n && Corner(n, Opposite(d)) < n * n
    ensures var r := FixStitches(n, s, neighbours);
      var nb := neighbours(d).value;
      && r.vertices[Corner(n, d)].y == nb.vertices[Corner(n, Opposite(d))].y
      && r.normals[Corner(n, d)] == nb.normals[Corner(n, Opposite(d))]
  {
    CornerCells(n);
    FixStitchesAt(n, s, neighbours, Corner(n, d));
  }

  /** A present edge neighbour decides every vertex of its edge except the two
      corners: vertex j takes the height and normal of its partner. */
  lemma EdgeDecidesEdge(n: nat, s: Surface, neighbours: Direction -> Option<Surface>, d: Direction, j: nat)
    requires n >= 2 && Fits(n, s) && NeighboursFit(n, neighbours)
    requires IsEdge(d) && neighbours(d).Some? && Covers(n, d, j)
    requires j != Corner(n, NorthWest) && j != Corner(n, NorthEast)
    requires j != Corner(n, SouthWest) && j != Corner(n, SouthEast)
    ensures var r := FixStitches(n, s, neighbours);
      var nb := neighbours(d).value;
      && r.vertices[j].y == nb.vertices[Partner(n, d, j)].y
      && r.normals[j] == nb.normals[Partner(n, d, j)]
  {
    CornerIff(n, j);
    FixStitchesAt(n, s, neighbours, j);
  }
}
