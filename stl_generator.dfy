/**
 * The mesh generator: per-row facet sequencing (CalculateRow), the body
 * of rows, the header facet count, the parameter checks and the bytes that
 * end up in the destination file.
 *
 * The row sequencing exists in two variants: AsWritten follows the source
 * exactly, Corrected emits the south wall independently of the north wall
 * and refuses an assembled grid of fewer than two rows (see the findings
 * in README.md).
 */
module StlGenerator {
  import opened Wrappers
  import opened StlBytes
  import opened WriteFacets
  import opened GridAssembly

  datatype Variant = AsWritten | Corrected

  /** A grid CalculateRow can work on: at least one row and one column, all rows equally long. */
  predicate IsHeightmap(hm: Heightmap) {
    |hm| >= 1 && |hm[0]| >= 1 && IsGrid(hm, |hm[0]|)
  }

  /** What CalculateRow's callers guarantee: y is one of range(height). */
  predicate RowInRange(hm: Heightmap, y: int) {
    IsHeightmap(hm) && 0 <= y < |hm| - 1
  }

  // ---------------------------------------------------------------------------
  // CalculateRow
  // ---------------------------------------------------------------------------

  /** Number of wall quads per column in row y of a grid with `height` cell rows. */
  function NumWalls(y: int, height: int, v: Variant): nat {
    match v
    case AsWritten => if y == 0 || y == height - 1 then 1 else 0
    case Corrected => (if y == 0 then 1 else 0) + (if y == height - 1 then 1 else 0)
  }

  /** The north/south walls emitted for cell x of row y. */
  function WallQuads(hm: Heightmap, y: int, x: int, v: Variant): (qs: seq<Quad>)
    requires RowInRange(hm, y) && 0 <= x < |hm[0]| - 1
    ensures |qs| == NumWalls(y, |hm| - 1, v)
  {
    var height := |hm| - 1;
    match v
    case AsWritten =>
      if y == 0 then [NorthQuad(x, y, hm)]
      else if y == height - 1 then [SouthQuad(x, y + 1, hm)]
      else []
    case Corrected =>
      (if y == 0 then [NorthQuad(x, y, hm)] else [])
      + (if y == height - 1 then [SouthQuad(x, y + 1, hm)] else [])
  }

  /** Everything the x loop appends for column x: the walls, then the bottom, then the top. */
  function CellQuads(hm: Heightmap, y: int, x: int, v: Variant): seq<Quad>
    requires RowInRange(hm, y) && 0 <= x < |hm[0]| - 1
  {
    WallQuads(hm, y, x, v) + [BottomQuad(x, y, 0.0), TopQuad(x, y, hm)]
  }

  /** The quads of columns 0..n-1 in increasing column order. */
  function RowCells(hm: Heightmap, y: int, n: nat, v: Variant): (qs: seq<Quad>)
    requires RowInRange(hm, y) && n <= |hm[0]| - 1
    ensures |qs| == n * (2 + NumWalls(y, |hm| - 1, v))
  {
    if n == 0 then [] else RowCells(hm, y, n - 1, v) + CellQuads(hm, y, n - 1, v)
  }

  /** All quads of row y, in the order CalculateRow appends them. */
  function RowQuads(hm: Heightmap, y: int, v: Variant): (qs: seq<Quad>)
    requires RowInRange(hm, y)
    ensures |qs| == 2 + (|hm[0]| - 1) * (2 + NumWalls(y, |hm| - 1, v))
  {
    [EastQuad(0, y, hm), WestQuad(|hm[0]| - 1, y, hm)] + RowCells(hm, y, |hm[0]| - 1, v)
  }

  /**
   * CalculateRow(heightmap, y, h_scale): the bytes of row y, built by
   * appending one writer call at a time.
   */
  method CalculateRow(hm: Heightmap, y: int, hs: real, enc: Float32Encoder, v: Variant)
    returns (facets: seq<byte>)
    requires RowInRange(hm, y)
    ensures facets == QuadsBytes(enc, hs, RowQuads(hm, y, v))
  {
    var width := |hm[0]| - 1;
    var east, west := EastQuad(0, y, hm), WestQuad(width, y, hm);
    facets := QuadsBytes(enc, hs, [east]);
    facets := facets + QuadsBytes(enc, hs, [west]);
    RowPrefixStart(hm, y, hs, enc, v);
    for x := 0 to width
      invariant IsRowPrefix(hm, y, hs, enc, v, x, facets)
    {
      var walls := ColumnWalls(hm, y, x, v);
      var bottom, top := BottomQuad(x, y, 0.0), TopQuad(x, y, hm);
      RowPrefixStep(hm, y, hs, enc, v, x, facets);
      facets := facets + QuadsBytes(enc, hs, walls);
      facets := facets + QuadsBytes(enc, hs, [bottom]);
      facets := facets + QuadsBytes(enc, hs, [top]);
    }
    assert RowQuads(hm, y, v) == [east, west] + RowCells(hm, y, width, v);
  }

  /** The bytes of the two side walls and the first x columns of row y. */
  predicate IsRowPrefix(hm: Heightmap, y: int, hs: real, enc: Float32Encoder, v: Variant, x: nat, facets: seq<byte>)
    requires RowInRange(hm, y)
  {
    x <= |hm[0]| - 1 &&
    facets == QuadsBytes(enc, hs, [EastQuad(0, y, hm), WestQuad(|hm[0]| - 1, y, hm)] + RowCells(hm, y, x, v))
  }

  lemma RowPrefixStart(hm: Heightmap, y: int, hs: real, enc: Float32Encoder, v: Variant)
    requires RowInRange(hm, y)
    ensures IsRowPrefix(hm, y, hs, enc, v, 0,
      QuadsBytes(enc, hs, [EastQuad(0, y, hm)]) + QuadsBytes(enc, hs, [WestQuad(|hm[0]| - 1, y, hm)]))
  {
    var east, west := EastQuad(0, y, hm), WestQuad(|hm[0]| - 1, y, hm);
    QuadsBytesAppend(enc, hs, [east], [west]);
    assert [east, west] + RowCells(hm, y, 0, v) == [east] + [west];
  }

  lemma RowPrefixStep(hm: Heightmap, y: int, hs: real, enc: Float32Encoder, v: Variant, x: nat, facets: seq<byte>)
    requires RowInRange(hm, y) && x < |hm[0]| - 1 && IsRowPrefix(hm, y, hs, enc, v, x, facets)
    ensures IsRowPrefix(hm, y, hs, enc, v, x + 1,
      facets + QuadsBytes(enc, hs, WallQuads(hm, y, x, v)) + QuadsBytes(enc, hs, [BottomQuad(x, y, 0.0)])
        + QuadsBytes(enc, hs, [TopQuad(x, y, hm)]))
  {
    var sides := [EastQuad(0, y, hm), WestQuad(|hm[0]| - 1, y, hm)];
    AppendCell(enc, hs, sides + RowCells(hm, y, x, v), WallQuads(hm, y, x, v), BottomQuad(x, y, 0.0), TopQuad(x, y, hm));
    RowCellsStep(hm, y, x, v, sides);
  }

  /**
   * The wall writers called for column x: on the source's if/elif, the north
   * wall on row 0 and otherwise the south wall on the last row; in the
   * corrected variant both tests are made.
   */
  method ColumnWalls(hm: Heightmap, y: int, x: int, v: Variant) returns (walls: seq<Quad>)
    requires RowInRange(hm, y) && 0 <= x < |hm[0]| - 1
    ensures walls == WallQuads(hm, y, x, v)
  {
    var height := |hm| - 1;
    walls := [];
    match v {
      case AsWritten =>
        if y == 0 {
          walls := [NorthQuad(x, y, hm)];
        } else if y == height - 1 {
          walls := [SouthQuad(x, y + 1, hm)];
        }
      case Corrected =>
        if y == 0 {
          walls := [NorthQuad(x, y, hm)];
        }
        if y == height - 1 {
          walls := walls + [SouthQuad(x, y + 1, hm)];
        }
    }
  }

  /** Appending the writer calls of one column one at a time gives the bytes of the column's quads. */
  lemma AppendCell(enc: Float32Encoder, hs: real, done: seq<Quad>, walls: seq<Quad>, bottom: Quad, top: Quad)
    ensures QuadsBytes(enc, hs, done) + QuadsBytes(enc, hs, walls) + QuadsBytes(enc, hs, [bottom])
            + QuadsBytes(enc, hs, [top]) == QuadsBytes(enc, hs, done + (walls + [bottom, top]))
  {
    var d, w, b, t := QuadsBytes(enc, hs, done), QuadsBytes(enc, hs, walls), QuadsBytes(enc, hs, [bottom]), QuadsBytes(enc, hs, [top]);
    QuadsBytesAppend(enc, hs, [bottom], [top]);
    assert [bottom] + [top] == [bottom, top];
    QuadsBytesAppend(enc, hs, walls, [bottom, top]);
    QuadsBytesAppend(enc, hs, done, walls + [bottom, top]);
    Regroup(d, w, b, t);
  }

  lemma Regroup<T>(d: seq<T>, w: seq<T>, b: seq<T>, t: seq<T>)
    ensures d + w + b + t == d + (w + (b + t))
  {
  }

  lemma RowCellsStep(hm: Heightmap, y: int, x: nat, v: Variant, prefix: seq<Quad>)
    requires RowInRange(hm, y) && x < |hm[0]| - 1
    ensures prefix + RowCells(hm, y, x + 1, v)
            == (prefix + RowCells(hm, y, x, v)) + (WallQuads(hm, y, x, v) + [BottomQuad(x, y, 0.0), TopQuad(x, y, hm)])
  {
  }

  lemma MulMono(k: nat, a: nat, b: nat)
    requires a <= b
    ensures k * a <= k * b
  {
  }

  // ---------------------------------------------------------------------------
  // Row layout
  // ---------------------------------------------------------------------------

  /** Column x of row y occupies a fixed slot: after the two side walls, k quads per column. */
  lemma {:induction false} RowCellsAt(hm: Heightmap, y: int, n: nat, x: nat, v: Variant)
    requires RowInRange(hm, y) && x < n <= |hm[0]| - 1
    ensures var k := 2 + NumWalls(y, |hm| - 1, v);
      k * x + k <= |RowCells(hm, y, n, v)| &&
      RowCells(hm, y, n, v)[k * x..k * x + k] == CellQuads(hm, y, x, v)
  {
    var k := 2 + NumWalls(y, |hm| - 1, v);
    var pre, c := RowCells(hm, y, n - 1, v), CellQuads(hm, y, n - 1, v);
    RowCellsSplit(hm, y, n, v);
    SlotOfAppend(pre, c, k, n - 1, x);
    if x < n - 1 {
      RowCellsAt(hm, y, n - 1, x, v);
    }
  }

  lemma RowCellsSplit(hm: Heightmap, y: int, n: nat, v: Variant)
    requires RowInRange(hm, y) && 0 < n <= |hm[0]| - 1
    ensures var k, pre, c := 2 + NumWalls(y, |hm| - 1, v), RowCells(hm, y, n - 1, v), CellQuads(hm, y, n - 1, v);
      RowCells(hm, y, n, v) == pre + c && |pre| == k * (n - 1) && |c| == k
  {
  }

  /** Slot x of k elements in a sequence of m slots followed by one more slot. */
  lemma SlotOfAppend<T>(pre: seq<T>, c: seq<T>, k: nat, m: nat, x: nat)
    requires |pre| == k * m && |c| == k && x <= m
    ensures k * x + k <= |pre + c|
    ensures x < m ==> k * x + k <= |pre| && (pre + c)[k * x..k * x + k] == pre[k * x..k * x + k]
    ensures x == m ==> (pre + c)[k * x..k * x + k] == c
  {
    MulMono(k, x, m);
    if x < m {
      MulMono(k, x + 1, m);
      assert k * (x + 1) == k * x + k;
    }
  }

  /**
   * The order CalculateRow promises: the east wall at column 0, the west wall
   * at column width, then per column a north wall on row 0 or else a south
   * wall on the last row, a bottom quad and a top quad.
   */
  lemma RowOrder(hm: Heightmap, y: int, x: nat, v: Variant)
    requires RowInRange(hm, y) && x < |hm[0]| - 1
    ensures var k := 2 + NumWalls(y, |hm| - 1, v);
      var r := RowQuads(hm, y, v);
      2 + k * x + k <= |r| &&
      r[0] == EastQuad(0, y, hm) && r[1] == WestQuad(|hm[0]| - 1, y, hm) &&
      r[2 + k * x..2 + k * x + k] == CellQuads(hm, y, x, v) &&
      r[2 + k * x + k - 2] == BottomQuad(x, y, 0.0) && r[2 + k * x + k - 1] == TopQuad(x, y, hm)
  {
    var k := 2 + NumWalls(y, |hm| - 1, v);
    RowSlot(hm, y, x, v);
    LastTwo(RowQuads(hm, y, v), 2 + k * x, k, BottomQuad(x, y, 0.0), TopQuad(x, y, hm), WallQuads(hm, y, x, v));
  }

  /** Column x's quads sit in slot x of the row, after the two side walls. */
  lemma RowSlot(hm: Heightmap, y: int, x: nat, v: Variant)
    requires RowInRange(hm, y) && x < |hm[0]| - 1
    ensures var k := 2 + NumWalls(y, |hm| - 1, v);
      var r := RowQuads(hm, y, v);
      2 + k * x + k <= |r| && r[2 + k * x..2 + k * x + k] == CellQuads(hm, y, x, v)
  {
    var k := 2 + NumWalls(y, |hm| - 1, v);
    var cells := RowCells(hm, y, |hm[0]| - 1, v);
    RowCellsAt(hm, y, |hm[0]| - 1, x, v);
    var e := [EastQuad(0, y, hm), WestQuad(|hm[0]| - 1, y, hm)];
    assert RowQuads(hm, y, v) == e + cells;
    var lo := k * x;
    SliceAfterHead(e, cells, lo, lo + k);
  }

  /** The last two elements of a slice that ends with [b, t]. */
  lemma LastTwo<T>(r: seq<T>, lo: nat, k: nat, b: T, t: T, walls: seq<T>)
    requires lo + k <= |r| && r[lo..lo + k] == walls + [b, t]
    ensures k >= 2 && r[lo + k - 2] == b && r[lo + k - 1] == t
  {
    assert r[lo + k - 2] == r[lo..lo + k][k - 2];
    assert r[lo + k - 1] == r[lo..lo + k][k - 1];
  }

  /**
   * The walls of column x in row y. As written there is at most one: the
   * north wall exactly on row 0, the south wall exactly on a last row that is
   * not row 0. The corrected variant emits the same walls, plus the south wall
   * when row 0 is also the last row.
   */
  lemma WallsOfRow(hm: Heightmap, y: int, x: int)
    requires RowInRange(hm, y) && 0 <= x < |hm[0]| - 1
    ensures var height := |hm| - 1;
      |WallQuads(hm, y, x, AsWritten)| == (if y == 0 || y == height - 1 then 1 else 0)
    ensures NorthQuad(x, y, hm) in WallQuads(hm, y, x, AsWritten) <==> y == 0
    ensures var height := |hm| - 1;
      SouthQuad(x, y + 1, hm) in WallQuads(hm, y, x, AsWritten) <==> y != 0 && y == height - 1
    ensures var height := |hm| - 1;
      WallQuads(hm, y, x, Corrected) ==
        WallQuads(hm, y, x, AsWritten) + (if y == 0 && y == height - 1 then [SouthQuad(x, y + 1, hm)] else [])
  {
    assert NorthQuad(x, y, hm).a.v1 != SouthQuad(x, y + 1, hm).a.v1;
  }

  // ---------------------------------------------------------------------------
  // The body: every row in increasing order
  // ---------------------------------------------------------------------------

  /** The quads of rows 0..n-1. */
  function BodyQuads(hm: Heightmap, n: nat, v: Variant): seq<Quad>
    requires IsHeightmap(hm) && n <= |hm| - 1
  {
    if n == 0 then [] else BodyQuads(hm, n - 1, v) + RowQuads(hm, n - 1, v)
  }

  /** The facets of the whole body: two per quad. */
  function BodyFacets(hm: Heightmap, v: Variant): seq<Facet>
    requires IsHeightmap(hm)
  {
    QuadFacets(BodyQuads(hm, |hm| - 1, v))
  }

  /** The sequential path: `facets += CalculateRow(heightmap, y, h_scale)` for y in range(height). */
  method SequentialRows(hm: Heightmap, hs: real, enc: Float32Encoder, v: Variant) returns (facets: seq<byte>)
    requires IsHeightmap(hm)
    ensures facets == FacetsBytes(enc, hs, BodyFacets(hm, v))
  {
    facets := [];
    for y := 0 to |hm| - 1
      invariant IsBodyPrefix(hm, hs, enc, v, y, facets)
    {
      var row := CalculateRow(hm, y, hs, enc, v);
      BodyPrefixStep(hm, hs, enc, v, y, facets, row);
      facets := facets + row;
    }
  }

  /** facets holds the bytes of rows 0..y-1. */
  predicate IsBodyPrefix(hm: Heightmap, hs: real, enc: Float32Encoder, v: Variant, y: nat, facets: seq<byte>)
    requires IsHeightmap(hm)
  {
    y <= |hm| - 1 && facets == QuadsBytes(enc, hs, BodyQuads(hm, y, v))
  }

  lemma BodyPrefixStep(hm: Heightmap, hs: real, enc: Float32Encoder, v: Variant, y: nat, facets: seq<byte>, row: seq<byte>)
    requires IsHeightmap(hm) && y < |hm| - 1
    requires IsBodyPrefix(hm, hs, enc, v, y, facets)
    requires row == QuadsBytes(enc, hs, RowQuads(hm, y, v))
    ensures IsBodyPrefix(hm, hs, enc, v, y + 1, facets + row)
  {
    BodyStep(hm, hs, enc, v, y);
  }

  lemma BodyStep(hm: Heightmap, hs: real, enc: Float32Encoder, v: Variant, y: nat)
    requires IsHeightmap(hm) && y < |hm| - 1
    ensures QuadsBytes(enc, hs, BodyQuads(hm, y + 1, v))
         == QuadsBytes(enc, hs, BodyQuads(hm, y, v)) + QuadsBytes(enc, hs, RowQuads(hm, y, v))
  {
    assert BodyQuads(hm, y + 1, v) == BodyQuads(hm, y, v) + RowQuads(hm, y, v);
    QuadsBytesAppend(enc, hs, BodyQuads(hm, y, v), RowQuads(hm, y, v));
  }

  /** parts[y] holds the bytes of row y, for every row. */
  predicate AreRowBytes(hm: Heightmap, hs: real, enc: Float32Encoder, v: Variant, parts: seq<seq<byte>>)
    requires IsHeightmap(hm)
  {
    |parts| == |hm| - 1 && AreFirstRowBytes(hm, hs, enc, v, parts)
  }

  /** parts[y] holds the bytes of row y, for every y it covers. */
  predicate AreFirstRowBytes(hm: Heightmap, hs: real, enc: Float32Encoder, v: Variant, parts: seq<seq<byte>>)
    requires IsHeightmap(hm)
  {
    |parts| <= |hm| - 1 && forall y :: 0 <= y < |parts| ==> parts[y] == QuadsBytes(enc, hs, RowQuads(hm, y, v))
  }

  /** The rows computed so far, and their join is the body of those rows. */
  predicate RowsJoined(hm: Heightmap, hs: real, enc: Float32Encoder, v: Variant, parts: seq<seq<byte>>)
    requires IsHeightmap(hm)
  {
    AreFirstRowBytes(hm, hs, enc, v, parts)
    && Join(parts) == QuadsBytes(enc, hs, BodyQuads(hm, |parts|, v))
  }

  /** Appending the next row keeps RowsJoined. */
  lemma RowsJoinedAppend(hm: Heightmap, hs: real, enc: Float32Encoder, v: Variant, parts: seq<seq<byte>>, row: seq<byte>)
    requires IsHeightmap(hm) && |parts| < |hm| - 1
    requires RowsJoined(hm, hs, enc, v, parts)
    requires row == QuadsBytes(enc, hs, RowQuads(hm, |parts|, v))
    ensures RowsJoined(hm, hs, enc, v, parts + [row])
  {
    FirstRowBytesAppend(hm, hs, enc, v, parts, row);
    JoinAppend(parts, row);
    BodyStep(hm, hs, enc, v, |parts|);
  }

  lemma FirstRowBytesAppend(hm: Heightmap, hs: real, enc: Float32Encoder, v: Variant, parts: seq<seq<byte>>, row: seq<byte>)
    requires IsHeightmap(hm) && |parts| < |hm| - 1
    requires AreFirstRowBytes(hm, hs, enc, v, parts)
    requires row == QuadsBytes(enc, hs, RowQuads(hm, |parts|, v))
    ensures AreFirstRowBytes(hm, hs, enc, v, parts + [row])
  {
    var ps := parts + [row];
    forall y | 0 <= y < |ps|
      ensures ps[y] == QuadsBytes(enc, hs, RowQuads(hm, y, v))
    {
      if y < |parts| {
        assert ps[y] == parts[y];
      }
    }
  }

  lemma JoinAppend(parts: seq<seq<byte>>, last: seq<byte>)
    ensures Join(parts + [last]) == Join(parts) + last
  {
    assert (parts + [last])[..|parts|] == parts;
  }

  /**
   * The pool path: starmap calls CalculateRow for every y and returns the
   * results in the order of the arguments, whatever order the workers
   * finish in; joined, they are the bytes the sequential loop produces.
   */
  method StarmapRows(hm: Heightmap, hs: real, enc: Float32Encoder, v: Variant) returns (parts: seq<seq<byte>>)
    requires IsHeightmap(hm)
    ensures AreRowBytes(hm, hs, enc, v, parts)
    ensures Join(parts) == FacetsBytes(enc, hs, BodyFacets(hm, v))
  {
    parts := [];
    while |parts| < |hm| - 1
      invariant RowsJoined(hm, hs, enc, v, parts)
    {
      var row := CalculateRow(hm, |parts|, hs, enc, v);
      RowsJoinedAppend(hm, hs, enc, v, parts, row);
      parts := parts + [row];
    }
  }

  /** b''.join(parts). */
  function Join(parts: seq<seq<byte>>): (r: seq<byte>)
    ensures parts == [] ==> r == []
  {
    if parts == [] then [] else Join(parts[..|parts| - 1]) + parts[|parts| - 1]
  }

  // ---------------------------------------------------------------------------
  // Facet counts
  // ---------------------------------------------------------------------------

  /** numTopBottomFacets + numNorthSouthFacets + numEastWestFacets. */
  function HeaderCount(height: nat, width: nat): nat {
    4 * width * height + 4 * width + 4 * height
  }

  /** Wall quads per column, summed over rows 0..n-1. */
  function WallRows(n: nat, height: int, v: Variant): nat {
    if n == 0 then 0 else WallRows(n - 1, height, v) + NumWalls(n - 1, height, v)
  }

  /**
   * Row 0 contributes one wall per column, and the last row one more,
   * except in the source as written when the last row is row 0.
   */
  lemma {:induction false} WallRowsClosed(n: nat, height: nat, v: Variant)
    requires n <= height
    ensures WallRows(n, height, v) ==
      (if n > 0 then 1 else 0) + (if n == height && height > 0 && (v == Corrected || height > 1) then 1 else 0)
  {
    if n > 0 {
      WallRowsClosed(n - 1, height, v);
    }
  }

  lemma {:induction false} BodyQuadsCount(hm: Heightmap, n: nat, v: Variant)
    requires IsHeightmap(hm) && n <= |hm| - 1
    ensures |BodyQuads(hm, n, v)| == 2 * n + (|hm[0]| - 1) * (2 * n + WallRows(n, |hm| - 1, v))
  {
    if n > 0 {
      BodyQuadsCount(hm, n - 1, v);
      var prev, row := |BodyQuads(hm, n - 1, v)|, |RowQuads(hm, n - 1, v)|;
      assert |BodyQuads(hm, n, v)| == prev + row;
      CountStep(n, |hm[0]| - 1, WallRows(n - 1, |hm| - 1, v), NumWalls(n - 1, |hm| - 1, v));
    }
  }

  lemma CountStep(n: nat, w: nat, r: nat, k: nat)
    requires n > 0
    ensures 2 * (n - 1) + w * (2 * (n - 1) + r) + (2 + w * (2 + k)) == 2 * n + w * (2 * n + (r + k))
  {
    assert w * (2 * (n - 1) + r) + w * (2 + k) == w * (2 * n + (r + k));
  }

  /**
   * The header count equals the number of facets in the body exactly when the
   * grid is one column wide, has at least three rows, or has two rows and the
   * south walls are emitted independently of the north walls.
   */
  lemma BodyMatchesHeader(hm: Heightmap, v: Variant)
    requires IsHeightmap(hm)
    ensures var height, width := |hm| - 1, |hm[0]| - 1;
      |BodyFacets(hm, v)| == HeaderCount(height, width) <==>
        width == 0 || height >= 2 || (v == Corrected && height == 1)
  {
    var height, width := |hm| - 1, |hm[0]| - 1;
    BodyQuadsCount(hm, height, v);
    WallRowsClosed(height, height, v);
    var r := WallRows(height, height, v);
    assert |BodyFacets(hm, v)| == 2 * (2 * height + width * (2 * height + r));
    CountDifference(height, width, r);
    ZeroProduct(width, r - 2);
  }

  lemma CountDifference(height: int, width: int, r: int)
    ensures 2 * (2 * height + width * (2 * height + r)) - (4 * width * height + 4 * width + 4 * height)
         == 2 * (width * (r - 2))
  {
  }

  lemma ZeroProduct(a: int, b: int)
    ensures a * b == 0 <==> a == 0 || b == 0
  {
    if a != 0 && b != 0 {
      if a > 0 && b > 0 { assert a * b >= b; }
      else if a > 0 { assert a * b <= b; }
      else if b > 0 { assert a * b <= a; }
      else { assert a * b >= -a; }
    }
  }

  /** Two rows, as written: the body has 2 * width facets fewer than the header says. */
  lemma TwoRowsAsWrittenMissSouthWalls(hm: Heightmap)
    requires IsHeightmap(hm) && |hm| == 2
    ensures |BodyFacets(hm, AsWritten)| + 2 * (|hm[0]| - 1) == HeaderCount(1, |hm[0]| - 1)
    ensures forall q :: q in BodyQuads(hm, 1, AsWritten) ==> forall x :: 0 <= x < |hm[0]| - 1 ==> q != SouthQuad(x, 1, hm)
  {
    BodyQuadsCount(hm, 1, AsWritten);
    WallRowsClosed(1, 1, AsWritten);
    var rq := RowQuads(hm, 0, AsWritten);
    assert BodyQuads(hm, 1, AsWritten) == [] + rq;
    forall q | q in rq ensures forall x :: 0 <= x < |hm[0]| - 1 ==> q != SouthQuad(x, 1, hm) {
      RowHasNoSouthWall(hm, |hm[0]| - 1, q);
    }
  }

  lemma {:induction false} RowHasNoSouthWall(hm: Heightmap, n: nat, q: Quad)
    requires IsHeightmap(hm) && |hm| == 2 && n <= |hm[0]| - 1
    requires q in [EastQuad(0, 0, hm), WestQuad(|hm[0]| - 1, 0, hm)] + RowCells(hm, 0, n, AsWritten)
    ensures forall x :: 0 <= x < |hm[0]| - 1 ==> q != SouthQuad(x, 1, hm)
  {
    var e := [EastQuad(0, 0, hm), WestQuad(|hm[0]| - 1, 0, hm)];
    if n > 0 && q !in e + RowCells(hm, 0, n - 1, AsWritten) {
      assert q in CellQuads(hm, 0, n - 1, AsWritten);
    } else if n > 0 {
      RowHasNoSouthWall(hm, n - 1, q);
    }
  }

  /** The smallest grids that show it: 2x2 is written with 10 facets under a header of 12, 1x2 with none under 4. */
  lemma SmallGridCounterexamples()
    ensures var hm := [[0.0, 0.0], [0.0, 0.0]];
      |BodyFacets(hm, AsWritten)| == 10 && HeaderCount(1, 1) == 12 && |BodyFacets(hm, Corrected)| == 12
    ensures var hm := [[0.0, 0.0]];
      |BodyFacets(hm, AsWritten)| == 0 && HeaderCount(0, 1) == 4
  {
    var hm := [[0.0, 0.0], [0.0, 0.0]];
    BodyQuadsCount(hm, 1, AsWritten);
    WallRowsClosed(1, 1, AsWritten);
    BodyQuadsCount(hm, 1, Corrected);
    WallRowsClosed(1, 1, Corrected);
  }
}
