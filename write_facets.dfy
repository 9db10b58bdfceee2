/**
 * The six quad constructors of the facet writer and the binary record
 * layout of a facet.
 *
 * A vertex keeps its horizontal position in grid cells (the writer
 * multiplies both by the horizontal scale hs only when it serialises) and
 * its elevation as a real. Every constructor returns one axis-aligned quad
 * as two triangles, in the order and with the vertex order the writer uses.
 */
module WriteFacets {
  import opened StlBytes

  datatype Normal = Normal(nx: int, ny: int, nz: int)
  datatype Vertex = Vertex(gx: int, gy: int, z: real)
  datatype Facet = Facet(normal: Normal, v1: Vertex, v2: Vertex, v3: Vertex)
  datatype Quad = Quad(a: Facet, b: Facet)
  datatype Vec3 = Vec3(x: real, y: real, z: real)
  datatype Edge = Edge(from: Vertex, to: Vertex)

  /** The stored normals are constants, not derived from the vertices. */
  const WallNormal := Normal(0, -1, 0)
  const BottomNormal := Normal(0, 0, -1)

  // ---------------------------------------------------------------------------
  // Geometry in grid units
  // ---------------------------------------------------------------------------

  function Sub(p: Vertex, q: Vertex): Vec3 {
    Vec3((p.gx - q.gx) as real, (p.gy - q.gy) as real, p.z - q.z)
  }

  function Cross(a: Vec3, b: Vec3): Vec3 {
    Vec3(a.y * b.z - a.z * b.y, a.z * b.x - a.x * b.z, a.x * b.y - a.y * b.x)
  }

  function Neg(a: Vec3): Vec3 { Vec3(-a.x, -a.y, -a.z) }

  /**
   * The normal which the winding v1 -> v2 -> v3 implies by the right-hand
   * rule (not normalised), measured in grid cells horizontally. Its z part
   * is twice the signed area of the triangle's projection on the xy-plane.
   */
  function Orientation(f: Facet): Vec3 {
    Cross(Sub(f.v2, f.v1), Sub(f.v3, f.v1))
  }

  /** The directed edges of a triangle, in winding order. */
  function Edges(f: Facet): seq<Edge> {
    [Edge(f.v1, f.v2), Edge(f.v2, f.v3), Edge(f.v3, f.v1)]
  }

  function Rev(e: Edge): Edge { Edge(e.to, e.from) }

  function Vertices(q: Quad): set<Vertex> {
    {q.a.v1, q.a.v2, q.a.v3, q.b.v1, q.b.v2, q.b.v3}
  }

  /** The same triangle with its second and third vertices exchanged: the opposite winding. */
  function Mirror(f: Facet): Facet {
    Facet(f.normal, f.v1, f.v3, f.v2)
  }

  function MirrorQuad(q: Quad): Quad {
    Quad(Mirror(q.a), Mirror(q.b))
  }

  lemma MirrorReversesOrientation(f: Facet)
    ensures Orientation(Mirror(f)) == Neg(Orientation(f))
  {
  }

  /** Mirroring a triangle reverses each of its edges. */
  lemma MirrorReversesEdges(f: Facet)
    ensures forall e :: e in Edges(f) <==> Rev(e) in Edges(Mirror(f))
  {
    forall e ensures e in Edges(f) <==> Rev(e) in Edges(Mirror(f)) {
      assert Rev(Rev(e)) == e;
    }
  }

  // ---------------------------------------------------------------------------
  // Heightmap access
  // ---------------------------------------------------------------------------

  predicate HasCell(hm: seq<seq<real>>, x: int, y: int) {
    0 <= y < |hm| && 0 <= x < |hm[y]|
  }

  /** A terrain vertex of the grid: its elevation is the heightmap sample at its position. */
  function Terrain(hm: seq<seq<real>>, x: int, y: int): Vertex
    requires HasCell(hm, x, y)
  {
    Vertex(x, y, hm[y][x])
  }

  /** A vertex on the base plane z = 0. */
  function Foot(x: int, y: int): Vertex { Vertex(x, y, 0.0) }

  // ---------------------------------------------------------------------------
  // The six constructors
  // ---------------------------------------------------------------------------

  /**
   * writeTopFacet: the terrain over cell (x, y). Both triangles run
   * counter-clockwise seen from above, cover the four corners of the cell at
   * their heightmap elevations and share the diagonal (x, y)-(x+1, y+1) in
   * opposite directions.
   */
  function TopQuad(x: int, y: int, hm: seq<seq<real>>): Quad
    requires HasCell(hm, x, y) && HasCell(hm, x + 1, y) && HasCell(hm, x, y + 1) && HasCell(hm, x + 1, y + 1)
  {
    Quad(Facet(WallNormal, Terrain(hm, x, y), Terrain(hm, x + 1, y), Terrain(hm, x + 1, y + 1)),
         Facet(WallNormal, Terrain(hm, x + 1, y + 1), Terrain(hm, x, y + 1), Terrain(hm, x, y)))
  }

  /**
   * writeBottomFacet: the flat cell (x, y) at elevation z. Both triangles run
   * clockwise seen from above, so their winding normal points straight down,
   * and they share the diagonal in opposite directions.
   */
  function BottomQuad(x: int, y: int, z: real): Quad
  {
    Quad(Facet(BottomNormal, Vertex(x, y, z), Vertex(x + 1, y + 1, z), Vertex(x + 1, y, z)),
         Facet(BottomNormal, Vertex(x, y, z), Vertex(x, y + 1, z), Vertex(x + 1, y + 1, z)))
  }

  /**
   * writeNorthFacet: the wall in the plane of row y between columns x and
   * x+1, from the base plane up to the terrain. Its winding normal points
   * towards -y with length equal to the terrain height at the corner.
   */
  function NorthQuad(x: int, y: int, hm: seq<seq<real>>): Quad
    requires HasCell(hm, x, y) && HasCell(hm, x + 1, y)
  {
    Quad(Facet(WallNormal, Foot(x, y), Terrain(hm, x + 1, y), Terrain(hm, x, y)),
         Facet(WallNormal, Foot(x, y), Foot(x + 1, y), Terrain(hm, x + 1, y)))
  }

  /**
   * writeSouthFacet: the north wall with the second and third vertex of each
   * triangle exchanged, so it faces +y.
   */
  function SouthQuad(x: int, y: int, hm: seq<seq<real>>): Quad
    requires HasCell(hm, x, y) && HasCell(hm, x + 1, y)
  {
    Quad(Facet(WallNormal, Foot(x, y), Terrain(hm, x, y), Terrain(hm, x + 1, y)),
         Facet(WallNormal, Foot(x, y), Terrain(hm, x + 1, y), Foot(x + 1, y)))
  }

  /**
   * writeEastFacet: the wall in the plane of column x between rows y and
   * y+1, from the base plane up to the terrain. Its winding normal points
   * towards -x with length equal to the terrain height at the corner.
   */
  function EastQuad(x: int, y: int, hm: seq<seq<real>>): Quad
    requires HasCell(hm, x, y) && HasCell(hm, x, y + 1)
  {
    Quad(Facet(WallNormal, Foot(x, y), Terrain(hm, x, y), Terrain(hm, x, y + 1)),
         Facet(WallNormal, Foot(x, y), Terrain(hm, x, y + 1), Foot(x, y + 1)))
  }

  /**
   * writeWestFacet: the east wall with the second and third vertex of each
   * triangle exchanged, so it faces +x.
   */
  function WestQuad(x: int, y: int, hm: seq<seq<real>>): Quad
    requires HasCell(hm, x, y) && HasCell(hm, x, y + 1)
  {
    Quad(Facet(WallNormal, Foot(x, y), Terrain(hm, x, y + 1), Terrain(hm, x, y)),
         Facet(WallNormal, Foot(x, y), Foot(x, y + 1), Terrain(hm, x, y + 1)))
  }

  // ---------------------------------------------------------------------------
  // What each quad is, geometrically
  // ---------------------------------------------------------------------------

  /**
   * The top quad: both stored normals are (0,-1,0); both triangles run
   * counter-clockwise seen from above (twice the projected area is one
   * cell); together they use exactly the four corners of the cell at their
   * heightmap elevations; and the diagonal (x,y)-(x+1,y+1) is traversed in
   * opposite directions.
   */
  lemma TopQuadGeometry(x: int, y: int, hm: seq<seq<real>>)
    requires HasCell(hm, x, y) && HasCell(hm, x + 1, y) && HasCell(hm, x, y + 1) && HasCell(hm, x + 1, y + 1)
    ensures var q := TopQuad(x, y, hm);
      q.a.normal == WallNormal && q.b.normal == WallNormal &&
      Orientation(q.a).z == 1.0 && Orientation(q.b).z == 1.0 &&
      Vertices(q) == {Terrain(hm, x, y), Terrain(hm, x + 1, y), Terrain(hm, x, y + 1), Terrain(hm, x + 1, y + 1)} &&
      Edges(q.a)[2] == Rev(Edges(q.b)[2]) == Edge(Terrain(hm, x + 1, y + 1), Terrain(hm, x, y))
  {
  }

  /**
   * The bottom quad: stored normals (0,0,-1); all vertices at elevation z;
   * both triangles clockwise seen from above, so the winding normal is
   * exactly (0,0,-1) in grid units; the diagonal is shared in opposite
   * directions.
   */
  lemma BottomQuadGeometry(x: int, y: int, z: real)
    ensures var q := BottomQuad(x, y, z);
      q.a.normal == BottomNormal && q.b.normal == BottomNormal &&
      Orientation(q.a) == Orientation(q.b) == Vec3(0.0, 0.0, -1.0) &&
      Vertices(q) == {Vertex(x, y, z), Vertex(x + 1, y, z), Vertex(x, y + 1, z), Vertex(x + 1, y + 1, z)} &&
      Edges(q.a)[0] == Rev(Edges(q.b)[2]) == Edge(Vertex(x, y, z), Vertex(x + 1, y + 1, z))
  {
  }

  /**
   * The north wall lies in the plane of row y, has its bottom corners on
   * z = 0 and its top corners at heightmap[y][x] and heightmap[y][x+1]; its
   * winding normal points to -y with the corner heights as lengths.
   */
  lemma NorthQuadGeometry(x: int, y: int, hm: seq<seq<real>>)
    requires HasCell(hm, x, y) && HasCell(hm, x + 1, y)
    ensures var q := NorthQuad(x, y, hm);
      q.a.normal == WallNormal && q.b.normal == WallNormal &&
      Orientation(q.a) == Vec3(0.0, -hm[y][x], 0.0) &&
      Orientation(q.b) == Vec3(0.0, -hm[y][x + 1], 0.0) &&
      Vertices(q) == {Foot(x, y), Foot(x + 1, y), Terrain(hm, x, y), Terrain(hm, x + 1, y)} &&
      Edges(q.a)[0] == Rev(Edges(q.b)[2])
  {
  }

  /** The south wall is the north wall with vertices 2 and 3 of each triangle exchanged: it faces +y. */
  lemma SouthMirrorsNorth(x: int, y: int, hm: seq<seq<real>>)
    requires HasCell(hm, x, y) && HasCell(hm, x + 1, y)
    ensures var q := SouthQuad(x, y, hm);
      q == MirrorQuad(NorthQuad(x, y, hm)) &&
      Vertices(q) == Vertices(NorthQuad(x, y, hm)) &&
      Orientation(q.a) == Vec3(0.0, hm[y][x], 0.0) &&
      Orientation(q.b) == Vec3(0.0, hm[y][x + 1], 0.0)
  {
    MirrorReversesOrientation(NorthQuad(x, y, hm).a);
    MirrorReversesOrientation(NorthQuad(x, y, hm).b);
  }

  /**
   * The east wall lies in the plane of column x, has its bottom corners on
   * z = 0 and its top corners at heightmap[y][x] and heightmap[y+1][x]; its
   * winding normal points to -x with the corner heights as lengths.
   */
  lemma EastQuadGeometry(x: int, y: int, hm: seq<seq<real>>)
    requires HasCell(hm, x, y) && HasCell(hm, x, y + 1)
    ensures var q := EastQuad(x, y, hm);
      q.a.normal == WallNormal && q.b.normal == WallNormal &&
      Orientation(q.a) == Vec3(-hm[y][x], 0.0, 0.0) &&
      Orientation(q.b) == Vec3(-hm[y + 1][x], 0.0, 0.0) &&
      Vertices(q) == {Foot(x, y), Foot(x, y + 1), Terrain(hm, x, y), Terrain(hm, x, y + 1)} &&
      Edges(q.a)[2] == Rev(Edges(q.b)[0])
  {
  }

  /** The west wall is the east wall with vertices 2 and 3 of each triangle exchanged: it faces +x. */
  lemma WestMirrorsEast(x: int, y: int, hm: seq<seq<real>>)
    requires HasCell(hm, x, y) && HasCell(hm, x, y + 1)
    ensures var q := WestQuad(x, y, hm);
      q == MirrorQuad(EastQuad(x, y, hm)) &&
      Vertices(q) == Vertices(EastQuad(x, y, hm)) &&
      Orientation(q.a) == Vec3(hm[y][x], 0.0, 0.0) &&
      Orientation(q.b) == Vec3(hm[y + 1][x], 0.0, 0.0)
  {
    MirrorReversesOrientation(EastQuad(x, y, hm).a);
    MirrorReversesOrientation(EastQuad(x, y, hm).b);
  }

  /**
   * Where the terrain meets the walls: each boundary edge of the top quad of
   * cell (x, y) is traversed in the opposite direction by the wall placed on
   * that side (north on row y, south on row y+1, east on column x, west on
   * column x+1).
   */
  lemma TopMeetsWalls(x: int, y: int, hm: seq<seq<real>>)
    requires HasCell(hm, x, y) && HasCell(hm, x + 1, y) && HasCell(hm, x, y + 1) && HasCell(hm, x + 1, y + 1)
    ensures Edges(NorthQuad(x, y, hm).a)[1] == Rev(Edges(TopQuad(x, y, hm).a)[0])
    ensures Edges(SouthQuad(x, y + 1, hm).a)[1] == Rev(Edges(TopQuad(x, y, hm).b)[0])
    ensures Edges(EastQuad(x, y, hm).a)[1] == Rev(Edges(TopQuad(x, y, hm).b)[1])
    ensures Edges(WestQuad(x + 1, y, hm).a)[1] == Rev(Edges(TopQuad(x, y, hm).a)[1])
  {
  }

  /** The same for the bottom quad on z = 0 and the base edges of the four walls. */
  lemma BottomMeetsWalls(x: int, y: int, hm: seq<seq<real>>)
    requires HasCell(hm, x, y) && HasCell(hm, x + 1, y) && HasCell(hm, x, y + 1) && HasCell(hm, x + 1, y + 1)
    ensures Edges(NorthQuad(x, y, hm).b)[0] == Rev(Edges(BottomQuad(x, y, 0.0).a)[2])
    ensures Edges(SouthQuad(x, y + 1, hm).b)[2] == Rev(Edges(BottomQuad(x, y, 0.0).b)[1])
    ensures Edges(EastQuad(x, y, hm).b)[2] == Rev(Edges(BottomQuad(x, y, 0.0).b)[0])
    ensures Edges(WestQuad(x + 1, y, hm).b)[0] == Rev(Edges(BottomQuad(x, y, 0.0).a)[1])
  {
  }

  /**
   * East-west neighbours: the top quads of cells (x, y) and (x+1, y) run along
   * their common edge x+1 in opposite directions, and so do their bottom quads.
   */
  lemma NeighboursMeetEastWest(x: int, y: int, hm: seq<seq<real>>)
    requires 0 <= x && 0 <= y && y + 1 < |hm|
    requires x + 2 < |hm[y]| && x + 2 < |hm[y + 1]|
    ensures Edges(TopQuad(x + 1, y, hm).b)[1] == Rev(Edges(TopQuad(x, y, hm).a)[1])
    ensures Edges(BottomQuad(x + 1, y, 0.0).b)[0] == Rev(Edges(BottomQuad(x, y, 0.0).a)[1])
  {
  }

  /**
   * North-south neighbours: the top quads of cells (x, y) and (x, y+1) run
   * along their common edge y+1 in opposite directions, and so do their
   * bottom quads.
   */
  lemma NeighboursMeetNorthSouth(x: int, y: int, hm: seq<seq<real>>)
    requires 0 <= x && 0 <= y && y + 2 < |hm|
    requires x + 1 < |hm[y]| && x + 1 < |hm[y + 1]| && x + 1 < |hm[y + 2]|
    ensures Edges(TopQuad(x, y + 1, hm).a)[0] == Rev(Edges(TopQuad(x, y, hm).b)[0])
    ensures Edges(BottomQuad(x, y + 1, 0.0).a)[2] == Rev(Edges(BottomQuad(x, y, 0.0).b)[1])
  {
  }

  /**
   * Neighbouring walls along a row: the north walls of columns x and x+1 run
   * along their common vertical edge at x+1 in opposite directions, and so do
   * the south walls.
   */
  lemma WallsMeetAlongRow(x: int, y: int, hm: seq<seq<real>>)
    requires HasCell(hm, x, y) && HasCell(hm, x + 1, y) && HasCell(hm, x + 2, y)
    ensures Edges(NorthQuad(x + 1, y, hm).a)[2] == Rev(Edges(NorthQuad(x, y, hm).b)[1])
    ensures Edges(SouthQuad(x + 1, y, hm).a)[0] == Rev(Edges(SouthQuad(x, y, hm).b)[1])
  {
  }

  /**
   * Neighbouring walls along a column: the east walls of rows y and y+1 run
   * along their common vertical edge at y+1 in opposite directions, and so do
   * the west walls.
   */
  lemma WallsMeetAlongColumn(x: int, y: int, hm: seq<seq<real>>)
    requires HasCell(hm, x, y) && HasCell(hm, x, y + 1) && HasCell(hm, x, y + 2)
    ensures Edges(EastQuad(x, y + 1, hm).a)[0] == Rev(Edges(EastQuad(x, y, hm).b)[1])
    ensures Edges(WestQuad(x, y + 1, hm).a)[2] == Rev(Edges(WestQuad(x, y, hm).b)[1])
  {
  }

  /**
   * The four vertical corner edges of a grid with last column w and last row
   * Y, with the walls where the row loop places them (north on row 0, south
   * on row Y, east on column 0, west on column w): at (0, 0) north meets
   * east, at (w, 0) north meets west, at (0, Y) south meets east and at
   * (w, Y) south meets west, each pair in opposite directions.
   */
  lemma CornersMeet(w: int, Y: int, hm: seq<seq<real>>)
    requires w >= 1 && Y >= 1
    requires HasCell(hm, 0, 0) && HasCell(hm, 1, 0) && HasCell(hm, 0, 1)
    requires HasCell(hm, w - 1, 0) && HasCell(hm, w, 0) && HasCell(hm, w, 1)
    requires HasCell(hm, 0, Y) && HasCell(hm, 1, Y) && HasCell(hm, 0, Y - 1)
    requires HasCell(hm, w - 1, Y) && HasCell(hm, w, Y) && HasCell(hm, w, Y - 1)
    ensures Edges(NorthQuad(0, 0, hm).a)[2] == Rev(Edges(EastQuad(0, 0, hm).a)[0])
    ensures Edges(WestQuad(w, 0, hm).a)[2] == Rev(Edges(NorthQuad(w - 1, 0, hm).b)[1])
    ensures Edges(SouthQuad(0, Y, hm).a)[0] == Rev(Edges(EastQuad(0, Y - 1, hm).b)[1])
    ensures Edges(SouthQuad(w - 1, Y, hm).b)[1] == Rev(Edges(WestQuad(w, Y - 1, hm).b)[1])
  {
  }

  /**
   * writeTopFacet reads only rows y..y+1 and columns x..x+1: two heightmaps
   * that agree there give the same quad.
   */
  lemma TopQuadReadsOnlyItsCell(x: int, y: int, hm: seq<seq<real>>, hm': seq<seq<real>>)
    requires HasCell(hm, x, y) && HasCell(hm, x + 1, y) && HasCell(hm, x, y + 1) && HasCell(hm, x + 1, y + 1)
    requires HasCell(hm', x, y) && HasCell(hm', x + 1, y) && HasCell(hm', x, y + 1) && HasCell(hm', x + 1, y + 1)
    requires hm[y][x] == hm'[y][x] && hm[y][x + 1] == hm'[y][x + 1]
    requires hm[y + 1][x] == hm'[y + 1][x] && hm[y + 1][x + 1] == hm'[y + 1][x + 1]
    ensures TopQuad(x, y, hm) == TopQuad(x, y, hm')
  {
  }

  /** The east and west walls read only rows y..y+1 of column x. */
  lemma EastQuadReadsOnlyItsColumn(x: int, y: int, hm: seq<seq<real>>, hm': seq<seq<real>>)
    requires HasCell(hm, x, y) && HasCell(hm, x, y + 1) && HasCell(hm', x, y) && HasCell(hm', x, y + 1)
    requires hm[y][x] == hm'[y][x] && hm[y + 1][x] == hm'[y + 1][x]
    ensures EastQuad(x, y, hm) == EastQuad(x, y, hm') && WestQuad(x, y, hm) == WestQuad(x, y, hm')
  {
  }

  // ---------------------------------------------------------------------------
  // Positions in output units
  // ---------------------------------------------------------------------------

  /** Where pack('3f', x*hs, y*hs, z) puts a vertex. */
  function Position(v: Vertex, hs: real): Vec3 {
    Vec3(v.gx as real * hs, v.gy as real * hs, v.z)
  }

  function PositionOrientation(f: Facet, hs: real): Vec3 {
    var p1, p2, p3 := Position(f.v1, hs), Position(f.v2, hs), Position(f.v3, hs);
    Cross(Vec3(p2.x - p1.x, p2.y - p1.y, p2.z - p1.z), Vec3(p3.x - p1.x, p3.y - p1.y, p3.z - p1.z))
  }

  /**
   * Scaling both horizontal axes by hs scales the x and y parts of the
   * winding normal by hs and its z part by hs*hs, so for hs > 0 every sign
   * proved in grid units holds in output units.
   */
  lemma ScaledOrientation(f: Facet, hs: real)
    ensures PositionOrientation(f, hs) ==
      Vec3(hs * Orientation(f).x, hs * Orientation(f).y, hs * hs * Orientation(f).z)
  {
    var a, b := Sub(f.v2, f.v1), Sub(f.v3, f.v1);
    var p1, p2, p3 := Position(f.v1, hs), Position(f.v2, hs), Position(f.v3, hs);
    ScaledSub(f.v2, f.v1, hs);
    ScaledSub(f.v3, f.v1, hs);
    assert Vec3(p2.x - p1.x, p2.y - p1.y, p2.z - p1.z) == Vec3(hs * a.x, hs * a.y, a.z);
    assert Vec3(p3.x - p1.x, p3.y - p1.y, p3.z - p1.z) == Vec3(hs * b.x, hs * b.y, b.z);
    CrossOfScaled(hs, a, b);
  }

  lemma ScaledSub(p: Vertex, q: Vertex, hs: real)
    ensures Position(p, hs).x - Position(q, hs).x == hs * Sub(p, q).x
    ensures Position(p, hs).y - Position(q, hs).y == hs * Sub(p, q).y
    ensures Position(p, hs).z - Position(q, hs).z == Sub(p, q).z
  {
    assert p.gx as real * hs - q.gx as real * hs == (p.gx - q.gx) as real * hs;
    assert p.gy as real * hs - q.gy as real * hs == (p.gy - q.gy) as real * hs;
  }

  /** Scaling the horizontal parts of both arguments of a cross product by k. */
  lemma CrossOfScaled(k: real, a: Vec3, b: Vec3)
    ensures Cross(Vec3(k * a.x, k * a.y, a.z), Vec3(k * b.x, k * b.y, b.z))
         == Vec3(k * Cross(a, b).x, k * Cross(a, b).y, k * k * Cross(a, b).z)
  {
    var l := Cross(Vec3(k * a.x, k * a.y, a.z), Vec3(k * b.x, k * b.y, b.z));
    var c := Cross(a, b);
    calc {
      l.x;
      (k * a.y) * b.z - a.z * (k * b.y);
      { ScaledOnce(k, a.y, b.z, b.y, a.z); }
      k * (a.y * b.z - a.z * b.y);
      k * c.x;
    }
    calc {
      l.y;
      a.z * (k * b.x) - (k * a.x) * b.z;
      { ScaledOnce(k, b.x, a.z, a.x, b.z); }
      k * (a.z * b.x - a.x * b.z);
      k * c.y;
    }
    calc {
      l.z;
      (k * a.x) * (k * b.y) - (k * a.y) * (k * b.x);
      { ScaledDifference(k, a.x, b.y, a.y, b.x); }
      k * k * (a.x * b.y - a.y * b.x);
      k * k * c.z;
    }
  }

  lemma ScaledOnce(k: real, p: real, q: real, r: real, s: real)
    ensures (k * p) * q - s * (k * r) == k * (p * q - s * r)
    ensures q * (k * p) - (k * r) * s == k * (q * p - r * s)
  {
  }

  lemma ScaledDifference(k: real, p: real, q: real, r: real, s: real)
    ensures (k * p) * (k * q) - (k * r) * (k * s) == k * k * (p * q - r * s)
  {
  }

  // ---------------------------------------------------------------------------
  // Binary records
  // ---------------------------------------------------------------------------

  const RecordSize: nat := 50

  function Triple(enc: Float32Encoder, x: real, y: real, z: real): (r: seq<byte>)
    ensures |r| == 12
  {
    enc(x) + enc(y) + enc(z)
  }

  function NormalBytes(enc: Float32Encoder, n: Normal): seq<byte> {
    Triple(enc, n.nx as real, n.ny as real, n.nz as real)
  }

  function VertexBytes(enc: Float32Encoder, hs: real, v: Vertex): seq<byte> {
    var p := Position(v, hs);
    Triple(enc, p.x, p.y, p.z)
  }

  /** One 50-byte record: normal, three vertices, then the zero attribute count pack('h', 0). */
  function FacetBytes(enc: Float32Encoder, hs: real, f: Facet): (r: seq<byte>)
    ensures |r| == RecordSize
  {
    NormalBytes(enc, f.normal) + VertexBytes(enc, hs, f.v1) + VertexBytes(enc, hs, f.v2)
    + VertexBytes(enc, hs, f.v3) + [0, 0]
  }

  /**
   * The record layout: bytes 0-11 the normal, 12-47 the three vertices
   * (each x*hs, y*hs, z as three 4-byte floats), 48-49 the zero trailer.
   */
  lemma FacetBytesLayout(enc: Float32Encoder, hs: real, f: Facet)
    ensures FacetBytes(enc, hs, f)[..12] == NormalBytes(enc, f.normal)
    ensures FacetBytes(enc, hs, f)[12..24] == VertexBytes(enc, hs, f.v1)
    ensures FacetBytes(enc, hs, f)[24..36] == VertexBytes(enc, hs, f.v2)
    ensures FacetBytes(enc, hs, f)[36..48] == VertexBytes(enc, hs, f.v3)
    ensures FacetBytes(enc, hs, f)[48..] == [0, 0]
    ensures VertexBytes(enc, hs, f.v1)[..4] == enc(f.v1.gx as real * hs)
    ensures VertexBytes(enc, hs, f.v1)[4..8] == enc(f.v1.gy as real * hs)
    ensures VertexBytes(enc, hs, f.v1)[8..] == enc(f.v1.z)
  {
    var n, p, q, s := NormalBytes(enc, f.normal), VertexBytes(enc, hs, f.v1), VertexBytes(enc, hs, f.v2), VertexBytes(enc, hs, f.v3);
    var r := FacetBytes(enc, hs, f);
    assert r == n + p + q + s + [0, 0];
    assert r[12..24] == p;
    assert r[24..36] == q;
    assert r[36..48] == s;
    var e1: seq<byte>, e2: seq<byte>, e3: seq<byte> := enc(f.v1.gx as real * hs), enc(f.v1.gy as real * hs), enc(f.v1.z);
    assert Position(f.v1, hs) == Vec3(f.v1.gx as real * hs, f.v1.gy as real * hs, f.v1.z);
    assert p == Triple(enc, f.v1.gx as real * hs, f.v1.gy as real * hs, f.v1.z);
    assert p == e1 + e2 + e3;
    assert p[4..8] == e2;
  }

  /** Records written back to back, with no padding between them. */
  function FacetsBytes(enc: Float32Encoder, hs: real, fs: seq<Facet>): (r: seq<byte>)
    ensures |r| == RecordSize * |fs|
  {
    if fs == [] then [] else FacetBytes(enc, hs, fs[0]) + FacetsBytes(enc, hs, fs[1..])
  }

  lemma {:induction false} FacetsBytesAppend(enc: Float32Encoder, hs: real, fs: seq<Facet>, gs: seq<Facet>)
    ensures FacetsBytes(enc, hs, fs + gs) == FacetsBytes(enc, hs, fs) + FacetsBytes(enc, hs, gs)
  {
    if fs == [] {
      assert fs + gs == gs;
    } else {
      assert (fs + gs)[0] == fs[0];
      assert (fs + gs)[1..] == fs[1..] + gs;
      FacetsBytesAppend(enc, hs, fs[1..], gs);
    }
  }

  /** Record i occupies bytes 50*i .. 50*i+50. */
  lemma {:induction false} FacetsBytesAt(enc: Float32Encoder, hs: real, fs: seq<Facet>, i: nat)
    requires i < |fs|
    ensures FacetsBytes(enc, hs, fs)[RecordSize * i..RecordSize * i + RecordSize] == FacetBytes(enc, hs, fs[i])
  {
    var h, t := FacetBytes(enc, hs, fs[0]), FacetsBytes(enc, hs, fs[1..]);
    assert FacetsBytes(enc, hs, fs) == h + t;
    if i > 0 {
      var k := RecordSize * (i - 1);
      FacetsBytesAt(enc, hs, fs[1..], i - 1);
      assert fs[1..][i - 1] == fs[i];
      SliceAfterHead(h, t, k, k + RecordSize);
    } else {
      assert (h + t)[..RecordSize] == h;
    }
  }

  /** A slice of the tail of a concatenation, seen from the whole. */
  lemma SliceAfterHead<T>(h: seq<T>, t: seq<T>, lo: nat, hi: nat)
    requires lo <= hi <= |t|
    ensures (h + t)[|h| + lo..|h| + hi] == t[lo..hi]
  {
  }

  /** The two triangles of each quad, in order. */
  function QuadFacets(qs: seq<Quad>): (fs: seq<Facet>)
    ensures |fs| == 2 * |qs|
    ensures forall i :: 0 <= i < |qs| ==> fs[2 * i] == qs[i].a && fs[2 * i + 1] == qs[i].b
  {
    if qs == [] then [] else QuadFacets(qs[..|qs| - 1]) + [qs[|qs| - 1].a, qs[|qs| - 1].b]
  }

  lemma {:induction false} QuadFacetsAppend(ps: seq<Quad>, qs: seq<Quad>)
    ensures QuadFacets(ps + qs) == QuadFacets(ps) + QuadFacets(qs)
  {
    var l, r := QuadFacets(ps + qs), QuadFacets(ps) + QuadFacets(qs);
    assert |l| == |r|;
    forall k | 0 <= k < |l| ensures l[k] == r[k] {
      var i := k / 2;
      assert k == 2 * i || k == 2 * i + 1;
      if i < |ps| {
        assert (ps + qs)[i] == ps[i];
      } else {
        assert (ps + qs)[i] == qs[i - |ps|];
        assert k - 2 * |ps| == 2 * (i - |ps|) || k - 2 * |ps| == 2 * (i - |ps|) + 1;
      }
    }
  }

  /** What the writer functions return for a run of quads: two records per quad. */
  function QuadsBytes(enc: Float32Encoder, hs: real, qs: seq<Quad>): (r: seq<byte>)
    ensures |r| == 2 * RecordSize * |qs|
  {
    FacetsBytes(enc, hs, QuadFacets(qs))
  }

  lemma QuadsBytesAppend(enc: Float32Encoder, hs: real, ps: seq<Quad>, qs: seq<Quad>)
    ensures QuadsBytes(enc, hs, ps + qs) == QuadsBytes(enc, hs, ps) + QuadsBytes(enc, hs, qs)
  {
    QuadFacetsAppend(ps, qs);
    FacetsBytesAppend(enc, hs, QuadFacets(ps), QuadFacets(qs));
  }

  /** One writer call: 100 bytes, triangle A's record then triangle B's. */
  lemma QuadBytesLayout(enc: Float32Encoder, hs: real, q: Quad)
    ensures QuadsBytes(enc, hs, [q]) == FacetBytes(enc, hs, q.a) + FacetBytes(enc, hs, q.b)
  {
    var fs := QuadFacets([q]);
    assert fs == [q.a, q.b];
    assert fs[1..] == [q.b];
    assert fs[1..][1..] == [];
    assert FacetsBytes(enc, hs, [q.b]) == FacetBytes(enc, hs, q.b) + FacetsBytes(enc, hs, []);
    assert FacetsBytes(enc, hs, fs) == FacetBytes(enc, hs, q.a) + FacetsBytes(enc, hs, [q.b]);
  }
}
