# mini-map-maker: heightmap to binary STL, in Dafny

This project models the mesh generator of mini-map-maker. The generator takes one or more elevation grids and writes a solid, meant to be closed, as a binary STL file. It works in five steps:

- It normalises the elevations: subtract the minimum, scale by `vsize/750`, add `base`.
- It joins the pieces with separator strips that carry tabs, and optionally frames the result with anchor pads.
- It writes an 80-byte header and a signed 32-bit little-endian facet count.
- Row by row, it writes the quads of the terrain, the base and the four outer walls, as 50-byte triangle records.
- The `.asc` front end flips the loaded grid vertically, deletes the columns and then the rows that hold only the no-data value -9999, derives the destination name, and calls the generator with strips, tabs and anchors switched off.

Whether the surface is closed is stated one pair of quads at a time. For every pair of adjacent quads the row loop emits, the edge lemmas of `WriteFacets` show that the shared edge is traversed in opposite directions. That covers the diagonals, top with top, bottom with bottom, terrain and base with the walls, wall with wall, and the four corners. `StlGenerator.TwoRowsAsWrittenMissSouthWalls` shows that, as written, a two-row grid gets no south wall.

Modules:

- `StlBytes` (stl_bytes.dfy) covers the byte-level pieces:
  - the `'<i'` count and its decoder;
  - UTF-8 encoding;
  - the `'80s'` header;
  - an abstract four-byte float encoder.
- `WriteFacets` (write_facets.dfy) holds the six quad constructors of `writefacets.py`, their geometry and the record layout.
- `GridAssembly` (grid_assembly.dfy) covers:
  - the minimum and maximum reductions and normalisation;
  - the horizontal scale and the separator row (an in-place array method);
  - interleaving (a loop method) and the anchor pads.
- `StlGenerator` (stl_generator.dfy) holds `CalculateRow` (a loop method), the sequential and pooled body loops, and the facet counts.
- `HeightmapToStl` (generate.dfy) holds `generate_from_heightmap_array` in two forms:
  - `GenerateFromHeightmapArray`, a method that does the steps in the source's order;
  - `FileSpec`, a function that says what ends up in the destination.
- `AscParse` (asc_parse.dfy) holds `gen_stl_from_asc`, its cleanup and the destination name.

How the model represents the program:

- Results of the generator:
  - the destination file is returned as `Written(bytes)`;
  - an exception becomes `Failed(error, left)`. `left` is `None` when the file was never opened. It is `Some(header)` when `pack('<i', …)` raises after the header was written.
- Grids are `seq<seq<real>>` with an explicit width `w`. Elevations are reals.
- Float32 encoding is a parameter `enc: real -> Bytes4`. So every byte layout is proved for every encoder.
- Heights are not rounded, because elevations are reals.
- The source's `CalculateRow` uses `if y == 0 … elif y == height-1`. The model has a parameter `Variant`:
  - `AsWritten` follows the source.
  - `Corrected` uses two independent tests, and refuses an assembled grid of fewer than two rows.

The source's own comments (stltools/stlgenerator.py:32-34 and 88-91) follow the usual description of binary STL: an 80-character header that should never begin with "solid", then an unsigned 32-bit little-endian facet count. Where the code does something else, the model follows the code:

- The count is packed with `'<i'`, which is signed, not unsigned. A count above 2^31 - 1 raises instead of being written (`HeightmapToStl.FileSpec`).
- The name limit counts characters (`len(objectname)`), not bytes. So the `'80s'` pack may silently truncate a longer UTF-8 encoding (`StlBytes.Header80`).
- Nothing checks that the name does not begin with "solid".
- Nothing checks the size of the assembled grid. An assembled grid of one row is written with a header count of `4*(w-1)` and no records (`HeightmapToStl.OneRowGrid`). This happens for a one-row `.asc` grid after cleanup, or for a one-row piece with `anchorsize <= 0`. With the default arguments, the anchor pads and strips turn a one-row piece into five rows.
- `gen_stl_from_asc` removes the no-data rows and columns before calling the generator. That cleanup is modelled in `AscParse`.

## Model

| member | source | states |
|---|---|---|
| StlBytes.Int32LE | stltools/stlgenerator.py:92 | pack('<i', n) is four bytes of two's complement, least significant first; the top byte's high bit is the sign |
| StlBytes.Int32LERoundTrip | stltools/stlgenerator.py:92 | decoding the four bytes as unpack('<i') gives n back, for every n in the int32 range |
| StlBytes.Int32LEInjective | stltools/stlgenerator.py:92 | distinct counts give distinct count fields |
| StlBytes.Utf8Char | stltools/stlgenerator.py:87 | one character encodes to 1-4 bytes; 1 byte exactly for code points below 0x80; continuation bytes are 10xxxxxx |
| StlBytes.Utf8CharRoundTrip | stltools/stlgenerator.py:87 | the encoded bytes decode to the character's code point |
| StlBytes.Utf8Ascii | stltools/stlgenerator.py:87 | an ASCII name encodes to its own code points, one byte each |
| StlBytes.Header80 | stltools/stlgenerator.py:87 | the header is exactly 80 bytes: the encoded name cut to 80 bytes, then zero bytes |
| StlBytes.AsciiHeader | stltools/stlgenerator.py:35-87 | an ASCII name of at most 80 characters is spelled out in the header, and every other header byte is zero |
| WriteFacets.TopQuadGeometry | stltools/writefacets.py:17-40 | TopQuad (writeTopFacet): normals (0,-1,0); both triangles counter-clockwise from above (twice the projected area is +1 cell); exactly the four cell corners at heightmap elevations; the diagonal (x,y)-(x+1,y+1) traversed in opposite directions |
| WriteFacets.BottomQuadGeometry | stltools/writefacets.py:42-65 | BottomQuad (writeBottomFacet): normals (0,0,-1); every vertex at z; both triangles clockwise from above (winding normal exactly (0,0,-1)); the diagonal shared in opposite directions |
| WriteFacets.NorthQuadGeometry | stltools/writefacets.py:67-90 | NorthQuad (writeNorthFacet): normals (0,-1,0); lies in row y with base corners at z=0 and top corners heightmap[y][x], heightmap[y][x+1]; winding normals (0, -heightmap[y][x], 0) and (0, -heightmap[y][x+1], 0), pointing to -y over positive elevations |
| WriteFacets.SouthMirrorsNorth | stltools/writefacets.py:67-115 | SouthQuad (writeSouthFacet), the south wall, is the north wall with vertices 2 and 3 of each triangle exchanged; same vertices; winding normals negated, pointing to +y over positive elevations |
| WriteFacets.EastQuadGeometry | stltools/writefacets.py:117-140 | EastQuad (writeEastFacet): normals (0,-1,0); lies in column x with base corners at z=0 and top corners heightmap[y][x], heightmap[y+1][x]; winding normals (-heightmap[y][x], 0, 0) and (-heightmap[y+1][x], 0, 0), pointing to -x over positive elevations |
| WriteFacets.WestMirrorsEast | stltools/writefacets.py:117-165 | WestQuad (writeWestFacet), the west wall, is the east wall with vertices 2 and 3 exchanged; same vertices; winding normals negated, pointing to +x over positive elevations |
| WriteFacets.MirrorReversesOrientation | stltools/writefacets.py:92-115 | exchanging vertices 2 and 3 negates the winding normal |
| WriteFacets.MirrorReversesEdges | stltools/writefacets.py:92-115 | an edge is in a facet exactly when its reverse is in the facet with vertices 2 and 3 exchanged |
| WriteFacets.TopMeetsWalls | stltools/writefacets.py:17-165 | each boundary edge of a top quad is traversed in reverse by the north, south, east or west wall placed on that side |
| WriteFacets.BottomMeetsWalls | stltools/writefacets.py:42-165 | each boundary edge of a bottom quad on z=0 is traversed in reverse by the base edge of the wall on that side |
| WriteFacets.NeighboursMeetEastWest | stltools/writefacets.py:17-65 | for cells (x, y) and (x+1, y) of any grid of at least two rows and three columns, the top quads, and the bottom quads, run along their common edge in opposite directions |
| WriteFacets.NeighboursMeetNorthSouth | stltools/writefacets.py:17-65 | for cells (x, y) and (x, y+1) of any grid of at least three rows and two columns, the top quads, and the bottom quads, run along their common edge in opposite directions |
| WriteFacets.WallsMeetAlongRow | stltools/writefacets.py:67-115 | the north walls of columns x and x+1 run along their common vertical edge in opposite directions, and so do the south walls |
| WriteFacets.WallsMeetAlongColumn | stltools/writefacets.py:117-165 | the east walls of rows y and y+1 run along their common vertical edge in opposite directions, and so do the west walls |
| WriteFacets.CornersMeet | stltools/writefacets.py:67-165 | at the four corners of the grid, north/east, north/west, south/east and south/west walls run along the vertical corner edge in opposite directions |
| WriteFacets.TopQuadReadsOnlyItsCell | stltools/writefacets.py:22-36 | writeTopFacet reads only rows y..y+1 and columns x..x+1 |
| WriteFacets.EastQuadReadsOnlyItsColumn | stltools/writefacets.py:117-165 | the east and west walls read only rows y..y+1 of column x |
| WriteFacets.ScaledOrientation | stltools/writefacets.py:22-26 | positions x*hs, y*hs scale the winding normal to (hs*nx, hs*ny, hs²*nz), so every sign proved in grid units holds for hs > 0 |
| WriteFacets.FacetBytes | stltools/writefacets.py:9-28 | a record is exactly 50 bytes |
| WriteFacets.FacetBytesLayout | stltools/writefacets.py:9-28 | bytes 0-11 are the normal, 12-47 the three vertices (x*hs, y*hs, z each), 48-49 the zero trailer from pack('h', 0) |
| WriteFacets.FacetsBytesAt | stltools/writefacets.py:17-40 | record i of a run of records occupies bytes 50i..50i+50 |
| WriteFacets.FacetsBytesAppend | stltools/writefacets.py:17-40 | the bytes of two runs of facets are the concatenation of their bytes |
| WriteFacets.QuadFacets | stltools/writefacets.py:17-40 | each quad gives two facets, A at position 2i and B at 2i+1 |
| WriteFacets.QuadBytesLayout | stltools/writefacets.py:17-40 | one writer call is 100 bytes: A's record, then B's |
| WriteFacets.QuadsBytesAppend | stltools/stlgenerator.py:18-26 | appending writer outputs equals the bytes of the concatenated quads |
| GridAssembly.Min | stltools/stlgenerator.py:42 | the minimum is a cell and no cell is smaller |
| GridAssembly.Max | stltools/stlgenerator.py:43 | the maximum is a cell and no cell is larger |
| GridAssembly.AllCells | stltools/stlgenerator.py:42-43 | the reduced values are exactly the cells of all grids |
| GridAssembly.Offset | stltools/stlgenerator.py:42 | `hmin or min(...)`: a truthy override is used; otherwise the data minimum of all grids |
| GridAssembly.Ceiling | stltools/stlgenerator.py:43 | `hmax or max(...)`: a truthy override, otherwise the data maximum |
| GridAssembly.FalsyOffsetFallsBack | stltools/stlgenerator.py:42 | an override of None or 0 falls back to the data minimum, which bounds every cell from below |
| GridAssembly.NormaliseCells | stltools/stlgenerator.py:44-47 | normalisation (Normalise) keeps every grid's shape and maps each cell to (v - hmin) * (vsize/750) + base |
| GridAssembly.NormalisedMinimum | stltools/stlgenerator.py:42-47 | with the default hmin and vsize >= 0 the smallest normalised cell is exactly base |
| GridAssembly.Ceil | stltools/stlgenerator.py:49 | math.ceil: the least integer not below r |
| GridAssembly.HScaleSpansSide | stltools/stlgenerator.py:48 | h_scale times the smaller side of the first grid is hsize |
| GridAssembly.PyBound | stltools/stlgenerator.py:51-52 | a Python slice bound lands inside 0..n |
| GridAssembly.TabColumns | stltools/stlgenerator.py:51-52 | with t > 0 the tab columns are the first and last t; with t = 0 every column (the `-0:` slice); with t < 0 all but the last -t, and from -t on |
| GridAssembly.BuildSeparatorRow | stltools/stlgenerator.py:50-52 | the array filled with sep_dep and then sliced with tab_dep is the strip row SeparatorRow: tab_dep on tab columns and sep_dep elsewhere |
| GridAssembly.Repeat | stltools/stlgenerator.py:53 | np.repeat gives n rows, each the strip row |
| GridAssembly.InterleaveGrids | stltools/stlgenerator.py:54-57 | the loop that builds heightmap_new and concatenates it gives the first grid, then strip and grid for each further grid |
| GridAssembly.InterleavedLayout | stltools/stlgenerator.py:54-57 | the block (Interleaved) has n*h + (n-1)*s rows of width w; grid k occupies rows k*(h+s)..k*(h+s)+h, followed by the strip unless it is last |
| GridAssembly.BlockStartClosed | stltools/stlgenerator.py:54-57 | grid k starts k*(h+s) rows in |
| GridAssembly.AnchoredLayout | stltools/stlgenerator.py:59-61 | anchoring (Anchored) adds 2a + 2s rows of width w: pad, strip, block, strip, pad, where every pad cell is the largest cell of the block |
| StlGenerator.CalculateRow | stltools/stlgenerator.py:14-27 | the bytes the loop appends are the bytes of the function RowQuads: east wall, west wall, then per column its walls, bottom and top |
| StlGenerator.ColumnWalls | stltools/stlgenerator.py:21-24 | the if/elif emits exactly the walls WallQuads names for the column |
| StlGenerator.RowOrder | stltools/stlgenerator.py:18-26 | row y starts with the east quad at column 0 and the west quad at column w; column x occupies slot 2+k*x..2+k*x+k and ends with its bottom and top quads |
| StlGenerator.RowCellsAt | stltools/stlgenerator.py:20-26 | the quads of column x are at positions k*x..k*x+k of the column loop's output |
| StlGenerator.WallsOfRow | stltools/stlgenerator.py:21-24 | as written (WallQuads, AsWritten) a column gets at most one wall: the north wall exactly on row 0, the south wall exactly on a last row that is not row 0; the corrected variant adds the south wall when row 0 is also the last row, and otherwise emits the same walls |
| StlGenerator.SequentialRows | stltools/stlgenerator.py:78-84 | the sequential loop yields the records of all rows, 0 to h-1 in order |
| StlGenerator.StarmapRows | stltools/stlgenerator.py:74-76 | the pool yields one part per row, part y being row y's bytes, and their join is the same body |
| StlGenerator.BodyQuadsCount | stltools/stlgenerator.py:14-84 | the body of h rows has 2h + w*(2h + walls) quads |
| StlGenerator.WallRowsClosed | stltools/stlgenerator.py:21-24 | the rows contribute one wall per column on row 0 plus one on the last row, except as written when the last row is row 0 |
| StlGenerator.BodyMatchesHeader | stltools/stlgenerator.py:65-92 | the number of facets equals HeaderCount, the count 4wh + 4w + 4h of lines 69-71, exactly when w = 0, h >= 2, or (corrected and h = 1) |
| StlGenerator.TwoRowsAsWrittenMissSouthWalls | stltools/stlgenerator.py:21-71 | with two grid rows, as written, the body has 2w facets fewer than the header says, and no south wall appears in it |
| StlGenerator.SmallGridCounterexamples | stltools/stlgenerator.py:21-71 | a 2x2 grid is written with 10 facets under a count of 12 (12 when corrected); a 1x2 grid with none under 4 |
| HeightmapToStl.Prepare | stltools/stlgenerator.py:42-61 | an assembled grid is non-empty and rectangular of width w; a rejection is one of the six errors the assembly can raise |
| HeightmapToStl.Assemble | stltools/stlgenerator.py:42-61 | the statement-by-statement assembly gives the assembly Prepare describes, errors included |
| HeightmapToStl.PrepareLayout | stltools/stlgenerator.py:48-61 | h_scale*min(W0,H0) = hsize; the grid has n*h + (n-1)*s + 2*lead rows; normalised piece k sits k*(h+s) rows after the lead; strip s follows each piece but the last |
| HeightmapToStl.AnchorRows | stltools/stlgenerator.py:59-61 | with anchorsize > 0 the first and last ceil(anchorsize/h_scale) rows mirror each other and stand at the highest cell of the framed block |
| HeightmapToStl.FileSpec | stltools/stlgenerator.py:35-92 | a failure leaves bytes behind exactly when the count is out of range, and then it leaves the 80-byte header |
| HeightmapToStl.Emit | stltools/stlgenerator.py:65-94 | once the grid is assembled the file is written exactly when the rows suffice (two for the corrected variant) and the count fits an int32; otherwise it fails with TooFewRows before opening, or with CountOutOfRange leaving the header |
| HeightmapToStl.WriteMesh | stltools/stlgenerator.py:65-94 | counting, meshing the rows and writing header, count and facets give the outcome Emit describes |
| HeightmapToStl.WrittenWhen | stltools/stlgenerator.py:31-94 | a file is written exactly when the name fits, the assembly succeeds, the rows suffice and the count fits an int32 |
| HeightmapToStl.WrittenFile | stltools/stlgenerator.py:35-94 | a written file comes from a name that fits and an assembled grid of w columns, and is what meshing that grid gives |
| HeightmapToStl.GenerateFromHeightmapArray | stltools/stlgenerator.py:31-94 | the checks, the assembly, the count and the body, in the source's order, give the destination FileSpec describes |
| HeightmapToStl.Body | stltools/stlgenerator.py:73-84 | the pool branch and the sequential branch give the same bytes, the records of BodyFacets |
| HeightmapToStl.NameCheckedFirst | stltools/stlgenerator.py:35-36 | a name longer than 80 characters, and only such a name, fails with NameTooLong before anything is opened |
| HeightmapToStl.EmptyReductionWhen | stltools/stlgenerator.py:42-43 | min()/max() of no values is raised exactly when some grid is empty and hmin or hmax is not truthy |
| HeightmapToStl.WrittenLayout | stltools/stlgenerator.py:65-94 | a written file is 84 + 50n bytes: the 80-byte header, the count field decoding to 4wh + 4w + 4h, then the records |
| HeightmapToStl.WrittenRecord | stltools/stlgenerator.py:94 | record i of a written file, at byte 84 + 50i, is facet i of the body |
| HeightmapToStl.CountMatchesRecords | stltools/stlgenerator.py:21-94 | the count field agrees with the records that follow exactly when the corrected rows are used, the grid has at least three rows, or it is one column wide |
| HeightmapToStl.OneRowGrid | stltools/stlgenerator.py:65-92 | an assembled grid of one row is written, as written, as a header promising 4(w-1) facets followed by nothing; the corrected variant fails with TooFewRows |
| AscParse.FlipAt | asc_parse.py:15 | after the flip (Flip), row i is row H-1-i of the loaded grid |
| AscParse.FlipTwice | asc_parse.py:15 | flipping twice gives the loaded grid back |
| AscParse.KeptColumnsExactly | asc_parse.py:18-19 | a column is kept exactly when some cell in it holds data, anywhere in the grid; kept columns keep their order |
| AscParse.KeptRowsExactly | asc_parse.py:20-21 | a row of the column-trimmed grid is kept exactly when some cell holds data; kept rows keep their order |
| AscParse.CleanupAt | asc_parse.py:18-21 | cell (k, j) of the cleaned grid (Cleanup) is the loaded cell at the k-th kept row and the j-th kept column |
| AscParse.NoEmptyRowSurvives | asc_parse.py:20-21 | no surviving row is entirely -9999 |
| AscParse.NoEmptyColumnSurvives | asc_parse.py:18-21 | no surviving column is entirely -9999 |
| AscParse.DataSurvives | asc_parse.py:18-21 | every cell that holds data survives, at its row's rank among the kept rows and its column's rank among the kept columns |
| AscParse.CleanupOfFull | asc_parse.py:18-21 | a grid with data everywhere is unchanged by the cleanup |
| AscParse.RStrip | asc_parse.py:25 | rstrip leaves a prefix whose last character is not in the set, having removed only characters of the set |
| AscParse.DestinationName | asc_parse.py:25 | the destination always ends in ".stl" |
| AscParse.DestinationStripsCharacters | asc_parse.py:25 | rstrip('.asc') strips characters, not the suffix: "basic.asc" gives "basi.stl", "grid.asc" gives "grid.stl" |
| AscParse.GenStlFromAsc | asc_parse.py:11-31 | flip, cleanup, name and the generator call with strips, tabs and anchors off give the pair AscFile describes |
| AscParse.AscAssembly | asc_parse.py:23-31 | with one grid and hsep, sep_dep, tab_size, tab_dep, anchorsize all 0, the assembled grid is the normalised input, same shape; an empty grid gives EmptyReduction |
| AscParse.SingleGridWritten | asc_parse.py:23-31 | the cleaned grid is written exactly when it is not empty, has two rows if corrected, and its count fits in 32 bits |
| AscParse.AscCountMatchesRecords | asc_parse.py:23-31 | for an .asc grid the count agrees with the records exactly when corrected, the cleaned grid has at least three rows, or one column is left |
| AscParse.AscTwoByTwo | asc_parse.py:15-31 | the grid [[1,2],[3,4]] is written, as written, with 10 records under a count of 12 |

## Left out

- IEEE-754 single-precision encoding (`pack('3f', …)`) is a parameter. Elevations and scales are reals, so float rounding and NaN/infinity are not modelled.
- No lemma collects the edge facts over a whole mesh into one statement that every edge of the body appears exactly twice. The facts are stated per pair of adjacent quads.
- The encoder parameter is total, so the `OverflowError` that `pack('3f', …)` raises for a finite value outside the float32 range is not modelled. That error would come from `CalculateRow`, before the header is written.
- `multiprocessing.Pool` is modelled only by its result: one part per row, in row order, then joined. Workers, processes and scheduling are left out.
- File I/O: the destination file is the returned byte sequence.
  - Nothing models I/O errors.
  - Nothing models a failure that leaves the file part-written, except the header that is already written when `pack('<i')` raises.
- Progress printing (stltools/stlgenerator.py:81-83, 97) is left out: it prints only.
- The numpy list coercion is not modelled. On the real code, `heightmap -= hmin` on a Python list works only because the minimum is a numpy scalar. It raises `TypeError` when a truthy Python float is passed as `hmin`. The model instead treats the pieces as one array of equal-width grids, and rejects pieces of different heights as `RaggedGrids`.
- The three in-place passes `-=`, `*=` and `+=` (stltools/stlgenerator.py:45-47) are modelled as one value-level map (`Normalise`). Only the separator row keeps an in-place array method.
- `hmax`: the generator computes `hmax or max(...)` and never uses the value. The model keeps only that it can raise.
- Object names are Dafny strings of Unicode scalar values, so Python's encoding error for a lone surrogate is not modelled.
- `np.loadtxt` and the `.asc` header (asc_parse.py:6-8) are not modelled. The grid arrives as a rectangular value. A one-dimensional result from `loadtxt` is left out too.
- `cv2.flip` is modelled only by its effect on the rows.
- convert.py is not part of this model. It is download, archive and external-tool plumbing.
- Separators and anchors are modelled for grids of equal width. numpy's own error for pieces of different widths is not modelled.
- HeightmapToStl.Prepare: the rejection contract lists the possible errors but does not say for each which input causes it. EmptyReductionWhen pins down one of them. NameCheckedFirst shows that the name is checked before any of them.

## Findings

| source | as written | input that shows it | evidently intended | confidence | as-written member | corrected member |
|---|---|---|---|---|---|---|
| stltools/stlgenerator.py:21-24 | `elif y == height-1` emits the south wall only when the row is not also row 0, so an assembled grid of two rows gets no south wall while the header still counts its 2w facets | a 2x2 grid: 10 facets written under a count of 12; the `.asc` grid [[1,2],[3,4]] likewise | north and south walls decided by two independent conditions. Then every row count emits the south walls, whose edges meet the neighbouring quads in reverse (the WriteFacets edge lemmas), and the count matches | not executed | StlGenerator.TwoRowsAsWrittenMissSouthWalls, StlGenerator.SmallGridCounterexamples, AscParse.AscTwoByTwo | StlGenerator.BodyMatchesHeader, HeightmapToStl.CountMatchesRecords (variant Corrected) |
| stltools/stlgenerator.py:65-84 | an assembled grid of one row has height 0, so no row is meshed, but the header still counts 4w facets | a 1x2 grid: 0 facets under a count of 4 | reject grids with fewer than two rows before writing | not executed | HeightmapToStl.OneRowGrid, StlGenerator.SmallGridCounterexamples | HeightmapToStl.OneRowGrid (variant Corrected gives Failed(TooFewRows)) |
