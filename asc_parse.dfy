/**
 * gen_stl_from_asc: the loaded elevation grid is flipped vertically, the
 * columns and then the rows that hold only the no-data value are deleted,
 * and the remaining grid goes to generate_from_heightmap_array with the
 * separators, tabs and anchors switched off.
 *
 * Loading the text grid (np.loadtxt) is not modelled: the grid arrives as
 * a value, with all rows as wide as the header said.
 */
module AscParse {
  import opened Wrappers
  import opened StlBytes
  import opened GridAssembly
  import opened WriteFacets
  import opened StlGenerator
  import opened HeightmapToStl

  /** The no-data value of the grids the script reads. */
  const NoData: real := -9999.0

  // ---------------------------------------------------------------------------
  // cv2.flip(data, 0)
  // ---------------------------------------------------------------------------

  /** The rows in reverse order. */
  function Flip(g: Heightmap): (f: Heightmap)
    ensures |f| == |g|
  {
    if g == [] then [] else Flip(g[1..]) + [g[0]]
  }

  /** Row i of the flipped grid is row H-1-i of the loaded grid. */
  lemma {:induction false} FlipAt(g: Heightmap, i: nat)
    requires i < |g|
    ensures Flip(g)[i] == g[|g| - 1 - i]
  {
    if i < |g| - 1 {
      FlipAt(g[1..], i);
    }
  }

  /** Flipping twice gives the loaded grid back. */
  lemma FlipTwice(g: Heightmap)
    ensures Flip(Flip(g)) == g
  {
    var f := Flip(g);
    forall i | 0 <= i < |g| ensures Flip(f)[i] == g[i] {
      FlipAt(f, i);
      FlipAt(g, |g| - 1 - i);
    }
  }

  /** The flip keeps every row, so it keeps the width. */
  lemma FlipGrid(g: Heightmap, w: nat)
    requires IsGrid(g, w)
    ensures IsGrid(Flip(g), w)
  {
    forall i | 0 <= i < |g| ensures |Flip(g)[i]| == w {
      FlipAt(g, i);
    }
  }

  // ---------------------------------------------------------------------------
  // Deleting the all-no-data columns
  // ---------------------------------------------------------------------------

  /** np.all(data == -9999, axis=0)[c]. */
  predicate ColumnIsNoData(g: Heightmap, c: nat)
    requires forall i :: 0 <= i < |g| ==> c < |g[i]|
  {
    forall i :: 0 <= i < |g| ==> g[i][c] == NoData
  }

  /** The columns below n that np.delete keeps, in increasing order. */
  function KeptColumns(g: Heightmap, w: nat, n: nat): (cols: seq<nat>)
    requires IsGrid(g, w) && n <= w
    ensures forall j :: 0 <= j < |cols| ==> cols[j] < n
  {
    if n == 0 then []
    else KeptColumns(g, w, n - 1) + (if ColumnIsNoData(g, n - 1) then [] else [n - 1])
  }

  predicate Increasing(s: seq<nat>) {
    forall i, j :: 0 <= i < j < |s| ==> s[i] < s[j]
  }

  /** A column is kept exactly when some cell of it holds data, and the kept columns keep their order. */
  lemma {:induction false} KeptColumnsExactly(g: Heightmap, w: nat, n: nat)
    requires IsGrid(g, w) && n <= w
    ensures Increasing(KeptColumns(g, w, n))
    ensures forall c: nat :: c in KeptColumns(g, w, n) <==> c < n && !ColumnIsNoData(g, c)
  {
    if n > 0 {
      KeptColumnsExactly(g, w, n - 1);
    }
  }

  /** The grid made of the given columns. */
  function SelectColumns(g: Heightmap, w: nat, cols: seq<nat>): (t: Heightmap)
    requires IsGrid(g, w) && forall j :: 0 <= j < |cols| ==> cols[j] < w
    ensures |t| == |g| && IsGrid(t, |cols|)
  {
    seq(|g|, i requires 0 <= i < |g| => seq(|cols|, j requires 0 <= j < |cols| => g[i][cols[j]]))
  }

  // ---------------------------------------------------------------------------
  // Deleting the all-no-data rows
  // ---------------------------------------------------------------------------

  /** np.all(data == -9999, axis=1)[i]. */
  predicate RowIsNoData(r: seq<real>) {
    forall j :: 0 <= j < |r| ==> r[j] == NoData
  }

  /** The rows below n that np.delete keeps, in increasing order. */
  function KeptRows(g: Heightmap, n: nat): (rows: seq<nat>)
    requires n <= |g|
    ensures forall k :: 0 <= k < |rows| ==> rows[k] < n
  {
    if n == 0 then []
    else KeptRows(g, n - 1) + (if RowIsNoData(g[n - 1]) then [] else [n - 1])
  }

  lemma {:induction false} KeptRowsExactly(g: Heightmap, n: nat)
    requires n <= |g|
    ensures Increasing(KeptRows(g, n))
    ensures forall i: nat :: i in KeptRows(g, n) <==> i < n && !RowIsNoData(g[i])
  {
    if n > 0 {
      KeptRowsExactly(g, n - 1);
    }
  }

  function SelectRows(g: Heightmap, rows: seq<nat>): (t: Heightmap)
    requires forall k :: 0 <= k < |rows| ==> rows[k] < |g|
    ensures |t| == |rows|
  {
    seq(|rows|, k requires 0 <= k < |rows| => g[rows[k]])
  }

  // ---------------------------------------------------------------------------
  // The cleanup
  // ---------------------------------------------------------------------------

  /** Both deletions, columns first, on a grid of width w. */
  function Cleanup(g: Heightmap, w: nat): (t: Heightmap)
    requires IsGrid(g, w)
    ensures IsGrid(t, |KeptColumns(g, w, w)|)
  {
    var cols := KeptColumns(g, w, w);
    var narrow := SelectColumns(g, w, cols);
    var rows := KeptRows(narrow, |narrow|);
    var t := SelectRows(narrow, rows);
    assert forall k :: 0 <= k < |t| ==> t[k] == narrow[rows[k]];
    t
  }

  /**
   * Cell (k, j) of the cleaned grid is the cell of the loaded grid at the
   * k-th kept row and the j-th kept column.
   */
  lemma CleanupAt(g: Heightmap, w: nat, k: nat, j: nat)
    requires IsGrid(g, w)
    requires var t := Cleanup(g, w); k < |t| && j < |KeptColumns(g, w, w)|
    ensures var cols := KeptColumns(g, w, w);
      var rows := KeptRows(SelectColumns(g, w, cols), |g|);
      k < |rows| && rows[k] < |g| && cols[j] < w && Cleanup(g, w)[k][j] == g[rows[k]][cols[j]]
  {
  }

  /** No surviving row holds only the no-data value. */
  lemma NoEmptyRowSurvives(g: Heightmap, w: nat)
    requires IsGrid(g, w)
    ensures var t := Cleanup(g, w); forall k :: 0 <= k < |t| ==> !RowIsNoData(t[k])
  {
    var cols := KeptColumns(g, w, w);
    var narrow := SelectColumns(g, w, cols);
    var rows := KeptRows(narrow, |narrow|);
    KeptRowsExactly(narrow, |narrow|);
    var t := Cleanup(g, w);
    forall k | 0 <= k < |t| ensures !RowIsNoData(t[k]) {
      assert rows[k] in rows;
      assert t[k] == narrow[rows[k]];
    }
  }

  /**
   * No surviving column holds only the no-data value: a kept column has a
   * data cell, and the row of that cell is kept too.
   */
  lemma NoEmptyColumnSurvives(g: Heightmap, w: nat, j: nat)
    requires IsGrid(g, w) && j < |KeptColumns(g, w, w)|
    ensures !ColumnIsNoData(Cleanup(g, w), j)
  {
    var cols := KeptColumns(g, w, w);
    var narrow := SelectColumns(g, w, cols);
    var rows := KeptRows(narrow, |narrow|);
    var t := Cleanup(g, w);
    KeptColumnsExactly(g, w, w);
    KeptRowsExactly(narrow, |narrow|);
    assert cols[j] in cols;
    var i :| 0 <= i < |g| && g[i][cols[j]] != NoData;
    assert narrow[i][j] == g[i][cols[j]];
    assert !RowIsNoData(narrow[i]);
    assert i in rows;
    var k :| 0 <= k < |rows| && rows[k] == i;
    assert t[k][j] == g[i][cols[j]];
  }

  /**
   * Every cell that holds data survives at the position of its row among
   * the kept rows and of its column among the kept columns (both kept in
   * increasing order, so relative order is preserved).
   */
  lemma DataSurvives(g: Heightmap, w: nat, i: nat, c: nat)
    requires IsGrid(g, w) && i < |g| && c < w && g[i][c] != NoData
    ensures var cols := KeptColumns(g, w, w);
      var rows := KeptRows(SelectColumns(g, w, cols), |g|);
      Increasing(cols) && Increasing(rows) &&
      exists k, j :: 0 <= k < |rows| && 0 <= j < |cols| && rows[k] == i && cols[j] == c &&
        Cleanup(g, w)[k][j] == g[i][c]
  {
    var cols := KeptColumns(g, w, w);
    var narrow := SelectColumns(g, w, cols);
    var rows := KeptRows(narrow, |narrow|);
    KeptColumnsExactly(g, w, w);
    KeptRowsExactly(narrow, |narrow|);
    assert !ColumnIsNoData(g, c);
    var j :| 0 <= j < |cols| && cols[j] == c;
    assert narrow[i][j] == g[i][c];
    assert i in rows;
    var k :| 0 <= k < |rows| && rows[k] == i;
    CleanupAt(g, w, k, j);
  }

  // ---------------------------------------------------------------------------
  // The destination name
  // ---------------------------------------------------------------------------

  /** str.rstrip(chars): drops the longest run of characters from `chars` at the end. */
  function RStrip(s: string, chars: set<char>): (r: string)
    ensures |r| <= |s| && r == s[..|r|]
    ensures r != [] ==> r[|r| - 1] !in chars
    ensures forall i :: |r| <= i < |s| ==> s[i] in chars
  {
    if s != [] && s[|s| - 1] in chars then RStrip(s[..|s| - 1], chars) else s
  }

  /** file_name.rstrip('.asc') + '.stl'. */
  function DestinationName(fileName: string): (d: string)
    ensures |d| >= 4 && d[|d| - 4..] == ".stl"
  {
    RStrip(fileName, {'.', 'a', 's', 'c'}) + ".stl"
  }

  /** rstrip takes away a trailing set of characters, not the suffix: "basic.asc" becomes "basi.stl". */
  lemma DestinationStripsCharacters()
    ensures DestinationName("basic.asc") == "basi.stl"
    ensures DestinationName("grid.asc") == "grid.stl"
  {
    var cs := {'.', 'a', 's', 'c'};
    assert "basic.asc"[..8] == "basic.as";
    assert "basic.as"[..7] == "basic.a";
    assert "basic.a"[..6] == "basic.";
    assert "basic."[..5] == "basic";
    assert "basic"[..4] == "basi";
    assert RStrip("basi", cs) == "basi";
    assert "grid.asc"[..7] == "grid.as";
    assert "grid.as"[..6] == "grid.a";
    assert "grid.a"[..5] == "grid.";
    assert "grid."[..4] == "grid";
    assert RStrip("grid", cs) == "grid";
  }

  // ---------------------------------------------------------------------------
  // The call into the generator
  // ---------------------------------------------------------------------------

  /** The defaults with hsep, sep_dep, tab_size, tab_dep and anchorsize set to 0. */
  const AscParams := Defaults.(hsep := 0.0, sepDep := 0.0, tabSize := 0.0, tabDep := 0.0, anchorSize := 0.0)

  /** The cleaned grid and its width. */
  function Cleaned(data: Heightmap, w: nat): (t: Heightmap)
    requires IsGrid(data, w)
    ensures IsGrid(t, CleanedWidth(data, w))
  {
    FlipGrid(data, w);
    Cleanup(Flip(data), w)
  }

  function CleanedWidth(data: Heightmap, w: nat): (n: nat)
    requires IsGrid(data, w)
    ensures n <= w
  {
    FlipGrid(data, w);
    KeptColumnsExactly(Flip(data), w, w);
    KeptColumnsAtMost(Flip(data), w, w);
    |KeptColumns(Flip(data), w, w)|
  }

  lemma {:induction false} KeptColumnsAtMost(g: Heightmap, w: nat, n: nat)
    requires IsGrid(g, w) && n <= w
    ensures |KeptColumns(g, w, n)| <= n
  {
    if n > 0 {
      KeptColumnsAtMost(g, w, n - 1);
    }
  }

  /** The destination name and what gen_stl_from_asc leaves in that file. */
  function AscFile(data: Heightmap, w: nat, fileName: string, enc: Float32Encoder, v: Variant): (string, Outcome)
    requires IsGrid(data, w)
  {
    (DestinationName(fileName), FileSpec([Cleaned(data, w)], CleanedWidth(data, w), AscParams, enc, v))
  }

  /** gen_stl_from_asc(file_name) on the grid load_asc returned for it (w columns). */
  method GenStlFromAsc(data: Heightmap, w: nat, fileName: string, enc: Float32Encoder, v: Variant)
    returns (destination: string, o: Outcome)
    requires IsGrid(data, w)
    ensures (destination, o) == AscFile(data, w, fileName, enc, v)
  {
    var cleaned := Cleaned(data, w);
    var width := CleanedWidth(data, w);
    assert AreGrids([cleaned], width) by {
      assert [cleaned][0] == cleaned;
    }
    destination := DestinationName(fileName);
    o := GenerateFromHeightmapArray([cleaned], width, AscParams, enc, v);
  }

  /**
   * With one grid and no strips, tabs or anchors, an assembled grid is the
   * normalised input with its shape unchanged; the only error left is the
   * empty grid.
   */
  lemma AscAssembly(g: Heightmap, w: nat)
    requires IsGrid(g, w)
    ensures var a := Prepare([g], w, AscParams);
      if |g| > 0 && w > 0 then
        a.Assembled? && a.grid == NormaliseGrid(g, Offset(None, [g], w), 1.0, 0.0) &&
        |a.grid| == |g| && IsGrid(a.grid, w)
      else a == Rejected(EmptyReduction)
  {
    if |g| > 0 && w > 0 {
      assert AllHaveData([g], w);
      var hs := HScale(1.0, w, |g|);
      assert hs != 0.0;
      assert 0.0 / hs == 0.0;
      assert Ceil(0.0) == 0;
      PiecesAt([g], w, AscParams);
      assert Block([g], w, AscParams, hs) == Pieces([g], w, AscParams)[0];
    } else {
      assert [g][0] == g;
      assert !AllHaveData([g], w);
    }
  }

  /**
   * A single cleaned grid of n columns is written exactly when it is not
   * empty, it has two rows if the corrected rows are used, and its count
   * fits an int32.
   */
  lemma SingleGridWritten(t: Heightmap, n: nat, enc: Float32Encoder, v: Variant)
    requires IsGrid(t, n)
    ensures AreGrids([t], n)
    ensures FileSpec([t], n, AscParams, enc, v).Written? <==>
      |t| > 0 && n > 0 && (v == Corrected ==> |t| >= 2) && HeaderCount(|t| - 1, n - 1) <= Int32Max
  {
    assert [t][0] == t;
    AscAssembly(t, n);
    WrittenWhen([t], n, AscParams, enc, v);
  }

  /** The count of a single written grid agrees with its records except for two rows and more than one column, as written. */
  lemma SingleGridCount(t: Heightmap, n: nat, enc: Float32Encoder, v: Variant)
    requires IsGrid(t, n) && AreGrids([t], n) && FileSpec([t], n, AscParams, enc, v).Written?
    ensures var f := FileSpec([t], n, AscParams, enc, v).file;
      |f| >= HeaderSize + 4 &&
      ((RecordSize * DecodeInt32LE(f[HeaderSize..HeaderSize + 4]) == |f| - HeaderSize - 4)
        <==> (v == Corrected || |t| >= 3 || n == 1))
  {
    SingleGridWritten(t, n, enc, v);
    AscAssembly(t, n);
    CountMatchesRecords([t], n, AscParams, enc, v);
  }

  /**
   * For an .asc grid the count in the header agrees with the records that
   * follow exactly when the corrected rows are used, the cleaned grid has at
   * least three rows, or it has a single column left.
   */
  lemma AscCountMatchesRecords(data: Heightmap, w: nat, fileName: string, enc: Float32Encoder, v: Variant)
    requires IsGrid(data, w) && AscFile(data, w, fileName, enc, v).1.Written?
    ensures var f, t := AscFile(data, w, fileName, enc, v).1.file, Cleaned(data, w);
      |f| >= HeaderSize + 4 &&
      ((RecordSize * DecodeInt32LE(f[HeaderSize..HeaderSize + 4]) == |f| - HeaderSize - 4)
        <==> (v == Corrected || |t| >= 3 || CleanedWidth(data, w) == 1))
  {
    var t, n := Cleaned(data, w), CleanedWidth(data, w);
    SingleGridWritten(t, n, enc, v);
    SingleGridCount(t, n, enc, v);
  }

  /** A cleaned grid of two rows and two columns, as written, is saved with 10 records under a count of 12. */
  lemma AscTwoByTwo(enc: Float32Encoder)
    ensures var o := AscFile([[1.0, 2.0], [3.0, 4.0]], 2, "dem.asc", enc, AsWritten).1;
      o.Written? && |o.file| == HeaderSize + 4 + RecordSize * 10 &&
      DecodeInt32LE(o.file[HeaderSize..HeaderSize + 4]) == 12
  {
    var t: Heightmap := [[3.0, 4.0], [1.0, 2.0]];
    CleanedTwoByTwo();
    SingleGridWritten(t, 2, enc, AsWritten);
    AscAssembly(t, 2);
    var a := Prepare([t], 2, AscParams);
    TwoRowsAsWrittenMissSouthWalls(a.grid);
    WrittenLayout([t], 2, AscParams, enc, AsWritten);
  }

  /** The 2x2 grid loses nothing in the cleanup and comes out flipped. */
  lemma CleanedTwoByTwo()
    ensures Cleaned([[1.0, 2.0], [3.0, 4.0]], 2) == [[3.0, 4.0], [1.0, 2.0]]
    ensures CleanedWidth([[1.0, 2.0], [3.0, 4.0]], 2) == 2
  {
    var data: Heightmap := [[1.0, 2.0], [3.0, 4.0]];
    assert data[1..] == [[3.0, 4.0]];
    assert Flip([[3.0, 4.0]]) == [[3.0, 4.0]];
    assert Flip(data) == [[3.0, 4.0], [1.0, 2.0]];
    CleanupTwoByTwo();
  }

  /** A grid with data in every cell (and at least one row and one column) comes out of the cleanup unchanged. */
  lemma CleanupOfFull(g: Heightmap, w: nat)
    requires IsGrid(g, w) && |g| > 0 && w > 0
    requires forall i, j :: 0 <= i < |g| && 0 <= j < w ==> g[i][j] != NoData
    ensures |KeptColumns(g, w, w)| == w && Cleanup(g, w) == g
  {
    KeptAllColumns(g, w, w);
    var narrow := SelectColumns(g, w, KeptColumns(g, w, w));
    assert narrow == g by {
      forall i | 0 <= i < |g| ensures narrow[i] == g[i] {
      }
    }
    KeptAllRows(g, w, |g|);
    assert SelectRows(g, KeptRows(g, |g|)) == g;
  }

  lemma {:induction false} KeptAllColumns(g: Heightmap, w: nat, n: nat)
    requires IsGrid(g, w) && n <= w && |g| > 0
    requires forall i, j :: 0 <= i < |g| && 0 <= j < w ==> g[i][j] != NoData
    ensures KeptColumns(g, w, n) == seq(n, j => j)
  {
    if n > 0 {
      KeptAllColumns(g, w, n - 1);
      assert g[0][n - 1] != NoData;
    }
  }

  lemma {:induction false} KeptAllRows(g: Heightmap, w: nat, n: nat)
    requires IsGrid(g, w) && n <= |g| && w > 0
    requires forall i, j :: 0 <= i < |g| && 0 <= j < w ==> g[i][j] != NoData
    ensures KeptRows(g, n) == seq(n, i => i)
  {
    if n > 0 {
      KeptAllRows(g, w, n - 1);
      assert g[n - 1][0] != NoData;
    }
  }

  lemma CleanupTwoByTwo()
    ensures KeptColumns([[3.0, 4.0], [1.0, 2.0]], 2, 2) == [0, 1]
    ensures Cleanup([[3.0, 4.0], [1.0, 2.0]], 2) == [[3.0, 4.0], [1.0, 2.0]]
  {
    var t: Heightmap := [[3.0, 4.0], [1.0, 2.0]];
    CleanupOfFull(t, 2);
    KeptAllColumns(t, 2, 2);
  }
}
