/**
 * generate_from_heightmap_array: the parameter checks, the assembly of the
 * pieces into one grid (normalisation, separator strips, anchors), and the
 * bytes that end up in the destination file.
 *
 * The file is returned as a value: Written(bytes) when the function
 * completes, Failed(error, left) when it raises, where `left` is None when
 * the destination was never opened and Some(bytes) when part of it had
 * already been written.
 */
module HeightmapToStl {
  import opened Wrappers
  import opened StlBytes
  import opened WriteFacets
  import opened GridAssembly
  import opened StlGenerator

  /** The exceptions generate_from_heightmap_array can raise, by kind. */
  datatype Error =
    | NameTooLong        // the explicit check on the object name
    | EmptyReduction     // min() or max() of no values
    | RaggedGrids        // pieces of different heights do not coerce to one array
    | NoGrids            // heightmap[0] of no pieces
    | ZeroDivision       // the horizontal scale divides by zero, or is zero
    | NegativeRepeats    // np.repeat with a negative count
    | NegativeDimensions // np.zeros with a negative number of rows
    | TooFewRows         // the corrected variant only: fewer than two rows to mesh
    | CountOutOfRange    // pack('<i', count) of a count beyond 32 bits

  datatype Outcome = Written(file: seq<byte>) | Failed(error: Error, left: Option<seq<byte>>)

  /** The grid handed to the mesher and the horizontal scale, or the error that stopped the assembly. */
  datatype Assembly = Assembled(grid: Heightmap, hs: real) | Rejected(error: Error)

  /** The keyword arguments; `destination` is not among them because the file is the result. */
  datatype Params = Params(
    hsize: real, vsize: real, base: real, hsep: real, anchorSize: real,
    sepDep: real, tabDep: real, tabSize: real, objectName: string,
    multiprocessing: bool, hmin: Option<real>, hmax: Option<real>)

  const Defaults := Params(1.0, 1.0, 0.0, 0.6, 0.75, 0.1, 0.3, 0.5, "DEM 3D Model", true, None, None)

  /** Every piece is a grid of w columns. */
  predicate AreGrids(gs: seq<Heightmap>, w: nat) {
    forall k :: 0 <= k < |gs| ==> IsGrid(gs[k], w)
  }

  /** All pieces have as many rows as the first. */
  predicate SameHeights(gs: seq<Heightmap>) {
    forall k :: 0 <= k < |gs| ==> |gs[k]| == |gs[0]|
  }

  // ---------------------------------------------------------------------------
  // Assembly
  // ---------------------------------------------------------------------------

  /** The pieces after heightmap -= hmin; *= vsize/750; += base. */
  function Pieces(gs: seq<Heightmap>, w: nat, p: Params): (n: seq<Heightmap>)
    requires AreGrids(gs, w) && (Truthy(p.hmin) || AllHaveData(gs, w))
    ensures |n| == |gs|
  {
    Normalise(gs, Offset(p.hmin, gs, w), p.vsize, p.base)
  }

  /** ceil(hsep / h_scale) copies of the separator row with its tabs. */
  function Strip(w: nat, p: Params, hs: real): (sep: Heightmap)
    requires hs != 0.0 && Ceil(p.hsep / hs) >= 0
    ensures |sep| == Ceil(p.hsep / hs) && IsGrid(sep, w)
  {
    Repeat(SeparatorRow(w, p.sepDep, p.tabDep, Ceil(p.tabSize / hs)), Ceil(p.hsep / hs))
  }

  /** The normalised pieces interleaved with the strips. */
  function Block(gs: seq<Heightmap>, w: nat, p: Params, hs: real): Heightmap
    requires AreGrids(gs, w) && (Truthy(p.hmin) || AllHaveData(gs, w)) && |gs| > 0
    requires hs != 0.0 && Ceil(p.hsep / hs) >= 0
  {
    Interleaved(Pieces(gs, w, p), Strip(w, p, hs))
  }

  /** The block, framed by an anchor pad and a strip at each end when anchorsize > 0. */
  function Framed(gs: seq<Heightmap>, w: nat, p: Params, hs: real): Heightmap
    requires AreGrids(gs, w) && (Truthy(p.hmin) || AllHaveData(gs, w)) && |gs| > 0 && SameHeights(gs)
    requires MinNat(w, |gs[0]|) > 0 && hs != 0.0 && Ceil(p.hsep / hs) >= 0
    requires p.anchorSize > 0.0 ==> Ceil(p.anchorSize / hs) >= 0
  {
    BlockShape(gs, w, p, hs);
    if p.anchorSize > 0.0 then Anchored(Block(gs, w, p, hs), Strip(w, p, hs), Ceil(p.anchorSize / hs), w)
    else Block(gs, w, p, hs)
  }

  /** The normalised pieces are all h rows by w columns. */
  lemma PiecesUniform(gs: seq<Heightmap>, w: nat, p: Params)
    requires AreGrids(gs, w) && (Truthy(p.hmin) || AllHaveData(gs, w)) && |gs| > 0 && SameHeights(gs)
    ensures Uniform(Pieces(gs, w, p), |gs[0]|, w)
  {
    NormaliseCells(gs, Offset(p.hmin, gs, w), p.vsize, p.base, w);
  }

  /** The interleaved block has rows, all w wide. */
  lemma BlockShape(gs: seq<Heightmap>, w: nat, p: Params, hs: real)
    requires AreGrids(gs, w) && (Truthy(p.hmin) || AllHaveData(gs, w)) && |gs| > 0 && SameHeights(gs)
    requires |gs[0]| > 0 && hs != 0.0 && Ceil(p.hsep / hs) >= 0
    ensures var b := Block(gs, w, p, hs);
      |b| > 0 && IsGrid(b, w)
  {
    PiecesUniform(gs, w, p);
    InterleavedLayout(Pieces(gs, w, p), Strip(w, p, hs), |gs[0]|, w);
  }

  /**
   * Everything generate_from_heightmap_array does before it opens the
   * destination, in the order it does it.
   */
  function Prepare(gs: seq<Heightmap>, w: nat, p: Params): (a: Assembly)
    requires AreGrids(gs, w)
    ensures a.Assembled? ==> |gs| > 0 && w > 0 && |a.grid| > 0 && IsGrid(a.grid, w) && IsHeightmap(a.grid)
    ensures a.Rejected? ==> a.error in {EmptyReduction, RaggedGrids, NoGrids, ZeroDivision, NegativeRepeats, NegativeDimensions}
  {
    if !Truthy(p.hmin) && !AllHaveData(gs, w) then Rejected(EmptyReduction)
    else if !Truthy(p.hmax) && !AllHaveData(gs, w) then Rejected(EmptyReduction)
    else if !SameHeights(gs) then Rejected(RaggedGrids)
    else if |gs| == 0 then Rejected(NoGrids)
    else if MinNat(w, |gs[0]|) == 0 then Rejected(ZeroDivision)
    else
      var hs := HScale(p.hsize, w, |gs[0]|);
      if hs == 0.0 then Rejected(ZeroDivision)
      else if Ceil(p.hsep / hs) < 0 then Rejected(NegativeRepeats)
      else
        if p.anchorSize > 0.0 && Ceil(p.anchorSize / hs) < 0 then Rejected(NegativeDimensions)
        else
          FramedShape(gs, w, p, hs);
          Assembled(Framed(gs, w, p, hs), hs)
  }

  lemma FramedShape(gs: seq<Heightmap>, w: nat, p: Params, hs: real)
    requires AreGrids(gs, w) && (Truthy(p.hmin) || AllHaveData(gs, w)) && |gs| > 0 && SameHeights(gs)
    requires MinNat(w, |gs[0]|) > 0 && hs != 0.0 && Ceil(p.hsep / hs) >= 0
    requires p.anchorSize > 0.0 ==> Ceil(p.anchorSize / hs) >= 0
    ensures var g := Framed(gs, w, p, hs);
      |g| > 0 && IsGrid(g, w) && |g[0]| == w
  {
    BlockShape(gs, w, p, hs);
    if p.anchorSize > 0.0 {
      AnchoredLayout(Block(gs, w, p, hs), Strip(w, p, hs), Ceil(p.anchorSize / hs), w);
    }
  }

  /** What an assembled grid is made of. */
  lemma PrepareAssembled(gs: seq<Heightmap>, w: nat, p: Params)
    requires AreGrids(gs, w) && Prepare(gs, w, p).Assembled?
    ensures (Truthy(p.hmin) || AllHaveData(gs, w)) && SameHeights(gs) && |gs| > 0 && MinNat(w, |gs[0]|) > 0
    ensures var hs := Prepare(gs, w, p).hs;
      hs == HScale(p.hsize, w, |gs[0]|) && hs != 0.0 && Ceil(p.hsep / hs) >= 0 &&
      (p.anchorSize > 0.0 ==> Ceil(p.anchorSize / hs) >= 0) &&
      Prepare(gs, w, p).grid == Framed(gs, w, p, hs)
  {
  }

  /** The assembly as the source performs it, statement by statement. */
  method Assemble(gs: seq<Heightmap>, w: nat, p: Params) returns (a: Assembly)
    requires AreGrids(gs, w)
    ensures a == Prepare(gs, w, p)
  {
    if !Truthy(p.hmin) && !AllHaveData(gs, w) {
      return Rejected(EmptyReduction);
    }
    var hmin := Offset(p.hmin, gs, w);
    if !Truthy(p.hmax) && !AllHaveData(gs, w) {
      return Rejected(EmptyReduction);
    }
    if !SameHeights(gs) {
      return Rejected(RaggedGrids);
    }
    var pieces := Normalise(gs, hmin, p.vsize, p.base);
    if |gs| == 0 {
      return Rejected(NoGrids);
    }
    var m := MinNat(w, |gs[0]|);
    if m == 0 {
      return Rejected(ZeroDivision);
    }
    var hs := p.hsize / m as real;
    if hs == 0.0 {
      return Rejected(ZeroDivision);
    }
    var t := Ceil(p.tabSize / hs);
    var row := BuildSeparatorRow(w, p.sepDep, p.tabDep, t);
    var s := Ceil(p.hsep / hs);
    if s < 0 {
      return Rejected(NegativeRepeats);
    }
    var sep := Repeat(row, s);
    var block := InterleaveGrids(pieces, sep);
    BlockShape(gs, w, p, hs);
    if p.anchorSize > 0.0 {
      var n := Ceil(p.anchorSize / hs);
      if n < 0 {
        return Rejected(NegativeDimensions);
      }
      block := Anchored(block, sep, n, w);
    }
    a := Assembled(block, hs);
  }

  // ---------------------------------------------------------------------------
  // The destination file
  // ---------------------------------------------------------------------------

  /** What generate_from_heightmap_array leaves in the destination. */
  function FileSpec(gs: seq<Heightmap>, w: nat, p: Params, enc: Float32Encoder, v: Variant): (o: Outcome)
    requires AreGrids(gs, w)
    ensures o.Failed? ==> (o.left.Some? <==> o.error == CountOutOfRange)
    ensures o.Failed? && o.left.Some? ==> o.left.value == Header80(p.objectName)
  {
    if |p.objectName| > HeaderSize then Failed(NameTooLong, None)
    else match Prepare(gs, w, p)
      case Rejected(e) => Failed(e, None)
      case Assembled(g, hs) => Emit(g, hs, w, p.objectName, enc, v)
  }

  /** What is left in the destination once an assembled grid of w columns is meshed. */
  function Emit(g: Heightmap, hs: real, w: nat, name: string, enc: Float32Encoder, v: Variant): (o: Outcome)
    requires IsHeightmap(g) && |g[0]| == w
    ensures o.Failed? ==> o == Failed(TooFewRows, None) || o == Failed(CountOutOfRange, Some(Header80(name)))
    ensures o.Failed? ==> (o.left.Some? <==> o.error == CountOutOfRange)
    ensures o.Written? <==> (v == Corrected ==> |g| >= 2) && HeaderCount(|g| - 1, w - 1) <= Int32Max
  {
    if v == Corrected && |g| < 2 then Failed(TooFewRows, None)
    else
      var count := HeaderCount(|g| - 1, w - 1);
      if count > Int32Max then Failed(CountOutOfRange, Some(Header80(name)))
      else Written(Header80(name) + Int32LE(count) + FacetsBytes(enc, hs, BodyFacets(g, v)))
  }

  /**
   * generate_from_heightmap_array(heightmap, destination, ...): the pool
   * branch and the sequential branch produce the same body.
   */
  method GenerateFromHeightmapArray(gs: seq<Heightmap>, w: nat, p: Params, enc: Float32Encoder, v: Variant)
    returns (o: Outcome)
    requires AreGrids(gs, w)
    ensures o == FileSpec(gs, w, p, enc, v)
  {
    if |p.objectName| > HeaderSize {
      return Failed(NameTooLong, None);
    }
    var a := Assemble(gs, w, p);
    if a.Rejected? {
      return Failed(a.error, None);
    }
    o := WriteMesh(a.grid, a.hs, w, p.objectName, enc, v, p.multiprocessing);
  }

  /** The counts, the header, the count field and the facets of an assembled grid. */
  method WriteMesh(g: Heightmap, hs: real, w: nat, name: string, enc: Float32Encoder, v: Variant, multiprocessing: bool)
    returns (o: Outcome)
    requires IsHeightmap(g) && |g[0]| == w
    ensures o == Emit(g, hs, w, name, enc, v)
  {
    if v == Corrected && |g| < 2 {
      return Failed(TooFewRows, None);
    }
    var count := HeaderCount(|g| - 1, |g[0]| - 1);
    var facets := Body(g, hs, enc, v, multiprocessing);
    var header := Header80(name);
    if count > Int32Max {
      return Failed(CountOutOfRange, Some(header));
    }
    o := Written(header + Int32LE(count) + facets);
  }

  /** The facets, from a pool of workers or from the sequential loop: the same bytes either way. */
  method Body(g: Heightmap, hs: real, enc: Float32Encoder, v: Variant, multiprocessing: bool)
    returns (facets: seq<byte>)
    requires IsHeightmap(g)
    ensures facets == FacetsBytes(enc, hs, BodyFacets(g, v))
  {
    if multiprocessing {
      var parts := StarmapRows(g, hs, enc, v);
      facets := Join(parts);
    } else {
      facets := SequentialRows(g, hs, enc, v);
    }
  }

  // ---------------------------------------------------------------------------
  // The assembled grid
  // ---------------------------------------------------------------------------

  /** Rows off + k*(h+s) .. off + k*(h+s) + h of g are `piece`. */
  predicate PieceAt(g: Heightmap, off: int, k: nat, h: nat, s: nat, piece: Heightmap) {
    0 <= off && off + k * (h + s) + h <= |g| && g[off + k * (h + s)..off + k * (h + s) + h] == piece
  }

  /** The s rows after the k-th piece are `sep`. */
  predicate StripAfter(g: Heightmap, off: int, k: nat, h: nat, s: nat, sep: Heightmap) {
    0 <= off && off + k * (h + s) + h + s <= |g| && g[off + k * (h + s) + h..off + k * (h + s) + h + s] == sep
  }

  /** The rows in front of the first piece: an anchor pad and a strip when anchorsize > 0, none otherwise. */
  function Lead(p: Params, hs: real): int
    requires hs != 0.0
  {
    if p.anchorSize > 0.0 then Ceil(p.anchorSize / hs) + Ceil(p.hsep / hs) else 0
  }

  /**
   * The assembled grid: h_scale is hsize over the smaller side of the first
   * piece; each normalised piece k sits k * (h + s) rows after the lead, with
   * a strip of s separator rows between consecutive pieces, and the same
   * number of lead rows closes the grid at the other end.
   */
  lemma PrepareLayout(gs: seq<Heightmap>, w: nat, p: Params)
    requires AreGrids(gs, w) && Prepare(gs, w, p).Assembled?
    ensures var a := Prepare(gs, w, p);
      a.hs != 0.0 && a.hs * MinNat(w, |gs[0]|) as real == p.hsize && Ceil(p.hsep / a.hs) >= 0
    ensures var a := Prepare(gs, w, p);
      var n, h, hs := |gs|, |gs[0]|, a.hs;
      var s := Ceil(p.hsep / hs);
      Lead(p, hs) >= 0 &&
      |a.grid| == n * h + (n - 1) * s + 2 * Lead(p, hs) &&
      (forall k :: 0 <= k < n ==>
        PieceAt(a.grid, Lead(p, hs), k, h, s, NormaliseGrid(gs[k], Offset(p.hmin, gs, w), p.vsize, p.base))) &&
      (forall k :: 0 <= k < n - 1 ==> StripAfter(a.grid, Lead(p, hs), k, h, s, Strip(w, p, hs)))
  {
    PrepareAssembled(gs, w, p);
    FramedLayout(gs, w, p, Prepare(gs, w, p).hs);
  }

  lemma FramedLayout(gs: seq<Heightmap>, w: nat, p: Params, hs: real)
    requires AreGrids(gs, w) && (Truthy(p.hmin) || AllHaveData(gs, w)) && |gs| > 0 && SameHeights(gs)
    requires MinNat(w, |gs[0]|) > 0 && hs != 0.0 && Ceil(p.hsep / hs) >= 0
    requires p.anchorSize > 0.0 ==> Ceil(p.anchorSize / hs) >= 0
    ensures var g, n, h, s := Framed(gs, w, p, hs), |gs|, |gs[0]|, Ceil(p.hsep / hs);
      Lead(p, hs) >= 0 &&
      |g| == n * h + (n - 1) * s + 2 * Lead(p, hs) &&
      (forall k :: 0 <= k < n ==>
        PieceAt(g, Lead(p, hs), k, h, s, NormaliseGrid(gs[k], Offset(p.hmin, gs, w), p.vsize, p.base))) &&
      (forall k :: 0 <= k < n - 1 ==> StripAfter(g, Lead(p, hs), k, h, s, Strip(w, p, hs)))
  {
    var g, n, h := Framed(gs, w, p, hs), |gs|, |gs[0]|;
    var pieces, sep := Pieces(gs, w, p), Strip(w, p, hs);
    var block := Block(gs, w, p, hs);
    PiecesUniform(gs, w, p);
    InterleavedLayout(pieces, sep, h, w);
    if p.anchorSize > 0.0 {
      AnchoredLayout(block, sep, Ceil(p.anchorSize / hs), w);
      Embedded(g, Lead(p, hs), block, pieces, sep, h);
    } else {
      assert g[0..|block|] == block;
      Embedded(g, 0, block, pieces, sep, h);
    }
    PiecesAt(gs, w, p);
  }

  lemma PiecesAt(gs: seq<Heightmap>, w: nat, p: Params)
    requires AreGrids(gs, w) && (Truthy(p.hmin) || AllHaveData(gs, w))
    ensures forall k :: 0 <= k < |gs| ==> Pieces(gs, w, p)[k] == NormaliseGrid(gs[k], Offset(p.hmin, gs, w), p.vsize, p.base)
  {
  }

  /** A block laid out by InterleavedLayout keeps its slots when it sits at rows off.. of a larger grid. */
  lemma Embedded(g: Heightmap, off: nat, block: Heightmap, pieces: seq<Heightmap>, sep: Heightmap, h: nat)
    requires off + |block| <= |g| && g[off..off + |block|] == block
    requires forall k :: 0 <= k < |pieces| ==>
      BlockStart(k, h, |sep|) == k * (h + |sep|) && SlotHolds(block, pieces, sep, h, k)
    ensures forall k :: 0 <= k < |pieces| ==> PieceAt(g, off, k, h, |sep|, pieces[k])
    ensures forall k :: 0 <= k < |pieces| - 1 ==> StripAfter(g, off, k, h, |sep|, sep)
  {
    var s := |sep|;
    forall k | 0 <= k < |pieces|
      ensures PieceAt(g, off, k, h, s, pieces[k])
      ensures k < |pieces| - 1 ==> StripAfter(g, off, k, h, s, sep)
    {
      var st := BlockStart(k, h, s);
      assert SlotHolds(block, pieces, sep, h, k);
      SliceOfSlice(g, off, off + |block|, st, st + h);
      if k < |pieces| - 1 {
        SliceOfSlice(g, off, off + |block|, st + h, st + h + s);
      }
    }
  }

  lemma SliceOfSlice<T>(g: seq<T>, lo: nat, hi: nat, i: nat, j: nat)
    requires lo <= hi <= |g| && i <= j <= hi - lo
    ensures g[lo..hi][i..j] == g[lo + i..lo + j]
  {
    var a, b := g[lo..hi][i..j], g[lo + i..lo + j];
    assert |a| == |b|;
    forall t | 0 <= t < |a| ensures a[t] == b[t] {
      assert a[t] == g[lo..hi][i + t];
    }
  }

  /** Every cell of `row` is the highest cell of `block`. */
  predicate IsTopRow(row: seq<real>, block: Heightmap) {
    (forall j :: 0 <= j < |row| ==> row[j] in Cells(block)) &&
    forall z, j :: z in Cells(block) && 0 <= j < |row| ==> z <= row[j]
  }

  /** The first and last m rows mirror each other and are top rows of what lies between the strips. */
  predicate PadRows(g: Heightmap, m: nat, s: nat) {
    2 * (m + s) < |g| &&
    forall i :: 0 <= i < m ==> g[i] == g[|g| - 1 - i] && IsTopRow(g[i], g[m + s..|g| - m - s])
  }

  /**
   * With anchorsize > 0 the first and last ceil(anchorsize / h_scale) rows
   * mirror each other and stand at the height of the highest cell of the
   * block they frame (the pieces with their inner strips).
   */
  lemma AnchorRows(gs: seq<Heightmap>, w: nat, p: Params)
    requires AreGrids(gs, w) && Prepare(gs, w, p).Assembled? && p.anchorSize > 0.0
    ensures var a := Prepare(gs, w, p);
      a.hs != 0.0 &&
      var m, s := Ceil(p.anchorSize / a.hs), Ceil(p.hsep / a.hs);
      0 <= m && 0 <= s && PadRows(a.grid, m, s)
  {
    var a := Prepare(gs, w, p);
    PrepareAssembled(gs, w, p);
    var block, sep, m := Block(gs, w, p, a.hs), Strip(w, p, a.hs), Ceil(p.anchorSize / a.hs);
    BlockShape(gs, w, p, a.hs);
    assert a.grid == Anchored(block, sep, m, w);
    AnchoredPads(block, sep, m, w);
  }

  lemma AnchoredPads(block: Heightmap, sep: Heightmap, m: nat, w: nat)
    requires |block| > 0 && w > 0 && IsGrid(block, w) && IsGrid(sep, w)
    ensures var g, s := Anchored(block, sep, m, w), |sep|;
      2 * (m + s) < |g| && g[m + s..|g| - m - s] == block && PadRows(g, m, s)
  {
    AnchoredLayout(block, sep, m, w);
    var g, s := Anchored(block, sep, m, w), |sep|;
    var top :| top in Cells(block) && (forall z :: z in Cells(block) ==> z <= top) &&
      g[..m] == g[m + 2 * s + |block|..] == Repeat(Level(w, top), m);
    PadsOfLayout(g, block, m, s, Level(w, top));
  }

  /** A grid that opens and closes with m copies of a top row of the block between its strips. */
  lemma PadsOfLayout(g: Heightmap, block: Heightmap, m: nat, s: nat, row: seq<real>)
    requires |g| == |block| + 2 * m + 2 * s && |block| > 0
    requires g[m + s..m + s + |block|] == block
    requires g[..m] == g[m + 2 * s + |block|..] == Repeat(row, m)
    requires IsTopRow(row, block)
    ensures 2 * (m + s) < |g| && g[m + s..|g| - m - s] == block && PadRows(g, m, s)
  {
    forall i | 0 <= i < m
      ensures g[i] == row
    {
      assert g[i] == g[..m][i];
    }
    forall j | |g| - m <= j < |g|
      ensures g[j] == row
    {
      assert g[j] == g[m + 2 * s + |block|..][j - (m + 2 * s + |block|)];
    }
  }

  // ---------------------------------------------------------------------------
  // The destination file
  // ---------------------------------------------------------------------------

  /** The name check comes first: a name of more than 80 characters, and only that, fails with NameTooLong. */
  lemma NameCheckedFirst(gs: seq<Heightmap>, w: nat, p: Params, enc: Float32Encoder, v: Variant)
    requires AreGrids(gs, w)
    ensures FileSpec(gs, w, p, enc, v) == Failed(NameTooLong, None) <==> |p.objectName| > HeaderSize
  {
  }

  /**
   * min() or max() of no values: some piece or the width is empty and one
   * of hmin, hmax is not given (or zero), so the fallback has to be computed.
   */
  lemma EmptyReductionWhen(gs: seq<Heightmap>, w: nat, p: Params, enc: Float32Encoder, v: Variant)
    requires AreGrids(gs, w) && |p.objectName| <= HeaderSize
    ensures FileSpec(gs, w, p, enc, v) == Failed(EmptyReduction, None)
        <==> !AllHaveData(gs, w) && !(Truthy(p.hmin) && Truthy(p.hmax))
  {
  }

  /** When a file is written: the name fits, the assembly succeeds, the rows suffice and the count fits an int32. */
  lemma WrittenWhen(gs: seq<Heightmap>, w: nat, p: Params, enc: Float32Encoder, v: Variant)
    requires AreGrids(gs, w)
    ensures FileSpec(gs, w, p, enc, v).Written? <==>
      |p.objectName| <= HeaderSize && Prepare(gs, w, p).Assembled? &&
      (v == Corrected ==> |Prepare(gs, w, p).grid| >= 2) &&
      HeaderCount(|Prepare(gs, w, p).grid| - 1, w - 1) <= Int32Max
  {
  }

  /** A written file comes from an assembled grid. */
  lemma WrittenFile(gs: seq<Heightmap>, w: nat, p: Params, enc: Float32Encoder, v: Variant)
    requires AreGrids(gs, w) && FileSpec(gs, w, p, enc, v).Written?
    ensures |p.objectName| <= HeaderSize && Prepare(gs, w, p).Assembled?
    ensures var a := Prepare(gs, w, p);
      IsHeightmap(a.grid) && |a.grid[0]| == w && FileSpec(gs, w, p, enc, v) == Emit(a.grid, a.hs, w, p.objectName, enc, v)
  {
  }

  /**
   * A written file is the 80-byte header, the count as a little-endian int32,
   * and one 50-byte record per facet of the body.
   */
  lemma WrittenLayout(gs: seq<Heightmap>, w: nat, p: Params, enc: Float32Encoder, v: Variant)
    requires AreGrids(gs, w) && FileSpec(gs, w, p, enc, v).Written?
    ensures var f, a := FileSpec(gs, w, p, enc, v).file, Prepare(gs, w, p);
      a.Assembled? &&
      |f| == HeaderSize + 4 + RecordSize * |BodyFacets(a.grid, v)| &&
      f[..HeaderSize] == Header80(p.objectName) &&
      DecodeInt32LE(f[HeaderSize..HeaderSize + 4]) == HeaderCount(|a.grid| - 1, w - 1)
  {
    var a := Prepare(gs, w, p);
    WrittenFile(gs, w, p, enc, v);
    EmitLayout(FileSpec(gs, w, p, enc, v), a.grid, a.hs, w, p.objectName, enc, v);
  }

  /** The same, for the outcome of meshing an assembled grid of w columns. */
  lemma EmitLayout(o: Outcome, g: Heightmap, hs: real, w: nat, name: string, enc: Float32Encoder, v: Variant)
    requires IsHeightmap(g) && |g[0]| == w && o == Emit(g, hs, w, name, enc, v) && o.Written?
    ensures |o.file| == HeaderSize + 4 + RecordSize * |BodyFacets(g, v)|
    ensures o.file[..HeaderSize] == Header80(name)
    ensures DecodeInt32LE(o.file[HeaderSize..HeaderSize + 4]) == HeaderCount(|g| - 1, w - 1)
  {
    var f, count := o.file, HeaderCount(|g| - 1, w - 1);
    assert f == Header80(name) + Int32LE(count) + FacetsBytes(enc, hs, BodyFacets(g, v));
    assert f[..HeaderSize] == Header80(name);
    assert f[HeaderSize..HeaderSize + 4] == Int32LE(count);
    Int32LERoundTrip(count);
  }

  /** Record i of a written file is facet i of the body. */
  lemma WrittenRecord(gs: seq<Heightmap>, w: nat, p: Params, enc: Float32Encoder, v: Variant, i: nat)
    requires AreGrids(gs, w) && FileSpec(gs, w, p, enc, v).Written?
    requires Prepare(gs, w, p).Assembled? && i < |BodyFacets(Prepare(gs, w, p).grid, v)|
    ensures var f, a := FileSpec(gs, w, p, enc, v).file, Prepare(gs, w, p);
      var at := HeaderSize + 4 + RecordSize * i;
      at + RecordSize <= |f| && f[at..at + RecordSize] == FacetBytes(enc, a.hs, BodyFacets(a.grid, v)[i])
  {
    var a := Prepare(gs, w, p);
    WrittenFile(gs, w, p, enc, v);
    EmitRecord(FileSpec(gs, w, p, enc, v), a.grid, a.hs, w, p.objectName, enc, v, i);
  }

  /** The same, for the outcome of meshing an assembled grid of w columns. */
  lemma EmitRecord(o: Outcome, g: Heightmap, hs: real, w: nat, name: string, enc: Float32Encoder, v: Variant, i: nat)
    requires IsHeightmap(g) && |g[0]| == w && o == Emit(g, hs, w, name, enc, v) && o.Written?
    requires i < |BodyFacets(g, v)|
    ensures var at := HeaderSize + 4 + RecordSize * i;
      at + RecordSize <= |o.file| && o.file[at..at + RecordSize] == FacetBytes(enc, hs, BodyFacets(g, v)[i])
  {
    var head, fs := Header80(name) + Int32LE(HeaderCount(|g| - 1, w - 1)), BodyFacets(g, v);
    assert |head| == HeaderSize + 4;
    assert o.file == head + FacetsBytes(enc, hs, fs);
    RecordAfterHead(head, enc, hs, fs, i);
  }

  lemma RecordAfterHead(head: seq<byte>, enc: Float32Encoder, hs: real, fs: seq<Facet>, i: nat)
    requires i < |fs|
    ensures var f, at := head + FacetsBytes(enc, hs, fs), |head| + RecordSize * i;
      at + RecordSize <= |f| && f[at..at + RecordSize] == FacetBytes(enc, hs, fs[i])
  {
    var body := FacetsBytes(enc, hs, fs);
    FacetsBytesAt(enc, hs, fs, i);
    var k := RecordSize * i;
    MulMono(RecordSize, i + 1, |fs|);
    SliceAfterHead(head, body, k, k + RecordSize);
  }

  /**
   * The count in the header agrees with the records that follow exactly
   * when the corrected rows are used, the grid has at least three rows, or
   * it is one cell column wide.
   */
  lemma CountMatchesRecords(gs: seq<Heightmap>, w: nat, p: Params, enc: Float32Encoder, v: Variant)
    requires AreGrids(gs, w) && FileSpec(gs, w, p, enc, v).Written?
    ensures var f, a := FileSpec(gs, w, p, enc, v).file, Prepare(gs, w, p);
      a.Assembled? && |f| >= HeaderSize + 4 &&
      ((RecordSize * DecodeInt32LE(f[HeaderSize..HeaderSize + 4]) == |f| - HeaderSize - 4)
        <==> (v == Corrected || |a.grid| >= 3 || w == 1))
  {
    var a := Prepare(gs, w, p);
    WrittenFile(gs, w, p, enc, v);
    CountAgrees(FileSpec(gs, w, p, enc, v), a.grid, a.hs, w, p.objectName, enc, v);
  }

  /** The same, for the outcome of meshing an assembled grid of w columns. */
  lemma CountAgrees(o: Outcome, g: Heightmap, hs: real, w: nat, name: string, enc: Float32Encoder, v: Variant)
    requires IsHeightmap(g) && |g[0]| == w && o == Emit(g, hs, w, name, enc, v) && o.Written?
    ensures |o.file| >= HeaderSize + 4 &&
      ((RecordSize * DecodeInt32LE(o.file[HeaderSize..HeaderSize + 4]) == |o.file| - HeaderSize - 4)
        <==> (v == Corrected || |g| >= 3 || w == 1))
  {
    var f, count := o.file, HeaderCount(|g| - 1, w - 1);
    assert f == Header80(name) + Int32LE(count) + FacetsBytes(enc, hs, BodyFacets(g, v));
    assert f[HeaderSize..HeaderSize + 4] == Int32LE(count);
    Int32LERoundTrip(count);
    BodyMatchesHeader(g, v);
    Scale50(|BodyFacets(g, v)|, count);
  }

  /**
   * An assembled grid of one row has no cell row to mesh. As written it is
   * still written, as a header promising 4 * (w - 1) facets and no records;
   * the corrected variant refuses it.
   */
  lemma OneRowGrid(gs: seq<Heightmap>, w: nat, p: Params, enc: Float32Encoder, v: Variant)
    requires AreGrids(gs, w) && |p.objectName| <= HeaderSize
    requires Prepare(gs, w, p).Assembled? && |Prepare(gs, w, p).grid| == 1
    ensures v == Corrected ==> FileSpec(gs, w, p, enc, v) == Failed(TooFewRows, None)
    ensures v == AsWritten && 4 * (w - 1) <= Int32Max ==>
      var o := FileSpec(gs, w, p, enc, v);
      o.Written? && |o.file| == HeaderSize + 4 &&
      DecodeInt32LE(o.file[HeaderSize..HeaderSize + 4]) == 4 * (w - 1)
  {
    if v == AsWritten && 4 * (w - 1) <= Int32Max {
      var a := Prepare(gs, w, p);
      BodyQuadsCount(a.grid, 0, v);
      assert HeaderCount(0, w - 1) == 4 * (w - 1);
      WrittenLayout(gs, w, p, enc, v);
    }
  }

  lemma Scale50(x: int, y: int)
    ensures RecordSize * x == RecordSize * y <==> x == y
  {
  }
}
