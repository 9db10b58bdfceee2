/**
 * The grid assembly of the mesh generator, before any facet is written:
 * the minimum and maximum reductions, normalisation of the elevations, the
 * horizontal scale, the separator strip with its tabs, the interleaving of
 * several grids with the strip, and the anchor pads.
 *
 * A grid is a sequence of rows of reals that all have the same width w.
 */
module GridAssembly {
  import opened Wrappers

  type Heightmap = seq<seq<real>>

  predicate IsGrid(g: Heightmap, w: nat) {
    forall i :: 0 <= i < |g| ==> |g[i]| == w
  }

  // ---------------------------------------------------------------------------
  // Reductions: ndarray.min(), ndarray.max(), min() and max() of a list
  // ---------------------------------------------------------------------------

  function Min(s: seq<real>): (m: real)
    requires |s| > 0
    ensures m in s
    ensures forall z :: z in s ==> m <= z
  {
    if |s| == 1 then s[0]
    else
      var r := Min(s[..|s| - 1]);
      assert forall z :: z in s ==> z in s[..|s| - 1] || z == s[|s| - 1];
      if s[|s| - 1] < r then s[|s| - 1] else r
  }

  function Max(s: seq<real>): (m: real)
    requires |s| > 0
    ensures m in s
    ensures forall z :: z in s ==> z <= m
  {
    if |s| == 1 then s[0]
    else
      var r := Max(s[..|s| - 1]);
      assert forall z :: z in s ==> z in s[..|s| - 1] || z == s[|s| - 1];
      if s[|s| - 1] > r then s[|s| - 1] else r
  }

  /** The cells of one grid, row by row: what ndarray.min() and ndarray.max() reduce over. */
  function Cells(g: Heightmap): (c: seq<real>)
    ensures forall i, j :: 0 <= i < |g| && 0 <= j < |g[i]| ==> g[i][j] in c
    ensures forall z :: z in c ==> exists i, j :: 0 <= i < |g| && 0 <= j < |g[i]| && z == g[i][j]
  {
    if g == [] then []
    else
      var pre, last := g[..|g| - 1], g[|g| - 1];
      var c := Cells(pre) + last;
      assert forall i, j :: 0 <= i < |pre| && 0 <= j < |g[i]| ==> g[i][j] == pre[i][j];
      c
  }

  /**
   * The cells of all grids. min([hm.min() for hm in grids]) is the minimum of
   * these whenever every grid has a cell, which is the only case in which it
   * does not raise.
   */
  function AllCells(gs: seq<Heightmap>): (c: seq<real>)
    ensures forall k, i, j :: 0 <= k < |gs| && 0 <= i < |gs[k]| && 0 <= j < |gs[k][i]| ==> gs[k][i][j] in c
    ensures forall z :: z in c ==>
      exists k, i, j :: 0 <= k < |gs| && 0 <= i < |gs[k]| && 0 <= j < |gs[k][i]| && z == gs[k][i][j]
  {
    if gs == [] then []
    else
      var pre, last := gs[..|gs| - 1], gs[|gs| - 1];
      var c := AllCells(pre) + Cells(last);
      assert forall k :: 0 <= k < |pre| ==> gs[k] == pre[k];
      c
  }

  /** Every grid has at least one cell (and there is at least one grid): min and max do not raise. */
  predicate AllHaveData(gs: seq<Heightmap>, w: nat) {
    |gs| > 0 && w > 0 && forall k :: 0 <= k < |gs| ==> |gs[k]| > 0
  }

  lemma AllHaveDataNonEmpty(gs: seq<Heightmap>, w: nat)
    requires forall k :: 0 <= k < |gs| ==> IsGrid(gs[k], w)
    requires AllHaveData(gs, w)
    ensures |AllCells(gs)| > 0
  {
    assert gs[0][0][0] in AllCells(gs);
  }

  // ---------------------------------------------------------------------------
  // Normalisation
  // ---------------------------------------------------------------------------

  /** Python truthiness of an optional number: None and zero are false. */
  predicate Truthy(o: Option<real>) {
    o.Some? && o.value != 0.0
  }

  /** `hmin or min(...)`: the override when it is truthy, otherwise the data minimum. */
  function Offset(o: Option<real>, gs: seq<Heightmap>, w: nat): (m: real)
    requires forall k :: 0 <= k < |gs| ==> IsGrid(gs[k], w)
    requires Truthy(o) || AllHaveData(gs, w)
    ensures Truthy(o) ==> m == o.value
    ensures !Truthy(o) ==> m in AllCells(gs) && forall z :: z in AllCells(gs) ==> m <= z
  {
    if Truthy(o) then o.value
    else
      AllHaveDataNonEmpty(gs, w);
      Min(AllCells(gs))
  }

  /** `hmax or max(...)`, which the generator computes and then does not use. */
  function Ceiling(o: Option<real>, gs: seq<Heightmap>, w: nat): (m: real)
    requires forall k :: 0 <= k < |gs| ==> IsGrid(gs[k], w)
    requires Truthy(o) || AllHaveData(gs, w)
    ensures Truthy(o) ==> m == o.value
    ensures !Truthy(o) ==> m in AllCells(gs) && forall z :: z in AllCells(gs) ==> z <= m
  {
    if Truthy(o) then o.value
    else
      AllHaveDataNonEmpty(gs, w);
      Max(AllCells(gs))
  }

  /** One cell after `-= hmin`, `*= vsize/750` and `+= base`. */
  function NormaliseCell(z: real, hmin: real, vsize: real, base: real): real {
    (z - hmin) * (vsize / 750.0) + base
  }

  function NormaliseRow(r: seq<real>, hmin: real, vsize: real, base: real): (r': seq<real>)
    ensures |r'| == |r|
  {
    seq(|r|, j requires 0 <= j < |r| => NormaliseCell(r[j], hmin, vsize, base))
  }

  function NormaliseGrid(g: Heightmap, hmin: real, vsize: real, base: real): (g': Heightmap)
    ensures |g'| == |g|
  {
    seq(|g|, i requires 0 <= i < |g| => NormaliseRow(g[i], hmin, vsize, base))
  }

  function Normalise(gs: seq<Heightmap>, hmin: real, vsize: real, base: real): (gs': seq<Heightmap>)
    ensures |gs'| == |gs|
  {
    seq(|gs|, k requires 0 <= k < |gs| => NormaliseGrid(gs[k], hmin, vsize, base))
  }

  /**
   * Normalisation keeps every grid's shape and maps every cell through the
   * affine map (v - hmin) * vsize/750 + base.
   */
  lemma NormaliseCells(gs: seq<Heightmap>, hmin: real, vsize: real, base: real, w: nat)
    requires forall k :: 0 <= k < |gs| ==> IsGrid(gs[k], w)
    ensures var n := Normalise(gs, hmin, vsize, base);
      |n| == |gs| &&
      (forall k :: 0 <= k < |n| ==> |n[k]| == |gs[k]| && IsGrid(n[k], w)) &&
      forall k, i, j :: 0 <= k < |gs| && 0 <= i < |gs[k]| && 0 <= j < w ==>
        n[k][i][j] == (gs[k][i][j] - hmin) * (vsize / 750.0) + base
  {
  }

  /**
   * With the default offset (the data minimum) and vsize >= 0 the lowest
   * normalised cell is exactly base.
   */
  lemma NormalisedMinimum(gs: seq<Heightmap>, w: nat, vsize: real, base: real)
    requires forall k :: 0 <= k < |gs| ==> IsGrid(gs[k], w)
    requires AllHaveData(gs, w) && vsize >= 0.0
    ensures var n := Normalise(gs, Offset(None, gs, w), vsize, base);
      |AllCells(n)| > 0 && Min(AllCells(n)) == base
  {
    var m := Offset(None, gs, w);
    var n := Normalise(gs, m, vsize, base);
    NormalisedAttainsBase(gs, w, m, vsize, base);
    NormalisedAboveBase(gs, w, m, vsize, base);
    var r := Min(AllCells(n));
    assert r <= base;
  }

  lemma NormalisedAttainsBase(gs: seq<Heightmap>, w: nat, m: real, vsize: real, base: real)
    requires forall k :: 0 <= k < |gs| ==> IsGrid(gs[k], w)
    requires m in AllCells(gs)
    ensures base in AllCells(Normalise(gs, m, vsize, base))
  {
    var n := Normalise(gs, m, vsize, base);
    var k, i, j :| 0 <= k < |gs| && 0 <= i < |gs[k]| && 0 <= j < |gs[k][i]| && m == gs[k][i][j];
    NormaliseAt(gs, m, vsize, base, k, i, j);
    assert NormaliseCell(m, m, vsize, base) == base;
    assert n[k][i][j] in AllCells(n);
  }

  lemma NormalisedAboveBase(gs: seq<Heightmap>, w: nat, m: real, vsize: real, base: real)
    requires forall k :: 0 <= k < |gs| ==> IsGrid(gs[k], w)
    requires vsize >= 0.0 && forall z :: z in AllCells(gs) ==> m <= z
    ensures forall z :: z in AllCells(Normalise(gs, m, vsize, base)) ==> base <= z
  {
    var n := Normalise(gs, m, vsize, base);
    forall z | z in AllCells(n) ensures base <= z {
      var k, i, j :| 0 <= k < |n| && 0 <= i < |n[k]| && 0 <= j < |n[k][i]| && z == n[k][i][j];
      var v := gs[k][i][j];
      assert v in AllCells(gs);
      NormaliseAt(gs, m, vsize, base, k, i, j);
      NormaliseCellAbove(v, m, vsize, base);
    }
  }

  lemma NormaliseAt(gs: seq<Heightmap>, hmin: real, vsize: real, base: real, k: nat, i: nat, j: nat)
    requires k < |gs| && i < |gs[k]| && j < |gs[k][i]|
    ensures var n := Normalise(gs, hmin, vsize, base);
      i < |n[k]| && j < |n[k][i]| && n[k][i][j] == NormaliseCell(gs[k][i][j], hmin, vsize, base)
  {
    var n := Normalise(gs, hmin, vsize, base);
    assert n[k] == NormaliseGrid(gs[k], hmin, vsize, base);
    assert n[k][i] == NormaliseRow(gs[k][i], hmin, vsize, base);
  }

  lemma NormaliseCellAbove(v: real, m: real, vsize: real, base: real)
    requires m <= v && vsize >= 0.0
    ensures base <= NormaliseCell(v, m, vsize, base)
  {
    ProductNonNegative(v - m, vsize / 750.0);
  }

  lemma ProductNonNegative(a: real, b: real)
    requires a >= 0.0 && b >= 0.0
    ensures a * b >= 0.0
  {
  }

  /** A falsy override (None or zero) falls back to the data minimum. */
  lemma FalsyOffsetFallsBack(gs: seq<Heightmap>, w: nat, o: Option<real>)
    requires forall k :: 0 <= k < |gs| ==> IsGrid(gs[k], w)
    requires AllHaveData(gs, w) && (o == None || o == Some(0.0))
    ensures Offset(o, gs, w) == Offset(None, gs, w)
    ensures forall k, i, j :: 0 <= k < |gs| && 0 <= i < |gs[k]| && 0 <= j < |gs[k][i]| ==>
      Offset(o, gs, w) <= gs[k][i][j]
  {
  }

  // ---------------------------------------------------------------------------
  // Scales and counts
  // ---------------------------------------------------------------------------

  /** math.ceil: the least integer not below r. */
  function Ceil(r: real): (c: int)
    ensures r <= c as real < r + 1.0
  {
    -((-r).Floor)
  }

  function MinNat(a: nat, b: nat): (m: nat)
    ensures m <= a && m <= b && (m == a || m == b)
  {
    if a <= b then a else b
  }

  /** h_scale = hsize / min(width, height) of the first grid. */
  function HScale(hsize: real, w: nat, h: nat): real
    requires MinNat(w, h) > 0
  {
    hsize / MinNat(w, h) as real
  }

  /** h_scale cells along the smaller side of the first grid span hsize. */
  lemma HScaleSpansSide(hsize: real, w: nat, h: nat)
    requires MinNat(w, h) > 0
    ensures HScale(hsize, w, h) * MinNat(w, h) as real == hsize
  {
  }

  // ---------------------------------------------------------------------------
  // The separator strip
  // ---------------------------------------------------------------------------

  /** Where a Python slice bound i lands in a sequence of length n. */
  function PyBound(i: int, n: nat): (b: nat)
    ensures b <= n
  {
    if i < 0 then (if i + n < 0 then 0 else i + n) else if i < n then i else n
  }

  /** Column c is covered by `[0:t]` or by `[-t:]`. */
  predicate IsTab(c: nat, t: int, w: nat) {
    c < PyBound(t, w) || PyBound(-t, w) <= c
  }

  /**
   * Which columns get tab_dep: for t > 0 the first and the last t; for t = 0
   * every column, because `-0:` is the whole row; for t < 0 the slices
   * `[0:t]` and `[-t:]` keep all but the last -t and drop the first -t.
   */
  lemma TabColumns(c: nat, t: int, w: nat)
    requires c < w
    ensures t > 0 ==> (IsTab(c, t, w) <==> c < t || w - t <= c)
    ensures t == 0 ==> IsTab(c, t, w)
    ensures t < 0 ==> (IsTab(c, t, w) <==> c < w + t || -t <= c)
  {
  }

  /** The strip row: sep_dep everywhere except the tab columns, which are tab_dep. */
  function SeparatorRow(w: nat, sepDep: real, tabDep: real, t: int): (r: seq<real>)
    ensures |r| == w
  {
    seq(w, c requires 0 <= c < w => if IsTab(c, t, w) then tabDep else sepDep)
  }

  /**
   * np.zeros(shape=(1, w)) + sep_dep, then the slice assignments of tab_dep
   * to `[0, 0:t]` and `[0, -t:]`.
   */
  method BuildSeparatorRow(w: nat, sepDep: real, tabDep: real, t: int) returns (row: seq<real>)
    ensures row == SeparatorRow(w, sepDep, tabDep, t)
  {
    var a := new real[w](_ => sepDep);
    var hi := PyBound(t, w);
    forall c | 0 <= c < hi {
      a[c] := tabDep;
    }
    var lo := PyBound(-t, w);
    forall c | lo <= c < w {
      a[c] := tabDep;
    }
    row := a[..];
  }

  /** np.repeat of a one-row array n times along axis 0. */
  function Repeat(row: seq<real>, n: nat): (g: Heightmap)
    ensures |g| == n && forall i :: 0 <= i < n ==> g[i] == row
  {
    seq(n, _ => row)
  }

  // ---------------------------------------------------------------------------
  // Interleaving and anchors
  // ---------------------------------------------------------------------------

  /** np.concatenate along axis 0. */
  function Concat(parts: seq<Heightmap>): Heightmap {
    if parts == [] then [] else Concat(parts[..|parts| - 1]) + parts[|parts| - 1]
  }

  lemma ConcatAppendPair(parts: seq<Heightmap>, a: Heightmap, b: Heightmap)
    ensures Concat(parts + [a, b]) == Concat(parts) + a + b
  {
    assert (parts + [a, b])[..|parts| + 1] == parts + [a];
    assert (parts + [a])[..|parts|] == parts;
  }

  /** The first grid, then for each further grid the strip followed by that grid. */
  function Interleaved(gs: seq<Heightmap>, sep: Heightmap): Heightmap
    requires |gs| >= 1
  {
    if |gs| == 1 then gs[0] else Interleaved(gs[..|gs| - 1], sep) + sep + gs[|gs| - 1]
  }

  /** heightmap_new = [heightmap[0]]; for hm in heightmap[1:]: heightmap_new += [separation_array, hm]; concatenate. */
  method InterleaveGrids(gs: seq<Heightmap>, sep: Heightmap) returns (block: Heightmap)
    requires |gs| >= 1
    ensures block == Interleaved(gs, sep)
  {
    var parts := [gs[0]];
    assert Concat(parts) == Concat([]) + gs[0];
    assert gs[..1] == [gs[0]];
    var k := 1;
    while k < |gs|
      invariant 1 <= k <= |gs|
      invariant Concat(parts) == Interleaved(gs[..k], sep)
    {
      ConcatAppendPair(parts, sep, gs[k]);
      parts := parts + [sep, gs[k]];
      assert gs[..k + 1][..k] == gs[..k];
      k := k + 1;
    }
    assert gs[..k] == gs;
    block := Concat(parts);
  }

  /** All grids have h rows of width w. */
  predicate Uniform(gs: seq<Heightmap>, h: nat, w: nat) {
    forall k :: 0 <= k < |gs| ==> |gs[k]| == h && IsGrid(gs[k], w)
  }

  /** Where grid k starts in the interleaved block: after k grids of h rows and k strips of s rows. */
  function BlockStart(k: nat, h: nat, s: nat): nat {
    if k == 0 then 0 else BlockStart(k - 1, h, s) + h + s
  }

  lemma {:induction false} BlockStartClosed(k: nat, h: nat, s: nat)
    ensures BlockStart(k, h, s) == k * (h + s)
  {
    if k > 0 {
      BlockStartClosed(k - 1, h, s);
      assert (k - 1) * (h + s) + h + s == k * (h + s);
    }
  }

  /** Grid k of the interleaved block, and the strip after it unless it is the last grid. */
  predicate SlotHolds(b: Heightmap, gs: seq<Heightmap>, sep: Heightmap, h: nat, k: nat)
    requires k < |gs|
  {
    var st := BlockStart(k, h, |sep|);
    st + h <= |b| && b[st..st + h] == gs[k] &&
    (k < |gs| - 1 ==> st + h + |sep| <= |b| && b[st + h..st + h + |sep|] == sep)
  }

  /**
   * The interleaved block has n*h + (n-1)*s rows of width w: grid k occupies
   * the h rows from k*(h+s) on, and after every grid but the last come the
   * s rows of the strip.
   */
  lemma InterleavedLayout(gs: seq<Heightmap>, sep: Heightmap, h: nat, w: nat)
    requires |gs| >= 1 && Uniform(gs, h, w) && IsGrid(sep, w)
    ensures var b, s := Interleaved(gs, sep), |sep|;
      |b| == |gs| * h + (|gs| - 1) * s && IsGrid(b, w) &&
      forall k :: 0 <= k < |gs| ==> BlockStart(k, h, s) == k * (h + s) && SlotHolds(b, gs, sep, h, k)
  {
    var s := |sep|;
    var n := |gs|;
    InterleavedRows(gs, sep, h, w);
    BlockStartClosed(n, h, s);
    assert n * (h + s) == n * h + (n - 1) * s + s;
    forall k | 0 <= k < n ensures BlockStart(k, h, s) == k * (h + s) {
      BlockStartClosed(k, h, s);
    }
  }

  /** The same layout, stated through BlockStart only. */
  lemma {:induction false} InterleavedRows(gs: seq<Heightmap>, sep: Heightmap, h: nat, w: nat)
    requires |gs| >= 1 && Uniform(gs, h, w) && IsGrid(sep, w)
    ensures |Interleaved(gs, sep)| + |sep| == BlockStart(|gs|, h, |sep|)
    ensures IsGrid(Interleaved(gs, sep), w)
    ensures forall k :: 0 <= k < |gs| ==> SlotHolds(Interleaved(gs, sep), gs, sep, h, k)
  {
    var s := |sep|;
    var n := |gs|;
    var b := Interleaved(gs, sep);
    if n == 1 {
      assert BlockStart(1, h, s) == h + s;
      assert SlotHolds(b, gs, sep, h, 0);
    } else {
      var pre := gs[..n - 1];
      var p := Interleaved(pre, sep);
      InterleavedRows(pre, sep, h, w);
      assert b == p + sep + gs[n - 1];
      var last := BlockStart(n - 1, h, s);
      assert last == |p| + s;
      forall k | 0 <= k < n ensures SlotHolds(b, gs, sep, h, k) {
        if k < n - 1 {
          SlotExtends(p, gs, sep, h, k);
        } else {
          assert b[|p| + s..|p| + s + h] == gs[n - 1];
        }
      }
      GridConcat(p + sep, gs[n - 1], w);
    }
  }

  /** Appending a strip and one more grid leaves the earlier slots where they were. */
  lemma SlotExtends(p: Heightmap, gs: seq<Heightmap>, sep: Heightmap, h: nat, k: nat)
    requires k < |gs| - 1 && |p| + |sep| == BlockStart(|gs| - 1, h, |sep|)
    requires SlotHolds(p, gs[..|gs| - 1], sep, h, k)
    ensures SlotHolds(p + sep + gs[|gs| - 1], gs, sep, h, k)
  {
    var b, s, n := p + sep + gs[|gs| - 1], |sep|, |gs|;
    var st := BlockStart(k, h, s);
    var rest := sep + gs[|gs| - 1];
    assert b == p + rest;
    assert gs[..n - 1][k] == gs[k];
    PrefixSlice(p, rest, st, st + h);
    if k < n - 2 {
      PrefixSlice(p, rest, st + h, st + h + s);
    } else {
      assert BlockStart(k + 1, h, s) == st + h + s;
      assert (p + rest)[|p|..|p| + s] == sep;
    }
  }

  /** A slice inside the first part of a concatenation. */
  lemma PrefixSlice<T>(p: seq<T>, q: seq<T>, lo: nat, hi: nat)
    requires lo <= hi <= |p|
    ensures (p + q)[lo..hi] == p[lo..hi]
  {
  }

  lemma GridConcat(a: Heightmap, b: Heightmap, w: nat)
    requires IsGrid(a, w) && IsGrid(b, w)
    ensures IsGrid(a + b, w)
  {
    forall i | 0 <= i < |a + b| ensures |(a + b)[i]| == w {
      if i >= |a| {
        assert (a + b)[i] == b[i - |a|];
      }
    }
  }

  /** A row of w cells, all at height z. */
  function Level(w: nat, z: real): (r: seq<real>)
    ensures |r| == w && forall j :: 0 <= j < w ==> r[j] == z
  {
    seq(w, _ => z)
  }

  /**
   * np.concatenate((pad, sep, block, sep, pad)) with a pad of a rows of width
   * w, every cell of which is the block's maximum.
   */
  function Anchored(block: Heightmap, sep: Heightmap, a: nat, w: nat): Heightmap
    requires |block| > 0 && w > 0 && IsGrid(block, w)
  {
    assert block[0][0] in Cells(block);
    var pad := Repeat(Level(w, Max(Cells(block))), a);
    pad + sep + block + sep + pad
  }

  /**
   * The anchored grid has |block| + 2a + 2s rows of width w: the a first and
   * the a last rows are pads whose every cell is the largest cell of the
   * block (no block cell is larger and one is equal), each followed or
   * preceded by the strip, and the block in the middle.
   */
  lemma AnchoredLayout(block: Heightmap, sep: Heightmap, a: nat, w: nat)
    requires |block| > 0 && w > 0 && IsGrid(block, w) && IsGrid(sep, w)
    ensures var g, s, m := Anchored(block, sep, a, w), |sep|, |block|;
      |g| == m + 2 * a + 2 * s && IsGrid(g, w) &&
      g[a..a + s] == sep && g[a + s..a + s + m] == block && g[a + s + m..a + 2 * s + m] == sep &&
      exists top :: top in Cells(block) && (forall z :: z in Cells(block) ==> z <= top) &&
        g[..a] == g[a + 2 * s + m..] == Repeat(Level(w, top), a)
  {
    var g, s, m := Anchored(block, sep, a, w), |sep|, |block|;
    assert block[0][0] in Cells(block);
    var top := Max(Cells(block));
    var pad := Repeat(Level(w, top), a);
    assert IsGrid(pad, w);
    assert g == pad + sep + block + sep + pad;
    GridConcat(pad, sep, w);
    GridConcat(pad + sep, block, w);
    GridConcat(pad + sep + block, sep, w);
    GridConcat(pad + sep + block + sep, pad, w);
    FiveParts(pad, sep, block);
  }

  /** Where the five parts of p + s + b + s + p lie. */
  lemma FiveParts<T>(p: seq<T>, s: seq<T>, b: seq<T>)
    ensures var g, a, k, m := p + s + b + s + p, |p|, |s|, |b|;
      |g| == m + 2 * a + 2 * k &&
      g[..a] == p && g[a..a + k] == s && g[a + k..a + k + m] == b &&
      g[a + k + m..a + 2 * k + m] == s && g[a + 2 * k + m..] == p
  {
    var g, a, k, m := p + s + b + s + p, |p|, |s|, |b|;
    assert g[..a] == p;
    assert g[a..a + k] == s;
    assert g[a + k..a + k + m] == b;
    assert g[a + k + m..a + 2 * k + m] == s;
    assert g[a + 2 * k + m..] == p;
  }
}
