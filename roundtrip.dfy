/**
 * Exporting a mesh and importing the file back (io.py:32-212 against
 * io.py:215-296): what export_tri writes is a canonical file
 * (`FileRoundTrip.Canonical`), so import_tri reads every section back, and
 * the mesh it builds has the exported vertices, the polygons regrouped
 * triangles first, the UV of every corner, the relative morphs as written and
 * the absolute shapes' positions.
 */
module RoundTrip {
  import opened Wrappers
  import opened Bytes
  import opened Geometry
  import opened Scale
  import opened TriFormat
  import opened ExportSpec
  import opened ImportSpec
  import opened FileRoundTrip

  // ---------------------------------------------------------------- what a successful export established

  /**
   * The checks export_tri passed, the per-vertex table it built (one UV for
   * every vertex, the UV of each of its loops) and a mesh with vertices when
   * there are diff morphs.
   */
  predicate Exported(m: MeshData, fmt: UVFormat, table: seq<Option<UV>>, s: Scan)
  {
    && PassedChecks(m, fmt, s)
    && (fmt == UVVertex ==>
          && AllSome(table) && |table| == |m.vertices|
          && forall l :: 0 <= l < |m.loopVertex| ==> table[m.loopVertex[l]] == Some(ExportSpec.LoopUVs(m)[l]))
    && (s.rel != [] ==> |m.vertices| > 0)
  }

  /** A successful export wrote the image of ExportFile from the mesh's table and scan. */
  lemma {:induction false} EncodeExported(m: MeshData, fmt: UVFormat, fl: Floats)
    requires WellFormed(m) && Encode(m, fmt, fl).Ok?
    ensures VertexTable(m, fmt).Ok? && ScanOf(m).Ok?
    ensures Exported(m, fmt, VertexTable(m, fmt).value, ScanOf(m).value)
    ensures FileFits(ExportFile(m, fmt, fl, VertexTable(m, fmt).value, ScanOf(m).value))
    ensures Encode(m, fmt, fl).value == Layout(ExportFile(m, fmt, fl, VertexTable(m, fmt).value, ScanOf(m).value))
  {
    var table := VertexTable(m, fmt).value;
    var s := ScanOf(m).value;
    ScanOfSpecified(m);
    assert PassedChecks(m, fmt, s);
    assert Encode(m, fmt, fl) == WriteResult(m, fmt, fl, table, s);
    if fmt == UVVertex {
      VertexTableOf(m);
    }
    ExportFileFits(m, fmt, fl, table, s);
  }

  /** The per-vertex table holds, for every loop, that loop's UV. */
  lemma {:induction false} VertexTableOf(m: MeshData)
    requires WellFormed(m) && m.uvLayer.Some? && VertexTable(m, UVVertex).Ok?
    ensures |VertexTable(m, UVVertex).value| == |m.vertices|
    ensures forall l :: 0 <= l < |m.loopVertex| ==>
      VertexTable(m, UVVertex).value[m.loopVertex[l]] == Some(ExportSpec.LoopUVs(m)[l])
  {
    var lv := m.loopVertex;
    VertexUVCorrect(|lv|, |m.vertices|, lv, m.uvLayer.value);
    assert lv[..|lv|] == lv;
  }

  // ---------------------------------------------------------------- the written file is canonical

  /** The polygons as import lays them out: the triangles, then the quads. */
  function Regrouped(ps: seq<Polygon>): (r: seq<Polygon>)
    requires AllTrisOrQuads(ps)
    ensures |r| == |ps|
    ensures forall i :: 0 <= i < |r| ==> r[i] in ps
    ensures forall i :: 0 <= i < |r| ==> (|r[i].verts| == 3 <==> i < |Tris(ps)|)
    ensures forall i :: 0 <= i < |r| ==> (|r[i].verts| == 4 <==> i >= |Tris(ps)|)
  {
    PartitionCount(ps);
    PartitionMembers(ps);
    var r := Tris(ps) + Quads(ps);
    assert forall i :: 0 <= i < |Tris(ps)| ==> r[i] == Tris(ps)[i] && r[i] in Tris(ps);
    assert forall i :: |Tris(ps)| <= i < |r| ==> r[i] == Quads(ps)[i - |Tris(ps)|] && r[i] in Quads(ps);
    r
  }

  lemma {:induction false} FaceVertsConcat(a: seq<Polygon>, b: seq<Polygon>)
    ensures FaceVerts(a) + FaceVerts(b) == FaceVerts(a + b)
  {
  }

  /** Triangles are written with three corners, quads with four, and every corner is a vertex. */
  lemma {:induction false} FacesCanonical(m: MeshData)
    requires WellFormed(m) && AllTrisOrQuads(m.polygons)
    ensures Widths(FaceVerts(Tris(m.polygons)), 3) && Widths(FaceVerts(Quads(m.polygons)), 4)
    ensures FaceVerts(Tris(m.polygons)) + FaceVerts(Quads(m.polygons)) == FaceVerts(Regrouped(m.polygons))
    ensures Below(FaceVerts(Regrouped(m.polygons)), |m.vertices|)
  {
    var ps := m.polygons;
    var r := Regrouped(ps);
    FaceVertsConcat(Tris(ps), Quads(ps));
    assert forall i :: 0 <= i < |Tris(ps)| ==> Tris(ps)[i] == r[i];
    assert forall i :: 0 <= i < |Quads(ps)| ==> Quads(ps)[i] == r[|Tris(ps)| + i];
    forall i, k | 0 <= i < |r| && 0 <= k < |r[i].verts|
      ensures 0 <= r[i].verts[k] < |m.vertices|
    {
      var j :| 0 <= j < |ps| && ps[j] == r[i];
      assert PolygonWellFormed(ps[j], m.loopVertex);
    }
  }

  lemma {:induction false} DedupNonEmpty(s: seq<UV>)
    requires |s| > 0
    ensures |Dedup(s)| > 0
  {
    DedupCorrect(s);
    assert s[0] in Dedup(s);
  }

  /** A table of corner indices has a row of each polygon's corner count, indices below X. */
  lemma {:induction false} CornersCanonical(ps: seq<Polygon>, lv: seq<nat>, li: seq<nat>, X: nat, w: nat)
    requires forall i :: 0 <= i < |ps| ==> PolygonWellFormed(ps[i], lv) && |ps[i].verts| == w
    requires |li| == |lv| && forall l :: 0 <= l < |li| ==> li[l] < X
    ensures LoopIndicesBelow(ps, |li|)
    ensures Widths(CornerUVIndices(ps, li), w) && Below(CornerUVIndices(ps, li), X)
  {
    assert LoopIndicesBelow(ps, |li|) by {
      forall i, k | 0 <= i < |ps| && 0 <= k < |ps[i].loops| ensures ps[i].loops[k] < |li| {
        assert PolygonWellFormed(ps[i], lv);
      }
    }
  }

  lemma {:induction false} GroupsWellFormed(m: MeshData)
    requires WellFormed(m) && AllTrisOrQuads(m.polygons)
    ensures forall i :: 0 <= i < |Tris(m.polygons)| ==>
      PolygonWellFormed(Tris(m.polygons)[i], m.loopVertex) && |Tris(m.polygons)[i].verts| == 3
    ensures forall i :: 0 <= i < |Quads(m.polygons)| ==>
      PolygonWellFormed(Quads(m.polygons)[i], m.loopVertex) && |Quads(m.polygons)[i].verts| == 4
  {
    var ps := m.polygons;
    PartitionMembers(ps);
    forall i | 0 <= i < |Tris(ps)| ensures PolygonWellFormed(Tris(ps)[i], m.loopVertex) {
      assert Tris(ps)[i] in Tris(ps);
      var j :| 0 <= j < |ps| && ps[j] == Tris(ps)[i];
    }
    forall i | 0 <= i < |Quads(ps)| ensures PolygonWellFormed(Quads(ps)[i], m.loopVertex) {
      assert Quads(ps)[i] in Quads(ps);
      var j :| 0 <= j < |ps| && ps[j] == Quads(ps)[i];
    }
  }

  /** The UV section agrees with the header; per-face mode needs at least one loop. */
  lemma {:induction false} UVSectionCanonical(m: MeshData, fmt: UVFormat, fl: Floats, table: seq<Option<UV>>, s: Scan)
    requires Exported(m, fmt, table, s)
    requires fmt == UVFace ==> |m.loopVertex| > 0
    ensures UVCanonical(ExportFile(m, fmt, fl, table, s))
  {
    if fmt == UVFace {
      var ps := m.polygons;
      var uv := ExportSpec.LoopUVs(m);
      var li := UVIndices(uv);
      DedupNonEmpty(uv);
      GroupsWellFormed(m);
      CornersCanonical(Tris(ps), m.loopVertex, li, |Dedup(uv)|, 3);
      CornersCanonical(Quads(ps), m.loopVertex, li, |Dedup(uv)|, 4);
      var ti := CornerUVIndices(Tris(ps), li);
      var qi := CornerUVIndices(Quads(ps), li);
      assert UVSectionOf(m, fmt, table) == FaceUVs(Dedup(uv), ti, qi);
      assert Below(ti + qi, |Dedup(uv)|) by {
        forall i, k | 0 <= i < |ti + qi| && 0 <= k < |(ti + qi)[i]| ensures 0 <= (ti + qi)[i][k] < |Dedup(uv)| {
          if i < |ti| { assert (ti + qi)[i] == ti[i]; } else { assert (ti + qi)[i] == qi[i - |ti|]; }
        }
      }
    }
  }

  /** Each diff morph has one int16 triple per vertex. */
  lemma {:induction false} DiffsCanonical(m: MeshData, fl: Floats, s: Scan)
    requires WellFormed(m) && (s.rel != [] ==> |m.vertices| > 0)
    requires m.shapeKeys.None? ==> s == Scan([], [], [], [])
    requires m.shapeKeys.Some? ==> ScanSpecified(m.shapeKeys.value, |m.vertices|, |m.shapeKeys.value.blocks|, s)
    requires DiffShapes(s.rel, RefOf(m))
    ensures var ds := DiffMorphsOf(s.rel, RefOf(m), fl);
      forall i :: 0 <= i < |ds| ==> |ds[i].deltas| == |m.vertices| && Widths(ds[i].deltas, 3)
  {
  }

  lemma {:induction false} SumIndicesSnoc(ss: seq<StatMorph>)
    requires ss != []
    ensures SumIndices(ss) == SumIndices(ss[..|ss| - 1]) + |ss[|ss| - 1].indices|
    decreases |ss|
  {
    if |ss| > 1 {
      assert ss[1..][..|ss[1..]| - 1] == ss[..|ss| - 1][1..];
      SumIndicesSnoc(ss[1..]);
    }
  }

  /** The stat morphs use up the pool: their counts add up to its length. */
  lemma {:induction false} SumIndicesOf(ss: seq<StatMorph>, vs: seq<seq<nat>>)
    requires |ss| == |vs| && forall j :: 0 <= j < |ss| ==> ss[j].indices == vs[j]
    ensures SumIndices(ss) == SumLengths(vs)
    decreases |ss|
  {
    if ss != [] {
      var n := |ss| - 1;
      SumIndicesSnoc(ss);
      SumIndicesOf(ss[..n], vs[..n]);
    }
  }

  lemma {:induction false} StatsCanonical(m: MeshData, s: Scan)
    requires WellFormed(m)
    requires m.shapeKeys.None? ==> s == Scan([], [], [], [])
    requires m.shapeKeys.Some? ==> ScanSpecified(m.shapeKeys.value, |m.vertices|, |m.shapeKeys.value.blocks|, s)
    ensures StatsBelow(StatMorphsOf(s), |m.vertices|)
    ensures SumIndices(StatMorphsOf(s)) == |s.pool|
  {
    var ss := StatMorphsOf(s);
    SumIndicesOf(ss, s.absVerts);
    PoolLength(s.abs, s.absVerts);
  }

  /** What export_tri writes is a canonical file. */
  lemma {:induction false} ExportCanonical(m: MeshData, fmt: UVFormat, fl: Floats, table: seq<Option<UV>>, s: Scan)
    requires Exported(m, fmt, table, s)
    requires fmt == UVFace ==> |m.loopVertex| > 0
    ensures Canonical(ExportFile(m, fmt, fl, table, s))
  {
    var f := ExportFile(m, fmt, fl, table, s);
    ExportFileFits(m, fmt, fl, table, s);
    FacesCanonical(m);
    UVSectionCanonical(m, fmt, fl, table, s);
    MorphsFit(m, s, fl);
    DiffsCanonical(m, fl, s);
    StatsCanonical(m, s);
    assert f.tris + f.quads == FaceVerts(Regrouped(m.polygons));
  }

  // ---------------------------------------------------------------- the mesh import builds, in the mesh's terms

  /** The key blocks other than the reference, in order; none without shape keys. */
  function OtherKeys(m: MeshData): (ks: seq<ShapeKey>)
    requires WellFormed(m)
    ensures m.shapeKeys.Some? ==> |ks| == |m.shapeKeys.value.blocks| - 1
  {
    if m.shapeKeys.Some? then
      OthersLength(m.shapeKeys.value);
      Others(m.shapeKeys.value, |m.shapeKeys.value.blocks|)
    else []
  }

  /**
   * Every corner k of every regrouped polygon j keeps its UV: the loop
   * import creates for it (loop_start of polygon j, plus k) carries the UV
   * the mesh's loop had.
   */
  ghost predicate UVsRestored(ps: seq<Polygon>, uv: seq<UV>, faces: seq<seq<int>>, layer: seq<UV>)
  {
    && |faces| == |ps| && |layer| == |Loops(faces)|
    && forall j, k {:trigger ps[j].loops[k]} :: 0 <= j < |ps| && 0 <= k < |ps[j].loops| ==>
         && ps[j].loops[k] < |uv| && k < |faces[j]| && LoopStart(faces, j) + k < |layer|
         && layer[LoopStart(faces, j) + k] == uv[ps[j].loops[k]]
  }

  /**
   * An absolute shape as import rebuilds it: named with its marker and the
   * label's NUL, at the shape's position wherever that differed from the
   * reference, and at the basis position elsewhere.
   */
  ghost predicate ShapeRestored(vertices: seq<Pos>, ref: seq<Pos>, a: ShapeKey, k: ShapeKey)
  {
    && k.name == a.name + [0]
    && |k.data| == |vertices| && |a.data| == |vertices| && |ref| == |vertices|
    && forall v :: 0 <= v < |vertices| ==> k.data[v] == if a.data[v] != ref[v] then a.data[v] else vertices[v]
  }

  /** What import_tri builds from the file export_tri wrote for m. */
  ghost predicate Restored(m: MeshData, fmt: UVFormat, fl: Floats, r: Imported)
    requires WellFormed(m) && AllTrisOrQuads(m.polygons)
  {
    var ps := Regrouped(m.polygons);
    var rel := Unstarred(OtherKeys(m));
    var abs := Starred(OtherKeys(m));
    && !r.labelsDiscarded
    && r.vertices == m.vertices
    && r.faces == FaceVerts(ps)
    && (r.uvLayer.Some? <==> fmt != UVNone)
    && (r.uvLayer.Some? ==> UVsRestored(ps, ExportSpec.LoopUVs(m), r.faces, r.uvLayer.value))
    && (r.hasBasis <==> |OtherKeys(m)| > 0)
    && DiffShapes(rel, RefOf(m)) && r.diffs == DiffMorphsOf(rel, RefOf(m), fl)
    && |r.stats| == |abs|
    && forall j :: 0 <= j < |abs| ==> ShapeRestored(m.vertices, RefOf(m), abs[j], r.stats[j])
  }

  // ---------------------------------------------------------------- corners

  /** The loop of corner k of face j reads the UV its index record names. */
  lemma {:induction false} CornerPick(uvs: seq<UV>, ix: seq<seq<int>>, faces: seq<seq<int>>, j: nat, k: nat)
    requires SameShape(faces, ix) && Below(ix, |uvs|) && j < |faces| && k < |faces[j]|
    ensures LoopStart(faces, j) + k < |FileRoundTrip.LoopUVs(uvs, ix)|
    ensures FileRoundTrip.LoopUVs(uvs, ix)[LoopStart(faces, j) + k] == uvs[ix[j][k]]
  {
    LoopStartSameShape(faces, ix, j);
    LoopsOfFace(ix, j);
    LoopsSameShape(faces, ix);
    assert Loops(ix)[LoopStart(ix, j) + k] == ix[j][k];
  }

  lemma {:induction false} VertexCorner(m: MeshData, ps: seq<Polygon>, j: nat, k: nat)
    requires WellFormed(m) && AllTrisOrQuads(m.polygons) && ps == Regrouped(m.polygons)
    requires j < |ps| && k < |ps[j].loops|
    ensures k < |ps[j].verts| && ps[j].loops[k] < |m.loopVertex| && ps[j].verts[k] == m.loopVertex[ps[j].loops[k]]
  {
    var i :| 0 <= i < |m.polygons| && m.polygons[i] == ps[j];
    assert PolygonWellFormed(m.polygons[i], m.loopVertex);
  }

  /** Corner by corner agreement of the index records with the mesh's loops restores every corner's UV. */
  lemma {:induction false} CornersRestored(ps: seq<Polygon>, uv: seq<UV>, faces: seq<seq<int>>, ix: seq<seq<int>>, uvs: seq<UV>)
    requires SameShape(faces, ix) && Below(ix, |uvs|) && |faces| == |ps|
    requires forall j, k {:trigger ps[j].loops[k]} :: 0 <= j < |ps| && 0 <= k < |ps[j].loops| ==>
      ps[j].loops[k] < |uv| && k < |faces[j]| && uvs[ix[j][k]] == uv[ps[j].loops[k]]
    ensures UVsRestored(ps, uv, faces, FileRoundTrip.LoopUVs(uvs, ix))
  {
    LoopsSameShape(faces, ix);
    var layer := FileRoundTrip.LoopUVs(uvs, ix);
    forall j, k | 0 <= j < |ps| && 0 <= k < |ps[j].loops|
      ensures && ps[j].loops[k] < |uv| && k < |faces[j]| && LoopStart(faces, j) + k < |layer|
              && layer[LoopStart(faces, j) + k] == uv[ps[j].loops[k]]
    {
      assert k < |faces[j]| && uvs[ix[j][k]] == uv[ps[j].loops[k]];
      CornerPick(uvs, ix, faces, j, k);
    }
  }

  /** Per vertex, the table entry of a corner's vertex is the UV of the corner's loop. */
  lemma {:induction false} VertexCorners(m: MeshData, table: seq<Option<UV>>, ps: seq<Polygon>)
    requires WellFormed(m) && AllTrisOrQuads(m.polygons) && ps == Regrouped(m.polygons)
    requires AllSome(table) && |table| == |m.vertices| && m.uvLayer.Some?
    requires forall l :: 0 <= l < |m.loopVertex| ==> table[m.loopVertex[l]] == Some(ExportSpec.LoopUVs(m)[l])
    ensures Below(FaceVerts(ps), |Values(table)|)
    ensures forall j, k {:trigger ps[j].loops[k]} :: 0 <= j < |ps| && 0 <= k < |ps[j].loops| ==>
      ps[j].loops[k] < |ExportSpec.LoopUVs(m)| && k < |FaceVerts(ps)[j]|
      && Values(table)[FaceVerts(ps)[j][k]] == ExportSpec.LoopUVs(m)[ps[j].loops[k]]
  {
    FacesCanonical(m);
    forall j, k | 0 <= j < |ps| && 0 <= k < |ps[j].loops|
      ensures ps[j].loops[k] < |ExportSpec.LoopUVs(m)| && k < |FaceVerts(ps)[j]|
      ensures Values(table)[FaceVerts(ps)[j][k]] == ExportSpec.LoopUVs(m)[ps[j].loops[k]]
    {
      VertexCorner(m, ps, j, k);
      var l := ps[j].loops[k];
      assert table[m.loopVertex[l]] == Some(ExportSpec.LoopUVs(m)[l]);
    }
  }

  /** Per-vertex mode: the vertex of every corner carries the UV of that corner's loop. */
  lemma {:induction false} VertexUVsRestored(m: MeshData, fmt: UVFormat, fl: Floats, table: seq<Option<UV>>, s: Scan)
    requires Exported(m, fmt, table, s) && fmt == UVVertex
    requires Canonical(ExportFile(m, fmt, fl, table, s))
    ensures var f := ExportFile(m, fmt, fl, table, s);
      LayerOf(f).Some? && UVsRestored(Regrouped(m.polygons), ExportSpec.LoopUVs(m), f.tris + f.quads, LayerOf(f).value)
  {
    var f := ExportFile(m, fmt, fl, table, s);
    var ps := Regrouped(m.polygons);
    var faces := FaceVerts(ps);
    FacesCanonical(m);
    VertexCorners(m, table, ps);
    CornersRestored(ps, ExportSpec.LoopUVs(m), faces, faces, Values(table));
    assert f.tris + f.quads == faces;
    assert f.uv == VertexUVs(Values(table));
  }

  /** The per-face index table, triangles then quads, is the corner indices of the regrouped polygons. */
  lemma {:induction false} CornerIndicesConcat(a: seq<Polygon>, b: seq<Polygon>, li: seq<nat>)
    requires LoopIndicesBelow(a, |li|) && LoopIndicesBelow(b, |li|)
    ensures LoopIndicesBelow(a + b, |li|)
    ensures CornerUVIndices(a, li) + CornerUVIndices(b, li) == CornerUVIndices(a + b, li)
  {
    assert LoopIndicesBelow(a + b, |li|) by {
      forall i, k | 0 <= i < |a + b| && 0 <= k < |(a + b)[i].loops| ensures (a + b)[i].loops[k] < |li| {
        if i < |a| { assert (a + b)[i] == a[i]; } else { assert (a + b)[i] == b[i - |a|]; }
      }
    }
  }

  /** Per face, a corner's index names the distinct UV equal to its loop's. */
  lemma {:induction false} FaceCorners(m: MeshData, ps: seq<Polygon>, li: seq<nat>)
    requires WellFormed(m) && AllTrisOrQuads(m.polygons) && ps == Regrouped(m.polygons)
    requires li == UVIndices(ExportSpec.LoopUVs(m)) && m.uvLayer.Some?
    ensures LoopIndicesBelow(ps, |li|)
    ensures SameShape(FaceVerts(ps), CornerUVIndices(ps, li))
    ensures Below(CornerUVIndices(ps, li), |Dedup(ExportSpec.LoopUVs(m))|)
    ensures forall j, k {:trigger ps[j].loops[k]} :: 0 <= j < |ps| && 0 <= k < |ps[j].loops| ==>
      ps[j].loops[k] < |ExportSpec.LoopUVs(m)| && k < |FaceVerts(ps)[j]|
      && Dedup(ExportSpec.LoopUVs(m))[CornerUVIndices(ps, li)[j][k]] == ExportSpec.LoopUVs(m)[ps[j].loops[k]]
  {
    assert LoopIndicesBelow(ps, |li|) by {
      forall j, k | 0 <= j < |ps| && 0 <= k < |ps[j].loops| ensures ps[j].loops[k] < |li| {
        VertexCorner(m, ps, j, k);
      }
    }
    forall j, k | 0 <= j < |ps| && 0 <= k < |ps[j].loops|
      ensures ps[j].loops[k] < |ExportSpec.LoopUVs(m)| && k < |FaceVerts(ps)[j]|
    {
      VertexCorner(m, ps, j, k);
    }
    forall j | 0 <= j < |ps| ensures |FaceVerts(ps)[j]| == |CornerUVIndices(ps, li)[j]| {
      assert PolygonWellFormed(ps[j], m.loopVertex) by {
        var i :| 0 <= i < |m.polygons| && m.polygons[i] == ps[j];
      }
    }
  }

  /** Per-face mode: every corner's index names the distinct UV equal to its loop's. */
  lemma {:induction false} FaceUVsRestored(m: MeshData, fmt: UVFormat, fl: Floats, table: seq<Option<UV>>, s: Scan)
    requires Exported(m, fmt, table, s) && fmt == UVFace && |m.loopVertex| > 0
    requires Canonical(ExportFile(m, fmt, fl, table, s))
    ensures var f := ExportFile(m, fmt, fl, table, s);
      LayerOf(f).Some? && UVsRestored(Regrouped(m.polygons), ExportSpec.LoopUVs(m), f.tris + f.quads, LayerOf(f).value)
  {
    var f := ExportFile(m, fmt, fl, table, s);
    var ps := Regrouped(m.polygons);
    var uv := ExportSpec.LoopUVs(m);
    var li := UVIndices(uv);
    FacesCanonical(m);
    FaceCorners(m, ps, li);
    GroupLoopIndices(m.polygons, |li|);
    CornerIndicesConcat(Tris(m.polygons), Quads(m.polygons), li);
    var ix := CornerUVIndices(ps, li);
    CornersRestored(ps, uv, FaceVerts(ps), ix, Dedup(uv));
    assert f.tris + f.quads == FaceVerts(ps);
    assert f.uv == FaceUVs(Dedup(uv), CornerUVIndices(Tris(m.polygons), li), CornerUVIndices(Quads(m.polygons), li));
  }

  // ---------------------------------------------------------------- absolute shapes

  /** The shape after the assignments: the value of a listed vertex, the old position elsewhere. */
  lemma {:induction false} AssignAt(shape: seq<Pos>, idx: seq<int>, vals: seq<Pos>, v: nat)
    requires |idx| == |vals| && forall j :: 0 <= j < |idx| ==> 0 <= idx[j] < |shape|
    requires forall i, j :: 0 <= i < j < |idx| ==> idx[i] < idx[j]
    requires v < |shape|
    ensures v !in idx ==> Assign(shape, idx, vals)[v] == shape[v]
    ensures forall j :: 0 <= j < |idx| && idx[j] == v ==> Assign(shape, idx, vals)[v] == vals[j]
    decreases |idx|
  {
    if idx != [] {
      var next := shape[idx[0] := vals[0]];
      assert forall j :: 0 <= j < |idx[1..]| ==> idx[1..][j] == idx[j + 1];
      AssignAt(next, idx[1..], vals[1..], v);
      if v == idx[0] {
        assert v !in idx[1..];
      } else {
        assert v in idx ==> v in idx[1..];
        assert forall j :: 1 <= j < |idx| && idx[j] == v ==> idx[1..][j - 1] == v && vals[1..][j - 1] == vals[j];
      }
    }
  }

  /**
   * Shape j of the rebuilt list takes its targets from the pool after those
   * of the shapes before it, from offset K on.
   */
  lemma {:induction false} StatKeysAt(vertices: seq<Pos>, pool: seq<Pos>, ss: seq<StatMorph>, kpos: nat, j: nat, K: nat)
    requires StatsBelow(ss, |vertices|) && kpos + SumIndices(ss) <= |pool| && j < |ss|
    requires K == kpos + SumIndices(ss[..j])
    ensures K + |ss[j].indices| <= |pool|
    ensures StatKeys(vertices, pool, ss, kpos)[j]
      == ShapeKey(GetAbsMorphName(ss[j].text), Assign(vertices, ss[j].indices, pool[K .. K + |ss[j].indices|]))
    decreases j
  {
    StatKeysHead(vertices, pool, ss, kpos);
    if j == 0 {
      assert ss[..0] == [];
    } else {
      var n := |ss[0].indices|;
      SumIndicesPrefix(ss, j);
      StatKeysAt(vertices, pool, ss[1..], kpos + n, j - 1, K);
      assert ss[1..][j - 1] == ss[j];
    }
  }

  lemma {:induction false} SumIndicesPrefix(ss: seq<StatMorph>, j: nat)
    requires 0 < j <= |ss|
    ensures SumIndices(ss[..j]) == |ss[0].indices| + SumIndices(ss[1..][..j - 1])
  {
    assert ss[..j][1..] == ss[1..][..j - 1];
    assert ss[..j][0] == ss[0];
  }

  /** The scan's lists are the other blocks split by the marker. */
  lemma {:induction false} ScanOthers(m: MeshData, s: Scan)
    requires WellFormed(m)
    requires m.shapeKeys.None? ==> s == Scan([], [], [], [])
    requires m.shapeKeys.Some? ==> ScanSpecified(m.shapeKeys.value, |m.vertices|, |m.shapeKeys.value.blocks|, s)
    ensures s.rel == Unstarred(OtherKeys(m)) && s.abs == Starred(OtherKeys(m))
    ensures |s.rel| + |s.abs| == |OtherKeys(m)|
  {
    StarPartition(OtherKeys(m));
  }

  /** The pooled targets of stat morph j are its shape's positions at its listed vertices. */
  lemma {:induction false} PoolSlice(abs: seq<ShapeKey>, absVerts: seq<seq<nat>>, j: nat)
    requires |abs| == |absVerts|
    requires forall n, i :: 0 <= n < |abs| && 0 <= i < |absVerts[n]| ==> absVerts[n][i] < |abs[n].data|
    requires j < |abs|
    ensures SumLengths(absVerts[..j]) + |absVerts[j]| <= |Pool(abs, absVerts)|
    ensures Pool(abs, absVerts)[SumLengths(absVerts[..j]) .. SumLengths(absVerts[..j]) + |absVerts[j]|]
      == Targets(abs[j].data, absVerts[j])
  {
    PoolLength(abs, absVerts);
    SumLengthsPrefix(absVerts, j, |absVerts|);
    assert absVerts[..|absVerts|] == absVerts;
    var K := SumLengths(absVerts[..j]);
    forall i | 0 <= i < |absVerts[j]|
      ensures Pool(abs, absVerts)[K + i] == abs[j].data[absVerts[j][i]]
    {
      PoolLayout(abs, absVerts, j, i);
    }
  }

  /** Moving the listed vertices to the shape's positions there: the shape where listed, the basis elsewhere. */
  lemma {:induction false} AssignTargets(vertices: seq<Pos>, shape: seq<Pos>, idx: seq<nat>, v: nat)
    requires |shape| == |vertices| && StrictlyIncreasing(idx)
    requires forall i :: 0 <= i < |idx| ==> idx[i] < |shape|
    requires v < |vertices|
    ensures Assign(vertices, idx, Targets(shape, idx))[v] == if v in idx then shape[v] else vertices[v]
  {
    AssignAt(vertices, idx, Targets(shape, idx), v);
    if v in idx {
      var i :| 0 <= i < |idx| && idx[i] == v;
    }
  }

  /** An absolute shape moved at the vertices where it differs from the reference is restored. */
  lemma {:induction false} StatShapeRestored(vertices: seq<Pos>, ref: seq<Pos>, a: ShapeKey, k: ShapeKey)
    requires |a.data| == |vertices| == |ref| && IsStarred(a)
    requires k == ShapeKey(GetAbsMorphName(LabelText(a.name)),
                           Assign(vertices, DiffIndices(a.data, ref, |vertices|),
                                  Targets(a.data, DiffIndices(a.data, ref, |vertices|))))
    ensures ShapeRestored(vertices, ref, a, k)
  {
    var idx := DiffIndices(a.data, ref, |vertices|);
    DiffIndicesCorrect(a.data, ref, |vertices|);
    forall v | 0 <= v < |vertices|
      ensures k.data[v] == if a.data[v] != ref[v] then a.data[v] else vertices[v]
    {
      AssignTargets(vertices, a.data, idx, v);
    }
    StarredNameRestored(a);
  }

  /** A marked name comes back from its label with the label's NUL after it. */
  lemma {:induction false} StarredNameRestored(a: ShapeKey)
    requires IsStarred(a)
    ensures GetAbsMorphName(LabelText(a.name)) == a.name + [0]
  {
    var stored := GetShapeName(a.name);
    assert [STAR] + (stored + [0]) == ([STAR] + stored) + [0];
  }

  /** Shape j that import rebuilds is the basis moved to stat morph j's pooled targets. */
  lemma {:induction false} StatKeyOf(vertices: seq<Pos>, ss: seq<StatMorph>, abs: seq<ShapeKey>, absVerts: seq<seq<nat>>, j: nat)
    requires |ss| == |abs| == |absVerts| && j < |ss|
    requires forall n :: 0 <= n < |ss| ==> ss[n].indices == absVerts[n]
    requires forall n, i :: 0 <= n < |abs| && 0 <= i < |absVerts[n]| ==> absVerts[n][i] < |abs[n].data|
    requires StatsBelow(ss, |vertices|) && SumIndices(ss) == |Pool(abs, absVerts)|
    ensures forall i :: 0 <= i < |absVerts[j]| ==> absVerts[j][i] < |vertices|
    ensures StatKeys(vertices, Pool(abs, absVerts), ss, 0)[j]
      == ShapeKey(GetAbsMorphName(ss[j].text), Assign(vertices, absVerts[j], Targets(abs[j].data, absVerts[j])))
  {
    var pool := Pool(abs, absVerts);
    StatKeysAt(vertices, pool, ss, 0, j, SumIndices(ss[..j]));
    assert forall n :: 0 <= n < |ss[..j]| ==> ss[..j][n].indices == absVerts[..j][n];
    SumIndicesOf(ss[..j], absVerts[..j]);
    PoolSlice(abs, absVerts, j);
    var K := SumIndices(ss[..j]);
    assert pool[0 + K .. 0 + K + |ss[j].indices|] == Targets(abs[j].data, absVerts[j]);
    assert forall i :: 0 <= i < |absVerts[j]| ==> absVerts[j][i] == ss[j].indices[i];
  }

  /** Stat morph j comes back as the j-th absolute shape of the mesh. */
  lemma {:induction false} StatRestored(m: MeshData, s: Scan, j: nat)
    requires WellFormed(m) && m.shapeKeys.Some?
    requires ScanSpecified(m.shapeKeys.value, |m.vertices|, |m.shapeKeys.value.blocks|, s)
    requires StatsBelow(StatMorphsOf(s), |m.vertices|) && SumIndices(StatMorphsOf(s)) == |s.pool|
    requires j < |s.abs|
    ensures ShapeRestored(m.vertices, RefOf(m), s.abs[j], StatKeys(m.vertices, s.pool, StatMorphsOf(s), 0)[j])
  {
    var keys := m.shapeKeys.value;
    var others := Others(keys, |keys.blocks|);
    StatKeyOf(m.vertices, StatMorphsOf(s), s.abs, s.absVerts, j);
    StarPartition(others);
    assert s.abs[j] in Starred(others);
    assert RefOf(m) == RefData(keys);
    StatShapeRestored(m.vertices, RefOf(m), s.abs[j], StatKeys(m.vertices, s.pool, StatMorphsOf(s), 0)[j]);
  }

  /** The shape keys import rebuilds: the basis, the relative morphs as written, every absolute shape. */
  lemma {:induction false} MorphsRestored(m: MeshData, fmt: UVFormat, fl: Floats, table: seq<Option<UV>>, s: Scan)
    requires Exported(m, fmt, table, s)
    requires Canonical(ExportFile(m, fmt, fl, table, s))
    ensures var r := ImportedOf(ExportFile(m, fmt, fl, table, s));
      && (r.hasBasis <==> |OtherKeys(m)| > 0)
      && DiffShapes(Unstarred(OtherKeys(m)), RefOf(m)) && r.diffs == DiffMorphsOf(Unstarred(OtherKeys(m)), RefOf(m), fl)
      && |r.stats| == |Starred(OtherKeys(m))|
      && forall j :: 0 <= j < |Starred(OtherKeys(m))| ==>
           ShapeRestored(m.vertices, RefOf(m), Starred(OtherKeys(m))[j], r.stats[j])
  {
    var f := ExportFile(m, fmt, fl, table, s);
    ScanOthers(m, s);
    forall j | 0 <= j < |s.abs|
      ensures ShapeRestored(m.vertices, RefOf(m), s.abs[j], StatKeys(m.vertices, s.pool, StatMorphsOf(s), 0)[j])
    {
      StatRestored(m, s, j);
    }
  }

  // ---------------------------------------------------------------- the round trip

  /**
   * Export, then import: for every mesh export_tri accepts (in per-face
   * mode, one with at least one loop), import_tri reads the file back and
   * rebuilds the mesh's vertices, its polygons triangles first, the UV of
   * every corner, the relative morphs as written and every absolute shape.
   */
  lemma {:induction false} ExportImport(m: MeshData, fmt: UVFormat, fl: Floats)
    requires WellFormed(m) && Encode(m, fmt, fl).Ok?
    requires fmt == UVFace ==> |m.loopVertex| > 0
    ensures AllTrisOrQuads(m.polygons)
    ensures Parse(Encode(m, fmt, fl).value).Ok?
    ensures Restored(m, fmt, fl, Parse(Encode(m, fmt, fl).value).value)
  {
    EncodeExported(m, fmt, fl);
    var table := VertexTable(m, fmt).value;
    var s := ScanOf(m).value;
    var f := ExportFile(m, fmt, fl, table, s);
    ExportCanonical(m, fmt, fl, table, s);
    ParseLayout(f);
    FacesCanonical(m);
    if fmt == UVVertex {
      VertexUVsRestored(m, fmt, fl, table, s);
    } else if fmt == UVFace {
      FaceUVsRestored(m, fmt, fl, table, s);
    }
    MorphsRestored(m, fmt, fl, table, s);
  }

  /** When the triangles already come first, import restores the polygons in their own order. */
  lemma {:induction false} ExportImportInOrder(m: MeshData, fmt: UVFormat, fl: Floats)
    requires WellFormed(m) && Encode(m, fmt, fl).Ok? && TrisFirst(m.polygons)
    requires fmt == UVFace ==> |m.loopVertex| > 0
    ensures Parse(Encode(m, fmt, fl).value).Ok?
    ensures var r := Parse(Encode(m, fmt, fl).value).value;
      && r.faces == FaceVerts(m.polygons)
      && (r.uvLayer.Some? ==> UVsRestored(m.polygons, ExportSpec.LoopUVs(m), r.faces, r.uvLayer.value))
  {
    ExportImport(m, fmt, fl);
    RegroupIdentity(m.polygons);
  }

  /**
   * When the reference key holds the basis positions (Blender's usual
   * "Basis" reference), every absolute shape comes back with exactly its
   * own positions.
   */
  lemma {:induction false} ExportImportFromBasis(m: MeshData, fmt: UVFormat, fl: Floats)
    requires WellFormed(m) && Encode(m, fmt, fl).Ok? && RefOf(m) == m.vertices
    requires fmt == UVFace ==> |m.loopVertex| > 0
    ensures Parse(Encode(m, fmt, fl).value).Ok?
    ensures var r := Parse(Encode(m, fmt, fl).value).value;
      |r.stats| == |Starred(OtherKeys(m))|
      && forall j :: 0 <= j < |r.stats| ==>
           r.stats[j].data == Starred(OtherKeys(m))[j].data && r.stats[j].name == Starred(OtherKeys(m))[j].name + [0]
  {
    ExportImport(m, fmt, fl);
    var r := Parse(Encode(m, fmt, fl).value).value;
    var abs := Starred(OtherKeys(m));
    forall j | 0 <= j < |r.stats|
      ensures r.stats[j].data == abs[j].data
    {
      assert ShapeRestored(m.vertices, RefOf(m), abs[j], r.stats[j]);
    }
  }

  // ---------------------------------------------------------------- per-face UVs without loops

  const ORIGIN: Pos := [0, 0, 0, 0, 0, 0, 0, 0, 0, 0, 0, 0]

  /** The header of a file with one vertex and the UV flag set, but no UVs. */
  const NO_UV_HEADER := Header(1, 0, 0, 0, 0, 0, 1, 0, 0, 0)

  /** A header for one vertex and no faces, targets or labels, followed by the vertex, reads back as that vertex. */
  lemma {:induction false} OneVertexGeometry(h: Header, p: Pos)
    requires HeaderFits(h) && h.v == 1 && h.k == 0 && h.t == 0 && h.q == 0
    ensures var data := EncodeHeader(h) + p;
      |data| == 76 && ReadGeometry(data, h) == Ok(Sections([p], [], [], 76))
  {
    var data := EncodeHeader(h) + p;
    assert data[64..76] == p;
    assert ReadChunks(data, 64, 1, 12, []) == ReadChunks(data, 76, 0, 12, [p]);
    assert Tuples([], 4) + Tuples([], 4) == [];
  }

  /**
   * A header that announces UVs with X = 0 (so per-vertex UVs) for one
   * vertex, followed by that vertex and nothing else, does not read back:
   * the UV read runs past the end of the file.
   */
  lemma {:induction false} MissingVertexUVs(h: Header, p: Pos)
    requires HeaderFits(h) && h.v == 1 && h.k == 0 && h.t == 0 && h.q == 0
    requires h.lv == 0 && h.ls == 0 && HasUVs(h.ext) && h.x == 0
    ensures Parse(EncodeHeader(h) + p) == Err(Truncated)
  {
    var data := EncodeHeader(h) + p;
    assert data[..8] == SIGNATURE;
    assert Chunk(data, 8, 56) == EncodeHeader(h)[8..];
    HeaderRoundTrip(h);
    OneVertexGeometry(h, p);
    assert ReadChunks(data, 76, 1, 8, []) == Err(Truncated);
  }

  /** A file with nothing after its vertices is the header and the vertices. */
  lemma {:induction false} LayoutOfBare(f: TriFile)
    requires FileFits(f) && f.pool == [] && f.tris == [] && f.quads == [] && f.diffs == [] && f.stats == []
    requires f.uv == FaceUVs([], [], [])
    ensures Layout(f) == EncodeHeader(f.header) + Concat(f.vertices)
  {
    assert UVBytes(f.uv) == [];
    assert Concat(f.pool) == [] && Records(f.tris, 4) == [] && Records(f.quads, 4) == [];
    assert DiffsBytes(f.diffs) == [] && StatsBytes(f.stats) == [];
  }

  /** The mesh with one vertex, an empty UV layer and nothing else. */
  const LONE_VERTEX := MeshData([ORIGIN], [], [], Some([]), None)

  /** The sections per-face export builds for that mesh: the header, the vertex, and nothing else. */
  lemma {:induction false} LoneVertexSections(fl: Floats, f: TriFile)
    requires WellFormed(LONE_VERTEX)
    requires f == ExportFile(LONE_VERTEX, UVFace, fl, [], Scan([], [], [], []))
    ensures f.header == NO_UV_HEADER && Concat(f.vertices) == ORIGIN
    ensures f.pool == [] && f.tris == [] && f.quads == [] && f.diffs == [] && f.stats == []
    ensures f.uv == FaceUVs([], [], [])
  {
    var m := LONE_VERTEX;
    assert Tris(m.polygons) == [] && Quads(m.polygons) == [];
    assert Dedup(ExportSpec.LoopUVs(m)) == [];
    assert Concat(f.vertices) == ORIGIN + Concat([]);
  }

  /** Per-face export of that mesh writes the header with the UV flag and X = 0, then the vertex. */
  lemma {:induction false} LoneVertexFile(fl: Floats)
    ensures WellFormed(LONE_VERTEX) && HeaderFits(NO_UV_HEADER)
    ensures Encode(LONE_VERTEX, UVFace, fl) == Ok(EncodeHeader(NO_UV_HEADER) + ORIGIN)
  {
    var m := LONE_VERTEX;
    EncodeExported(m, UVFace, fl);
    assert VertexTable(m, UVFace) == Ok([]) && ScanOf(m) == Ok(Scan([], [], [], []));
    var f := ExportFile(m, UVFace, fl, [], Scan([], [], [], []));
    LoneVertexSections(fl, f);
    LayoutOfBare(f);
  }

  /**
   * The loop condition of ExportImport is needed: per-face export of a mesh
   * with a vertex and no loops writes X = 0 with the UV flag set and no UV
   * bytes, and import then takes X = 0 for per-vertex UVs and reads past the
   * end of the file.
   */
  lemma {:induction false} FaceModeWithoutLoops(fl: Floats)
    ensures WellFormed(LONE_VERTEX) && |LONE_VERTEX.loopVertex| == 0 && Encode(LONE_VERTEX, UVFace, fl).Ok?
    ensures Parse(Encode(LONE_VERTEX, UVFace, fl).value) == Err(Truncated)
  {
    LoneVertexFile(fl);
    MissingVertexUVs(NO_UV_HEADER, ORIGIN);
  }

  // ---------------------------------------------------------------- the file a failed export leaves

  /** A file that starts with an encoded header passes the signature check and decodes to that header. */
  lemma {:induction false} HeaderOfPrefix(data: seq<byte>, h: Header)
    requires HeaderFits(h) && At(data, 0, EncodeHeader(h))
    ensures Chunk(data, 0, 8) == SIGNATURE
    ensures Chunk(data, 8, 56) == EncodeHeader(h)[8..] && DecodeHeader(Chunk(data, 8, 56)) == h
  {
    assert Inspected(0);
    assert data[..64] == EncodeHeader(h);
    assert data[..8] == SIGNATURE;
    assert data[8..64] == EncodeHeader(h)[8..];
    HeaderRoundTrip(h);
  }

  /** The four geometry sections written one after the other read back from byte 64 on. */
  lemma {:induction false} GeometryOfPrefix(data: seq<byte>, h: Header, vertices: seq<Pos>, pool: seq<Pos>,
                      tris: seq<seq<int>>, quads: seq<seq<int>>, geometry: seq<byte>, tail: seq<byte>)
    requires HeaderFits(h) && Count(h.v) == |vertices| && Count(h.k) == |pool| && Count(h.t) == |tris| && Count(h.q) == |quads|
    requires RecordsFit(tris, 4) && Widths(tris, 3) && RecordsFit(quads, 4) && Widths(quads, 4)
    requires geometry == EncodeHeader(h) + Concat(vertices) + Concat(pool) + Records(tris, 4) + Records(quads, 4)
    requires data == geometry + tail
    ensures At(data, 0, EncodeHeader(h))
    ensures ReadGeometry(data, h) == Ok(Sections(vertices, pool, tris + quads, |geometry|))
  {
    var H := EncodeHeader(h);
    assert Inspected(0);
    assert At(data, 0, geometry + tail);
    AtSplit(data, 0, geometry, tail);
    AtSplit(data, 0, H + Concat(vertices) + Concat(pool) + Records(tris, 4), Records(quads, 4));
    AtSplit(data, 0, H + Concat(vertices) + Concat(pool), Records(tris, 4));
    AtSplit(data, 0, H + Concat(vertices), Concat(pool));
    AtSplit(data, 0, H, Concat(vertices));
    var p2 := 64 + |Concat(vertices)|;
    var p3 := p2 + |Concat(pool)|;
    var p4 := p3 + |Records(tris, 4)|;
    ReadGeometryFrom(data, h, vertices, pool, tris, quads, p2, p3, p4, |geometry|);
  }

  /** Such a file reads its header and geometry back and goes on with the rest. */
  lemma {:induction false} ReadPrefix(data: seq<byte>, h: Header, vertices: seq<Pos>, pool: seq<Pos>,
                      tris: seq<seq<int>>, quads: seq<seq<int>>, geometry: seq<byte>, tail: seq<byte>)
    requires HeaderFits(h) && Count(h.v) == |vertices| && Count(h.k) == |pool| && Count(h.t) == |tris| && Count(h.q) == |quads|
    requires RecordsFit(tris, 4) && Widths(tris, 3) && RecordsFit(quads, 4) && Widths(quads, 4)
    requires geometry == EncodeHeader(h) + Concat(vertices) + Concat(pool) + Records(tris, 4) + Records(quads, 4)
    requires data == geometry + tail
    ensures Parse(data) == ReadRest(data, h, Sections(vertices, pool, tris + quads, |geometry|))
  {
    GeometryOfPrefix(data, h, vertices, pool, tris, quads, geometry, tail);
    HeaderOfPrefix(data, h);
    ParseAfterGeometry(data, h, Sections(vertices, pool, tris + quads, |geometry|));
  }

  /** A file with the signature, a full header h and geometry g goes on to read what follows g. */
  lemma {:induction false} ParseAfterGeometry(data: seq<byte>, h: Header, g: Sections)
    requires Chunk(data, 0, 8) == SIGNATURE && |Chunk(data, 8, 56)| == 56 && DecodeHeader(Chunk(data, 8, 56)) == h
    requires ReadGeometry(data, h) == Ok(g)
    ensures Parse(data) == ReadRest(data, h, g)
  {
  }

  /**
   * A file that starts with what export_tri writes up to its face lists reads
   * back, up to there, as the header, the vertices, the pool and the faces.
   */
  lemma {:induction false} GeometryOfPartial(m: MeshData, fmt: UVFormat, s: Scan, data: seq<byte>, tail: seq<byte>)
    requires PassedChecks(m, fmt, s) && data == GeometryBytes(m, fmt, s) + tail
    ensures Parse(data) == ReadRest(data, ExportHeader(m, fmt, s),
      Sections(m.vertices, s.pool, FaceVerts(Tris(m.polygons)) + FaceVerts(Quads(m.polygons)), |GeometryBytes(m, fmt, s)|))
  {
    HeaderFitsOf(m, fmt, s);
    FacesFit(m.polygons, m.loopVertex, |m.vertices|);
    FacesCanonical(m);
    ReadPrefix(data, ExportHeader(m, fmt, s), m.vertices, s.pool, FaceVerts(Tris(m.polygons)), FaceVerts(Quads(m.polygons)),
               GeometryBytes(m, fmt, s), tail);
  }

  /**
   * With per-vertex UVs, a file that ends after its face lists does not
   * import: the UV read runs past the end (the file a vertex without a UV
   * leaves, io.py:172).
   */
  lemma {:induction false} EndsAfterFaces(m: MeshData, fmt: UVFormat, s: Scan)
    requires PassedChecks(m, fmt, s) && fmt == UVVertex && |m.vertices| > 0
    ensures Parse(GeometryBytes(m, fmt, s)) == Err(Truncated)
  {
    var data := GeometryBytes(m, fmt, s);
    var g := Sections(m.vertices, s.pool, FaceVerts(Tris(m.polygons)) + FaceVerts(Quads(m.polygons)), |data|);
    assert data == data + [];
    GeometryOfPartial(m, fmt, s, data, []);
    VertexUVHeader(m, fmt, s);
    RestEndsBeforeUVs(data, ExportHeader(m, fmt, s), g);
  }

  /** The header export_tri writes for per-vertex UVs: no labels, the UV flag, X = 0. */
  lemma {:induction false} VertexUVHeader(m: MeshData, fmt: UVFormat, s: Scan)
    requires fmt == UVVertex
    ensures var h := ExportHeader(m, fmt, s);
      h.lv == 0 && h.ls == 0 && HasUVs(h.ext) && h.x == 0 && Count(h.v) == |m.vertices|
  {
  }

  /** Without labels, per-vertex UVs announced for some vertices and no byte left, the UV read runs past the end. */
  lemma {:induction false} RestEndsBeforeUVs(data: seq<byte>, h: Header, g: Sections)
    requires h.lv == 0 && h.ls == 0 && HasUVs(h.ext) && h.x == 0 && Count(h.v) > 0 && g.next == |data|
    ensures ReadRest(data, h, g) == Err(Truncated)
  {
    assert ReadChunks(data, |data|, Count(h.v), 8, []) == Err(Truncated);
  }

  /** Loops need vertices, and for export to pass, polygons need loops. */
  lemma {:induction false} MeshNeedsVertices(m: MeshData)
    requires WellFormed(m) && AllTrisOrQuads(m.polygons)
    ensures m.loopVertex != [] ==> |m.vertices| > 0
    ensures m.polygons != [] ==> m.loopVertex != []
  {
    if m.polygons != [] {
      var p := m.polygons[0];
      assert PolygonWellFormed(p, m.loopVertex) && IsTriOrQuad(p);
      assert p.loops[0] < |m.loopVertex|;
    }
    if m.loopVertex != [] {
      assert m.loopVertex[0] < |m.vertices|;
    }
  }

  /**
   * After face lists that end the file, with no labels, X = 0, no faces and
   * some diff morphs announced, the first diff morph's label runs past the end.
   */
  lemma {:induction false} RestEndsBeforeDiffs(data: seq<byte>, h: Header, g: Sections)
    requires h.lv == 0 && h.ls == 0 && h.x == 0 && Count(h.md) > 0 && g.faces == [] && g.next == |data|
    ensures ReadRest(data, h, g) == Err(Truncated)
  {
    assert Loops(g.faces) == [];
    assert ReadUVLayer(data, |data|, h, Count(h.v), g.faces).Ok? ==>
      ReadUVLayer(data, |data|, h, Count(h.v), g.faces).value.next == |data| by {
      if HasUVs(h.ext) {
        ReadChunksSpan(data, |data|, Count(h.v), 8, []);
      }
    }
    DiffMorphCursor(data, |data|, |g.vertices|);
    DiffMorphsStep(data, |data|, Count(h.md), |g.vertices|, [], ReadDiffMorph(data, |data|, |g.vertices|));
  }

  /** A mesh without polygons and loops, but with relative shapes, announces no labels, X = 0 and some diff morphs. */
  lemma {:induction false} NoLoopsHeader(m: MeshData, fmt: UVFormat, s: Scan)
    requires WellFormed(m) && m.polygons == [] && m.loopVertex == [] && s.rel != []
    ensures var h := ExportHeader(m, fmt, s); h.lv == 0 && h.ls == 0 && h.x == 0 && Count(h.md) > 0
  {
    assert ExportSpec.LoopUVs(m) == [];
  }

  /** A mesh without polygons and loops writes an empty UV section, whatever the format. */
  lemma {:induction false} NoUVBytes(m: MeshData, fmt: UVFormat, table: seq<Option<UV>>)
    requires WellFormed(m) && (fmt != UVNone ==> m.uvLayer.Some?) && (fmt == UVVertex ==> AllSome(table))
    requires m.polygons == [] && m.loopVertex == [] && |table| == 0
    ensures UVSectionFits(UVSectionOf(m, fmt, table)) && UVBytes(UVSectionOf(m, fmt, table)) == []
  {
    UVSectionFitsOf(m, fmt, table);
    assert Tris(m.polygons) == [] && Quads(m.polygons) == [];
    assert ExportSpec.LoopUVs(m) == [];
  }

  /**
   * A file that ends where its diff morphs should start, while its header
   * announces some, does not import: the first diff morph's scale runs past
   * the end (the file max([]) leaves for a mesh without vertices, io.py:191).
   */
  lemma {:induction false} EndsBeforeDiffs(m: MeshData, fmt: UVFormat, s: Scan, table: seq<Option<UV>>)
    requires PassedChecks(m, fmt, s) && s.rel != [] && |m.vertices| == 0 && |table| == 0
    ensures UVSectionFits(UVSectionOf(m, fmt, table))
    ensures Parse(GeometryBytes(m, fmt, s) + UVBytes(UVSectionOf(m, fmt, table))) == Err(Truncated)
  {
    MeshNeedsVertices(m);
    NoUVBytes(m, fmt, table);
    var G := GeometryBytes(m, fmt, s);
    assert Tris(m.polygons) == [] && Quads(m.polygons) == [];
    var data := G + UVBytes(UVSectionOf(m, fmt, table));
    assert data == G + [];
    GeometryOfPartial(m, fmt, s, data, []);
    var h := ExportHeader(m, fmt, s);
    NoLoopsHeader(m, fmt, s);
    RestEndsBeforeDiffs(data, h, Sections(m.vertices, s.pool, FaceVerts(Tris(m.polygons)) + FaceVerts(Quads(m.polygons)), |G|));
  }

  /**
   * A failed export that got as far as opening the file leaves one import_tri
   * rejects: empty when the header cannot be packed, cut short otherwise.
   */
  lemma {:induction false} FailedExportRejected(m: MeshData, fmt: UVFormat, fl: Floats)
    requires WellFormed(m) && Encode(m, fmt, fl).Err? && Written(m, fmt, fl).Some?
    ensures Encode(m, fmt, fl).error == CountOverflow ==> Parse(Written(m, fmt, fl).value) == Err(NotTriFile)
    ensures Encode(m, fmt, fl).error != CountOverflow ==> Parse(Written(m, fmt, fl).value) == Err(Truncated)
  {
    if Encode(m, fmt, fl).error != CountOverflow {
      var table := VertexTable(m, fmt).value;
      var s := ScanOf(m).value;
      ScanOfSpecified(m);
      assert Written(m, fmt, fl) == Some(WrittenFrom(m, fmt, fl, table, s));
      if fmt == UVVertex && !AllSome(table) {
        EndsAfterFaces(m, fmt, s);
      } else {
        assert s.rel != [] && |m.vertices| == 0;
        assert |table| == 0;
        EndsBeforeDiffs(m, fmt, s, table);
      }
    }
  }

  /**
   * A morph label whose length field is below -1 stops the import: file.read(N)
   * raises at io.py:341, whether the label opens a diff or a stat morph.
   */
  lemma {:induction false} BadLabelLengthRejected(h: Header, data: seq<byte>)
    requires HeaderFits(h) && h.v == 0 && h.t == 0 && h.q == 0 && h.lv == 0 && h.ls == 0 && h.k == 0
    requires !HasUVs(h.ext) && (h.md > 0 || h.ms > 0)
    requires At(data, 0, EncodeHeader(h)) && ReadInt(data, 64).value < -1
    ensures Parse(data) == Err(BadReadLength)
  {
    HeaderOfPrefix(data, h);
    var g := Sections([], [], [], 64);
    EmptyGeometry(data, h);
    ParseAfterGeometry(data, h, g);
    BadLabelAfterGeometry(data, h, g);
  }

  /** A header with no vertices, targets or faces has an empty geometry ending at byte 64. */
  lemma {:induction false} EmptyGeometry(data: seq<byte>, h: Header)
    requires h.v == 0 && h.t == 0 && h.q == 0 && h.k == 0
    ensures ReadGeometry(data, h) == Ok(Sections([], [], [], 64))
  {
  }

  /** The bytes FE FF FF FF, as the length of the first stat morph's label. */
  lemma {:induction false} MinusTwoLabelRejected()
    ensures Parse(EncodeHeader(Header(0, 0, 0, 0, 0, 0, 0, 0, 1, 0)) + [0xFE, 0xFF, 0xFF, 0xFF]) == Err(BadReadLength)
  {
    var h := Header(0, 0, 0, 0, 0, 0, 0, 0, 1, 0);
    var field: seq<byte> := [0xFE, 0xFF, 0xFF, 0xFF];
    MinusTwo(field);
    FieldAfterHeader(EncodeHeader(h), field);
    BadLabelLengthRejected(h, EncodeHeader(h) + field);
  }

  /** FE FF FF FF is -2 as a signed little-endian int32. */
  lemma {:induction false} MinusTwo(field: seq<byte>)
    requires field == [0xFE, 0xFF, 0xFF, 0xFF]
    ensures FromBytesSigned(field) == -2
  {
    assert field[3..][1..] == [];
    assert Unsigned(field[3..]) == 0xFF;
    assert field[2..][1..] == field[3..];
    assert Unsigned(field[2..]) == 0xFFFF;
    assert field[1..][1..] == field[2..];
    assert Unsigned(field[1..]) == 0xFF_FFFF;
    assert Unsigned(field) == 0xFFFF_FFFE;
    assert Pow256(4) == 0x1_0000_0000;
  }

  /** Four bytes after a 64-byte header are the int read at offset 64. */
  lemma {:induction false} FieldAfterHeader(header: seq<byte>, field: seq<byte>)
    requires |header| == 64 && |field| == 4
    ensures At(header + field, 0, header) && ReadInt(header + field, 64) == Got(FromBytesSigned(field), 68)
  {
    assert Inspected(0);
    assert (header + field)[0 .. 64] == header;
    assert (header + field)[64 .. 68] == field;
  }
}
