/**
 * export_tri step by step (io.py:32-212): the passes build their lists in
 * place, and the file is written chunk by chunk through a writer. Every
 * method is proved against the functions of ExportSpec.
 */
module Export {
  import opened Wrappers
  import opened Bytes
  import opened Geometry
  import opened Scale
  import opened TriFormat
  import opened ExportSpec

  /** The output file: everything written so far. */
  class ByteWriter {
    var out: seq<byte>

    constructor ()
      ensures out == []
    {
      out := [];
    }

    /** file.write(b) */
    method Write(b: seq<byte>)
      modifies this
      ensures out == old(out) + b
    {
      out := out + b;
    }
  }

  /** The face partition (io.py:46-57): triangles and quads, or an error on any other polygon. */
  method PartitionFaces(ps: seq<Polygon>) returns (r: Result<(seq<Polygon>, seq<Polygon>), ExportError>)
    ensures r.Ok? <==> AllTrisOrQuads(ps)
    ensures r.Ok? ==> r.value == (Tris(ps), Quads(ps))
    ensures r.Err? ==> r.error == NotTriOrQuad
  {
    var tris: seq<Polygon> := [];
    var quads: seq<Polygon> := [];
    var i := 0;
    while i < |ps|
      invariant 0 <= i <= |ps|
      invariant AllTrisOrQuads(ps[..i])
      invariant tris == Tris(ps[..i]) && quads == Quads(ps[..i])
    {
      var f := ps[i];
      assert ps[..i + 1][..i] == ps[..i];
      if |f.verts| == 3 {
        tris := tris + [f];
      } else if |f.verts| == 4 {
        quads := quads + [f];
      } else {
        return Err(NotTriOrQuad);
      }
      i := i + 1;
    }
    assert ps[..i] == ps;
    return Ok((tris, quads));
  }

  /**
   * The per-vertex UV pass (io.py:61-84): uvs starts as a placeholder per
   * vertex, passed records the vertices already given a UV.
   */
  method VertexUVs(vcount: nat, lv: seq<nat>, uv: seq<UV>) returns (r: Result<seq<Option<UV>>, ExportError>)
    requires |lv| == |uv| && LoopsInRange(lv, vcount)
    ensures r == VertexUVFold(|lv|, vcount, lv, uv)
  {
    var uvs := new Option<UV>[vcount](_ => None);
    var passed: set<nat> := {};
    var i := 0;
    while i < |uv|
      invariant 0 <= i <= |uv|
      invariant VertexUVFold(i, vcount, lv, uv).Ok?
      invariant uvs[..] == VertexUVFold(i, vcount, lv, uv).value
      invariant forall v: nat :: v in passed <==> v < vcount && uvs[v].Some?
    {
      var vi := lv[i];
      if vi in passed {
        if uvs[vi] != Some(uv[i]) {
          VertexUVFoldStopsAtSeam(i + 1, |lv|, vcount, lv, uv);
          return Err(UVSeam);
        }
      } else {
        passed := passed + {vi};
        uvs[vi] := Some(uv[i]);
      }
      i := i + 1;
    }
    return Ok(uvs[..]);
  }

  lemma {:induction false} FirstIndexAppend(s: seq<UV>, x: UV)
    requires x !in s
    ensures FirstIndex(s + [x], x) == |s|
    ensures forall y :: y in s ==> FirstIndex(s + [x], y) == FirstIndex(s, y)
  {
    forall y | y in s
      ensures FirstIndex(s + [x], y) == FirstIndex(s, y)
    {
      FirstIndexOfPrefix(s + [x], |s|, y);
      assert (s + [x])[..|s|] == s;
    }
  }

  lemma {:induction false} DedupStep(uv: seq<UV>, i: nat)
    requires i < |uv|
    ensures Dedup(uv[..i + 1]) == if uv[i] in Dedup(uv[..i]) then Dedup(uv[..i]) else Dedup(uv[..i]) + [uv[i]]
  {
    assert uv[..i + 1][..i] == uv[..i];
  }

  /** used_map holds exactly the patterns of uvs, each with its first position. */
  ghost predicate UsedMapMirrors(uvs: seq<UV>, usedMap: map<UV, nat>)
  {
    && (forall x :: x in usedMap <==> x in uvs)
    && (forall x :: x in usedMap ==> usedMap[x] == FirstIndex(uvs, x))
  }

  /** Each of the first i loops has the position of its pattern in uvs. */
  predicate LoopsIndexed(uv: seq<UV>, i: nat, uvs: seq<UV>, lis: seq<int>)
    requires i <= |uv| == |lis|
  {
    forall l :: 0 <= l < i ==> uv[l] in uvs && lis[l] == FirstIndex(uvs, uv[l])
  }

  /** The state of the per-face pass after the first i loops. */
  ghost predicate FaceUVState(uv: seq<UV>, i: nat, uvs: seq<UV>, lis: seq<int>, usedMap: map<UV, nat>)
  {
    && i <= |uv| && |lis| == |uv|
    && uvs == Dedup(uv[..i])
    && UsedMapMirrors(uvs, usedMap)
    && LoopsIndexed(uv, i, uvs, lis)
  }

  lemma {:induction false} FaceUVHit(uv: seq<UV>, i: nat, uvs: seq<UV>, lis: seq<int>, usedMap: map<UV, nat>)
    requires FaceUVState(uv, i, uvs, lis, usedMap) && i < |uv| && uv[i] in usedMap
    ensures FaceUVState(uv, i + 1, uvs, lis[i := usedMap[uv[i]]], usedMap)
  {
    DedupStep(uv, i);
  }

  /** A new pattern goes to the end of uvs and gets the next position in used_map. */
  lemma {:induction false} UsedMapAppend(uvs: seq<UV>, usedMap: map<UV, nat>, x: UV)
    requires x !in uvs && UsedMapMirrors(uvs, usedMap)
    ensures UsedMapMirrors(uvs + [x], usedMap[x := |uvs|])
  {
    FirstIndexAppend(uvs, x);
  }

  /** The loops already indexed keep their index when a new pattern is appended. */
  lemma {:induction false} LoopIndicesAppend(uv: seq<UV>, i: nat, uvs: seq<UV>, lis: seq<int>)
    requires i < |uv| == |lis| && uv[i] !in uvs && LoopsIndexed(uv, i, uvs, lis)
    ensures LoopsIndexed(uv, i + 1, uvs + [uv[i]], lis[i := |uvs|])
  {
    FirstIndexAppend(uvs, uv[i]);
  }

  lemma {:induction false} FaceUVMiss(uv: seq<UV>, i: nat, uvs: seq<UV>, lis: seq<int>, usedMap: map<UV, nat>)
    requires FaceUVState(uv, i, uvs, lis, usedMap) && i < |uv| && uv[i] !in usedMap
    ensures FaceUVState(uv, i + 1, uvs + [uv[i]], lis[i := |uvs|], usedMap[uv[i] := |uvs|])
  {
    DedupStep(uv, i);
    UsedMapAppend(uvs, usedMap, uv[i]);
    LoopIndicesAppend(uv, i, uvs, lis);
  }

  lemma {:induction false} FaceUVDone(uv: seq<UV>, uvs: seq<UV>, lis: seq<int>, usedMap: map<UV, nat>)
    requires FaceUVState(uv, |uv|, uvs, lis, usedMap)
    ensures uvs == Dedup(uv) && lis == UVIndices(uv)
  {
    assert uv[..|uv|] == uv;
    forall l | 0 <= l < |uv|
      ensures lis[l] == UVIndices(uv)[l]
    {
      assert lis[l] == FirstIndex(uvs, uv[l]);
    }
  }

  /**
   * The per-face UV pass (io.py:85-110): used_map maps every UV pattern met
   * so far to its position in uvs, li starts at -1 for every loop.
   */
  method FaceUVs(uv: seq<UV>) returns (uvs: seq<UV>, li: seq<nat>)
    ensures uvs == Dedup(uv) && li == UVIndices(uv)
  {
    uvs := [];
    var lis: seq<int> := seq(|uv|, _ => -1);
    var usedMap: map<UV, nat> := map[];
    var i := 0;
    while i < |uv|
      invariant FaceUVState(uv, i, uvs, lis, usedMap)
    {
      var x := uv[i];
      if x in usedMap {
        FaceUVHit(uv, i, uvs, lis, usedMap);
        lis := lis[i := usedMap[x]];
      } else {
        FaceUVMiss(uv, i, uvs, lis, usedMap);
        lis := lis[i := |uvs|];
        usedMap := usedMap[x := |uvs|];
        uvs := uvs + [x];
      }
      i := i + 1;
    }
    FaceUVDone(uv, uvs, lis, usedMap);
    li := lis;
  }

  lemma {:induction false} TargetsSnoc(shape: seq<Pos>, idx: seq<nat>, i: nat)
    requires i < |shape| && forall j :: 0 <= j < |idx| ==> idx[j] < |shape|
    ensures Targets(shape, idx + [i]) == Targets(shape, idx) + [shape[i]]
  {
  }

  /**
   * The inner loop of the scan (io.py:128-132): the vertices where the
   * shape moved, whose targets are appended to the pool.
   */
  method MovedVertices(shape: seq<Pos>, ref: seq<Pos>, vcount: nat, pool: seq<Pos>)
    returns (idx: seq<nat>, pool': seq<Pos>)
    requires |shape| == vcount && |ref| == vcount
    ensures idx == DiffIndices(shape, ref, vcount)
    ensures pool' == pool + Targets(shape, idx)
  {
    idx := [];
    pool' := pool;
    var i := 0;
    while i < vcount
      invariant 0 <= i <= vcount
      invariant idx == DiffIndices(shape, ref, i)
      invariant pool' == pool + Targets(shape, idx)
    {
      if shape[i] != ref[i] {
        TargetsSnoc(shape, idx, i);
        pool' := pool' + [shape[i]];
        idx := idx + [i];
      }
      i := i + 1;
    }
  }

  /** The absolute-morph scan (io.py:116-142). */
  method ScanShapes(keys: ShapeKeys, vcount: nat) returns (r: Result<Scan, ExportError>)
    requires ShapeKeysWellFormed(keys, vcount)
    ensures r == ScanFold(keys, vcount, |keys.blocks|)
  {
    var absMorphs: seq<ShapeKey> := [];
    var absMorphVerts: seq<seq<nat>> := [];
    var relMorphs: seq<ShapeKey> := [];
    var morphTargets: seq<Pos> := [];
    var ref := RefData(keys);
    var n := 0;
    while n < |keys.blocks|
      invariant 0 <= n <= |keys.blocks|
      invariant ScanFold(keys, vcount, n) == Ok(Scan(relMorphs, absMorphs, absMorphVerts, morphTargets))
    {
      var shape := keys.blocks[n];
      if n != keys.reference {
        if |shape.name| == 0 {
          ScanFoldStops(keys, vcount, n + 1, |keys.blocks|);
          return Err(EmptyShapeName);
        }
        if IsAbsMorph(shape.name) {
          var idx;
          idx, morphTargets := MovedVertices(shape.data, ref, vcount, morphTargets);
          absMorphs := absMorphs + [shape];
          absMorphVerts := absMorphVerts + [idx];
        } else {
          relMorphs := relMorphs + [shape];
        }
      }
      n := n + 1;
    }
    return Ok(Scan(relMorphs, absMorphs, absMorphVerts, morphTargets));
  }

  /** write_morph_label (io.py:390-393): the length of the label text, then the text. */
  method WriteMorphLabel(w: ByteWriter, name: seq<byte>)
    requires |name| > 0 && IsInt32(|LabelText(name)|)
    modifies w
    ensures w.out == old(w.out) + LabelBytes(LabelText(name))
  {
    var text := GetShapeName(name) + [0];
    w.Write(Int32LE(|text|));
    w.Write(text);
    Assoc(old(w.out), Int32LE(|text|), text);
  }

  /** Positions, 12 bytes each (io.py:155-160; the axis conversion is the identity here). */
  method WritePositions(w: ByteWriter, ps: seq<Pos>)
    modifies w
    ensures w.out == old(w.out) + Concat(ps)
  {
    var i := 0;
    while i < |ps|
      invariant 0 <= i <= |ps|
      invariant w.out == old(w.out) + Concat(ps[..i])
    {
      ConcatSnoc(ps[..i], ps[i]);
      assert ps[..i + 1] == ps[..i] + [ps[i]];
      w.Write(ps[i]);
      Assoc(old(w.out), Concat(ps[..i]), ps[i]);
      i := i + 1;
    }
    assert ps[..i] == ps;
  }

  /** The corner vertices of every face, as int32s (io.py:162-166). */
  method WriteFaces(w: ByteWriter, fs: seq<Polygon>)
    requires RecordsFit(FaceVerts(fs), 4)
    modifies w
    ensures w.out == old(w.out) + Records(FaceVerts(fs), 4)
  {
    var i := 0;
    while i < |fs|
      invariant 0 <= i <= |fs|
      invariant FaceVerts(fs[..i]) == FaceVerts(fs)[..i]
      invariant w.out == old(w.out) + Records(FaceVerts(fs)[..i], 4)
    {
      assert FaceVerts(fs)[..i + 1] == FaceVerts(fs)[..i] + [fs[i].verts];
      RecordsSnoc(FaceVerts(fs)[..i], fs[i].verts, 4);
      w.Write(IntsLE(fs[i].verts, 4));
      Assoc(old(w.out), Records(FaceVerts(fs)[..i], 4), IntsLE(fs[i].verts, 4));
      i := i + 1;
    }
    assert FaceVerts(fs)[..i] == FaceVerts(fs);
  }

  /** li of every corner of every face, as int32s (io.py:174-177). */
  method WriteCornerUVs(w: ByteWriter, fs: seq<Polygon>, li: seq<nat>)
    requires LoopIndicesBelow(fs, |li|) && RecordsFit(CornerUVIndices(fs, li), 4)
    modifies w
    ensures w.out == old(w.out) + Records(CornerUVIndices(fs, li), 4)
  {
    var c := CornerUVIndices(fs, li);
    var i := 0;
    while i < |fs|
      invariant 0 <= i <= |fs|
      invariant w.out == old(w.out) + Records(c[..i], 4)
    {
      var f := fs[i];
      var corners := seq(|f.loops|, k requires 0 <= k < |f.loops| => li[f.loops[k]]);
      assert corners == c[i];
      assert c[..i + 1] == c[..i] + [c[i]];
      RecordsSnoc(c[..i], c[i], 4);
      w.Write(IntsLE(corners, 4));
      Assoc(old(w.out), Records(c[..i], 4), IntsLE(c[i], 4));
      i := i + 1;
    }
    assert c[..i] == c;
  }

  /** The quantized deltas, three shorts per vertex (io.py:202-203). */
  method WriteDeltas(w: ByteWriter, q: seq<seq<int>>)
    requires RecordsFit(q, 2)
    modifies w
    ensures w.out == old(w.out) + Records(q, 2)
  {
    var i := 0;
    while i < |q|
      invariant 0 <= i <= |q|
      invariant w.out == old(w.out) + Records(q[..i], 2)
    {
      assert q[..i + 1] == q[..i] + [q[i]];
      RecordsSnoc(q[..i], q[i], 2);
      w.Write(IntsLE(q[i], 2));
      Assoc(old(w.out), Records(q[..i], 2), IntsLE(q[i], 2));
      i := i + 1;
    }
    assert q[..i] == q;
  }

  /**
   * One diff morph (io.py:181-203): its label, the packed scale, and every
   * delta quantized to three shorts with the scale that maps the largest
   * component to 32767.
   */
  method WriteDiffMorph(w: ByteWriter, shape: ShapeKey, ref: seq<Pos>, fl: Floats)
    requires |shape.name| > 0 && |shape.data| == |ref| > 0
    requires IsInt32(|LabelText(shape.name)|)
    modifies w
    ensures DiffFits(DiffMorphOf(shape, ref, fl))
    ensures w.out == old(w.out) + DiffBytes(DiffMorphOf(shape, ref, fl))
  {
    var deltas := Deltas(shape.data, ref, fl);
    var scale := ChooseScale(deltas);
    WriteMorphLabel(w, shape.name);
    w.Write(fl.packScale(scale));
    var q := QuantizeAll(deltas);
    WriteDeltas(w, q);
    DiffBytesOf(shape, ref, fl, old(w.out));
  }

  lemma {:induction false} DiffBytesOf(shape: ShapeKey, ref: seq<Pos>, fl: Floats, start: seq<byte>)
    requires |shape.name| > 0 && |shape.data| == |ref| > 0
    requires IsInt32(|LabelText(shape.name)|)
    ensures DiffFits(DiffMorphOf(shape, ref, fl))
    ensures start + LabelBytes(LabelText(shape.name)) + fl.packScale(ChooseScale(Deltas(shape.data, ref, fl)))
              + Records(QuantizeAll(Deltas(shape.data, ref, fl)), 2)
            == start + DiffBytes(DiffMorphOf(shape, ref, fl))
  {
    var d := DiffMorphOf(shape, ref, fl);
    var ds := Deltas(shape.data, ref, fl);
    assert d == DiffMorph(LabelText(shape.name), fl.packScale(ChooseScale(ds)), QuantizeAll(ds));
    Assoc(start, LabelBytes(d.text), d.scale);
    Assoc(start, LabelBytes(d.text) + d.scale, Records(d.deltas, 2));
  }

  /** All diff morphs (io.py:180-203), failing where max([]) raises. */
  method WriteDiffMorphs(w: ByteWriter, rel: seq<ShapeKey>, ref: seq<Pos>, fl: Floats) returns (ok: bool)
    requires forall j :: 0 <= j < |rel| ==> |rel[j].name| > 0 && |rel[j].data| == |ref|
    requires forall j :: 0 <= j < |rel| ==> IsInt32(|LabelText(rel[j].name)|)
    modifies w
    ensures ok <==> DiffShapes(rel, ref)
    ensures ok ==> forall j :: 0 <= j < |rel| ==> DiffFits(DiffMorphsOf(rel, ref, fl)[j])
    ensures ok ==> w.out == old(w.out) + DiffsBytes(DiffMorphsOf(rel, ref, fl))
    ensures !ok ==> w.out == old(w.out)
  {
    if rel != [] && |ref| == 0 {
      return false;
    }
    WriteEachDiffMorph(w, rel, ref, fl);
    return true;
  }

  /** The loop over the relative shapes (io.py:181-203), once max([]) cannot raise. */
  method WriteEachDiffMorph(w: ByteWriter, rel: seq<ShapeKey>, ref: seq<Pos>, fl: Floats)
    requires forall j :: 0 <= j < |rel| ==> |rel[j].name| > 0 && |rel[j].data| == |ref|
    requires forall j :: 0 <= j < |rel| ==> IsInt32(|LabelText(rel[j].name)|)
    requires DiffShapes(rel, ref)
    modifies w
    ensures forall j :: 0 <= j < |rel| ==> DiffFits(DiffMorphsOf(rel, ref, fl)[j])
    ensures w.out == old(w.out) + DiffsBytes(DiffMorphsOf(rel, ref, fl))
  {
    var ds := DiffMorphsOf(rel, ref, fl);
    ghost var start := w.out;
    var j := 0;
    while j < |rel|
      invariant 0 <= j <= |rel|
      invariant forall i :: 0 <= i < j ==> DiffFits(ds[i])
      invariant w.out == start + DiffsBytes(ds[..j])
    {
      var shape := rel[j];
      assert |shape.name| > 0 && |shape.data| == |ref| > 0;
      WriteDiffMorph(w, shape, ref, fl);
      assert ds[j] == DiffMorphOf(shape, ref, fl);
      DiffsStep(ds, j, start);
      j := j + 1;
    }
    assert ds[..j] == ds;
  }

  lemma {:induction false} DiffsStep(ds: seq<DiffMorph>, j: nat, start: seq<byte>)
    requires j < |ds| && forall i :: 0 <= i <= j ==> DiffFits(ds[i])
    ensures start + DiffsBytes(ds[..j]) + DiffBytes(ds[j]) == start + DiffsBytes(ds[..j + 1])
  {
    assert ds[..j + 1] == ds[..j] + [ds[j]];
    DiffsSnoc(ds[..j], ds[j]);
    Assoc(start, DiffsBytes(ds[..j]), DiffBytes(ds[j]));
  }

  /** One stat morph (io.py:206-210): its label, L, then the L vertex indices. */
  method WriteStatMorph(w: ByteWriter, shape: ShapeKey, idx: seq<nat>)
    requires |shape.name| > 0 && StatFits(StatMorphOf(shape, idx))
    modifies w
    ensures w.out == old(w.out) + StatBytes(StatMorphOf(shape, idx))
  {
    var start := w.out;
    WriteMorphLabel(w, shape.name);
    w.Write(Int32LE(|idx|));
    ghost var head := w.out;
    var i := 0;
    while i < |idx|
      invariant 0 <= i <= |idx|
      invariant AllFit(idx[..i], 4)
      invariant w.out == head + IntsLE(idx[..i], 4)
    {
      assert idx[..i + 1] == idx[..i] + [idx[i]];
      IntsLESnoc(idx[..i], idx[i], 4);
      w.Write(Int32LE(idx[i]));
      Assoc(head, IntsLE(idx[..i], 4), Int32LE(idx[i]));
      i := i + 1;
    }
    assert idx[..i] == idx;
    Assoc(start, LabelBytes(LabelText(shape.name)), Int32LE(|idx|));
    Assoc(start, LabelBytes(LabelText(shape.name)) + Int32LE(|idx|), IntsLE(idx, 4));
  }

  lemma {:induction false} StatsStep(ss: seq<StatMorph>, j: nat, start: seq<byte>)
    requires j < |ss| && forall i :: 0 <= i < |ss| ==> StatFits(ss[i])
    ensures start + StatsBytes(ss[..j]) + StatBytes(ss[j]) == start + StatsBytes(ss[..j + 1])
  {
    assert ss[..j + 1] == ss[..j] + [ss[j]];
    StatsSnoc(ss[..j], ss[j]);
    Assoc(start, StatsBytes(ss[..j]), StatBytes(ss[j]));
  }

  /** All stat morphs, each with its vertex list (io.py:205-210). */
  method WriteStatMorphs(w: ByteWriter, s: Scan)
    requires |s.absVerts| == |s.abs|
    requires forall j :: 0 <= j < |s.abs| ==> |s.abs[j].name| > 0
    requires forall j :: 0 <= j < |s.abs| ==> StatFits(StatMorphsOf(s)[j])
    modifies w
    ensures w.out == old(w.out) + StatsBytes(StatMorphsOf(s))
  {
    var ss := StatMorphsOf(s);
    var j := 0;
    while j < |s.abs|
      invariant 0 <= j <= |s.abs|
      invariant w.out == old(w.out) + StatsBytes(ss[..j])
    {
      WriteStatMorph(w, s.abs[j], s.absVerts[j]);
      StatsStep(ss, j, old(w.out));
      j := j + 1;
    }
    assert ss[..j] == ss;
  }

  /** The UV section (io.py:170-177), failing where bytes.join meets a placeholder. */
  method WriteUVs(w: ByteWriter, fmt: UVFormat, table: seq<Option<UV>>, uvs: seq<UV>, li: seq<nat>,
                  tris: seq<Polygon>, quads: seq<Polygon>) returns (ok: bool)
    requires fmt == UVFace ==> LoopIndicesBelow(tris, |li|) && LoopIndicesBelow(quads, |li|)
    requires fmt == UVFace ==> RecordsFit(CornerUVIndices(tris, li), 4) && RecordsFit(CornerUVIndices(quads, li), 4)
    modifies w
    ensures ok <==> fmt != UVVertex || AllSome(table)
    ensures ok ==> UVSectionFits(UVSectionFrom(fmt, table, uvs, li, tris, quads))
    ensures ok ==> w.out == old(w.out) + UVBytes(UVSectionFrom(fmt, table, uvs, li, tris, quads))
    ensures !ok ==> w.out == old(w.out)
  {
    if fmt == UVVertex {
      if !AllSome(table) {
        return false;
      }
      w.Write(Concat(Values(table)));
    } else if fmt == UVFace {
      w.Write(Concat(uvs));
      WriteCornerUVs(w, tris, li);
      WriteCornerUVs(w, quads, li);
      Assoc(old(w.out), Concat(uvs), Records(CornerUVIndices(tris, li), 4));
      Assoc(old(w.out), Concat(uvs) + Records(CornerUVIndices(tris, li), 4), Records(CornerUVIndices(quads, li), 4));
    }
    return true;
  }

  /** The header, the positions, the pooled targets and the faces (io.py:148-166). */
  method WriteGeometry(w: ByteWriter, m: MeshData, fmt: UVFormat, s: Scan, tris: seq<Polygon>, quads: seq<Polygon>)
    requires PassedChecks(m, fmt, s) && tris == Tris(m.polygons) && quads == Quads(m.polygons)
    modifies w
    ensures HeaderFits(ExportHeader(m, fmt, s))
    ensures RecordsFit(FaceVerts(tris), 4) && RecordsFit(FaceVerts(quads), 4)
    ensures w.out == old(w.out) + EncodeHeader(ExportHeader(m, fmt, s)) + Concat(m.vertices) + Concat(s.pool)
                     + Records(FaceVerts(tris), 4) + Records(FaceVerts(quads), 4)
  {
    HeaderFitsOf(m, fmt, s);
    FacesFit(m.polygons, m.loopVertex, |m.vertices|);
    w.Write(EncodeHeader(ExportHeader(m, fmt, s)));
    WritePositions(w, m.vertices);
    WritePositions(w, s.pool);
    WriteFaces(w, tris);
    WriteFaces(w, quads);
  }

  lemma {:induction false} ExportLayout(m: MeshData, fmt: UVFormat, fl: Floats, table: seq<Option<UV>>, s: Scan,
                     tris: seq<Polygon>, quads: seq<Polygon>, uvs: seq<UV>, li: seq<nat>, geometry: seq<byte>, out: seq<byte>)
    requires PassedChecks(m, fmt, s) && tris == Tris(m.polygons) && quads == Quads(m.polygons)
    requires fmt == UVFace ==> uvs == Dedup(LoopUVs(m)) && li == UVIndices(LoopUVs(m))
    requires fmt == UVFace ==> LoopIndicesBelow(tris, |li|) && LoopIndicesBelow(quads, |li|)
    requires fmt == UVVertex ==> AllSome(table)
    requires DiffShapes(s.rel, RefOf(m))
    requires HeaderFits(ExportHeader(m, fmt, s)) && RecordsFit(FaceVerts(tris), 4) && RecordsFit(FaceVerts(quads), 4)
    requires geometry == [] + EncodeHeader(ExportHeader(m, fmt, s)) + Concat(m.vertices) + Concat(s.pool)
                         + Records(FaceVerts(tris), 4) + Records(FaceVerts(quads), 4)
    requires UVSectionFits(UVSectionFrom(fmt, table, uvs, li, tris, quads))
    requires forall j :: 0 <= j < |s.rel| ==> DiffFits(DiffMorphsOf(s.rel, RefOf(m), fl)[j])
    requires forall j :: 0 <= j < |s.abs| ==> StatFits(StatMorphsOf(s)[j])
    requires out == geometry + UVBytes(UVSectionFrom(fmt, table, uvs, li, tris, quads))
                    + DiffsBytes(DiffMorphsOf(s.rel, RefOf(m), fl)) + StatsBytes(StatMorphsOf(s))
    ensures WriteResult(m, fmt, fl, table, s) == Ok(out) && WrittenFrom(m, fmt, fl, table, s) == out
  {
    assert [] + EncodeHeader(ExportHeader(m, fmt, s)) == EncodeHeader(ExportHeader(m, fmt, s));
    assert UVSectionFrom(fmt, table, uvs, li, tris, quads) == UVSectionOf(m, fmt, table);
    ExportFileFits(m, fmt, fl, table, s);
  }

  lemma {:induction false} GeometryWritten(m: MeshData, fmt: UVFormat, s: Scan, geometry: seq<byte>)
    requires PassedChecks(m, fmt, s)
    requires HeaderFits(ExportHeader(m, fmt, s))
    requires RecordsFit(FaceVerts(Tris(m.polygons)), 4) && RecordsFit(FaceVerts(Quads(m.polygons)), 4)
    requires geometry == [] + EncodeHeader(ExportHeader(m, fmt, s)) + Concat(m.vertices) + Concat(s.pool)
                         + Records(FaceVerts(Tris(m.polygons)), 4) + Records(FaceVerts(Quads(m.polygons)), 4)
    ensures geometry == GeometryBytes(m, fmt, s)
  {
    assert [] + EncodeHeader(ExportHeader(m, fmt, s)) == EncodeHeader(ExportHeader(m, fmt, s));
  }

  /** A vertex without a UV ends the export after the face lists (io.py:172). */
  lemma {:induction false} WrittenWithoutUV(m: MeshData, fmt: UVFormat, fl: Floats, table: seq<Option<UV>>, s: Scan)
    requires PassedChecks(m, fmt, s) && fmt == UVVertex && !AllSome(table)
    ensures WrittenFrom(m, fmt, fl, table, s) == GeometryBytes(m, fmt, s)
  {
  }

  /** A relative morph of a mesh without vertices ends the export after the UV section (io.py:191). */
  lemma {:induction false} WrittenWithoutVertices(m: MeshData, fmt: UVFormat, fl: Floats, table: seq<Option<UV>>, s: Scan,
                     tris: seq<Polygon>, quads: seq<Polygon>, uvs: seq<UV>, li: seq<nat>, geometry: seq<byte>, out: seq<byte>)
    requires PassedChecks(m, fmt, s) && tris == Tris(m.polygons) && quads == Quads(m.polygons)
    requires fmt == UVFace ==> uvs == Dedup(LoopUVs(m)) && li == UVIndices(LoopUVs(m))
    requires fmt == UVFace ==> LoopIndicesBelow(tris, |li|) && LoopIndicesBelow(quads, |li|)
    requires fmt == UVVertex ==> AllSome(table)
    requires s.rel != [] && |m.vertices| == 0
    requires geometry == GeometryBytes(m, fmt, s)
    requires UVSectionFits(UVSectionFrom(fmt, table, uvs, li, tris, quads))
    requires out == geometry + UVBytes(UVSectionFrom(fmt, table, uvs, li, tris, quads))
    ensures WrittenFrom(m, fmt, fl, table, s) == out
  {
    assert UVSectionFrom(fmt, table, uvs, li, tris, quads) == UVSectionOf(m, fmt, table);
  }

  /**
   * Everything from the header on, into a freshly opened file: the result is
   * what WriteResult specifies, and out is what the file holds afterwards,
   * also when an exception ends the writing.
   */
  method WriteTri(m: MeshData, fmt: UVFormat, fl: Floats, table: seq<Option<UV>>, s: Scan,
                  tris: seq<Polygon>, quads: seq<Polygon>, uvs: seq<UV>, li: seq<nat>)
    returns (r: Result<seq<byte>, ExportError>, out: seq<byte>)
    requires PassedChecks(m, fmt, s) && tris == Tris(m.polygons) && quads == Quads(m.polygons)
    requires fmt == UVFace ==> uvs == Dedup(LoopUVs(m)) && li == UVIndices(LoopUVs(m))
    ensures r == WriteResult(m, fmt, fl, table, s)
    ensures out == WrittenFrom(m, fmt, fl, table, s)
  {
    var w := new ByteWriter();
    WriteGeometry(w, m, fmt, s, tris, quads);
    ghost var geometry := w.out;
    GeometryWritten(m, fmt, s, geometry);
    if fmt == UVFace {
      UVSectionFitsOf(m, fmt, table);
      assert LoopIndicesBelow(m.polygons, |li|);
      GroupLoopIndices(m.polygons, |li|);
    }
    var ok := WriteUVs(w, fmt, table, uvs, li, tris, quads);
    if !ok {
      WrittenWithoutUV(m, fmt, fl, table, s);
      return Err(VertexWithoutUV), w.out;
    }
    r := WriteMorphs(w, m, fmt, fl, table, s, tris, quads, uvs, li, geometry);
    return r, w.out;
  }

  /**
   * The diff and then the stat morphs (io.py:180-210), once the header, the
   * geometry and the UV section are in the file.
   */
  method WriteMorphs(w: ByteWriter, m: MeshData, fmt: UVFormat, fl: Floats, table: seq<Option<UV>>, s: Scan,
                     tris: seq<Polygon>, quads: seq<Polygon>, uvs: seq<UV>, li: seq<nat>, ghost geometry: seq<byte>)
    returns (r: Result<seq<byte>, ExportError>)
    requires PassedChecks(m, fmt, s) && tris == Tris(m.polygons) && quads == Quads(m.polygons)
    requires fmt == UVFace ==> uvs == Dedup(LoopUVs(m)) && li == UVIndices(LoopUVs(m))
    requires fmt == UVFace ==> LoopIndicesBelow(tris, |li|) && LoopIndicesBelow(quads, |li|)
    requires fmt == UVVertex ==> AllSome(table)
    requires HeaderFits(ExportHeader(m, fmt, s)) && RecordsFit(FaceVerts(tris), 4) && RecordsFit(FaceVerts(quads), 4)
    requires geometry == [] + EncodeHeader(ExportHeader(m, fmt, s)) + Concat(m.vertices) + Concat(s.pool)
                         + Records(FaceVerts(tris), 4) + Records(FaceVerts(quads), 4)
    requires geometry == GeometryBytes(m, fmt, s)
    requires UVSectionFits(UVSectionFrom(fmt, table, uvs, li, tris, quads))
    requires w.out == geometry + UVBytes(UVSectionFrom(fmt, table, uvs, li, tris, quads))
    modifies w
    ensures r == WriteResult(m, fmt, fl, table, s)
    ensures w.out == WrittenFrom(m, fmt, fl, table, s)
  {
    MorphsFit(m, s, fl);
    var ok := WriteDiffMorphs(w, s.rel, RefOf(m), fl);
    if !ok {
      WrittenWithoutVertices(m, fmt, fl, table, s, tris, quads, uvs, li, geometry, w.out);
      return Err(NoVertices);
    }
    WriteStatMorphs(w, s);
    ExportLayout(m, fmt, fl, table, s, tris, quads, uvs, li, geometry, w.out);
    return Ok(w.out);
  }

  /**
   * export_tri: the same checks in the same order, then the file written
   * section by section; the result is what Encode specifies.
   */
  method ExportTri(m: MeshData, fmt: UVFormat, fl: Floats)
    returns (r: Result<seq<byte>, ExportError>, written: Option<seq<byte>>)
    requires WellFormed(m)
    ensures r == Encode(m, fmt, fl)
    ensures written == Written(m, fmt, fl)
  {
    var parts := PartitionFaces(m.polygons);
    if parts.Err? {
      return Err(NotTriOrQuad), None;
    }
    var (tris, quads) := parts.value;
    var table: seq<Option<UV>> := [];
    var uvs: seq<UV> := [];
    var li: seq<nat> := [];
    if fmt == UVVertex {
      if m.uvLayer.None? {
        return Err(NoUVLayer), None;
      }
      var t := VertexUVs(|m.vertices|, m.loopVertex, m.uvLayer.value);
      if t.Err? {
        return Err(UVSeam), None;
      }
      table := t.value;
    } else if fmt == UVFace {
      if m.uvLayer.None? {
        return Err(NoUVLayer), None;
      }
      uvs, li := FaceUVs(m.uvLayer.value);
    }
    assert table == VertexTable(m, fmt).value;
    var sc := Ok(Scan([], [], [], []));
    if m.shapeKeys.Some? {
      sc := ScanShapes(m.shapeKeys.value, |m.vertices|);
    }
    if sc.Err? {
      return Err(EmptyShapeName), None;
    }
    var s := sc.value;
    if !IsInt32(|s.pool|) {
      return Err(CountOverflow), Some([]);
    }
    ScanOfSpecified(m);
    var out;
    r, out := WriteTri(m, fmt, fl, table, s, tris, quads, uvs, li);
    written := Some(out);
  }
}
