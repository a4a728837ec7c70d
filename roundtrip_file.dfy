/**
 * Reading back what the writer lays out: for a canonical file (`Canonical`:
 * counts that match the sections, no labels, fixed face widths, indices
 * below V and X, and a pool the stat morphs use up, which is what export_tri
 * always produces), import_tri's reader recovers every section
 * (io.py:145-210 against io.py:215-296).
 *
 * The proofs of the UV and stat-morph loops bundle their state in ghost
 * predicates whose quantifier is guarded by a trigger predicate that is always
 * true (Placed, Resumed, Ending, Keyed). Such a fact is opened only where a
 * proof asserts the trigger at one offset, which keeps the verifier from
 * instantiating it at every offset it knows. Where one of these predicates is
 * required or ensured it is compared with `true`, so that the verifier takes
 * it as one fact and does not unfold it there.
 */
module FileRoundTrip {
  import opened Wrappers
  import opened Bytes
  import opened Geometry
  import opened TriFormat
  import opened ImportSpec

  // ---------------------------------------------------------------- sections

  /** The eight sections of the file image, in file order. */
  function Parts(f: TriFile): (ps: seq<seq<byte>>)
    requires FileFits(f)
    ensures |ps| == 8
  {
    [EncodeHeader(f.header), Concat(f.vertices), Concat(f.pool), Records(f.tris, 4), Records(f.quads, 4),
     UVBytes(f.uv), DiffsBytes(f.diffs), StatsBytes(f.stats)]
  }

  /** The strings of ps one after another. */
  function Join(ps: seq<seq<byte>>): (r: seq<byte>)
  {
    if ps == [] then [] else Join(ps[..|ps| - 1]) + ps[|ps| - 1]
  }

  lemma {:induction false} JoinSnoc(ps: seq<seq<byte>>, k: nat)
    requires k < |ps|
    ensures Join(ps[..k + 1]) == Join(ps[..k]) + ps[k]
  {
    assert ps[..k + 1][..k] == ps[..k];
  }

  /** Inside the first n strings laid out from offset 0, string k starts after the k before it. */
  lemma {:induction false} JoinAt(data: seq<byte>, ps: seq<seq<byte>>, k: nat, n: nat)
    requires k < n <= |ps| && At(data, 0, Join(ps[..n]))
    ensures At(data, |Join(ps[..k])|, ps[k])
    decreases n
  {
    JoinSnoc(ps, n - 1);
    AtSplit(data, 0, Join(ps[..n - 1]), ps[n - 1]);
    if k < n - 1 {
      JoinAt(data, ps, k, n - 1);
    }
  }

  /** The image is its eight sections joined. */
  lemma {:induction false} LayoutIsJoin(f: TriFile)
    requires FileFits(f)
    ensures Layout(f) == Join(Parts(f))
  {
    var ps := Parts(f);
    assert ps[..8] == ps;
    assert ps[..0] == [];
    JoinSnoc(ps, 0);
    assert Join(ps[..1]) == ps[0];
    JoinSnoc(ps, 1);
    JoinSnoc(ps, 2);
    JoinSnoc(ps, 3);
    JoinSnoc(ps, 4);
    JoinSnoc(ps, 5);
    JoinSnoc(ps, 6);
    JoinSnoc(ps, 7);
  }

  /** The offset at which section k of Layout(f) starts. */
  function Offset(f: TriFile, k: nat): (o: nat)
    requires FileFits(f) && k <= 8
    ensures k == 0 ==> o == 0
  {
    assert Parts(f)[..0] == [];
    |Join(Parts(f)[..k])|
  }

  /** Section k of Layout(f) sits at Offset(f, k), and the next section starts right after it. */
  lemma {:induction false} PartAt(f: TriFile, k: nat)
    requires FileFits(f) && k < 8
    ensures At(Layout(f), Offset(f, k), Parts(f)[k])
    ensures Offset(f, k + 1) == Offset(f, k) + |Parts(f)[k]|
  {
    var ps := Parts(f);
    LayoutIsJoin(f);
    assert ps[..8] == ps;
    assert At(Layout(f), 0, Join(ps[..8]));
    JoinAt(Layout(f), ps, k, 8);
    JoinSnoc(ps, k);
  }

  // ---------------------------------------------------------------- records

  /** Each record packed on its own. */
  function Packed(rs: seq<seq<int>>, w: nat): (cs: seq<seq<byte>>)
    requires w >= 1 && RecordsFit(rs, w)
    ensures |cs| == |rs| && forall i :: 0 <= i < |rs| ==> cs[i] == IntsLE(rs[i], w)
  {
    seq(|rs|, i requires 0 <= i < |rs| => IntsLE(rs[i], w))
  }

  /** Every record of rs holds k integers. */
  predicate Widths(rs: seq<seq<int>>, k: nat)
  {
    forall i :: 0 <= i < |rs| ==> |rs[i]| == k
  }

  /** Every integer of every record of rs lies in 0 .. n - 1. */
  predicate Below(rs: seq<seq<int>>, n: nat)
  {
    forall i, j :: 0 <= i < |rs| && 0 <= j < |rs[i]| ==> 0 <= rs[i][j] < n
  }

  lemma {:induction false} RecordsArePacked(rs: seq<seq<int>>, w: nat)
    requires w >= 1 && RecordsFit(rs, w)
    ensures Records(rs, w) == Concat(Packed(rs, w))
    decreases |rs|
  {
    if rs != [] {
      assert Packed(rs, w)[1..] == Packed(rs[1..], w);
      RecordsArePacked(rs[1..], w);
    }
  }

  /** Fixed-width byte records (positions, UVs) come back as they were. */
  lemma {:induction false} ReadBytesOf(data: seq<byte>, pos: nat, cs: seq<seq<byte>>, w: nat)
    requires w >= 1 && AllLength(cs, w) && At(data, pos, Concat(cs))
    ensures ReadChunks(data, pos, |cs|, w, []) == Ok(Got(cs, pos + |Concat(cs)|))
  {
    ReadChunksOf(data, pos, cs, w, []);
    assert [] + cs == cs;
  }

  // ---------------------------------------------------------------- faces and loops

  /** a and b hold as many records, record by record of the same length. */
  predicate SameShape(a: seq<seq<int>>, b: seq<seq<int>>)
  {
    |a| == |b| && forall i :: 0 <= i < |a| ==> |a[i]| == |b[i]|
  }

  /** Every loop of faces whose records all lie below n lies below n. */
  lemma {:induction false} LoopsBelow(faces: seq<seq<int>>, n: nat)
    requires Below(faces, n)
    ensures forall l :: 0 <= l < |Loops(faces)| ==> 0 <= Loops(faces)[l] < n
    decreases |faces|
  {
    if faces != [] {
      var init := faces[..|faces| - 1];
      var last := faces[|faces| - 1];
      assert Below(init, n) by {
        forall i, j | 0 <= i < |init| && 0 <= j < |init[i]| ensures 0 <= init[i][j] < n {
          assert init[i] == faces[i];
        }
      }
      LoopsBelow(init, n);
      assert forall j :: 0 <= j < |last| ==> 0 <= last[j] < n;
    }
  }

  /** Records of the same shapes give loop lists of the same length. */
  lemma {:induction false} LoopsSameShape(a: seq<seq<int>>, b: seq<seq<int>>)
    requires SameShape(a, b)
    ensures |Loops(a)| == |Loops(b)|
    decreases |a|
  {
    if a != [] {
      LoopsSameShape(a[..|a| - 1], b[..|b| - 1]);
    }
  }

  /** ... and polygon j starts at the same loop in both. */
  lemma {:induction false} LoopStartSameShape(a: seq<seq<int>>, b: seq<seq<int>>, j: nat)
    requires SameShape(a, b) && j <= |a|
    ensures LoopStart(a, j) == LoopStart(b, j)
  {
    LoopsSameShape(a[..j], b[..j]);
  }

  // ---------------------------------------------------------------- what import builds

  /** The stat morphs only list vertices of the mesh. */
  predicate StatsBelow(ss: seq<StatMorph>, n: nat)
  {
    forall j, i :: 0 <= j < |ss| && 0 <= i < |ss[j].indices| ==> 0 <= ss[j].indices[i] < n
  }

  /** How many pooled targets the stat morphs take: the sum of their counts L. */
  function SumIndices(ss: seq<StatMorph>): nat
  {
    if ss == [] then 0 else |ss[0].indices| + SumIndices(ss[1..])
  }

  /** The UV section agrees with the header, and the per-face indices fit their faces and the pool. */
  predicate UVCanonical(f: TriFile)
  {
    match f.uv
    case NoUVs => f.header.ext == 0
    case VertexUVs(uvs) => f.header.ext == 1 && f.header.x == 0 && |uvs| == |f.vertices|
    case FaceUVs(uvs, ti, qi) =>
      && f.header.ext == 1 && f.header.x == |uvs| > 0
      && |ti| == |f.tris| && |qi| == |f.quads| && Widths(ti, 3) && Widths(qi, 4)
      && Below(ti + qi, |uvs|)
  }

  /**
   * A file whose header counts are those of its sections, as export_tri
   * writes them: triangles of three corners, quads of four, indices that
   * refer to what they index, and a pool the stat morphs use up.
   */
  predicate Canonical(f: TriFile)
  {
    && FileFits(f)
    && f.header.v == |f.vertices| && f.header.k == |f.pool|
    && f.header.t == |f.tris| && f.header.q == |f.quads|
    && f.header.lv == 0 && f.header.ls == 0
    && f.header.md == |f.diffs| && f.header.ms == |f.stats|
    && Widths(f.tris, 3) && Widths(f.quads, 4)
    && Below(f.tris + f.quads, |f.vertices|)
    && UVCanonical(f)
    && (forall i :: 0 <= i < |f.diffs| ==> |f.diffs[i].deltas| == |f.vertices| && Widths(f.diffs[i].deltas, 3))
    && StatsBelow(f.stats, |f.vertices|)
    && SumIndices(f.stats) == |f.pool|
  }

  /**
   * The UV of every loop: in per-vertex mode the UV of the loop's vertex, in
   * per-face mode the UV its corner's index names.
   */
  function LayerOf(f: TriFile): (r: Option<seq<UV>>)
    requires Canonical(f)
    ensures r.Some? <==> !f.uv.NoUVs?
    ensures r.Some? ==> |r.value| == |Loops(f.tris + f.quads)|
  {
    match f.uv
    case NoUVs => None
    case VertexUVs(uvs) => Some(LoopUVs(uvs, f.tris + f.quads))
    case FaceUVs(uvs, ti, qi) =>
      ShapeOfWidths(f.tris, f.quads, ti, qi);
      LoopsSameShape(f.tris + f.quads, ti + qi);
      Some(LoopUVs(uvs, ti + qi))
  }

  /** Loop l takes the UV that the l-th entry of the index records names. */
  function LoopUVs(uvs: seq<UV>, ix: seq<seq<int>>): (r: seq<UV>)
    requires Below(ix, |uvs|)
    ensures |r| == |Loops(ix)|
  {
    LoopsBelow(ix, |uvs|);
    PickUVs(uvs, Loops(ix))
  }

  /** uvs[loops[0]], uvs[loops[1]], ... */
  function PickUVs(uvs: seq<UV>, loops: seq<int>): (r: seq<UV>)
    requires forall l :: 0 <= l < |loops| ==> 0 <= loops[l] < |uvs|
    ensures |r| == |loops| && forall l :: 0 <= l < |loops| ==> r[l] == uvs[loops[l]]
  {
    if loops == [] then [] else [uvs[loops[0]]] + PickUVs(uvs, loops[1..])
  }

  /**
   * The absolute shapes: each is the basis with its listed vertices moved to
   * the next targets of the pool, and is named "*" + its label.
   */
  function StatKeys(vertices: seq<Pos>, pool: seq<Pos>, ss: seq<StatMorph>, kpos: nat): (ks: seq<ShapeKey>)
    requires StatsBelow(ss, |vertices|) && kpos + SumIndices(ss) <= |pool|
    ensures |ks| == |ss|
  {
    if ss == [] then []
    else
      var n := |ss[0].indices|;
      [ShapeKey(GetAbsMorphName(ss[0].text), Assign(vertices, ss[0].indices, pool[kpos .. kpos + n]))]
        + StatKeys(vertices, pool, ss[1..], kpos + n)
  }

  /** What import_tri builds from a canonical file. */
  function ImportedOf(f: TriFile): Imported
    requires Canonical(f)
  {
    Imported(false, f.vertices, f.tris + f.quads, LayerOf(f), f.header.md > 0 || f.header.ms > 0,
             f.diffs, StatKeys(f.vertices, f.pool, f.stats, 0))
  }

  // ---------------------------------------------------------------- reading back

  /** The four geometry sections, laid one after the other from byte 64, read back as written. */
  lemma {:induction false} ReadGeometryFrom(data: seq<byte>, h: Header, vertices: seq<Pos>, pool: seq<Pos>,
                         tris: seq<seq<int>>, quads: seq<seq<int>>, p2: nat, p3: nat, p4: nat, p5: nat)
    requires Count(h.v) == |vertices| && Count(h.k) == |pool| && Count(h.t) == |tris| && Count(h.q) == |quads|
    requires RecordsFit(tris, 4) && Widths(tris, 3) && RecordsFit(quads, 4) && Widths(quads, 4)
    requires At(data, 64, Concat(vertices)) && p2 == 64 + |Concat(vertices)|
    requires At(data, p2, Concat(pool)) && p3 == p2 + |Concat(pool)|
    requires At(data, p3, Records(tris, 4)) && p4 == p3 + |Records(tris, 4)|
    requires At(data, p4, Records(quads, 4)) && p5 == p4 + |Records(quads, 4)|
    ensures ReadGeometry(data, h) == Ok(Sections(vertices, pool, tris + quads, p5))
  {
    ReadPositions(data, 64, Count(h.v), vertices, p2);
    ReadPositions(data, p2, Count(h.k), pool, p3);
    ReadFaces(data, p3, Count(h.t), tris, 3, p4);
    ReadFaces(data, p4, Count(h.q), quads, 4, p5);
  }

  /** n positions of 12 bytes each, read back from where they lie. */
  lemma {:induction false} ReadPositions(data: seq<byte>, pos: nat, n: nat, cs: seq<Pos>, next: nat)
    requires n == |cs| && At(data, pos, Concat(cs)) && next == pos + |Concat(cs)|
    ensures ReadChunks(data, pos, n, 12, []) == Ok(Got(cs, next))
  {
    ReadBytesOf(data, pos, cs, 12);
  }

  /** n faces of k corners, read back from where they lie, as records of 4 * k bytes. */
  lemma {:induction false} ReadFaces(data: seq<byte>, pos: nat, n: nat, rs: seq<seq<int>>, k: nat, next: nat)
    requires k >= 1 && n == |rs| && RecordsFit(rs, 4) && Widths(rs, k)
    requires At(data, pos, Records(rs, 4)) && next == pos + |Records(rs, 4)|
    ensures ReadChunks(data, pos, n, 4 * k, []) == Ok(Got(Packed(rs, 4), next))
    ensures Tuples(Packed(rs, 4), 4) == rs
  {
    var cs := Packed(rs, 4);
    forall i | 0 <= i < |rs|
      ensures |cs[i]| == 4 * k && IntsFrom(cs[i], 4) == rs[i]
    {
      IntsRoundTrip(rs[i], 4);
    }
    RecordsArePacked(rs, 4);
    ReadChunksOf(data, pos, cs, 4 * k, []);
    assert [] + cs == cs;
  }

  /** The geometry sections read back as written. */
  lemma {:induction false} ReadGeometryOf(f: TriFile)
    requires Canonical(f)
    ensures ReadGeometry(Layout(f), f.header) == Ok(Sections(f.vertices, f.pool, f.tris + f.quads, Offset(f, 5)))
  {
    PartAt(f, 0);
    PartAt(f, 1);
    PartAt(f, 2);
    PartAt(f, 3);
    PartAt(f, 4);
    ReadGeometryFrom(Layout(f), f.header, f.vertices, f.pool, f.tris, f.quads,
                     Offset(f, 2), Offset(f, 3), Offset(f, 4), Offset(f, 5));
  }

  /** A header that starts with the signature and decodes to the header written. */
  lemma {:induction false} ReadHeaderOf(f: TriFile)
    requires FileFits(f)
    ensures Chunk(Layout(f), 0, 8) == SIGNATURE
    ensures |Chunk(Layout(f), 8, 56)| == 56 && DecodeHeader(Chunk(Layout(f), 8, 56)) == f.header
  {
    PartAt(f, 0);
    var e := EncodeHeader(f.header);
    assert Layout(f)[..64] == e;
    assert Layout(f)[..8] == e[..8];
    assert Layout(f)[8..64] == e[8..];
    HeaderRoundTrip(f.header);
  }

  /** n UVs of 8 bytes each, read back from where they lie. */
  lemma {:induction false} ReadUVs(data: seq<byte>, pos: nat, n: nat, cs: seq<UV>, next: nat)
    requires n == |cs| && At(data, pos, Concat(cs)) && next == pos + |Concat(cs)|
    ensures ReadChunks(data, pos, n, 8, []) == Ok(Got(cs, next))
  {
    ReadBytesOf(data, pos, cs, 8);
  }

  /** The loops below p already hold the UVs the index records name for them. */
  predicate Painted(layer: seq<UV>, ix: seq<seq<int>>, uvs: seq<UV>, p: nat)
  {
    && p <= |layer| && p <= |Loops(ix)|
    && forall l :: 0 <= l < p ==> 0 <= Loops(ix)[l] < |uvs| && layer[l] == uvs[Loops(ix)[l]]
  }

  /** Polygon j + 1 starts where polygon j ends. */
  lemma {:induction false} LoopStartNext(faces: seq<seq<int>>, j: nat)
    requires j < |faces|
    ensures LoopStart(faces, j + 1) == LoopStart(faces, j) + |faces[j]|
  {
    assert faces[..j + 1][..j] == faces[..j];
  }

  /** goal is what the per-face loop computes from offset pos on; used only at offsets reached. */
  ghost predicate FaceRun(goal: Result<Got<seq<UV>>, DecodeError>, data: seq<byte>, pos: nat, i: int, hi: int,
                          width: nat, faces: seq<seq<int>>, uvs: seq<UV>, layer: seq<UV>)
  {
    forall p: nat {:trigger Reached(p)} :: Reached(p) && p == pos && |layer| == |Loops(faces)| ==>
      goal == FaceModeUVs(data, p, i, hi, width, faces, uvs, layer)
  }

  /** One turn of the per-face loop: polygon i's corners get the UVs its index record names. */
  lemma {:induction false} FaceModeHead(data: seq<byte>, pos: nat, i: nat, hi: nat, width: nat, faces: seq<seq<int>>,
                     ix: seq<seq<int>>, uvs: seq<UV>, layer: seq<UV>, goal: Result<Got<seq<UV>>, DecodeError>)
    returns (next: seq<UV>)
    requires i < hi <= |faces| && SameShape(faces, ix) && RecordsFit(ix, 4) && Below(ix, |uvs|)
    requires |layer| == |Loops(faces)| && |ix[i]| == width
    requires At(data, pos, Records(ix[i..hi], 4))
    requires Painted(layer, ix, uvs, LoopStart(faces, i))
    requires FaceRun(goal, data, pos, i, hi, width, faces, uvs, layer)
    ensures |next| == |layer| && Painted(next, ix, uvs, LoopStart(faces, i + 1))
    ensures FaceRun(goal, data, pos + 4 * width, i + 1, hi, width, faces, uvs, next)
    ensures At(data, pos + 4 * width, Records(ix[i + 1 .. hi], 4))
    ensures |Records(ix[i..hi], 4)| == 4 * width + |Records(ix[i + 1 .. hi], 4)|
  {
    var rec := ix[i];
    assert ix[i..hi][0] == rec && ix[i..hi][1..] == ix[i + 1 .. hi];
    AtSplit(data, pos, IntsLE(rec, 4), Records(ix[i + 1 .. hi], 4));
    assert Inspected(pos);
    assert Chunk(data, pos, 4 * width) == IntsLE(rec, 4);
    IntsRoundTrip(rec, 4);
    LoopEnd(faces, i);
    assert CornersValid(|faces[i]|, rec, uvs) by {
      forall k | 0 <= k < |rec| ensures PyIndex(rec[k], |uvs|).Some? {
        assert 0 <= ix[i][k] < |uvs|;
      }
    }
    next := FaceCornerUVs(layer, LoopStart(faces, i), |faces[i]|, rec, uvs).value;
    PaintFace(faces, ix, uvs, layer, i);
    FaceModeUnfold(data, pos, i, hi, width, faces, uvs, layer, rec, goal);
  }

  /** The per-face loop's step, once the record it reads is known to be rec. */
  lemma {:induction false} FaceModeUnfold(data: seq<byte>, pos: nat, i: nat, hi: nat, width: nat, faces: seq<seq<int>>,
                       uvs: seq<UV>, layer: seq<UV>, rec: seq<int>, goal: Result<Got<seq<UV>>, DecodeError>)
    requires i < hi <= |faces| && |layer| == |Loops(faces)|
    requires |Chunk(data, pos, 4 * width)| >= 4 * width && IntsFrom(Chunk(data, pos, 4 * width), 4) == rec
    requires LoopStart(faces, i) + |faces[i]| <= |layer| && CornersValid(|faces[i]|, rec, uvs)
    requires FaceRun(goal, data, pos, i, hi, width, faces, uvs, layer)
    ensures FaceRun(goal, data, pos + 4 * width, i + 1, hi, width, faces, uvs,
                    FaceCornerUVs(layer, LoopStart(faces, i), |faces[i]|, rec, uvs).value)
  {
    var next := FaceCornerUVs(layer, LoopStart(faces, i), |faces[i]|, rec, uvs).value;
    assert Reached(pos);
    assert goal == FaceModeUVs(data, pos + 4 * width, i + 1, hi, width, faces, uvs, next);
  }

  /** Setting polygon i's corners extends the painted loops over polygon i. */
  lemma {:induction false} PaintFace(faces: seq<seq<int>>, ix: seq<seq<int>>, uvs: seq<UV>, layer: seq<UV>, i: nat)
    requires i < |faces| && SameShape(faces, ix) && Below(ix, |uvs|) && |layer| == |Loops(faces)|
    requires Painted(layer, ix, uvs, LoopStart(faces, i))
    requires LoopStart(faces, i) + |faces[i]| <= |layer| && CornersValid(|faces[i]|, ix[i], uvs)
    ensures var next := FaceCornerUVs(layer, LoopStart(faces, i), |faces[i]|, ix[i], uvs).value;
      |next| == |layer| && Painted(next, ix, uvs, LoopStart(faces, i + 1))
  {
    var start := LoopStart(faces, i);
    var rec := ix[i];
    var next := FaceCornerUVs(layer, start, |faces[i]|, rec, uvs).value;
    LoopsOfFace(ix, i);
    LoopStartSameShape(faces, ix, i);
    LoopsSameShape(faces, ix);
    LoopStartNext(faces, i);
    forall l | 0 <= l < start + |faces[i]|
      ensures 0 <= Loops(ix)[l] < |uvs| && next[l] == uvs[Loops(ix)[l]]
    {
      if l >= start {
        var k := l - start;
        assert Loops(ix)[l] == Loops(ix)[start .. start + |rec|][k] == rec[k];
        assert 0 <= ix[i][k] < |uvs|;
      }
    }
  }

  /** Polygons i .. hi - 1 of per-face mode read back and paint their loops. */
  lemma {:induction false} FaceModeUVsOf(data: seq<byte>, pos: nat, i: nat, hi: nat, width: nat,
                                         faces: seq<seq<int>>, ix: seq<seq<int>>, uvs: seq<UV>, layer: seq<UV>,
                                         goal: Result<Got<seq<UV>>, DecodeError>)
    requires i <= hi <= |faces| && SameShape(faces, ix) && RecordsFit(ix, 4) && Below(ix, |uvs|)
    requires |layer| == |Loops(faces)| && forall j :: i <= j < hi ==> |ix[j]| == width
    requires At(data, pos, Records(ix[i..hi], 4))
    requires Painted(layer, ix, uvs, LoopStart(faces, i))
    requires FaceRun(goal, data, pos, i, hi, width, faces, uvs, layer)
    // compared with true so that the verifier takes the painted loops as one fact
    ensures goal.Ok? && goal.value.next == pos + |Records(ix[i..hi], 4)|
    ensures Painted(goal.value.value, ix, uvs, LoopStart(faces, hi)) == true
    decreases hi - i
  {
    if i == hi {
      assert ix[i..hi] == [];
      assert Reached(pos);
    } else {
      var next := FaceModeHead(data, pos, i, hi, width, faces, ix, uvs, layer, goal);
      FaceModeUVsOf(data, pos + 4 * width, i + 1, hi, width, faces, ix, uvs, next, goal);
    }
  }

  /** Per-vertex mode: the V UVs, and each loop takes its vertex's. */
  lemma {:induction false} ReadVertexLayerOf(data: seq<byte>, pos: nat, h: Header, vcount: nat, faces: seq<seq<int>>,
                          uvs: seq<UV>, next: nat)
    requires HasUVs(h.ext) && h.x == 0 && vcount == |uvs| && Below(faces, |uvs|)
    requires At(data, pos, Concat(uvs)) && next == pos + |Concat(uvs)|
    ensures ReadUVLayer(data, pos, h, vcount, faces) == Ok(Got(Some(LoopUVs(uvs, faces)), next))
  {
    ReadUVs(data, pos, vcount, uvs, next);
    LoopsBelow(faces, |uvs|);
    var loops := Loops(faces);
    assert forall l :: 0 <= l < |loops| ==> PyIndex(loops[l], |uvs|) == Some(loops[l]);
    var r := VertexModeUVs(loops, uvs);
    assert r.Ok?;
    assert r.value == LoopUVs(uvs, faces);
  }

  /** Polygons lo .. hi - 1 of per-face mode, whose index records are recs, read back and paint their loops. */
  lemma {:induction false} FaceRangeOf(data: seq<byte>, pos: nat, lo: nat, hi: nat, width: nat, faces: seq<seq<int>>,
                    ix: seq<seq<int>>, recs: seq<seq<int>>, uvs: seq<UV>, layer: seq<UV>)
    returns (painted: seq<UV>, next: nat)
    requires lo <= hi <= |faces| && SameShape(faces, ix) && RecordsFit(ix, 4) && Below(ix, |uvs|)
    requires |layer| == |Loops(faces)| && recs == ix[lo..hi] && Widths(recs, width)
    requires At(data, pos, Records(recs, 4))
    requires Painted(layer, ix, uvs, LoopStart(faces, lo))
    ensures FaceRun(Ok(Got(painted, next)), data, pos, lo, hi, width, faces, uvs, layer)
    ensures next == pos + |Records(recs, 4)| && |painted| == |layer|
    // compared with true so that the verifier takes the painted loops as one fact
    ensures Painted(painted, ix, uvs, LoopStart(faces, hi)) == true
  {
    forall j | lo <= j < hi ensures |ix[j]| == width {
      assert ix[j] == recs[j - lo];
    }
    var r := FaceModeUVs(data, pos, lo, hi, width, faces, uvs, layer);
    assert FaceRun(r, data, pos, lo, hi, width, faces, uvs, layer);
    FaceModeUVsOf(data, pos, lo, hi, width, faces, ix, uvs, layer, r);
    painted, next := r.value.value, r.value.next;
  }

  /** Triangles with three-index records and quads with four-index records: both lists have one shape. */
  lemma {:induction false} ShapeOfWidths(tris: seq<seq<int>>, quads: seq<seq<int>>, ti: seq<seq<int>>, qi: seq<seq<int>>)
    requires |tris| == |ti| && |quads| == |qi|
    requires Widths(tris, 3) && Widths(quads, 4) && Widths(ti, 3) && Widths(qi, 4)
    ensures SameShape(tris + quads, ti + qi)
    ensures (ti + qi)[0..|ti|] == ti && (ti + qi)[|ti| .. |ti| + |qi|] == qi
  {
    var faces, ix := tris + quads, ti + qi;
    forall j | 0 <= j < |faces| ensures |faces[j]| == |ix[j]| {
      if j < |tris| {
        assert faces[j] == tris[j] && ix[j] == ti[j];
      } else {
        assert faces[j] == quads[j - |tris|] && ix[j] == qi[j - |ti|];
      }
    }
    assert ix[0..|ti|] == ti;
    assert ix[|ti| .. |ti| + |qi|] == qi;
  }

  /** Every loop painted: the layer is the one the index records name. */
  lemma {:induction false} PaintedAll(layer: seq<UV>, faces: seq<seq<int>>, ix: seq<seq<int>>, uvs: seq<UV>)
    requires SameShape(faces, ix) && Below(ix, |uvs|) && |layer| == |Loops(faces)|
    requires Painted(layer, ix, uvs, LoopStart(faces, |faces|))
    ensures layer == LoopUVs(uvs, ix)
  {
    assert faces[..|faces|] == faces;
    LoopsSameShape(faces, ix);
  }

  /** Both per-face loops, triangles then quads, read back and paint every loop. */
  lemma {:induction false} FaceRangesOf(data: seq<byte>, p1: nat, tris: seq<seq<int>>, quads: seq<seq<int>>,
                     uvs: seq<UV>, ti: seq<seq<int>>, qi: seq<seq<int>>)
    returns (painted: seq<UV>, p2: nat, layer: seq<UV>, p3: nat)
    requires |tris| == |ti| && |quads| == |qi|
    requires Widths(tris, 3) && Widths(quads, 4) && Widths(ti, 3) && Widths(qi, 4)
    requires RecordsFit(ti, 4) && RecordsFit(qi, 4) && Below(ti + qi, |uvs|)
    requires At(data, p1, Records(ti, 4)) && At(data, p1 + |Records(ti, 4)|, Records(qi, 4))
    ensures p2 == p1 + |Records(ti, 4)| && |painted| == |Loops(tris + quads)|
    ensures FaceRun(Ok(Got(painted, p2)), data, p1, 0, |ti|, 3, tris + quads, uvs, BlankLayer(|Loops(tris + quads)|))
    ensures FaceRun(Ok(Got(layer, p3)), data, p2, |ti|, |ti| + |qi|, 4, tris + quads, uvs, painted)
    ensures layer == LoopUVs(uvs, ti + qi) && p3 == p2 + |Records(qi, 4)|
  {
    var faces, ix := tris + quads, ti + qi;
    ShapeOfWidths(tris, quads, ti, qi);
    LoopsSameShape(faces, ix);
    assert RecordsFit(ix, 4);
    var blank := BlankLayer(|Loops(faces)|);
    assert faces[..0] == [];
    assert Painted(blank, ix, uvs, LoopStart(faces, 0));
    painted, p2 := FaceRangeOf(data, p1, 0, |ti|, 3, faces, ix, ti, uvs, blank);
    layer, p3 := FaceRangeOf(data, p2, |ti|, |ti| + |qi|, 4, faces, ix, qi, uvs, painted);
    PaintedAll(layer, faces, ix, uvs);
  }

  /** The per-face branch of the UV section, once its three reads are known. */
  lemma {:induction false} FaceLayerUnfold(data: seq<byte>, pos: nat, h: Header, vcount: nat, faces: seq<seq<int>>,
                        uvs: seq<UV>, nt: nat, nq: nat, p1: nat, painted: seq<UV>, p2: nat, layer: seq<UV>, p3: nat)
    requires HasUVs(h.ext) && h.x != 0 && h.t == nt && h.q == nq
    requires At(data, pos, Concat(uvs)) && p1 == pos + |Concat(uvs)| && Count(h.x) == |uvs|
    requires |painted| == |Loops(faces)|
    requires FaceRun(Ok(Got(painted, p2)), data, p1, 0, nt, 3, faces, uvs, BlankLayer(|Loops(faces)|))
    requires FaceRun(Ok(Got(layer, p3)), data, p2, nt, nt + nq, 4, faces, uvs, painted)
    ensures ReadUVLayer(data, pos, h, vcount, faces) == Ok(Got(Some(layer), p3))
  {
    ReadUVs(data, pos, Count(h.x), uvs, p1);
    assert Reached(p1) && Reached(p2);
  }

  /** Per-face mode: the X UVs, then a record of corner indices per triangle and per quad. */
  lemma {:induction false} ReadFaceLayerOf(data: seq<byte>, pos: nat, h: Header, vcount: nat, tris: seq<seq<int>>,
                        quads: seq<seq<int>>, uvs: seq<UV>, ti: seq<seq<int>>, qi: seq<seq<int>>, next: nat)
    requires HasUVs(h.ext) && h.x == |uvs| > 0 && h.t == |tris| == |ti| && h.q == |quads| == |qi|
    requires Widths(tris, 3) && Widths(quads, 4) && Widths(ti, 3) && Widths(qi, 4)
    requires RecordsFit(ti, 4) && RecordsFit(qi, 4) && Below(ti + qi, |uvs|)
    requires At(data, pos, Concat(uvs) + Records(ti, 4) + Records(qi, 4))
    requires next == pos + |Concat(uvs) + Records(ti, 4) + Records(qi, 4)|
    ensures ReadUVLayer(data, pos, h, vcount, tris + quads) == Ok(Got(Some(LoopUVs(uvs, ti + qi)), next))
  {
    AtSplit(data, pos, Concat(uvs) + Records(ti, 4), Records(qi, 4));
    AtSplit(data, pos, Concat(uvs), Records(ti, 4));
    var p1 := pos + |Concat(uvs)|;
    var painted, p2, layer, p3 := FaceRangesOf(data, p1, tris, quads, uvs, ti, qi);
    assert p3 == next;
    FaceLayerUnfold(data, pos, h, vcount, tris + quads, uvs, |ti|, |qi|, p1, painted, p2, layer, next);
  }

  /** The UV section read back: the layer LayerOf describes, ending where the diff morphs start. */
  lemma {:induction false} ReadUVLayerOf(f: TriFile)
    requires Canonical(f)
    ensures ReadUVLayer(Layout(f), Offset(f, 5), f.header, Count(f.header.v), f.tris + f.quads)
         == Ok(Got(LayerOf(f), Offset(f, 6)))
  {
    PartAt(f, 5);
    var data, pos, next := Layout(f), Offset(f, 5), Offset(f, 6);
    match f.uv
    case NoUVs =>
    case VertexUVs(uvs) =>
      ReadVertexLayerOf(data, pos, f.header, Count(f.header.v), f.tris + f.quads, uvs, next);
    case FaceUVs(uvs, ti, qi) =>
      ReadFaceLayerOf(data, pos, f.header, Count(f.header.v), f.tris, f.quads, uvs, ti, qi, next);
  }

  // ---------------------------------------------------------------- morphs

  /** n int16 triples, read back as 6-byte records. */
  lemma {:induction false} ReadDeltas(data: seq<byte>, pos: nat, rs: seq<seq<int>>, next: nat)
    requires RecordsFit(rs, 2) && Widths(rs, 3)
    requires At(data, pos, Records(rs, 2)) && next == pos + |Records(rs, 2)|
    ensures ReadChunks(data, pos, |rs|, 6, []) == Ok(Got(Packed(rs, 2), next))
    ensures Tuples(Packed(rs, 2), 2) == rs
  {
    var cs := Packed(rs, 2);
    forall i | 0 <= i < |rs|
      ensures |cs[i]| == 6 && IntsFrom(cs[i], 2) == rs[i]
    {
      IntsRoundTrip(rs[i], 2);
    }
    RecordsArePacked(rs, 2);
    ReadChunksOf(data, pos, cs, 6, []);
    assert [] + cs == cs;
  }

  /** A diff morph written for a mesh of vcount vertices reads back as written. */
  lemma {:induction false} ReadDiffMorphOf(data: seq<byte>, pos: nat, d: DiffMorph, vcount: nat, next: nat)
    requires DiffFits(d) && |d.deltas| == vcount && Widths(d.deltas, 3)
    requires At(data, pos, DiffBytes(d)) && next == pos + |DiffBytes(d)|
    ensures ReadDiffMorph(data, pos, vcount) == Ok(Got(d, next))
  {
    AtSplit(data, pos, LabelBytes(d.text) + d.scale, Records(d.deltas, 2));
    AtSplit(data, pos, LabelBytes(d.text), d.scale);
    ReadLabelOf(data, pos, d.text);
    var p := pos + 4 + |d.text|;
    assert Inspected(p);
    assert Chunk(data, p, 4) == d.scale;
    ReadDeltas(data, p + 4, d.deltas, next);
  }

  /** Moving the head of xs onto the end of acc. */
  lemma {:induction false} AppendHead<T>(acc: seq<T>, xs: seq<T>)
    requires xs != []
    ensures acc + xs == (acc + [xs[0]]) + xs[1..]
  {
    assert xs == [xs[0]] + xs[1..];
  }

  /** The diff morphs, one after another, read back as written. */
  lemma {:induction false} ReadDiffMorphsOf(data: seq<byte>, pos: nat, ds: seq<DiffMorph>, vcount: nat,
                                            acc: seq<DiffMorph>, next: nat)
    requires forall i :: 0 <= i < |ds| ==> DiffFits(ds[i]) && |ds[i].deltas| == vcount && Widths(ds[i].deltas, 3)
    requires At(data, pos, DiffsBytes(ds)) && next == pos + |DiffsBytes(ds)|
    ensures ReadDiffMorphs(data, pos, |ds|, vcount, acc) == Ok(Got(acc + ds, next))
    decreases |ds|
  {
    if ds == [] {
      assert acc + ds == acc;
    } else {
      var p := DiffMorphsHead(data, pos, ds, vcount, acc, next);
      AppendHead(acc, ds);
      ReadDiffMorphsOf(data, p, ds[1..], vcount, acc + [ds[0]], next);
    }
  }

  /** The first diff morph of ds read back; the loop goes on from the end of its bytes. */
  lemma {:induction false} DiffMorphsHead(data: seq<byte>, pos: nat, ds: seq<DiffMorph>, vcount: nat, acc: seq<DiffMorph>, next: nat)
    returns (p: nat)
    requires ds != []
    requires forall i :: 0 <= i < |ds| ==> DiffFits(ds[i]) && |ds[i].deltas| == vcount && Widths(ds[i].deltas, 3)
    requires At(data, pos, DiffsBytes(ds)) && next == pos + |DiffsBytes(ds)|
    ensures ReadDiffMorphs(data, pos, |ds|, vcount, acc) == ReadDiffMorphs(data, p, |ds[1..]|, vcount, acc + [ds[0]])
    ensures At(data, p, DiffsBytes(ds[1..])) && next == p + |DiffsBytes(ds[1..])|
  {
    AtSplit(data, pos, DiffBytes(ds[0]), DiffsBytes(ds[1..]));
    p := pos + |DiffBytes(ds[0])|;
    assert At(data, p, DiffsBytes(ds[1..])) && next == p + |DiffsBytes(ds[1..])|;
    ReadDiffMorphOf(data, pos, ds[0], vcount, p);
    DiffMorphsStep(data, pos, |ds|, vcount, acc, ReadDiffMorph(data, pos, vcount));
  }

  /** r is what read_stat_morph gives at offset pos; used only at offsets reached. */
  // (stated below compared with true, so that the verifier does not expand it where it is to be shown)
  ghost predicate StatReadAt(data: seq<byte>, pos: nat, vertices: seq<Pos>, targets: seq<Pos>, kpos: nat,
                             r: Result<StatRead, DecodeError>)
  {
    forall p: nat {:trigger Reached(p)} :: Reached(p) && p == pos && kpos <= |targets| ==>
      ReadStatMorph(data, p, vertices, targets, kpos) == r
  }

  /**
   * A stat morph whose label, count and indices lie at pos, p and p + 4 reads
   * back as its "*"-named shape, taking the next |indices| targets of the pool.
   */
  lemma {:induction false} ReadStatMorphOf(data: seq<byte>, pos: nat, s: StatMorph, vertices: seq<Pos>, targets: seq<Pos>,
                        kpos: nat, p: nat, key: ShapeKey)
    requires StatFits(s) && kpos + |s.indices| <= |targets|
    requires forall i :: 0 <= i < |s.indices| ==> 0 <= s.indices[i] < |vertices|
    requires At(data, pos, LabelBytes(s.text)) && p == pos + 4 + |s.text|
    requires At(data, p, Int32LE(|s.indices|)) && At(data, p + 4, IntsLE(s.indices, 4))
    requires KeyFor(key, vertices, s, targets, kpos) == true
    ensures StatReadAt(data, pos, vertices, targets, kpos, Ok(StatRead(key, kpos + |s.indices|, p + 4 + 4 * |s.indices|)))
         == true
  {
    StatMorphParts(data, pos, s, vertices, targets, kpos, p);
    assert Keyed(kpos);
    StatMorphUnfold(data, pos, vertices, targets, kpos, s.text, p, |s.indices|,
                    Assign(vertices, s.indices, targets[kpos .. kpos + |s.indices|]), kpos + |s.indices|,
                    p + 4 + 4 * |s.indices|, key);
  }

  /** Label, count and listed vertices of read_stat_morph at offset pos; used only at offsets reached. */
  ghost predicate StatPartsAt(data: seq<byte>, pos: nat, vertices: seq<Pos>, targets: seq<Pos>, kpos: nat,
                              text: seq<byte>, p: nat, n: nat, shape: seq<Pos>, k2: nat, next: nat)
  {
    forall q: nat {:trigger Reached(q)} :: Reached(q) && q == pos && kpos <= |targets| ==>
      && ReadLabel(data, q) == Ok(Got(text, p)) && ReadInt(data, p) == Got(n, p + 4)
      && StatTargets(data, p + 4, n, targets, vertices, kpos) == Ok(StatState(shape, k2, next))
  }

  /** The three reads of read_stat_morph on a stat morph as written. */
  lemma {:induction false} StatMorphParts(data: seq<byte>, pos: nat, s: StatMorph, vertices: seq<Pos>, targets: seq<Pos>,
                       kpos: nat, p: nat)
    requires StatFits(s) && kpos + |s.indices| <= |targets|
    requires forall i :: 0 <= i < |s.indices| ==> 0 <= s.indices[i] < |vertices|
    requires At(data, pos, LabelBytes(s.text)) && p == pos + 4 + |s.text|
    requires At(data, p, Int32LE(|s.indices|)) && At(data, p + 4, IntsLE(s.indices, 4))
    ensures StatPartsAt(data, pos, vertices, targets, kpos, s.text, p, |s.indices|,
                        Assign(vertices, s.indices, targets[kpos .. kpos + |s.indices|]), kpos + |s.indices|,
                        p + 4 + 4 * |s.indices|) == true
  {
    ReadLabelOf(data, pos, s.text);
    ReadIntOf(data, p, |s.indices|);
    StatTargetsOf(data, p + 4, s.indices, targets, vertices, kpos);
  }

  /** read_stat_morph, once its label, its count and its listed vertices are known. */
  lemma {:induction false} StatMorphUnfold(data: seq<byte>, pos: nat, vertices: seq<Pos>, targets: seq<Pos>, kpos: nat,
                        text: seq<byte>, p: nat, n: nat, shape: seq<Pos>, k2: nat, next: nat, key: ShapeKey)
    requires kpos <= |targets|
    requires StatPartsAt(data, pos, vertices, targets, kpos, text, p, n, shape, k2, next) == true
    requires key == ShapeKey(GetAbsMorphName(text), shape)
    ensures StatReadAt(data, pos, vertices, targets, kpos, Ok(StatRead(key, k2, next))) == true
  {
    assert Reached(pos);
  }

  /** The first absolute shape is the first stat morph's; the rest start after its targets. */
  lemma {:induction false} StatKeysHead(vertices: seq<Pos>, pool: seq<Pos>, ss: seq<StatMorph>, kpos: nat)
    requires ss != [] && StatsBelow(ss, |vertices|) == true && kpos + SumIndices(ss) <= |pool|
    ensures StatsBelow(ss[1..], |vertices|) == true && kpos + |ss[0].indices| + SumIndices(ss[1..]) <= |pool|
    ensures var n := |ss[0].indices|;
      StatKeys(vertices, pool, ss, kpos)[0]
        == ShapeKey(GetAbsMorphName(ss[0].text), Assign(vertices, ss[0].indices, pool[kpos .. kpos + n]))
    ensures StatKeys(vertices, pool, ss, kpos)[1..] == StatKeys(vertices, pool, ss[1..], kpos + |ss[0].indices|)
  {
    StatsRest(ss, |vertices|, kpos, |pool|);
  }

  /** The stat morphs after the first list vertices below n too, and take what is left of the pool. */
  lemma {:induction false} StatsRest(ss: seq<StatMorph>, n: nat, kpos: nat, size: nat)
    requires ss != [] && StatsBelow(ss, n) == true && kpos + SumIndices(ss) <= size
    ensures StatsBelow(ss[1..], n) == true && kpos + |ss[0].indices| + SumIndices(ss[1..]) <= size
  {
    forall j, i | 0 <= j < |ss[1..]| && 0 <= i < |ss[1..][j].indices|
      ensures 0 <= ss[1..][j].indices[i] < n
    {
      assert ss[1..][j] == ss[j + 1];
    }
  }

  /** The shapes after acc: the first stat morph's, then the rest from its targets on. */
  lemma {:induction false} StatKeysSplit(acc: seq<ShapeKey>, vertices: seq<Pos>, pool: seq<Pos>, ss: seq<StatMorph>, kpos: nat, key: ShapeKey)
    requires ss != [] && StatsBelow(ss, |vertices|) == true && kpos + SumIndices(ss) <= |pool|
    requires KeyFor(key, vertices, ss[0], pool, kpos) == true
    ensures StatsBelow(ss[1..], |vertices|) == true && kpos + |ss[0].indices| + SumIndices(ss[1..]) <= |pool|
    ensures acc + StatKeys(vertices, pool, ss, kpos) == (acc + [key]) + StatKeys(vertices, pool, ss[1..], kpos + |ss[0].indices|)
    ensures SumIndices(ss) == |ss[0].indices| + SumIndices(ss[1..])
  {
    StatsFirst(ss, |vertices|);
    assert Keyed(kpos);
    StatKeysHead(vertices, pool, ss, kpos);
    AppendHead(acc, StatKeys(vertices, pool, ss, kpos));
  }

  /** goal is what the stat-morph loop computes from offset pos on; used only at offsets reached. */
  // (stated below compared with true, so that the verifier does not expand it where it is to be shown)
  ghost predicate StatsRun(goal: Result<StatsRead, DecodeError>, data: seq<byte>, pos: nat, m: nat,
                           vertices: seq<Pos>, targets: seq<Pos>, kpos: nat, acc: seq<ShapeKey>)
  {
    forall p: nat {:trigger Reached(p)} :: Reached(p) && p == pos && kpos <= |targets| ==>
      goal == ReadStatMorphs(data, p, m, vertices, targets, kpos, acc)
  }

  /** How many bytes a stat morph takes: its label, its count and four bytes per listed vertex. */
  function StatSize(s: StatMorph): (n: nat)
    ensures StatFits(s) ==> n == |StatBytes(s)|
  {
    8 + |s.text| + 4 * |s.indices|
  }

  /**
   * Always true: StatAt opens only at an offset p where a proof asserts
   * Placed(p), that is, where the stat morph is about to be read.
   */
  predicate Placed(p: nat) { true }

  /** The stat morph s is written in data at pos; used only at offsets where it is read. */
  ghost predicate StatAt(data: seq<byte>, pos: nat, s: StatMorph)
  {
    forall p: nat {:trigger Placed(p)} :: Placed(p) && p == pos ==> StatFits(s) && At(data, p, StatBytes(s))
  }

  /** The stat morphs ss lie one after another in data from pos, ending at next. */
  ghost predicate StatsAt(data: seq<byte>, pos: nat, ss: seq<StatMorph>, next: nat)
    decreases |ss|
  {
    if ss == [] then pos == next
    else StatAt(data, pos, ss[0]) && StatsAt(data, pos + StatSize(ss[0]), ss[1..], next)
  }

  /** The stat-morph section, written from pos, as its stat morphs one after another. */
  lemma {:induction false} StatsAtOf(data: seq<byte>, pos: nat, ss: seq<StatMorph>, next: nat)
    requires forall i :: 0 <= i < |ss| ==> StatFits(ss[i])
    requires At(data, pos, StatsBytes(ss)) && next == pos + |StatsBytes(ss)|
    ensures StatsAt(data, pos, ss, next)
    decreases |ss|
  {
    if ss != [] {
      StatsSplitAt(data, pos, ss, next);
      AtSplit(data, pos, StatBytes(ss[0]), StatsBytes(ss[1..]));
      StatsAtOf(data, pos + StatSize(ss[0]), ss[1..], next);
    }
  }

  /** The bytes of ss are those of its first stat morph, then those of the rest. */
  lemma {:induction false} StatsSplitAt(data: seq<byte>, pos: nat, ss: seq<StatMorph>, next: nat)
    requires ss != [] && forall i :: 0 <= i < |ss| ==> StatFits(ss[i])
    requires At(data, pos, StatsBytes(ss)) && next == pos + |StatsBytes(ss)|
    ensures StatFits(ss[0]) && forall i :: 0 <= i < |ss[1..]| ==> StatFits(ss[1..][i])
    ensures At(data, pos, StatBytes(ss[0]) + StatsBytes(ss[1..]))
    ensures next == pos + |StatBytes(ss[0])| + |StatsBytes(ss[1..])|
  {
    forall i | 0 <= i < |ss[1..]| ensures StatFits(ss[1..][i]) {
      assert ss[1..][i] == ss[i + 1];
    }
    assert StatsBytes(ss) == StatBytes(ss[0]) + StatsBytes(ss[1..]);
  }

  /**
   * Always true: the stat-morph loop's state opens only at an offset p where
   * a proof asserts Resumed(p), that is, at the next turn of the loop.
   */
  predicate Resumed(p: nat) { true }

  /**
   * The state of the stat-morph loop at offset pos: m stat morphs ss are written
   * there up to next, and goal is what the loop computes from there on; used
   * only where the loop is resumed.
   */
  // (stated below compared with true, so that the verifier does not expand it where it is to be shown)
  ghost predicate StatsLoop(data: seq<byte>, pos: nat, ss: seq<StatMorph>, vertices: seq<Pos>, targets: seq<Pos>,
                            kpos: nat, acc: seq<ShapeKey>, next: nat, m: nat, goal: Result<StatsRead, DecodeError>)
  {
    forall q: nat {:trigger Resumed(q)} :: Resumed(q) && q == pos ==>
      && StatsAt(data, q, ss, next)
      && StatsRun(goal, data, q, m, vertices, targets, kpos, acc) == true
  }

  /** The loop state from its parts. */
  lemma {:induction false} StatsLoopOf(data: seq<byte>, pos: nat, ss: seq<StatMorph>, vertices: seq<Pos>,
                                       targets: seq<Pos>, kpos: nat, acc: seq<ShapeKey>, next: nat, m: nat,
                                       goal: Result<StatsRead, DecodeError>)
    requires StatsAt(data, pos, ss, next)
    requires StatsRun(goal, data, pos, m, vertices, targets, kpos, acc) == true
    ensures StatsLoop(data, pos, ss, vertices, targets, kpos, acc, next, m, goal) == true
  {
  }

  /** The stat morphs, one after another, read back as the shapes StatKeys describes. */
  lemma {:induction false} ReadStatMorphsOf(data: seq<byte>, pos: nat, ss: seq<StatMorph>, vertices: seq<Pos>,
                                            targets: seq<Pos>, kpos: nat, acc: seq<ShapeKey>, next: nat,
                                            m: nat, goal: Result<StatsRead, DecodeError>)
    requires m == |ss| && StatsBelow(ss, |vertices|) == true && kpos + SumIndices(ss) <= |targets|
    requires StatsLoop(data, pos, ss, vertices, targets, kpos, acc, next, m, goal) == true
    ensures Gathered(goal, acc, vertices, targets, ss, kpos, next) == true
    decreases |ss|
  {
    if ss == [] {
      StatsLoopDone(data, pos, ss, vertices, targets, kpos, acc, next, m, goal);
    } else {
      var p, key := StatsLoopStep(data, pos, ss, vertices, targets, kpos, acc, next, m, goal);
      ReadStatMorphsOf(data, p, ss[1..], vertices, targets, kpos + |ss[0].indices|, acc + [key], next, m - 1, goal);
      GatheredStep(goal, acc, key, vertices, targets, ss, kpos, next);
    }
  }

  /**
   * Always true: what the stat-morph loop ends with opens only at a pool
   * position k where a proof asserts Ending(k), that is, after one more morph.
   */
  predicate Ending(k: nat) { true }

  /**
   * goal is what the loop ends with when acc is gathered, the stat morphs ss
   * are left to read and their bytes end at next: acc and then the shapes of
   * ss, with the pool used up to kpos + SumIndices(ss); used only where opened.
   */
  // (stated below compared with true, so that the verifier does not expand it where it is to be shown)
  ghost predicate Gathered(goal: Result<StatsRead, DecodeError>, acc: seq<ShapeKey>, vertices: seq<Pos>,
                           targets: seq<Pos>, ss: seq<StatMorph>, kpos: nat, next: nat)
  {
    forall k: nat {:trigger Ending(k)} ::
      Ending(k) && k == kpos && StatsBelow(ss, |vertices|) && k + SumIndices(ss) <= |targets| ==>
        goal == Ok(StatsRead(acc + StatKeys(vertices, targets, ss, k), k + SumIndices(ss), next))
  }

  /** What the loop ends with after the first stat morph, and so after none, when the first makes key. */
  lemma {:induction false} GatheredStep(goal: Result<StatsRead, DecodeError>, acc: seq<ShapeKey>, key: ShapeKey,
                                        vertices: seq<Pos>, targets: seq<Pos>, ss: seq<StatMorph>, kpos: nat, next: nat)
    requires ss != [] && StatsBelow(ss, |vertices|) == true && kpos + SumIndices(ss) <= |targets|
    requires KeyFor(key, vertices, ss[0], targets, kpos) == true
    requires Gathered(goal, acc + [key], vertices, targets, ss[1..], kpos + |ss[0].indices|, next) == true
    ensures Gathered(goal, acc, vertices, targets, ss, kpos, next) == true
  {
    StatKeysSplit(acc, vertices, targets, ss, kpos, key);
    assert Ending(kpos + |ss[0].indices|);
  }

  /**
   * Always true: the facts about the shape a stat morph makes open only at
   * a pool position k where a proof asserts Keyed(k).
   */
  predicate Keyed(k: nat) { true }

  /**
   * key is the shape the stat morph s makes of the basis vertices, taking
   * the targets from kpos on, and named "*" + its label; used only where opened.
   */
  ghost predicate KeyFor(key: ShapeKey, vertices: seq<Pos>, s: StatMorph, targets: seq<Pos>, kpos: nat)
  {
    forall k: nat {:trigger Keyed(k)} ::
      Keyed(k) && k == kpos && k + |s.indices| <= |targets|
      && (forall i :: 0 <= i < |s.indices| ==> 0 <= s.indices[i] < |vertices|) ==>
        key == ShapeKey(GetAbsMorphName(s.text), Assign(vertices, s.indices, targets[k .. k + |s.indices|]))
  }

  /** The shape the stat morph s makes, taking the targets from kpos on. */
  lemma {:induction false} MakeKey(vertices: seq<Pos>, s: StatMorph, targets: seq<Pos>, kpos: nat) returns (key: ShapeKey)
    requires kpos + |s.indices| <= |targets|
    requires forall i :: 0 <= i < |s.indices| ==> 0 <= s.indices[i] < |vertices|
    ensures KeyFor(key, vertices, s, targets, kpos) == true
  {
    key := ShapeKey(GetAbsMorphName(s.text), Assign(vertices, s.indices, targets[kpos .. kpos + |s.indices|]));
  }

  /** The loop with no stat morph left ends with what it has gathered. */
  lemma {:induction false} StatsLoopDone(data: seq<byte>, pos: nat, ss: seq<StatMorph>, vertices: seq<Pos>,
                                         targets: seq<Pos>, kpos: nat, acc: seq<ShapeKey>, next: nat, m: nat,
                                         goal: Result<StatsRead, DecodeError>)
    requires ss == [] && m == 0 && kpos <= |targets|
    requires StatsLoop(data, pos, ss, vertices, targets, kpos, acc, next, m, goal) == true
    ensures Gathered(goal, acc, vertices, targets, ss, kpos, next) == true
  {
    assert Resumed(pos) && Reached(pos);
    assert acc + [] == acc;
  }

  /** One turn of the loop: the first stat morph reads back as key, and the loop goes on after it. */
  lemma {:induction false} StatsLoopStep(data: seq<byte>, pos: nat, ss: seq<StatMorph>, vertices: seq<Pos>,
                                         targets: seq<Pos>, kpos: nat, acc: seq<ShapeKey>, next: nat, m: nat,
                                         goal: Result<StatsRead, DecodeError>)
    returns (p: nat, key: ShapeKey)
    requires ss != [] && m == |ss| && StatsBelow(ss, |vertices|) == true && kpos + SumIndices(ss) <= |targets|
    requires StatsLoop(data, pos, ss, vertices, targets, kpos, acc, next, m, goal) == true
    ensures StatsBelow(ss[1..], |vertices|) == true && kpos + |ss[0].indices| + SumIndices(ss[1..]) <= |targets|
    ensures StatsLoop(data, p, ss[1..], vertices, targets, kpos + |ss[0].indices|, acc + [key], next, m - 1, goal)
         == true
    ensures KeyFor(key, vertices, ss[0], targets, kpos) == true
  {
    StatsFirst(ss, |vertices|);
    key := MakeKey(vertices, ss[0], targets, kpos);
    StatsRest(ss, |vertices|, kpos, |targets|);
    p := StatMorphsHead(data, pos, ss, vertices, targets, kpos, acc, next, key, m, goal);
  }

  /** The first stat morph of ss read back as key; the loop goes on from the end of its bytes. */
  lemma {:induction false} StatMorphsHead(data: seq<byte>, pos: nat, ss: seq<StatMorph>, vertices: seq<Pos>,
                                          targets: seq<Pos>, kpos: nat, acc: seq<ShapeKey>, next: nat, key: ShapeKey,
                                          m: nat, goal: Result<StatsRead, DecodeError>)
    returns (p: nat)
    requires ss != [] && m == |ss| && StatsBelow(ss, |vertices|) == true && kpos + SumIndices(ss) <= |targets|
    requires KeyFor(key, vertices, ss[0], targets, kpos) == true
    requires StatsLoop(data, pos, ss, vertices, targets, kpos, acc, next, m, goal) == true
    ensures StatsLoop(data, p, ss[1..], vertices, targets, kpos + |ss[0].indices|, acc + [key], next, m - 1, goal)
         == true
  {
    assert Resumed(pos);
    StatsFirst(ss, |vertices|);
    p := StatHeadRead(data, pos, ss[0], vertices, targets, kpos, key);
    StatsResume(data, pos, p, ss[1..], vertices, targets, kpos, kpos + |ss[0].indices|, acc, next, key, m, goal);
  }

  /** After one stat morph read at pos, the loop goes on from p with the rest. */
  lemma {:induction false} StatsResume(data: seq<byte>, pos: nat, p: nat, rest: seq<StatMorph>, vertices: seq<Pos>,
                                       targets: seq<Pos>, kpos: nat, k2: nat, acc: seq<ShapeKey>, next: nat,
                                       key: ShapeKey, m: nat, goal: Result<StatsRead, DecodeError>)
    requires m > 0 && kpos <= k2 <= |targets|
    requires StatReadAt(data, pos, vertices, targets, kpos, Ok(StatRead(key, k2, p))) == true
    requires StatsRun(goal, data, pos, m, vertices, targets, kpos, acc) == true
    requires StatsAt(data, p, rest, next)
    ensures StatsLoop(data, p, rest, vertices, targets, k2, acc + [key], next, m - 1, goal) == true
  {
    StatMorphsUnfold(data, pos, m, vertices, targets, kpos, acc, key, k2, p, goal);
    StatsLoopOf(data, p, rest, vertices, targets, k2, acc + [key], next, m - 1, goal);
  }

  /** The first stat morph of ss lists vertices below n; so do the rest. */
  lemma {:induction false} StatsFirst(ss: seq<StatMorph>, n: nat)
    requires ss != [] && StatsBelow(ss, n) == true
    ensures forall i :: 0 <= i < |ss[0].indices| ==> 0 <= ss[0].indices[i] < n
  {
    forall i | 0 <= i < |ss[0].indices| ensures 0 <= ss[0].indices[i] < n {
      assert 0 <= 0 < |ss| && 0 <= i < |ss[0].indices|;
    }
  }

  /** A stat morph written at pos reads back as key, and leaves the cursor after its bytes. */
  lemma {:induction false} StatHeadRead(data: seq<byte>, pos: nat, s: StatMorph,
                                        vertices: seq<Pos>, targets: seq<Pos>, kpos: nat, key: ShapeKey)
    returns (p: nat)
    requires kpos + |s.indices| <= |targets|
    requires forall i :: 0 <= i < |s.indices| ==> 0 <= s.indices[i] < |vertices|
    requires StatAt(data, pos, s)
    requires KeyFor(key, vertices, s, targets, kpos) == true
    ensures p == pos + StatSize(s)
    ensures StatReadAt(data, pos, vertices, targets, kpos, Ok(StatRead(key, kpos + |s.indices|, p))) == true
  {
    assert Placed(pos);
    var q;
    q, p := StatBytesAt(data, pos, s);
    ReadStatMorphOf(data, pos, s, vertices, targets, kpos, q, key);
  }

  /** Where the label, the count and the indices of a stat morph written at pos lie. */
  lemma {:induction false} StatBytesAt(data: seq<byte>, pos: nat, s: StatMorph) returns (q: nat, p: nat)
    requires StatFits(s) && At(data, pos, StatBytes(s))
    ensures q == pos + 4 + |s.text| && p == q + 4 + 4 * |s.indices| && p == pos + |StatBytes(s)|
    ensures At(data, pos, LabelBytes(s.text)) && At(data, q, Int32LE(|s.indices|))
    ensures At(data, q + 4, IntsLE(s.indices, 4))
  {
    q := pos + 4 + |s.text|;
    AtSplit(data, pos, LabelBytes(s.text) + Int32LE(|s.indices|), IntsLE(s.indices, 4));
    AtSplit(data, pos, LabelBytes(s.text), Int32LE(|s.indices|));
    p := pos + |StatBytes(s)|;
  }

  /** The stat-morph loop's step, once its first read is known to give key. */
  lemma {:induction false} StatMorphsUnfold(data: seq<byte>, pos: nat, m: nat, vertices: seq<Pos>, targets: seq<Pos>, kpos: nat,
                         acc: seq<ShapeKey>, key: ShapeKey, k2: nat, p: nat, goal: Result<StatsRead, DecodeError>)
    requires m > 0 && kpos <= k2 <= |targets|
    requires StatReadAt(data, pos, vertices, targets, kpos, Ok(StatRead(key, k2, p))) == true
    requires StatsRun(goal, data, pos, m, vertices, targets, kpos, acc) == true
    ensures StatsRun(goal, data, p, m - 1, vertices, targets, k2, acc + [key]) == true
  {
    assert Reached(pos);
  }

  // ---------------------------------------------------------------- the whole file

  /** The diff-morph section read back as written, ending where the stat morphs start. */
  lemma {:induction false} ReadDiffsSectionOf(f: TriFile)
    requires Canonical(f)
    ensures ReadDiffMorphs(Layout(f), Offset(f, 6), Count(f.header.md), |f.vertices|, [])
         == Ok(Got(f.diffs, Offset(f, 7)))
  {
    PartAt(f, 6);
    ReadDiffMorphsOf(Layout(f), Offset(f, 6), f.diffs, |f.vertices|, [], Offset(f, 7));
    assert [] + f.diffs == f.diffs;
  }

  /** The stat-morph loop at its start: goal is what it computes over the m stat morphs ss written at pos. */
  lemma {:induction false} StatsStart(data: seq<byte>, pos: nat, ss: seq<StatMorph>, vertices: seq<Pos>,
                                      pool: seq<Pos>, next: nat, m: nat)
    returns (goal: Result<StatsRead, DecodeError>)
    requires StatsAt(data, pos, ss, next)
    ensures StatsLoop(data, pos, ss, vertices, pool, 0, [], next, m, goal) == true
    ensures StatsRun(goal, data, pos, m, vertices, pool, 0, []) == true
  {
    goal := ReadStatMorphs(data, pos, m, vertices, pool, 0, []);
    StatsLoopOf(data, pos, ss, vertices, pool, 0, [], next, m, goal);
  }

  /** Stat morphs ss written from pos up to next, read back with the pool they use up. */
  lemma {:induction false} ReadAllStatsFrom(data: seq<byte>, pos: nat, ss: seq<StatMorph>, vertices: seq<Pos>,
                                            pool: seq<Pos>, next: nat, m: nat)
    requires m == |ss| && (forall i :: 0 <= i < |ss| ==> StatFits(ss[i]))
    requires StatsBelow(ss, |vertices|) == true && SumIndices(ss) == |pool|
    requires At(data, pos, StatsBytes(ss)) && next == pos + |StatsBytes(ss)|
    ensures StatsRun(Ok(StatsRead(StatKeys(vertices, pool, ss, 0), |pool|, next)), data, pos, m, vertices, pool, 0, [])
         == true
  {
    StatsAtOf(data, pos, ss, next);
    var goal := StatsStart(data, pos, ss, vertices, pool, next, m);
    ReadStatMorphsOf(data, pos, ss, vertices, pool, 0, [], next, m, goal);
    assert Ending(0);
    assert [] + StatKeys(vertices, pool, ss, 0) == StatKeys(vertices, pool, ss, 0);
  }

  /** The stat-morph section read back: the shapes StatKeys describes, using up the whole pool. */
  lemma {:induction false} ReadStatsSectionOf(f: TriFile)
    requires Canonical(f)
    ensures ReadStatMorphs(Layout(f), Offset(f, 7), Count(f.header.ms), f.vertices, f.pool, 0, [])
         == Ok(StatsRead(StatKeys(f.vertices, f.pool, f.stats, 0), |f.pool|, Offset(f, 8)))
  {
    PartAt(f, 7);
    ReadAllStatsFrom(Layout(f), Offset(f, 7), f.stats, f.vertices, f.pool, Offset(f, 8), Count(f.header.ms));
    assert Reached(Offset(f, 7));
  }

  /** Everything after the face lists read back: no labels, the UV layer, both kinds of morph. */
  lemma {:induction false} ReadRestOf(f: TriFile)
    requires Canonical(f)
    ensures ReadRest(Layout(f), f.header, Sections(f.vertices, f.pool, f.tris + f.quads, Offset(f, 5)))
         == Ok(ImportedOf(f))
  {
    ReadUVLayerOf(f);
    ReadDiffsSectionOf(f);
    ReadStatsSectionOf(f);
  }

  /**
   * The round trip of the file format: import_tri's reader, given the image
   * of a canonical file (`Canonical`), builds exactly the
   * mesh, UV layer and morphs the file holds.
   */
  lemma {:induction false} ParseLayout(f: TriFile)
    requires Canonical(f)
    ensures Parse(Layout(f)) == Ok(ImportedOf(f))
  {
    ReadHeaderOf(f);
    ReadGeometryOf(f);
    ReadRestOf(f);
  }
}
