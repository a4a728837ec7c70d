/**
 * The reading half of the TRI codec, import_tri and its helpers, as pure
 * functions over the file image and a forward cursor. Each reader returns the
 * value it read and the offset just after it; the Python exceptions become
 * DecodeError values.
 */
module ImportSpec {
  import opened Wrappers
  import opened Bytes
  import opened Geometry
  import opened TriFormat

  /** Why import_tri stops. */
  datatype DecodeError =
    | NotTriFile       // the first 8 bytes are not the signature (io.py:219-220)
    | Truncated        // struct.unpack got fewer bytes than its format needs
    | BadSeek          // a relative seek would move before the start of the file
    | IndexOutOfRange  // a list or mesh collection subscript is out of range
    | PoolMismatch     // the stat morphs did not use up the pool (io.py:296)
    | BadReadLength    // file.read(N) with N below -1 raises ValueError (io.py:341)

  /** A value read at some offset, and the offset just after it. */
  datatype Got<+T> = Got(value: T, next: nat)

  /** range(n) runs max(n, 0) times. */
  function Count(n: int): nat
  {
    if n < 0 then 0 else n
  }

  /** Python's subscript of a sequence of length len: negative indices count from the end. */
  function PyIndex(i: int, len: nat): (r: Option<nat>)
    ensures r.Some? <==> 0 <= i + len && i < len
    ensures r.Some? ==> r.value < len && r.value % len == i % len
  {
    if 0 <= i < len then Some(i) else if 0 <= i + len && i < 0 then Some(len + i) else None
  }

  /** Bytes left from offset pos; none once pos is at or past the end. */
  function Avail(data: seq<byte>, pos: nat): nat
  {
    if pos < |data| then |data| - pos else 0
  }

  /**
   * A trigger for facts about the bytes at one offset: a fact guarded by Inspected(p)
   * is used only where a proof reads the bytes at p, which keeps the verifier
   * from comparing every known stretch of the file with every other.
   */
  predicate Inspected(p: nat) { true }

  /** The bytes s occur in data at offset pos; used only at offsets inspected. */
  ghost predicate At(data: seq<byte>, pos: nat, s: seq<byte>)
  {
    forall p: nat {:trigger Inspected(p)} :: Inspected(p) && p == pos ==> p + |s| <= |data| && data[p .. p + |s|] == s
  }

  /**
   * file.read(n) at offset pos: at most n bytes, every remaining byte when n
   * is -1. A buffered binary file refuses any other negative n.
   */
  function Chunk(data: seq<byte>, pos: nat, n: int): (b: seq<byte>)
    requires n >= -1
    ensures 0 <= n && pos + n <= |data| ==> b == data[pos .. pos + n]
    ensures n == -1 || pos + n > |data| ==> b == if pos < |data| then data[pos..] else []
  {
    if pos >= |data| then []
    else if n == -1 || pos + n > |data| then data[pos..]
    else data[pos .. pos + n]
  }

  /** int.from_bytes(file.read(4), "little", signed=True); a short read is not an error. */
  function ReadInt(data: seq<byte>, pos: nat): (g: Got<int>)
    ensures pos + 4 <= |data| ==> g == Got(FromBytesSigned(data[pos .. pos + 4]), pos + 4)
  {
    var b := Chunk(data, pos, 4);
    Got(FromBytesSigned(b), pos + |b|)
  }

  /** file.seek(off, 1): moving before the start raises, moving past the end does not. */
  function Seek(pos: nat, off: int): (r: Result<nat, DecodeError>)
    ensures r.Ok? <==> pos + off >= 0
    ensures r.Ok? ==> r.value == pos + off
    ensures r.Err? ==> r.error == BadSeek
  {
    if pos + off < 0 then Err(BadSeek) else Ok(pos + off)
  }

  predicate AllLength(cs: seq<seq<byte>>, w: nat)
  {
    forall i :: 0 <= i < |cs| ==> |cs[i]| == w
  }

  /**
   * n struct.unpack calls in a row, each on a read of w bytes; a read comes
   * up short exactly when fewer than w bytes remain.
   */
  function ReadChunks(data: seq<byte>, pos: nat, n: nat, w: nat, acc: seq<seq<byte>>)
    : (r: Result<Got<seq<seq<byte>>>, DecodeError>)
    requires w >= 1 && AllLength(acc, w)
    ensures r.Ok? ==> |r.value.value| == |acc| + n && AllLength(r.value.value, w)
    ensures r.Ok? ==> r.value.value[..|acc|] == acc
    ensures r.Err? ==> r.error == Truncated
    decreases n
  {
    if n == 0 then Ok(Got(acc, pos))
    else if pos + w > |data| then Err(Truncated)
    else ReadChunks(data, pos + w, n - 1, w, acc + [data[pos .. pos + w]])
  }

  /** The reads succeed exactly when n * w bytes remain, and they end n * w bytes on. */
  lemma {:induction false} ReadChunksSpan(data: seq<byte>, pos: nat, n: nat, w: nat, acc: seq<seq<byte>>)
    requires w >= 1 && AllLength(acc, w)
    ensures ReadChunks(data, pos, n, w, acc).Ok? <==> n == 0 || pos + n * w <= |data|
    ensures ReadChunks(data, pos, n, w, acc).Ok? ==> ReadChunks(data, pos, n, w, acc).value.next == pos + n * w
    decreases n
  {
    if n > 0 {
      assert n * w == w + (n - 1) * w;
      if pos + w <= |data| {
        ReadChunksSpan(data, pos + w, n - 1, w, acc + [data[pos .. pos + w]]);
      }
    }
  }

  /** Bytes that match a concatenation match each part in turn. */
  lemma {:induction false} AtSplit(data: seq<byte>, pos: nat, a: seq<byte>, b: seq<byte>)
    requires At(data, pos, a + b)
    ensures At(data, pos, a) && At(data, pos + |a|, b)
  {
    assert Inspected(pos);
    assert data[pos .. pos + |a|] == (a + b)[..|a|];
    assert data[pos + |a| .. pos + |a| + |b|] == (a + b)[|a|..];
  }

  /** An int32 that was written reads back. */
  lemma {:induction false} ReadIntOf(data: seq<byte>, pos: nat, x: int)
    requires IsInt32(x) && At(data, pos, Int32LE(x))
    ensures ReadInt(data, pos) == Got(x, pos + 4)
  {
    assert Inspected(pos);
  }

  /** Reading over records that are there gives them back. */
  lemma {:induction false} ReadChunksOf(data: seq<byte>, pos: nat, cs: seq<seq<byte>>, w: nat, acc: seq<seq<byte>>)
    requires w >= 1 && AllLength(acc, w) && AllLength(cs, w)
    requires At(data, pos, Concat(cs))
    ensures ReadChunks(data, pos, |cs|, w, acc) == Ok(Got(acc + cs, pos + |Concat(cs)|))
    decreases |cs|
  {
    if cs == [] {
      assert acc + cs == acc;
    } else {
      ReadChunksHead(data, pos, cs, w, acc);
      ReadChunksOf(data, pos + w, cs[1..], w, acc + [cs[0]]);
    }
  }

  /** The first record of ReadChunksOf. */
  lemma {:induction false} ReadChunksHead(data: seq<byte>, pos: nat, cs: seq<seq<byte>>, w: nat, acc: seq<seq<byte>>)
    requires w >= 1 && AllLength(acc, w) && AllLength(cs, w) && cs != []
    requires At(data, pos, Concat(cs))
    ensures ReadChunks(data, pos, |cs|, w, acc) == ReadChunks(data, pos + w, |cs| - 1, w, acc + [cs[0]])
    ensures At(data, pos + w, Concat(cs[1..])) && |Concat(cs)| == w + |Concat(cs[1..])|
    ensures AllLength(acc + [cs[0]], w) && AllLength(cs[1..], w) && acc + [cs[0]] + cs[1..] == acc + cs
  {
    assert Inspected(pos);
    assert acc + [cs[0]] + cs[1..] == acc + cs;
    assert Concat(cs) == cs[0] + Concat(cs[1..]);
    AtSplit(data, pos, cs[0], Concat(cs[1..]));
  }

  /** struct.unpack("<Ni", b) on each record. */
  function Tuples(cs: seq<seq<byte>>, w: nat): (ts: seq<seq<int>>)
    requires w >= 1
    ensures |ts| == |cs| && forall i :: 0 <= i < |cs| ==> ts[i] == IntsFrom(cs[i], w)
  {
    seq(|cs|, i requires 0 <= i < |cs| => IntsFrom(cs[i], w))
  }

  /** Records of k * w bytes unpack to k integers each. */
  lemma {:induction false} TuplesCount(cs: seq<seq<byte>>, w: nat, k: nat)
    requires w >= 1 && AllLength(cs, k * w)
    ensures forall i :: 0 <= i < |cs| ==> |Tuples(cs, w)[i]| == k
  {
    forall i | 0 <= i < |cs| ensures |Tuples(cs, w)[i]| == k {
      IntsFromCount(cs[i], w, k);
    }
  }

  /**
   * A trigger for facts about the decoder at one offset: a fact guarded by
   * Reached(p) is used only at offsets a proof has reached, which keeps the
   * verifier from unfolding the decoder's specifications at offsets ahead.
   */
  predicate Reached(p: nat) { true }

  // ---------------------------------------------------------------- labels

  /**
   * read_morph_label: the length N as int32, then file.read(N); the trailing
   * NUL is kept. N = -1 reads to the end of the file, and N below -1 raises.
   */
  function ReadLabel(data: seq<byte>, pos: nat): (r: Result<Got<seq<byte>>, DecodeError>)
    ensures r.Err? <==> ReadInt(data, pos).value < -1
    ensures r.Err? ==> r.error == BadReadLength
    ensures r.Ok? ==> r.value.next == pos + |Chunk(data, pos, 4)| + |r.value.value|
  {
    var n := ReadInt(data, pos);
    if n.value < -1 then Err(BadReadLength)
    else
      var text := Chunk(data, n.next, n.value);
      Ok(Got(text, n.next + |text|))
  }

  /** A label written by write_morph_label reads back whole, in exactly 4 + N bytes. */
  lemma {:induction false} ReadLabelOf(data: seq<byte>, pos: nat, text: seq<byte>)
    requires IsInt32(|text|) && At(data, pos, LabelBytes(text))
    ensures ReadLabel(data, pos) == Ok(Got(text, pos + 4 + |text|))
  {
    var b := LabelBytes(text);
    assert Inspected(pos);
    assert data[pos .. pos + 4] == b[..4] == Int32LE(|text|);
    assert data[pos + 4 .. pos + 4 + |text|] == b[4..] == text;
  }

  /** skip_vertex_label: a 4-byte vertex index, the label length S, then S bytes. */
  function SkipVertexLabel(data: seq<byte>, pos: nat): (r: Result<nat, DecodeError>)
    ensures pos + 8 <= |data| ==>
      var s := FromBytesSigned(data[pos + 4 .. pos + 8]);
      r == if pos + 8 + s >= 0 then Ok(pos + 8 + s) else Err(BadSeek)
    ensures r.Err? ==> r.error == BadSeek
  {
    var s := ReadInt(data, pos + 4);
    Seek(s.next, s.value)
  }

  /**
   * skip_surface_label: a 16-byte face index and position, the label length S,
   * then S bytes, or 2 * S when the labels are wide characters.
   */
  function SkipSurfaceLabel(data: seq<byte>, pos: nat, wide: bool): (r: Result<nat, DecodeError>)
    ensures pos + 20 <= |data| ==>
      var s := FromBytesSigned(data[pos + 16 .. pos + 20]);
      var len := if wide then 2 * s else s;
      r == if pos + 20 + len >= 0 then Ok(pos + 20 + len) else Err(BadSeek)
    ensures r.Err? ==> r.error == BadSeek
  {
    var s := ReadInt(data, pos + 16);
    Seek(s.next, if wide then 2 * s.value else s.value)
  }

  function SkipVertexLabels(data: seq<byte>, pos: nat, n: nat): (r: Result<nat, DecodeError>)
    ensures r.Err? ==> r.error == BadSeek
    decreases n
  {
    if n == 0 then Ok(pos)
    else
      var p :- SkipVertexLabel(data, pos);
      SkipVertexLabels(data, p, n - 1)
  }

  function SkipSurfaceLabels(data: seq<byte>, pos: nat, n: nat, wide: bool): (r: Result<nat, DecodeError>)
    ensures r.Err? ==> r.error == BadSeek
    decreases n
  {
    if n == 0 then Ok(pos)
    else
      var p :- SkipSurfaceLabel(data, pos, wide);
      SkipSurfaceLabels(data, p, n - 1, wide)
  }

  // ---------------------------------------------------------------- UVs

  /** The vertex index of every loop, polygon after polygon, as from_pydata lays the loops out. */
  function Loops(faces: seq<seq<int>>): (ls: seq<int>)
  {
    if faces == [] then [] else Loops(faces[..|faces| - 1]) + faces[|faces| - 1]
  }

  /** The first loop of polygon j (its loop_start). */
  function LoopStart(faces: seq<seq<int>>, j: nat): nat
    requires j <= |faces|
  {
    |Loops(faces[..j])|
  }

  /** The loops of polygon j lie inside the loop list. */
  lemma {:induction false} LoopEnd(faces: seq<seq<int>>, j: nat)
    requires j < |faces|
    ensures LoopStart(faces, j) + |faces[j]| <= |Loops(faces)|
  {
    LoopsOfFace(faces, j);
  }

  /** The loops of polygon j lie inside the loop list, and its corners are those loops. */
  lemma {:induction false} LoopsOfFace(faces: seq<seq<int>>, j: nat)
    requires j < |faces|
    ensures LoopStart(faces, j) + |faces[j]| <= |Loops(faces)|
    ensures Loops(faces)[LoopStart(faces, j) .. LoopStart(faces, j) + |faces[j]|] == faces[j]
    decreases |faces|
  {
    var last := |faces| - 1;
    var init := faces[..last];
    assert Loops(faces) == Loops(init) + faces[last];
    if j == last {
      assert faces[..j] == init;
    } else {
      assert init[..j] == faces[..j];
      LoopsOfFace(init, j);
    }
  }

  /** Loops of polygons k and j do not overlap when k < j. */
  lemma {:induction false} LoopStartMonotone(faces: seq<seq<int>>, k: nat, j: nat)
    requires k < j <= |faces|
    ensures LoopStart(faces, k) + |faces[k]| <= LoopStart(faces, j)
    decreases j
  {
    assert faces[..j][..j - 1] == faces[..j - 1];
    assert Loops(faces[..j]) == Loops(faces[..j - 1]) + faces[j - 1];
    if k < j - 1 {
      LoopStartMonotone(faces, k, j - 1);
    }
  }

  const ZERO_UV: UV := [0, 0, 0, 0, 0, 0, 0, 0]

  /** The fresh UV layer: (0, 0) on each of n loops. */
  function BlankLayer(n: nat): (r: seq<UV>)
    ensures |r| == n
  {
    seq(n, _ => ZERO_UV)
  }

  /** Per-vertex mode (io.py:272-276): every loop takes uvs[loop.vertex_index]. */
  function VertexModeUVs(loops: seq<int>, uvs: seq<UV>): (r: Result<seq<UV>, DecodeError>)
    ensures r.Ok? <==> forall l :: 0 <= l < |loops| ==> PyIndex(loops[l], |uvs|).Some?
    ensures r.Ok? ==> |r.value| == |loops|
    ensures r.Ok? ==> forall l :: 0 <= l < |loops| ==> r.value[l] == uvs[PyIndex(loops[l], |uvs|).value]
    ensures r.Err? ==> r.error == IndexOutOfRange
  {
    if forall l :: 0 <= l < |loops| ==> PyIndex(loops[l], |uvs|).Some? then
      Ok(seq(|loops|, l requires 0 <= l < |loops| => uvs[PyIndex(loops[l], |uvs|).value]))
    else
      Err(IndexOutOfRange)
  }

  /** Whether set_face_uvs can assign a UV to every corner it has indices for. */
  predicate CornersValid(size: nat, indices: seq<int>, uvs: seq<UV>)
  {
    |indices| <= size && forall k :: 0 <= k < |indices| ==> PyIndex(indices[k], |uvs|).Some?
  }

  /**
   * set_face_uvs (io.py:364-366) on the polygon whose loops are start .. start + size:
   * corner k takes uv_list[indices[k]].
   */
  function FaceCornerUVs(layer: seq<UV>, start: nat, size: nat, indices: seq<int>, uvs: seq<UV>)
    : (r: Result<seq<UV>, DecodeError>)
    requires start + size <= |layer|
    ensures r.Ok? <==> CornersValid(size, indices, uvs)
    ensures r.Ok? ==> |r.value| == |layer|
    ensures r.Ok? ==> forall k :: 0 <= k < |indices| ==> r.value[start + k] == uvs[PyIndex(indices[k], |uvs|).value]
    ensures r.Ok? ==> forall l :: 0 <= l < |layer| && !(start <= l < start + |indices|) ==> r.value[l] == layer[l]
    ensures r.Err? ==> r.error == IndexOutOfRange
  {
    if CornersValid(size, indices, uvs) then
      Ok(seq(|layer|, l requires 0 <= l < |layer| =>
        if start <= l < start + |indices| then uvs[PyIndex(indices[l - start], |uvs|).value] else layer[l]))
    else
      Err(IndexOutOfRange)
  }

  /**
   * Per-face mode (io.py:279-283): for i in range(lo, hi), read `width` int32 UV
   * indices and hand them to set_face_uvs for polygons[i].
   */
  function FaceModeUVs(data: seq<byte>, pos: nat, i: int, hi: int, width: nat, faces: seq<seq<int>>,
                       uvs: seq<UV>, layer: seq<UV>): (r: Result<Got<seq<UV>>, DecodeError>)
    requires |layer| == |Loops(faces)|
    ensures r.Ok? ==> |r.value.value| == |layer|
    ensures r.Err? ==> r.error == Truncated || r.error == IndexOutOfRange
    decreases hi - i
  {
    if i >= hi then Ok(Got(layer, pos))
    else
      var j := PyIndex(i, |faces|);
      var b := Chunk(data, pos, 4 * width);
      if j.None? then Err(IndexOutOfRange)
      else if |b| < 4 * width then Err(Truncated)
      else
        LoopEnd(faces, j.value);
        var layer' :- FaceCornerUVs(layer, LoopStart(faces, j.value), |faces[j.value]|, IntsFrom(b, 4), uvs);
        FaceModeUVs(data, pos + 4 * width, i + 1, hi, width, faces, uvs, layer')
  }

  /** The UV section (io.py:265-283): absent, per vertex when X == 0, per face otherwise. */
  function ReadUVLayer(data: seq<byte>, pos: nat, h: Header, vcount: nat, faces: seq<seq<int>>)
    : (r: Result<Got<Option<seq<UV>>>, DecodeError>)
    ensures r.Ok? ==> (r.value.value.Some? <==> HasUVs(h.ext))
    ensures r.Ok? && r.value.value.Some? ==> |r.value.value.value| == |Loops(faces)|
    ensures r.Err? ==> r.error == Truncated || r.error == IndexOutOfRange
  {
    if !HasUVs(h.ext) then Ok(Got(None, pos))
    else if h.x == 0 then
      var us :- ReadChunks(data, pos, vcount, 8, []);
      var uvs: seq<UV> := us.value;
      var layer :- VertexModeUVs(Loops(faces), uvs);
      Ok(Got(Some(layer), us.next))
    else
      var us :- ReadChunks(data, pos, Count(h.x), 8, []);
      var uvs: seq<UV> := us.value;
      var tri :- FaceModeUVs(data, us.next, 0, h.t, 3, faces, uvs, BlankLayer(|Loops(faces)|));
      var quad :- FaceModeUVs(data, tri.next, h.t, h.t + h.q, 4, faces, uvs, tri.value);
      Ok(Got(Some(quad.value), quad.next))
  }

  // ---------------------------------------------------------------- morphs

  /**
   * read_diff_morph, framing only (io.py:326-333): a label, the packed float
   * scale, then one "<3h" triple per mesh vertex.
   */
  function ReadDiffMorph(data: seq<byte>, pos: nat, vcount: nat): (r: Result<Got<DiffMorph>, DecodeError>)
    ensures r.Ok? ==> |r.value.value.deltas| == vcount && forall i :: 0 <= i < vcount ==> |r.value.value.deltas[i]| == 3
    ensures r.Err? ==> r.error == Truncated || r.error == BadReadLength
  {
    var lbl :- ReadLabel(data, pos);
    var s := Chunk(data, lbl.next, 4);
    if |s| < 4 then Err(Truncated)
    else
      var ds :- ReadChunks(data, lbl.next + 4, vcount, 6, []);
      TuplesCount(ds.value, 2, 3);
      Ok(Got(DiffMorph(lbl.value, s, Tuples(ds.value, 2)), ds.next))
  }

  /**
   * A diff morph keeps its label as read and spans the label, four bytes of
   * scale and six bytes per vertex; it fails exactly when those bytes run out.
   */
  lemma {:induction false} DiffMorphCursor(data: seq<byte>, pos: nat, vcount: nat)
    ensures ReadLabel(data, pos).Err? ==> ReadDiffMorph(data, pos, vcount) == Err(BadReadLength)
    ensures var lbl := ReadLabel(data, pos);
      lbl.Ok? ==> (ReadDiffMorph(data, pos, vcount).Ok? <==> lbl.value.next + 4 + 6 * vcount <= |data|)
    ensures var lbl := ReadLabel(data, pos); var r := ReadDiffMorph(data, pos, vcount);
      r.Ok? ==> lbl.Ok? && r.value.value.text == lbl.value.value && r.value.next == lbl.value.next + 4 + 6 * vcount
  {
    var lbl := ReadLabel(data, pos);
    if lbl.Ok? {
      ReadChunksSpan(data, lbl.value.next + 4, vcount, 6, []);
    }
  }

  function ReadDiffMorphs(data: seq<byte>, pos: nat, n: nat, vcount: nat, acc: seq<DiffMorph>)
    : (r: Result<Got<seq<DiffMorph>>, DecodeError>)
    ensures r.Ok? ==> |r.value.value| == |acc| + n
    ensures r.Err? ==> r.error == Truncated || r.error == BadReadLength
    decreases n
  {
    if n == 0 then Ok(Got(acc, pos))
    else
      var d :- ReadDiffMorph(data, pos, vcount);
      ReadDiffMorphs(data, d.next, n - 1, vcount, acc + [d.value])
  }

  /** One turn of the diff-morph loop. */
  lemma {:induction false} DiffMorphsStep(data: seq<byte>, pos: nat, n: nat, vcount: nat, acc: seq<DiffMorph>,
                       d: Result<Got<DiffMorph>, DecodeError>)
    requires n > 0 && d == ReadDiffMorph(data, pos, vcount)
    ensures d.Err? ==> ReadDiffMorphs(data, pos, n, vcount, acc) == Err(d.error)
    ensures d.Ok? ==>
      ReadDiffMorphs(data, pos, n, vcount, acc) == ReadDiffMorphs(data, d.value.next, n - 1, vcount, acc + [d.value.value])
  {
  }

  /** What read_stat_morph carries from one listed vertex to the next. */
  datatype StatState = StatState(shape: seq<Pos>, kpos: nat, next: nat)

  /**
   * The loop of read_stat_morph (io.py:351-359): n times, read a vertex index and
   * give that vertex morph_targets[K_pos], then advance K_pos.
   */
  function StatTargets(data: seq<byte>, pos: nat, n: nat, targets: seq<Pos>, shape: seq<Pos>, kpos: nat)
    : (r: Result<StatState, DecodeError>)
    requires kpos <= |targets|
    ensures r.Ok? ==> r.value.kpos == kpos + n <= |targets| && |r.value.shape| == |shape|
    ensures kpos + n > |targets| ==> r.Err?
    ensures r.Err? ==> r.error == IndexOutOfRange
    decreases n
  {
    if n == 0 then Ok(StatState(shape, kpos, pos))
    else
      var vtx := ReadInt(data, pos);
      var j := PyIndex(vtx.value, |shape|);
      if kpos >= |targets| || j.None? then Err(IndexOutOfRange)
      else StatTargets(data, vtx.next, n - 1, targets, shape[j.value := targets[kpos]], kpos + 1)
  }

  /** The shape after shape.data[idx[j]] = vals[j] for each j in turn. */
  function Assign(shape: seq<Pos>, idx: seq<int>, vals: seq<Pos>): (s: seq<Pos>)
    requires |idx| == |vals|
    requires forall j :: 0 <= j < |idx| ==> 0 <= idx[j] < |shape|
    ensures |s| == |shape|
    decreases |idx|
  {
    if idx == [] then shape else Assign(shape[idx[0] := vals[0]], idx[1..], vals[1..])
  }

  /** Listed vertices, read in order, take the next targets of the pool. */
  lemma {:induction false} StatTargetsOf(data: seq<byte>, pos: nat, idx: seq<int>, targets: seq<Pos>,
                                         shape: seq<Pos>, kpos: nat)
    requires AllFit(idx, 4) && At(data, pos, IntsLE(idx, 4))
    requires kpos + |idx| <= |targets|
    requires forall j :: 0 <= j < |idx| ==> 0 <= idx[j] < |shape|
    ensures StatTargets(data, pos, |idx|, targets, shape, kpos)
      == Ok(StatState(Assign(shape, idx, targets[kpos .. kpos + |idx|]), kpos + |idx|, pos + 4 * |idx|))
    decreases |idx|
  {
    if idx != [] {
      AtSplit(data, pos, IntLE(idx[0], 4), IntsLE(idx[1..], 4));
      ReadIntOf(data, pos, idx[0]);
      var next := shape[idx[0] := targets[kpos]];
      assert StatTargets(data, pos, |idx|, targets, shape, kpos)
        == StatTargets(data, pos + 4, |idx| - 1, targets, next, kpos + 1);
      assert targets[kpos .. kpos + |idx|][1..] == targets[kpos + 1 .. kpos + 1 + |idx[1..]|];
      StatTargetsOf(data, pos + 4, idx[1..], targets, next, kpos + 1);
    }
  }

  /** Assigning at strictly increasing indices: each listed vertex gets its own value, the rest keep theirs. */
  lemma {:induction false} AssignIncreasing(shape: seq<Pos>, idx: seq<int>, vals: seq<Pos>, i: nat)
    requires |idx| == |vals| && i < |shape|
    requires forall j :: 0 <= j < |idx| ==> 0 <= idx[j] < |shape|
    requires forall j, k :: 0 <= j < k < |idx| ==> idx[j] < idx[k]
    ensures forall j :: 0 <= j < |idx| && idx[j] == i ==> Assign(shape, idx, vals)[i] == vals[j]
    ensures (forall j :: 0 <= j < |idx| ==> idx[j] != i) ==> Assign(shape, idx, vals)[i] == shape[i]
    decreases |idx|
  {
    if idx != [] {
      AssignIncreasing(shape[idx[0] := vals[0]], idx[1..], vals[1..], i);
      forall j | 0 <= j < |idx| && idx[j] == i
        ensures Assign(shape, idx, vals)[i] == vals[j]
      {
        if j > 0 {
          assert idx[1..][j - 1] == idx[j];
        } else {
          assert forall k :: 0 <= k < |idx[1..]| ==> idx[1..][k] != i by {
            forall k | 0 <= k < |idx[1..]| ensures idx[1..][k] != i {
              assert idx[1..][k] == idx[k + 1];
            }
          }
        }
      }
    }
  }

  /** The positions read_stat_morph leaves in the shape, and the shape's name. */
  datatype StatRead = StatRead(key: ShapeKey, kpos: nat, next: nat)

  /**
   * read_stat_morph (io.py:344-361): a label, stored with a "*" prefix; a count L;
   * then L listed vertices. The shape starts from the basis, which is the mesh's
   * vertex positions.
   */
  function ReadStatMorph(data: seq<byte>, pos: nat, vertices: seq<Pos>, targets: seq<Pos>, kpos: nat)
    : (r: Result<StatRead, DecodeError>)
    requires kpos <= |targets|
    ensures r.Ok? ==> kpos <= r.value.kpos <= |targets|
    ensures r.Err? ==> r.error == IndexOutOfRange || r.error == BadReadLength
  {
    var lbl :- ReadLabel(data, pos);
    var count := ReadInt(data, lbl.next);
    var st :- StatTargets(data, count.next, Count(count.value), targets, vertices, kpos);
    Ok(StatRead(ShapeKey(GetAbsMorphName(lbl.value), st.shape), st.kpos, st.next))
  }

  /**
   * A stat morph is named "*" + its label and moves K_pos on by exactly its
   * count L; a count reaching past the pool fails on the pool subscript.
   */
  lemma {:induction false} StatMorphCursor(data: seq<byte>, pos: nat, vertices: seq<Pos>, targets: seq<Pos>, kpos: nat)
    requires kpos <= |targets|
    ensures ReadLabel(data, pos).Err? ==> ReadStatMorph(data, pos, vertices, targets, kpos) == Err(BadReadLength)
    ensures var r := ReadStatMorph(data, pos, vertices, targets, kpos);
      var lbl := ReadLabel(data, pos);
      lbl.Ok? ==>
      var count := ReadInt(data, lbl.value.next);
      && (r.Ok? ==> r.value.key.name == GetAbsMorphName(lbl.value.value))
      && (r.Ok? ==> r.value.kpos == kpos + Count(count.value))
      && (kpos + Count(count.value) > |targets| ==> r == Err(IndexOutOfRange))
  {
  }

  /** What the stat morph loop of import_tri ends with (io.py:293-295). */
  datatype StatsRead = StatsRead(keys: seq<ShapeKey>, kpos: nat, next: nat)

  function ReadStatMorphs(data: seq<byte>, pos: nat, n: nat, vertices: seq<Pos>, targets: seq<Pos>,
                          kpos: nat, acc: seq<ShapeKey>): (r: Result<StatsRead, DecodeError>)
    requires kpos <= |targets|
    ensures r.Ok? ==> |r.value.keys| == |acc| + n
    ensures r.Ok? ==> kpos <= r.value.kpos <= |targets|
    ensures r.Err? ==> r.error == IndexOutOfRange || r.error == BadReadLength
    decreases n
  {
    if n == 0 then Ok(StatsRead(acc, kpos, pos))
    else
      var s :- ReadStatMorph(data, pos, vertices, targets, kpos);
      ReadStatMorphs(data, s.next, n - 1, vertices, targets, s.kpos, acc + [s.key])
  }

  /** One turn of the stat-morph loop. */
  lemma {:induction false} StatMorphsStep(data: seq<byte>, pos: nat, n: nat, vertices: seq<Pos>, targets: seq<Pos>,
                       kpos: nat, acc: seq<ShapeKey>, s: Result<StatRead, DecodeError>)
    requires n > 0 && kpos <= |targets|
    requires s == ReadStatMorph(data, pos, vertices, targets, kpos)
    ensures s.Err? ==> ReadStatMorphs(data, pos, n, vertices, targets, kpos, acc) == Err(s.error)
    ensures s.Ok? ==>
      ReadStatMorphs(data, pos, n, vertices, targets, kpos, acc) == ReadStatMorphs(data, s.value.next, n - 1, vertices, targets, s.value.kpos, acc + [s.value.key])
  {
  }

  /** The stat-morph loop ends with what it has gathered. */
  lemma {:induction false} StatMorphsDone(data: seq<byte>, pos: nat, vertices: seq<Pos>, targets: seq<Pos>, kpos: nat, acc: seq<ShapeKey>)
    requires kpos <= |targets|
    ensures ReadStatMorphs(data, pos, 0, vertices, targets, kpos, acc) == Ok(StatsRead(acc, kpos, pos))
  {
  }

  // ---------------------------------------------------------------- the file

  /** What import_tri builds, with the Blender objects reduced to their contents. */
  datatype Imported = Imported(
    labelsDiscarded: bool,       // the "Labels were discarded" warning (io.py:224-225)
    vertices: seq<Pos>,
    faces: seq<seq<int>>,        // the triangles, then the quads, as handed to from_pydata
    uvLayer: Option<seq<UV>>,    // one UV per loop when the file has UVs
    hasBasis: bool,              // the "Basis" shape key (io.py:285-286)
    diffs: seq<DiffMorph>,       // relative morphs as read; the float update is not modelled
    stats: seq<ShapeKey>)        // absolute morphs with their final positions

  /** The sections up to and including the face lists (io.py:247-252). */
  datatype Sections = Sections(vertices: seq<Pos>, targets: seq<Pos>, faces: seq<seq<int>>, next: nat)

  function ReadGeometry(data: seq<byte>, h: Header): (r: Result<Sections, DecodeError>)
    ensures r.Ok? ==> |r.value.vertices| == Count(h.v) && |r.value.targets| == Count(h.k)
    ensures r.Ok? ==> |r.value.faces| == Count(h.t) + Count(h.q)
    ensures r.Err? ==> r.error == Truncated
  {
    var vs :- ReadChunks(data, 64, Count(h.v), 12, []);
    var ks :- ReadChunks(data, vs.next, Count(h.k), 12, []);
    var ts :- ReadChunks(data, ks.next, Count(h.t), 12, []);
    var qs :- ReadChunks(data, ts.next, Count(h.q), 16, []);
    Ok(Sections(vs.value, ks.value, Tuples(ts.value, 4) + Tuples(qs.value, 4), qs.next))
  }

  /** Everything after the geometry: labels skipped, UVs, diff morphs, stat morphs, the pool check. */
  function ReadRest(data: seq<byte>, h: Header, g: Sections): (r: Result<Imported, DecodeError>)
    ensures r.Ok? ==> r.value.vertices == g.vertices && r.value.faces == g.faces
    ensures r.Ok? ==> |r.value.diffs| == Count(h.md) && |r.value.stats| == Count(h.ms)
    ensures r.Err? ==> r.error != NotTriFile
    ensures r.Ok? ==> r.value.labelsDiscarded == (h.lv > 0 || h.ls > 0)
  {
    var p1 :- SkipVertexLabels(data, g.next, Count(h.lv));
    var p2 :- SkipSurfaceLabels(data, p1, Count(h.ls), WideLabels(h.ext));
    var uv :- ReadUVLayer(data, p2, h, Count(h.v), g.faces);
    var ds :- ReadDiffMorphs(data, uv.next, Count(h.md), |g.vertices|, []);
    var ss :- ReadStatMorphs(data, ds.next, Count(h.ms), g.vertices, g.targets, 0, []);
    if ss.kpos != |g.targets| then Err(PoolMismatch)
    else Ok(Imported(h.lv > 0 || h.ls > 0, g.vertices, g.faces, uv.value, h.md > 0 || h.ms > 0, ds.value, ss.keys))
  }

  /** import_tri (io.py:215-296) on the file's bytes. */
  function Parse(data: seq<byte>): (r: Result<Imported, DecodeError>)
    ensures r == Err(NotTriFile) <==> !(|data| >= 8 && data[..8] == SIGNATURE)
    ensures r.Ok? ==> |data| >= 64
  {
    if Chunk(data, 0, 8) != SIGNATURE then Err(NotTriFile)
    else
      var hb := Chunk(data, 8, 56);
      if |hb| < 56 then Err(Truncated)
      else
        var h := DecodeHeader(hb);
        var g :- ReadGeometry(data, h);
        ReadRest(data, h, g)
  }

  /**
   * Whether import_tri reports "Labels were discarded" (io.py:224-225). The
   * report follows the header at once, so it stands also when the import
   * fails further on.
   */
  function LabelsWarning(data: seq<byte>): (warned: bool)
    ensures warned ==> |data| >= 64 && Parse(data) != Err(NotTriFile)
    ensures Parse(data).Ok? ==> Parse(data).value.labelsDiscarded == warned
  {
    if Chunk(data, 0, 8) != SIGNATURE then false
    else
      var hb := Chunk(data, 8, 56);
      |hb| == 56 && (DecodeHeader(hb).lv > 0 || DecodeHeader(hb).ls > 0)
  }

  /**
   * The warning stands when the import fails: a file that is nothing but a
   * header announcing vertex labels and at least one vertex reports it, and
   * then runs out of bytes reading the vertices.
   */
  lemma {:induction false} WarningBeforeFailure(h: Header)
    requires HeaderFits(h) && h.lv > 0 && h.v > 0
    ensures LabelsWarning(EncodeHeader(h)) && Parse(EncodeHeader(h)) == Err(Truncated)
  {
    var data := EncodeHeader(h);
    assert Chunk(data, 0, 8) == SIGNATURE;
    assert Chunk(data, 8, 56) == data[8..];
    HeaderRoundTrip(h);
    assert ReadChunks(data, 64, h.v, 12, []) == Err(Truncated);
  }

  /** The same, once the geometry is read: the first morph's label fails. */
  lemma {:induction false} BadLabelAfterGeometry(data: seq<byte>, h: Header, g: Sections)
    requires h.lv == 0 && h.ls == 0 && !HasUVs(h.ext) && (h.md > 0 || h.ms > 0)
    requires ReadInt(data, g.next).value < -1
    ensures ReadRest(data, h, g) == Err(BadReadLength)
  {
    assert ReadLabel(data, g.next) == Err(BadReadLength);
    if h.md > 0 {
      DiffMorphCursor(data, g.next, |g.vertices|);
      DiffMorphsStep(data, g.next, h.md, |g.vertices|, [], ReadDiffMorph(data, g.next, |g.vertices|));
    } else {
      StatMorphCursor(data, g.next, g.vertices, g.targets, 0);
      StatMorphsStep(data, g.next, h.ms, g.vertices, g.targets, 0, [], ReadStatMorph(data, g.next, g.vertices, g.targets, 0));
    }
  }
}
