/**
 * import_tri as it runs: a file object with a moving offset, the list
 * comprehensions and loops of io.py:215-296, read_morph_label, read_diff_morph,
 * read_stat_morph, set_face_uvs and the two label skippers. Each method is
 * proved to compute the matching function of ImportSpec.
 */
module Import {
  import opened Wrappers
  import opened Bytes
  import opened Geometry
  import opened TriFormat
  import S = ImportSpec

  /** An open binary file: its bytes and the current offset, which may lie past the end. */
  class ByteReader {
    const data: seq<byte>
    var pos: nat

    constructor (data: seq<byte>)
      ensures this.data == data && pos == 0
    {
      this.data := data;
      pos := 0;
    }

    /** file.read(n), for the n a buffered binary file accepts. */
    method Read(n: int) returns (b: seq<byte>)
      requires n >= -1
      modifies this
      ensures b == S.Chunk(data, old(pos), n) && pos == old(pos) + |b|
    {
      if pos >= |data| {
        b := [];
      } else if n == -1 || pos + n > |data| {
        b := data[pos..];
      } else {
        b := data[pos .. pos + n];
      }
      pos := pos + |b|;
    }

    /** int.from_bytes(file.read(4), byteorder="little", signed=True). */
    method ReadInt() returns (x: int)
      modifies this
      ensures S.Got(x, pos) == S.ReadInt(data, old(pos))
    {
      var b := Read(4);
      x := FromBytesSigned(b);
    }

    /** file.seek(off, 1); the offset stays put when the seek raises. */
    method Seek(off: int) returns (r: Result<nat, S.DecodeError>)
      modifies this
      ensures r == S.Seek(old(pos), off)
      ensures pos == if r.Ok? then r.value else old(pos)
    {
      if pos + off < 0 {
        r := Err(S.BadSeek);
      } else {
        pos := pos + off;
        r := Ok(pos);
      }
    }
  }

  /** [struct.unpack(fmt, file.read(w)) for _ in range(n)], still as raw records. */
  method ReadRecords(file: ByteReader, n: nat, w: nat) returns (r: Result<S.Got<seq<seq<byte>>>, S.DecodeError>)
    requires w >= 1
    modifies file
    ensures r == S.ReadChunks(file.data, old(file.pos), n, w, [])
    ensures r.Ok? ==> file.pos == r.value.next
  {
    var acc: seq<seq<byte>> := [];
    var i := 0;
    while i < n
      invariant i <= n && S.AllLength(acc, w)
      invariant S.ReadChunks(file.data, old(file.pos), n, w, []) == S.ReadChunks(file.data, file.pos, n - i, w, acc)
    {
      var b := file.Read(w);
      if |b| < w {
        return Err(S.Truncated);
      }
      acc := acc + [b];
      i := i + 1;
    }
    return Ok(S.Got(acc, file.pos));
  }

  /** skip_vertex_label (io.py:381-387). */
  method SkipVertexLabel(file: ByteReader) returns (r: Result<nat, S.DecodeError>)
    modifies file
    ensures r == S.SkipVertexLabel(file.data, old(file.pos))
    ensures r.Ok? ==> file.pos == r.value
  {
    var _ := file.Seek(4);
    var s := file.ReadInt();
    r := file.Seek(s);
  }

  /** skip_surface_label (io.py:369-378). */
  method SkipSurfaceLabel(file: ByteReader, wide: bool) returns (r: Result<nat, S.DecodeError>)
    modifies file
    ensures r == S.SkipSurfaceLabel(file.data, old(file.pos), wide)
    ensures r.Ok? ==> file.pos == r.value
  {
    var _ := file.Seek(16);
    var s := file.ReadInt();
    if wide {
      r := file.Seek(2 * s);
    } else {
      r := file.Seek(s);
    }
  }

  /** The vertex-label loop of import_tri (io.py:257-258). */
  method SkipVertexLabels(file: ByteReader, n: nat) returns (r: Result<nat, S.DecodeError>)
    modifies file
    ensures r == S.SkipVertexLabels(file.data, old(file.pos), n)
    ensures r.Ok? ==> file.pos == r.value
  {
    var i := 0;
    while i < n
      invariant i <= n
      invariant S.SkipVertexLabels(file.data, old(file.pos), n) == S.SkipVertexLabels(file.data, file.pos, n - i)
    {
      var p := SkipVertexLabel(file);
      if p.Err? {
        return Err(p.error);
      }
      i := i + 1;
    }
    return Ok(file.pos);
  }

  /** The surface-label loop of import_tri (io.py:261-262). */
  method SkipSurfaceLabels(file: ByteReader, n: nat, wide: bool) returns (r: Result<nat, S.DecodeError>)
    modifies file
    ensures r == S.SkipSurfaceLabels(file.data, old(file.pos), n, wide)
    ensures r.Ok? ==> file.pos == r.value
  {
    var i := 0;
    while i < n
      invariant i <= n
      invariant S.SkipSurfaceLabels(file.data, old(file.pos), n, wide) == S.SkipSurfaceLabels(file.data, file.pos, n - i, wide)
    {
      var p := SkipSurfaceLabel(file, wide);
      if p.Err? {
        return Err(p.error);
      }
      i := i + 1;
    }
    return Ok(file.pos);
  }

  /** read_morph_label (io.py:339-341). */
  method ReadMorphLabel(file: ByteReader) returns (r: Result<S.Got<seq<byte>>, S.DecodeError>)
    modifies file
    ensures r == S.ReadLabel(file.data, old(file.pos))
    ensures r.Ok? ==> file.pos == r.value.next
  {
    var n := file.ReadInt();
    if n < -1 {
      return Err(S.BadReadLength);
    }
    var text := file.Read(n);
    return Ok(S.Got(text, file.pos));
  }

  /** read_diff_morph (io.py:326-336), keeping the scale and deltas as read. */
  method ReadDiffMorph(file: ByteReader, vcount: nat) returns (r: Result<S.Got<DiffMorph>, S.DecodeError>)
    modifies file
    ensures r == S.ReadDiffMorph(file.data, old(file.pos), vcount)
    ensures r.Ok? ==> file.pos == r.value.next
  {
    var lbl :- ReadMorphLabel(file);
    var text := lbl.value;
    var scale := file.Read(4);
    if |scale| < 4 {
      return Err(S.Truncated);
    }
    var ds :- ReadRecords(file, vcount, 6);
    return Ok(S.Got(DiffMorph(text, scale, S.Tuples(ds.value, 2)), ds.next));
  }

  /** What is left of the diff-morph loop, read from pos on, completes goal. */
  predicate DiffsGoal(goal: Result<S.Got<seq<DiffMorph>>, S.DecodeError>, data: seq<byte>, pos: nat,
                      left: nat, vcount: nat, acc: seq<DiffMorph>)
  {
    forall p: nat {:trigger S.Reached(p)} :: S.Reached(p) && p == pos ==> goal == S.ReadDiffMorphs(data, p, left, vcount, acc)
  }

  /** One turn of the diff-morph loop. */
  method DiffMorphTurn(file: ByteReader, left: nat, vcount: nat, acc: seq<DiffMorph>,
                       ghost goal: Result<S.Got<seq<DiffMorph>>, S.DecodeError>)
    returns (d: Result<S.Got<DiffMorph>, S.DecodeError>)
    requires left > 0 && DiffsGoal(goal, file.data, file.pos, left, vcount, acc)
    modifies file
    ensures d.Err? ==> goal == Err(d.error)
    ensures d.Ok? ==> DiffsGoal(goal, file.data, file.pos, left - 1, vcount, acc + [d.value.value])
  {
    ghost var at := file.pos;
    assert S.Reached(at);
    d := ReadDiffMorph(file, vcount);
    S.DiffMorphsStep(file.data, at, left, vcount, acc, d);
    assert S.Reached(file.pos);
  }

  /** The diff-morph loop of import_tri (io.py:289-290). */
  method ReadDiffMorphs(file: ByteReader, n: nat, vcount: nat) returns (r: Result<S.Got<seq<DiffMorph>>, S.DecodeError>)
    modifies file
    ensures r == S.ReadDiffMorphs(file.data, old(file.pos), n, vcount, [])
    ensures r.Ok? ==> file.pos == r.value.next
  {
    ghost var goal := S.ReadDiffMorphs(file.data, file.pos, n, vcount, []);
    var acc: seq<DiffMorph> := [];
    var left := n;
    assert S.Reached(file.pos);
    while left > 0
      // compared with true so that the verifier takes the goal as one fact rather than unfolding it
      invariant DiffsGoal(goal, file.data, file.pos, left, vcount, acc) == true
    {
      var d := DiffMorphTurn(file, left, vcount, acc, goal);
      if d.Err? {
        return Err(d.error);
      }
      acc := acc + [d.value.value];
      left := left - 1;
    }
    assert S.Reached(file.pos);
    return Ok(S.Got(acc, file.pos));
  }

  /**
   * read_stat_morph (io.py:344-361): the new shape starts as a copy of the basis,
   * and each listed vertex takes the next pooled target.
   */
  method ReadStatMorph(file: ByteReader, vertices: seq<Pos>, targets: seq<Pos>, kpos: nat)
    returns (r: Result<S.StatRead, S.DecodeError>)
    requires kpos <= |targets|
    modifies file
    ensures r == S.ReadStatMorph(file.data, old(file.pos), vertices, targets, kpos)
    ensures r.Ok? ==> file.pos == r.value.next
  {
    var lbl :- ReadMorphLabel(file);
    var text := lbl.value;
    var count := file.ReadInt();
    ghost var start := file.pos;
    var shape := new Pos[|vertices|](i requires 0 <= i < |vertices| => vertices[i]);
    assert shape[..] == vertices;
    var k := kpos;
    var i := 0;
    while i < S.Count(count)
      invariant i <= S.Count(count) && k == kpos + i <= |targets|
      invariant S.StatTargets(file.data, start, S.Count(count), targets, vertices, kpos)
        == S.StatTargets(file.data, file.pos, S.Count(count) - i, targets, shape[..], k)
    {
      var vtx := file.ReadInt();
      if k >= |targets| {
        return Err(S.IndexOutOfRange);
      }
      var j := S.PyIndex(vtx, shape.Length);
      if j.None? {
        return Err(S.IndexOutOfRange);
      }
      shape[j.value] := targets[k];
      k := k + 1;
      i := i + 1;
    }
    return Ok(S.StatRead(ShapeKey(GetAbsMorphName(text), shape[..]), k, file.pos));
  }

  /** What is left of the stat-morph loop, read from pos on, completes goal. */
  predicate StatsGoal(goal: Result<S.StatsRead, S.DecodeError>, data: seq<byte>, pos: nat, left: nat,
                      vertices: seq<Pos>, targets: seq<Pos>, kpos: nat, keys: seq<ShapeKey>)
    requires kpos <= |targets|
  {
    forall p: nat {:trigger S.Reached(p)} :: S.Reached(p) && p == pos ==>
      goal == S.ReadStatMorphs(data, p, left, vertices, targets, kpos, keys)
  }

  /** One turn of the stat-morph loop: Some(e) when it stops with error e, else the keys and K_pos after it. */
  method StatMorphTurn(file: ByteReader, left: nat, vertices: seq<Pos>, targets: seq<Pos>, kpos: nat,
                       keys: seq<ShapeKey>, ghost goal: Result<S.StatsRead, S.DecodeError>)
    returns (e: Option<S.DecodeError>, keys': seq<ShapeKey>, kpos': nat)
    requires left > 0 && kpos <= |targets|
    requires StatsGoal(goal, file.data, file.pos, left, vertices, targets, kpos, keys)
    modifies file
    ensures e.Some? ==> goal == Err(e.value)
    ensures e.None? ==> kpos' <= |targets| && StatsGoal(goal, file.data, file.pos, left - 1, vertices, targets, kpos', keys')
  {
    ghost var at := file.pos;
    assert S.Reached(at);
    var s := ReadStatMorph(file, vertices, targets, kpos);
    S.StatMorphsStep(file.data, at, left, vertices, targets, kpos, keys, s);
    if s.Err? {
      return Some(s.error), keys, kpos;
    }
    assert S.Reached(file.pos);
    return None, keys + [s.value.key], s.value.kpos;
  }

  /**
   * The stat-morph loop of import_tri with its running K_pos (io.py:293-295),
   * run towards goal, the outcome of the whole loop.
   */
  method StatMorphLoop(file: ByteReader, n: nat, vertices: seq<Pos>, targets: seq<Pos>,
                       ghost goal: Result<S.StatsRead, S.DecodeError>) returns (r: Result<S.StatsRead, S.DecodeError>)
    requires StatsGoal(goal, file.data, file.pos, n, vertices, targets, 0, [])
    modifies file
    ensures r == goal
    ensures r.Ok? ==> file.pos == r.value.next
  {
    var keys: seq<ShapeKey> := [];
    var kpos: nat := 0;
    var left := n;
    while left > 0
      invariant kpos <= |targets|
      // compared with true so that the verifier takes the goal as one fact rather than unfolding it
      invariant StatsGoal(goal, file.data, file.pos, left, vertices, targets, kpos, keys) == true
    {
      var e;
      e, keys, kpos := StatMorphTurn(file, left, vertices, targets, kpos, keys, goal);
      if e.Some? {
        return Err(e.value);
      }
      left := left - 1;
    }
    assert S.Reached(file.pos);
    S.StatMorphsDone(file.data, file.pos, vertices, targets, kpos, keys);
    return Ok(S.StatsRead(keys, kpos, file.pos));
  }

  /** All the stat morphs of the file (io.py:293-295). */
  method ReadStatMorphs(file: ByteReader, n: nat, vertices: seq<Pos>, targets: seq<Pos>)
    returns (r: Result<S.StatsRead, S.DecodeError>)
    modifies file
    ensures r == S.ReadStatMorphs(file.data, old(file.pos), n, vertices, targets, 0, [])
    ensures r.Ok? ==> file.pos == r.value.next
  {
    assert S.Reached(file.pos);
    r := StatMorphLoop(file, n, vertices, targets, S.ReadStatMorphs(file.data, file.pos, n, vertices, targets, 0, []));
  }

  /** The per-vertex UV loop (io.py:274-276) over a fresh UV layer. */
  method VertexUVs(loops: seq<int>, uvs: seq<UV>) returns (r: Result<seq<UV>, S.DecodeError>)
    ensures r == S.VertexModeUVs(loops, uvs)
  {
    var layer := new UV[|loops|](_ => S.ZERO_UV);
    var l := 0;
    while l < |loops|
      invariant l <= |loops|
      invariant forall l' :: 0 <= l' < l ==> S.PyIndex(loops[l'], |uvs|).Some?
      invariant forall l' :: 0 <= l' < l ==> layer[l'] == uvs[S.PyIndex(loops[l'], |uvs|).value]
    {
      var v := S.PyIndex(loops[l], |uvs|);
      if v.None? {
        return Err(S.IndexOutOfRange);
      }
      layer[l] := uvs[v.value];
      l := l + 1;
    }
    assert S.VertexModeUVs(loops, uvs).value == layer[..];
    return Ok(layer[..]);
  }

  /** set_face_uvs (io.py:364-366) on the polygon whose loops are start .. start + size. */
  method SetFaceUVs(layer: array<UV>, start: nat, size: nat, indices: seq<int>, uvs: seq<UV>) returns (ok: bool)
    requires start + size <= layer.Length
    modifies layer
    ensures ok == S.CornersValid(size, indices, uvs)
    ensures ok ==> layer[..] == S.FaceCornerUVs(old(layer[..]), start, size, indices, uvs).value
  {
    var k := 0;
    while k < |indices|
      invariant k <= |indices|
      invariant k <= size
      invariant forall k' :: 0 <= k' < k ==> S.PyIndex(indices[k'], |uvs|).Some?
      invariant forall k' :: 0 <= k' < k ==> layer[start + k'] == uvs[S.PyIndex(indices[k'], |uvs|).value]
      invariant forall l :: 0 <= l < layer.Length && !(start <= l < start + k) ==> layer[l] == old(layer[l])
    {
      var u := S.PyIndex(indices[k], |uvs|);
      if u.None? || k >= size {
        return false;
      }
      layer[start + k] := uvs[u.value];
      k := k + 1;
    }
    return true;
  }

  /** What is left of a face-UV loop, read from pos on with the layer so far, completes goal. */
  predicate FaceUVGoal(goal: Result<S.Got<seq<UV>>, S.DecodeError>, data: seq<byte>, pos: nat, i: int, hi: int,
                       width: nat, faces: seq<seq<int>>, uvs: seq<UV>, layer: seq<UV>)
    requires |layer| == |S.Loops(faces)|
  {
    forall p: nat {:trigger S.Reached(p)} :: S.Reached(p) && p == pos ==>
      goal == S.FaceModeUVs(data, p, i, hi, width, faces, uvs, layer)
  }

  /** One turn of a face-UV loop: Some(e) when it stops with error e. */
  method FaceUVTurn(file: ByteReader, layer: array<UV>, i: int, hi: int, width: nat, faces: seq<seq<int>>,
                    uvs: seq<UV>, ghost goal: Result<S.Got<seq<UV>>, S.DecodeError>) returns (e: Option<S.DecodeError>)
    requires i < hi && layer.Length == |S.Loops(faces)|
    requires FaceUVGoal(goal, file.data, file.pos, i, hi, width, faces, uvs, layer[..])
    modifies file, layer
    ensures e.Some? ==> goal == Err(e.value)
    ensures e.None? ==> FaceUVGoal(goal, file.data, file.pos, i + 1, hi, width, faces, uvs, layer[..])
  {
    assert S.Reached(file.pos);
    var j := S.PyIndex(i, |faces|);
    if j.None? {
      return Some(S.IndexOutOfRange);
    }
    var b := file.Read(4 * width);
    if |b| < 4 * width {
      return Some(S.Truncated);
    }
    S.LoopEnd(faces, j.value);
    var ok := SetFaceUVs(layer, S.LoopStart(faces, j.value), |faces[j.value]|, IntsFrom(b, 4), uvs);
    if !ok {
      return Some(S.IndexOutOfRange);
    }
    assert S.Reached(file.pos);
    return None;
  }

  /** for i in range(lo, hi): set_face_uvs(..., polygons[i], struct.unpack(...), uvs) (io.py:279-283). */
  method FaceUVRange(file: ByteReader, layer: array<UV>, lo: int, hi: int, width: nat,
                     faces: seq<seq<int>>, uvs: seq<UV>) returns (r: Result<S.Got<seq<UV>>, S.DecodeError>)
    requires layer.Length == |S.Loops(faces)|
    modifies file, layer
    ensures r == S.FaceModeUVs(file.data, old(file.pos), lo, hi, width, faces, uvs, old(layer[..]))
    ensures r.Ok? ==> r.value.value == layer[..] && file.pos == r.value.next
  {
    ghost var goal := S.FaceModeUVs(file.data, file.pos, lo, hi, width, faces, uvs, layer[..]);
    var i := lo;
    assert S.Reached(file.pos);
    while i < hi
      // compared with true so that the verifier takes the goal as one fact rather than unfolding it
      invariant FaceUVGoal(goal, file.data, file.pos, i, hi, width, faces, uvs, layer[..]) == true
      decreases hi - i
    {
      var e := FaceUVTurn(file, layer, i, hi, width, faces, uvs, goal);
      if e.Some? {
        return Err(e.value);
      }
      i := i + 1;
    }
    assert S.Reached(file.pos);
    return Ok(S.Got(layer[..], file.pos));
  }

  /** The UV section of import_tri (io.py:265-283). */
  method ReadUVLayer(file: ByteReader, h: Header, vcount: nat, faces: seq<seq<int>>)
    returns (r: Result<S.Got<Option<seq<UV>>>, S.DecodeError>)
    modifies file
    ensures r == S.ReadUVLayer(file.data, old(file.pos), h, vcount, faces)
    ensures r.Ok? ==> file.pos == r.value.next
  {
    if !HasUVs(h.ext) {
      return Ok(S.Got(None, file.pos));
    }
    if h.x == 0 {
      var us :- ReadRecords(file, vcount, 8);
      var layer :- VertexUVs(S.Loops(faces), us.value);
      return Ok(S.Got(Some(layer), us.next));
    }
    var us :- ReadRecords(file, S.Count(h.x), 8);
    var layer := new UV[|S.Loops(faces)|](_ => S.ZERO_UV);
    assert layer[..] == S.BlankLayer(|S.Loops(faces)|);
    var tri :- FaceUVRange(file, layer, 0, h.t, 3, faces, us.value);
    var quad :- FaceUVRange(file, layer, h.t, h.t + h.q, 4, faces, us.value);
    return Ok(S.Got(Some(quad.value), quad.next));
  }

  /** The geometry sections (io.py:247-252). */
  method ReadGeometry(file: ByteReader, h: Header) returns (r: Result<S.Sections, S.DecodeError>)
    requires file.pos == 64
    modifies file
    ensures r == S.ReadGeometry(file.data, h)
    ensures r.Ok? ==> file.pos == r.value.next
  {
    var vs :- ReadRecords(file, S.Count(h.v), 12);
    var ks :- ReadRecords(file, S.Count(h.k), 12);
    var ts :- ReadRecords(file, S.Count(h.t), 12);
    var qs :- ReadRecords(file, S.Count(h.q), 16);
    return Ok(S.Sections(vs.value, ks.value, S.Tuples(ts.value, 4) + S.Tuples(qs.value, 4), qs.next));
  }

  /** import_tri (io.py:215-296) on the bytes of the file. */
  method ImportTri(data: seq<byte>) returns (r: Result<S.Imported, S.DecodeError>, warned: bool)
    ensures r == S.Parse(data)
    ensures warned == S.LabelsWarning(data)
  {
    var file := new ByteReader(data);
    var signature := file.Read(8);
    if signature != SIGNATURE {
      return Err(S.NotTriFile), false;
    }
    var hb := file.Read(56);
    if |hb| < 56 {
      return Err(S.Truncated), false;
    }
    var h := DecodeHeader(hb);
    warned := h.lv > 0 || h.ls > 0;
    var g :- ReadGeometry(file, h);
    var p1 :- SkipVertexLabels(file, S.Count(h.lv));
    var p2 :- SkipSurfaceLabels(file, S.Count(h.ls), WideLabels(h.ext));
    var uv :- ReadUVLayer(file, h, S.Count(h.v), g.faces);
    var ds :- ReadDiffMorphs(file, S.Count(h.md), |g.vertices|);
    var ss :- ReadStatMorphs(file, S.Count(h.ms), g.vertices, g.targets);
    if ss.kpos != |g.targets| {
      return Err(S.PoolMismatch), warned;
    }
    return Ok(S.Imported(warned, g.vertices, g.faces, uv.value, h.md > 0 || h.ms > 0, ds.value, ss.keys)), warned;
  }
}
