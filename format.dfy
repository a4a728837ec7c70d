/**
 * The TRI byte layout: the 64-byte header and the sections that follow it,
 * as export writes them (io.py:145-210). A TriFile is the content of a file
 * section by section; Layout is its byte image.
 */
module TriFormat {
  import opened Bytes
  import opened Geometry

  /** "FRTRI003" */
  const SIGNATURE: seq<byte> := [0x46, 0x52, 0x54, 0x52, 0x49, 0x30, 0x30, 0x33]

  /**
   * The ten header integers in file order: vertices, triangles, quads,
   * vertex labels, surface labels, distinct UVs, extension flags, diff
   * morphs, stat morphs, pooled morph targets.
   */
  datatype Header = Header(v: int, t: int, q: int, lv: int, ls: int, x: int, ext: int, md: int, ms: int, k: int)

  predicate HeaderFits(h: Header)
  {
    && IsInt32(h.v) && IsInt32(h.t) && IsInt32(h.q) && IsInt32(h.lv) && IsInt32(h.ls)
    && IsInt32(h.x) && IsInt32(h.ext) && IsInt32(h.md) && IsInt32(h.ms) && IsInt32(h.k)
  }

  function Zeros(n: nat): (r: seq<byte>)
    ensures |r| == n && forall i :: 0 <= i < n ==> r[i] == 0
  {
    seq(n, _ => 0)
  }

  /** ext & 1: UV data present. */
  predicate HasUVs(ext: int) { ext % 2 == 1 }

  /** ext & 2 == 2: surface labels use two-byte characters. */
  predicate WideLabels(ext: int) { (ext / 2) % 2 == 1 }

  /** The ten integers in the order the header holds them. */
  function Fields(h: Header): (r: seq<int>)
    ensures |r| == 10
  {
    [h.v, h.t, h.q, h.lv, h.ls, h.x, h.ext, h.md, h.ms, h.k]
  }

  /** struct.pack("<8s10i16s", SIGNATURE, V, T, Q, LV, LS, X, ext, Md, Ms, K, bytes(16)). */
  function EncodeHeader(h: Header): (r: seq<byte>)
    requires HeaderFits(h)
    ensures |r| == 64 && r[..8] == SIGNATURE && r[48..] == Zeros(16)
  {
    assert AllFit(Fields(h), 4);
    SIGNATURE + IntsLE(Fields(h), 4) + Zeros(16)
  }

  /** The i-th little-endian int32 of b. */
  function Int32At(b: seq<byte>, i: nat): (x: int)
    requires 4 * i + 4 <= |b|
    ensures IsInt32(x)
  {
    FromBytesSignedFits(b[4 * i .. 4 * i + 4]);
    FromBytesSigned(b[4 * i .. 4 * i + 4])
  }

  /** struct.unpack("<10i16s", b): the ten integers; the reserved bytes are ignored. */
  function DecodeHeader(b: seq<byte>): (h: Header)
    requires |b| == 56
    ensures HeaderFits(h)
  {
    Header(Int32At(b, 0), Int32At(b, 1), Int32At(b, 2), Int32At(b, 3), Int32At(b, 4),
           Int32At(b, 5), Int32At(b, 6), Int32At(b, 7), Int32At(b, 8), Int32At(b, 9))
  }

  /** The header decodes to the ten integers it was built from. */
  lemma {:induction false} HeaderRoundTrip(h: Header)
    requires HeaderFits(h)
    ensures DecodeHeader(EncodeHeader(h)[8..]) == h
  {
    var fs := Fields(h);
    assert AllFit(fs, 4);
    var b := EncodeHeader(h)[8..];
    assert b[..40] == IntsLE(fs, 4);
    forall i | 0 <= i < 10
      ensures Int32At(b, i) == fs[i]
    {
      Int32sAt(fs, i);
      assert b[4 * i .. 4 * i + 4] == IntsLE(fs, 4)[4 * i .. 4 * i + 4];
    }
    assert Int32At(b, 0) == fs[0];
    assert Int32At(b, 9) == fs[9];
  }

  /** The UV section: none, one UV per vertex, or a UV pool with per-corner indices. */
  datatype UVSection =
    | NoUVs
    | VertexUVs(uvs: seq<UV>)
    | FaceUVs(uvs: seq<UV>, triIdx: seq<seq<int>>, quadIdx: seq<seq<int>>)

  /** A diff morph: its label text, the packed scale and one int16 triple per vertex. */
  datatype DiffMorph = DiffMorph(text: seq<byte>, scale: Bytes4, deltas: seq<seq<int>>)

  /** A stat morph: its label text and the vertices whose targets it takes from the pool. */
  datatype StatMorph = StatMorph(text: seq<byte>, indices: seq<int>)

  datatype TriFile = TriFile(
    header: Header,
    vertices: seq<Pos>,
    pool: seq<Pos>,
    tris: seq<seq<int>>,
    quads: seq<seq<int>>,
    uv: UVSection,
    diffs: seq<DiffMorph>,
    stats: seq<StatMorph>)

  predicate RecordsFit(rs: seq<seq<int>>, w: nat)
    requires w >= 1
  {
    forall i :: 0 <= i < |rs| ==> AllFit(rs[i], w)
  }

  /** Integer tuples packed one after another ("<3i" per triangle, "<3h" per delta, ...). */
  function Records(rs: seq<seq<int>>, w: nat): seq<byte>
    requires w >= 1 && RecordsFit(rs, w)
  {
    if rs == [] then [] else IntsLE(rs[0], w) + Records(rs[1..], w)
  }

  predicate UVSectionFits(u: UVSection)
  {
    u.FaceUVs? ==> RecordsFit(u.triIdx, 4) && RecordsFit(u.quadIdx, 4)
  }

  function UVBytes(u: UVSection): seq<byte>
    requires UVSectionFits(u)
  {
    match u
    case NoUVs => []
    case VertexUVs(uvs) => Concat(uvs)
    case FaceUVs(uvs, ti, qi) => Concat(uvs) + Records(ti, 4) + Records(qi, 4)
  }

  /** write_morph_label: the byte length as a little-endian int32, then the bytes. */
  function LabelBytes(text: seq<byte>): (r: seq<byte>)
    requires IsInt32(|text|)
    ensures |r| == 4 + |text| && r[4..] == text
  {
    Int32LE(|text|) + text
  }

  predicate DiffFits(d: DiffMorph)
  {
    IsInt32(|d.text|) && RecordsFit(d.deltas, 2)
  }

  function DiffBytes(d: DiffMorph): seq<byte>
    requires DiffFits(d)
  {
    LabelBytes(d.text) + d.scale + Records(d.deltas, 2)
  }

  predicate StatFits(s: StatMorph)
  {
    IsInt32(|s.text|) && IsInt32(|s.indices|) && AllFit(s.indices, 4)
  }

  function StatBytes(s: StatMorph): seq<byte>
    requires StatFits(s)
  {
    LabelBytes(s.text) + Int32LE(|s.indices|) + IntsLE(s.indices, 4)
  }

  function DiffsBytes(ds: seq<DiffMorph>): seq<byte>
    requires forall i :: 0 <= i < |ds| ==> DiffFits(ds[i])
  {
    if ds == [] then [] else DiffBytes(ds[0]) + DiffsBytes(ds[1..])
  }

  function StatsBytes(ss: seq<StatMorph>): seq<byte>
    requires forall i :: 0 <= i < |ss| ==> StatFits(ss[i])
  {
    if ss == [] then [] else StatBytes(ss[0]) + StatsBytes(ss[1..])
  }

  predicate FileFits(f: TriFile)
  {
    && HeaderFits(f.header)
    && RecordsFit(f.tris, 4)
    && RecordsFit(f.quads, 4)
    && UVSectionFits(f.uv)
    && (forall i :: 0 <= i < |f.diffs| ==> DiffFits(f.diffs[i]))
    && (forall i :: 0 <= i < |f.stats| ==> StatFits(f.stats[i]))
  }

  /**
   * The file image in section order: header, vertices, pooled targets,
   * triangles, quads, UVs, diff morphs, stat morphs (no labels are written).
   */
  function Layout(f: TriFile): seq<byte>
    requires FileFits(f)
  {
    EncodeHeader(f.header)
      + Concat(f.vertices) + Concat(f.pool)
      + Records(f.tris, 4) + Records(f.quads, 4)
      + UVBytes(f.uv)
      + DiffsBytes(f.diffs)
      + StatsBytes(f.stats)
  }

  lemma {:induction false} RecordsSnoc(rs: seq<seq<int>>, r: seq<int>, w: nat)
    requires w >= 1 && RecordsFit(rs, w) && AllFit(r, w)
    ensures RecordsFit(rs + [r], w) && Records(rs + [r], w) == Records(rs, w) + IntsLE(r, w)
  {
    if rs != [] {
      assert (rs + [r])[1..] == rs[1..] + [r];
      RecordsSnoc(rs[1..], r, w);
    }
  }

  lemma {:induction false} DiffsSnoc(ds: seq<DiffMorph>, d: DiffMorph)
    requires forall i :: 0 <= i < |ds| ==> DiffFits(ds[i])
    requires DiffFits(d)
    ensures DiffsBytes(ds + [d]) == DiffsBytes(ds) + DiffBytes(d)
  {
    if ds != [] {
      assert (ds + [d])[1..] == ds[1..] + [d];
      DiffsSnoc(ds[1..], d);
    }
  }

  lemma {:induction false} StatsSnoc(ss: seq<StatMorph>, t: StatMorph)
    requires forall i :: 0 <= i < |ss| ==> StatFits(ss[i])
    requires StatFits(t)
    ensures StatsBytes(ss + [t]) == StatsBytes(ss) + StatBytes(t)
  {
    if ss != [] {
      assert (ss + [t])[1..] == ss[1..] + [t];
      StatsSnoc(ss[1..], t);
    }
  }
}
