/**
 * The mesh data export reads and import creates, with the host's objects
 * reduced to plain values: positions and UVs are carried as the exact bytes
 * the format stores for them, names as their UTF-8 bytes.
 */
module Geometry {
  import opened Wrappers
  import opened Bytes

  /** A position as pack_vector3 writes it: three little-endian float32 ("<3f"). */
  type Pos = s: seq<byte> | |s| == 12 witness [0, 0, 0, 0, 0, 0, 0, 0, 0, 0, 0, 0]

  /** A UV pair as struct.pack("<ff", u, v) writes it. */
  type UV = s: seq<byte> | |s| == 8 witness [0, 0, 0, 0, 0, 0, 0, 0]

  /** A scale factor as struct.pack("<f", scale) writes it. */
  type Bytes4 = s: seq<byte> | |s| == 4 witness [0, 0, 0, 0]

  /** A face: its vertex indices and, corner by corner, the indices of its loops. */
  datatype Polygon = Polygon(verts: seq<nat>, loops: seq<nat>)

  /** A shape key: its name and one position per mesh vertex. */
  datatype ShapeKey = ShapeKey(name: seq<byte>, data: seq<Pos>)

  /** The key blocks of a mesh in order, and which of them is the reference key. */
  datatype ShapeKeys = ShapeKeys(blocks: seq<ShapeKey>, reference: nat)

  /**
   * The parts of a mesh that export reads: vertex positions, polygons, the
   * vertex of each loop, the active UV layer (one UV per loop) if there is
   * one, and the shape keys if there are any.
   */
  datatype MeshData = MeshData(
    vertices: seq<Pos>,
    polygons: seq<Polygon>,
    loopVertex: seq<nat>,
    uvLayer: Option<seq<UV>>,
    shapeKeys: Option<ShapeKeys>)

  predicate PolygonWellFormed(p: Polygon, loopVertex: seq<nat>)
  {
    && |p.verts| == |p.loops|
    && forall k :: 0 <= k < |p.loops| ==> p.loops[k] < |loopVertex| && loopVertex[p.loops[k]] == p.verts[k]
  }

  predicate ShapeKeysWellFormed(keys: ShapeKeys, vertexCount: nat)
  {
    && keys.reference < |keys.blocks|
    && IsInt32(|keys.blocks|)
    && forall i :: 0 <= i < |keys.blocks| ==>
         |keys.blocks[i].data| == vertexCount && IsInt32(|keys.blocks[i].name| + 1)
  }

  /**
   * What the host guarantees of every mesh: element counts are C ints,
   * loops refer to existing vertices, a polygon's corners agree with its
   * loops, a UV layer has one entry per loop, and every shape key has one
   * position per vertex and a short name.
   */
  predicate WellFormed(m: MeshData)
  {
    && IsInt32(|m.vertices|)
    && IsInt32(|m.polygons|)
    && IsInt32(|m.loopVertex|)
    && (forall l :: 0 <= l < |m.loopVertex| ==> m.loopVertex[l] < |m.vertices|)
    && (forall i :: 0 <= i < |m.polygons| ==> PolygonWellFormed(m.polygons[i], m.loopVertex))
    && (m.uvLayer.Some? ==> |m.uvLayer.value| == |m.loopVertex|)
    && (m.shapeKeys.Some? ==> ShapeKeysWellFormed(m.shapeKeys.value, |m.vertices|))
  }

  /** The marker "*" that starts the name of an absolute (static) morph. */
  const STAR: byte := 0x2A

  /** is_abs_morph: the name starts with the marker (an empty name raises IndexError). */
  predicate IsAbsMorph(name: seq<byte>)
    requires |name| > 0
  {
    name[0] == STAR
  }

  /** get_abs_morph_name: the shape name an imported absolute morph gets. */
  function GetAbsMorphName(stored: seq<byte>): (name: seq<byte>)
    ensures |name| == |stored| + 1
    ensures IsAbsMorph(name) && GetShapeName(name) == stored
  {
    [STAR] + stored
  }

  /** get_shape_name: the name a shape is stored under, without the marker. */
  function GetShapeName(name: seq<byte>): (stored: seq<byte>)
    requires |name| > 0
    ensures !IsAbsMorph(name) ==> stored == name
    ensures IsAbsMorph(name) ==> [STAR] + stored == name
  {
    if IsAbsMorph(name) then name[1..] else name
  }
}
