/**
 * The parts of the GPU device abstraction the renderers use: resource-set
 * handles, the per-instance vertex record, draw calls and vertex buffers.
 */
module Gpu {
  import opened Geom

  /**
   * A texture+sampler binding. Objects showing the same image share one
   * ResourceSet; renderers compare handles by reference, which is what
   * equality on a Dafny class reference is.
   */
  class ResourceSet {
    constructor () {}
  }

  /** Veldrid's RgbaByte. */
  datatype Color = Color(r: bv8, g: bv8, b: bv8, a: bv8)

  const White := Color(0xFF, 0xFF, 0xFF, 0xFF)

  /**
   * The per-instance vertex record (QuadVertex): position and rotation come
   * from the render state's modelview transforms, kept here as that list of
   * transforms; size and tint are values.
   */
  datatype QuadVertex = QuadVertex(transforms: seq<Matrix>, sizeX: real, sizeY: real, tint: Color)

  /** Bytes per QuadVertex: Float2 position, Float2 size, Byte4 tint, Float1 rotation. */
  const VertexSize: nat := 24

  /** Every renderer starts with a vertex buffer of this many bytes. */
  const InitialBufferSize: nat := 1000

  /** Every draw call draws one quad per instance. */
  const QuadVertexCount: nat := 4

  /**
   * `cl.SetGraphicsResourceSet(1, resources)` followed by
   * `cl.Draw(vertexCount, instanceCount, vertexStart, instanceStart)`.
   */
  datatype DrawCall = Draw(resources: ResourceSet?, vertexCount: nat, instanceCount: nat, vertexStart: nat, instanceStart: nat)

  /** A dynamic vertex buffer. `slots` holds what was written through a mapped view. */
  class DeviceBuffer {
    const sizeInBytes: nat
    var disposed: bool
    var slots: map<nat, QuadVertex>

    constructor (size: nat)
      ensures sizeInBytes == size && !disposed && slots == map[]
    {
      sizeInBytes := size;
      disposed := false;
      slots := map[];
    }

    method Dispose()
      modifies this`disposed
      ensures disposed
    {
      disposed := true;
    }

    /**
     * `writeMap[i] = vertices[i]` for every i, in order, through a mapped
     * view of the buffer; slots beyond the written ones keep their contents.
     */
    method WriteVertices(vertices: seq<QuadVertex>)
      modifies this`slots
      ensures forall i :: 0 <= i < |vertices| ==> i in slots && slots[i] == vertices[i]
      ensures forall i :: i in old(slots) && i >= |vertices| ==> i in slots && slots[i] == old(slots)[i]
      ensures forall i :: i in slots ==> i < |vertices| || i in old(slots)
    {
      var i := 0;
      while i < |vertices|
        invariant 0 <= i <= |vertices|
        invariant forall j :: 0 <= j < i ==> j in slots && slots[j] == vertices[j]
        invariant forall j :: j in old(slots) && j >= i ==> j in slots && slots[j] == old(slots)[j]
        invariant forall j :: j in slots ==> j < i || j in old(slots)
      {
        slots := slots[i := vertices[i]];
        i := i + 1;
      }
    }
  }
}
