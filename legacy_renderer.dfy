/**
 * The older renderer of kestrel-desktop (Engine/BatchRenderer.cs): every
 * object handed to it is queued, and there is no render-state stack and no
 * draw counter.
 *
 * The DisplayObject that version queues is not part of this model; a queued
 * object is seen through the two things RenderQueue reads from it, its
 * handle and its vertex record.
 */
module LegacyRendering {
  import opened Gpu
  import opened Batching

  datatype QueuedObject = QueuedObject(resSet: ResourceSet?, gpuVertex: QuadVertex)

  /** The handles of the queued objects, in queue order. */
  function Handles(q: seq<QueuedObject>): (h: seq<ResourceSet?>)
    ensures |h| == |q| && forall i :: 0 <= i < |q| ==> h[i] == q[i].resSet
  {
    if q == [] then [] else Handles(q[..|q| - 1]) + [q[|q| - 1].resSet]
  }

  /** The vertex records of the queued objects, in queue order. */
  function Vertices(q: seq<QueuedObject>): (v: seq<QuadVertex>)
    ensures |v| == |q| && forall i :: 0 <= i < |q| ==> v[i] == q[i].gpuVertex
  {
    if q == [] then [] else Vertices(q[..|q| - 1]) + [q[|q| - 1].gpuVertex]
  }

  class BatchRenderer {
    var vertexBuffer: DeviceBuffer
    var drawQueue: seq<QueuedObject>
    var drawLog: seq<DrawCall>

    ghost predicate Valid()
      reads this, vertexBuffer
    {
      vertexBuffer.sizeInBytes >= InitialBufferSize
    }

    constructor ()
      ensures Valid() && fresh(vertexBuffer)
      ensures vertexBuffer.sizeInBytes == InitialBufferSize
      ensures drawQueue == [] && drawLog == []
    {
      vertexBuffer := new DeviceBuffer(InitialBufferSize);
      drawQueue := [];
      drawLog := [];
    }

    /** Appends the object to the queue, whatever its handle. */
    method AddToRenderQueue(obj: QueuedObject)
      modifies this`drawQueue
      ensures drawQueue == old(drawQueue) + [obj]
    {
      drawQueue := drawQueue + [obj];
    }

    /**
     * Flushes the frame: grows the vertex buffer if needed, writes one vertex
     * per queued object, issues one draw per maximal run of equal handles and
     * empties the queue.
     */
    method RenderQueue()
      requires Valid()
      modifies this, vertexBuffer
      ensures Valid()
      ensures vertexBuffer.sizeInBytes == if old(vertexBuffer.sizeInBytes) < |old(drawQueue)| * VertexSize
                                          then |old(drawQueue)| * VertexSize
                                          else old(vertexBuffer.sizeInBytes)
      ensures forall i :: 0 <= i < |old(drawQueue)| ==>
                i in vertexBuffer.slots && vertexBuffer.slots[i] == old(drawQueue)[i].gpuVertex
      ensures drawLog == old(drawLog) + RunDraws(Handles(old(drawQueue)))
      ensures drawQueue == []
    {
      EnsureBufferSize(|drawQueue| * VertexSize);
      vertexBuffer.WriteVertices(Vertices(drawQueue));
      var draws := BatchDraws(Handles(drawQueue));
      drawLog := drawLog + draws;
      drawQueue := [];
    }

    /** Replaces the vertex buffer by one of exactly `size` bytes when it is smaller. */
    method EnsureBufferSize(size: nat)
      requires Valid()
      modifies this`vertexBuffer, vertexBuffer`disposed
      ensures Valid()
      ensures old(vertexBuffer.sizeInBytes) < size ==>
                fresh(vertexBuffer) && vertexBuffer.sizeInBytes == size && vertexBuffer.slots == map[]
                && old(vertexBuffer).disposed
      ensures old(vertexBuffer.sizeInBytes) >= size ==>
                vertexBuffer == old(vertexBuffer) && vertexBuffer.disposed == old(vertexBuffer.disposed)
    {
      if vertexBuffer.sizeInBytes < size {
        vertexBuffer.Dispose();
        vertexBuffer := new DeviceBuffer(size);
      }
    }
  }
}
