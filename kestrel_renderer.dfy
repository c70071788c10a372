/**
 * kestrel-desktop's BatchRenderer (Engine/Rendering/BatchRenderer.cs): the
 * traversal queues display objects that have an image, the frame is flushed
 * as one draw per run of equal images, and a stack of render states follows
 * the traversal.
 */
module KestrelRendering {
  import opened Geom
  import opened Errors
  import opened Gpu
  import opened Batching
  import opened RenderStates
  import opened Display

  /** The handles of the queued objects, in queue order. */
  function Handles(q: seq<DisplayObject>): (h: seq<ResourceSet?>)
    reads q`resSet
    ensures |h| == |q| && forall i :: 0 <= i < |q| ==> h[i] == q[i].resSet
  {
    if q == [] then [] else Handles(q[..|q| - 1]) + [q[|q| - 1].resSet]
  }

  /** What GetGpuVertex gives for each queued object, in queue order. */
  function Vertices(q: seq<DisplayObject>): (v: seq<QuadVertex>)
    reads q`renderState, q`originalWidth, q`originalHeight, q`tint
    ensures |v| == |q| && forall i :: 0 <= i < |q| ==> v[i] == q[i].GpuVertex()
  {
    if q == [] then [] else Vertices(q[..|q| - 1]) + [q[|q| - 1].GpuVertex()]
  }

  class BatchRenderer {
    var vertexBuffer: DeviceBuffer
    var drawQueue: seq<DisplayObject>
    var drawCount: nat
    /** The render-state stack; its top is the last element. */
    var renderStates: seq<RenderState>
    /** The draw calls issued on the command list, oldest first. */
    var drawLog: seq<DrawCall>

    /** The vertex buffer never falls below its initial size. */
    ghost predicate Valid()
      reads this, vertexBuffer
    {
      vertexBuffer.sizeInBytes >= InitialBufferSize
    }

    /** A 1000-byte buffer, an empty queue and a stack holding one fresh state. */
    constructor ()
      ensures Valid() && fresh(vertexBuffer)
      ensures vertexBuffer.sizeInBytes == InitialBufferSize
      ensures drawQueue == [] && renderStates == [Fresh] && drawLog == [] && drawCount == 0
    {
      vertexBuffer := new DeviceBuffer(InitialBufferSize);
      drawQueue := [];
      drawCount := 0;
      renderStates := [Fresh];
      drawLog := [];
    }

    /** Queues the object when it has an image; an object without one is dropped. */
    method AddToRenderQueue(obj: DisplayObject)
      modifies this`drawQueue
      ensures obj.resSet != null ==> drawQueue == old(drawQueue) + [obj]
      ensures obj.resSet == null ==> drawQueue == old(drawQueue)
    {
      if obj.resSet != null {
        drawQueue := drawQueue + [obj];
      }
    }

    /**
     * Flushes the frame: grows the vertex buffer if needed, writes the vertex
     * of each queued object into the slot of its queue position, issues one
     * draw per maximal run of equal handles, counts the draws and empties the
     * queue.
     */
    method RenderQueue()
      requires Valid()
      modifies this, vertexBuffer
      ensures Valid()
      ensures vertexBuffer.sizeInBytes == if old(vertexBuffer.sizeInBytes) < |old(drawQueue)| * VertexSize
                                          then |old(drawQueue)| * VertexSize
                                          else old(vertexBuffer.sizeInBytes)
      ensures forall i :: 0 <= i < |old(drawQueue)| ==>
                i in vertexBuffer.slots && vertexBuffer.slots[i] == old(drawQueue[i].GpuVertex())
      ensures drawLog == old(drawLog + RunDraws(Handles(drawQueue)))
      ensures drawCount == old(|Runs(Handles(drawQueue))|)
      ensures drawQueue == [] && renderStates == old(renderStates)
    {
      var q := drawQueue;
      var vertices, handles := Vertices(q), Handles(q);
      EnsureBufferSize(|q| * VertexSize);
      vertexBuffer.WriteVertices(vertices);
      var draws := BatchDraws(handles);
      RunDrawsAreRuns(handles);
      drawCount := |draws|;
      drawLog := drawLog + draws;
      drawQueue := [];
    }

    /** Replaces the vertex buffer by one of exactly `size` bytes when it is smaller. */
    method EnsureBufferSize(size: nat)
      requires Valid()
      modifies this`vertexBuffer, vertexBuffer`disposed
      ensures Valid()
      ensures old(vertexBuffer.sizeInBytes) < size ==>
                fresh(vertexBuffer) && vertexBuffer.sizeInBytes == size && vertexBuffer.slots == map[]
                && old(vertexBuffer).disposed
      ensures old(vertexBuffer.sizeInBytes) >= size ==>
                vertexBuffer == old(vertexBuffer) && vertexBuffer.disposed == old(vertexBuffer.disposed)
    {
      if vertexBuffer.sizeInBytes < size {
        vertexBuffer.Dispose();
        vertexBuffer := new DeviceBuffer(size);
      }
    }

    /**
     * Pushes and returns a copy of the top state with alpha and scales
     * multiplied by the arguments and `m` applied to its transform. On an
     * empty stack Peek throws: EmptyStack, and nothing changes.
     */
    method PushRenderState(alpha: real, m: Matrix, scaleX: real, scaleY: real) returns (r: Result<RenderState>)
      modifies this`renderStates
      ensures old(renderStates) == [] ==> r == Fail(EmptyStack) && renderStates == old(renderStates)
      ensures old(renderStates) != [] ==>
        var top := old(renderStates)[|old(renderStates)| - 1];
        && r == Ok(Derive(top, alpha, m, scaleX, scaleY))
        && renderStates == old(renderStates) + [r.value]
    {
      if renderStates == [] {
        return Fail(EmptyStack);
      }
      var rs := Derive(renderStates[|renderStates| - 1], alpha, m, scaleX, scaleY);
      renderStates := renderStates + [rs];
      r := Ok(rs);
    }

    /** Removes the top state; an empty stack makes Pop throw (`ok` is false, nothing changes). */
    method PopRenderState() returns (ok: bool)
      modifies this`renderStates
      ensures ok <==> old(renderStates) != []
      ensures renderStates == if ok then old(renderStates)[..|old(renderStates)| - 1] else old(renderStates)
    {
      if renderStates == [] {
        return false;
      }
      renderStates := renderStates[..|renderStates| - 1];
      ok := true;
    }
  }
}
