/**
 * perlin-desktop's BatchRenderer: the traversal pushes one render state per
 * display object, and the pushed state itself is what gets queued.
 *
 * RenderState.ApplyNewState and RenderState.GetGpuVertex, and the perlin
 * DisplayObject, are not part of this model: a display object is seen through
 * what the renderer asks of it (its handle, whether its bounds are empty, the
 * vertex record its state produces), and a derived state records the state and
 * the object it was derived from.
 */
module PerlinRendering {
  import opened Gpu
  import opened Batching

  /** What PushRenderState reads from a display object. */
  datatype ObjectView = ObjectView(resSet: ResourceSet?, boundsEmpty: bool, vertex: QuadVertex)

  /** A render state: the base state, or one derived from a parent state and an object. */
  datatype RenderState = Base | Derived(parent: RenderState, source: ObjectView) {
    function ResSet(): ResourceSet?
    {
      if Derived? then source.resSet else null
    }
  }

  /** The handles of the queued states, in queue order. */
  function Handles(q: seq<RenderState>): (h: seq<ResourceSet?>)
    ensures |h| == |q| && forall i :: 0 <= i < |q| ==> h[i] == q[i].ResSet()
  {
    if q == [] then [] else Handles(q[..|q| - 1]) + [q[|q| - 1].ResSet()]
  }

  /** The vertex records of the queued states, in queue order. */
  function Vertices(q: seq<RenderState>): (v: seq<QuadVertex>)
    requires forall i :: 0 <= i < |q| ==> q[i].Derived?
    ensures |v| == |q| && forall i :: 0 <= i < |q| ==> v[i] == q[i].source.vertex
  {
    if q == [] then [] else Vertices(q[..|q| - 1]) + [q[|q| - 1].source.vertex]
  }

  class BatchRenderer {
    var vertexBuffer: DeviceBuffer
    var renderQueue: seq<RenderState>
    var drawCount: nat
    /** The render-state stack; its top is the last element. */
    var renderStates: seq<RenderState>
    /** The draw calls issued on the command list, oldest first. */
    var drawLog: seq<DrawCall>

    ghost predicate Valid()
      reads this, vertexBuffer
    {
      && vertexBuffer.sizeInBytes >= InitialBufferSize
      && (forall i :: 0 <= i < |renderQueue| ==> renderQueue[i].Derived?)
    }

    constructor ()
      ensures Valid() && fresh(vertexBuffer)
      ensures vertexBuffer.sizeInBytes == InitialBufferSize
      ensures renderQueue == [] && renderStates == [Base] && drawLog == [] && drawCount == 0
    {
      vertexBuffer := new DeviceBuffer(InitialBufferSize);
      renderQueue := [];
      drawCount := 0;
      renderStates := [Base];
      drawLog := [];
    }

    /**
     * Flushes the frame: grows the vertex buffer if needed, writes one vertex
     * per queued state, issues one draw per maximal run of equal handles and
     * empties the queue.
     */
    method RenderQueue()
      requires Valid()
      modifies this, vertexBuffer
      ensures Valid()
      ensures vertexBuffer.sizeInBytes == if old(vertexBuffer.sizeInBytes) < |old(renderQueue)| * VertexSize
                                          then |old(renderQueue)| * VertexSize
                                          else old(vertexBuffer.sizeInBytes)
      ensures forall i :: 0 <= i < |old(renderQueue)| ==>
                i in vertexBuffer.slots && vertexBuffer.slots[i] == old(renderQueue)[i].source.vertex
      ensures drawLog == old(drawLog) + RunDraws(Handles(old(renderQueue)))
      ensures drawCount == |Runs(Handles(old(renderQueue)))|
      ensures renderQueue == [] && renderStates == old(renderStates)
    {
      EnsureVertexBufferSize(|renderQueue| * VertexSize);
      vertexBuffer.WriteVertices(Vertices(renderQueue));
      var draws := BatchDraws(Handles(renderQueue));
      RunDrawsAreRuns(Handles(renderQueue));
      drawCount := |draws|;
      drawLog := drawLog + draws;
      renderQueue := [];
    }

    /** Replaces the vertex buffer by one of exactly `size` bytes when it is smaller. */
    method EnsureVertexBufferSize(size: nat)
      requires Valid()
      modifies this`vertexBuffer, vertexBuffer`disposed
      ensures Valid()
      ensures old(vertexBuffer.sizeInBytes) < size ==>
                fresh(vertexBuffer) && vertexBuffer.sizeInBytes == size && vertexBuffer.slots == map[]
                && old(vertexBuffer).disposed
      ensures old(vertexBuffer.sizeInBytes) >= size ==>
                vertexBuffer == old(vertexBuffer) && vertexBuffer.disposed == old(vertexBuffer.disposed)
    {
      if vertexBuffer.sizeInBytes < size {
        vertexBuffer.Dispose();
        vertexBuffer := new DeviceBuffer(size);
      }
    }

    /**
     * Pushes a state derived from the current top for `obj`, and queues it
     * when the object's bounds are not empty and the state has a handle.
     * An empty stack makes Peek throw: `ok` is false and nothing changes.
     */
    method PushRenderState(obj: ObjectView) returns (ok: bool)
      requires Valid()
      modifies this`renderStates, this`renderQueue
      ensures Valid()
      ensures ok <==> old(renderStates) != []
      ensures !ok ==> renderStates == old(renderStates) && renderQueue == old(renderQueue)
      ensures ok ==>
        var rs := Derived(old(renderStates)[|old(renderStates)| - 1], obj);
        && renderStates == old(renderStates) + [rs]
        && renderQueue == old(renderQueue) + (if !obj.boundsEmpty && obj.resSet != null then [rs] else [])
    {
      if renderStates == [] {
        return false;
      }
      var rs := Derived(renderStates[|renderStates| - 1], obj);
      renderStates := renderStates + [rs];
      if !obj.boundsEmpty {
        if rs.ResSet() != null {
          renderQueue := renderQueue + [rs];
        }
      }
      ok := true;
    }

    /** Removes the top state; an empty stack makes Pop throw (`ok` is false, nothing changes). */
    method PopRenderState() returns (ok: bool)
      modifies this`renderStates
      ensures ok <==> old(renderStates) != []
      ensures renderStates == if ok then old(renderStates)[..|old(renderStates)| - 1] else old(renderStates)
    {
      if renderStates == [] {
        return false;
      }
      renderStates := renderStates[..|renderStates| - 1];
      ok := true;
    }
  }
}
