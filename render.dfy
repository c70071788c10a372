/**
 * DisplayObject.Render: the per-frame traversal that fires EnterFrame on
 * objects on stage and, below every visible object, pushes a render state,
 * queues the object when its bounds are not empty, renders the children in
 * list order and pops the state again.
 *
 * It lives apart from Display because it drives the kestrel renderer, whose
 * queue holds display objects.
 */
module DisplayRender {
  import opened Geom
  import opened Errors
  import opened RenderStates
  import opened Display
  import opened KestrelRendering
  import Ancestry
  import Batching

  /** m is `top` or lies below it. */
  ghost predicate Below(anc: Forest, m: DisplayObject, top: DisplayObject)
    requires m in anc
  {
    top in Ancestry.Chain(anc, m)
  }

  /** A child's subtree lies inside its parent's, and the parent is not in it. */
  lemma ChildSubtree(anc: Forest, G: Scene, n: DisplayObject, c: DisplayObject)
    requires Shaped(anc, G) && n in G && c in G[n].children
    ensures c in G && !Below(anc, n, c)
    ensures forall m :: m in anc && Below(anc, m, c) ==> Below(anc, m, n)
  {
    ChildIsDeeper(anc, G, n, c);
    if c == n {
      Ancestry.NotOwnAncestor(anc, n);
    } else if c in anc[n] {
      Ancestry.AncestorIsHigher(anc, n, c);
    }
    forall m | m in anc && Below(anc, m, c) ensures Below(anc, m, n) {
      Ancestry.ChainTransitive(anc, n, c, m);
    }
  }

  /** Whether GetBounds(), the bounds in the parent's space, have a positive width and height. */
  ghost predicate ShowsSelf(anc: Forest, T: map<DisplayObject, Transform>, G: Scene, n: DisplayObject,
                            boundsIn: (Rect, seq<Factor>) -> Rect)
    requires Shaped(anc, G) && T.Keys == G.Keys && n in G
  {
    Ancestry.Link(anc, n);
    var b := Bounds(anc, T, n, ParentIn(anc, n), G[n].width, G[n].height, boundsIn);
    b.Ok? && b.value.width > 0.0 && b.value.height > 0.0
  }

  /** The objects whose GetBounds() is not empty. */
  ghost function Shown(anc: Forest, T: map<DisplayObject, Transform>, G: Scene,
                       boundsIn: (Rect, seq<Factor>) -> Rect): set<DisplayObject>
    requires Shaped(anc, G) && T.Keys == G.Keys
  {
    set n | n in G && ShowsSelf(anc, T, G, n, boundsIn)
  }

  /**
   * The objects Render(n) adds to the render queue, in order: it hands
   * AddToRenderQueue every visible object whose bounds are not empty (S),
   * and the queue keeps those that have an image.
   */
  ghost function Queued(anc: Forest, G: Scene, S: set<DisplayObject>, n: DisplayObject): seq<DisplayObject>
    requires Shaped(anc, G) && n in G
    decreases |G.Keys| - |anc[n]|, 1
  {
    if !G[n].visible then []
    else (if n in S && G[n].image != null then [n] else []) + QueuedAmong(anc, G, S, n, |G[n].children|)
  }

  /** What rendering n's first i children adds to the render queue. */
  ghost function QueuedAmong(anc: Forest, G: Scene, S: set<DisplayObject>, n: DisplayObject, i: nat): seq<DisplayObject>
    requires Shaped(anc, G) && n in G && i <= |G[n].children|
    decreases |G.Keys| - |anc[n]|, 0, i
  {
    if i == 0 then []
    else
      var c := G[n].children[i - 1];
      ChildIsDeeper(anc, G, n, c);
      QueuedAmong(anc, G, S, n, i - 1) + Queued(anc, G, S, c)
  }

  /**
   * Rendering one more child appends what rendering that child adds to the
   * queue and the EnterFrame log built so far.
   */
  lemma AmongStep(anc: Forest, G: Scene, S: set<DisplayObject>, n: DisplayObject, i: nat,
                  queue: seq<DisplayObject>, log: seq<DisplayObject>)
    requires Shaped(anc, G) && n in G && i < |G[n].children|
    ensures G[n].children[i] in G
    ensures queue + QueuedAmong(anc, G, S, n, i + 1) == queue + QueuedAmong(anc, G, S, n, i) + Queued(anc, G, S, G[n].children[i])
    ensures log + EnteredAmong(anc, G, n, i + 1) == log + EnteredAmong(anc, G, n, i) + Entered(anc, G, G[n].children[i])
  {
    var c := G[n].children[i];
    ChildIsDeeper(anc, G, n, c);
    assert QueuedAmong(anc, G, S, n, i + 1) == QueuedAmong(anc, G, S, n, i) + Queued(anc, G, S, c);
    assert EnteredAmong(anc, G, n, i + 1) == EnteredAmong(anc, G, n, i) + Entered(anc, G, c);
  }

  /**
   * Rendering a visible object adds first what it adds itself (its own
   * queue entry and EnterFrame), then what its children add, to the queue
   * and the EnterFrame log built so far.
   */
  lemma VisibleStep(anc: Forest, G: Scene, S: set<DisplayObject>, n: DisplayObject,
                    queue: seq<DisplayObject>, log: seq<DisplayObject>)
    requires Shaped(anc, G) && n in G && G[n].visible
    ensures queue + Queued(anc, G, S, n)
      == queue + (if n in S && G[n].image != null then [n] else []) + QueuedAmong(anc, G, S, n, |G[n].children|)
    ensures log + Entered(anc, G, n)
      == log + (if G[n].onStage then [n] else []) + EnteredAmong(anc, G, n, |G[n].children|)
  {
    var own := if n in S && G[n].image != null then [n] else [];
    var fired := if G[n].onStage then [n] else [];
    assert Queued(anc, G, S, n) == own + QueuedAmong(anc, G, S, n, |G[n].children|);
    assert Entered(anc, G, n) == fired + EnteredAmong(anc, G, n, |G[n].children|);
  }

  /** The objects Render(n) fires EnterFrame on, in order. */
  ghost function Entered(anc: Forest, G: Scene, n: DisplayObject): seq<DisplayObject>
    requires Shaped(anc, G) && n in G
    decreases |G.Keys| - |anc[n]|, 1
  {
    (if G[n].onStage then [n] else []) + (if G[n].visible then EnteredAmong(anc, G, n, |G[n].children|) else [])
  }

  /** The objects rendering n's first i children fires EnterFrame on. */
  ghost function EnteredAmong(anc: Forest, G: Scene, n: DisplayObject, i: nat): seq<DisplayObject>
    requires Shaped(anc, G) && n in G && i <= |G[n].children|
    decreases |G.Keys| - |anc[n]|, 0, i
  {
    if i == 0 then []
    else
      var c := G[n].children[i - 1];
      ChildIsDeeper(anc, G, n, c);
      EnteredAmong(anc, G, n, i - 1) + Entered(anc, G, c)
  }

  /**
   * The heap during a frame: the scene graph is linked, every cached matrix
   * is up to date, and T and G describe the objects' transforms and shapes.
   */
  ghost predicate Ready(ctx: DisplayContext, T: map<DisplayObject, Transform>, G: Scene)
    reads ctx`nodes, ctx`ancestors, ctx`commonParentHelper, ctx.nodes`parent, ctx.nodes`children
    reads ctx.nodes`matrixChanged, ctx.nodes`transformationMatrix, ctx.nodes`transform
    reads ctx.nodes`visible, ctx.nodes`originalWidth, ctx.nodes`originalHeight, ctx.nodes`isOnStage, ctx.nodes`resSet
  {
    ctx.Valid() && ctx.Caches() && Snapshot(ctx, T) && Pictured(ctx, G)
  }

  /**
   * Render(elapsedTimeSecs) on n: fires EnterFrame when n is on stage; when
   * n is visible, pushes a state derived from the current top with n's
   * TransformationMatrix and scales and keeps it as n's render state, queues
   * n when GetBounds() is not empty, renders the children in list order and
   * pops the state. The stack ends as it began, the queue grows by the
   * queued objects of the subtree, and no object outside n's subtree gets a
   * new render state.
   */
  method Render(n: DisplayObject, ctx: DisplayContext, renderer: BatchRenderer, ghost anc: Forest,
                ghost T: map<DisplayObject, Transform>, ghost G: Scene, ghost S: set<DisplayObject>,
                boundsIn: (Rect, seq<Factor>) -> Rect)
    requires Ready(ctx, T, G)
    requires ctx.ancestors == anc && Shaped(anc, G) && n in G && S == Shown(anc, T, G, boundsIn)
    requires renderer.renderStates != []
    modifies ctx`enterFrameLog, ctx`commonParentHelper, G.Keys`matrixChanged, G.Keys`transformationMatrix
    modifies G.Keys`renderState, renderer`renderStates, renderer`drawQueue
    ensures Ready(ctx, T, G)
    ensures renderer.renderStates == old(renderer.renderStates)
    ensures renderer.drawQueue == old(renderer.drawQueue) + Queued(anc, G, S, n)
    ensures ctx.enterFrameLog == old(ctx.enterFrameLog) + Entered(anc, G, n)
    ensures G[n].visible ==>
      n.renderState == Derive(old(renderer.renderStates[|renderer.renderStates| - 1]), 1.0, Local(T[n]),
                              T[n].scaleX, T[n].scaleY)
    ensures !G[n].visible ==> n.renderState == old(n.renderState)
    ensures forall m {:trigger m.renderState} :: m in G && !Below(anc, m, n) ==> m.renderState == old(m.renderState)
    decreases |G.Keys| - |anc[n]|, 4
  {
    ghost var top := renderer.renderStates[|renderer.renderStates| - 1];
    FireEnterFrame(n, ctx, T, G);
    ghost var fired := if G[n].onStage then [n] else [];
    if n.visible {
      RenderVisible(n, ctx, renderer, anc, T, G, S, boundsIn);
      VisibleStep(anc, G, S, n, old(renderer.drawQueue), old(ctx.enterFrameLog));
      assert n.renderState == Derive(top, 1.0, Local(T[n]), T[n].scaleX, T[n].scaleY);
    } else {
      assert Entered(anc, G, n) == fired + [];
    }
  }

  /** The part of Render below a visible object: push, queue, children, pop. */
  method RenderVisible(n: DisplayObject, ctx: DisplayContext, renderer: BatchRenderer, ghost anc: Forest,
                       ghost T: map<DisplayObject, Transform>, ghost G: Scene, ghost S: set<DisplayObject>,
                       boundsIn: (Rect, seq<Factor>) -> Rect)
    requires Ready(ctx, T, G)
    requires ctx.ancestors == anc && Shaped(anc, G) && n in G && S == Shown(anc, T, G, boundsIn)
    requires renderer.renderStates != [] && G[n].visible
    modifies ctx`enterFrameLog, ctx`commonParentHelper, G.Keys`matrixChanged, G.Keys`transformationMatrix
    modifies G.Keys`renderState, renderer`renderStates, renderer`drawQueue
    ensures Ready(ctx, T, G)
    ensures renderer.renderStates == old(renderer.renderStates)
    ensures renderer.drawQueue == old(renderer.drawQueue) + Queued(anc, G, S, n)
    ensures ctx.enterFrameLog == old(ctx.enterFrameLog) + EnteredAmong(anc, G, n, |G[n].children|)
    ensures n.renderState == Derive(old(renderer.renderStates[|renderer.renderStates| - 1]), 1.0, Local(T[n]),
                                    T[n].scaleX, T[n].scaleY)
    ensures forall m {:trigger m.renderState} :: m in G && !Below(anc, m, n) ==> m.renderState == old(m.renderState)
    decreases |G.Keys| - |anc[n]|, 3
  {
    DrawSelf(n, ctx, renderer, anc, T, G, S, boundsIn);
    RenderChildrenAndPop(n, ctx, renderer, anc, T, G, S, boundsIn, old(renderer.renderStates));
    VisibleStep(anc, G, S, n, old(renderer.drawQueue), old(ctx.enterFrameLog));
  }

  /**
   * The first half of Render on a visible object: the pushed state, kept as
   * its render state, and the object queued when its bounds are not empty.
   */
  method DrawSelf(n: DisplayObject, ctx: DisplayContext, renderer: BatchRenderer, ghost anc: Forest,
                  ghost T: map<DisplayObject, Transform>, ghost G: Scene, ghost S: set<DisplayObject>,
                  boundsIn: (Rect, seq<Factor>) -> Rect)
    requires Ready(ctx, T, G)
    requires ctx.ancestors == anc && Shaped(anc, G) && n in G && (n in S <==> ShowsSelf(anc, T, G, n, boundsIn))
    requires renderer.renderStates != []
    modifies ctx`commonParentHelper, G.Keys`matrixChanged, G.Keys`transformationMatrix, n`renderState
    modifies renderer`renderStates, renderer`drawQueue
    ensures Ready(ctx, T, G)
    ensures n.renderState == Derive(old(renderer.renderStates[|renderer.renderStates| - 1]), 1.0, Local(T[n]),
                                    T[n].scaleX, T[n].scaleY)
    ensures renderer.renderStates == old(renderer.renderStates) + [n.renderState]
    ensures renderer.drawQueue == old(renderer.drawQueue) + if n in S && G[n].image != null then [n] else []
  {
    PushOwnState(n, ctx, renderer, T, G);
    QueueIfShown(n, ctx, renderer, anc, T, G, S, boundsIn);
  }

  /** The second half: the children rendered in order on n's state, then that state popped. */
  method RenderChildrenAndPop(n: DisplayObject, ctx: DisplayContext, renderer: BatchRenderer, ghost anc: Forest,
                              ghost T: map<DisplayObject, Transform>, ghost G: Scene, ghost S: set<DisplayObject>,
                              boundsIn: (Rect, seq<Factor>) -> Rect, ghost below: seq<RenderState>)
    requires Ready(ctx, T, G)
    requires ctx.ancestors == anc && Shaped(anc, G) && n in G && S == Shown(anc, T, G, boundsIn)
    requires renderer.renderStates == below + [n.renderState]
    modifies ctx`enterFrameLog, ctx`commonParentHelper, G.Keys`matrixChanged, G.Keys`transformationMatrix
    modifies G.Keys`renderState, renderer`renderStates, renderer`drawQueue
    ensures Ready(ctx, T, G)
    ensures renderer.renderStates == below
    ensures renderer.drawQueue == old(renderer.drawQueue) + QueuedAmong(anc, G, S, n, |G[n].children|)
    ensures ctx.enterFrameLog == old(ctx.enterFrameLog) + EnteredAmong(anc, G, n, |G[n].children|)
    ensures n.renderState == old(n.renderState)
    ensures forall m {:trigger m.renderState} :: m in G && !Below(anc, m, n) ==> m.renderState == old(m.renderState)
    decreases |G.Keys| - |anc[n]|, 2
  {
    RenderChildren(n, ctx, renderer, anc, T, G, S, boundsIn);
    PopState(ctx, renderer, T, G, below, n.renderState);
  }

  /** InvokeEnterFrameEvent when n is on stage. */
  method FireEnterFrame(n: DisplayObject, ctx: DisplayContext, ghost T: map<DisplayObject, Transform>, ghost G: Scene)
    requires Ready(ctx, T, G) && n in G
    modifies ctx`enterFrameLog
    ensures Ready(ctx, T, G)
    ensures ctx.enterFrameLog == old(ctx.enterFrameLog) + if G[n].onStage then [n] else []
  {
    if n.isOnStage {
      ctx.enterFrameLog := ctx.enterFrameLog + [n];
    }
  }

  /**
   * `Renderer.PushRenderState(1.0f, TransformationMatrix, Transform.ScaleX,
   * Transform.ScaleY)`, kept as n's render state.
   */
  method PushOwnState(n: DisplayObject, ctx: DisplayContext, renderer: BatchRenderer,
                      ghost T: map<DisplayObject, Transform>, ghost G: Scene)
    requires Ready(ctx, T, G) && n in G
    requires renderer.renderStates != []
    modifies n`matrixChanged, n`transformationMatrix, n`renderState, renderer`renderStates
    ensures Ready(ctx, T, G)
    ensures n.renderState == Derive(old(renderer.renderStates[|renderer.renderStates| - 1]), 1.0, Local(T[n]),
                                    T[n].scaleX, T[n].scaleY)
    ensures renderer.renderStates == old(renderer.renderStates) + [n.renderState]
  {
    var m := MatrixOf(n, ctx, T, G);
    var rs := PushState(ctx, renderer, T, G, m, n.transform.scaleX, n.transform.scaleY);
    KeepState(n, ctx, T, G, rs);
  }

  /** The TransformationMatrix getter, during the traversal. */
  method MatrixOf(n: DisplayObject, ctx: DisplayContext, ghost T: map<DisplayObject, Transform>, ghost G: Scene)
    returns (m: Matrix)
    requires Ready(ctx, T, G) && n in G
    modifies n`matrixChanged, n`transformationMatrix
    ensures Ready(ctx, T, G)
    ensures m == Local(T[n]) && n.transform == T[n]
  {
    m := n.CurrentMatrix(ctx, T, G);
  }

  /** Renderer.PushRenderState(1.0f, m, scaleX, scaleY) on a stack that is not empty. */
  method PushState(ctx: DisplayContext, renderer: BatchRenderer, ghost T: map<DisplayObject, Transform>, ghost G: Scene,
                   m: Matrix, scaleX: real, scaleY: real) returns (rs: RenderState)
    requires Ready(ctx, T, G)
    requires renderer.renderStates != []
    modifies renderer`renderStates
    ensures Ready(ctx, T, G)
    ensures rs == Derive(old(renderer.renderStates[|renderer.renderStates| - 1]), 1.0, m, scaleX, scaleY)
    ensures renderer.renderStates == old(renderer.renderStates) + [rs]
  {
    var pushed := renderer.PushRenderState(1.0, m, scaleX, scaleY);
    rs := pushed.value;
  }

  /** `_renderState = rs` */
  method KeepState(n: DisplayObject, ctx: DisplayContext, ghost T: map<DisplayObject, Transform>, ghost G: Scene,
                   rs: RenderState)
    requires Ready(ctx, T, G) && n in G
    modifies n`renderState
    ensures Ready(ctx, T, G)
    ensures n.renderState == rs
  {
    n.renderState := rs;
  }

  /** Renderer.PopRenderState() after the children, on the stack the push left. */
  method PopState(ctx: DisplayContext, renderer: BatchRenderer, ghost T: map<DisplayObject, Transform>, ghost G: Scene,
                  ghost below: seq<RenderState>, ghost top: RenderState)
    requires Ready(ctx, T, G)
    requires renderer.renderStates == below + [top]
    modifies renderer`renderStates
    ensures Ready(ctx, T, G)
    ensures renderer.renderStates == below
  {
    var _ := renderer.PopRenderState();
    assert below + [top] == renderer.renderStates + [top];
  }

  /** `if (bounds.Width > 0 && bounds.Height > 0) Renderer.AddToRenderQueue(this)`, with bounds = GetBounds(). */
  method QueueIfShown(n: DisplayObject, ctx: DisplayContext, renderer: BatchRenderer, ghost anc: Forest,
                      ghost T: map<DisplayObject, Transform>, ghost G: Scene, ghost S: set<DisplayObject>,
                      boundsIn: (Rect, seq<Factor>) -> Rect)
    requires Ready(ctx, T, G)
    requires ctx.ancestors == anc && Shaped(anc, G) && n in G && (n in S <==> ShowsSelf(anc, T, G, n, boundsIn))
    modifies ctx`commonParentHelper, G.Keys`matrixChanged, G.Keys`transformationMatrix, renderer`drawQueue
    ensures Ready(ctx, T, G)
    ensures renderer.drawQueue == old(renderer.drawQueue) + if n in S && G[n].image != null then [n] else []
  {
    var bounds := BoundsInParent(n, ctx, anc, T, G, boundsIn);
    if bounds.width > 0.0 && bounds.height > 0.0 {
      Enqueue(n, ctx, renderer, T, G);
    }
  }

  /** GetBounds(), that is GetBounds(Parent): it cannot fail, as the parent is in n's tree. */
  method BoundsInParent(n: DisplayObject, ctx: DisplayContext, ghost anc: Forest, ghost T: map<DisplayObject, Transform>,
                        ghost G: Scene, boundsIn: (Rect, seq<Factor>) -> Rect) returns (b: Rect)
    requires Ready(ctx, T, G)
    requires ctx.ancestors == anc && Shaped(anc, G) && n in G
    modifies ctx`commonParentHelper, G.Keys`matrixChanged, G.Keys`transformationMatrix
    ensures Ready(ctx, T, G)
    ensures ParentIn(anc, n) == null || ParentIn(anc, n) in anc
    ensures Bounds(anc, T, n, ParentIn(anc, n), G[n].width, G[n].height, boundsIn) == Ok(b)
  {
    TransformToParent(ctx, T, n);
    assert ctx.Linked(n);
    ConnectedBoundsOk(anc, T, n, n.parent, G[n].width, G[n].height, boundsIn);
    var r := n.GetBounds(ctx, n.parent, T, G, boundsIn);
    b := r.value;
  }

  /** GetBounds(target) does not fail when target is in n's own tree. */
  lemma ConnectedBoundsOk(anc: Forest, T: map<DisplayObject, Transform>, n: DisplayObject, target: DisplayObject?,
                          width: real, height: real, boundsIn: (Rect, seq<Factor>) -> Rect)
    requires Ancestry.Consistent(anc) && anc.Keys == T.Keys
    requires n in anc && (target == null || target in anc) && Connected(anc, n, target)
    ensures Bounds(anc, T, n, target, width, height, boundsIn).Ok?
  {
  }

  /** Renderer.AddToRenderQueue(n): kept only when n has an image. */
  method Enqueue(n: DisplayObject, ctx: DisplayContext, renderer: BatchRenderer, ghost T: map<DisplayObject, Transform>,
                 ghost G: Scene)
    requires Ready(ctx, T, G) && n in G
    modifies renderer`drawQueue
    ensures Ready(ctx, T, G)
    ensures renderer.drawQueue == old(renderer.drawQueue) + if G[n].image != null then [n] else []
  {
    renderer.AddToRenderQueue(n);
  }

  /** The loop of Render over the children, each rendered in turn on top of n's state. */
  method RenderChildren(n: DisplayObject, ctx: DisplayContext, renderer: BatchRenderer, ghost anc: Forest,
                        ghost T: map<DisplayObject, Transform>, ghost G: Scene, ghost S: set<DisplayObject>,
                        boundsIn: (Rect, seq<Factor>) -> Rect)
    requires Ready(ctx, T, G)
    requires ctx.ancestors == anc && Shaped(anc, G) && n in G && S == Shown(anc, T, G, boundsIn)
    requires renderer.renderStates != []
    modifies ctx`enterFrameLog, ctx`commonParentHelper, G.Keys`matrixChanged, G.Keys`transformationMatrix
    modifies G.Keys`renderState, renderer`renderStates, renderer`drawQueue
    ensures Ready(ctx, T, G)
    ensures renderer.renderStates == old(renderer.renderStates)
    ensures renderer.drawQueue == old(renderer.drawQueue) + QueuedAmong(anc, G, S, n, |G[n].children|)
    ensures ctx.enterFrameLog == old(ctx.enterFrameLog) + EnteredAmong(anc, G, n, |G[n].children|)
    ensures forall m {:trigger m.renderState} :: m in G && (m == n || !Below(anc, m, n)) ==> m.renderState == old(m.renderState)
    decreases |G.Keys| - |anc[n]|, 1
  {
    ghost var queue0, log0, stack0 := renderer.drawQueue, ctx.enterFrameLog, renderer.renderStates;
    ghost var states0: map<DisplayObject, RenderState> := map m: DisplayObject | m in G :: m.renderState;
    var i: nat := 0;
    while i < |n.children|
      invariant i <= |G[n].children|
      invariant Ready(ctx, T, G)
      invariant renderer.renderStates == stack0
      invariant renderer.drawQueue == queue0 + QueuedAmong(anc, G, S, n, i)
      invariant ctx.enterFrameLog == log0 + EnteredAmong(anc, G, n, i)
      invariant forall m {:trigger m.renderState} :: m in G && (m == n || !Below(anc, m, n)) ==> m.renderState == states0[m]
    {
      RenderChild(n, ctx, renderer, anc, T, G, S, boundsIn, i, queue0, log0, states0);
      i := i + 1;
    }
  }

  /** One turn of RenderChildren's loop: the i-th child is rendered and its queue and log appended. */
  method RenderChild(n: DisplayObject, ctx: DisplayContext, renderer: BatchRenderer, ghost anc: Forest,
                     ghost T: map<DisplayObject, Transform>, ghost G: Scene, ghost S: set<DisplayObject>,
                     boundsIn: (Rect, seq<Factor>) -> Rect, i: nat,
                     ghost queue0: seq<DisplayObject>, ghost log0: seq<DisplayObject>,
                     ghost states0: map<DisplayObject, RenderState>)
    requires Ready(ctx, T, G)
    requires ctx.ancestors == anc && Shaped(anc, G) && n in G && S == Shown(anc, T, G, boundsIn)
    requires i < |G[n].children| && n.children == G[n].children
    requires renderer.renderStates != []
    requires renderer.drawQueue == queue0 + QueuedAmong(anc, G, S, n, i)
    requires ctx.enterFrameLog == log0 + EnteredAmong(anc, G, n, i)
    requires states0.Keys == G.Keys
    requires forall m {:trigger m.renderState} :: m in G && (m == n || !Below(anc, m, n)) ==> m.renderState == states0[m]
    modifies ctx`enterFrameLog, ctx`commonParentHelper, G.Keys`matrixChanged, G.Keys`transformationMatrix
    modifies G.Keys`renderState, renderer`renderStates, renderer`drawQueue
    ensures Ready(ctx, T, G)
    ensures renderer.renderStates == old(renderer.renderStates)
    ensures renderer.drawQueue == queue0 + QueuedAmong(anc, G, S, n, i + 1)
    ensures ctx.enterFrameLog == log0 + EnteredAmong(anc, G, n, i + 1)
    ensures forall m {:trigger m.renderState} :: m in G && (m == n || !Below(anc, m, n)) ==> m.renderState == states0[m]
    decreases |G.Keys| - |anc[n]|, 0
  {
    var c := n.children[i];
    ChildIsDeeper(anc, G, n, c);
    ChildSubtree(anc, G, n, c);
    Render(c, ctx, renderer, anc, T, G, S, boundsIn);
    AmongStep(anc, G, S, n, i, queue0, log0);
  }

  /**
   * Only objects of n's own subtree are queued, each visible, with bounds
   * that are not empty and an image; and n is visible whenever anything is.
   */
  lemma {:induction false} QueuedAreVisible(anc: Forest, G: Scene, S: set<DisplayObject>, n: DisplayObject,
                                           m: DisplayObject)
    requires Shaped(anc, G) && n in G
    requires m in Queued(anc, G, S, n)
    ensures m in G && Below(anc, m, n) && G[n].visible && G[m].visible && m in S && G[m].image != null
    decreases |G.Keys| - |anc[n]|, 1
  {
    if m in QueuedAmong(anc, G, S, n, |G[n].children|) {
      QueuedAmongAreVisible(anc, G, S, n, |G[n].children|, m);
    }
  }

  lemma {:induction false} QueuedAmongAreVisible(anc: Forest, G: Scene, S: set<DisplayObject>, n: DisplayObject,
                                                i: nat, m: DisplayObject)
    requires Shaped(anc, G) && n in G && i <= |G[n].children|
    requires m in QueuedAmong(anc, G, S, n, i)
    ensures m in G && Below(anc, m, n) && G[m].visible && m in S && G[m].image != null
    decreases |G.Keys| - |anc[n]|, 0, i
  {
    var c := G[n].children[i - 1];
    ChildIsDeeper(anc, G, n, c);
    if m in QueuedAmong(anc, G, S, n, i - 1) {
      QueuedAmongAreVisible(anc, G, S, n, i - 1, m);
    } else {
      QueuedAreVisible(anc, G, S, c, m);
      ChildSubtree(anc, G, n, c);
    }
  }
}
