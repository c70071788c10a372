# Kestrel scene graph, batch renderers and input, in Dafny

This project models the core of the Kestrel 2D engine (and of the Perlin fork of its renderer) and proves properties of that model.

## What the model covers

- **The display list** (`display.dfy`, module `Display`). `DisplayObject` is a class with the fields of the C# class:
  - position, pivot, scale, rotation and tint;
  - visibility and the on-stage flag;
  - the parent, and the child list as a `seq`;
  - the cached transformation matrix and its dirty flag;
  - the render state and the `ResSet` handle.

  What the C# code keeps in static fields sits in a `DisplayContext` object:
  - every object created so far;
  - the `CommonParentHelper` list;
  - a log of fired `AddedToStage`, `RemovedFromStage` and `EnterFrame` events.

  The context also holds a ghost map from every object to its chain of ancestors.
- **Operations on the display list.**
  - `AddChild`, `RemoveChild`, `RemoveFromParent` and the `IsOnStage` setter.
  - `Root` and `FindCommonParent`.
  - `GetTransformationMatrix`, with all its cases, and the property setters that mark the matrix stale.
  - `GetBounds`, `GetBoundsWithChildren` and `HitTest`.
  - Each one is a method that changes the objects in place.
  - Each is proved against specification functions over the ancestry (module `Ancestry`) and over symbolic matrices (module `Geom`).
- **`Render`** (`render.dfy`, module `DisplayRender`). The depth-first traversal that fires `EnterFrame`, pushes a render state, queues the object and recurses into the children. It is proved against a function giving the queue and the event log of a whole subtree.
- **The three copies of `BatchRenderer`.**
  - Kestrel (`kestrel_renderer.dfy`), legacy Kestrel (`legacy_renderer.dfy`) and Perlin (`perlin_renderer.dfy`): classes over a modelled GPU buffer (`gpu.dfy`).
  - Each one's `RenderQueue` loop is proved to issue one instanced draw per maximal run of equal resource sets.
  - The run structure itself is in `batching.dfy`.
  - `RenderStates.Derive` (`render_state.dfy`) is how a pushed render state is formed.
- **`Input`** (`input.dfy`). The held and new-this-frame sets for keys and mouse buttons, and the per-frame mouse state machine. That state machine:
  - dispatches mouse down and mouse up to the stage;
  - recognises a left click under 0.3 s on the same object;
  - throws `NullReferenceException` when both targets are null.

Matrices are symbolic: a matrix is the product, as a word, of the objects' local matrices and their inverses. This lets the proofs say *which* transformation `GetTransformationMatrix` builds, without floating-point linear algebra. Sizes, positions and times are `real`.

Some external code is not modelled. Where the core calls into it, the model takes a parameter that decides the result:
- `Rectangle.GetBounds(Matrix)`: `boundsIn`.
- `Matrix2D.TransformPoint` and the `HitTest` overrides of subclasses: `HitDispatch`.
- `Stage`'s mouse dispatch: `StageHits`.

Calls to the stage are logged rather than run.

### Behaviour of the code worth noting

- **Rotation.** The setter compares the new value with the current one *before* normalising. It then stores the value in the closed range [-π, π], so both -π and π can be stored.
- **On-stage flag.** `AddChild` and `RemoveChild` set it only on the direct child. It is not propagated to the child's descendants.
- **`HitTest`.** The base method only searches the children, front to back, and never hits the object itself. Leaf hits come from overrides.
- **Adding at an index.** `kestrel-desktop/Engine/Display/Button.cs` calls `AddChildAt` at lines 121, 140 and 159. `DisplayObject.cs` does not define it, and the model does not cover it.
- **Render state.** `Render` always pushes alpha 1.
- **`EnterFrame`.** It fires for every on-stage object visited, including invisible ones.
- **Legacy renderer.** Its `AddToRenderQueue` queues an object even without a resource set.
- **Click target.** The left-click test compares the mouse-up target with the last mouse-down target of *any* button.
- **Null click.** A left click whose down and up both hit nothing throws. `Input.ClickTargetIsLastDownOfAnyButton` and `Input.ClickRule` state both.

## Model

| member | source | states |
|---|---|---|
| Ancestry.NotOwnAncestor | kestrel-desktop/Engine/Display/DisplayObject.cs:109 | No object is among its own ancestors: parent links never form a cycle. |
| Ancestry.ChainHasNoDuplicates | kestrel-desktop/Engine/Display/DisplayObject.cs:432-443 | The walk up from an object visits every object at most once. |
| Ancestry.ChainFits | kestrel-desktop/Engine/Display/DisplayObject.cs:432-443 | An object has fewer ancestors than there are objects, so every walk up the parent links ends. |
| Ancestry.ChainSuffix | kestrel-desktop/Engine/Display/DisplayObject.cs:355-359 | Walking up from any object on n's chain visits exactly the rest of n's chain. |
| Ancestry.AncestorSuffix | kestrel-desktop/Engine/Display/DisplayObject.cs:355-359 | Past the k-th object of n's chain come exactly that object's own ancestors. |
| Ancestry.ChainThrough | kestrel-desktop/Engine/Display/DisplayObject.cs:355-359 | n's chain is the walk from n up to any object c on it, followed by c's chain. |
| Ancestry.ChainTransitive | kestrel-desktop/Engine/Display/DisplayObject.cs:432-443 | An ancestor of an ancestor is an ancestor: y's chain is the part of z's chain from y on. |
| Ancestry.AncestorIsHigher | kestrel-desktop/Engine/Display/DisplayObject.cs:432-443 | An ancestor has strictly fewer ancestors than its descendant. |
| Ancestry.AncestorAntisymmetric | kestrel-desktop/Engine/Display/DisplayObject.cs:109 | Two objects that lie on each other's chains are the same object. |
| Ancestry.FirstCommon | kestrel-desktop/Engine/Display/DisplayObject.cs:411-415 | The object the second walk of FindCommonParent stops at, if any, lies on both chains; when there is none, no object of b's chain is on a's. |
| Ancestry.FirstCommonIsLowest | kestrel-desktop/Engine/Display/DisplayObject.cs:403-422 | The common parent is the lowest common ancestor: every object on both chains lies on or above it. |
| Ancestry.ChainsMeetIffSameRoot | kestrel-desktop/Engine/Display/DisplayObject.cs:403-422 | Two objects have a common parent exactly when they have the same Root; otherwise FindCommonParent throws. |
| Ancestry.FirstCommonSymmetric | kestrel-desktop/Engine/Display/DisplayObject.cs:403-422 | The common parent does not depend on the order of the two arguments. |
| Ancestry.FirstCommonOfAncestor | kestrel-desktop/Engine/Display/DisplayObject.cs:403-422 | When b lies on a's chain, the common parent of a and b is b. |
| Ancestry.FirstCommonOfChild | kestrel-desktop/Engine/Display/DisplayObject.cs:403-422 | When a is b's parent, the common parent of a and b is a. |
| Ancestry.RootThrough | kestrel-desktop/Engine/Display/DisplayObject.cs:432-443 | Every object on n's chain has the same Root as n. |
| Ancestry.RootIsRoot | kestrel-desktop/Engine/Display/DisplayObject.cs:432-443 | Root has no parent and lies on the object's own chain. |
| Ancestry.AddRoot | kestrel-desktop/Engine/Display/DisplayObject.cs:37-41 | A newly created object, without a parent, joins the forest and keeps it consistent. |
| Ancestry.ReanchorConsistent | kestrel-desktop/Engine/Display/DisplayObject.cs:503-515 | Hanging a subtree under a parent that is not inside it keeps the parent links a forest; the moved object's ancestors become the new parent's chain; objects outside the subtree keep theirs. |
| Ancestry.ReanchorKeepsParent | kestrel-desktop/Engine/Display/DisplayObject.cs:517-522 | Moving one object leaves the parent of every other object as it was. |
| Ancestry.ReanchoredAt | kestrel-desktop/Engine/Display/DisplayObject.cs:503-522 | After moving c under a new parent chain, an object in c's subtree has its walk up to c followed by the new chain; every other object keeps its chain. |
| Ancestry.ReanchorRootUnchanged | kestrel-desktop/Engine/Display/DisplayObject.cs:77-85 | Detaching an object that has no parent changes no ancestry. |
| Ancestry.DetachThenAttach | kestrel-desktop/Engine/Display/DisplayObject.cs:503-508 | Detaching the child from its old parent and then attaching it gives the same ancestry as attaching it directly. |
| Ancestry.DetachKeepsChain | kestrel-desktop/Engine/Display/DisplayObject.cs:503-508 | Detaching the child leaves the chain of every object outside its subtree, the new parent included, unchanged. |
| Display.RemoveFirst | kestrel-desktop/Engine/Display/DisplayObject.cs:519 | List.Remove leaves a list that does not contain the element unchanged. |
| Display.RemoveFirstSplices | kestrel-desktop/Engine/Display/DisplayObject.cs:519 | List.Remove splices out the first occurrence: what came before it, then what came after it, in the same order. |
| Display.RemoveFirstCount | kestrel-desktop/Engine/Display/DisplayObject.cs:519 | List.Remove takes exactly one copy of the element out of the list. |
| Display.RemoveFirstMembers | kestrel-desktop/Engine/Display/DisplayObject.cs:519 | List.Remove keeps every other element and adds none. |
| Display.RemoveFirstNoDuplicates | kestrel-desktop/Engine/Display/DisplayObject.cs:519 | A child list without repeats stays without repeats, and the removed child is no longer in it. |
| Display.Trunc | kestrel-desktop/Engine/Display/DisplayObject.cs:185 | The integer part of a real, rounded toward zero, as the truncating float remainder uses it. |
| Display.NormalizeRotation | kestrel-desktop/Engine/Display/DisplayObject.cs:184-194 | The stored rotation lies in [-π, π] and differs from the assigned value by a whole number of turns. |
| Display.NormalizeRotationIdempotent | kestrel-desktop/Engine/Display/DisplayObject.cs:184-194 | Normalising an already normalised angle changes nothing. |
| Display.NormalizeThreeHalfTurns | kestrel-desktop/Engine/Display/DisplayObject.cs:184-194 | A rotation of 3π is stored as π. |
| Display.DisplayContext.constructor | kestrel-desktop/Engine/Display/DisplayObject.cs:402 | No objects yet, an empty CommonParentHelper list and an empty EnterFrame log; the (empty) scene graph is a forest. |
| Display.InOneChildList | kestrel-desktop/Engine/Display/DisplayObject.cs:501-522 | An object is in another object's child list exactly when that object is its parent: it is in one child list when it has a parent and in none otherwise. |
| Display.ChildChain | kestrel-desktop/Engine/Display/DisplayObject.cs:109 | A child's chain is the child followed by its parent's chain, which does not contain the child. |
| Display.ChainLinks | kestrel-desktop/Engine/Display/DisplayObject.cs:432-443 | Every object on a chain is registered and has the next one as its Parent; the last one has none. |
| Display.PathLinks | kestrel-desktop/Engine/Display/DisplayObject.cs:355-359 | The walk from n up to a target on its chain follows Parent links and stops just below the target, which it never visits. |
| Display.NoTwoCycle | kestrel-desktop/Engine/Display/DisplayObject.cs:109 | An object is never the parent of its own parent. |
| Display.TransformUpTo | kestrel-desktop/Engine/Display/DisplayObject.cs:350-361 | Into the space of an object on n's own chain (itself, its parent, its root), the transformation is the walk up from n applying each local matrix in turn. |
| Display.TransformToParent | kestrel-desktop/Engine/Display/DisplayObject.cs:345-349 | Into the parent's space, or above a root, the transformation is the object's own local matrix. |
| Display.TransformationSymmetric | kestrel-desktop/Engine/Display/DisplayObject.cs:362-367 | The transformation from t's space to n's undoes the one from n's space to t's, factor by factor in reverse order. |
| Display.InverseTransformation | kestrel-desktop/Engine/Display/DisplayObject.cs:362-367 | Inverting a matrix that maps n's space into t's gives one that maps t's space into n's. |
| Display.UpThenDownIsTransformation | kestrel-desktop/Engine/Display/DisplayObject.cs:395-397 | The walk up from the object to the common parent, followed by the inverse of the walk up from the target to it, is exactly the transformation from the object's space into the target's. |
| Display.AxisOwnBounds | kestrel-desktop/Engine/Display/DisplayObject.cs:258-271 | One axis of the unrotated bounds: the scaled length at the position less the scaled pivot, turned around when the scale is negative. |
| Display.UnrotatedBoundsIsSpan | kestrel-desktop/Engine/Display/DisplayObject.cs:256-272 | The unrotated bounds are the axis-aligned rectangle spanned by where the corners (0, 0) and (width, height) land, so width and height are never negative whatever the scale signs. |
| Display.AxisSpan | kestrel-desktop/Engine/Display/DisplayObject.cs:262-271 | Along one axis, the start of the bounds is the lesser end and the length is the distance between the two ends. |
| Display.BoundsThroughTransformation | kestrel-desktop/Engine/Display/DisplayObject.cs:273-279 | Past the first two cases of GetBounds the result is the own rectangle taken through the transformation into the target's space, or NotConnected when the target is in another tree. |
| Display.SubtreeBoundsOk | kestrel-desktop/Engine/Display/DisplayObject.cs:287-301 | Once the object's own bounds are known, GetBoundsWithChildren gives the edges the loop over the children ends with, as a rectangle, or the loop's failure. |
| Display.ChildrenBoundsHold | kestrel-desktop/Engine/Display/DisplayObject.cs:292-299 | The loop over the children only widens the edges, and the edges it ends with hold what GetBoundsWithChildren gives for every child it passes. |
| Display.SubtreeBoundsHold | kestrel-desktop/Engine/Display/DisplayObject.cs:283-301 | The rectangle GetBoundsWithChildren gives contains the object's own bounds and the bounds-with-children of each of its children. |
| Display.LastHitIsFrontmost | kestrel-desktop/Engine/Display/DisplayObject.cs:215-232 | The frontmost hit is null exactly when no child gives a hit; otherwise it is the hit of a child in front of which no child gives one. |
| Display.ChildHits | kestrel-desktop/Engine/Display/DisplayObject.cs:215-231 | Entry k is what HitTest's loop computes for the k-th child. |
| Display.HitAmongIsLastHit | kestrel-desktop/Engine/Display/DisplayObject.cs:215-232 | The back-to-front loop returns the hit of the frontmost child that has one. |
| Display.HitTestIsFrontmost | kestrel-desktop/Engine/Display/DisplayObject.cs:209-233 | HitTest gives an object exactly when the object is visible and one of its children gives a hit, and then it gives the hit of the frontmost such child. |
| Display.NoOverrideNoHit | kestrel-desktop/Engine/Display/DisplayObject.cs:209-233 | The base HitTest only searches children: without a class that overrides it anywhere below, every hit test gives null. |
| Display.DisplayObject.constructor | kestrel-desktop/Engine/Display/DisplayObject.cs:21-41 | A new object is visible, unscaled, unrotated, at the origin without pivot, white, with a stale matrix, off stage, with no parent and no children, and registered as a new root. |
| Display.DisplayObject.AddRootKeepsValid | kestrel-desktop/Engine/Display/DisplayObject.cs:37-41 | Registering a new parentless, childless object keeps the scene graph a consistent forest. |
| Display.DisplayObject.SetIsOnStage | kestrel-desktop/Engine/Display/DisplayObject.cs:57-75 | The flag takes the new value; AddedToStage is fired on a change to true, RemovedFromStage on a change to false, nothing when the value is the current one; the log keeps agreeing with the flag. |
| Display.DisplayObject.SetX | kestrel-desktop/Engine/Display/DisplayObject.cs:112-124 | Only X changes; the matrix becomes stale when the value differs and stays as it was otherwise; a coherent cache stays coherent. |
| Display.DisplayObject.SetY | kestrel-desktop/Engine/Display/DisplayObject.cs:127-139 | Only Y changes; the matrix becomes stale when the value differs and stays as it was otherwise; a coherent cache stays coherent. |
| Display.DisplayObject.SetScaleX | kestrel-desktop/Engine/Display/DisplayObject.cs:445-457 | Only ScaleX changes; the matrix becomes stale when the value differs and stays as it was otherwise; a coherent cache stays coherent. |
| Display.DisplayObject.SetScaleY | kestrel-desktop/Engine/Display/DisplayObject.cs:459-471 | Only ScaleY changes; the matrix becomes stale when the value differs and stays as it was otherwise; a coherent cache stays coherent. |
| Display.DisplayObject.SetPivotX | kestrel-desktop/Engine/Display/DisplayObject.cs:473-485 | Only PivotX changes; the matrix becomes stale when the value differs and stays as it was otherwise; a coherent cache stays coherent. |
| Display.DisplayObject.SetPivotY | kestrel-desktop/Engine/Display/DisplayObject.cs:487-499 | Only PivotY changes; the matrix becomes stale when the value differs and stays as it was otherwise; a coherent cache stays coherent. |
| Display.DisplayObject.SetRotation | kestrel-desktop/Engine/Display/DisplayObject.cs:175-198 | Assigning the current rotation (compared before normalising) changes nothing; any other value is stored normalised and marks the matrix stale. |
| Display.DisplayObject.TransformationMatrix | kestrel-desktop/Engine/Display/DisplayObject.cs:307-331 | Gives the matrix of the current transform and leaves the cache fresh; when the cache was not stale it is returned untouched. |
| Display.DisplayObject.CurrentMatrix | kestrel-desktop/Engine/Display/DisplayObject.cs:307-331 | Read during a traversal, the getter gives the local matrix of the object's transform and leaves every cache coherent and every transform and shape as it was. |
| Display.DisplayObject.RemoveChild | kestrel-desktop/Engine/Display/DisplayObject.cs:517-522 | The first occurrence of the child leaves the list, the others keep their order; the child has no parent and is off stage, RemovedFromStage fired only if it was on stage; the scene graph stays a forest with the child as a root. |
| Display.DisplayObject.RemoveChildKeepsValid | kestrel-desktop/Engine/Display/DisplayObject.cs:517-522 | RemoveChild's updates leave the parent links, child lists and ancestry a consistent forest. |
| Display.DisplayObject.AddChild | kestrel-desktop/Engine/Display/DisplayObject.cs:503-515 | The child's parent becomes this object and it is the last child; a former parent's list loses it first; it ends on stage when this object is on stage (or it was a parentless on-stage object); the notifications fired are exactly those of the flag changes; the ancestry stays a forest. |
| Display.DisplayObject.Attach | kestrel-desktop/Engine/Display/DisplayObject.cs:509-514 | Appending a parentless child: it is the last child, its parent is this object, its on-stage flag is set when this object is on stage, with AddedToStage fired only on a change. |
| Display.DisplayObject.AddChildKeepsValid | kestrel-desktop/Engine/Display/DisplayObject.cs:509-514 | Appending a parentless child that is not above this object keeps the scene graph a consistent forest. |
| Display.DisplayObject.AttachAncestors | kestrel-desktop/Engine/Display/DisplayObject.cs:503-515 | Detaching the child first leaves the new parent's chain unchanged and gives the same final ancestry as attaching directly. |
| Display.DisplayObject.RemoveFromParent | kestrel-desktop/Engine/Display/DisplayObject.cs:77-85 | Without a parent nothing changes; otherwise the object leaves its parent's list, has no parent, is off stage with RemovedFromStage fired only if it was on stage, and roots its own subtree. |
| Display.DisplayObject.Root | kestrel-desktop/Engine/Display/DisplayObject.cs:432-443 | Gives the topmost object of the tree, which has no parent. |
| Display.DisplayObject.FindCommonParent | kestrel-desktop/Engine/Display/DisplayObject.cs:403-422 | Succeeds exactly when the two chains meet, with the first object of b's chain that is on a's chain; fails with NotConnected otherwise; the helper list is empty afterwards in both cases. |
| Display.DisplayObject.ListChain | kestrel-desktop/Engine/Display/DisplayObject.cs:405-410 | The first loop appends a and every object above it, in order, to the helper list. |
| Display.DisplayObject.FirstListed | kestrel-desktop/Engine/Display/DisplayObject.cs:411-415 | The second loop stops at the first object of b's chain that is on the helper list, or at null. |
| Display.DisplayObject.GetTransformationMatrix | kestrel-desktop/Engine/Display/DisplayObject.cs:336-400 | Succeeds exactly when the target is in the same tree (or null), with the matrix that applies each local matrix from this object up to the meeting point and then undoes the target's walk up to it; fails with NotConnected otherwise. |
| Display.DisplayObject.BeyondParent | kestrel-desktop/Engine/Display/DisplayObject.cs:350-399 | The cases past the parent (the root or null by a walk up, then a child or any other object) give the same transformation or NotConnected. |
| Display.DisplayObject.ChildOrOther | kestrel-desktop/Engine/Display/DisplayObject.cs:362-399 | A child target by inverting the child's matrix into this space, any other target through the common parent; same transformation or NotConnected. |
| Display.DisplayObject.ThroughCommonParent | kestrel-desktop/Engine/Display/DisplayObject.cs:368-399 | Through FindCommonParent: the transformation when the trees meet, NotConnected otherwise. |
| Display.DisplayObject.UpAndDown | kestrel-desktop/Engine/Display/DisplayObject.cs:372-399 | Up from this object to the common parent, then, unless the target is that parent, the inverse of the walk up from the target: the transformation into the target's space. |
| Display.DisplayObject.WalkUp | kestrel-desktop/Engine/Display/DisplayObject.cs:350-359 | The walk up appends each object's local matrix from this object up to (not including) the stop object, in that order, to an identity matrix. |
| Display.DisplayObject.Walk | kestrel-desktop/Engine/Display/DisplayObject.cs:354-359 | The loop over the objects it passes: each one's cached local matrix appended in order, with every matrix cache left coherent. |
| Display.DisplayObject.GetBounds | kestrel-desktop/Engine/Display/DisplayObject.cs:248-281 | The own rectangle for the object itself, the unrotated rectangle in the parent's space when there is no rotation, otherwise the own rectangle through GetTransformationMatrix; NotConnected when that fails. |
| Display.DisplayObject.UnrotatedOwnBounds | kestrel-desktop/Engine/Display/DisplayObject.cs:256-272 | The unrotated bounds in the parent's space: the scaled size at the position less the scaled pivot, turned around along each axis whose scale is negative. |
| Display.DisplayObject.BoundsThroughMatrix | kestrel-desktop/Engine/Display/DisplayObject.cs:273-279 | The general case of GetBounds: the own rectangle under the transformation matrix into the target's space, or NotConnected. |
| Display.DisplayObject.GetBoundsWithChildren | kestrel-desktop/Engine/Display/DisplayObject.cs:287-301 | Gives the rectangle of the edges of the own bounds widened child by child by each child's bounds-with-children in the same target space, or the first failure. |
| Display.DisplayObject.WidenByChildren | kestrel-desktop/Engine/Display/DisplayObject.cs:290-299 | The foreach loop over the children, in list order, widening the edges of the own bounds. |
| Display.DisplayObject.IncludeChild | kestrel-desktop/Engine/Display/DisplayObject.cs:294-298 | One turn of that loop: the edges widened by the child's bounds-with-children. |
| Display.DisplayObject.HitTest | kestrel-desktop/Engine/Display/DisplayObject.cs:209-233 | Null for an invisible object; otherwise the children from last to first, invisible ones skipped, each at the point taken through the inverse of its matrix; the first non-null result. |
| Display.DisplayObject.HitChild | kestrel-desktop/Engine/Display/DisplayObject.cs:217-229 | One turn of HitTest's loop: null for an invisible child, otherwise the child's hit test at the point taken into its space. |
| Geom.InvertWord | kestrel-desktop/Engine/Display/DisplayObject.cs:365 | Matrix2D.Invert undoes the factors of a product in reverse order, each one undone. |
| Geom.Forwards | kestrel-desktop/Engine/Display/DisplayObject.cs:357 | Each matrix the walk appends is applied forward, in the order appended. |
| Geom.InvertWordTwice | kestrel-desktop/Engine/Display/DisplayObject.cs:362-367 | Inverting twice gives the matrix back. |
| Geom.InvertWordConcat | kestrel-desktop/Engine/Display/DisplayObject.cs:396-397 | The inverse of a product is the product of the inverses in reverse order. |
| Geom.WordOfAppendAll | kestrel-desktop/Engine/Display/DisplayObject.cs:355-359 | A walk that appends local matrices to a matrix applies that matrix and then each local matrix in order. |
| Geom.InverseOfAppend | kestrel-desktop/Engine/Display/DisplayObject.cs:396-397 | Inverting an appended pair inverts each and swaps them. |
| Geom.Min | kestrel-desktop/Engine/Display/DisplayObject.cs:295 | Math.Min gives the lesser argument. |
| Geom.Max | kestrel-desktop/Engine/Display/DisplayObject.cs:296 | Math.Max gives the greater argument. |
| Geom.ExtentOf | kestrel-desktop/Engine/Display/DisplayObject.cs:290-291 | The edges GetBoundsWithChildren starts from hold the own bounds and turn back into them. |
| Geom.Include | kestrel-desktop/Engine/Display/DisplayObject.cs:295-298 | One loop step widens the edges to hold the child's rectangle, keeps holding what they held, and moves each edge only to that rectangle's edge. |
| Geom.Span | kestrel-desktop/Engine/Display/DisplayObject.cs:258-271 | The rectangle spanned by two corners has non-negative size and runs from the lesser to the greater coordinate on each axis. |
| Gpu.DeviceBuffer.constructor | kestrel-desktop/Engine/Rendering/BatchRenderer.cs:21-22 | A new buffer has exactly the requested size, is not disposed and holds nothing. |
| Gpu.DeviceBuffer.Dispose | kestrel-desktop/Engine/Rendering/BatchRenderer.cs:86 | The buffer is disposed. |
| Gpu.DeviceBuffer.WriteVertices | kestrel-desktop/Engine/Rendering/BatchRenderer.cs:51-56 | Slot i holds vertex i, in order; slots past the written ones keep their contents; nothing else is written. |
| RenderStates.DeriveAllAccumulates | kestrel-desktop/Engine/Rendering/BatchRenderer.cs:93-103 | Render states accumulate down the tree: a state pushed on top of a chain of pushes has the product of all their alphas, the products of all their scales, and all their matrices, oldest first. |
| RenderStates.DeriveTwice | kestrel-desktop/Engine/Rendering/BatchRenderer.cs:93-103 | Two pushes in a row multiply the alphas and the scales and keep both matrices in push order. |
| Batching.RunEnd | kestrel-desktop/Engine/Rendering/BatchRenderer.cs:70-75 | The do-while stops at the first index from which the handle differs from the batch's handle, or at the end of the queue. |
| Batching.RunsFromAreMaximal | kestrel-desktop/Engine/Rendering/BatchRenderer.cs:62-78 | The batches from an index on are contiguous, non-empty, each of one handle, no two neighbours of the same handle, the last ending at the end of the queue. |
| Batching.RunsAreMaximal | kestrel-desktop/Engine/Rendering/BatchRenderer.cs:62-78 | The batches of the whole queue form a maximal run split. |
| Batching.MaximalRunSplitIsRuns | kestrel-desktop/Engine/Rendering/BatchRenderer.cs:62-78 | Any maximal run split of the queue is exactly the batches the loop forms. |
| Batching.MaximalRunSplitIsUnique | perlin-desktop/Perlin/Rendering/BatchRenderer.cs:50-66 | Two maximal run splits of the same queue are equal. |
| Batching.SplitRunsInside | kestrel-desktop/Engine/BatchRenderer.cs:55-70 | Every batch lies inside the queue, and each starts after the previous one. |
| Batching.SplitRunSize | kestrel-desktop/Engine/BatchRenderer.cs:62-68 | Every batch has at least one entry. |
| Batching.RunSizesCoverQueue | kestrel-desktop/Engine/Rendering/BatchRenderer.cs:69-77 | The batch sizes add up to the queue length: every entry is drawn exactly once. |
| Batching.RunStartsIncrease | kestrel-desktop/Engine/BatchRenderer.cs:57 | Batch starts, the draws' instance offsets, strictly increase. |
| Batching.ExampleFiveEntries | kestrel-desktop/Engine/Rendering/BatchRenderer.cs:62-78 | Handles [X, X, Y, X, X] give three batches: 2 from 0, 1 from 2, 2 from 3. |
| Batching.RunDrawsAreRuns | kestrel-desktop/Engine/Rendering/BatchRenderer.cs:77 | One draw per batch, with the batch's handle, 4 vertices, the batch size as instance count and its start as instance offset. |
| Batching.BatchDraws | kestrel-desktop/Engine/Rendering/BatchRenderer.cs:62-78 | The loop with its do-while issues exactly one draw per maximal run of equal handles, in queue order. |
| KestrelRendering.Handles | kestrel-desktop/Engine/Rendering/BatchRenderer.cs:65 | Entry i's ResSet, for every queue entry. |
| KestrelRendering.Vertices | kestrel-desktop/Engine/Rendering/BatchRenderer.cs:54 | Entry i's GetGpuVertex, for every queue entry. |
| KestrelRendering.BatchRenderer.constructor | kestrel-desktop/Engine/Rendering/BatchRenderer.cs:19-24 | A 1000-byte vertex buffer, an empty queue, a stack holding one fresh state, nothing drawn. |
| KestrelRendering.BatchRenderer.AddToRenderQueue | kestrel-desktop/Engine/Rendering/BatchRenderer.cs:29-35 | The object is appended when it has a ResSet; otherwise the queue is unchanged. |
| KestrelRendering.BatchRenderer.RenderQueue | kestrel-desktop/Engine/Rendering/BatchRenderer.cs:40-80 | The buffer grows to the queue's byte size only when smaller; slot i holds entry i's vertex; one draw per maximal run of equal handles; DrawCount is the number of runs; the queue is emptied and the state stack untouched. |
| KestrelRendering.BatchRenderer.EnsureBufferSize | kestrel-desktop/Engine/Rendering/BatchRenderer.cs:82-90 | A smaller buffer is disposed and replaced by a fresh one of exactly the requested size; otherwise the buffer stays; it never falls below 1000 bytes. |
| KestrelRendering.BatchRenderer.PushRenderState | kestrel-desktop/Engine/Rendering/BatchRenderer.cs:93-103 | On a non-empty stack, pushes and returns the top derived by the arguments; on an empty one fails with EmptyStack and changes nothing. |
| KestrelRendering.BatchRenderer.PopRenderState | kestrel-desktop/Engine/Rendering/BatchRenderer.cs:105-108 | Removes exactly the top state; an empty stack fails and changes nothing. |
| LegacyRendering.Handles | kestrel-desktop/Engine/BatchRenderer.cs:58 | Entry i's ResSet, for every queue entry. |
| LegacyRendering.Vertices | kestrel-desktop/Engine/BatchRenderer.cs:47 | Entry i's GpuVertex, for every queue entry. |
| LegacyRendering.BatchRenderer.constructor | kestrel-desktop/Engine/BatchRenderer.cs:16-20 | A 1000-byte vertex buffer, an empty queue, nothing drawn. |
| LegacyRendering.BatchRenderer.AddToRenderQueue | kestrel-desktop/Engine/BatchRenderer.cs:25-28 | The object is appended whatever its ResSet, after the earlier ones. |
| LegacyRendering.BatchRenderer.RenderQueue | kestrel-desktop/Engine/BatchRenderer.cs:33-73 | The buffer grows to the queue's byte size only when smaller; slot i holds entry i's vertex; one draw per maximal run of equal handles; the queue is emptied. |
| LegacyRendering.BatchRenderer.EnsureBufferSize | kestrel-desktop/Engine/BatchRenderer.cs:75-83 | A smaller buffer is disposed and replaced by a fresh one of exactly the requested size; otherwise the buffer stays. |
| PerlinRendering.Handles | perlin-desktop/Perlin/Rendering/BatchRenderer.cs:53 | Entry i's ResSet, for every queued state. |
| PerlinRendering.Vertices | perlin-desktop/Perlin/Rendering/BatchRenderer.cs:42 | Entry i's vertex record, for every queued state. |
| PerlinRendering.BatchRenderer.constructor | perlin-desktop/Perlin/Rendering/BatchRenderer.cs:18-23 | A 1000-byte vertex buffer, an empty queue, a stack holding the base state, nothing drawn. |
| PerlinRendering.BatchRenderer.RenderQueue | perlin-desktop/Perlin/Rendering/BatchRenderer.cs:28-68 | The buffer grows to the queue's byte size only when smaller; slot i holds entry i's vertex; one draw per maximal run of equal handles; DrawCount is the number of runs; the queue is emptied. |
| PerlinRendering.BatchRenderer.EnsureVertexBufferSize | perlin-desktop/Perlin/Rendering/BatchRenderer.cs:70-78 | A smaller buffer is disposed and replaced by a fresh one of exactly the requested size; otherwise the buffer stays. |
| PerlinRendering.BatchRenderer.PushRenderState | perlin-desktop/Perlin/Rendering/BatchRenderer.cs:80-94 | Always pushes exactly one state derived from the top and the object; queues that state only when the object's bounds are not empty and the state has a handle; an empty stack fails and changes nothing. |
| PerlinRendering.BatchRenderer.PopRenderState | perlin-desktop/Perlin/Rendering/BatchRenderer.cs:96-99 | Removes exactly the top state; an empty stack fails and changes nothing. |
| DisplayRender.Render | kestrel-desktop/Engine/Display/DisplayObject.cs:87-107 | The stack ends as it began; the queue grows by the visible, shown, imaged objects of the subtree in depth-first order; EnterFrame fires on each on-stage object visited; a visible object's render state is its parent state derived by its matrix and scales; an invisible one's is unchanged; no object outside the subtree gets a new state. |
| DisplayRender.RenderVisible | kestrel-desktop/Engine/Display/DisplayObject.cs:93-106 | For a visible object: push, queue, children, pop; the stack ends as it began. |
| DisplayRender.VisibleStep | kestrel-desktop/Engine/Display/DisplayObject.cs:93-106 | A visible object adds its own queue entry and EnterFrame first, then what its children add, to the queue and log built so far. |
| DisplayRender.DrawSelf | kestrel-desktop/Engine/Display/DisplayObject.cs:95-100 | Pushes the object's state, keeps it as the object's render state, and queues the object only when it is shown and has an image. |
| DisplayRender.RenderChildrenAndPop | kestrel-desktop/Engine/Display/DisplayObject.cs:101-105 | The children rendered in list order on the object's state, then that state popped. |
| DisplayRender.FireEnterFrame | kestrel-desktop/Engine/Display/DisplayObject.cs:89-92 | EnterFrame fires exactly when the object is on stage. |
| DisplayRender.PushOwnState | kestrel-desktop/Engine/Display/DisplayObject.cs:95 | PushRenderState(1, TransformationMatrix, ScaleX, ScaleY), kept as the object's render state. |
| DisplayRender.MatrixOf | kestrel-desktop/Engine/Display/DisplayObject.cs:95 | The TransformationMatrix getter gives the object's local matrix during the traversal. |
| DisplayRender.PushState | kestrel-desktop/Engine/Display/DisplayObject.cs:95 | PushRenderState on a non-empty stack pushes the top derived by alpha 1, the matrix and the scales. |
| DisplayRender.KeepState | kestrel-desktop/Engine/Display/DisplayObject.cs:95 | The object's render state is the pushed one. |
| DisplayRender.PopState | kestrel-desktop/Engine/Display/DisplayObject.cs:105 | PopRenderState removes the state the push added. |
| DisplayRender.QueueIfShown | kestrel-desktop/Engine/Display/DisplayObject.cs:96-100 | AddToRenderQueue only when GetBounds() has positive width and height, and the queue keeps it only when it has an image. |
| DisplayRender.BoundsInParent | kestrel-desktop/Engine/Display/DisplayObject.cs:96 | GetBounds() is GetBounds(Parent), which cannot fail since the parent is in the same tree. |
| DisplayRender.ConnectedBoundsOk | kestrel-desktop/Engine/Display/DisplayObject.cs:243-246 | GetBounds into any space of the object's own tree succeeds. |
| DisplayRender.Enqueue | kestrel-desktop/Engine/Display/DisplayObject.cs:99 | AddToRenderQueue keeps the object only when it has an image. |
| DisplayRender.RenderChildren | kestrel-desktop/Engine/Display/DisplayObject.cs:101-104 | The foreach renders the children in list order: the queue and the EnterFrame log grow by theirs in that order, and the stack ends as it began. |
| DisplayRender.RenderChild | kestrel-desktop/Engine/Display/DisplayObject.cs:103 | One turn: the child's queue and EnterFrame entries are appended after those of the children before it. |
| DisplayRender.AmongStep | kestrel-desktop/Engine/Display/DisplayObject.cs:101-104 | Rendering one more child appends exactly that child's subtree queue and EnterFrame entries to the queue and log built so far. |
| DisplayRender.QueuedAreVisible | kestrel-desktop/Engine/Display/DisplayObject.cs:87-107 | Only objects of the subtree are queued, each visible, shown and with an image, and only when the subtree's root is visible. |
| DisplayRender.QueuedAmongAreVisible | kestrel-desktop/Engine/Display/DisplayObject.cs:101-104 | What the children add to the queue are visible, shown, imaged objects of this object's subtree. |
| Input.Held.Press | kestrel-desktop/Engine/Input.cs:91-97 | A down: the element is held afterwards, and new this frame exactly when it already was or it was not held before; other elements keep their status; new stays within held. |
| Input.Held.Release | kestrel-desktop/Engine/Input.cs:85-89 | An up: the element is neither held nor new afterwards; others keep their status; new stays within held. |
| Input.PressIsIdempotent | kestrel-desktop/Engine/Input.cs:91-97 | A repeated down of a held element changes nothing. |
| Input.Input.constructor | kestrel-desktop/Engine/Input.cs:11-16 | Nothing held or new, no down time or position recorded, no last-down object, no stage calls. |
| Input.Input.KeyUp | kestrel-desktop/Engine/Input.cs:85-89 | The key sets are those after an up of the key. |
| Input.Input.KeyDown | kestrel-desktop/Engine/Input.cs:91-97 | The key sets are those after a down of the key. |
| Input.Input.UpdateFrameInput | kestrel-desktop/Engine/Input.cs:35-83 | Both new sets are cleared; the key sets are those after every key event in order; the mouse state and stage calls are those of the mouse events in order and the mouse move, or the state the null click left when it throws; new stays within held. |
| Input.Input.HandleMouseEvent | kestrel-desktop/Engine/Input.cs:54-80 | One mouse event as MouseStep describes it, throwing exactly when MouseStep does, with NullReference. |
| Input.MouseAfterStops | kestrel-desktop/Engine/Input.cs:77 | Once the mouse loop has thrown, later events change nothing. |
| Input.AfterKeepsValid | kestrel-desktop/Engine/Input.cs:39-50 | The key loop keeps new keys among held keys. |
| Input.MouseAfterKeepsValid | kestrel-desktop/Engine/Input.cs:52-81 | The mouse loop keeps new buttons among held buttons, whether it throws or not. |
| Input.UntouchedKeepsStatus | kestrel-desktop/Engine/Input.cs:39-50 | A key (or button) no event names keeps its held and new status. |
| Input.LastEventDecides | kestrel-desktop/Engine/Input.cs:39-50 | The last event on a key decides whether it is held; after an up it is not new either. |
| Input.HeldStaysOld | kestrel-desktop/Engine/Input.cs:91-97 | A key held from an earlier frame and not released is still held and not new however many downs arrive. |
| Input.NewHadDown | kestrel-desktop/Engine/Input.cs:37-50 | A key new at the end of the loop was new at its start or had a down event. |
| Input.PressedThisFrameWentDown | kestrel-desktop/Engine/Input.cs:21-32 | After a frame, a key IsKeyPressedThisFrame reports is one IsKeyDown reports and had a down event in the snapshot. |
| Input.ButtonsFollowEvents | kestrel-desktop/Engine/Input.cs:57-70 | While nothing throws, the mouse loop keeps its button sets exactly as the key loop keeps the key sets. |
| Input.DownDataNeedsLeftDown | kestrel-desktop/Engine/Input.cs:61-64 | Only a left-button down moves the recorded down time and position. |
| Input.RepeatedDownIgnored | kestrel-desktop/Engine/Input.cs:55-66 | A down of a button already held dispatches nothing and changes nothing. |
| Input.ClickRule | kestrel-desktop/Engine/Input.cs:67-80 | An up throws exactly when it is a left up in time and both down and up hit nothing; it sends a click exactly when it is a left up in time on the object the last down hit; unless it throws, the last-down object is null afterwards. |
| Input.ClickTargetIsLastDownOfAnyButton | kestrel-desktop/Engine/Input.cs:60-74 | A right-button down on another object between a left down and a left up makes the left up a click on that other object. |

## Left out

- **Matrix arithmetic.** `Matrix2D` numerics (entries, float rounding, singular matrices) are not modelled. A matrix is the symbolic product of local matrices and inverses, so inversion always exists.
- **Bounds through a matrix.** `Rectangle.GetBounds(Matrix)` is a parameter (`boundsIn`). The model states where `GetBounds` uses it, but not the rectangle it computes.
- **Hit tests.** `Matrix2D.TransformPoint` and subclass `HitTest` overrides (images, text) come in as the `HitDispatch` parameter. `Stage` and its classes are not part of this model.
- **Mouse dispatch.** `Stage.DispatchMouseDownInternal`, `DispatchMouseUpInternal`, `DispatchMouseClick` and `OnMouseMoveInternal` come in as the `StageHits` parameter. Calls are recorded in a log instead of being run, so handlers that change the scene during dispatch are not modelled.
- **Events.** `EnterFrame`, `AddedToStage` and `RemovedFromStage` handlers are not run; each firing is recorded in a log.
- **GPU plumbing.** `KestrelApp`, the command list, the orthographic projection update, `Map`/`Unmap`, `SetPipeline` and the pipeline object are left out. Buffers are modelled by their size, disposal and contents; draws by their handle, vertex count, instance count and instance offset.
- **Byte sizes.** The model does not bound the 32-bit `uint` product `Count * VertexSize`.
  - `KestrelRendering.BatchRenderer.RenderQueue`, `LegacyRendering.BatchRenderer.RenderQueue` and `PerlinRendering.BatchRenderer.RenderQueue` model it as an unbounded integer.
  - A queue of more than 178 956 970 entries would wrap around in the C# code.
- **Floating point.** Times, sizes, scales and angles are `real`. The float rounding of the `%` in the rotation setter is not modelled; truncation toward zero is.
- **Render precondition.** `DisplayRender.Render` requires the renderer's state stack to be non-empty. That always holds in the engine: the constructor pushes a state and `Render` pops only what it pushed.
- **Render states below the object.** `DisplayRender.Render` states the new render state of the object itself. For its descendants it states only that objects outside the subtree keep their states.
- **Bounds loop variables.** `Display.DisplayObject.GetBoundsWithChildren`: the four edge variables of the loop are modelled as one `Extent` value.
- **Cycles.** `Display.DisplayObject.AddChild` requires that the child is neither the object itself nor one of its ancestors. The C# code does not check this: such a call would make the parent links a cycle, and later walks up the tree would not end.
- **Key and button codes.** Veldrid's `Key` values are modelled as natural numbers. The `MouseButton` values other than left, middle and right are numbered.
- **Mouse position.** The snapshot's single mouse position is used for every mouse event of the frame, as in the code.
- **Scaled size and tint.** `WidthScaled` and `HeightScaled` are not modelled separately. Their setters divide by the original size and call the modelled `ScaleX`/`ScaleY` setters. Division by a zero width is float arithmetic, which is left out. The `Tint` setter and the plain getters only read or assign a field.
- Display.DisplayObject.RemoveChild: requires the child to be this object's child or to have no parent. The C# code also accepts a child of another parent: `List.Remove` finds nothing, yet the child is taken off the stage (firing `RemovedFromStage` if it was on it) and loses its parent while its real parent still lists it. Every caller in the engine passes its own child (`DisplayObject.cs` line 81, `Button.cs` lines 117, 135 and 154).
- **Fresh render state.** `RenderState.cs` is not part of this model. A fresh state is taken to have alpha 1, scale 1 and no transforms (`RenderStates.Fresh`).
- **Perlin's state copy.** Perlin's `RenderState.ApplyNewState` is not modelled. A derived state is taken to carry its object's `ResSet` and vertex record.
