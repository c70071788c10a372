/**
 * The scene graph: DisplayObject and the state its methods share.
 *
 * Every display object is registered in a DisplayContext, which also holds
 * what the source keeps in static fields (the CommonParentHelper list) and the
 * EnterFrameEvent invocations. The context also keeps, as ghost state, each
 * object's list of ancestors; `DisplayContext.Valid` ties those lists to the
 * parent links and the child lists, so that parent links can never form a
 * cycle.
 *
 * Matrices are terms (see Geom); a Rectangle's GetBounds(Matrix) and a
 * matrix's TransformPoint are passed in as functions.
 */
module Display {
  import opened Geom
  import opened Errors
  import opened Gpu
  import opened RenderStates
  import Ancestry

  /** The AddedToStage and RemovedFromStage notifications. */
  datatype StageChange = AddedToStage | RemovedFromStage

  /**
   * A notification log that fits the flag: notifications alternate, the first
   * is AddedToStage (objects start off stage), and the flag is on exactly
   * when the last one was AddedToStage.
   */
  ghost predicate StageLogAgrees(log: seq<StageChange>, onStage: bool)
  {
    && (forall i :: 0 <= i < |log| ==> log[i] == if i % 2 == 0 then AddedToStage else RemovedFromStage)
    && onStage == (|log| % 2 == 1)
  }

  /** `List<T>.Remove(x)`: drops the first occurrence of x, if any. */
  function RemoveFirst<T(==)>(s: seq<T>, x: T): (r: seq<T>)
    ensures x !in s ==> r == s
  {
    if s == [] then []
    else if s[0] == x then s[1..]
    else [s[0]] + RemoveFirst(s[1..], x)
  }

  /** Remove splices out the first occurrence: what comes before it, then what comes after it. */
  lemma {:induction false} RemoveFirstSplices<T>(s: seq<T>, x: T)
    requires x in s
    ensures RemoveFirst(s, x) == Ancestry.Before(s, x) + s[|Ancestry.Before(s, x)| + 1..]
  {
    if s[0] == x {
      assert Ancestry.Before(s, x) == [];
    } else {
      var rest := s[1..];
      assert x in rest by { assert s == [s[0]] + rest; }
      var b := Ancestry.Before(rest, x);
      calc {
        RemoveFirst(s, x);
        [s[0]] + RemoveFirst(rest, x);
        { RemoveFirstSplices(rest, x); }
        [s[0]] + (b + rest[|b| + 1..]);
        { assert rest[|b| + 1..] == s[|b| + 2..]; }
        ([s[0]] + b) + s[|b| + 2..];
        { assert Ancestry.Before(s, x) == [s[0]] + b; }
        Ancestry.Before(s, x) + s[|Ancestry.Before(s, x)| + 1..];
      }
    }
  }

  /** Remove takes exactly one copy of x out of the list when there is one. */
  lemma {:induction false} RemoveFirstCount<T>(s: seq<T>, x: T)
    ensures multiset(RemoveFirst(s, x)) == multiset(s) - multiset{x}
  {
    if s != [] {
      assert s == [s[0]] + s[1..];
      if s[0] != x {
        RemoveFirstCount(s[1..], x);
      }
    }
  }

  /** Remove keeps every other element and adds none. */
  lemma {:induction false} RemoveFirstMembers<T>(s: seq<T>, x: T)
    ensures forall y :: y in s && y != x ==> y in RemoveFirst(s, x)
    ensures forall y :: y in RemoveFirst(s, x) ==> y in s
  {
    if s != [] && s[0] != x {
      RemoveFirstMembers(s[1..], x);
      assert s == [s[0]] + s[1..];
    }
  }

  /** Remove keeps a list free of duplicates, and then x is gone from it. */
  lemma RemoveFirstNoDuplicates<T>(s: seq<T>, x: T)
    requires Ancestry.NoDuplicates(s)
    ensures Ancestry.NoDuplicates(RemoveFirst(s, x)) && x !in RemoveFirst(s, x)
  {
    if x in s {
      RemoveFirstSplices(s, x);
      var r := RemoveFirst(s, x);
      var k := |Ancestry.Before(s, x)|;
      assert s[k] == x;
      forall i | 0 <= i < |r|
        ensures r[i] == s[if i < k then i else i + 1]
      {
      }
      forall i, j | 0 <= i < j < |r|
        ensures r[i] != r[j]
      {
        assert r[i] == s[if i < k then i else i + 1];
        assert r[j] == s[if j < k then j else j + 1];
      }
    }
  }

  const Pi: real := 3.141592653589793
  const TwoPi: real := 2.0 * Pi

  /** k whole turns. */
  function Turns(k: int): real
  {
    k as real * TwoPi
  }

  /** The integer part of a real, rounded toward zero. */
  function Trunc(v: real): (t: int)
    ensures v >= 0.0 ==> t as real <= v < t as real + 1.0
    ensures v < 0.0 ==> t as real - 1.0 < v <= t as real
  {
    if v >= 0.0 then v.Floor else -((-v).Floor)
  }

  /**
   * The Rotation setter's normalisation: the remainder of a division by 2π
   * that truncates toward zero (as C#'s `%` on floats does), then moved into
   * [-π, π].
   */
  function NormalizeRotation(v: real): (r: real)
    ensures -Pi <= r <= Pi
    ensures exists k: int :: v - r == Turns(k)
  {
    var k := Trunc(v / TwoPi);
    var m := v - k as real * TwoPi;
    if m < -Pi then
      assert v - (m + TwoPi) == Turns(k - 1);
      m + TwoPi
    else if m > Pi then
      assert v - (m - TwoPi) == Turns(k + 1);
      m - TwoPi
    else
      assert v - m == Turns(k);
      m
  }

  /** A normalised angle is left as it is. */
  lemma NormalizeRotationIdempotent(v: real)
    ensures NormalizeRotation(NormalizeRotation(v)) == NormalizeRotation(v)
  {
    var r := NormalizeRotation(v);
    var q := r / TwoPi;
    assert -0.5 <= q <= 0.5 by {
      assert -Pi <= r <= Pi;
      assert q * TwoPi == r;
    }
    assert Trunc(q) == 0;
  }

  /** Three half-turns come out as one half-turn. */
  lemma NormalizeThreeHalfTurns()
    ensures NormalizeRotation(3.0 * Pi) == Pi
  {
    assert (3.0 * Pi) / TwoPi == 1.5;
    assert Trunc(1.5) == 1;
  }

  class DisplayContext {
    /** Every display object created so far. */
    ghost var nodes: set<DisplayObject>
    /** The static CommonParentHelper list of FindCommonParent. */
    var commonParentHelper: seq<DisplayObject>
    /** The EnterFrameEvent invocations, oldest first. */
    var enterFrameLog: seq<DisplayObject>
    /** Each object's ancestors: its parent, the parent's parent, and so on up to the root. */
    ghost var ancestors: map<DisplayObject, seq<DisplayObject>>

    constructor ()
      ensures nodes == {} && commonParentHelper == [] && enterFrameLog == []
      ensures Valid()
    {
      nodes := {};
      ancestors := map[];
      commonParentHelper := [];
      enterFrameLog := [];
    }

    /** n followed by its ancestors, up to its root. */
    ghost function Chain(n: DisplayObject): seq<DisplayObject>
      reads this`ancestors
      requires n in ancestors
    {
      Ancestry.Chain(ancestors, n)
    }

    /**
     * n's parent link, its ancestor list and the child lists agree: the parent
     * is the first ancestor and lists n among its children, and every child of
     * n, listed once, names n as its parent.
     */
    ghost predicate Linked(n: DisplayObject)
      reads this`nodes, this`ancestors, nodes`parent, nodes`children
      requires n in nodes && n in ancestors
    {
      && n.parent == (if ancestors[n] == [] then null else ancestors[n][0])
      && (n.parent != null ==> n.parent in nodes && n in n.parent.children)
      && (forall c :: c in n.children ==> c in nodes && c.parent == n)
      && Ancestry.NoDuplicates(n.children)
    }

    /**
     * The scene graph is a forest of registered objects. (The trigger keeps
     * the solver from following parent links without end.)
     */
    ghost predicate Valid()
      reads this`nodes, this`ancestors, this`commonParentHelper, nodes`parent, nodes`children
    {
      && commonParentHelper == []
      && ancestors.Keys == nodes
      && (forall n {:trigger Linked(n)} :: n in nodes ==> Linked(n))
      && Ancestry.Consistent(ancestors)
    }

    /** No object's cached matrix is stale. */
    ghost predicate Caches()
      reads this`nodes, nodes`matrixChanged, nodes`transformationMatrix
      reads nodes`transform
    {
      forall n :: n in nodes ==> n.CacheOk()
    }
  }

  /**
   * Every object is listed by its parent and by no other object: it appears
   * in exactly one child list when it has a parent, and in none otherwise.
   */
  lemma InOneChildList(ctx: DisplayContext, c: DisplayObject, m: DisplayObject)
    requires ctx.Valid() && c in ctx.nodes && m in ctx.nodes
    ensures c in m.children <==> m == c.parent
  {
    assert ctx.Linked(c) && ctx.Linked(m);
  }

  /** A child's chain is the child followed by its parent's chain; the child is not on the latter. */
  lemma ChildChain(ctx: DisplayContext, p: DisplayObject, c: DisplayObject)
    requires ctx.Valid() && p in ctx.nodes && c in p.children
    ensures c in ctx.nodes && c.parent == p
    ensures ctx.Chain(c) == [c] + ctx.Chain(p) && c !in ctx.Chain(p)
  {
    assert ctx.Linked(p);
    assert ctx.Linked(c);
    Ancestry.Link(ctx.ancestors, c);
    Ancestry.NotOwnAncestor(ctx.ancestors, c);
  }

  /**
   * The walk up from n: every object on n's chain is registered, and its
   * parent is the next object on the chain, the last one having none.
   */
  lemma ChainLinks(ctx: DisplayContext, n: DisplayObject)
    requires ctx.Valid() && n in ctx.nodes
    ensures forall k :: 0 <= k < |ctx.Chain(n)| ==> ctx.Chain(n)[k] in ctx.nodes
    ensures forall k {:trigger ctx.Chain(n)[k].parent} :: 0 <= k < |ctx.Chain(n)| - 1 ==> ctx.Chain(n)[k].parent == ctx.Chain(n)[k + 1]
    ensures ctx.Chain(n)[|ctx.Chain(n)| - 1].parent == null
  {
    var c := ctx.Chain(n);
    Ancestry.ChainInForest(ctx.ancestors, n);
    forall k | 0 <= k < |c| - 1
      ensures c[k].parent == c[k + 1]
    {
      Ancestry.ChainSuffix(ctx.ancestors, n, k);
      assert ctx.Linked(c[k]);
      assert c[k..] == [c[k]] + ctx.ancestors[c[k]];
      assert c[k..][1] == c[k + 1];
    }
    var last := |c| - 1;
    Ancestry.ChainSuffix(ctx.ancestors, n, last);
    assert ctx.Linked(c[last]);
    assert c[last..] == [c[last]] + ctx.ancestors[c[last]];
  }

  /** The walk from n up to `to` follows parent links and stops just below `to`. */
  lemma PathLinks(ctx: DisplayContext, n: DisplayObject, to: DisplayObject?)
    requires ctx.Valid() && n in ctx.nodes && (to == null || to in ctx.Chain(n))
    ensures forall k :: 0 <= k < |PathTo(ctx.ancestors, n, to)| ==> PathTo(ctx.ancestors, n, to)[k] in ctx.nodes
    ensures if PathTo(ctx.ancestors, n, to) == [] then n == to else n == PathTo(ctx.ancestors, n, to)[0]
    ensures forall k {:trigger PathTo(ctx.ancestors, n, to)[k].parent} :: 0 <= k < |PathTo(ctx.ancestors, n, to)| ==>
      PathTo(ctx.ancestors, n, to)[k].parent == if k + 1 < |PathTo(ctx.ancestors, n, to)| then PathTo(ctx.ancestors, n, to)[k + 1] else to
    ensures to !in PathTo(ctx.ancestors, n, to)
  {
    ChainLinks(ctx, n);
    var c, p := ctx.Chain(n), PathTo(ctx.ancestors, n, to);
    assert forall k :: 0 <= k < |p| ==> p[k] == c[k];
    if to != null {
      assert c[|p|] == to;
    }
  }

  /** A parent is never its own child's child. */
  lemma NoTwoCycle(ctx: DisplayContext, a: DisplayObject)
    requires ctx.Valid() && a in ctx.nodes && a.parent != null
    ensures a.parent in ctx.nodes && a.parent.parent != a
  {
    assert ctx.Linked(a);
    var b := a.parent;
    assert ctx.Linked(b);
    assert b == ctx.ancestors[a][0];
    Ancestry.AncestorIsHigher<DisplayObject>(ctx.ancestors, a, b);
    if b.parent == a {
      assert a == ctx.ancestors[b][0];
      Ancestry.AncestorIsHigher<DisplayObject>(ctx.ancestors, b, a);
    }
  }

  /** Each object's ancestors, as the scene graph keeps them. */
  type Forest = map<DisplayObject, seq<DisplayObject>>

  /** T holds the transform properties of every registered object. */
  ghost predicate Snapshot(ctx: DisplayContext, T: map<DisplayObject, Transform>)
    reads ctx`nodes, ctx.nodes`transform
  {
    && T.Keys == ctx.nodes
    && forall n {:trigger T[n]} :: n in ctx.nodes ==> T[n] == n.transform
  }

  /** The local matrices of the objects on a path, in order, given each object's transform. */
  function Locals(path: seq<DisplayObject>, T: map<DisplayObject, Transform>): (ms: seq<Matrix>)
    requires forall n :: n in path ==> n in T
    ensures |ms| == |path|
    ensures forall k :: 0 <= k < |path| ==> ms[k] == Local(T[path[k]])
  {
    if path == [] then [] else Locals(path[..|path| - 1], T) + [Local(T[path[|path| - 1]])]
  }

  /** Where the walks up from n and from t meet: their lowest common ancestor, if any. */
  ghost function Meet(anc: Forest, n: DisplayObject, t: DisplayObject): seq<DisplayObject>
    requires n in anc && t in anc
  {
    Ancestry.FirstCommon(Ancestry.Chain(anc, n), Ancestry.Chain(anc, t))
  }

  /** Whether there is a transformation from n's space to t's (null: the space above n's root). */
  ghost predicate Connected(anc: Forest, n: DisplayObject, t: DisplayObject?)
    requires n in anc && (t == null || t in anc)
  {
    t == null || Meet(anc, n, t) != []
  }

  /** The objects a walk up from n visits before it reaches `to` (null: the whole chain). */
  ghost function PathTo(anc: Forest, n: DisplayObject, to: DisplayObject?): (p: seq<DisplayObject>)
    requires Ancestry.Consistent(anc) && n in anc
    ensures forall x :: x in p ==> x in anc
  {
    Ancestry.ChainInForest(anc, n);
    if to == null then Ancestry.Chain(anc, n) else Ancestry.Before<DisplayObject>(Ancestry.Chain(anc, n), to)
  }

  /**
   * The transformation from n's space to t's: up from n to where the two
   * walks meet, applying each local matrix, then down to t, undoing t's
   * side of the walk in reverse.
   */
  ghost function Transformation(anc: Forest, T: map<DisplayObject, Transform>,
                                n: DisplayObject, t: DisplayObject?): seq<Factor>
    requires Ancestry.Consistent(anc) && anc.Keys == T.Keys
    requires n in anc && (t == null || t in anc) && Connected(anc, n, t)
  {
    Ancestry.ChainInForest(anc, n);
    if t == null then Forwards(Locals(PathTo(anc, n, null), T))
    else
      var m := Meet(anc, n, t)[0];
      Ancestry.ChainInForest<DisplayObject>(anc, t);
      Forwards(Locals(PathTo(anc, n, m), T)) + InvertWord(Forwards(Locals(PathTo(anc, t, m), T)))
  }

  /**
   * Into the space of an object on n's own chain (n itself, its parent, its
   * root, ...): only the walk up from n remains.
   */
  lemma TransformUpTo(anc: Forest, T: map<DisplayObject, Transform>, n: DisplayObject, t: DisplayObject)
    requires Ancestry.Consistent(anc) && anc.Keys == T.Keys
    requires n in anc && t in anc && t in Ancestry.Chain(anc, n)
    ensures Connected(anc, n, t) && Meet(anc, n, t) == [t]
    ensures Transformation(anc, T, n, t) == Forwards(Locals(PathTo(anc, n, t), T))
  {
    Ancestry.FirstCommonOfAncestor(anc, n, t);
    assert PathTo(anc, t, t) == [];
  }

  /** Into the parent's space (or, for a root, the space above it): just the local matrix. */
  lemma TransformToParent(ctx: DisplayContext, T: map<DisplayObject, Transform>, n: DisplayObject)
    requires ctx.Valid() && Snapshot(ctx, T) && n in ctx.nodes
    ensures n.parent == null || n.parent in ctx.nodes
    ensures Connected(ctx.ancestors, n, n.parent)
    ensures Transformation(ctx.ancestors, T, n, n.parent) == [Forward(n.LocalMatrix())]
  {
    assert ctx.Linked(n);
    var c := ctx.Chain(n);
    if n.parent != null {
      Ancestry.NotOwnAncestor(ctx.ancestors, n);
      TransformUpTo(ctx.ancestors, T, n, n.parent);
      assert c == [n] + ctx.ancestors[n] && c[1] == n.parent;
      assert PathTo(ctx.ancestors, n, n.parent) == [n];
    } else {
      assert c == [n];
    }
    assert Locals([n], T) == [n.LocalMatrix()];
  }

  /**
   * The transformation from t's space to n's undoes the one from n's space
   * to t's.
   */
  lemma TransformationSymmetric(anc: Forest, T: map<DisplayObject, Transform>, n: DisplayObject, t: DisplayObject)
    requires Ancestry.Consistent(anc) && anc.Keys == T.Keys
    requires n in anc && t in anc && Connected(anc, n, t)
    ensures Connected(anc, t, n)
    ensures Transformation(anc, T, t, n) == InvertWord(Transformation(anc, T, n, t))
  {
    Ancestry.FirstCommonSymmetric(anc, n, t);
    var up := Forwards(Locals(PathTo(anc, n, Meet(anc, n, t)[0]), T));
    var down := Forwards(Locals(PathTo(anc, t, Meet(anc, n, t)[0]), T));
    InvertWordConcat(up, InvertWord(down));
    InvertWordTwice(down);
  }

  /** A matrix into n's space from t's, inverted, maps t's space into n's. */
  lemma InverseTransformation(anc: Forest, T: map<DisplayObject, Transform>,
                              n: DisplayObject, t: DisplayObject, m: Matrix)
    requires Ancestry.Consistent(anc) && anc.Keys == T.Keys
    requires n in anc && t in anc && Connected(anc, n, t)
    requires Word(m) == Transformation(anc, T, n, t)
    ensures Connected(anc, t, n)
    ensures Word(Inverse(m)) == Transformation(anc, T, t, n)
  {
    TransformationSymmetric(anc, T, n, t);
  }

  /**
   * The general case of GetTransformationMatrix: the walk up from n to the
   * common parent, followed by the inverse of the walk up from t to it, is
   * the transformation from n's space into t's.
   */
  lemma UpThenDownIsTransformation(anc: Forest, T: map<DisplayObject, Transform>, n: DisplayObject, t: DisplayObject,
                                   up: Matrix, down: Matrix)
    requires Ancestry.Consistent(anc) && anc.Keys == T.Keys && n in anc && t in anc && Connected(anc, n, t)
    requires Word(up) == Forwards(Locals(PathTo(anc, n, Meet(anc, n, t)[0]), T))
    requires Word(down) == Forwards(Locals(PathTo(anc, t, Meet(anc, n, t)[0]), T))
    ensures Word(Append(up, Inverse(down))) == Transformation(anc, T, n, t)
  {
  }

  /** What the bounds, the hit test and the render traversal read of an object besides its transform. */
  datatype Shape = Shape(visible: bool, width: real, height: real, children: seq<DisplayObject>, onStage: bool,
                         image: ResourceSet?)

  type Scene = map<DisplayObject, Shape>

  /** G holds the shape of every registered object, as T holds its transform in `Snapshot`. */
  ghost predicate Pictured(ctx: DisplayContext, G: Scene)
    reads ctx`nodes, ctx.nodes`visible, ctx.nodes`originalWidth, ctx.nodes`originalHeight, ctx.nodes`children
    reads ctx.nodes`isOnStage, ctx.nodes`resSet
  {
    && G.Keys == ctx.nodes
    && forall n {:trigger G[n]} :: n in ctx.nodes ==>
         G[n] == Shape(n.visible, n.originalWidth, n.originalHeight, n.children, n.isOnStage, n.resSet)
  }

  /**
   * The part of `Valid` the traversals depend on: the ancestor lists are a
   * forest over the objects of G, and every child's first ancestor is the
   * object that lists it.
   */
  ghost predicate Shaped(anc: Forest, G: Scene)
  {
    && Ancestry.Consistent(anc)
    && anc.Keys == G.Keys
    && forall n, c {:trigger c in G[n].children} :: n in G && c in G[n].children ==> c in G && anc[c] != [] && anc[c][0] == n
  }

  lemma ValidIsShaped(ctx: DisplayContext, G: Scene)
    requires ctx.Valid() && Pictured(ctx, G)
    ensures Shaped(ctx.ancestors, G)
  {
    forall n, c | n in G && c in G[n].children
      ensures c in G && ctx.ancestors[c] != [] && ctx.ancestors[c][0] == n
    {
      assert ctx.Linked(n);
      assert ctx.Linked(c);
    }
  }

  /** A child sits one level below the object that lists it, and no level reaches the number of objects. */
  lemma ChildIsDeeper(anc: Forest, G: Scene, n: DisplayObject, c: DisplayObject)
    requires Shaped(anc, G) && n in G && c in G[n].children
    ensures c in G && |anc[c]| == |anc[n]| + 1
    ensures |anc[c]| < |G.Keys|
  {
    Ancestry.Link(anc, c);
    Ancestry.ChainFits(anc, c);
  }

  /** n's parent, as its ancestor list records it. */
  function ParentIn(anc: Forest, n: DisplayObject): DisplayObject?
    requires n in anc
  {
    if anc[n] == [] then null else anc[n][0]
  }

  /**
   * GetBounds's second case along one axis: the start (position less the
   * scaled pivot) and the length (the scaled size), turned around when the
   * scale is negative.
   */
  function AxisBounds(pos: real, pivot: real, scale: real, size: real): (real, real)
  {
    var start, length := pos - pivot * scale, size * scale;
    if scale < 0.0 then (start - -length, -length) else (start, length)
  }

  /** UnrotatedOwnBounds along one axis: the start and the length, turned around when the scale is negative. */
  method AxisOwnBounds(pos: real, pivot: real, scale: real, size: real) returns (start: real, length: real)
    ensures (start, length) == AxisBounds(pos, pivot, scale, size)
  {
    start, length := pos - pivot * scale, size * scale;
    if scale < 0.0 {
      length := -length;
      start := start - length;
    }
  }

  /** The bounds GetBounds's second case computes for an unrotated object of the given size in its parent's space. */
  function UnrotatedBounds(t: Transform, width: real, height: real): Rect
  {
    var (x, w) := AxisBounds(t.x, t.pivotX, t.scaleX, width);
    var (y, h) := AxisBounds(t.y, t.pivotY, t.scaleY, height);
    Rect(x, y, w, h)
  }

  /** Where an unrotated object's transform takes a point of its own space. */
  function Place(t: Transform, p: Point): Point
  {
    Point(AxisPlace(t.x, t.pivotX, t.scaleX, p.x), AxisPlace(t.y, t.pivotY, t.scaleY, p.y))
  }

  /** Place along one axis: the coordinate's offset from the pivot, scaled, from the position. */
  function AxisPlace(pos: real, pivot: real, scale: real, c: real): real
  {
    pos + scale * (c - pivot)
  }

  /**
   * For an object of non-negative size, the second case of GetBounds gives
   * the rectangle spanned by where the transform takes the object's two
   * opposite corners, with a non-negative width and height whatever the signs
   * of the scales.
   */
  lemma UnrotatedBoundsIsSpan(t: Transform, width: real, height: real)
    requires width >= 0.0 && height >= 0.0
    ensures UnrotatedBounds(t, width, height) == Span(Place(t, Point(0.0, 0.0)), Place(t, Point(width, height)))
  {
    AxisSpan(t.x, t.pivotX, t.scaleX, width);
    AxisSpan(t.y, t.pivotY, t.scaleY, height);
  }

  /** UnrotatedBoundsIsSpan along one axis: the start is the lesser end, the length the distance between the ends. */
  lemma AxisSpan(pos: real, pivot: real, scale: real, size: real)
    requires size >= 0.0
    ensures var a, b := AxisPlace(pos, pivot, scale, 0.0), AxisPlace(pos, pivot, scale, size);
            AxisBounds(pos, pivot, scale, size).0 == Min(a, b) && AxisBounds(pos, pivot, scale, size).1 == Max(a, b) - Min(a, b)
  {
    var a, b := AxisPlace(pos, pivot, scale, 0.0), AxisPlace(pos, pivot, scale, size);
    var length := size * scale;
    assert a == pos - pivot * scale;
    assert b == a + length;
    if scale < 0.0 {
      assert length <= 0.0;
      assert AxisBounds(pos, pivot, scale, size) == (b, a - b);
    } else {
      assert length >= 0.0;
      assert AxisBounds(pos, pivot, scale, size) == (a, b - a);
    }
  }

  /**
   * What GetBounds(target) gives for n: its own rectangle in its own space;
   * the unrotated bounds in its parent's space; otherwise the bounds of its
   * own rectangle under the transformation into the target's space, where
   * `boundsIn` stands for Rectangle.GetBounds(Matrix) and is given the
   * matrix as the word of local matrices it multiplies out. Fails when the
   * target is in another tree.
   */
  ghost function Bounds(anc: Forest, T: map<DisplayObject, Transform>, n: DisplayObject, target: DisplayObject?,
                        width: real, height: real, boundsIn: (Rect, seq<Factor>) -> Rect): Result<Rect>
    requires Ancestry.Consistent(anc) && anc.Keys == T.Keys
    requires n in anc && (target == null || target in anc)
  {
    var own := Rect(0.0, 0.0, width, height);
    if target == n then Ok(own)
    else if target == ParentIn(anc, n) && T[n].rotation == 0.0 then Ok(UnrotatedBounds(T[n], width, height))
    else if Connected(anc, n, target) then Ok(boundsIn(own, Transformation(anc, T, n, target)))
    else Fail(NotConnected)
  }

  /** Past its first two cases, Bounds is the rectangle under the transformation, or a failure. */
  lemma BoundsThroughTransformation(anc: Forest, T: map<DisplayObject, Transform>, n: DisplayObject,
                                    target: DisplayObject?, width: real, height: real,
                                    boundsIn: (Rect, seq<Factor>) -> Rect)
    requires Ancestry.Consistent(anc) && anc.Keys == T.Keys
    requires n in anc && (target == null || target in anc) && target != n
    requires target != ParentIn(anc, n) || T[n].rotation != 0.0
    ensures Connected(anc, n, target) ==>
      Bounds(anc, T, n, target, width, height, boundsIn) == Ok(boundsIn(Rect(0.0, 0.0, width, height), Transformation(anc, T, n, target)))
    ensures !Connected(anc, n, target) ==> Bounds(anc, T, n, target, width, height, boundsIn) == Fail(NotConnected)
  {
  }

  /** Whether B holds what GetBounds(target) gives for each object of G. */
  ghost predicate AllBounds(anc: Forest, T: map<DisplayObject, Transform>, G: Scene, target: DisplayObject?,
                            boundsIn: (Rect, seq<Factor>) -> Rect, B: map<DisplayObject, Result<Rect>>)
    requires Ancestry.Consistent(anc) && anc.Keys == T.Keys == G.Keys
    requires target == null || target in G
  {
    && B.Keys == G.Keys
    && forall n :: n in G ==> B[n] == Bounds(anc, T, n, target, G[n].width, G[n].height, boundsIn)
  }

  /**
   * What GetBoundsWithChildren(target) gives for n, where B holds what
   * GetBounds(target) gives for each object: the smallest rectangle holding
   * n's bounds and, child by child, what it gives for each child; the first
   * failure, if any.
   */
  ghost function SubtreeBounds(anc: Forest, G: Scene, B: map<DisplayObject, Result<Rect>>, n: DisplayObject): Result<Rect>
    requires Shaped(anc, G) && B.Keys == G.Keys && n in G
    decreases |G.Keys| - |anc[n]|, 1, 0
  {
    Ancestry.ChainFits(anc, n);
    if B[n].Fail? then B[n]
    else
      var all := ChildrenBounds(anc, G, B, n, 0, ExtentOf(B[n].value));
      if all.Fail? then Fail(all.error) else Ok(all.value.ToRect())
  }

  /** The loop of GetBoundsWithChildren over n's children from the i-th on, from the edges `e`. */
  ghost function ChildrenBounds(anc: Forest, G: Scene, B: map<DisplayObject, Result<Rect>>, n: DisplayObject,
                                i: nat, e: Extent): Result<Extent>
    requires Shaped(anc, G) && B.Keys == G.Keys && n in G && i <= |G[n].children|
    decreases |G.Keys| - |anc[n]|, 0, |G[n].children| - i, 1
  {
    if i == |G[n].children| then Ok(e)
    else
      var wider := IncludeSubtree(anc, G, B, n, i, e);
      if wider.Fail? then wider else ChildrenBounds(anc, G, B, n, i + 1, wider.value)
  }

  /** One turn of that loop: the edges `e` widened by what GetBoundsWithChildren gives for n's i-th child. */
  ghost function IncludeSubtree(anc: Forest, G: Scene, B: map<DisplayObject, Result<Rect>>, n: DisplayObject,
                                i: nat, e: Extent): Result<Extent>
    requires Shaped(anc, G) && B.Keys == G.Keys && n in G && i < |G[n].children|
    decreases |G.Keys| - |anc[n]|, 0, |G[n].children| - i, 0
  {
    var c := G[n].children[i];
    ChildIsDeeper(anc, G, n, c);
    var b := SubtreeBounds(anc, G, B, c);
    if b.Fail? then Fail(b.error) else Ok(Include(e, b.value))
  }

  /** SubtreeBounds once the object's own bounds are known. */
  lemma SubtreeBoundsOk(anc: Forest, G: Scene, B: map<DisplayObject, Result<Rect>>, n: DisplayObject)
    requires Shaped(anc, G) && B.Keys == G.Keys && n in G && B[n].Ok?
    ensures var all := ChildrenBounds(anc, G, B, n, 0, ExtentOf(B[n].value));
            SubtreeBounds(anc, G, B, n) == if all.Fail? then Fail(all.error) else Ok(all.value.ToRect())
  {
  }

  /**
   * The loop over the children only widens the edges, and the edges it
   * ends with hold what it gives for every child it passes.
   */
  lemma {:induction false} ChildrenBoundsHold(anc: Forest, G: Scene, B: map<DisplayObject, Result<Rect>>,
                                              n: DisplayObject, i: nat, e: Extent)
    requires Shaped(anc, G) && B.Keys == G.Keys && n in G && i <= |G[n].children|
    requires ChildrenBounds(anc, G, B, n, i, e).Ok?
    ensures var f := ChildrenBounds(anc, G, B, n, i, e).value;
            && (forall q :: e.Holds(q) ==> f.Holds(q))
            && forall k :: i <= k < |G[n].children| ==>
                 && G[n].children[k] in G
                 && SubtreeBounds(anc, G, B, G[n].children[k]).Ok?
                 && f.Holds(SubtreeBounds(anc, G, B, G[n].children[k]).value)
    decreases |G[n].children| - i
  {
    if i < |G[n].children| {
      ChildIsDeeper(anc, G, n, G[n].children[i]);
      ChildrenBoundsHold(anc, G, B, n, i + 1, IncludeSubtree(anc, G, B, n, i, e).value);
    }
  }

  /**
   * GetBoundsWithChildren's rectangle holds the object's own bounds and what
   * GetBoundsWithChildren gives for each of its children.
   */
  lemma SubtreeBoundsHold(anc: Forest, G: Scene, B: map<DisplayObject, Result<Rect>>, n: DisplayObject)
    requires Shaped(anc, G) && B.Keys == G.Keys && n in G
    requires SubtreeBounds(anc, G, B, n).Ok?
    ensures var r := SubtreeBounds(anc, G, B, n).value;
            && B[n].Ok? && r.Contains(B[n].value)
            && forall c :: c in G[n].children ==>
                 SubtreeBounds(anc, G, B, c).Ok? && r.Contains(SubtreeBounds(anc, G, B, c).value)
  {
    var kids := G[n].children;
    ChildrenBoundsHold(anc, G, B, n, 0, ExtentOf(B[n].value));
    forall c | c in kids
      ensures SubtreeBounds(anc, G, B, c).Ok?
    {
      var k :| 0 <= k < |kids| && kids[k] == c;
    }
  }

  /**
   * What the hit test depends on beyond the scene: which objects belong to a
   * class that overrides HitTest, what such an override gives for a point in
   * the object's own space, and Matrix2D.TransformPoint, given the matrix as
   * the word of local matrices it multiplies out.
   */
  datatype HitDispatch = HitDispatch(overrides: DisplayObject -> bool,
                                     ownHit: (DisplayObject, Point) -> DisplayObject?,
                                     transformPoint: (seq<Factor>, Point) -> Point)

  /**
   * What HitTest gives for n at the point p of n's own space: nothing for an
   * invisible object, otherwise the first hit among its children tried from
   * the last (frontmost) to the first.
   */
  ghost function HitOf(anc: Forest, G: Scene, T: map<DisplayObject, Transform>, n: DisplayObject, p: Point,
                       d: HitDispatch): DisplayObject?
    requires Shaped(anc, G) && T.Keys == G.Keys && n in G
    decreases |G.Keys| - |anc[n]|, 1, 0
  {
    Ancestry.ChainFits(anc, n);
    if !G[n].visible then null else HitAmong(anc, G, T, n, p, d, |G[n].children|)
  }

  /** The loop of HitTest over n's first i children, from the i-th back to the first. */
  ghost function HitAmong(anc: Forest, G: Scene, T: map<DisplayObject, Transform>, n: DisplayObject, p: Point,
                          d: HitDispatch, i: nat): DisplayObject?
    requires Shaped(anc, G) && T.Keys == G.Keys && n in G && i <= |G[n].children|
    decreases |G.Keys| - |anc[n]|, 0, i, 1
  {
    if i == 0 then null
    else
      var t := ChildHit(anc, G, T, n, p, d, i - 1);
      if t != null then t else HitAmong(anc, G, T, n, p, d, i - 1)
  }

  /**
   * One turn of that loop: nothing for an invisible child; otherwise the point
   * taken into the child's space by the inverse of its matrix, and the child's
   * HitTest there, its class's override or the base one.
   */
  ghost function ChildHit(anc: Forest, G: Scene, T: map<DisplayObject, Transform>, n: DisplayObject, p: Point,
                          d: HitDispatch, k: nat): DisplayObject?
    requires Shaped(anc, G) && T.Keys == G.Keys && n in G && k < |G[n].children|
    decreases |G.Keys| - |anc[n]|, 0, k + 1, 0
  {
    var c := G[n].children[k];
    ChildIsDeeper(anc, G, n, c);
    if !G[c].visible then null
    else
      var q := d.transformPoint(Word(Inverse(Local(T[c]))), p);
      if d.overrides(c) then d.ownHit(c, q) else HitOf(anc, G, T, c, q, d)
  }

  /** The frontmost hit of a back-to-front list of hits: its last entry that is not null, or null. */
  function LastHit(hits: seq<DisplayObject?>): DisplayObject?
  {
    if hits == [] then null
    else if hits[|hits| - 1] != null then hits[|hits| - 1]
    else LastHit(hits[..|hits| - 1])
  }

  /**
   * LastHit is null exactly when every entry is, and otherwise is an entry
   * with only nulls in front of it.
   */
  lemma {:induction false} LastHitIsFrontmost(hits: seq<DisplayObject?>)
    ensures LastHit(hits) == null <==> forall k :: 0 <= k < |hits| ==> hits[k] == null
    ensures LastHit(hits) != null ==>
      exists k :: 0 <= k < |hits| && LastHit(hits) == hits[k] && forall j :: k < j < |hits| ==> hits[j] == null
  {
    if hits != [] {
      var last := |hits| - 1;
      if hits[last] != null {
        assert LastHit(hits) == hits[last];
      } else {
        var front := hits[..last];
        LastHitIsFrontmost(front);
        assert LastHit(hits) == LastHit(front);
        if LastHit(front) != null {
          var k :| 0 <= k < last && LastHit(front) == front[k] && forall j :: k < j < last ==> front[j] == null;
          assert front[k] == hits[k];
          forall j | k < j < |hits|
            ensures hits[j] == null
          {
            if j < last {
              assert hits[j] == front[j];
            }
          }
        } else {
          forall k | 0 <= k < |hits|
            ensures hits[k] == null
          {
            if k < last {
              assert hits[k] == front[k];
            }
          }
        }
      }
    }
  }

  /** What each of n's first i children gives in HitTest's loop, back to front. */
  ghost function ChildHits(anc: Forest, G: Scene, T: map<DisplayObject, Transform>, n: DisplayObject, p: Point,
                           d: HitDispatch, i: nat): (hits: seq<DisplayObject?>)
    requires Shaped(anc, G) && T.Keys == G.Keys && n in G && i <= |G[n].children|
    ensures |hits| == i && forall k :: 0 <= k < i ==> hits[k] == ChildHit(anc, G, T, n, p, d, k)
  {
    if i == 0 then [] else ChildHits(anc, G, T, n, p, d, i - 1) + [ChildHit(anc, G, T, n, p, d, i - 1)]
  }

  /** The loop of HitTest stops at the frontmost child that has a hit. */
  lemma {:induction false} HitAmongIsLastHit(anc: Forest, G: Scene, T: map<DisplayObject, Transform>, n: DisplayObject,
                                             p: Point, d: HitDispatch, i: nat)
    requires Shaped(anc, G) && T.Keys == G.Keys && n in G && i <= |G[n].children|
    ensures HitAmong(anc, G, T, n, p, d, i) == LastHit(ChildHits(anc, G, T, n, p, d, i))
    decreases i
  {
    if i > 0 {
      HitAmongIsLastHit(anc, G, T, n, p, d, i - 1);
      var hits := ChildHits(anc, G, T, n, p, d, i);
      assert hits[..i - 1] == ChildHits(anc, G, T, n, p, d, i - 1);
    }
  }

  /**
   * HitTest hits nothing on an invisible object; on a visible one it hits
   * something exactly when one of the children does, and then gives the hit
   * of a child in front of which no child has one.
   */
  lemma HitTestIsFrontmost(anc: Forest, G: Scene, T: map<DisplayObject, Transform>, n: DisplayObject, p: Point,
                           d: HitDispatch)
    requires Shaped(anc, G) && T.Keys == G.Keys && n in G
    ensures var hits := ChildHits(anc, G, T, n, p, d, |G[n].children|);
            && (HitOf(anc, G, T, n, p, d) != null <==> G[n].visible && exists k :: 0 <= k < |hits| && hits[k] != null)
            && (HitOf(anc, G, T, n, p, d) != null ==>
                  exists k :: 0 <= k < |hits| && HitOf(anc, G, T, n, p, d) == hits[k]
                              && forall j :: k < j < |hits| ==> hits[j] == null)
  {
    var hits := ChildHits(anc, G, T, n, p, d, |G[n].children|);
    HitAmongIsLastHit(anc, G, T, n, p, d, |G[n].children|);
    LastHitIsFrontmost(hits);
  }

  /**
   * The base class alone hits nothing: it only searches the children, so
   * without an override anywhere every search comes back empty.
   */
  lemma {:induction false} NoOverrideNoHit(anc: Forest, G: Scene, T: map<DisplayObject, Transform>, n: DisplayObject,
                                           p: Point, d: HitDispatch)
    requires Shaped(anc, G) && T.Keys == G.Keys && n in G
    requires forall m :: !d.overrides(m)
    ensures HitOf(anc, G, T, n, p, d) == null
    decreases |G.Keys| - |anc[n]|, 1
  {
    Ancestry.ChainFits(anc, n);
    if G[n].visible {
      NoOverrideNoHitAmong(anc, G, T, n, p, d, |G[n].children|);
    }
  }

  lemma {:induction false} NoOverrideNoHitAmong(anc: Forest, G: Scene, T: map<DisplayObject, Transform>, n: DisplayObject,
                                                p: Point, d: HitDispatch, i: nat)
    requires Shaped(anc, G) && T.Keys == G.Keys && n in G && i <= |G[n].children|
    requires forall m :: !d.overrides(m)
    requires |anc[n]| < |G.Keys|
    ensures HitAmong(anc, G, T, n, p, d, i) == null
    decreases |G.Keys| - |anc[n]|, 0, i
  {
    if i > 0 {
      var c := G[n].children[i - 1];
      ChildIsDeeper(anc, G, n, c);
      if G[c].visible {
        NoOverrideNoHit(anc, G, T, c, d.transformPoint(Word(Inverse(Local(T[c]))), p), d);
      }
      NoOverrideNoHitAmong(anc, G, T, n, p, d, i - 1);
    }
  }

  class DisplayObject {
    var visible: bool
    /** The scale, rotation, position and pivot properties. */
    var transform: Transform
    var originalWidth: real
    var originalHeight: real
    /** The GPU resource set; objects showing the same image share one. */
    var resSet: ResourceSet?
    var renderState: RenderState
    var tint: Color
    /** The cached matrix and whether it is stale. */
    var transformationMatrix: Matrix
    var matrixChanged: bool
    var isOnStage: bool
    /** The AddedToStage/RemovedFromStage notifications fired, oldest first. */
    var stageLog: seq<StageChange>
    var parent: DisplayObject?
    var children: seq<DisplayObject>

    /**
     * A new object of the given size and image, not yet in any tree. (The
     * size and resource set are what the concrete subclasses set up.)
     */
    constructor (ctx: DisplayContext, width: real, height: real, resources: ResourceSet?)
      requires ctx.Valid()
      modifies ctx`nodes, ctx`ancestors
      ensures ctx.Valid() && ctx.nodes == old(ctx.nodes) + {this} && this !in old(ctx.nodes)
      ensures ctx.ancestors == old(ctx.ancestors)[this := []]
      ensures old(ctx.Caches()) ==> ctx.Caches()
      ensures visible && transform == Transform(1.0, 1.0, 0.0, 0.0, 0.0, 0.0, 0.0)
      ensures originalWidth == width && originalHeight == height && resSet == resources
      ensures tint == White && matrixChanged && !isOnStage && stageLog == []
      ensures parent == null && children == []
      ensures CacheOk() && StageLogAgrees(stageLog, isOnStage)
    {
      visible := true;
      transform := Transform(1.0, 1.0, 0.0, 0.0, 0.0, 0.0, 0.0);
      originalWidth, originalHeight := width, height;
      resSet := resources;
      renderState := Fresh;
      tint := White;
      transformationMatrix := Identity;
      matrixChanged := true;
      isOnStage := false;
      stageLog := [];
      parent := null;
      children := [];
      new;
      ctx.nodes := ctx.nodes + {this};
      ctx.ancestors := ctx.ancestors[this := []];
      AddRootKeepsValid(ctx, this);
    }

    /** Registering a new, unlinked object keeps the scene graph a forest. */
    static twostate lemma AddRootKeepsValid(ctx: DisplayContext, new o: DisplayObject)
      requires old(ctx.Valid()) && o !in old(ctx.nodes) && ctx.nodes == old(ctx.nodes) + {o}
      requires ctx.ancestors == old(ctx.ancestors)[o := []] && ctx.commonParentHelper == []
      requires o.parent == null && o.children == []
      requires forall m :: m in old(ctx.nodes) ==> m.parent == old(m.parent) && m.children == old(m.children)
      ensures ctx.Valid()
    {
      Ancestry.AddRoot(old(ctx.ancestors), o);
      forall n | n in ctx.nodes
        ensures ctx.Linked(n)
      {
        if n != o {
          assert old(ctx.Linked(n));
        }
      }
    }

    /** The matrix this object's transform describes. */
    function LocalMatrix(): Matrix
      reads this`transform
    {
      Local(transform)
    }

    /** The cache holds the current matrix unless it is marked stale. */
    ghost predicate CacheOk()
      reads this`matrixChanged, this`transformationMatrix
      reads this`transform
    {
      !matrixChanged ==> transformationMatrix == LocalMatrix()
    }

    /**
     * The IsOnStage setter: a change of value fires AddedToStage or
     * RemovedFromStage; assigning the current value fires nothing.
     */
    method SetIsOnStage(value: bool)
      modifies this`isOnStage, this`stageLog
      ensures isOnStage == value
      ensures stageLog == old(stageLog) + if value == old(isOnStage) then []
                                          else if value then [AddedToStage] else [RemovedFromStage]
      ensures old(StageLogAgrees(stageLog, isOnStage)) ==> StageLogAgrees(stageLog, isOnStage)
    {
      if value != isOnStage {
        isOnStage := value;
        if value {
          stageLog := stageLog + [AddedToStage];
        } else {
          stageLog := stageLog + [RemovedFromStage];
        }
      }
    }

    /** The X setter; the other transform setters below follow the same pattern. */
    method SetX(value: real)
      modifies this`transform, this`matrixChanged
      ensures transform == old(transform).(x := value)
      ensures matrixChanged == (old(matrixChanged) || value != old(transform.x))
      ensures old(CacheOk()) ==> CacheOk()
    {
      if value == transform.x {
        return;
      }
      matrixChanged := true;
      transform := transform.(x := value);
    }

    method SetY(value: real)
      modifies this`transform, this`matrixChanged
      ensures transform == old(transform).(y := value)
      ensures matrixChanged == (old(matrixChanged) || value != old(transform.y))
      ensures old(CacheOk()) ==> CacheOk()
    {
      if value == transform.y {
        return;
      }
      matrixChanged := true;
      transform := transform.(y := value);
    }

    method SetScaleX(value: real)
      modifies this`transform, this`matrixChanged
      ensures transform == old(transform).(scaleX := value)
      ensures matrixChanged == (old(matrixChanged) || value != old(transform.scaleX))
      ensures old(CacheOk()) ==> CacheOk()
    {
      if value == transform.scaleX {
        return;
      }
      matrixChanged := true;
      transform := transform.(scaleX := value);
    }

    method SetScaleY(value: real)
      modifies this`transform, this`matrixChanged
      ensures transform == old(transform).(scaleY := value)
      ensures matrixChanged == (old(matrixChanged) || value != old(transform.scaleY))
      ensures old(CacheOk()) ==> CacheOk()
    {
      if value == transform.scaleY {
        return;
      }
      matrixChanged := true;
      transform := transform.(scaleY := value);
    }

    method SetPivotX(value: real)
      modifies this`transform, this`matrixChanged
      ensures transform == old(transform).(pivotX := value)
      ensures matrixChanged == (old(matrixChanged) || value != old(transform.pivotX))
      ensures old(CacheOk()) ==> CacheOk()
    {
      if value == transform.pivotX {
        return;
      }
      matrixChanged := true;
      transform := transform.(pivotX := value);
    }

    method SetPivotY(value: real)
      modifies this`transform, this`matrixChanged
      ensures transform == old(transform).(pivotY := value)
      ensures matrixChanged == (old(matrixChanged) || value != old(transform.pivotY))
      ensures old(CacheOk()) ==> CacheOk()
    {
      if value == transform.pivotY {
        return;
      }
      matrixChanged := true;
      transform := transform.(pivotY := value);
    }

    /**
     * The Rotation setter. The equality test is made against the value as
     * given, before it is normalised.
     */
    method SetRotation(value: real)
      modifies this`transform, this`matrixChanged
      ensures value == old(transform.rotation) ==> transform == old(transform) && matrixChanged == old(matrixChanged)
      ensures value != old(transform.rotation) ==>
        transform == old(transform).(rotation := NormalizeRotation(value)) && matrixChanged
      ensures old(CacheOk()) ==> CacheOk()
    {
      if value == transform.rotation {
        return;
      }
      var v := NormalizeRotation(value);
      matrixChanged := true;
      transform := transform.(rotation := v);
    }

    /**
     * The TransformationMatrix getter: rebuilds the cache when it is stale,
     * and returns the cached matrix.
     */
    method TransformationMatrix() returns (m: Matrix)
      requires CacheOk()
      modifies this`transformationMatrix, this`matrixChanged
      ensures m == LocalMatrix() && m == transformationMatrix && !matrixChanged
      ensures !old(matrixChanged) ==> transformationMatrix == old(transformationMatrix)
      ensures CacheOk()
    {
      if !matrixChanged {
        return transformationMatrix;
      }
      transformationMatrix := LocalMatrix();
      matrixChanged := false;
      m := transformationMatrix;
    }

    /**
     * GetGpuVertex: the vertex record of the object's last render state, its
     * size scaled by that state's scale and tinted with the object's tint.
     */
    function GpuVertex(): QuadVertex
      reads this`renderState, this`originalWidth, this`originalHeight, this`tint
    {
      QuadVertex(renderState.transforms, originalWidth * renderState.scaleX, originalHeight * renderState.scaleY, tint)
    }

    /**
     * TransformationMatrix read during a traversal: gives this object's local
     * matrix and leaves every cache, transform and shape as it was valid.
     */
    method CurrentMatrix(ctx: DisplayContext, ghost T: map<DisplayObject, Transform>, ghost G: Scene)
      returns (m: Matrix)
      requires ctx.Caches() && Snapshot(ctx, T) && Pictured(ctx, G) && this in ctx.nodes
      modifies this`transformationMatrix, this`matrixChanged
      ensures ctx.Caches() && Snapshot(ctx, T) && Pictured(ctx, G)
      ensures m == Local(T[this])
    {
      m := TransformationMatrix();
    }

    /**
     * Detaches `child`: removes its first occurrence from the child list and
     * leaves it without a parent and off stage, its own subtree intact. The
     * child must be this object's child or have no parent at all.
     */
    method RemoveChild(ctx: DisplayContext, child: DisplayObject)
      requires ctx.Valid() && this in ctx.nodes && child in ctx.nodes
      requires child.parent == this || child.parent == null
      modifies this`children, child`parent, child`isOnStage, child`stageLog, ctx`ancestors
      ensures ctx.Valid()
      ensures children == RemoveFirst(old(children), child)
      ensures child.parent == null && !child.isOnStage
      ensures child.stageLog == old(child.stageLog) + if old(child.isOnStage) then [RemovedFromStage] else []
      ensures ctx.ancestors == Ancestry.Reanchored(old(ctx.ancestors), child, [])
    {
      ghost var anc: map<DisplayObject, seq<DisplayObject>> := ctx.ancestors;
      children := RemoveFirst(children, child);
      child.SetIsOnStage(false);
      child.parent := null;
      ctx.ancestors := Ancestry.Reanchored(anc, child, []);
      RemoveChildKeepsValid(ctx, child, anc);
    }

    /** RemoveChild leaves the scene graph a forest. */
    twostate lemma RemoveChildKeepsValid(ctx: DisplayContext, new child: DisplayObject,
                                         new anc: map<DisplayObject, seq<DisplayObject>>)
      requires old(ctx.Valid()) && ctx.nodes == old(ctx.nodes) && anc == old(ctx.ancestors)
      requires this in ctx.nodes && child in ctx.nodes
      requires old(child.parent) == this || old(child.parent) == null
      requires ctx.ancestors == Ancestry.Reanchored(anc, child, []) && ctx.commonParentHelper == []
      requires child.parent == null
      requires children == RemoveFirst(old(children), child)
      requires forall m :: m in ctx.nodes && m != child ==> m.parent == old(m.parent)
      requires forall m :: m in ctx.nodes && m != this ==> m.children == old(m.children)
      ensures ctx.Valid()
    {
      assert old(ctx.Linked(child)) && old(ctx.Linked(this));
      if old(child.parent) == this {
        Ancestry.ReanchorConsistent(anc, child, []);
      } else {
        Ancestry.ReanchorRootUnchanged(anc, child);
      }
      RemoveFirstMembers(old(children), child);
      RemoveFirstNoDuplicates(old(children), child);
      assert child !in children by {
        if old(child.parent) == null {
          assert child !in old(children);
        }
      }
      forall n | n in ctx.nodes
        ensures ctx.Linked(n)
      {
        assert old(ctx.Linked(n));
        if n != child {
          Ancestry.ReanchorKeepsParent(anc, child, [], n);
          if n.parent != null {
            assert old(ctx.Linked(n.parent));
          }
        } else {
          assert Ancestry.Reanchored(anc, child, [])[child] == [] by {
            assert Ancestry.Upto(Ancestry.Chain(anc, child), child) == [child];
          }
        }
        forall c | c in n.children
          ensures c in ctx.nodes && c.parent == n
        {
          assert c in old(n.children);
          assert c != child;
        }
      }
    }

    /**
     * Appends child to this object's children, first detaching it from its
     * old parent (which may be this object). The child goes on stage when
     * this object is on stage; it is never taken off stage otherwise unless
     * it was detached.
     */
    method AddChild(ctx: DisplayContext, child: DisplayObject)
      requires ctx.Valid() && this in ctx.nodes && child in ctx.nodes
      requires child !in ctx.Chain(this)
      modifies this`children, child`parent, child`isOnStage, child`stageLog, ctx`ancestors
      modifies (if child.parent == null then {} else {child.parent})`children
      ensures ctx.Valid() && child.parent == this
      ensures children == (if old(child.parent) == this then RemoveFirst(old(children), child)
                           else old(children)) + [child]
      ensures old(child.parent) != null && old(child.parent) != this ==>
        old(child.parent).children == RemoveFirst(old(child.parent.children), child)
      ensures child.isOnStage == (isOnStage || (old(child.parent) == null && old(child.isOnStage)))
      ensures child.stageLog == old(child.stageLog)
        + (if old(child.parent) != null && old(child.isOnStage) then [RemovedFromStage] else [])
        + (if isOnStage && !(old(child.parent) == null && old(child.isOnStage)) then [AddedToStage] else [])
      ensures ctx.ancestors == Ancestry.Reanchored(old(ctx.ancestors), child, old(ctx.Chain(this)))
    {
      ghost var anc: map<DisplayObject, seq<DisplayObject>> := ctx.ancestors;
      if child.parent != null {
        child.RemoveFromParent(ctx);
      }
      AttachAncestors(anc, child, this, ctx.ancestors);
      Attach(ctx, child);
    }

    /** The second half of AddChild: appends a child that has no parent. */
    method Attach(ctx: DisplayContext, child: DisplayObject)
      requires ctx.Valid() && this in ctx.nodes && child in ctx.nodes
      requires child.parent == null && child !in ctx.Chain(this)
      modifies this`children, child`parent, child`isOnStage, child`stageLog, ctx`ancestors
      ensures ctx.Valid() && child.parent == this && children == old(children) + [child]
      ensures child.isOnStage == (isOnStage || old(child.isOnStage))
      ensures child.stageLog == old(child.stageLog)
        + (if isOnStage && !old(child.isOnStage) then [AddedToStage] else [])
      ensures ctx.ancestors == Ancestry.Reanchored(old(ctx.ancestors), child, old(ctx.Chain(this)))
    {
      ghost var tail := ctx.Chain(this);
      children := children + [child];
      if isOnStage {
        child.SetIsOnStage(true);
      }
      child.parent := this;
      ctx.ancestors := Ancestry.Reanchored(ctx.ancestors, child, tail);
      AddChildKeepsValid(ctx, child, tail);
    }

    /**
     * Whether or not c was detached first, hanging it under p's chain gives
     * the same ancestor lists.
     */
    static lemma AttachAncestors(anc: map<DisplayObject, seq<DisplayObject>>, c: DisplayObject,
                                 p: DisplayObject, mid: map<DisplayObject, seq<DisplayObject>>)
      requires Ancestry.Consistent(anc) && c in anc && p in anc && c !in Ancestry.Chain(anc, p)
      requires mid == anc || mid == Ancestry.Reanchored(anc, c, [])
      ensures p in mid && Ancestry.Chain(mid, p) == Ancestry.Chain(anc, p)
      ensures Ancestry.Reanchored(mid, c, Ancestry.Chain(anc, p)) == Ancestry.Reanchored(anc, c, Ancestry.Chain(anc, p))
    {
      Ancestry.DetachKeepsChain(anc, c, p);
      Ancestry.DetachThenAttach(anc, c, Ancestry.Chain(anc, p));
    }

    /** Appending a parentless child to this object keeps the scene graph a forest. */
    twostate lemma AddChildKeepsValid(ctx: DisplayContext, new child: DisplayObject, new tail: seq<DisplayObject>)
      requires old(ctx.Valid()) && ctx.nodes == old(ctx.nodes) && this in ctx.nodes && child in ctx.nodes
      requires old(child.parent) == null && tail == old(ctx.Chain(this)) && child !in tail
      requires ctx.ancestors == Ancestry.Reanchored(old(ctx.ancestors), child, tail)
      requires ctx.commonParentHelper == []
      requires child.parent == this && children == old(children) + [child]
      requires forall m :: m in ctx.nodes && m != child ==> m.parent == old(m.parent)
      requires forall m :: m in ctx.nodes && m != this ==> m.children == old(m.children)
      ensures ctx.Valid()
    {
      ghost var mid: map<DisplayObject, seq<DisplayObject>> := old(ctx.ancestors);
      Ancestry.ReanchorConsistent(mid, child, tail);
      assert old(ctx.Linked(child)) && old(ctx.Linked(this));
      assert child !in old(children);
      forall n | n in ctx.nodes
        ensures ctx.Linked(n)
      {
        assert old(ctx.Linked(n));
        if n != child {
          Ancestry.ReanchorKeepsParent(mid, child, tail, n);
          if n.parent != null {
            assert old(ctx.Linked(n.parent));
          }
        }
        forall c | c in n.children
          ensures c in ctx.nodes && c.parent == n
        {
          if c != child {
            assert c in old(n.children);
          }
        }
      }
    }

    /** Detaches this object from its parent, if it has one; otherwise does nothing. */
    method RemoveFromParent(ctx: DisplayContext)
      requires ctx.Valid() && this in ctx.nodes
      modifies this`parent, this`isOnStage, this`stageLog
      modifies (if parent == null then {} else {parent})`children, ctx`ancestors
      ensures ctx.Valid() && parent == null
      ensures old(parent) == null ==>
        isOnStage == old(isOnStage) && stageLog == old(stageLog) && ctx.ancestors == old(ctx.ancestors)
      ensures old(parent) != null ==>
        && old(parent).children == RemoveFirst(old(parent.children), this)
        && !isOnStage
        && stageLog == old(stageLog) + (if old(isOnStage) then [RemovedFromStage] else [])
        && ctx.ancestors == Ancestry.Reanchored(old(ctx.ancestors), this, [])
    {
      if parent != null {
        assert ctx.Linked(this);
        parent.RemoveChild(ctx, this);
        parent := null;
        SetIsOnStage(false);
      }
    }

    /** The Root getter: follows parent links up to the object that has none. */
    method Root(ctx: DisplayContext) returns (r: DisplayObject)
      requires ctx.Valid() && this in ctx.nodes
      ensures r == Ancestry.Root(ctx.ancestors, this) && r.parent == null
    {
      ChainLinks(ctx, this);
      ghost var c := ctx.Chain(this);
      ghost var i := 0;
      r := this;
      while r.parent != null
        invariant 0 <= i < |c| && r == c[i]
        decreases |c| - i
      {
        r := r.parent;
        i := i + 1;
      }
      assert i == |c| - 1;
    }

    /**
     * FindCommonParent: lists the chain above `a` in the shared helper list,
     * walks up from `b` to the first object on that list, and clears the
     * list again. Fails when the two objects are in different trees.
     */
    static method FindCommonParent(ctx: DisplayContext, a: DisplayObject, b: DisplayObject)
      returns (r: Result<DisplayObject>)
      requires ctx.Valid() && a in ctx.nodes && b in ctx.nodes
      modifies ctx`commonParentHelper
      ensures ctx.Valid()
      ensures r.Ok? <==> Meet(ctx.ancestors, a, b) != []
      ensures r.Ok? ==> r.value == Meet(ctx.ancestors, a, b)[0]
      ensures r.Fail? ==> r.error == NotConnected
    {
      ChainLinks(ctx, b);
      ListChain(ctx, a);
      assert ctx.commonParentHelper == ctx.Chain(a);
      var cur := FirstListed(ctx, b, ctx.Chain(b));
      assert Meet(ctx.ancestors, a, b) == Ancestry.FirstCommon(ctx.commonParentHelper, ctx.Chain(b));
      ctx.commonParentHelper := [];
      if cur != null {
        return Ok(cur);
      }
      return Fail(NotConnected);
    }

    /** The first loop of FindCommonParent: appends `a` and every object above it to the helper list. */
    static method ListChain(ctx: DisplayContext, a: DisplayObject)
      requires ctx.Valid() && a in ctx.nodes
      modifies ctx`commonParentHelper
      ensures ctx.commonParentHelper == old(ctx.commonParentHelper) + ctx.Chain(a)
    {
      ChainLinks(ctx, a);
      ghost var ca := ctx.Chain(a);
      var cur: DisplayObject? := a;
      ghost var i := 0;
      while cur != null
        invariant 0 <= i <= |ca| && (i < |ca| ==> cur == ca[i]) && (i == |ca| ==> cur == null)
        invariant ctx.commonParentHelper == old(ctx.commonParentHelper) + ca[..i]
        decreases |ca| - i
      {
        ctx.commonParentHelper := ctx.commonParentHelper + [cur];
        cur := cur.parent;
        i := i + 1;
      }
      assert ca[..i] == ca;
    }

    /**
     * The second loop of FindCommonParent: walks up from `b` (whose chain is
     * `cb`) to the first object on the helper list, or to null.
     */
    static method FirstListed(ctx: DisplayContext, b: DisplayObject, ghost cb: seq<DisplayObject>)
      returns (cur: DisplayObject?)
      requires cb != [] && cb[0] == b && cb[|cb| - 1].parent == null
      requires forall k {:trigger cb[k].parent} :: 0 <= k < |cb| - 1 ==> cb[k].parent == cb[k + 1]
      ensures var f := Ancestry.FirstCommon(ctx.commonParentHelper, cb);
              if f == [] then cur == null else cur == f[0]
    {
      ghost var listed := ctx.commonParentHelper;
      cur := b;
      ghost var j := 0;
      while cur != null && cur !in ctx.commonParentHelper
        invariant 0 <= j <= |cb| && (j < |cb| ==> cur == cb[j]) && (j == |cb| ==> cur == null)
        invariant Ancestry.FirstCommon(listed, cb) == Ancestry.FirstCommon(listed, cb[j..])
        decreases |cb| - j
      {
        Ancestry.FirstCommonSkip(listed, cb, j);
        cur := cur.parent;
        j := j + 1;
      }
    }

    /**
     * GetTransformationMatrix: the matrix from this object's space into the
     * target's (null: the space above this object's root), by the source's
     * five cases: the target itself, the parent (or no parent and no
     * target), the root or no target, a child, and any other object through
     * FindCommonParent. Fails when the two objects are in different trees.
     * (T stands for the transform properties of the registered objects.)
     */
    method GetTransformationMatrix(ctx: DisplayContext, target: DisplayObject?, ghost T: map<DisplayObject, Transform>)
      returns (r: Result<Matrix>)
      requires ctx.Valid() && ctx.Caches() && Snapshot(ctx, T)
      requires this in ctx.nodes && (target == null || target in ctx.nodes)
      modifies ctx`commonParentHelper, ctx.nodes`matrixChanged, ctx.nodes`transformationMatrix
      ensures ctx.Valid() && ctx.Caches() && Snapshot(ctx, T)
      ensures r.Ok? <==> Connected(ctx.ancestors, this, target)
      ensures r.Ok? ==> Word(r.value) == Transformation(ctx.ancestors, T, this, target)
      ensures r.Fail? ==> r.error == NotConnected
      decreases if target != null && target.parent == this then 1 else 0, 2
    {
      if target == this {
        TransformUpTo(ctx.ancestors, T, this, this);
        return Ok(Identity);
      }
      if target == parent || (target == null && parent == null) {
        TransformToParent(ctx, T, this);
        var m := TransformationMatrix();
        return Ok(m);
      }
      r := BeyondParent(ctx, target, T);
    }

    /**
     * The cases of GetTransformationMatrix past the parent: the root (or no
     * target) by a walk up, then the rest.
     */
    method BeyondParent(ctx: DisplayContext, target: DisplayObject?, ghost T: map<DisplayObject, Transform>)
      returns (r: Result<Matrix>)
      requires ctx.Valid() && ctx.Caches() && Snapshot(ctx, T)
      requires this in ctx.nodes && (target == null || target in ctx.nodes) && target != this
      modifies ctx`commonParentHelper, ctx.nodes`matrixChanged, ctx.nodes`transformationMatrix
      ensures ctx.Valid() && ctx.Caches() && Snapshot(ctx, T)
      ensures r.Ok? <==> Connected(ctx.ancestors, this, target)
      ensures r.Ok? ==> Word(r.value) == Transformation(ctx.ancestors, T, this, target)
      ensures r.Fail? ==> r.error == NotConnected
      decreases if target != null && target.parent == this then 1 else 0, 1
    {
      var toRoot := target == null;
      if !toRoot {
        var root := Root(ctx);
        toRoot := target == root;
        if toRoot {
          Ancestry.RootIsRoot(ctx.ancestors, this);
          TransformUpTo(ctx.ancestors, T, this, root);
        }
      }
      if toRoot {
        var m := WalkUp(ctx, target, T);
        return Ok(m);
      }
      r := ChildOrOther(ctx, target, T);
    }

    /** The last two cases of GetTransformationMatrix: a child, and any other object. */
    method ChildOrOther(ctx: DisplayContext, target: DisplayObject, ghost T: map<DisplayObject, Transform>)
      returns (r: Result<Matrix>)
      requires ctx.Valid() && ctx.Caches() && Snapshot(ctx, T)
      requires this in ctx.nodes && target in ctx.nodes && target != this
      modifies ctx`commonParentHelper, ctx.nodes`matrixChanged, ctx.nodes`transformationMatrix
      ensures ctx.Valid() && ctx.Caches() && Snapshot(ctx, T)
      ensures r.Ok? <==> Connected(ctx.ancestors, this, target)
      ensures r.Ok? ==> Word(r.value) == Transformation(ctx.ancestors, T, this, target)
      ensures r.Fail? ==> r.error == NotConnected
      decreases if target.parent == this then 1 else 0, 0
    {
      if target.parent == this {
        NoTwoCycle(ctx, target);
        assert ctx.Linked(target);
        TransformUpTo(ctx.ancestors, T, target, this);
        var inner := target.GetTransformationMatrix(ctx, this, T);
        InverseTransformation(ctx.ancestors, T, target, this, inner.value);
        return Ok(Inverse(inner.value));
      }
      r := ThroughCommonParent(ctx, target, T);
    }

    /** The last case of GetTransformationMatrix: up to the common parent, then down to the target. */
    method ThroughCommonParent(ctx: DisplayContext, target: DisplayObject, ghost T: map<DisplayObject, Transform>)
      returns (r: Result<Matrix>)
      requires ctx.Valid() && ctx.Caches() && Snapshot(ctx, T)
      requires this in ctx.nodes && target in ctx.nodes
      modifies ctx`commonParentHelper, ctx.nodes`matrixChanged, ctx.nodes`transformationMatrix
      ensures ctx.Valid() && ctx.Caches() && Snapshot(ctx, T)
      ensures r.Ok? <==> Connected(ctx.ancestors, this, target)
      ensures r.Ok? ==> Word(r.value) == Transformation(ctx.ancestors, T, this, target)
      ensures r.Fail? ==> r.error == NotConnected
    {
      var common := FindCommonParent(ctx, this, target);
      if common.Fail? {
        return Fail(NotConnected);
      }
      var m := UpAndDown(ctx, target, common.value, T);
      return Ok(m);
    }

    /**
     * The walks of ThroughCommonParent: up from this object to the common
     * parent, then, unless the target is that parent, the inverse of the
     * walk up from the target.
     */
    method UpAndDown(ctx: DisplayContext, target: DisplayObject, c: DisplayObject, ghost T: map<DisplayObject, Transform>)
      returns (m: Matrix)
      requires ctx.Valid() && ctx.Caches() && Snapshot(ctx, T)
      requires this in ctx.nodes && target in ctx.nodes
      requires Connected(ctx.ancestors, this, target) && c == Meet(ctx.ancestors, this, target)[0]
      modifies ctx.nodes`matrixChanged, ctx.nodes`transformationMatrix
      ensures ctx.Valid() && ctx.Caches() && Snapshot(ctx, T)
      ensures Word(m) == Transformation(ctx.ancestors, T, this, target)
    {
      ghost var up := Forwards(Locals(PathTo(ctx.ancestors, this, c), T));
      ghost var down := Forwards(Locals(PathTo(ctx.ancestors, target, c), T));
      assert Transformation(ctx.ancestors, T, this, target) == up + InvertWord(down);
      m := WalkUp(ctx, c, T);
      if c == target {
        assert PathTo(ctx.ancestors, target, c) == [];
        return;
      }
      var h := target.WalkUp(ctx, c, T);
      UpThenDownIsTransformation(ctx.ancestors, T, this, target, m, h);
      m := Append(m, Inverse(h));
    }

    /**
     * The object's bounds in the target's space (null: above its root). Its
     * own rectangle when the target is the object itself; computed from the
     * transform properties, turned around along a negative scale, when the
     * target is the parent and there is no rotation; otherwise `boundsIn`
     * applied to its own rectangle and the transformation matrix.
     */
    method GetBounds(ctx: DisplayContext, target: DisplayObject?, ghost T: map<DisplayObject, Transform>,
                     ghost G: Scene, boundsIn: (Rect, seq<Factor>) -> Rect) returns (r: Result<Rect>)
      requires ctx.Valid() && ctx.Caches() && Snapshot(ctx, T) && Pictured(ctx, G)
      requires this in ctx.nodes && (target == null || target in ctx.nodes)
      modifies ctx`commonParentHelper, ctx.nodes`matrixChanged, ctx.nodes`transformationMatrix
      ensures ctx.Valid() && ctx.Caches() && Snapshot(ctx, T) && Pictured(ctx, G)
      ensures r == Bounds(ctx.ancestors, T, this, target, originalWidth, originalHeight, boundsIn)
    {
      var own := Rect(0.0, 0.0, originalWidth, originalHeight);
      if target == this {
        return Ok(own);
      }
      assert ctx.Linked(this);
      if target == parent && transform.rotation == 0.0 {
        assert T[this] == transform;
        var out := UnrotatedOwnBounds();
        return Ok(out);
      }
      r := BoundsThroughMatrix(ctx, target, T, G, boundsIn);
    }

    /**
     * The second case of GetBounds: the scaled size at the position less the
     * scaled pivot, turned around along each axis whose scale is negative.
     */
    method UnrotatedOwnBounds() returns (out: Rect)
      ensures out == UnrotatedBounds(transform, originalWidth, originalHeight)
    {
      var t := transform;
      var x, w := AxisOwnBounds(t.x, t.pivotX, t.scaleX, originalWidth);
      var y, h := AxisOwnBounds(t.y, t.pivotY, t.scaleY, originalHeight);
      out := Rect(x, y, w, h);
    }

    /** The last case of GetBounds: `boundsIn` of the own rectangle and the transformation matrix. */
    method BoundsThroughMatrix(ctx: DisplayContext, target: DisplayObject?, ghost T: map<DisplayObject, Transform>,
                               ghost G: Scene, boundsIn: (Rect, seq<Factor>) -> Rect) returns (r: Result<Rect>)
      requires ctx.Valid() && ctx.Caches() && Snapshot(ctx, T) && Pictured(ctx, G)
      requires this in ctx.nodes && (target == null || target in ctx.nodes) && target != this
      requires target != ParentIn(ctx.ancestors, this) || T[this].rotation != 0.0
      modifies ctx`commonParentHelper, ctx.nodes`matrixChanged, ctx.nodes`transformationMatrix
      ensures ctx.Valid() && ctx.Caches() && Snapshot(ctx, T) && Pictured(ctx, G)
      ensures r == Bounds(ctx.ancestors, T, this, target, originalWidth, originalHeight, boundsIn)
    {
      var own := Rect(0.0, 0.0, originalWidth, originalHeight);
      var m := GetTransformationMatrix(ctx, target, T);
      BoundsThroughTransformation(ctx.ancestors, T, this, target, originalWidth, originalHeight, boundsIn);
      if m.Fail? {
        return Fail(m.error);
      }
      return Ok(boundsIn(own, Word(m.value)));
    }

    /**
     * The smallest rectangle, in the target's space, holding this object's
     * bounds and those of its children with theirs, one child after another.
     */
    method GetBoundsWithChildren(ctx: DisplayContext, target: DisplayObject?, ghost anc: Forest,
                                 ghost T: map<DisplayObject, Transform>, ghost G: Scene,
                                 ghost B: map<DisplayObject, Result<Rect>>,
                                 boundsIn: (Rect, seq<Factor>) -> Rect) returns (r: Result<Rect>)
      requires ctx.Valid() && ctx.Caches() && Snapshot(ctx, T) && Pictured(ctx, G)
      requires ctx.ancestors == anc && Shaped(anc, G)
      requires this in G && (target == null || target in G)
      requires AllBounds(anc, T, G, target, boundsIn, B)
      modifies ctx`commonParentHelper, G.Keys`matrixChanged, G.Keys`transformationMatrix
      ensures ctx.Valid() && ctx.Caches() && Snapshot(ctx, T) && Pictured(ctx, G)
      ensures r == SubtreeBounds(anc, G, B, this)
      decreases |G.Keys| - |anc[this]|, 2
    {
      Ancestry.ChainFits(anc, this);
      var own := GetBounds(ctx, target, T, G, boundsIn);
      assert own == B[this];
      if own.Fail? {
        return own;
      }
      SubtreeBoundsOk(anc, G, B, this);
      var e := WidenByChildren(ctx, target, anc, T, G, B, boundsIn, own.value);
      if e.Fail? {
        return Fail(e.error);
      }
      return Ok(e.value.ToRect());
    }

    /**
     * The loop of GetBoundsWithChildren: the edges of `own`, widened child
     * by child by what GetBoundsWithChildren gives for the child.
     */
    method WidenByChildren(ctx: DisplayContext, target: DisplayObject?, ghost anc: Forest,
                           ghost T: map<DisplayObject, Transform>, ghost G: Scene,
                           ghost B: map<DisplayObject, Result<Rect>>,
                           boundsIn: (Rect, seq<Factor>) -> Rect, own: Rect) returns (r: Result<Extent>)
      requires ctx.Valid() && ctx.Caches() && Snapshot(ctx, T) && Pictured(ctx, G)
      requires ctx.ancestors == anc && Shaped(anc, G)
      requires this in G && (target == null || target in G)
      requires AllBounds(anc, T, G, target, boundsIn, B)
      requires |anc[this]| < |G.Keys|
      modifies ctx`commonParentHelper, G.Keys`matrixChanged, G.Keys`transformationMatrix
      ensures ctx.Valid() && ctx.Caches() && Snapshot(ctx, T) && Pictured(ctx, G)
      ensures r == ChildrenBounds(anc, G, B, this, 0, ExtentOf(own))
      decreases |G.Keys| - |anc[this]|, 1
    {
      var e := ExtentOf(own);
      ghost var all := ChildrenBounds(anc, G, B, this, 0, e);
      var i: nat := 0;
      while i < |children|
        invariant i <= |children| && children == G[this].children && B.Keys == G.Keys
        invariant ctx.Valid() && ctx.Caches() && Snapshot(ctx, T) && Pictured(ctx, G)
        invariant ChildrenBounds(anc, G, B, this, i, e) == all
      {
        var wider := IncludeChild(ctx, target, anc, T, G, B, boundsIn, i, e);
        if wider.Fail? {
          return Fail(wider.error);
        }
        e := wider.value;
        i := i + 1;
      }
      return Ok(e);
    }

    /** One turn of GetBoundsWithChildren's loop: widens the edges `e` by the i-th child's bounds with its children. */
    method IncludeChild(ctx: DisplayContext, target: DisplayObject?, ghost anc: Forest,
                        ghost T: map<DisplayObject, Transform>, ghost G: Scene,
                        ghost B: map<DisplayObject, Result<Rect>>,
                        boundsIn: (Rect, seq<Factor>) -> Rect, i: nat, e: Extent) returns (r: Result<Extent>)
      requires ctx.Valid() && ctx.Caches() && Snapshot(ctx, T) && Pictured(ctx, G)
      requires ctx.ancestors == anc && Shaped(anc, G)
      requires this in G && (target == null || target in G)
      requires AllBounds(anc, T, G, target, boundsIn, B)
      requires i < |G[this].children|
      modifies ctx`commonParentHelper, G.Keys`matrixChanged, G.Keys`transformationMatrix
      ensures ctx.Valid() && ctx.Caches() && Snapshot(ctx, T) && Pictured(ctx, G)
      ensures r == IncludeSubtree(anc, G, B, this, i, e)
      decreases |G.Keys| - |anc[this]|, 0
    {
      var child := children[i];
      ChildIsDeeper(anc, G, this, child);
      var b := child.GetBoundsWithChildren(ctx, target, anc, T, G, B, boundsIn);
      if b.Fail? {
        return Fail(b.error);
      }
      return Ok(Include(e, b.value));
    }

    /**
     * HitTest: the object found topmost at p (in this object's space), or
     * null. Tries the children from the last to the first, each at the point
     * taken into its space by the inverse of its TransformationMatrix.
     */
    method HitTest(ctx: DisplayContext, p: Point, ghost anc: Forest, ghost T: map<DisplayObject, Transform>,
                   ghost G: Scene, d: HitDispatch) returns (r: DisplayObject?)
      requires ctx.Caches() && Snapshot(ctx, T) && Pictured(ctx, G) && Shaped(anc, G) && this in G
      modifies G.Keys`matrixChanged, G.Keys`transformationMatrix
      ensures ctx.Caches() && Snapshot(ctx, T) && Pictured(ctx, G)
      ensures r == HitOf(anc, G, T, this, p, d)
      decreases |G.Keys| - |anc[this]|, 1
    {
      if !visible {
        return null;
      }
      Ancestry.ChainFits(anc, this);
      var i := |children| - 1;
      while i >= 0
        invariant -1 <= i < |children| && children == G[this].children
        invariant ctx.Caches() && Snapshot(ctx, T) && Pictured(ctx, G)
        invariant HitAmong(anc, G, T, this, p, d, i + 1) == HitOf(anc, G, T, this, p, d)
      {
        var target := HitChild(ctx, p, anc, T, G, d, i);
        if target != null {
          return target;
        }
        i := i - 1;
      }
      return null;
    }

    /** One turn of HitTest's loop: the k-th child's hit, if it is visible. */
    method HitChild(ctx: DisplayContext, p: Point, ghost anc: Forest, ghost T: map<DisplayObject, Transform>,
                    ghost G: Scene, d: HitDispatch, k: nat) returns (t: DisplayObject?)
      requires ctx.Caches() && Snapshot(ctx, T) && Pictured(ctx, G) && Shaped(anc, G) && this in G
      requires k < |G[this].children|
      modifies G.Keys`matrixChanged, G.Keys`transformationMatrix
      ensures ctx.Caches() && Snapshot(ctx, T) && Pictured(ctx, G)
      ensures t == ChildHit(anc, G, T, this, p, d, k)
      decreases |G.Keys| - |anc[this]|, 0
    {
      var child := children[k];
      ChildIsDeeper(anc, G, this, child);
      if !child.visible {
        return null;
      }
      var tm := child.CurrentMatrix(ctx, T, G);
      var q := d.transformPoint(Word(Inverse(tm)), p);
      if d.overrides(child) {
        t := d.ownHit(child, q);
      } else {
        t := child.HitTest(ctx, q, anc, T, G, d);
      }
    }

    /**
     * The walk of GetTransformationMatrix up from this object to `to`
     * (exclusive; null walks the whole chain), appending each object's
     * TransformationMatrix to a matrix that starts as the identity.
     */
    method WalkUp(ctx: DisplayContext, to: DisplayObject?, ghost T: map<DisplayObject, Transform>) returns (m: Matrix)
      requires ctx.Valid() && ctx.Caches() && Snapshot(ctx, T) && this in ctx.nodes
      requires to == null || to in ctx.Chain(this)
      modifies ctx.nodes`matrixChanged, ctx.nodes`transformationMatrix
      ensures ctx.Valid() && ctx.Caches() && Snapshot(ctx, T)
      ensures m == AppendAll(Identity, Locals(PathTo(ctx.ancestors, this, to), T))
      ensures Word(m) == Forwards(Locals(PathTo(ctx.ancestors, this, to), T))
    {
      PathLinks(ctx, this, to);
      m := Walk(ctx.nodes, this, to, PathTo(ctx.ancestors, this, to), T);
      WordOfAppendAll(Identity, Locals(PathTo(ctx.ancestors, this, to), T));
    }

    /** The loop of WalkUp, over the objects it passes. */
    static method Walk(ghost nodes: set<DisplayObject>, from: DisplayObject, to: DisplayObject?,
                       ghost path: seq<DisplayObject>, ghost T: map<DisplayObject, Transform>)
      returns (m: Matrix)
      requires forall n :: n in nodes ==> n.CacheOk()
      requires forall k :: 0 <= k < |path| ==> path[k] in nodes
      requires if path == [] then from == to else from == path[0]
      requires forall k {:trigger path[k].parent} :: 0 <= k < |path| ==>
        path[k].parent == if k + 1 < |path| then path[k + 1] else to
      requires to !in path
      requires forall k :: 0 <= k < |path| ==> path[k] in T && T[path[k]] == path[k].transform
      modifies nodes`matrixChanged, nodes`transformationMatrix
      ensures forall n :: n in nodes ==> n.CacheOk()
      ensures m == AppendAll(Identity, Locals(path, T))
    {
      ghost var locals := Locals(path, T);
      m := Identity;
      var cur: DisplayObject? := from;
      ghost var i := 0;
      while cur != to
        invariant 0 <= i <= |path| && (i < |path| ==> cur == path[i]) && (i == |path| ==> cur == to)
        invariant m == AppendAll(Identity, locals[..i])
        invariant forall n :: n in nodes ==> n.CacheOk()
        decreases |path| - i
      {
        ghost var next := if i + 1 < |path| then path[i + 1] else to;
        assert old(cur.parent) == next;
        assert locals[i] == cur.LocalMatrix();
        var tm := cur.TransformationMatrix();
        AppendAllSnoc(Identity, locals[..i], tm);
        PrefixSnoc(locals, i);
        m := Append(m, tm);
        assert cur.parent == old(cur.parent);
        cur := cur.parent;
        i := i + 1;
      }
      assert locals[..i] == locals;
    }
  }
}
