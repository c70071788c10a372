/**
 * Geometry values shared by the scene graph and the renderers.
 *
 * Matrix2D's arithmetic (sin/cos in Rotate, the division in Invert,
 * TransformPoint) is not part of this model. A matrix is kept as a term that
 * records which matrices were combined and in what order, so that the walks
 * of DisplayObject.GetTransformationMatrix can be stated exactly.
 */
module Geom {

  /**
   * A display object's transform properties: scale, then rotate, then
   * translate to (x, y), with the pivot subtracted from the translation.
   */
  datatype Transform = Transform(scaleX: real, scaleY: real, rotation: real, x: real, y: real,
                                 pivotX: real, pivotY: real)

  /** A 2D affine transform, as the term that built it. */
  datatype Matrix =
    | Identity
      /** The matrix a display object's transform properties describe. */
    | Local(transform: Transform)
      /** `first.AppendMatrix(second)` */
    | Append(first: Matrix, second: Matrix)
      /** `m.Invert()` */
    | Inverse(of: Matrix)

  /** `m.AppendMatrix(ms[0]).AppendMatrix(ms[1])...`, as the walks up the tree build it. */
  function AppendAll(m: Matrix, ms: seq<Matrix>): Matrix
  {
    if ms == [] then m else Append(AppendAll(m, ms[..|ms| - 1]), ms[|ms| - 1])
  }

  /** A prefix one element longer. */
  lemma PrefixSnoc<T>(s: seq<T>, i: nat)
    requires i < |s|
    ensures s[..i + 1] == s[..i] + [s[i]]
  {
  }

  /** One more matrix appended to the walk. */
  lemma AppendAllSnoc(m: Matrix, ms: seq<Matrix>, x: Matrix)
    ensures AppendAll(m, ms + [x]) == Append(AppendAll(m, ms), x)
  {
    assert (ms + [x])[..|ms|] == ms;
  }

  /**
   * What a matrix term means, up to the arithmetic: the local transforms it
   * applies, first to last, each forward or undone. Append concatenates and
   * Invert undoes the whole sequence in reverse order.
   */
  datatype Factor = Forward(m: Matrix) | Backward(m: Matrix)

  function Flip(f: Factor): Factor
  {
    match f
    case Forward(m) => Backward(m)
    case Backward(m) => Forward(m)
  }

  /** The word that undoes w: its factors in reverse order, each flipped. */
  function InvertWord(w: seq<Factor>): (r: seq<Factor>)
    ensures |r| == |w|
    ensures forall k :: 0 <= k < |w| ==> r[k] == Flip(w[|w| - 1 - k])
  {
    if w == [] then [] else [Flip(w[|w| - 1])] + InvertWord(w[..|w| - 1])
  }

  /** Each matrix applied forward, in order. */
  function Forwards(ms: seq<Matrix>): (r: seq<Factor>)
    ensures |r| == |ms|
    ensures forall k :: 0 <= k < |ms| ==> r[k] == Forward(ms[k])
  {
    if ms == [] then [] else Forwards(ms[..|ms| - 1]) + [Forward(ms[|ms| - 1])]
  }

  function Word(m: Matrix): seq<Factor>
  {
    match m
    case Identity => []
    case Local(_) => [Forward(m)]
    case Append(a, b) => Word(a) + Word(b)
    case Inverse(a) => InvertWord(Word(a))
  }

  /** Undoing twice changes nothing. */
  lemma InvertWordTwice(w: seq<Factor>)
    ensures InvertWord(InvertWord(w)) == w
  {
    var r := InvertWord(InvertWord(w));
    forall k | 0 <= k < |w|
      ensures r[k] == w[k]
    {
      assert Flip(Flip(w[k])) == w[k];
    }
  }

  /** Undoing a product undoes its factors in reverse order. */
  lemma InvertWordConcat(u: seq<Factor>, v: seq<Factor>)
    ensures InvertWord(u + v) == InvertWord(v) + InvertWord(u)
  {
  }

  /** A walk that appends the local matrices ms to m applies m, then each of ms forward. */
  lemma {:induction false} WordOfAppendAll(m: Matrix, ms: seq<Matrix>)
    requires forall k :: 0 <= k < |ms| ==> ms[k].Local?
    ensures Word(AppendAll(m, ms)) == Word(m) + Forwards(ms)
  {
    if ms != [] {
      var front := ms[..|ms| - 1];
      WordOfAppendAll(m, front);
      assert Forwards(ms) == Forwards(front) + [Forward(ms[|ms| - 1])];
    }
  }

  /** The inverse of a product is the product of the inverses in reverse order. */
  lemma InverseOfAppend(a: Matrix, b: Matrix)
    ensures Word(Inverse(Append(a, b))) == Word(Append(Inverse(b), Inverse(a)))
  {
    InvertWordConcat(Word(a), Word(b));
  }

  datatype Point = Point(x: real, y: real)

  /** Engine.Geom.Rectangle: origin (X, Top) and size. */
  datatype Rect = Rect(x: real, y: real, width: real, height: real) {
    function Right(): real { x + width }
    function Bottom(): real { y + height }

    /** q lies inside this rectangle. */
    predicate Contains(q: Rect)
    {
      x <= q.x && y <= q.y && q.Right() <= Right() && q.Bottom() <= Bottom()
    }
  }

  /** Math.Min */
  function Min(a: real, b: real): (m: real)
    ensures m <= a && m <= b && (m == a || m == b)
  {
    if a <= b then a else b
  }

  /** Math.Max */
  function Max(a: real, b: real): (m: real)
    ensures m >= a && m >= b && (m == a || m == b)
  {
    if a >= b then a else b
  }

  /**
   * The running minX, minY, maxX and maxY of GetBoundsWithChildren: the
   * edges of the smallest rectangle that holds every rectangle taken in.
   */
  datatype Extent = Extent(minX: real, minY: real, maxX: real, maxY: real) {
    /** `Rectangle.Create(minX, minY, maxX - minX, maxY - minY)` */
    function ToRect(): Rect
    {
      Rect(minX, minY, maxX - minX, maxY - minY)
    }

    /** r lies inside: its left and top edges are no smaller, its right and bottom edges no larger. */
    predicate Holds(r: Rect)
    {
      minX <= r.x && minY <= r.y && r.Right() <= maxX && r.Bottom() <= maxY
    }
  }

  /** The edges of one rectangle, where GetBoundsWithChildren starts from. */
  function ExtentOf(r: Rect): (e: Extent)
    ensures e.Holds(r) && e.ToRect() == r
  {
    Extent(r.x, r.y, r.Right(), r.Bottom())
  }

  /**
   * One step of GetBoundsWithChildren's loop: the edges widened to take in
   * r, and no further than that.
   */
  function Include(e: Extent, r: Rect): (e': Extent)
    ensures e'.Holds(r)
    ensures forall q :: e.Holds(q) ==> e'.Holds(q)
    ensures (e'.minX == e.minX || e'.minX == r.x) && (e'.minY == e.minY || e'.minY == r.y)
    ensures (e'.maxX == e.maxX || e'.maxX == r.Right()) && (e'.maxY == e.maxY || e'.maxY == r.Bottom())
  {
    Extent(Min(e.minX, r.x), Min(e.minY, r.y), Max(e.maxX, r.x + r.width), Max(e.maxY, r.y + r.height))
  }

  /** The axis-aligned rectangle spanned by two opposite corners. */
  function Span(p: Point, q: Point): (r: Rect)
    ensures r.width >= 0.0 && r.height >= 0.0
    ensures r.x == Min(p.x, q.x) && r.Right() == Max(p.x, q.x)
    ensures r.y == Min(p.y, q.y) && r.Bottom() == Max(p.y, q.y)
  {
    Rect(Min(p.x, q.x), Min(p.y, q.y), Max(p.x, q.x) - Min(p.x, q.x), Max(p.y, q.y) - Min(p.y, q.y))
  }
}

/** The exceptions the core throws, as values. */
module Errors {

  datatype Error =
    | NotConnected      // ArgumentException("Object not connected to target")
    | EmptyStack        // InvalidOperationException from Stack<T>.Peek/Pop
    | NullReference     // NullReferenceException

  datatype Result<T> = Ok(value: T) | Fail(error: Error)
}
