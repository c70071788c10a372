/**
 * kestrel's RenderState, as a value. RenderState.cs is not part of this
 * model: a fresh state is taken to have alpha 1, scale 1 and no transform,
 * and TransformModelviewMatrix is recorded as the list of matrices it was
 * given, oldest first, rather than multiplied out.
 */
module RenderStates {
  import opened Geom

  datatype RenderState = RenderState(alpha: real, scaleX: real, scaleY: real, transforms: seq<Matrix>)

  /** `new RenderState()` */
  const Fresh := RenderState(1.0, 1.0, 1.0, [])

  /**
   * `rs.CopyFrom(top); rs.Alpha *= alpha; rs.ScaleX *= scaleX;
   * rs.ScaleY *= scaleY; rs.TransformModelviewMatrix(m)`
   */
  function Derive(top: RenderState, alpha: real, m: Matrix, scaleX: real, scaleY: real): RenderState
  {
    RenderState(top.alpha * alpha, top.scaleX * scaleX, top.scaleY * scaleY, top.transforms + [m])
  }

  /** The arguments of one PushRenderState call. */
  datatype Push = Push(alpha: real, matrix: Matrix, scaleX: real, scaleY: real)

  /** The state pushed last when each of `pushes` is pushed on the one before, starting from `s`. */
  function DeriveAll(s: RenderState, pushes: seq<Push>): RenderState
  {
    if pushes == [] then s
    else
      var p := pushes[|pushes| - 1];
      Derive(DeriveAll(s, pushes[..|pushes| - 1]), p.alpha, p.matrix, p.scaleX, p.scaleY)
  }

  function AlphaOf(pushes: seq<Push>): real
  {
    if pushes == [] then 1.0 else AlphaOf(pushes[..|pushes| - 1]) * pushes[|pushes| - 1].alpha
  }

  function ScaleXOf(pushes: seq<Push>): real
  {
    if pushes == [] then 1.0 else ScaleXOf(pushes[..|pushes| - 1]) * pushes[|pushes| - 1].scaleX
  }

  function ScaleYOf(pushes: seq<Push>): real
  {
    if pushes == [] then 1.0 else ScaleYOf(pushes[..|pushes| - 1]) * pushes[|pushes| - 1].scaleY
  }

  function MatricesOf(pushes: seq<Push>): seq<Matrix>
  {
    if pushes == [] then [] else MatricesOf(pushes[..|pushes| - 1]) + [pushes[|pushes| - 1].matrix]
  }

  /**
   * Render states accumulate down the tree: a state pushed on top of a chain
   * of pushes carries the product of all their alphas and scales, and all
   * their matrices, oldest first.
   */
  lemma {:induction false} DeriveAllAccumulates(s: RenderState, pushes: seq<Push>)
    ensures DeriveAll(s, pushes)
      == RenderState(s.alpha * AlphaOf(pushes), s.scaleX * ScaleXOf(pushes), s.scaleY * ScaleYOf(pushes),
                     s.transforms + MatricesOf(pushes))
  {
    if pushes != [] {
      var init, p := pushes[..|pushes| - 1], pushes[|pushes| - 1];
      DeriveAllAccumulates(s, init);
      calc {
        DeriveAll(s, pushes).alpha;
        DeriveAll(s, init).alpha * p.alpha;
        (s.alpha * AlphaOf(init)) * p.alpha;
        s.alpha * (AlphaOf(init) * p.alpha);
      }
      calc {
        DeriveAll(s, pushes).scaleX;
        (s.scaleX * ScaleXOf(init)) * p.scaleX;
        s.scaleX * (ScaleXOf(init) * p.scaleX);
      }
      calc {
        DeriveAll(s, pushes).scaleY;
        (s.scaleY * ScaleYOf(init)) * p.scaleY;
        s.scaleY * (ScaleYOf(init) * p.scaleY);
      }
      assert DeriveAll(s, pushes).transforms == s.transforms + MatricesOf(init) + [p.matrix];
    }
  }

  /** Two pushes in a row: alphas and scales multiply, and both matrices are kept in order. */
  lemma DeriveTwice(s: RenderState, first: Push, second: Push)
    ensures Derive(Derive(s, first.alpha, first.matrix, first.scaleX, first.scaleY),
                   second.alpha, second.matrix, second.scaleX, second.scaleY)
      == RenderState(s.alpha * (first.alpha * second.alpha), s.scaleX * (first.scaleX * second.scaleX),
                     s.scaleY * (first.scaleY * second.scaleY), s.transforms + [first.matrix, second.matrix])
  {
    DeriveAllAccumulates(s, [first, second]);
    assert [first, second][..1] == [first];
    assert [first][..0] == [];
  }
}
