/** `CubicPano.java`: the six square faces of a cube panorama, all of the
    same size. */
module Cubic {
  import opened Common

  /** `CubicPano.TextureFaces`, in declaration order. */
  datatype Face = Front | Back | Top | Bottom | Left | Right

  /** A bitmap, by identity and dimensions; its pixels are not modelled here. */
  datatype Bitmap = Bitmap(handle: nat, width: int, height: int)

  datatype CubicPano = CubicPano(front: Bitmap, back: Bitmap, top: Bitmap, bottom: Bitmap, left: Bitmap, right: Bitmap)

  /** `getFace`: the bitmap stored for a face. */
  function GetFace(pano: CubicPano, face: Face): Bitmap
  {
    match face
    case Front => pano.front
    case Back => pano.back
    case Left => pano.left
    case Right => pano.right
    case Top => pano.top
    case Bottom => pano.bottom
  }

  /** What the constructor asserts: every face square, every face as wide as
      the front face. */
  predicate Valid(pano: CubicPano)
  {
    forall f: Face :: GetFace(pano, f).width == GetFace(pano, f).height == pano.front.width
  }

  /** The constructor: `None` when one of its assertions fails (a null face,
      a face that is not square, a face narrower or wider than the front). */
  function NewCubicPano(front: Option<Bitmap>, back: Option<Bitmap>, top: Option<Bitmap>,
                        bottom: Option<Bitmap>, left: Option<Bitmap>, right: Option<Bitmap>): Option<CubicPano>
  {
    if front.None? || back.None? || top.None? || bottom.None? || left.None? || right.None? then None
    else
      var pano := CubicPano(front.value, back.value, top.value, bottom.value, left.value, right.value);
      if !(front.value.width == front.value.height && back.value.width == back.value.height
           && left.value.width == left.value.height && right.value.width == right.value.height
           && top.value.width == top.value.height && bottom.value.width == bottom.value.height) then None
      else if !(front.value.width == back.value.width && front.value.width == left.value.width
                && front.value.width == right.value.width && front.value.width == top.value.width
                && front.value.width == bottom.value.width) then None
      else Some(pano)
  }

  /** Construction succeeds exactly when all six faces are present, square
      and of one size; then the panorama is valid and `getFace` gives back,
      for each face, exactly the bitmap passed for it. */
  lemma {:induction false} NewCubicPanoFaces(front: Option<Bitmap>, back: Option<Bitmap>, top: Option<Bitmap>,
                          bottom: Option<Bitmap>, left: Option<Bitmap>, right: Option<Bitmap>)
    ensures var r := NewCubicPano(front, back, top, bottom, left, right);
      && (r.Some? <==>
            && front.Some? && back.Some? && top.Some? && bottom.Some? && left.Some? && right.Some?
            && (forall b :: b in [front.value, back.value, top.value, bottom.value, left.value, right.value] ==>
                  b.width == b.height == front.value.width))
      && (r.Some? ==>
            && Valid(r.value)
            && GetFace(r.value, Front) == front.value && GetFace(r.value, Back) == back.value
            && GetFace(r.value, Top) == top.value && GetFace(r.value, Bottom) == bottom.value
            && GetFace(r.value, Left) == left.value && GetFace(r.value, Right) == right.value)
  {
    if front.Some? && back.Some? && top.Some? && bottom.Some? && left.Some? && right.Some? {
      var faces := [front.value, back.value, top.value, bottom.value, left.value, right.value];
      assert faces[0] == front.value && faces[1] == back.value && faces[2] == top.value;
      assert faces[3] == bottom.value && faces[4] == left.value && faces[5] == right.value;
    }
  }
}
