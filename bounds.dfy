/**
 * `ProcedualBounds`: the box a sampler fills. Its footprint is the x/z
 * rectangle [0, Size.x) x [0, Size.z) anchored at the corner; the vertical
 * extent is centred, [-Size.y/2, Size.y/2].
 */
module Bounds {
  import opened Vectors
  import Numeric

  /** Smallest extent `Validate` lets any axis keep. */
  const MinExtent: real := 0.1

  class ProcedualBounds {
    var Size: Vec3

    constructor (size: Vec3)
      ensures Size == size
    {
      Size := size;
    }

    /** Every axis is at least `MinExtent`. */
    predicate IsValidated()
      reads this
    {
      Size.x >= MinExtent && Size.y >= MinExtent && Size.z >= MinExtent
    }

    /**
     * Raises every axis below `MinExtent` to it. Axes already large enough
     * are kept, so a second call changes nothing.
     */
    method Validate()
      modifies this
      ensures IsValidated()
      ensures old(Size.x) >= MinExtent ==> Size.x == old(Size.x)
      ensures old(Size.y) >= MinExtent ==> Size.y == old(Size.y)
      ensures old(Size.z) >= MinExtent ==> Size.z == old(Size.z)
      ensures old(Size.x) < MinExtent ==> Size.x == MinExtent
      ensures old(Size.y) < MinExtent ==> Size.y == MinExtent
      ensures old(Size.z) < MinExtent ==> Size.z == MinExtent
      ensures old(IsValidated()) ==> Size == old(Size)
    {
      var min := MinExtent;
      Size := Size.(x := Numeric.Max(Size.x, min));
      Size := Size.(y := Numeric.Max(Size.y, min));
      Size := Size.(z := Numeric.Max(Size.z, min));
    }

    /**
     * The footprint test. A `Vector2` candidate's `y` stands for the world
     * z axis, so `Size.y` plays no part; the test is half-open on both axes.
     */
    predicate IsInside(candidate: Vec2)
      reads this
      ensures IsInside(candidate) ==> 0.0 < Size.x && 0.0 < Size.z
      ensures IsInside(candidate) ==> 0.0 <= candidate.x && 0.0 <= candidate.y
    {
      candidate.x >= 0.0 && candidate.x < Size.x && candidate.y >= 0.0 && candidate.y < Size.z
    }

    /** The vertical test, closed at both ends and centred on 0. */
    predicate IsInsideVertical(yPositionLocal: real)
      reads this
      ensures IsInsideVertical(yPositionLocal) ==> Size.y >= 0.0
      ensures IsInsideVertical(yPositionLocal) ==> -Size.y <= 2.0 * yPositionLocal <= Size.y
    {
      yPositionLocal >= -(Size.y / 2.0) && yPositionLocal <= Size.y / 2.0
    }

    /** `GetOffset()`: half the box, the corner-to-centre vector. */
    function GetOffset(): (r: Vec3)
      reads this
      ensures Add3(r, r) == Size
    {
      Div3(Size, 2.0)
    }

    /** `GetOffset(origin)`: the corner of a box centred on `origin`. */
    function GetOffsetFrom(origin: Vec3): (r: Vec3)
      reads this
      ensures Add3(r, GetOffset()) == origin
    {
      Sub3(origin, GetOffset())
    }
  }

  /** Both ends of the vertical range, and its centre, are inside it. */
  lemma VerticalClosed(b: ProcedualBounds)
    requires b.Size.y >= 0.0
    ensures b.IsInsideVertical(b.Size.y / 2.0)
    ensures b.IsInsideVertical(-b.Size.y / 2.0)
    ensures b.IsInsideVertical(0.0)
  {
  }

  /** The vertical range is symmetric: `y` is inside exactly when `-y` is. */
  lemma VerticalSymmetric(b: ProcedualBounds, y: real)
    ensures b.IsInsideVertical(y) <==> b.IsInsideVertical(-y)
  {
  }

  /** Two boxes that agree on x and z answer every footprint query alike. */
  lemma IsInsideIgnoresHeight(a: ProcedualBounds, b: ProcedualBounds, candidate: Vec2)
    requires a.Size.x == b.Size.x && a.Size.z == b.Size.z
    ensures a.IsInside(candidate) == b.IsInside(candidate)
  {
  }

  /** A box with no width or no depth contains no candidate. */
  lemma EmptyFootprint(b: ProcedualBounds, candidate: Vec2)
    requires b.Size.x <= 0.0 || b.Size.z <= 0.0
    ensures !b.IsInside(candidate)
  {
  }
}
