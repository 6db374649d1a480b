/** `ProceduralPoint`: an accepted point and the radius it was accepted with. */
module ProceduralPoints {
  import opened Vectors

  datatype ProceduralPoint = ProceduralPoint(Position: Vec3, Radius: real)

  /** The point in the sampling plane: its x and z (a `Vector2`'s x and y). */
  function Footprint(p: ProceduralPoint): Vec2 {
    Vec2(p.Position.x, p.Position.z)
  }
}
