/**
 The ball built on each spawner tick of `Game.initScene`: a dynamic sphere
 body of mass 1 and radius 0.3, dropped from height 5 at a random spot of the
 table area, with a random (unnormalised) orientation and a random texture
 number. Only the values the spawner chooses are modelled; the physics and
 rendering objects built from them belong to the libraries.
 */
module Spawn {
  import opened Sampling

  /** Radius of the physics sphere (`size`). */
  const SphereRadius: real := 0.3
  /** Mass of every spawned body. */
  const BodyMass: real := 1.0
  /** Fixed spawn height. */
  const SpawnHeight: real := 5.0
  /** Radius of the sphere mesh drawn for the ball; larger than the collider. */
  const MeshRadius: real := 0.5

  datatype Vec3 = Vec3(x: real, y: real, z: real)

  datatype Quaternion = Quaternion(x: real, y: real, z: real, w: real)

  /** The seven uniform samples one tick consumes, in the order the source
      draws them: position x and z, the four orientation components, then
      the texture number. */
  datatype Draws = Draws(px: Sample, pz: Sample, qx: Sample, qy: Sample, qz: Sample, qw: Sample, tex: Sample)

  /** One spawned ball. `id` is the spawner's tick counter at creation. */
  datatype Body = Body(
    id: nat,
    mass: real,
    radius: real,
    meshRadius: real,
    position: Vec3,
    orientation: Quaternion,
    texture: int)

  function NormSquared(q: Quaternion): real {
    q.x * q.x + q.y * q.y + q.z * q.z + q.w * q.w
  }

  /** The ball of tick `id` under samples `d`. Its position lies in the box
      x in [-5, 5), y = 5, z in [-2, 2); the orientation is drawn with three
      components from (-10, 10] (the bounds are passed reversed) and the second
      from [70, 100), so it is never a unit quaternion; the texture number is
      1 to 14. */
  function SpawnBody(id: nat, d: Draws): (b: Body)
    ensures b.id == id
    ensures b.mass == BodyMass && b.radius == SphereRadius && b.meshRadius == MeshRadius
    ensures -5.0 <= b.position.x < 5.0
    ensures b.position.y == SpawnHeight
    ensures -2.0 <= b.position.z < 2.0
    ensures -10.0 < b.orientation.x <= 10.0 && -10.0 < b.orientation.z <= 10.0
    ensures -10.0 < b.orientation.w <= 10.0
    ensures 70.0 <= b.orientation.y < 100.0
    ensures 1 <= b.texture <= TextureCount - 1
  {
    Body(
      id,
      BodyMass,
      SphereRadius,
      MeshRadius,
      Vec3(Random(d.px, -5.0, 5.0), SpawnHeight, Random(d.pz, -2.0, 2.0)),
      Quaternion(Random(d.qx, 10.0, -10.0), Random(d.qy, 70.0, 100.0),
                 Random(d.qz, 10.0, -10.0), Random(d.qw, 10.0, -10.0)),
      TextureIndex(d.tex))
  }

  /** The spawner does not normalise the orientation before passing it to
      the physics body: its squared norm is at least 70 * 70, far from 1. */
  lemma SpawnOrientationNotUnit(id: nat, d: Draws)
    ensures NormSquared(SpawnBody(id, d).orientation) >= 4900.0
  {
    var q := SpawnBody(id, d).orientation;
    assert q.y * q.y >= 70.0 * q.y >= 4900.0;
  }

  /** Every point of the spawn rectangle [-5, 5) x [-2, 2) is the spawn
      position of some choice of samples, whatever the other draws. */
  lemma SpawnCoversArea(id: nat, d: Draws, x: real, z: real)
    requires -5.0 <= x < 5.0 && -2.0 <= z < 2.0
    ensures SpawnBody(id, d.(px := Unrandom(x, -5.0, 5.0), pz := Unrandom(z, -2.0, 2.0))).position
            == Vec3(x, SpawnHeight, z)
  {
  }
}
