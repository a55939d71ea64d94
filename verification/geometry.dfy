/**
 * The two coordinate fix-ups of the loader. The M2 format is Z-up and the
 * engine is Y-up, so every position, normal and pivot read from a file has its
 * Y and Z components exchanged, and so does the vector part of every rotation.
 * The components are kept abstract (raw float words or exact reals).
 */
module Geometry {
  /** core::vector3df. */
  datatype Vec3<T> = Vec3(x: T, y: T, z: T)

  /** core::quaternion (X, Y, Z, W). */
  datatype Quat<T> = Quat(x: T, y: T, z: T, w: T)

  /** fixCoordSystem: (x, y, z) becomes (x, z, y). */
  function FixCoordSystem<T>(v: Vec3<T>): (r: Vec3<T>)
    ensures r.x == v.x && r.y == v.z && r.z == v.y
  {
    Vec3(v.x, v.z, v.y)
  }

  /** fixQuaternion: only Y and Z are exchanged; X and W stay. */
  function FixQuaternion<T>(q: Quat<T>): (r: Quat<T>)
    ensures r.x == q.x && r.y == q.z && r.z == q.y && r.w == q.w
  {
    Quat(q.x, q.z, q.y, q.w)
  }

  /** Applying fixCoordSystem twice gives back the vector. */
  lemma FixCoordSystemInvolution<T>(v: Vec3<T>)
    ensures FixCoordSystem(FixCoordSystem(v)) == v
  {
  }

  /** Applying fixQuaternion twice gives back the quaternion. */
  lemma FixQuaternionInvolution<T>(q: Quat<T>)
    ensures FixQuaternion(FixQuaternion(q)) == q
  {
  }

  /** fixQuaternion acts on the vector part exactly as fixCoordSystem does. */
  lemma FixQuaternionMatchesVector<T>(q: Quat<T>)
    ensures var r := FixQuaternion(q);
            Vec3(r.x, r.y, r.z) == FixCoordSystem(Vec3(q.x, q.y, q.z)) && r.w == q.w
  {
  }
}
