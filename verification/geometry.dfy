/**
 * Engine vector and rotation values. The model never computes with them: a
 * pose or a velocity is only received, stored and copied, so the components
 * are plain reals and the float arithmetic of the engine is not modelled.
 */
module Geometry {

  datatype Vector3 = Vector3(x: real, y: real, z: real)

  datatype Quaternion = Quaternion(x: real, y: real, z: real, w: real)

  /** `Vector3.zero`. */
  const Zero: Vector3 := Vector3(0.0, 0.0, 0.0)

  /** `Quaternion.identity`. */
  const Identity: Quaternion := Quaternion(0.0, 0.0, 0.0, 1.0)
}
