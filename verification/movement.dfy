/** The ship's state of motion, as `Movement` carries it between frames. */
module Motion {
  import opened Vectors

  /** Linear position, velocity and acceleration, then the angle, angular
      velocity and angular acceleration. */
  datatype Movement = Movement(
    position: Vec, velocity: Vec, acceleration: Vec,
    aPosition: real, aVelocity: real, aAcceleration: real)
}
