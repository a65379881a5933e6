/**
  The constants the simulation rules depend on, as a record so that every
  rule can be stated for any values; `Default` holds the game's values.
*/
module Config {

  datatype Config = Config(
    wallStroke: real,          // thickness of a wall in pixels
    bulletSpeed: real,
    bulletDiameter: real,
    bulletDuration: int,       // frames a standard bullet lives
    tankDiameter: real,
    m82Speed: real,
    penetrationDivisor: real)  // the M82's speed is divided by this on its first wall
  {
    /** Distance between two samples of a sweep or of the laser ray. */
    function StepSize(): real
    {
      wallStroke - 1.0
    }

    /** What the rules need of the constants: a positive sampling step and divisor. */
    predicate Valid()
    {
      StepSize() > 0.0 && penetrationDivisor > 0.0 && wallStroke >= 0.0
    }
  }

  const Default := Config(
    wallStroke := 6.0,
    bulletSpeed := 3.0,
    bulletDiameter := 8.0,
    bulletDuration := 60 * 6,
    tankDiameter := 20.0,
    m82Speed := 12.0,
    penetrationDivisor := 3.0)

  /** The game's constants are valid, and the sampling step is thinner than a wall. */
  lemma DefaultIsValid()
    ensures Default.Valid()
    ensures Default.StepSize() == 5.0 < Default.wallStroke
  {
  }

  /**
    The diameter the M82 and the Breaker are built with: a literal 3 in both
    constructors (the configured M82 diameter, also 3, is never read).
  */
  const ShapeDiameter: real := 3.0

  /** How far the laser sight's ray is followed. */
  const LaserRange: real := 9999.0
}
