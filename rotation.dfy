/**
 * Rotation compensation (`getRotationCompensation`): the display rotation
 * constant becomes degrees and is combined with the sensor orientation,
 * added for a front camera and subtracted for every other camera, in Java
 * `int` arithmetic.
 */
module Rotation {
  import opened JavaInt
  import opened Wrappers

  /** `Surface.ROTATION_0` .. `Surface.ROTATION_270`. */
  const Rotation0: Int32 := 0
  const Rotation90: Int32 := 1
  const Rotation180: Int32 := 2
  const Rotation270: Int32 := 3

  /** `CameraCharacteristics.LENS_FACING_FRONT` and `LENS_FACING_BACK`. */
  const LensFacingFront: Int32 := 0
  const LensFacingBack: Int32 := 1

  /** The two characteristics the computation reads; either may be reported as null. */
  datatype Characteristics = Characteristics(sensorOrientation: Option<Int32>, lensFacing: Option<Int32>)

  /** The `switch` on the display rotation; an unknown constant leaves 0. */
  function SurfaceDegrees(deviceRotation: Int32): (d: Int32)
    ensures Rotation0 <= deviceRotation <= Rotation270 ==> d == 90 * deviceRotation
    ensures !(Rotation0 <= deviceRotation <= Rotation270) ==> d == 0
  {
    if deviceRotation == Rotation0 then 0
    else if deviceRotation == Rotation90 then 90
    else if deviceRotation == Rotation180 then 180
    else if deviceRotation == Rotation270 then 270
    else 0
  }

  /** `lensFacing != null && lensFacing == LENS_FACING_FRONT`. */
  predicate IsFrontFacing(c: Characteristics) {
    c.lensFacing == Some(LensFacingFront)
  }

  /**
   * `getRotationCompensation`. `characteristics` is None when the camera
   * service throws `CameraAccessException`, in which case the result is 0.
   * Java's `%` keeps the result strictly inside (-360, 360) for any sensor
   * value, and non-negative for a sensor orientation in [0, 360).
   */
  function RotationCompensation(characteristics: Option<Characteristics>, deviceRotation: Int32): (r: Int32)
    ensures characteristics.None? ==> r == 0
    ensures -360 < r < 360
    ensures characteristics.Some? && 0 <= characteristics.value.sensorOrientation.GetOr(0) < 360 ==> r >= 0
  {
    match characteristics
    case None => 0
    case Some(c) =>
      var sensor := c.sensorOrientation.GetOr(0);
      var surface := SurfaceDegrees(deviceRotation);
      if IsFrontFacing(c) then Rem(Add(sensor, surface), 360)
      else Rem(Add(Sub(sensor, surface), 360), 360)
  }

  /**
   * For a sensor orientation in [0, 360) the Java arithmetic never wraps and
   * never yields a negative remainder: the result is the sum (front) or the
   * difference (otherwise) of the two angles modulo 360, so it lies in [0, 360).
   */
  lemma CompensationIsModular(c: Characteristics, deviceRotation: Int32)
    requires 0 <= c.sensorOrientation.GetOr(0) < 360
    ensures var s, d := c.sensorOrientation.GetOr(0), SurfaceDegrees(deviceRotation);
      RotationCompensation(Some(c), deviceRotation) == if IsFrontFacing(c) then (s + d) % 360 else (s - d) % 360
    ensures 0 <= RotationCompensation(Some(c), deviceRotation) < 360
  {
    var s, d := c.sensorOrientation.GetOr(0), SurfaceDegrees(deviceRotation);
    if IsFrontFacing(c) {
      assert Add(s, d) == s + d;
    } else {
      assert Add(Sub(s, d), 360) == s - d + 360;
      assert (s - d + 360) % 360 == (s - d) % 360;
    }
  }

  /** A missing sensor orientation is treated as 0 degrees. */
  lemma MissingSensorOrientationIsZero(lensFacing: Option<Int32>, deviceRotation: Int32)
    ensures RotationCompensation(Some(Characteristics(None, lensFacing)), deviceRotation)
         == RotationCompensation(Some(Characteristics(Some(0), lensFacing)), deviceRotation)
  {
  }

  /** A missing lens facing takes the formula of a back (non-front) camera. */
  lemma MissingLensFacingIsNotFront(sensorOrientation: Option<Int32>, deviceRotation: Int32)
    ensures RotationCompensation(Some(Characteristics(sensorOrientation, None)), deviceRotation)
         == RotationCompensation(Some(Characteristics(sensorOrientation, Some(LensFacingBack))), deviceRotation)
  {
  }

  /** Worked case: a front camera with sensor 90 at display rotation 0 compensates by 90. */
  lemma FrontExample()
    ensures RotationCompensation(Some(Characteristics(Some(90), Some(LensFacingFront))), Rotation0) == 90
  {
    CompensationIsModular(Characteristics(Some(90), Some(LensFacingFront)), Rotation0);
  }

  /** Worked case: a back camera with sensor 90 at display rotation 0 compensates by 90. */
  lemma BackExample()
    ensures RotationCompensation(Some(Characteristics(Some(90), Some(LensFacingBack))), Rotation0) == 90
  {
    CompensationIsModular(Characteristics(Some(90), Some(LensFacingBack)), Rotation0);
  }

  /** Worked case: a back camera with sensor 90 at display rotation 90 compensates by 0. */
  lemma BackRotatedExample()
    ensures RotationCompensation(Some(Characteristics(Some(90), Some(LensFacingBack))), Rotation90) == 0
  {
    var c := Characteristics(Some(90), Some(LensFacingBack));
    assert !IsFrontFacing(c) && SurfaceDegrees(Rotation90) == 90;
    CompensationIsModular(c, Rotation90);
  }
}
