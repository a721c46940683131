/**
 * A camera that blends from one camera to another over a fixed duration and
 * then settles on the destination for good.
 */
module Cameras {
  import opened Vectors
  import Matrices

  /**
   * A rotation as (w, x, y, z). Its arithmetic, slerp included, is not part of
   * this model: slerp is passed in where the interpolator needs it.
   */
  datatype Quaternion = Quaternion(w: real, x: real, y: real, z: real)

  /** What a camera shows at the moment it is asked. */
  datatype Camera = Camera(position: Vector3D, rotation: Quaternion, projectionMatrix: Matrices.Matrix)

  /** `t` clamped to [0, 1]. */
  function Saturate(t: real): (r: real)
    ensures 0.0 <= r <= 1.0
    ensures 0.0 <= t <= 1.0 ==> r == t
    ensures t < 0.0 ==> r == 0.0
    ensures t > 1.0 ==> r == 1.0
  {
    if t < 0.0 then 0.0 else if t > 1.0 then 1.0 else t
  }

  /** The linear blend `from + (to − from)·t`, computed as the source does. */
  function Lerp(from: Vector3D, to: Vector3D, t: real): Vector3D {
    to.Subtract(from).MultiplyScalar(t).Add(from)
  }

  /** The blend starts at `from`, ends at `to`, and moves each component by the same fraction. */
  lemma LerpEndpoints(from: Vector3D, to: Vector3D, t: real)
    ensures Lerp(from, to, 0.0) == from
    ensures Lerp(from, to, 1.0) == to
    ensures Lerp(from, to, t) == from.MultiplyScalar(1.0 - t).Add(to.MultiplyScalar(t))
  {
  }

  /** Each component of the blend is `from + (to − from)·t` on that component alone. */
  lemma LerpIsComponentwise(from: Vector3D, to: Vector3D, t: real)
    ensures Lerp(from, to, t)
         == Vector3D((to.x - from.x) * t + from.x, (to.y - from.y) * t + from.y, (to.z - from.z) * t + from.z)
  {
    var d := to.Subtract(from);
    assert d == Vector3D(to.x - from.x, to.y - from.y, to.z - from.z);
    assert d.MultiplyScalar(t) == Vector3D(d.x * t, d.y * t, d.z * t);
  }

  class InterpolatedCameraByTime {
    const from: Camera
    const to: Camera
    /** The instant the transition starts, in milliseconds. */
    const startTime: int
    /** The length of the transition, in milliseconds. */
    const duration: int
    /** Set once the transition has run its course; never cleared. */
    var done: bool

    /** A zero duration would make the elapsed fraction 0/0; any other length, even negative, is accepted. */
    predicate Valid() {
      duration != 0
    }

    constructor (from: Camera, to: Camera, startTime: int, duration: int)
      requires duration != 0
      ensures Valid() && !done
      ensures this.from == from && this.to == to
      ensures this.startTime == startTime && this.duration == duration
    {
      this.from := from;
      this.to := to;
      this.startTime := startTime;
      this.duration := duration;
      done := false;
    }

    /** The elapsed fraction of the transition at instant `now`, unclamped. */
    function Ratio(now: int): real
      requires Valid()
    {
      (now - startTime) as real / duration as real
    }

    /**
     * The blend parameter at `now`, clamped to [0, 1]; marks the transition done
     * when the unclamped fraction has reached 1.
     */
    method CalcT(now: int) returns (t: real)
      requires Valid()
      modifies this
      ensures t == Saturate(Ratio(now))
      ensures done == (old(done) || Ratio(now) >= 1.0)
    {
      var ratio := (now - startTime) as real / duration as real;
      if ratio >= 1.0 {
        done := true;
      }
      t := Saturate(ratio);
    }

    /** Where the camera is at `now`: the destination once done, the blend until then. */
    method Position(now: int) returns (p: Vector3D)
      requires Valid()
      modifies this
      ensures old(done) ==> p == to.position && done
      ensures !old(done) ==> p == Lerp(from.position, to.position, Saturate(Ratio(now)))
      ensures !old(done) ==> done == (Ratio(now) >= 1.0)
    {
      if done {
        return to.position;
      }
      var fromPosition := from.position;
      var toPosition := to.position;
      var t := CalcT(now);
      p := toPosition.Subtract(fromPosition).MultiplyScalar(t).Add(fromPosition);
    }

    /**
     * Which way the camera faces at `now`: the destination's rotation once done,
     * `slerp(from, to, t)` until then, with `t` from the same sample of the clock.
     */
    method Rotation(now: int, slerp: (Quaternion, Quaternion, real) -> Quaternion) returns (q: Quaternion)
      requires Valid()
      modifies this
      ensures old(done) ==> q == to.rotation && done
      ensures !old(done) ==> q == slerp(from.rotation, to.rotation, Saturate(Ratio(now)))
      ensures !old(done) ==> done == (Ratio(now) >= 1.0)
    {
      if done {
        return to.rotation;
      }
      var fromRotation := from.rotation;
      var toRotation := to.rotation;
      var t := CalcT(now);
      q := slerp(fromRotation, toRotation, t);
    }

    /** The projection never blends: it is always the destination camera's. */
    function ProjectionMatrix(): (m: Matrices.Matrix)
      ensures m == to.projectionMatrix
    {
      to.projectionMatrix
    }

    /** Whether the transition has run its course: the flag CalcT sets and nothing clears. */
    function Done(): (r: bool)
      reads this
      ensures r <==> done
    {
      done
    }
  }

  /** Once the clock reaches the end of the transition, the blended position is the destination's. */
  lemma BlendReachesDestination(from: Vector3D, to: Vector3D, ratio: real)
    requires ratio >= 1.0
    ensures Lerp(from, to, Saturate(ratio)) == to
  {
    LerpEndpoints(from, to, 1.0);
  }

  /** Before the clock reaches the start of the transition, the blended position is the origin's. */
  lemma BlendStartsAtOrigin(from: Vector3D, to: Vector3D, ratio: real)
    requires ratio <= 0.0
    ensures Lerp(from, to, Saturate(ratio)) == from
  {
    LerpEndpoints(from, to, 0.0);
  }

  /** Example: half way between (0, 0, 0) and (10, 0, 0) lies (5, 0, 0). */
  lemma HalfWayBlend()
    ensures Lerp(Vector3D(0.0, 0.0, 0.0), Vector3D(10.0, 0.0, 0.0), 0.5) == Vector3D(5.0, 0.0, 0.0)
  {
    LerpIsComponentwise(Vector3D(0.0, 0.0, 0.0), Vector3D(10.0, 0.0, 0.0), 0.5);
  }

  /**
   * The life of one transition: at its start the camera is at the origin
   * camera's position and not yet done; at its end it is at the destination's
   * and done; and any later query, even with a clock that has gone back, keeps
   * it at the destination.
   */
  method TransitionLifecycle(from: Camera, to: Camera, startTime: int, duration: int, later: int)
    returns (atStart: Vector3D, doneAtStart: bool, atEnd: Vector3D, afterwards: Vector3D, settled: bool)
    requires duration != 0
    ensures atStart == from.position && !doneAtStart
    ensures atEnd == to.position && afterwards == to.position
    ensures settled
  {
    var camera := new InterpolatedCameraByTime(from, to, startTime, duration);
    assert camera.Ratio(startTime) == 0.0;
    assert camera.Ratio(startTime + duration) == 1.0;
    BlendStartsAtOrigin(from.position, to.position, 0.0);
    BlendReachesDestination(from.position, to.position, 1.0);
    atStart := camera.Position(startTime);
    doneAtStart := camera.Done();
    atEnd := camera.Position(startTime + duration);
    afterwards := camera.Position(later);
    settled := camera.Done();
  }
}
