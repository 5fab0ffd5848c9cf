/**
 * The C tree's electron gun (`source/gun.c`): a beam position that chases a
 * target at a fixed speed and a power level that ramps up while the gun is
 * on and drains while it is off. Coordinates, rates and power are reals.
 */
module Gun {
  import opened Vec

  /** Power is a percentage. */
  const MaxPower: real := 100.0

  datatype Gun = Gun(
    position: Vec,
    prevPosition: Vec,
    target: Vec,
    movementSpeed: real,
    powerDepletion: real,
    powerIncrease: real,
    power: real,
    poweredOn: bool,
    moving: bool)

  /**
   * `mv_create_electron_gun`. The allocation leaves `prev_position` and
   * `moving` unset, so whatever they hold is a parameter.
   */
  function Create(movementSpeed: real, powerIncrease: real, powerDepletion: real, prevPosition: Vec, moving: bool): (g: Gun)
    ensures g.position == Origin && g.target == Origin
    ensures g.power == 0.0 && !g.poweredOn
    ensures g.movementSpeed == movementSpeed && g.powerIncrease == powerIncrease && g.powerDepletion == powerDepletion
  {
    Gun(Origin, prevPosition, Origin, movementSpeed, powerDepletion, powerIncrease, 0.0, false, moving)
  }

  /** `mv_power_on_electron_gun`. */
  function PowerOn(g: Gun): Gun
  {
    g.(poweredOn := true)
  }

  /** `mv_power_off_electron_gun`. */
  function PowerOff(g: Gun): Gun
  {
    g.(poweredOn := false)
  }

  /** `mv_aim_electron_gun`. */
  function Aim(g: Gun, target: Vec): Gun
  {
    g.(target := target)
  }

  /** Switching and aiming touch disjoint fields: each undoes or overrides only itself. */
  lemma SwitchAndAimIndependent(g: Gun, t: Vec, t': Vec)
    ensures PowerOff(PowerOn(g)) == PowerOff(g) && PowerOn(PowerOff(g)) == PowerOn(g)
    ensures PowerOn(g).poweredOn && !PowerOff(g).poweredOn
    ensures Aim(Aim(g, t), t') == Aim(g, t')
    ensures Aim(g, t).target == t && Aim(g, g.target) == g
    ensures Aim(PowerOn(g), t) == PowerOn(Aim(g, t))
    ensures PowerOn(g).(poweredOn := g.poweredOn) == g && PowerOff(g).(poweredOn := g.poweredOn) == g
  {
  }

  /** `floor(distance) > 2`: the gun only moves when at least three units away. */
  predicate FarEnough(distance: real)
  {
    distance.Floor > 2
  }

  lemma FarEnoughMeansThree(distance: real)
    ensures FarEnough(distance) <==> distance >= 3.0
  {
  }

  /**
   * The candidate position one step towards the target: the unit direction
   * rescaled to `movementSpeed * delta` and added to the position.
   */
  function StepTowards(g: Gun, delta: real, distance: real): (p: Vec)
    requires IsMagnitude(Subtract(g.target, g.position), distance) && FarEnough(distance)
    ensures IsMagnitude(Subtract(p, g.position), Abs(g.movementSpeed * delta))
    ensures p == Add(g.position, Multiply(Subtract(g.target, g.position), g.movementSpeed * delta / distance))
  {
    var direction := Subtract(g.target, g.position);
    MagnitudeFacts(direction, distance, distance);
    var normalized := Normalize(direction, distance);
    var scaled := Scale(normalized, 1.0, g.movementSpeed * delta);
    assert scaled == Multiply(direction, g.movementSpeed * delta / distance) by {
      ScaleOfNormalized(direction, distance, g.movementSpeed * delta);
    }
    AddSubtract(scaled, g.position);
    Add(g.position, scaled)
  }

  /** Rescaling the unit direction is one multiplication of the direction. */
  lemma ScaleOfNormalized(v: Vec, m: real, k: real)
    requires IsMagnitude(v, m) && v != Origin
    ensures Scale(Normalize(v, m), 1.0, k) == Multiply(v, k / m)
  {
    var n := Normalize(v, m);
    assert n == Vec(v.x / m, v.y / m);
    QuotientTimes(v.x, m, k);
    QuotientTimes(v.y, m, k);
  }

  lemma QuotientTimes(x: real, m: real, k: real)
    requires m != 0.0
    ensures (x / m) * (k / 1.0) == x * (k / m)
  {
  }

  /** `magnitude(target - new_position) > distance`, compared through squares. */
  predicate Overshoots(target: Vec, candidate: Vec, distance: real)
  {
    SquaredLength(Subtract(target, candidate)) > distance * distance
  }

  /** Comparing squares is the same as comparing the non-negative magnitudes. */
  lemma OvershootsIsMagnitudeComparison(target: Vec, candidate: Vec, distance: real, d: real)
    requires distance >= 0.0 && IsMagnitude(Subtract(target, candidate), d)
    ensures Overshoots(target, candidate, distance) <==> d > distance
  {
    SquareOrder(d, distance);
  }

  lemma SquareOrder(a: real, b: real)
    requires a >= 0.0 && b >= 0.0
    ensures a * a > b * b <==> a > b
  {
    SquareZero(a);
    SquareZero(b);
    SquarePositive(a);
    if 0.0 < b < a {
      SquareMonotone(b, a);
    } else if 0.0 < a <= b {
      if a < b {
        SquareMonotone(a, b);
      }
    }
  }

  /** The power after one frame: ramps up to 100 while on, down to 0 while off. */
  function NextPower(g: Gun, delta: real): (p: real)
    ensures g.poweredOn ==> p <= MaxPower
    ensures !g.poweredOn ==> p >= 0.0
  {
    if g.poweredOn then
      var raised := g.power + g.powerIncrease * delta;
      if raised > MaxPower then MaxPower else raised
    else
      var lowered := g.power - g.powerDepletion * delta;
      if lowered < 0.0 then 0.0 else lowered
  }

  /**
   * `mv_update_electron_gun`. `distance` is what `mv_magnitude_point` returns
   * for `target - position`.
   */
  function Update(g: Gun, delta: real, distance: real): (g': Gun)
    requires IsMagnitude(Subtract(g.target, g.position), distance)
    ensures g'.prevPosition == g.position
    ensures g'.moving <==> distance >= 3.0
    ensures !g'.moving ==> g'.position == g.position
    ensures g'.target == g.target && g'.poweredOn == g.poweredOn && g'.power == NextPower(g, delta)
    ensures g'.movementSpeed == g.movementSpeed && g'.powerIncrease == g.powerIncrease && g'.powerDepletion == g.powerDepletion
  {
    FarEnoughMeansThree(distance);
    var moved :=
      if FarEnough(distance) then
        var candidate := StepTowards(g, delta, distance);
        g.(moving := true, position := if Overshoots(g.target, candidate, distance) then g.target else candidate)
      else
        g.(moving := false);
    moved.(prevPosition := g.position, power := NextPower(g, delta))
  }

  /** One update never moves the gun farther from its target. */
  lemma UpdateNeverRecedes(g: Gun, delta: real, distance: real)
    requires IsMagnitude(Subtract(g.target, g.position), distance)
    ensures SquaredLength(Subtract(g.target, Update(g, delta, distance).position)) <= distance * distance
  {
    var g' := Update(g, delta, distance);
    if g'.position == g.target {
      SquareNonNegative(distance);
      assert Subtract(g.target, g.target) == Origin;
      SquareZero(0.0);
    }
  }

  /** When the gun moves without overshooting, it travels exactly |speed · delta| towards the target. */
  lemma UpdateStepLength(g: Gun, delta: real, distance: real)
    requires IsMagnitude(Subtract(g.target, g.position), distance) && distance >= 3.0
    ensures var g' := Update(g, delta, distance);
      g'.position == g.target || IsMagnitude(Subtract(g'.position, g.position), Abs(g.movementSpeed * delta))
  {
    FarEnoughMeansThree(distance);
  }

  /** With non-negative rates and delta, power never falls while on and never rises while off. */
  lemma PowerIsMonotone(g: Gun, delta: real)
    requires g.powerIncrease >= 0.0 && g.powerDepletion >= 0.0 && delta >= 0.0
    requires 0.0 <= g.power <= MaxPower
    ensures var p := NextPower(g, delta);
      0.0 <= p <= MaxPower && (g.poweredOn ==> p >= g.power) && (!g.poweredOn ==> p <= g.power)
  {
    NonNegativeProduct(g.powerIncrease, delta);
    NonNegativeProduct(g.powerDepletion, delta);
  }
}
