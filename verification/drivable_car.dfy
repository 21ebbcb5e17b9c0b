/**
 * DrivableCar: a Car with a speed counter that accelerate and brake move in
 * steps of 20 km/h; turning leaves it alone.
 */
module DrivableCars {
  import opened Decimal
  import opened JavaText
  import V = Vehicles

  /** (int) getMaxSpeed() of a car: 250.0 truncated. */
  const SpeedLimit: int := 250
  const Step: int := 20
  /** The first multiple of Step at or above the limit: where acceleration stops. */
  const TopSpeed: int := 260

  /** accelerate: adds a step while the speed is below the limit. */
  function Accelerated(speed: int): int {
    if speed < SpeedLimit then speed + Step else speed
  }

  /** brake: takes a step off while the speed is positive. */
  function Braked(speed: int): int {
    if speed > 0 then speed - Step else speed
  }

  /** The speeds a car can reach from rest: multiples of 20 from 0 to 260. */
  predicate SpeedOk(speed: int) {
    0 <= speed <= TopSpeed && speed % Step == 0
  }

  /** The four operations of the Drivable interface. */
  datatype Command = Accelerate | Brake | TurnLeft | TurnRight

  function Apply(speed: int, c: Command): int {
    match c
    case Accelerate => Accelerated(speed)
    case Brake => Braked(speed)
    case TurnLeft => speed
    case TurnRight => speed
  }

  /** The speed after running the commands in order. */
  function Drive(speed: int, cmds: seq<Command>): int
    decreases |cmds|
  {
    if cmds == [] then speed else Drive(Apply(speed, cmds[0]), cmds[1..])
  }

  /** No sequence of commands leads out of 0..260 or off the 20 km/h grid. */
  lemma {:induction false} DriveKeepsSpeedOk(speed: int, cmds: seq<Command>)
    requires SpeedOk(speed)
    ensures SpeedOk(Drive(speed, cmds))
    decreases |cmds|
  {
    if cmds != [] {
      DriveKeepsSpeedOk(Apply(speed, cmds[0]), cmds[1..]);
    }
  }

  function Repeat(c: Command, n: nat): (r: seq<Command>)
    ensures |r| == n && forall i :: 0 <= i < n ==> r[i] == c
  {
    if n == 0 then [] else [c] + Repeat(c, n - 1)
  }

  /** Accelerating n times from a reachable speed gains 20 each time until it saturates at 260. */
  lemma {:induction false} AccelerateSaturates(speed: int, n: nat)
    requires SpeedOk(speed)
    ensures Drive(speed, Repeat(Accelerate, n)) ==
              if speed + Step * n <= TopSpeed then speed + Step * n else TopSpeed
    decreases n
  {
    if n > 0 {
      var cmds := Repeat(Accelerate, n);
      assert cmds[0] == Accelerate && cmds[1..] == Repeat(Accelerate, n - 1);
      assert Drive(speed, cmds) == Drive(Accelerated(speed), Repeat(Accelerate, n - 1));
      AccelerateSaturates(Accelerated(speed), n - 1);
      if speed >= SpeedLimit {
        var k := speed / 20;
        assert speed == 20 * k;
        assert k == 13;
        assert Accelerated(speed) == speed;
        assert Step * n >= Step && Step * (n - 1) >= 0;
      } else {
        assert Accelerated(speed) + Step * (n - 1) == speed + Step * n;
      }
    }
  }

  /** Braking n times from a reachable speed loses 20 each time until it stops at 0. */
  lemma {:induction false} BrakeStops(speed: int, n: nat)
    requires SpeedOk(speed)
    ensures Drive(speed, Repeat(Brake, n)) == if speed - Step * n >= 0 then speed - Step * n else 0
    decreases n
  {
    if n > 0 {
      var cmds := Repeat(Brake, n);
      assert cmds[0] == Brake && cmds[1..] == Repeat(Brake, n - 1);
      assert Drive(speed, cmds) == Drive(Braked(speed), Repeat(Brake, n - 1));
      assert Step * n == Step * (n - 1) + Step;
      BrakeStops(Braked(speed), n - 1);
    }
  }

  class DrivableCar {
    /** The Car this object is: id, brand, model, year, doors and fuel. */
    const car: V.Vehicle
    var currentSpeed: int

    ghost predicate Valid()
      reads this
    {
      car.Car? && SpeedOk(currentSpeed)
    }

    /**
     * Both constructors delegate every field to Car (the five-argument one
     * with a minted id, received here as `id`); the speed starts at 0.
     */
    constructor (id: string, brand: JStr, model: JStr, year: Int32, numDoors: Int32, fuelType: JStr)
      ensures Valid()
      ensures car == V.Car(id, brand, model, year, numDoors, fuelType)
      ensures currentSpeed == 0
    {
      car := V.Car(id, brand, model, year, numDoors, fuelType);
      currentSpeed := 0;
    }

    method Accelerate()
      requires Valid()
      modifies this
      ensures Valid()
      ensures currentSpeed == Accelerated(old(currentSpeed))
    {
      if currentSpeed < V.MaxSpeed(car).Floor {
        currentSpeed := currentSpeed + 20;
      }
    }

    method Brake()
      requires Valid()
      modifies this
      ensures Valid()
      ensures currentSpeed == Braked(old(currentSpeed))
    {
      if currentSpeed > 0 {
        currentSpeed := currentSpeed - 20;
      }
    }

    /** turnLeft only prints: the speed is unchanged. */
    method TurnLeft()
      ensures currentSpeed == Apply(old(currentSpeed), Command.TurnLeft)
    {
    }

    /** turnRight only prints: the speed is unchanged. */
    method TurnRight()
      ensures currentSpeed == Apply(old(currentSpeed), Command.TurnRight)
    {
    }

    method GetCurrentSpeed() returns (speed: int)
      requires Valid()
      ensures speed == currentSpeed && SpeedOk(speed)
    {
      speed := currentSpeed;
    }
  }
}
