/** One particle (src/star.js). Randomness is an input: the shape roll is the
    value `Math.random()` returned. The fields `living` and `age`, which
    src/state.js reads but the source never assigns, are explicit here: a new
    star is living and has age 0, and `Tick` adds the elapsed time to `age`. */
module Stars {
  import opened Wrappers
  import opened Vectors
  import opened Boxes
  import opened Variables

  /** Every field of a star, as a value. */
  datatype StarState = StarState(
    pos: Vector, vel: Vector, acc: Vector, size: real, age: real, living: bool,
    color: string, shape: Shape, id: nat)

  /** The module-level `starId` counter that numbers stars. */
  class IdCounter {
    var next: nat

    constructor ()
      ensures next == 0
    {
      next := 0;
    }
  }

  /** `getShape`: the configured shape, or a uniformly chosen concrete shape
      (from `[square, circle]`) when the configured one is `random`. */
  function GetShape(configured: Shape, roll: real): (s: Shape)
    requires 0.0 <= roll < 1.0
    ensures s != Random
    ensures configured != Random ==> s == configured
    ensures configured == Random ==> (s == Square <==> roll < 0.5)
  {
    if configured == Random then
      var choices := [Square, Circle];
      choices[(roll * |choices| as real).Floor]
    else
      configured
  }

  /** `getBounds`: the square footprint of side `size` centred on `pos`. */
  function Footprint(s: StarState): (r: Box)
    ensures var half := (if s.size < 0.0 then -s.size else s.size) / 2.0;
      r == Box(s.pos.x - half, s.pos.y - half, s.pos.x + half, s.pos.y + half)
    ensures Contains(r, s.pos)
  {
    var start := Add(s.pos, Vectors.Square(-(s.size / 2.0)));
    var end := Add(start, Vectors.Square(s.size));
    MakeBox(start, end)
  }

  /** What `tick(elapsed)` does to a star: the velocity takes the
      acceleration and is clamped to `MAX_VELOCITY`, the position moves by the
      new velocity, the size grows at `EXPANSION_RATE`. The age also advances
      by `elapsed`: the source's `tick` never touches `age`, and this is the
      correction that lets `shouldRemoveStar`'s age limit ever take effect. */
  function Advance(s: StarState, elapsed: real, cfg: Settings, sqrt: real -> real): StarState {
    var vel := Clamp(Add(s.vel, Scale(s.acc, elapsed)), cfg.maxVelocity, None, sqrt);
    s.(vel := vel,
       pos := Add(s.pos, Scale(vel, elapsed)),
       size := s.size + elapsed * cfg.expansionRate,
       age := s.age + elapsed)
  }

  /** What one tick promises: size grows by exactly `elapsed * EXPANSION_RATE`,
      the new velocity is the accelerated one clamped so that its magnitude is
      at most `MAX_VELOCITY`, the position moves by that new velocity, and the
      acceleration, colour, shape, id and liveness stay as they were. */
  lemma AdvanceSpec(s: StarState, elapsed: real, cfg: Settings, sqrt: real -> real)
    requires IsSqrt(sqrt) && 0.0 <= cfg.maxVelocity
    ensures var t := Advance(s, elapsed, cfg, sqrt);
      && t.size - s.size == elapsed * cfg.expansionRate
      && t.age - s.age == elapsed
      && t.vel == Clamp(Add(s.vel, Scale(s.acc, elapsed)), cfg.maxVelocity, None, sqrt)
      && Magnitude(t.vel, sqrt) <= cfg.maxVelocity
      && t.pos == Add(s.pos, Scale(t.vel, elapsed))
      && t.acc == s.acc && t.color == s.color && t.shape == s.shape
      && t.id == s.id && t.living == s.living
  {
    ClampBounded(Add(s.vel, Scale(s.acc, elapsed)), cfg.maxVelocity, None, sqrt);
  }

  /** The fields a tick copies, and the age it advances. */
  lemma AdvanceKeeps(s: StarState, elapsed: real, cfg: Settings, sqrt: real -> real)
    ensures var t := Advance(s, elapsed, cfg, sqrt);
      t.age == s.age + elapsed && t.acc == s.acc && t.living == s.living
  {
  }

  /** A star that starts at rest with no acceleration stays where it is. */
  lemma {:induction false} RestingStarStays(s: StarState, elapsed: real, cfg: Settings, sqrt: real -> real)
    requires s.vel == Zero() && s.acc == Zero()
    ensures Advance(s, elapsed, cfg, sqrt).pos == s.pos
    ensures Advance(s, elapsed, cfg, sqrt).vel == Zero()
  {
    var vel := Clamp(Add(s.vel, Scale(s.acc, elapsed)), cfg.maxVelocity, None, sqrt);
    assert vel == Zero() by {
      ScaleOfZero(elapsed);
      AddZero(Zero());
      ClampOfZero(cfg.maxVelocity, None, sqrt);
    }
    assert Add(s.pos, Scale(vel, elapsed)) == s.pos by {
      ScaleOfZero(elapsed);
      AddZero(s.pos);
    }
  }

  class Star {
    var pos: Vector
    var vel: Vector
    const acc: Vector
    var size: real
    var age: real
    var living: bool
    const color: string
    const shape: Shape
    const id: nat

    function Value(): StarState
      reads this
    {
      StarState(pos, vel, acc, size, age, living, color, shape, id)
    }

    /** `new Star(pos, acc, color)`: zero velocity, `STAR_SIZE`, the next id
        from the counter (which then advances), and the shape `getShape`
        chooses with the given roll. */
    constructor (pos: Vector, acc: Vector, color: string, cfg: Settings, ids: IdCounter, roll: real)
      requires 0.0 <= roll < 1.0
      modifies ids
      ensures Value() == StarState(pos, Zero(), acc, cfg.starSize, 0.0, true, color,
                                   GetShape(cfg.starShape, roll), old(ids.next))
      ensures ids.next == old(ids.next) + 1
    {
      this.color := color;
      this.pos := pos;
      this.acc := acc;
      vel := Zero();
      size := cfg.starSize;
      id := ids.next;
      shape := GetShape(cfg.starShape, roll);
      living := true;
      age := 0.0;
      ids.next := ids.next + 1;
    }

    /** `tick(elapsed)`, in place, with the age correction of `Advance`: it
        also adds `elapsed` to `age`, which the source's `tick` leaves alone. */
    method Tick(elapsed: real, cfg: Settings, sqrt: real -> real)
      modifies this
      ensures Value() == Advance(old(Value()), elapsed, cfg, sqrt)
    {
      vel := Clamp(Add(vel, Scale(acc, elapsed)), cfg.maxVelocity, None, sqrt);
      pos := Add(pos, Scale(vel, elapsed));
      size := size + elapsed * cfg.expansionRate;
      age := age + elapsed;
    }
  }

  /** Stars numbered by one counter have distinct ids: a client that makes
      two stars in a row. */
  method TwoStars(ids: IdCounter, cfg: Settings, p: Vector, a: Vector, roll: real)
      returns (first: Star, second: Star)
    requires 0.0 <= roll < 1.0
    modifies ids
    ensures first.id != second.id && second.id == first.id + 1
  {
    first := new Star(p, a, "#fff", cfg, ids, roll);
    second := new Star(p, a, "#fff", cfg, ids, roll);
  }
}
