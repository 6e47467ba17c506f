/** The fixed-timestep scheduler (src/controller.js). Wall-clock time is fed
    to `HandleTick` as a timestamp; the time `Start` reads, the view's size and
    bounds, and the random samples a new star takes are parameters. */
module Control {
  import opened Wrappers
  import opened Vectors
  import opened Boxes
  import opened Variables
  import opened Stars
  import opened Simulation

  /** `TIMESTEP`: one simulation step, in milliseconds (60 steps a second). */
  const TIMESTEP: real := 1000.0 / 60.0

  /** The random values one new star consumes: the acceleration
      `getRandomVector()` returned, the colour `getColor()` returned and the
      shape roll `Math.random()` returned. */
  datatype Sample = Sample(acc: Vector, color: string, roll: real)

  /** `draw(k)` is the sample of the `k`-th star created; every roll comes
      from `Math.random()`, so it lies in [0, 1). */
  ghost predicate ValidSamples(draw: nat -> Sample) {
    forall k: nat :: 0.0 <= draw(k).roll < 1.0
  }

  /** What the scheduler does to the state, in the order it does it. */
  datatype Event = Stepped(elapsedMs: real, bounds: Box) | Spawned(id: nat) | Skipped

  /** `n` copies of `e`. */
  function Repeat(e: Event, n: nat): (r: seq<Event>)
    ensures |r| == n && forall i :: 0 <= i < n ==> r[i] == e
  {
    if n == 0 then [] else Repeat(e, n - 1) + [e]
  }

  /** The stars `first`, `first + 1`, ... numbered by the id counter. */
  function SpawnEvents(first: nat, n: nat): (r: seq<Event>)
    ensures |r| == n && forall i :: 0 <= i < n ==> r[i] == Spawned(first + i)
  {
    if n == 0 then [] else SpawnEvents(first, n - 1) + [Spawned(first + n - 1)]
  }

  function MinInt(a: int, b: int): int { if a <= b then a else b }
  function MaxInt(a: int, b: int): int { if a <= b then b else a }

  /** How many times `while (t >= step) t -= step` runs from `t == total`:
      the number of whole steps in `total`, none when `total` is below one
      step. */
  function Steps(total: real, step: real): (n: nat)
    requires 0.0 < step
    ensures total < step ==> n == 0
    ensures step <= total ==> n as real * step <= total < (n + 1) as real * step
  {
    if total < step then 0
    else
      QuotientFloorBounds(total, step);
      (total / step).Floor
  }

  /** The whole part of `total / step`, scaled back by `step`, brackets
      `total`; it is at least 1 when `total` is at least one step. */
  lemma QuotientFloorBounds(total: real, step: real)
    requires 0.0 < step
    ensures var f := (total / step).Floor;
      f as real * step <= total < (f + 1) as real * step && (step <= total ==> 1 <= f)
  {
    var q := total / step;
    var f := q.Floor as real;
    assert q * step == total;
    assert f <= q < f + 1.0;
    assert (q.Floor + 1) as real == f + 1.0;
    MulMonotonic(f, q, step);
    MulStrict(q, f + 1.0, step);
    assert total < (q.Floor + 1) as real * step;
    if step <= total && q.Floor < 1 {
      MulStrict(q, 1.0, step);
      assert false;
    }
  }

  lemma MulMonotonic(a: real, b: real, step: real)
    requires 0.0 < step && a <= b
    ensures a * step <= b * step
  {
    assert (b - a) * step >= 0.0;
  }

  lemma MulStrict(a: real, b: real, step: real)
    requires 0.0 < step && a < b
    ensures a * step < b * step
  {
    assert (b - a) * step > 0.0;
  }

  /** What is left of `total` after taking `step` off it `n` times. */
  function Drained(total: real, step: real, n: nat): real {
    if n == 0 then total else Drained(total, step, n - 1) - step
  }

  /** One more pass takes off one more step. */
  lemma DrainOnce(total: real, step: real, n: nat)
    ensures Drained(total, step, n + 1) == Drained(total, step, n) - step
  {
  }

  /** Taking `step` off `n` times takes off `n * step`. */
  lemma {:induction false} DrainedIs(total: real, step: real, n: nat)
    ensures Drained(total, step, n) == total - n as real * step
  {
    if n > 0 {
      DrainedIs(total, step, n - 1);
      assert n as real * step == (n - 1) as real * step + step;
    }
  }

  /** While at least one more step is left, fewer than `Steps` have been taken. */
  lemma {:induction false} StepsAtLeast(total: real, step: real, n: nat)
    requires 0.0 < step && step <= Drained(total, step, n)
    ensures n < Steps(total, step)
  {
    DrainedIs(total, step, n);
    assert (n + 1) as real * step == n as real * step + step;
    MulMonotonic(1.0, (n + 1) as real, step);
    var m := Steps(total, step);
    if m <= n {
      MulMonotonic((m + 1) as real, (n + 1) as real, step);
      assert false;
    }
  }

  /** At most one whole number of steps brackets `total`. */
  lemma BracketUnique(total: real, step: real, m: nat, n: nat)
    requires 0.0 < step
    requires m as real * step <= total < (m + 1) as real * step
    requires n as real * step <= total < (n + 1) as real * step
    ensures m == n
  {
    if m < n {
      MulMonotonic((m + 1) as real, n as real, step);
      assert false;
    } else if n < m {
      MulMonotonic((n + 1) as real, m as real, step);
      assert false;
    }
  }

  /** A count of whole steps is determined by the remainder it leaves: if
      taking `step` off `total` `n` times leaves less than one step, and
      nothing negative once a step was taken, then `n` is `Steps(total, step)`. */
  lemma {:induction false} StepsExact(total: real, step: real, n: nat)
    requires 0.0 < step
    requires Drained(total, step, n) < step && (n > 0 ==> 0.0 <= Drained(total, step, n))
    ensures Steps(total, step) == n
  {
    DrainedIs(total, step, n);
    if n > 0 {
      var m := Steps(total, step);
      assert (n + 1) as real * step == n as real * step + step;
      MulMonotonic(1.0, n as real, step);
      BracketUnique(total, step, m, n);
    }
  }

  /** The loop `while (t >= step) t -= step` leaves a remainder in
      `[0, step)` when it starts from a non-negative `t`. */
  lemma {:induction false} StepsLeaveRemainder(total: real, step: real)
    requires 0.0 < step && 0.0 <= total
    ensures 0.0 <= total - Steps(total, step) as real * step < step
  {
    var n := Steps(total, step);
    if step <= total {
      assert (n + 1) as real * step == n as real * step + step;
    }
  }

  /** The ids of `ss` were all handed out by a counter now at `next`, in
      order: the last is below `next`, and the ones before it below that. */
  predicate IdsIssued(ss: seq<Star>, next: nat)
    decreases |ss|
  {
    ss == [] || (ss[|ss| - 1].id < next && IdsIssued(ss[..|ss| - 1], ss[|ss| - 1].id))
  }

  /** What `IdsIssued` means: every id is below `next`, and the ids increase
      along the sequence, so no two stars share one. */
  lemma {:induction false} IdsIssuedMeans(ss: seq<Star>, next: nat)
    ensures IdsIssued(ss, next) <==>
      && (forall i :: 0 <= i < |ss| ==> ss[i].id < next)
      && (forall i, j :: 0 <= i < j < |ss| ==> ss[i].id < ss[j].id)
    decreases |ss|
  {
    if ss != [] {
      var init, last := ss[..|ss| - 1], ss[|ss| - 1];
      IdsIssuedMeans(init, last.id);
      assert forall i :: 0 <= i < |init| ==> init[i] == ss[i];
    }
  }

  /** A star numbered `next` joins stars numbered before it, and the counter
      moves past it. */
  lemma IssueNext(ss: seq<Star>, star: Star, next: nat)
    requires IdsIssued(ss, next) && star.id == next
    ensures IdsIssued(ss + [star], next + 1)
  {
    assert (ss + [star])[..|ss|] == ss;
  }

  /** A star numbered `next` joins the newer of two buckets. */
  lemma IssueNewer(older: seq<Star>, newer: seq<Star>, star: Star, next: nat)
    requires IdsIssued(older + newer, next) && star.id == next
    ensures IdsIssued(older + (newer + [star]), next + 1)
  {
    IssueNext(older + newer, star, next);
    assert older + newer + [star] == older + (newer + [star]);
  }

  /** Dropping the stars at the front keeps the rest issued. */
  lemma {:induction false} IssuedSuffix(a: seq<Star>, b: seq<Star>, next: nat)
    requires IdsIssued(a + b, next)
    ensures IdsIssued(b, next)
    decreases |b|
  {
    if b != [] {
      var ab := a + b;
      assert ab[..|ab| - 1] == a + b[..|b| - 1];
      assert ab[|ab| - 1] == b[|b| - 1];
      IssuedSuffix(a, b[..|b| - 1], b[|b| - 1].id);
    }
  }

  /** A tick keeps the buckets or rotates them; either way the held ids stay
      issued, in order. */
  lemma IssuedAfterTick(before: seq<seq<Star>>, after: seq<seq<Star>>, next: nat)
    requires |before| == 2 && IdsIssued(before[0] + before[1], next)
    requires after == before || after == [before[1], []]
    ensures |after| == 2 && IdsIssued(after[0] + after[1], next)
  {
    if after != before {
      IssuedSuffix(before[0], before[1], next);
      assert after[0] + after[1] == before[1];
    }
  }

  /** `stars` were numbered one after another from `first`. */
  predicate NumberedFrom(stars: seq<Star>, first: nat)
    decreases |stars|
  {
    stars == [] ||
      (NumberedFrom(stars[..|stars| - 1], first) && stars[|stars| - 1].id == first + |stars| - 1)
  }

  /** Numbering one more star continues the run. */
  lemma NumberNext(stars: seq<Star>, star: Star, first: nat)
    requires NumberedFrom(stars, first) && star.id == first + |stars|
    ensures NumberedFrom(stars + [star], first)
  {
    assert (stars + [star])[..|stars|] == stars;
  }

  /** What `NumberedFrom` means: the i-th star has id `first + i`. */
  lemma {:induction false} NumberedFromMeans(stars: seq<Star>, first: nat)
    ensures NumberedFrom(stars, first) <==> forall i :: 0 <= i < |stars| ==> stars[i].id == first + i
    decreases |stars|
  {
    if stars != [] {
      var init := stars[..|stars| - 1];
      NumberedFromMeans(init, first);
      assert forall i :: 0 <= i < |init| ==> init[i] == stars[i];
    }
  }

  lemma AppendStar(bucket: seq<Star>, created: seq<Star>, star: Star)
    ensures bucket + created + [star] == bucket + (created + [star])
  {
  }

  /** One spawn slot of `handleTick`'s second loop, in counts: a star is
      added while the room lasts, and once it is used up every later slot
      is skipped. */
  lemma SlotCounts(spawns: nat, added: nat, room: int, size0: int, maxCount: int, some: bool)
    requires room == MaxInt(0, maxCount - size0) && added == MinInt(spawns, room)
    requires some <==> size0 + added < maxCount
    ensures some ==> added == spawns && added + 1 == MinInt(spawns + 1, room)
    ensures !some ==> added == MinInt(spawns + 1, room)
  {
  }

  /** A star numbered `id` extends the run of spawns. */
  lemma SpawnsExtend(before: seq<Event>, first: nat, added: nat, id: nat)
    requires id == first + added
    ensures before + SpawnEvents(first, added) + [Spawned(id)] == before + SpawnEvents(first, added + 1)
  {
  }

  /** A spawn slot that adds a star extends the run of spawns, which no
      skip has followed yet. */
  lemma SpawnedTrace(before: seq<Event>, first: nat, added: nat, skips: nat, id: nat)
    requires skips == 0 && id == first + added
    ensures before + SpawnEvents(first, added) + Repeat(Skipped, skips) + [Spawned(id)]
         == before + SpawnEvents(first, added + 1) + Repeat(Skipped, skips)
  {
  }

  /** A spawn slot without room extends the run of skips. */
  lemma SkippedTrace(before: seq<Event>, first: nat, added: nat, skips: nat)
    ensures before + SpawnEvents(first, added) + Repeat(Skipped, skips) + [Skipped]
         == before + SpawnEvents(first, added) + Repeat(Skipped, skips + 1)
  {
  }

  /** The star `createStar` makes at `position` from `sample`, numbered `id`. */
  function NewStarState(position: Vector, cfg: Settings, sample: Sample, id: nat): StarState
    requires 0.0 <= sample.roll < 1.0
  {
    StarState(position, Zero(), sample.acc, cfg.starSize, 0.0, true, sample.color,
              GetShape(cfg.starShape, sample.roll), id)
  }

  /** `createStar(position)` without a velocity bias: a new star at
      `position` whose acceleration is the sampled one, unchanged. */
  method CreateStar(position: Vector, sample: Sample, cfg: Settings, ids: IdCounter) returns (star: Star)
    requires 0.0 <= sample.roll < 1.0
    modifies ids
    ensures fresh(star)
    ensures star.Value() == NewStarState(position, cfg, sample, old(ids.next))
    ensures star.id == old(ids.next) && ids.next == old(ids.next) + 1
  {
    star := new Star(position, sample.acc, sample.color, cfg, ids, sample.roll);
  }

  class Controller {
    const state: State
    const ids: IdCounter
    var drawPosition: Vector
    var running: bool
    var lastTime: real
    var delta: real
    var starTimer: real
    /** Every call the scheduler has made on the state, in order. */
    ghost var trace: seq<Event>

    /** The state's own invariant, and the ids of the stars it holds were
        all handed out by `ids`, increasing in visiting order (so they are
        distinct; `IdsIssuedMeans`). */
    ghost predicate Valid()
      reads this, state, ids
    {
      state.Valid() && IdsIssued(state.stars[0] + state.stars[1], ids.next)
    }

    /** `new Controller(view, state)`: the draw position starts at the centre
        of the view; not running; both accumulators and the last time at 0. */
    constructor (width: real, height: real, state: State, ids: IdCounter)
      requires state.Valid() && IdsIssued(state.stars[0] + state.stars[1], ids.next)
      ensures Valid() && this.state == state && this.ids == ids
      ensures drawPosition == Vector(width / 2.0, height / 2.0)
      ensures !running && lastTime == 0.0 && delta == 0.0 && starTimer == 0.0
      ensures trace == []
    {
      this.state := state;
      this.ids := ids;
      drawPosition := Vector(width / 2.0, height / 2.0);
      running := false;
      lastTime := 0.0;
      delta := 0.0;
      starTimer := 0.0;
      trace := [];
    }

    /** `updateDrawPosition`. */
    method UpdateDrawPosition(newPos: Vector)
      modifies this`drawPosition
      ensures drawPosition == newPos
    {
      drawPosition := newPos;
    }

    /** One pass of the first loop of `handleTick`: one `state.tick`, one
        `TIMESTEP` taken off the accumulator. The state keeps the stars it
        had, less those the tick drops. */
    method Step(bounds: Box, cfg: Settings, sqrt: real -> real)
      requires Valid()
      modifies this`delta, this`trace, state, state.stars[0], state.stars[1]
      ensures Valid()
      ensures delta == old(delta) - TIMESTEP
      ensures trace == old(trace) + [Stepped(TIMESTEP, bounds)]
      ensures state.size <= old(state.size)
      ensures state.stars == old(state.stars) || state.stars == [old(state.stars[1]), []]
    {
      var before := delta;
      ghost var done := trace;
      ghost var held := state.stars;
      state.TickShrinks(TIMESTEP, bounds, cfg, sqrt);
      IssuedAfterTick(held, state.stars, ids.next);
      delta := before - TIMESTEP;
      trace := done + [Stepped(TIMESTEP, bounds)];
    }

    /** The first loop of `handleTick`: simulate the accumulated time in
        steps of `TIMESTEP`, each one `state.tick(TIMESTEP, bounds)`. */
    method Simulate(bounds: Box, cfg: Settings, sqrt: real -> real) returns (ghost steps: nat)
      requires Valid()
      modifies this`delta, this`trace, state, state.stars[0], state.stars[1]
      ensures Valid()
      ensures steps == Steps(old(delta), TIMESTEP)
      ensures delta == Drained(old(delta), TIMESTEP, steps)
      ensures 0.0 <= old(delta) ==> 0.0 <= delta < TIMESTEP
      ensures trace == old(trace) + Repeat(Stepped(TIMESTEP, bounds), steps)
      ensures state.size <= old(state.size)
    {
      steps := 0;
      ghost var due := Steps(old(delta), TIMESTEP);
      while delta >= TIMESTEP
        invariant Valid()
        invariant delta == Drained(old(delta), TIMESTEP, steps)
        invariant 0.0 <= old(delta) ==> 0.0 <= delta
        invariant steps > 0 ==> 0.0 <= delta
        invariant steps <= due
        invariant trace == old(trace) + Repeat(Stepped(TIMESTEP, bounds), steps)
        invariant state.size <= old(state.size)
        invariant forall s :: s in state.stars[0] ==> s in old(state.stars[0]) || s in old(state.stars[1])
        invariant forall s :: s in state.stars[1] ==> s in old(state.stars[0]) || s in old(state.stars[1])
        decreases due - steps
      {
        StepsAtLeast(old(delta), TIMESTEP, steps);
        assert forall i :: 0 <= i < |state.stars[0]| ==>
          state.stars[0][i] in old(state.stars[0]) || state.stars[0][i] in old(state.stars[1]);
        assert forall i :: 0 <= i < |state.stars[1]| ==>
          state.stars[1][i] in old(state.stars[0]) || state.stars[1][i] in old(state.stars[1]);
        Step(bounds, cfg, sqrt);
        steps := steps + 1;
      }
      StepsExact(old(delta), TIMESTEP, steps);
    }

    /** `state.addStar(this.createStar(drawPosition))`: a new star at the draw
        position joins the newer bucket. */
    method AddNewStar(cfg: Settings, sample: Sample) returns (star: Star)
      requires Valid() && 0.0 <= sample.roll < 1.0
      modifies this`trace, state, ids
      ensures Valid() && fresh(star)
      ensures state.stars[0] == old(state.stars[0]) && state.stars[1] == old(state.stars[1]) + [star]
      ensures state.size == old(state.size) + 1 && ids.next == old(ids.next) + 1
      ensures star.id == old(ids.next)
      ensures star.Value() == NewStarState(drawPosition, cfg, sample, old(ids.next))
      ensures trace == old(trace) + [Spawned(old(ids.next))]
    {
      ghost var older, newer, next := state.stars[0], state.stars[1], ids.next;
      star := CreateStar(drawPosition, sample, cfg, ids);
      state.AddStar(star);
      IssueNewer(older, newer, star, next);
      trace := trace + [Spawned(next)];
    }

    /** One pass of the second loop of `handleTick`: a new star when there
        is room, nothing otherwise; one `SPAWN_INTERVAL` off the timer. */
    method SpawnOne(cfg: Settings, sample: Sample) returns (star: Option<Star>)
      requires Valid() && 0.0 <= sample.roll < 1.0
      modifies this`starTimer, this`trace, state, ids
      ensures Valid()
      ensures starTimer == old(starTimer) - cfg.spawnInterval
      ensures star.Some? <==> old(state.size) < cfg.maxStarCount
      ensures star.None? ==> state.stars == old(state.stars) && state.size == old(state.size)
                             && ids.next == old(ids.next) && trace == old(trace) + [Skipped]
      ensures star.Some? ==>
        && state.stars[0] == old(state.stars[0]) && state.stars[1] == old(state.stars[1]) + [star.value]
        && state.size == old(state.size) + 1 && ids.next == old(ids.next) + 1
        && trace == old(trace) + [Spawned(old(ids.next))]
        && star.value.id == old(ids.next)
        && star.value.Value() == NewStarState(drawPosition, cfg, sample, old(ids.next))
    {
      if state.HasRoom(cfg) {
        var s := AddNewStar(cfg, sample);
        star := Some(s);
      } else {
        trace := trace + [Skipped];
        star := None;
      }
      starTimer := starTimer - cfg.spawnInterval;
    }

    /** The second loop of `handleTick`: for every `SPAWN_INTERVAL` in the
        spawn timer, add a star at the draw position if there is room, else
        skip it; the timer drains either way. */
    method Spawn(cfg: Settings, draw: nat -> Sample) returns (ghost spawns: nat, added: nat, ghost created: seq<Star>)
      requires Valid() && 0.0 < cfg.spawnInterval && ValidSamples(draw)
      modifies this`starTimer, this`trace, state, ids
      ensures Valid()
      ensures spawns == Steps(old(starTimer), cfg.spawnInterval)
      ensures starTimer == Drained(old(starTimer), cfg.spawnInterval, spawns)
      ensures 0.0 <= old(starTimer) ==> 0.0 <= starTimer < cfg.spawnInterval
      ensures added == MinInt(spawns, MaxInt(0, cfg.maxStarCount - old(state.size)))
      ensures state.size == old(state.size) + added && ids.next == old(ids.next) + added
      ensures trace == old(trace) + SpawnEvents(old(ids.next), added) + Repeat(Skipped, spawns - added)
      ensures state.stars[0] == old(state.stars[0]) && state.stars[1] == old(state.stars[1]) + created && |created| == added
      ensures forall i :: 0 <= i < |created| ==> created[i].id == old(ids.next) + i
    {
      spawns, added, created := 0, 0, [];
      ghost var skipped := 0;
      assert state.stars[1] + created == state.stars[1];
      ghost var due := Steps(old(starTimer), cfg.spawnInterval);
      ghost var room := MaxInt(0, cfg.maxStarCount - state.size);
      while starTimer >= cfg.spawnInterval
        invariant Valid()
        invariant starTimer == Drained(old(starTimer), cfg.spawnInterval, spawns)
        invariant 0.0 <= old(starTimer) ==> 0.0 <= starTimer
        invariant spawns > 0 ==> 0.0 <= starTimer
        invariant spawns <= due
        invariant added == MinInt(spawns, room)
        invariant state.size == old(state.size) + added && ids.next == old(ids.next) + added
        invariant added + skipped == spawns
        invariant trace == old(trace) + SpawnEvents(old(ids.next), added) + Repeat(Skipped, skipped)
        invariant state.stars[0] == old(state.stars[0]) && state.stars[1] == old(state.stars[1]) + created && |created| == added
        invariant NumberedFrom(created, old(ids.next))
        decreases due - spawns
      {
        StepsAtLeast(old(starTimer), cfg.spawnInterval, spawns);
        DrainOnce(old(starTimer), cfg.spawnInterval, spawns);
        SlotCounts(spawns, added, room, old(state.size), cfg.maxStarCount, state.size < cfg.maxStarCount);
        ghost var next := ids.next;
        var star := SpawnOne(cfg, draw(added));
        if star.Some? {
          SpawnedTrace(old(trace), old(ids.next), added, skipped, next);
          AppendStar(old(state.stars[1]), created, star.value);
          NumberNext(created, star.value, old(ids.next));
          created := created + [star.value];
          added := added + 1;
        } else {
          SkippedTrace(old(trace), old(ids.next), added, skipped);
          skipped := skipped + 1;
        }
        spawns := spawns + 1;
      }
      StepsExact(old(starTimer), cfg.spawnInterval, spawns);
      NumberedFromMeans(created, old(ids.next));
    }

    /** `handleTick(timestamp)`: add the time since the last call to both
        accumulators, run the simulation steps, then the spawns. */
    method HandleTick(timestamp: real, bounds: Box, cfg: Settings, sqrt: real -> real, draw: nat -> Sample)
        returns (ghost steps: nat, ghost spawns: nat, added: nat, ghost created: seq<Star>)
      requires Valid() && 0.0 < cfg.spawnInterval && ValidSamples(draw)
      modifies this`delta, this`starTimer, this`lastTime, this`trace, state, ids, state.stars[0], state.stars[1]
      ensures Valid() && lastTime == timestamp
      ensures var total := old(delta) + (timestamp - old(lastTime));
        && steps == Steps(total, TIMESTEP)
        && delta == Drained(total, TIMESTEP, steps)
        && (0.0 <= total ==> 0.0 <= delta < TIMESTEP)
      ensures var total := old(starTimer) + (timestamp - old(lastTime));
        && spawns == Steps(total, cfg.spawnInterval)
        && starTimer == Drained(total, cfg.spawnInterval, spawns)
        && (0.0 <= total ==> 0.0 <= starTimer < cfg.spawnInterval)
      ensures added <= spawns && state.size <= old(state.size) + added
      ensures |created| == added && |created| <= |state.stars[1]|
      ensures state.stars[1][|state.stars[1]| - added..] == created
      ensures forall i :: 0 <= i < |created| ==> created[i].id == old(ids.next) + i
      ensures trace == old(trace) + Repeat(Stepped(TIMESTEP, bounds), steps)
                     + SpawnEvents(old(ids.next), added) + Repeat(Skipped, spawns - added)
    {
      var diff := timestamp - lastTime;
      delta := delta + diff;
      starTimer := starTimer + diff;
      lastTime := timestamp;
      steps := Simulate(bounds, cfg, sqrt);
      spawns, added, created := Spawn(cfg, draw);
    }

    /** `fillStars`: add stars at the draw position until there is no room. */
    method FillStars(cfg: Settings, draw: nat -> Sample) returns (added: nat, ghost created: seq<Star>)
      requires Valid() && ValidSamples(draw)
      modifies this`trace, state, ids
      ensures Valid() && !state.HasRoom(cfg)
      ensures added == MaxInt(0, cfg.maxStarCount - old(state.size))
      ensures state.size == old(state.size) + added && ids.next == old(ids.next) + added
      ensures trace == old(trace) + SpawnEvents(old(ids.next), added)
      ensures state.stars == [old(state.stars[0]), old(state.stars[1]) + created] && |created| == added
      ensures forall i :: 0 <= i < |created| ==> created[i].id == old(ids.next) + i
    {
      added, created := 0, [];
      assert state.stars[1] + created == state.stars[1];
      while state.HasRoom(cfg)
        invariant Valid()
        invariant state.size == old(state.size) + added && ids.next == old(ids.next) + added
        invariant added <= MaxInt(0, cfg.maxStarCount - old(state.size))
        invariant trace == old(trace) + SpawnEvents(old(ids.next), added)
        invariant state.stars[0] == old(state.stars[0]) && state.stars[1] == old(state.stars[1]) + created
        invariant |created| == added
        invariant NumberedFrom(created, old(ids.next))
        decreases cfg.maxStarCount - state.size
      {
        ghost var next := ids.next;
        var star := AddNewStar(cfg, draw(added));
        SpawnsExtend(old(trace), old(ids.next), added, next);
        AppendStar(old(state.stars[1]), created, star);
        NumberNext(created, star, old(ids.next));
        created := created + [star];
        added := added + 1;
      }
      assert state.stars == [old(state.stars[0]), old(state.stars[1]) + created];
      NumberedFromMeans(created, old(ids.next));
    }

    /** `start(now)`: nothing if already running; otherwise set the flag and
        take `now` as the last time. */
    method Start(now: real)
      modifies this`running, this`lastTime
      ensures running
      ensures lastTime == if old(running) then old(lastTime) else now
    {
      if running {
        return;
      }
      running := true;
      lastTime := now;
    }

    /** `stop`. */
    method Stop()
      modifies this`running
      ensures !running
    {
      running := false;
    }

    /** `toggle(now)`: stop when running, start otherwise. */
    method Toggle(now: real)
      modifies this`running, this`lastTime
      ensures running == !old(running)
      ensures lastTime == if old(running) then old(lastTime) else now
    {
      if running {
        Stop();
      } else {
        Start(now);
      }
    }
  }
}
