/** The simulation state (src/state.js): stars kept in two generations
    ("buckets"), a live count `size`, soft deletion through `living`, and an
    accumulator `delta` (seconds) that rotates the buckets once a lifespan
    has passed. */
module Simulation {
  import opened Vectors
  import opened Boxes
  import opened Variables
  import opened Stars

  /** `shouldRemoveStar`: a living star is removed once its footprint no
      longer overlaps the bounds or its age has reached the lifespan; a star
      already removed never is again. */
  function ShouldRemoveStar(s: StarState, bounds: Box, lifespan: real): (r: bool)
    ensures r ==> s.living
    ensures s.living && s.age < lifespan && Contains(bounds, s.pos) ==> !r
  {
    if !s.living then false
    else !Overlaps(bounds, Footprint(s)) || s.age >= lifespan
  }

  /** What one `tick` does to one star that it visits: advance it by the
      elapsed time in seconds, then mark it removed if it should be. */
  function StepStar(s: StarState, elapsedMs: real, bounds: Box, cfg: Settings, sqrt: real -> real): StarState {
    var t := Advance(s, elapsedMs / 1000.0, cfg, sqrt);
    if ShouldRemoveStar(t, bounds, cfg.lifespan) then t.(living := false) else t
  }

  /** Whether a star is removed (and `size` decremented) in that step. */
  predicate RemovedBy(s: StarState, elapsedMs: real, bounds: Box, cfg: Settings, sqrt: real -> real)
    ensures RemovedBy(s, elapsedMs, bounds, cfg, sqrt) ==> s.living
  {
    ShouldRemoveStar(Advance(s, elapsedMs / 1000.0, cfg, sqrt), bounds, cfg.lifespan)
  }

  /** The values a tick leaves behind for the stars it visits. */
  function StepAll(ss: seq<StarState>, elapsedMs: real, bounds: Box, cfg: Settings, sqrt: real -> real): (r: seq<StarState>)
    ensures |r| == |ss|
    ensures forall i {:trigger StepStar(ss[i], elapsedMs, bounds, cfg, sqrt)} :: 0 <= i < |ss| ==> r[i] == StepStar(ss[i], elapsedMs, bounds, cfg, sqrt)
  {
    seq(|ss|, i requires 0 <= i < |ss| => StepStar(ss[i], elapsedMs, bounds, cfg, sqrt))
  }

  lemma StepAllAppend(a: seq<StarState>, b: seq<StarState>, elapsedMs: real, bounds: Box, cfg: Settings, sqrt: real -> real)
    ensures StepAll(a + b, elapsedMs, bounds, cfg, sqrt)
         == StepAll(a, elapsedMs, bounds, cfg, sqrt) + StepAll(b, elapsedMs, bounds, cfg, sqrt)
  {
  }

  /** How many of the stars a step removes. */
  function Removals(ss: seq<StarState>, elapsedMs: real, bounds: Box, cfg: Settings, sqrt: real -> real): (n: nat)
    ensures n <= |ss|
  {
    if ss == [] then 0
    else
      Removals(ss[..|ss| - 1], elapsedMs, bounds, cfg, sqrt)
        + (if RemovedBy(ss[|ss| - 1], elapsedMs, bounds, cfg, sqrt) then 1 else 0)
  }

  lemma RemovalsAppend(a: seq<StarState>, b: seq<StarState>, elapsedMs: real, bounds: Box, cfg: Settings, sqrt: real -> real)
    ensures Removals(a + b, elapsedMs, bounds, cfg, sqrt)
         == Removals(a, elapsedMs, bounds, cfg, sqrt) + Removals(b, elapsedMs, bounds, cfg, sqrt)
    decreases |b|
  {
    if b != [] {
      assert (a + b)[..|a + b| - 1] == a + b[..|b| - 1];
      RemovalsAppend(a, b[..|b| - 1], elapsedMs, bounds, cfg, sqrt);
    } else {
      assert a + b == a;
    }
  }

  /** How many stars go from living to not living between `before` and
      `after`. */
  function Deaths(before: seq<StarState>, after: seq<StarState>): (n: nat)
    requires |before| == |after|
    ensures n <= |before|
  {
    if before == [] then 0
    else
      Deaths(before[..|before| - 1], after[..|after| - 1])
        + (if before[|before| - 1].living && !after[|after| - 1].living then 1 else 0)
  }

  lemma DeathsOfPrefix(before: seq<StarState>, after: seq<StarState>, k: nat)
    requires |before| == |after| && k < |before|
    ensures Deaths(before[..k + 1], after[..k + 1])
         == Deaths(before[..k], after[..k]) + (if before[k].living && !after[k].living then 1 else 0)
  {
    assert before[..k + 1][..k] == before[..k];
    assert after[..k + 1][..k] == after[..k];
  }

  /** A step removes a star exactly when it takes it from living to not
      living. */
  lemma RemovedIffDies(s: StarState, elapsedMs: real, bounds: Box, cfg: Settings, sqrt: real -> real)
    ensures RemovedBy(s, elapsedMs, bounds, cfg, sqrt) <==> s.living && !StepStar(s, elapsedMs, bounds, cfg, sqrt).living
  {
  }

  /** So the stars a step removes are those it leaves dead. */
  lemma {:induction false} DeathsAreRemovals(ss: seq<StarState>, elapsedMs: real, bounds: Box, cfg: Settings, sqrt: real -> real)
    ensures Deaths(ss, StepAll(ss, elapsedMs, bounds, cfg, sqrt)) == Removals(ss, elapsedMs, bounds, cfg, sqrt)
    decreases |ss|
  {
    if ss != [] {
      var n := |ss| - 1;
      var after := StepAll(ss, elapsedMs, bounds, cfg, sqrt);
      assert after[..n] == StepAll(ss[..n], elapsedMs, bounds, cfg, sqrt);
      DeathsAreRemovals(ss[..n], elapsedMs, bounds, cfg, sqrt);
      RemovedIffDies(ss[n], elapsedMs, bounds, cfg, sqrt);
    }
  }

  /** How many of the stars are living: the number `size` is meant to
      hold. */
  function LiveCount(ss: seq<StarState>): (n: nat)
    ensures n <= |ss|
  {
    if ss == [] then 0
    else LiveCount(ss[..|ss| - 1]) + (if ss[|ss| - 1].living then 1 else 0)
  }

  lemma LiveCountAppend(a: seq<StarState>, b: seq<StarState>)
    ensures LiveCount(a + b) == LiveCount(a) + LiveCount(b)
    decreases |b|
  {
    if b != [] {
      assert (a + b)[..|a + b| - 1] == a + b[..|b| - 1];
      LiveCountAppend(a, b[..|b| - 1]);
    } else {
      assert a + b == a;
    }
  }

  lemma LiveCountSnoc(ss: seq<StarState>, t: StarState)
    ensures LiveCount(ss + [t]) == LiveCount(ss) + (if t.living then 1 else 0)
  {
    assert (ss + [t])[..|ss|] == ss;
  }

  /** `addStar` keeps the count: a living star joins the newer bucket and
      `size` grows by one. */
  lemma AddStarCounts(older: seq<StarState>, newer: seq<StarState>, t: StarState, size: int, leaked: nat)
    requires size == LiveCount(older + newer) + leaked && t.living
    ensures size + 1 == LiveCount(older + (newer + [t])) + leaked
  {
    assert older + (newer + [t]) == (older + newer) + [t];
    LiveCountSnoc(older + newer, t);
  }

  /** A step takes exactly the stars it removes out of the living ones. */
  lemma {:induction false} LiveAfterStep(ss: seq<StarState>, elapsedMs: real, bounds: Box, cfg: Settings, sqrt: real -> real)
    ensures LiveCount(StepAll(ss, elapsedMs, bounds, cfg, sqrt)) + Removals(ss, elapsedMs, bounds, cfg, sqrt)
         == LiveCount(ss)
    decreases |ss|
  {
    if ss != [] {
      var n := |ss| - 1;
      var after := StepAll(ss, elapsedMs, bounds, cfg, sqrt);
      assert after[..n] == StepAll(ss[..n], elapsedMs, bounds, cfg, sqrt);
      LiveAfterStep(ss[..n], elapsedMs, bounds, cfg, sqrt);
      StepKeepsLivingUnlessRemoved(ss[n], elapsedMs, bounds, cfg, sqrt);
    }
  }

  /** The count of one tick over the buckets `older` and `newer`: the living
      stars after it, the removals it makes, and, on a rotation, the living
      stars of the dropped bucket add up to the living stars before it. */
  lemma TickLiveCount(older: seq<StarState>, newer: seq<StarState>, shift: bool,
                      elapsedMs: real, bounds: Box, cfg: Settings, sqrt: real -> real)
    ensures var kept := if shift then newer else older + newer;
      LiveCount(StepAll(kept, elapsedMs, bounds, cfg, sqrt)) + Removals(kept, elapsedMs, bounds, cfg, sqrt)
        + (if shift then LiveCount(older) else 0)
      == LiveCount(older + newer)
  {
    LiveCountAppend(older, newer);
    LiveAfterStep(if shift then newer else older + newer, elapsedMs, bounds, cfg, sqrt);
  }

  /** Whether a tick that adds `elapsedMs` to the accumulator rotates the
      buckets. */
  predicate Shifts(accumulated: real, elapsedMs: real, lifespan: real) {
    accumulated + elapsedMs / 1000.0 >= lifespan
  }

  /** The values the stars hold in the current heap, in order. */
  function Values(ss: seq<Star>): (r: seq<StarState>)
    reads set s | s in ss
    ensures |r| == |ss| && forall i :: 0 <= i < |ss| ==> r[i] == ss[i].Value()
  {
    seq(|ss|, i requires 0 <= i < |ss| reads set s | s in ss => ss[i].Value())
  }

  lemma ValuesAppend(a: seq<Star>, b: seq<Star>)
    ensures Values(a + b) == Values(a) + Values(b)
  {
  }

  predicate Distinct(ss: seq<Star>) {
    forall i, j :: 0 <= i < j < |ss| ==> ss[i] != ss[j]
  }

  lemma DistinctSuffix(a: seq<Star>, b: seq<Star>)
    requires Distinct(a + b)
    ensures Distinct(b)
  {
    forall i, j | 0 <= i < j < |b|
      ensures b[i] != b[j]
    {
      assert b[i] == (a + b)[|a| + i] && b[j] == (a + b)[|a| + j];
    }
  }

  /** A star held in neither bucket can join the newer one. */
  lemma DistinctJoin(a: seq<Star>, b: seq<Star>, star: Star)
    requires Distinct(a + b) && star !in a && star !in b
    ensures Distinct(a + (b + [star]))
  {
    var c := a + (b + [star]);
    assert c == (a + b) + [star];
    forall i, j | 0 <= i < j < |c|
      ensures c[i] != c[j]
    {
      if j == |c| - 1 {
        assert c[i] in a || c[i] in b by {
          if i < |a| { assert c[i] == a[i]; } else { assert c[i] == b[i - |a|]; }
        }
      } else {
        assert c[i] == (a + b)[i] && c[j] == (a + b)[j];
      }
    }
  }

  /** The two buckets share no star, and neither holds a star twice. */
  lemma BucketsAreDistinct(a: seq<Star>, b: seq<Star>, which: nat)
    requires Distinct(a + b) && which < 2
    ensures Distinct([a, b][which])
    ensures forall i, j :: 0 <= i < |a| && 0 <= j < |b| ==> a[i] != b[j]
  {
    forall i, j | 0 <= i < |a| && 0 <= j < |b|
      ensures a[i] != b[j]
    {
      assert a[i] == (a + b)[i] && b[j] == (a + b)[|a| + j];
    }
    DistinctSuffix(a, b);
    assert a == (a + b)[..|a|];
  }

  /** The bucket a rotation drops shares no star with the one it keeps. */
  lemma DroppedAreNotKept(a: seq<Star>, b: seq<Star>)
    requires Distinct(a + b)
    ensures forall s :: s in a ==> s !in b
    ensures forall s :: s in b ==> s !in a
  {
    BucketsAreDistinct(a, b, 0);
  }

  /** A step leaves a star living exactly when it was living and the step
      did not remove it; a star that survives a step overlaps the bounds and
      is younger than the lifespan. */
  lemma StepKeepsLivingUnlessRemoved(s: StarState, elapsedMs: real, bounds: Box, cfg: Settings, sqrt: real -> real)
    ensures var t := StepStar(s, elapsedMs, bounds, cfg, sqrt);
      && (RemovedBy(s, elapsedMs, bounds, cfg, sqrt) <==> s.living && !t.living)
      && (t.living <==> s.living && !RemovedBy(s, elapsedMs, bounds, cfg, sqrt))
      && (t.living ==> Overlaps(bounds, Footprint(t)) && t.age < cfg.lifespan)
  {
  }

  /** The conditions of one step a star goes through. */
  datatype Frame = Frame(elapsedMs: real, bounds: Box)

  /** How many times `removeStar` is called on one star over a run of ticks
      that each visit it. */
  function LifetimeRemovals(s: StarState, frames: seq<Frame>, cfg: Settings, sqrt: real -> real): (n: nat)
    decreases |frames|
  {
    if frames == [] then 0
    else
      var f := frames[0];
      (if RemovedBy(s, f.elapsedMs, f.bounds, cfg, sqrt) then 1 else 0)
        + LifetimeRemovals(StepStar(s, f.elapsedMs, f.bounds, cfg, sqrt), frames[1..], cfg, sqrt)
  }

  /** A star that is no longer living is never removed again. */
  lemma {:induction false} DeadStarIsNeverRemoved(s: StarState, frames: seq<Frame>, cfg: Settings, sqrt: real -> real)
    requires !s.living
    ensures LifetimeRemovals(s, frames, cfg, sqrt) == 0
    decreases |frames|
  {
    if frames != [] {
      var f := frames[0];
      StepKeepsLivingUnlessRemoved(s, f.elapsedMs, f.bounds, cfg, sqrt);
      DeadStarIsNeverRemoved(StepStar(s, f.elapsedMs, f.bounds, cfg, sqrt), frames[1..], cfg, sqrt);
    }
  }

  /** Each star is removed, and `size` decremented for it, at most once over
      its lifetime, and never if it starts out removed. */
  lemma {:induction false} RemovedAtMostOnce(s: StarState, frames: seq<Frame>, cfg: Settings, sqrt: real -> real)
    ensures LifetimeRemovals(s, frames, cfg, sqrt) <= 1
    ensures !s.living ==> LifetimeRemovals(s, frames, cfg, sqrt) == 0
    decreases |frames|
  {
    if frames != [] {
      var f := frames[0];
      var t := StepStar(s, f.elapsedMs, f.bounds, cfg, sqrt);
      StepKeepsLivingUnlessRemoved(s, f.elapsedMs, f.bounds, cfg, sqrt);
      if RemovedBy(s, f.elapsedMs, f.bounds, cfg, sqrt) {
        DeadStarIsNeverRemoved(t, frames[1..], cfg, sqrt);
      } else {
        RemovedAtMostOnce(t, frames[1..], cfg, sqrt);
      }
    }
  }

  /** A step that does not remove the star only advances it. */
  lemma KeptStep(s: StarState, elapsedMs: real, bounds: Box, cfg: Settings, sqrt: real -> real)
    requires !RemovedBy(s, elapsedMs, bounds, cfg, sqrt)
    ensures StepStar(s, elapsedMs, bounds, cfg, sqrt) == Advance(s, elapsedMs / 1000.0, cfg, sqrt)
  {
  }

  /** A living star at rest inside the bounds, younger than the lifespan
      after the step, is not removed by it. */
  lemma {:induction false} RestingStarIsKept(s: StarState, elapsedMs: real, bounds: Box, cfg: Settings, sqrt: real -> real)
    requires s.living && s.vel == Zero() && s.acc == Zero()
    requires Contains(bounds, s.pos) && s.age + elapsedMs / 1000.0 < cfg.lifespan
    ensures !RemovedBy(s, elapsedMs, bounds, cfg, sqrt)
  {
    RestingPositionKept(s, elapsedMs, cfg, sqrt);
  }

  /** The position half of `RestingStarStays` for a step of `elapsedMs`
      milliseconds (kept apart so that callers see only this fact). */
  lemma RestingPositionKept(s: StarState, elapsedMs: real, cfg: Settings, sqrt: real -> real)
    requires s.vel == Zero() && s.acc == Zero()
    ensures Advance(s, elapsedMs / 1000.0, cfg, sqrt).pos == s.pos
  {
    RestingStarStays(s, elapsedMs / 1000.0, cfg, sqrt);
  }

  /** Such a star comes out of the step living, where it was. */
  lemma {:induction false} RestingStarSurvives(s: StarState, elapsedMs: real, bounds: Box, cfg: Settings, sqrt: real -> real)
    requires s.living && s.vel == Zero() && s.acc == Zero()
    requires Contains(bounds, s.pos) && s.age + elapsedMs / 1000.0 < cfg.lifespan
    ensures var u := StepStar(s, elapsedMs, bounds, cfg, sqrt); u.living && u.pos == s.pos
  {
    RestingPositionKept(s, elapsedMs, cfg, sqrt);
    RestingStarIsKept(s, elapsedMs, bounds, cfg, sqrt);
    KeptStep(s, elapsedMs, bounds, cfg, sqrt);
  }

  /** A step ages a star by the elapsed time and keeps its acceleration. */
  lemma StepAdvancesAge(s: StarState, elapsedMs: real, bounds: Box, cfg: Settings, sqrt: real -> real)
    ensures var u := StepStar(s, elapsedMs, bounds, cfg, sqrt);
      u.age == s.age + elapsedMs / 1000.0 && u.acc == s.acc
  {
    AdvanceKeeps(s, elapsedMs / 1000.0, cfg, sqrt);
  }

  /** The velocity half of `RestingStarStays`, kept apart like
      `RestingPositionKept`. */
  lemma RestingVelocityKept(s: StarState, elapsedMs: real, cfg: Settings, sqrt: real -> real)
    requires s.vel == Zero() && s.acc == Zero()
    ensures Advance(s, elapsedMs / 1000.0, cfg, sqrt).vel == Zero()
  {
    RestingStarStays(s, elapsedMs / 1000.0, cfg, sqrt);
  }

  /** Such a step leaves the star at rest. */
  lemma RestingStepStaysAtRest(s: StarState, elapsedMs: real, bounds: Box, cfg: Settings, sqrt: real -> real)
    requires s.living && s.vel == Zero() && s.acc == Zero()
    requires Contains(bounds, s.pos) && s.age + elapsedMs / 1000.0 < cfg.lifespan
    ensures StepStar(s, elapsedMs, bounds, cfg, sqrt).vel == Zero()
  {
    RestingStarIsKept(s, elapsedMs, bounds, cfg, sqrt);
    KeptStep(s, elapsedMs, bounds, cfg, sqrt);
    RestingVelocityKept(s, elapsedMs, cfg, sqrt);
  }

  /** A rotation can drop a star that is still living, so `removeStar` never
      runs for it and `size` keeps counting it. With a one-second lifespan
      and ticks of 400 ms, a star that joins the newer bucket when the
      accumulator stands at 0.8 s is moved to the older bucket by the next
      tick (1.2 s), survives the one after (0.6 s), and is dropped by the
      third (1.0 s) while living at age 0.8 s. */
  lemma RotationDropsLivingStar(sqrt: real -> real)
    ensures var cfg := Settings(Square, 1.0, 0.1, 1.0, 0.0, 100, 1.0);
      var bounds := Box(0.0, 0.0, 10.0, 10.0);
      var s0 := StarState(Vector(5.0, 5.0), Zero(), Zero(), 1.0, 0.0, true, "#fff", Square, 0);
      var s2 := StepStar(StepStar(s0, 400.0, bounds, cfg, sqrt), 400.0, bounds, cfg, sqrt);
      && Shifts(0.8, 400.0, cfg.lifespan) && !Shifts(0.8 + 0.4 - 1.0, 400.0, cfg.lifespan)
      && Shifts(0.8 + 0.4 - 1.0 + 0.4, 400.0, cfg.lifespan)
      && s2.living && s2.age == 0.8 && s2.age < cfg.lifespan
  {
    var cfg := Settings(Square, 1.0, 0.1, 1.0, 0.0, 100, 1.0);
    var bounds := Box(0.0, 0.0, 10.0, 10.0);
    var s0 := StarState(Vector(5.0, 5.0), Zero(), Zero(), 1.0, 0.0, true, "#fff", Square, 0);
    var s1 := StepStar(s0, 400.0, bounds, cfg, sqrt);
    RestingStarSurvives(s0, 400.0, bounds, cfg, sqrt);
    RestingStepStaysAtRest(s0, 400.0, bounds, cfg, sqrt);
    StepAdvancesAge(s0, 400.0, bounds, cfg, sqrt);
    RestingStarSurvives(s1, 400.0, bounds, cfg, sqrt);
    StepAdvancesAge(s1, 400.0, bounds, cfg, sqrt);
  }

  /** A field the source reads but never assigns: reading it gives
      `undefined`. */
  datatype Field<T> = Undefined | Defined(value: T)

  /** `shouldRemoveStar` as src/state.js:101-104 runs against stars built by
      src/star.js, which assigns neither `living` nor `age`: `!undefined` is
      true, so the early return is taken; `undefined >= lifespan` is false. */
  function ShouldRemoveStarAsWritten(living: Field<bool>, age: Field<real>, footprint: Box, bounds: Box, lifespan: real): (r: bool)
    ensures living == Undefined ==> !r
  {
    if !(living.Defined? && living.value) then false
    else !Overlaps(bounds, footprint) || (age.Defined? && age.value >= lifespan)
  }

  /** Once both fields are assigned, the code as written and the model agree. */
  lemma AsWrittenAgreesWhenAssigned(s: StarState, bounds: Box, lifespan: real)
    ensures ShouldRemoveStarAsWritten(Defined(s.living), Defined(s.age), Footprint(s), bounds, lifespan)
         == ShouldRemoveStar(s, bounds, lifespan)
  {
  }

  /** A new star far outside a 10x10 view: the model removes it on its first
      tick, the code as written never does, so it keeps its place in `size`
      and `hasRoom` eventually stays false. */
  lemma StrayStarIsNeverRemovedAsWritten(sqrt: real -> real)
    ensures var s := StarState(Vector(100.0, 100.0), Zero(), Zero(), 1.0, 0.0, true, "#fff", Square, 0);
      var bounds := Box(0.0, 0.0, 10.0, 10.0);
      && ShouldRemoveStar(s, bounds, 1.0)
      && !ShouldRemoveStarAsWritten(Undefined, Undefined, Footprint(s), bounds, 1.0)
  {
    var s := StarState(Vector(100.0, 100.0), Zero(), Zero(), 1.0, 0.0, true, "#fff", Square, 0);
    assert Footprint(s) == Box(99.5, 99.5, 100.5, 100.5);
  }

  class State {
    var stars: seq<seq<Star>>
    var size: int
    var delta: real
    /** How many stars a rotation has dropped while they were still living:
        `removeStar` never ran for them, so `size` still counts them. */
    ghost var leaked: nat

    ghost predicate Valid()
      reads this
    {
      |stars| == 2 && Distinct(stars[0] + stars[1])
    }

    /** The order in which `eachStar` visits the stars: the older bucket,
        then the newer one, each in insertion order. */
    function Visits(): (r: seq<Star>)
      reads this`stars
      requires |stars| == 2
      ensures |r| == |stars[0]| + |stars[1]|
      ensures forall i :: 0 <= i < |stars[0]| ==> r[i] == stars[0][i]
      ensures forall i :: 0 <= i < |stars[1]| ==> r[|stars[0]| + i] == stars[1][i]
    {
      stars[0] + stars[1]
    }

    /** The count `size` keeps: the living stars held, plus those a rotation
        dropped while living. With `leaked` at 0 this is the design's
        "`size` is the number of stars present". */
    ghost predicate Counted()
      requires |stars| == 2
      reads this`stars, this`size, this`leaked, set s | s in Visits()
    {
      size == LiveCount(Values(Visits())) + leaked
    }

    /** The stars a tick keeps: the newer bucket alone when it rotates. */
    function Kept(shift: bool): seq<Star>
      reads this`stars
      requires |stars| == 2
    {
      if shift then stars[1] else stars[0] + stars[1]
    }

    constructor ()
      ensures Valid() && Counted() && leaked == 0
      ensures stars == [[], []] && size == 0 && delta == 0.0
    {
      stars := [[], []];
      size := 0;
      delta := 0.0;
      leaked := 0;
    }

    /** `addStar`: append to the newer bucket and count it. */
    method AddStar(star: Star)
      requires Valid() && star !in stars[0] && star !in stars[1]
      modifies this
      ensures Valid()
      ensures stars == [old(stars[0]), old(stars[1]) + [star]]
      ensures size == old(size) + 1 && delta == old(delta) && leaked == old(leaked)
    {
      DistinctJoin(stars[0], stars[1], star);
      stars := [stars[0], stars[1] + [star]];
      size := size + 1;
    }

    /** `removeStar`: mark the star dead and uncount it; the buckets keep it. */
    method RemoveStar(star: Star)
      modifies this, star
      ensures star.Value() == old(star.Value()).(living := false)
      ensures size == old(size) - 1
      ensures stars == old(stars) && delta == old(delta) && leaked == old(leaked)
    {
      star.living := false;
      size := size - 1;
    }

    function CountStars(): int
      reads this
    {
      size
    }

    /** `hasRoom`: the live count is below `MAX_STAR_COUNT`. */
    function HasRoom(cfg: Settings): (r: bool)
      reads this
      ensures r <==> size < cfg.maxStarCount
    {
      CountStars() < cfg.maxStarCount
    }

    /** `shiftStars`: the newer bucket becomes the older one, and a new empty
        bucket takes its place; the old older bucket is dropped. */
    method ShiftStars()
      requires Valid()
      modifies this
      ensures Valid()
      ensures stars == [old(stars[1]), []]
      ensures size == old(size) && delta == old(delta)
      ensures leaked == old(leaked) + LiveCount(old(Values(stars[0])))
    {
      leaked := leaked + LiveCount(Values(stars[0]));
      stars := stars[1..];
      stars := stars + [[]];
      DistinctSuffix(old(stars[0]), old(stars[1]));
      assert Visits() == old(stars[1]);
    }

    /** What `tick` does to each star it visits. */
    method VisitStar(star: Star, elapsedMs: real, bounds: Box, cfg: Settings, sqrt: real -> real)
      modifies this, star
      ensures star.Value() == StepStar(old(star.Value()), elapsedMs, bounds, cfg, sqrt)
      ensures size == old(size) - (if old(star.Value()).living && !star.Value().living then 1 else 0)
      ensures stars == old(stars) && delta == old(delta) && leaked == old(leaked)
    {
      star.Tick(elapsedMs / 1000.0, cfg, sqrt);
      if ShouldRemoveStar(star.Value(), bounds, cfg.lifespan) {
        RemoveStar(star);
      }
    }

    /** Pass `i` of the loop over a bucket: the `i`-th star is visited and
        the others keep their values. */
    method VisitAt(bucket: seq<Star>, i: nat, elapsedMs: real, bounds: Box, cfg: Settings, sqrt: real -> real,
                   ghost before: seq<StarState>, ghost after: seq<StarState>)
      requires Distinct(bucket) && i < |bucket| && |before| == |bucket| && |after| == |bucket|
      requires after[i] == StepStar(before[i], elapsedMs, bounds, cfg, sqrt)
      requires forall j :: 0 <= j < |bucket| ==> bucket[j].Value() == if j < i then after[j] else before[j]
      modifies this, bucket[i]
      ensures stars == old(stars) && delta == old(delta) && leaked == old(leaked)
      ensures forall j :: 0 <= j < |bucket| ==> bucket[j].Value() == if j <= i then after[j] else before[j]
      ensures size == old(size) - (if before[i].living && !after[i].living then 1 else 0)
    {
      var star := bucket[i];
      assert forall j :: 0 <= j < |bucket| && j != i ==> bucket[j] != star;
      VisitStar(star, elapsedMs, bounds, cfg, sqrt);
    }

    /** One pass of `eachStar` over bucket `b`: tick each of its stars, in
        order, and remove those that should be. */
    method TickBucket(b: nat, elapsedMs: real, bounds: Box, cfg: Settings, sqrt: real -> real,
                      ghost before: seq<StarState>)
      requires Valid() && b < 2 && Values(stars[b]) == before
      modifies this, stars[b]
      ensures stars == old(stars) && delta == old(delta) && leaked == old(leaked)
      ensures Values(stars[b]) == StepAll(before, elapsedMs, bounds, cfg, sqrt)
      ensures size == old(size) - Removals(before, elapsedMs, bounds, cfg, sqrt)
    {
      var bucket := stars[b];
      ghost var after := StepAll(before, elapsedMs, bounds, cfg, sqrt);
      assert Distinct(bucket) by {
        BucketsAreDistinct(stars[0], stars[1], b);
        assert [stars[0], stars[1]][b] == bucket;
      }
      for i := 0 to |bucket|
        invariant stars == old(stars) && delta == old(delta) && leaked == old(leaked)
        invariant forall j :: 0 <= j < |bucket| ==> bucket[j].Value() == if j < i then after[j] else before[j]
        invariant size == old(size) - Deaths(before[..i], after[..i])
      {
        assert after[i] == StepStar(before[i], elapsedMs, bounds, cfg, sqrt);
        DeathsOfPrefix(before, after, i);
        VisitAt(bucket, i, elapsedMs, bounds, cfg, sqrt, before, after);
      }
      assert before[..|bucket|] == before && after[..|bucket|] == after;
      DeathsAreRemovals(before, elapsedMs, bounds, cfg, sqrt);
    }

    /** The first half of `tick`: add the elapsed time, in seconds, to the
        accumulator and rotate the buckets once if a lifespan has passed. */
    method Age(elapsedMs: real, lifespan: real)
      requires Valid()
      modifies this
      ensures Valid() && size == old(size)
      ensures leaked == old(leaked) + (if Shifts(old(delta), elapsedMs, lifespan) then LiveCount(old(Values(stars[0]))) else 0)
      ensures var shift := Shifts(old(delta), elapsedMs, lifespan);
        && stars == (if shift then [old(stars[1]), []] else old(stars))
        && delta == old(delta) + elapsedMs / 1000.0 - (if shift then lifespan else 0.0)
        && Visits() == old(Kept(shift))
        && Values(Visits()) == old(Values(Kept(shift)))
    {
      delta := delta + elapsedMs / 1000.0;
      if delta >= lifespan {
        ShiftStars();
        delta := delta - lifespan;
      }
    }

    /** `eachStar` with the body `tick` runs: both buckets, older first. */
    method TickAll(elapsedMs: real, bounds: Box, cfg: Settings, sqrt: real -> real,
                   ghost before0: seq<StarState>, ghost before1: seq<StarState>)
      requires Valid() && Values(stars[0]) == before0 && Values(stars[1]) == before1
      modifies this, stars[0], stars[1]
      ensures stars == old(stars) && delta == old(delta) && leaked == old(leaked)
      ensures Values(Visits()) == StepAll(before0 + before1, elapsedMs, bounds, cfg, sqrt)
      ensures size == old(size) - Removals(before0 + before1, elapsedMs, bounds, cfg, sqrt)
    {
      DroppedAreNotKept(stars[0], stars[1]);
      TickBucket(0, elapsedMs, bounds, cfg, sqrt, before0);
      assert Values(stars[1]) == before1;
      TickBucket(1, elapsedMs, bounds, cfg, sqrt, before1);
      assert Values(stars[0]) == StepAll(before0, elapsedMs, bounds, cfg, sqrt);
      assert Values(Visits()) == StepAll(before0 + before1, elapsedMs, bounds, cfg, sqrt) by {
        ValuesAppend(stars[0], stars[1]);
        StepAllAppend(before0, before1, elapsedMs, bounds, cfg, sqrt);
      }
      RemovalsAppend(before0, before1, elapsedMs, bounds, cfg, sqrt);
    }

    /** `tick(delta, bounds)`: add the elapsed time to the accumulator and
        rotate the buckets at most once if a lifespan has been reached; then
        advance every star still in a bucket, in `eachStar` order, and remove
        those that should be. Stars dropped by the rotation are left as they
        were. */
    method Tick(elapsedMs: real, bounds: Box, cfg: Settings, sqrt: real -> real)
      requires Valid()
      modifies this, Kept(Shifts(delta, elapsedMs, cfg.lifespan))
      ensures Valid()
      ensures var shift := Shifts(old(delta), elapsedMs, cfg.lifespan);
        && stars == (if shift then [old(stars[1]), []] else old(stars))
        && delta == old(delta) + elapsedMs / 1000.0 - (if shift then cfg.lifespan else 0.0)
      ensures var shift := Shifts(old(delta), elapsedMs, cfg.lifespan);
        Values(Visits()) == StepAll(old(Values(Kept(shift))), elapsedMs, bounds, cfg, sqrt)
      ensures var shift := Shifts(old(delta), elapsedMs, cfg.lifespan);
        size == old(size) - Removals(old(Values(Kept(shift))), elapsedMs, bounds, cfg, sqrt)
      ensures size <= old(size)
      ensures leaked == old(leaked) + (if Shifts(old(delta), elapsedMs, cfg.lifespan) then LiveCount(old(Values(stars[0]))) else 0)
      ensures old(Counted()) ==> Counted()
    {
      ghost var shift := Shifts(delta, elapsedMs, cfg.lifespan);
      ghost var older, newer := Values(stars[0]), Values(stars[1]);
      ValuesAppend(stars[0], stars[1]);
      Age(elapsedMs, cfg.lifespan);
      ghost var before0 := Values(stars[0]);
      ghost var before1 := Values(stars[1]);
      ValuesAppend(stars[0], stars[1]);
      TickAll(elapsedMs, bounds, cfg, sqrt, before0, before1);
      assert before0 + before1 == if shift then newer else older + newer;
      TickLiveCount(older, newer, shift, elapsedMs, bounds, cfg, sqrt);
    }

    /** What the controller's loop relies on from one `tick`: the count of
        living stars never grows, and the buckets either stay or rotate, so
        no star joins them. */
    method TickShrinks(elapsedMs: real, bounds: Box, cfg: Settings, sqrt: real -> real)
      requires Valid()
      modifies this, stars[0], stars[1]
      ensures Valid()
      ensures size <= old(size)
      ensures stars == old(stars) || stars == [old(stars[1]), []]
    {
      Tick(elapsedMs, bounds, cfg, sqrt);
    }
  }
}
