/** The ambient particle field drawn behind every stage: how many particles a
    window gets, their random start values, the per-frame move-and-wrap step
    over the particle array, and the mouse-follow light. Coordinates are
    reals; the window size is a pair of non-negative integers. */
module Ambient {
  import opened Common
  import Stages

  /** One particle per 40000 square pixels, at most thirty. */
  const MAX_PARTICLES: nat := 30
  const AREA_PER_PARTICLE: nat := 40000
  /** `Math.PI * 2` as a double. */
  const TWO_PI: real := 6.283185307179586
  const PHASE_STEP: real := 0.01
  /** Random values drawn per particle. */
  const DRAWS: nat := 7

  /** `Math.min(30, Math.floor((width * height) / 40000))`: the largest count
      within the area budget, capped at thirty. */
  function ParticleCount(width: nat, height: nat): (n: nat)
    ensures n <= MAX_PARTICLES
    ensures n * AREA_PER_PARTICLE <= width * height
    ensures n == MAX_PARTICLES || width * height < (n + 1) * AREA_PER_PARTICLE
  {
    var byArea := (width * height) / AREA_PER_PARTICLE;
    if byArea < MAX_PARTICLES then byArea else MAX_PARTICLES
  }

  /** A larger window never gets fewer particles. */
  lemma ParticleCountMonotone(w1: nat, h1: nat, w2: nat, h2: nat)
    requires w1 <= w2 && h1 <= h2
    ensures ParticleCount(w1, h1) <= ParticleCount(w2, h2)
  {
    assert w1 * h1 <= w2 * h1 <= w2 * h2;
  }

  datatype Particle = Particle(x: real, y: real, size: real, speedX: real, speedY: real, opacity: real, phase: real)

  /** `Math.random() * bound` lies in `[0, bound)`, or is 0 for bound 0. */
  lemma Scale(r: real, bound: real)
    requires 0.0 <= r < 1.0 && bound >= 0.0
    ensures 0.0 <= r * bound <= bound
    ensures bound > 0.0 ==> r * bound < bound
  {
    assert bound - r * bound == (1.0 - r) * bound;
  }

  /** One particle from its seven random values, in the order they are
      drawn: x, y, size, the two speeds, opacity, phase. */
  function Seed(r: seq<real>, width: nat, height: nat): (p: Particle)
    requires |r| == DRAWS && Randoms(r)
    ensures InBox(p, width, height)
    ensures width > 0 ==> p.x < width as real
    ensures height > 0 ==> p.y < height as real
    ensures 1.0 <= p.size < 3.0
    ensures -0.15 <= p.speedX < 0.15 && -0.15 <= p.speedY < 0.15
    ensures 0.1 <= p.opacity < 0.4
    ensures 0.0 <= p.phase < TWO_PI
  {
    assert 0.0 <= r[0] < 1.0 && 0.0 <= r[1] < 1.0;
    Scale(r[0], width as real);
    Scale(r[1], height as real);
    Particle(r[0] * width as real, r[1] * height as real, r[2] * 2.0 + 1.0,
             (r[3] - 0.5) * 0.3, (r[4] - 0.5) * 0.3, r[5] * 0.3 + 0.1, r[6] * TWO_PI)
  }

  /** `Array.from({ length: n }, ...)`: particle `i` draws the values
      `rand[7i .. 7i + 7]`. */
  function Seeds(rand: seq<real>, n: nat, width: nat, height: nat): (ps: seq<Particle>)
    requires |rand| == DRAWS * n && Randoms(rand)
    ensures |ps| == n
    ensures forall i :: 0 <= i < n ==> InBox(ps[i], width, height)
  {
    seq(n, i requires 0 <= i < n => SeedAt(rand, n, width, height, i))
  }

  function SeedAt(rand: seq<real>, n: nat, width: nat, height: nat, i: nat): (p: Particle)
    requires |rand| == DRAWS * n && Randoms(rand) && i < n
    ensures InBox(p, width, height)
  {
    assert DRAWS * i + DRAWS <= DRAWS * n;
    Seed(rand[DRAWS * i..DRAWS * i + DRAWS], width, height)
  }

  /** The closed box `[0, width] x [0, height]`. */
  predicate InBox(p: Particle, width: nat, height: nat)
  {
    0.0 <= p.x <= width as real && 0.0 <= p.y <= height as real
  }

  /** The wrap of one coordinate: below zero jumps to the far edge, past the far
      edge jumps to zero (the two tests in this order). */
  function Wrap(v: real, bound: real): (r: real)
    requires bound >= 0.0
    ensures 0.0 <= r <= bound
    ensures 0.0 <= v <= bound ==> r == v
    ensures v < 0.0 ==> r == bound
    ensures v > bound ==> r == 0.0
  {
    var below := if v < 0.0 then bound else v;
    if below > bound then 0.0 else below
  }

  /** One frame for one particle: move by its speed, advance the phase,
      wrap. */
  function Move(p: Particle, width: nat, height: nat): (q: Particle)
    ensures InBox(q, width, height)
    ensures q.size == p.size && q.speedX == p.speedX && q.speedY == p.speedY && q.opacity == p.opacity
    ensures q.phase == p.phase + PHASE_STEP
  {
    p.(x := Wrap(p.x + p.speedX, width as real),
       y := Wrap(p.y + p.speedY, height as real),
       phase := p.phase + PHASE_STEP)
  }

  /** A particle that stays inside the box during the frame moves by exactly
      its speed; one that leaves it re-enters on an edge of the box. */
  lemma MoveOrWrap(p: Particle, width: nat, height: nat)
    ensures var q := Move(p, width, height);
      && (0.0 <= p.x + p.speedX <= width as real ==> q.x == p.x + p.speedX)
      && (0.0 <= p.y + p.speedY <= height as real ==> q.y == p.y + p.speedY)
      && (p.x + p.speedX < 0.0 ==> q.x == width as real)
      && (p.x + p.speedX > width as real ==> q.x == 0.0)
      && (p.y + p.speedY < 0.0 ==> q.y == height as real)
      && (p.y + p.speedY > height as real ==> q.y == 0.0)
  {
  }

  /** The wrap is idempotent: a coordinate already in range stays put. */
  lemma WrapIdempotent(v: real, bound: real)
    requires bound >= 0.0
    ensures Wrap(Wrap(v, bound), bound) == Wrap(v, bound)
  {
  }

  /** One frame for the whole field: each particle moved on its own. */
  function MoveAll(ps: seq<Particle>, width: nat, height: nat): (qs: seq<Particle>)
    ensures |qs| == |ps|
  {
    seq(|ps|, i requires 0 <= i < |ps| => Move(ps[i], width, height))
  }

  /** A frame keeps the number of particles and each one's size, speed and
      opacity; afterwards every particle lies in the closed box, whatever its
      speed and wherever it was before (even outside a box that shrank). */
  lemma FrameProperties(ps: seq<Particle>, width: nat, height: nat)
    ensures |MoveAll(ps, width, height)| == |ps|
    ensures forall j :: 0 <= j < |ps| ==> InBox(MoveAll(ps, width, height)[j], width, height)
    ensures forall j :: 0 <= j < |ps| ==>
      var p, q := ps[j], MoveAll(ps, width, height)[j];
      q.size == p.size && q.speedX == p.speedX && q.speedY == p.speedY && q.opacity == p.opacity
      && q.phase == p.phase + PHASE_STEP
  {
  }

  /** A particle's next state depends on that particle alone: two fields that
      agree on particle `i` agree on it after the frame. */
  lemma FrameIsPointwise(ps: seq<Particle>, qs: seq<Particle>, width: nat, height: nat, i: nat)
    requires i < |ps| && i < |qs| && ps[i] == qs[i]
    ensures MoveAll(ps, width, height)[i] == MoveAll(qs, width, height)[i]
  {
  }

  /** `stage === 5`: the lighter particle colour and the stronger light. */
  predicate IsDark(stage: int)
  {
    stage == 5
  }

  /** The dark palette is used exactly on the final-reveal stage. */
  lemma DarkOnlyOnReveal(stage: int)
    ensures IsDark(stage) <==> stage == Stages.REVEAL
    ensures IsDark(stage) ==> Stages.MountedViews(stage) == [Stages.FinalReveal]
  {
    Stages.EachViewAtItsStage(Stages.FinalReveal);
  }

  /** `client / inner`: a fraction of the window; JavaScript yields a
      non-finite number for an empty window, here `None`. */
  function Ratio(client: int, inner: nat): (r: Option<real>)
    ensures r.None? <==> inner == 0
    ensures inner > 0 && 0 <= client <= inner ==> r.Some? && 0.0 <= r.value <= 1.0
  {
    if inner == 0 then None else Some(client as real / inner as real)
  }

  /** The mouse position as fractions of the window size. */
  datatype MousePos = MousePos(x: Option<real>, y: Option<real>)

  /** The component: the stage prop, the mutable window size, the particle
      array the frame loop updates in place, and the normalised mouse
      position. */
  class AmbientBackground {
    var stage: int
    var width: nat
    var height: nat
    var particles: array<Particle>
    var mousePos: MousePos

    /** Mount: the mouse starts centred, and the particle effect runs for the
        first time with the window size and the random values given. */
    constructor (stage: int, innerWidth: nat, innerHeight: nat, rand: seq<real>)
      requires |rand| == DRAWS * ParticleCount(innerWidth, innerHeight) && Randoms(rand)
      ensures this.stage == stage && width == innerWidth && height == innerHeight
      ensures fresh(particles)
      ensures particles[..] == Seeds(rand, ParticleCount(innerWidth, innerHeight), innerWidth, innerHeight)
      ensures mousePos == MousePos(Some(0.5), Some(0.5))
    {
      this.stage := stage;
      width, height := innerWidth, innerHeight;
      mousePos := MousePos(Some(0.5), Some(0.5));
      var s := Seeds(rand, ParticleCount(innerWidth, innerHeight), innerWidth, innerHeight);
      particles := new Particle[|s|](i requires 0 <= i < |s| => s[i]);
    }

    /** `animate`, one frame: the `forEach` loop updates each particle in
        place. */
    method Animate()
      modifies particles
      ensures particles[..] == MoveAll(old(particles[..]), width, height)
    {
      for i := 0 to particles.Length
        invariant forall j :: 0 <= j < i ==> particles[j] == Move(old(particles[j]), width, height)
        invariant forall j :: i <= j < particles.Length ==> particles[j] == old(particles[j])
      {
        var p := particles[i];
        var x := p.x + p.speedX;
        var y := p.y + p.speedY;
        var phase := p.phase + PHASE_STEP;
        if x < 0.0 { x := width as real; }
        if x > width as real { x := 0.0; }
        if y < 0.0 { y := height as real; }
        if y > height as real { y := 0.0; }
        particles[i] := p.(x := x, y := y, phase := phase);
      }
      assert particles[..] == MoveAll(old(particles[..]), width, height);
    }

    /** `resize`: only the size changes; the particles are not re-seeded. */
    method Resize(innerWidth: nat, innerHeight: nat)
      modifies this
      ensures width == innerWidth && height == innerHeight
      ensures stage == old(stage) && particles == old(particles) && mousePos == old(mousePos)
      ensures particles[..] == old(particles[..])
    {
      width, height := innerWidth, innerHeight;
    }

    /** A new `stage` prop: the effect re-runs (read the size, re-seed the
        particles); the same stage leaves the field as it is. */
    method SetStage(newStage: int, innerWidth: nat, innerHeight: nat, rand: seq<real>)
      requires |rand| == DRAWS * ParticleCount(innerWidth, innerHeight) && Randoms(rand)
      modifies this
      ensures stage == newStage && mousePos == old(mousePos)
      ensures newStage == old(stage) ==>
        width == old(width) && height == old(height) && particles == old(particles)
      ensures newStage != old(stage) ==>
        && width == innerWidth && height == innerHeight && fresh(particles)
        && particles[..] == Seeds(rand, ParticleCount(innerWidth, innerHeight), innerWidth, innerHeight)
    {
      if newStage != stage {
        stage := newStage;
        width, height := innerWidth, innerHeight;
        var s := Seeds(rand, ParticleCount(innerWidth, innerHeight), innerWidth, innerHeight);
        particles := new Particle[|s|](i requires 0 <= i < |s| => s[i]);
      }
    }

    /** `handleMouseMove`. */
    method MouseMove(clientX: int, clientY: int, innerWidth: nat, innerHeight: nat)
      modifies this
      ensures mousePos == MousePos(Ratio(clientX, innerWidth), Ratio(clientY, innerHeight))
      ensures stage == old(stage) && width == old(width) && height == old(height) && particles == old(particles)
    {
      mousePos := MousePos(Ratio(clientX, innerWidth), Ratio(clientY, innerHeight));
    }
  }
}
