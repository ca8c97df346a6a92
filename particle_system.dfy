/**
 * The ParticleSystem game object (src/lib/GameObjects/ParticleSystem.js):
 * a pool of particles that every frame is reconciled toward a target
 * count, drawn, aged and respawned or removed, and whose geometry is
 * reconciled at the fixed rate. The closure variables of the source
 * (the transient emission speed and the width and height seen by the
 * previous fixed tick) are fields here. Each method is proved against
 * the functions of module ParticleSim.
 */
module ParticleSystems {
  import opened JsNumber
  import opened Optional
  import opened Particles
  import opened ParticleSim

  /** The construction options a ParticleSystem recognises; an absent key keeps the default. */
  datatype SystemOptions = SystemOptions(
    count: Option<int>,
    speed: Option<Vector2>,
    color: Option<Color>,
    loop: Option<bool>,
    blendMode: Option<string>,
    glow: Option<bool>,
    life: Option<real>,
    radius: Option<real>,
    radial: Option<bool>,
    transform: Option<Transform>,
    width: Option<real>,
    height: Option<real>)

  /** The fields the GameObject layer has set before the particle system assigns its own. */
  datatype Inherited = Inherited(transform: Transform, width: real, height: real)

  class ParticleSystem {
    var count: int
    var speed: Vector2
    var color: Color
    var loop: bool
    var blendMode: string
    var glow: bool
    var life: real
    var radius: real
    var radial: bool
    var particles: seq<Particle>
    var transform: Transform
    var width: real
    var height: real
    /** The closure variable `speed`: the emission speed of the current tick. */
    var emitSpeed: Vector2
    /** The closure variables `width` and `height`: what the previous fixed tick saw. */
    var lastWidth: real
    var lastHeight: real

    /** What a spawn reads from the system. */
    function CurrentEmitter(): Emitter
      reads this`transform, this`radius, this`life, this`color, this`emitSpeed
    {
      Emitter(transform, radius, life, color, emitSpeed)
    }

    /** What the per-particle pass reads from the system. */
    function Env(): PassEnv
      reads this`count, this`loop, this`glow
    {
      PassEnv(count, loop, glow)
    }

    /** radius, width and height with the closure variables the fixed tick compares against. */
    function Shape(): Geometry
      reads this`radius, this`width, this`height, this`lastWidth, this`lastHeight
    {
      Geometry(radius, width, height, lastWidth, lastHeight)
    }

    /** Lines 39-61: the defaults, the closure values captured before the options are
        merged (the emission speed copies the default speed; width and height are those the
        GameObject layer left), then each option present replacing its default. */
    constructor (options: SystemOptions, inherited: Inherited)
      ensures count == options.count.GetOr(50)
      ensures speed == options.speed.GetOr(Vector2(2.0, 2.0))
      ensures color == options.color.GetOr(White)
      ensures loop == options.loop.GetOr(false)
      ensures blendMode == options.blendMode.GetOr("lighter")
      ensures glow == options.glow.GetOr(true)
      ensures life == options.life.GetOr(100.0)
      ensures radius == options.radius.GetOr(10.0)
      ensures radial == options.radial.GetOr(true)
      ensures transform == options.transform.GetOr(inherited.transform)
      ensures width == options.width.GetOr(inherited.width)
      ensures height == options.height.GetOr(inherited.height)
      ensures particles == []
      ensures emitSpeed == Vector2(2.0, 2.0)
      ensures lastWidth == inherited.width && lastHeight == inherited.height
    {
      particles := [];
      emitSpeed := Vector2(2.0, 2.0);
      lastWidth := inherited.width;
      lastHeight := inherited.height;
      count := options.count.GetOr(50);
      speed := options.speed.GetOr(Vector2(2.0, 2.0));
      color := options.color.GetOr(White);
      loop := options.loop.GetOr(false);
      blendMode := options.blendMode.GetOr("lighter");
      glow := options.glow.GetOr(true);
      life := options.life.GetOr(100.0);
      radius := options.radius.GetOr(10.0);
      radial := options.radial.GetOr(true);
      transform := options.transform.GetOr(inherited.transform);
      width := options.width.GetOr(inherited.width);
      height := options.height.GetOr(inherited.height);
    }

    /** addParticle: spawn a particle and write it into slot index, or append it. */
    method AddParticle(index: Option<nat>, u: SpawnRandom)
      requires index.Some? ==> index.value < |particles|
      modifies this`particles
      ensures index.None? ==> particles == old(particles) + [Spawn(CurrentEmitter(), u)]
      ensures index.Some? ==> |particles| == |old(particles)|
      ensures index.Some? ==> particles[index.value] == Spawn(CurrentEmitter(), u)
      ensures index.Some? ==>
        forall j :: 0 <= j < |particles| && j != index.value ==> particles[j] == old(particles)[j]
    {
      var particle := Spawn(CurrentEmitter(), u);
      match index
      case Some(i) => particles := particles[i := particle];
      case None => particles := particles + [particle];
    }

    /** Lines 93-97: while the counter is below count minus the current length, append a
        spawn. Both sides move each pass, so only half the gap (rounded up) is closed.
        Returns how many spawn draws were consumed. */
    method Grow(rand: nat -> SpawnRandom) returns (used: nat)
      requires |particles| < count
      modifies this`particles
      ensures used == ReconciledLength(|old(particles)|, count) - |old(particles)|
      ensures particles == old(particles) + Spawns(Spawner(CurrentEmitter(), rand), used)
    {
      ghost var n := |particles|;
      var i := 0;
      while i < count - |particles|
        invariant particles == old(particles) + Spawns(Spawner(CurrentEmitter(), rand), i)
        invariant n + i <= count
        invariant 0 < i ==> 2 * (i - 1) < count - n
        decreases count - |particles| - i
      {
        AddParticle(None, rand(i));
        i := i + 1;
      }
      used := i;
    }

    /** Lines 98-102: while the counter is below the current length minus count, pop the
        last particle (a pop on an empty pool changes nothing). */
    method Shrink()
      requires count < |particles|
      modifies this`particles
      ensures particles == old(particles)[..ReconciledLength(|old(particles)|, count)]
    {
      ghost var n := |particles|;
      var i := 0;
      while i < |particles| - count
        invariant |particles| == if i <= n then n - i else 0
        invariant particles == old(particles)[..|particles|]
        invariant 0 < i ==> i - 1 < (if i - 1 <= n then n - (i - 1) else 0) - count
        decreases |particles| - count - i
      {
        if |particles| > 0 {
          particles := particles[..|particles| - 1];
        }
        i := i + 1;
      }
    }

    /** Lines 93-102: grow when short of count, then shrink when over it.
        Returns how many spawn draws the growth consumed. */
    method Reconcile(rand: nat -> SpawnRandom) returns (used: nat)
      modifies this`particles
      ensures particles == Reconciled(old(particles), count, Spawner(CurrentEmitter(), rand))
      ensures used == GrowCount(|old(particles)|, count)
    {
      ghost var spawn := Spawner(CurrentEmitter(), rand);
      ghost var n := |particles|;
      used := 0;
      if |particles| < count {
        used := Grow(rand);
        assert particles == old(particles) + Spawns(spawn, ReconciledLength(n, count) - n);
      }
      if |particles| > count {
        Shrink();
      } else if n == count {
        assert old(particles)[..n] == old(particles);
      }
    }

    /** Lines 108-136, one iteration: compute the alpha of slot i; a NaN alpha respawns the
        slot with draw u; otherwise the particle is drawn and advanced and, once expired,
        respawned in place (loop) or spliced out. */
    method VisitParticle(i: nat, u: SpawnRandom) returns (drawn: seq<DrawCall>, spawned: bool)
      requires i < |particles|
      modifies this`particles
      ensures var v := VisitSlot(old(particles), i, Env(), Spawn(CurrentEmitter(), u));
              particles == v.pool && drawn == v.draws && spawned == v.spawned
    {
      ghost var visit := VisitSlot(particles, i, Env(), Spawn(CurrentEmitter(), u));
      var p := particles[i];
      var alpha := Alpha(p, count);
      drawn := [];
      spawned := false;
      if alpha.NaN? {
        AddParticle(Some(i), u);
        spawned := true;
      } else {
        var shown := Shown(p, count);
        drawn := [DrawOf(shown, glow)];
        var moved := Advance(shown);
        particles := particles[i := moved];
        if Expired(moved) {
          if loop {
            AddParticle(Some(i), u);
            spawned := true;
          } else {
            particles := particles[..i] + particles[i + 1..];
          }
        }
      }
      assert particles == visit.pool;
    }

    /** One iteration of the loop of lines 107-137 seen from the pass: visiting slot i with
        draw k leaves the rest of the pass, from slot i + 1 and the next unused draw, to finish
        what the pass from slot i would have done. */
    method TickSlot(rand: nat -> SpawnRandom, i: nat, k: nat) returns (drawn: seq<DrawCall>, next: nat)
      requires i < |particles|
      modifies this`particles
      ensures i <= |particles| <= |old(particles)|
      ensures var spawn := Spawner(CurrentEmitter(), rand);
              var rest := Pass(particles, i + 1, Env(), spawn, next);
              Pass(old(particles), i, Env(), spawn, k) == PassResult(rest.pool, drawn + rest.draws, rest.used)
    {
      PassStep(particles, i, Env(), Spawner(CurrentEmitter(), rand), k);
      var spawned;
      drawn, spawned := VisitParticle(i, rand(k));
      next := if spawned then k + 1 else k;
    }

    /** Lines 107-137: visit the slots in index order, starting with spawn draw k0. After a
        splice the index still moves on. Returns the circles drawn and the next unused draw. */
    method TickParticles(rand: nat -> SpawnRandom, k0: nat) returns (draws: seq<DrawCall>, used: nat)
      modifies this`particles
      ensures var pass := Pass(old(particles), 0, Env(), Spawner(CurrentEmitter(), rand), k0);
              particles == pass.pool && draws == pass.draws && used == pass.used
    {
      ghost var env := Env();
      ghost var spawn := Spawner(CurrentEmitter(), rand);
      ghost var whole := Pass(particles, 0, env, spawn, k0);
      ghost var rest := whole;
      var k := k0;
      draws := [];
      var i := 0;
      while i < |particles|
        invariant i <= |particles| + 1
        invariant Env() == env && Spawner(CurrentEmitter(), rand) == spawn
        invariant rest == Pass(particles, i, env, spawn, k)
        invariant rest.pool == whole.pool && rest.used == whole.used
        invariant draws + rest.draws == whole.draws
        decreases |particles| + 1 - i
      {
        var drawn;
        drawn, k := TickSlot(rand, i, k);
        ghost var after := Pass(particles, i + 1, env, spawn, k);
        AppendAssoc(draws, drawn, after.draws);
        draws := draws + drawn;
        rest := after;
        i := i + 1;
      }
      used := k;
    }

    /** Lines 93-137: reconcile the pool, set the compositing mode, then run the
        per-particle pass, all with the emission speed already set for this tick. */
    method Tick(rand: nat -> SpawnRandom) returns (frame: Frame)
      modifies this`particles
      ensures var spawn := Spawner(CurrentEmitter(), rand);
              var pass := Pass(Reconciled(old(particles), count, spawn), 0, Env(), spawn,
                               GrowCount(|old(particles)|, count));
              particles == pass.pool && frame == Frame(Composite(blendMode), pass.draws)
      ensures |particles| <= ReconciledLength(|old(particles)|, count)
      ensures loop ==> |particles| == ReconciledLength(|old(particles)|, count)
    {
      ghost var spawn := Spawner(CurrentEmitter(), rand);
      var k := Reconcile(rand);
      ghost var reconciled := particles;
      var composite := Composite(blendMode);
      if loop {
        PassLoopKeepsLength(reconciled, 0, Env(), spawn, k);
      }
      var draws, _ := TickParticles(rand, k);
      frame := Frame(composite, draws);
    }

    /** __update (lines 85-137): resample the emission speed of the tick (lines 86-92), then
        reconcile, draw, age and respawn or remove. */
    method Update(radialRandom: Vector2, rand: nat -> SpawnRandom) returns (frame: Frame)
      modifies this`particles, this`emitSpeed
      ensures emitSpeed == EmitSpeed(radial, speed, radialRandom)
      ensures var spawn := Spawner(CurrentEmitter(), rand);
              var pass := Pass(Reconciled(old(particles), count, spawn), 0, Env(), spawn,
                               GrowCount(|old(particles)|, count));
              particles == pass.pool && frame == Frame(Composite(blendMode), pass.draws)
      ensures |particles| <= ReconciledLength(|old(particles)|, count)
      ensures loop ==> |particles| == ReconciledLength(|old(particles)|, count)
      ensures 0.0 <= life && (forall k: nat :: ValidRandom(rand(k))) && AllLive(old(particles)) ==>
        AllLive(particles)
    {
      emitSpeed := EmitSpeed(radial, speed, radialRandom);
      frame := Tick(rand);
      if 0.0 <= life && (forall k: nat :: ValidRandom(rand(k))) && AllLive(old(particles)) {
        SpawnerLive(CurrentEmitter(), rand);
        FrameKeepsLive(old(particles), count, Env(), Spawner(CurrentEmitter(), rand),
                       GrowCount(|old(particles)|, count));
      }
    }

    /** __fixedUpdate (lines 141-151): reconcile radius, width and height. */
    method FixedUpdate()
      modifies this`radius, this`width, this`height, this`lastWidth, this`lastHeight
      ensures Shape() == FixedStep(old(Shape()))
    {
      if width != lastWidth {
        radius := width / 2.0;
        lastWidth := width;
      }
      if height != lastHeight {
        radius := height / 2.0;
        lastHeight := height;
      }
      width := radius * 2.0;
      height := radius * 2.0;
    }
  }
}
