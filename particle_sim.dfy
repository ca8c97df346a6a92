/**
 * The simulation steps of the ParticleSystem game object
 * (src/lib/GameObjects/ParticleSystem.js) as functions of the values they
 * read: the transient emission speed, spawning one particle, the alpha
 * and gradient of a particle, one particle's tick, the per-particle pass
 * over the pool, the pool reconciliation and the fixed-rate geometry
 * reconciliation. The class in module ParticleSystems runs these steps
 * in place and is proved against them.
 *
 * Math.random() is replaced by its draws, given as parameters in [0, 1).
 */
module ParticleSim {
  import opened JsNumber
  import opened Optional
  import opened Particles

  predicate Unit(u: real) {
    0.0 <= u < 1.0
  }

  /** The seven Math.random() draws one spawn makes, in the order it makes them. */
  datatype SpawnRandom = SpawnRandom(
    speedX: real, speedY: real, radius: real, life: real,
    red: real, green: real, blue: real)

  predicate ValidRandom(u: SpawnRandom) {
    Unit(u.speedX) && Unit(u.speedY) && Unit(u.radius) && Unit(u.life)
    && Unit(u.red) && Unit(u.green) && Unit(u.blue)
  }

  /** What a spawn reads from its system: the system's transform, base radius,
      base life and base colour, and the emission speed of the current tick. */
  datatype Emitter = Emitter(transform: Transform, radius: real, life: real, color: Color, speed: Vector2)

  /** A product of two non-negative reals is non-negative. */
  lemma MulNonneg(a: real, b: real)
    requires 0.0 <= a && 0.0 <= b
    ensures 0.0 <= a * b
  {
  }

  /** A product of two positive reals is positive. */
  lemma MulPos(a: real, b: real)
    requires 0.0 < a && 0.0 < b
    ensures 0.0 < a * b
  {
  }

  /** A factor whose product with a positive real is non-negative is non-negative. */
  lemma FactorNonneg(q: real, b: real)
    requires 0.0 < b && 0.0 <= q * b
    ensures 0.0 <= q
  {
  }

  /** A factor whose product with a positive b is at most b is at most 1. */
  lemma FactorAtMostOne(q: real, b: real)
    requires 0.0 < b && q * b <= b
    ensures q <= 1.0
  {
  }

  /** A draw in [0, 1) scales a bound s into the closed interval between 0 and s,
      strictly short of s when s is not zero. */
  lemma ScaleBelow(u: real, s: real)
    ensures Unit(u) && 0.0 <= s ==> 0.0 <= u * s <= s && (0.0 < s ==> u * s < s)
    ensures Unit(u) && s <= 0.0 ==> s <= u * s <= 0.0 && (s < 0.0 ==> s < u * s)
  {
    if Unit(u) {
      if 0.0 <= s {
        MulNonneg(u, s);
        MulNonneg(1.0 - u, s);
        if 0.0 < s { MulPos(1.0 - u, s); }
      } else {
        MulNonneg(u, -s);
        MulPos(1.0 - u, -s);
      }
    }
  }

  // ---------------------------------------------------------------------
  // Emission speed and spawning
  // ---------------------------------------------------------------------

  /** The transient emission speed of a tick: resampled in [-speed, speed) per axis
      when radial, otherwise exactly the configured speed. */
  function EmitSpeed(radial: bool, speed: Vector2, draw: Vector2): (t: Vector2)
    ensures !radial ==> t == speed
    ensures radial && Unit(draw.x) && 0.0 <= speed.x ==>
      -speed.x <= t.x <= speed.x && (0.0 < speed.x ==> t.x < speed.x)
    ensures radial && Unit(draw.y) && 0.0 <= speed.y ==>
      -speed.y <= t.y <= speed.y && (0.0 < speed.y ==> t.y < speed.y)
  {
    if radial then
      ScaleBelow(draw.x, speed.x * 2.0);
      ScaleBelow(draw.y, speed.y * 2.0);
      Vector2(draw.x * (speed.x * 2.0) - speed.x, draw.y * (speed.y * 2.0) - speed.y)
    else
      Vector2(speed.x, speed.y)
  }

  /** `base + Math.random() * base`. */
  function Jitter(base: real, u: real): real {
    base + u * base
  }

  /** A jittered non-negative base lies in [base, 2 * base), closed at both ends for a zero base. */
  lemma JitterUp(base: real, u: real)
    requires Unit(u) && 0.0 <= base
    ensures base <= Jitter(base, u) <= 2.0 * base && (0.0 < base ==> Jitter(base, u) < 2.0 * base)
  {
    MulNonneg(u, base);
    MulNonneg(1.0 - u, base);
    if 0.0 < base { MulPos(1.0 - u, base); }
  }

  /** A jittered non-positive base lies in (2 * base, base], closed at both ends for a zero base. */
  lemma JitterDown(base: real, u: real)
    requires Unit(u) && base <= 0.0
    ensures 2.0 * base <= Jitter(base, u) <= base && (base < 0.0 ==> 2.0 * base < Jitter(base, u))
  {
    MulNonneg(u, -base);
    MulNonneg(1.0 - u, -base);
    if base < 0.0 { MulPos(1.0 - u, -base); }
  }

  /** A jittered base keeps its sign and grows in magnitude by less than the base itself. */
  lemma JitterBounds(base: real, u: real)
    requires Unit(u)
    ensures 0.0 <= base ==>
      base <= Jitter(base, u) <= 2.0 * base && (0.0 < base ==> Jitter(base, u) < 2.0 * base)
    ensures base <= 0.0 ==>
      2.0 * base <= Jitter(base, u) <= base && (base < 0.0 ==> 2.0 * base < Jitter(base, u))
  {
    if 0.0 <= base { JitterUp(base, u); }
    if base <= 0.0 { JitterDown(base, u); }
  }

  /** `Math.round(Math.random() * channel)`. */
  function Rescale(channel: real, u: real): real {
    RoundHalfUp(u * channel) as real
  }

  /** Rounding a value in [0, c] gives at least 0 and at most c + 0.5, at most c for a whole c. */
  lemma RoundWithin(x: real, c: real)
    ensures 0.0 <= x <= c ==> 0.0 <= RoundHalfUp(x) as real <= c + 0.5
    ensures 0.0 <= x <= c && Whole(c) ==> RoundHalfUp(x) as real <= c
  {
    var n := RoundHalfUp(x);
    if 0.0 <= x <= c {
      assert -1.0 < n as real;
      assert 0 <= n;
      if Whole(c) {
        var f := c.Floor;
        assert n as real < (f + 1) as real;
        assert n <= f;
      }
    }
  }

  /** A rescaled channel is whole, and lies in [0, channel] for a whole, non-negative channel. */
  lemma RescaleBounds(channel: real, u: real)
    requires Unit(u)
    ensures Whole(Rescale(channel, u))
    ensures 0.0 <= channel ==> 0.0 <= Rescale(channel, u) <= channel + 0.5
    ensures 0.0 <= channel && Whole(channel) ==> Rescale(channel, u) <= channel
  {
    var x := u * channel;
    assert Rescale(channel, u) == RoundHalfUp(x) as real;
    if 0.0 <= channel {
      ScaleBelow(u, channel);
      assert 0.0 <= x <= channel;
      RoundWithin(x, channel);
    }
  }

  /** addParticle's new particle (lines 64-78): it goes through the Particle constructor
      with a copy of the system's transform and freshly drawn speed, radius, life and colour. */
  function Spawn(e: Emitter, u: SpawnRandom): (p: Particle)
    ensures p.transform == e.transform
    ensures p.remainingLife == p.life
    ensures p.speed == Vector2(Jitter(e.speed.x, u.speedX), Jitter(e.speed.y, u.speedY))
    ensures p.radius == Jitter(e.radius, u.radius) && p.life == Jitter(e.life, u.life)
    ensures p.color == Color(Rescale(e.color.r, u.red), Rescale(e.color.g, u.green), Rescale(e.color.b, u.blue), Finite(1.0))
  {
    var color := Color(Rescale(e.color.r, u.red), Rescale(e.color.g, u.green), Rescale(e.color.b, u.blue), Finite(1.0));
    var speed := Vector2(Jitter(e.speed.x, u.speedX), Jitter(e.speed.y, u.speedY));
    NewParticle(ParticleOptions(
      Some(e.transform), Some(speed), Some(Jitter(e.radius, u.radius)),
      Some(Jitter(e.life, u.life)), None, Some(color)))
  }

  /** With draws in [0, 1), a spawn's radius and life lie in [base, 2 * base), each speed
      component between the emission speed and twice it, and each colour channel is a whole
      value in [0, base] for a whole, non-negative base channel. A spawn starts with its full life. */
  lemma SpawnRanges(e: Emitter, u: SpawnRandom)
    requires ValidRandom(u)
    ensures var p := Spawn(e, u);
      p.remainingLife == p.life
      && (0.0 <= e.radius ==>
          e.radius <= p.radius <= 2.0 * e.radius && (0.0 < e.radius ==> p.radius < 2.0 * e.radius))
      && (0.0 <= e.life ==>
          e.life <= p.life <= 2.0 * e.life && (0.0 < e.life ==> p.life < 2.0 * e.life))
      && (0.0 <= e.speed.x ==> e.speed.x <= p.speed.x <= 2.0 * e.speed.x)
      && (e.speed.x <= 0.0 ==> 2.0 * e.speed.x <= p.speed.x <= e.speed.x)
      && (0.0 <= e.speed.y ==> e.speed.y <= p.speed.y <= 2.0 * e.speed.y)
      && (e.speed.y <= 0.0 ==> 2.0 * e.speed.y <= p.speed.y <= e.speed.y)
      && Whole(p.color.r) && Whole(p.color.g) && Whole(p.color.b)
      && (0.0 <= e.color.r && Whole(e.color.r) ==> 0.0 <= p.color.r <= e.color.r)
      && (0.0 <= e.color.g && Whole(e.color.g) ==> 0.0 <= p.color.g <= e.color.g)
      && (0.0 <= e.color.b && Whole(e.color.b) ==> 0.0 <= p.color.b <= e.color.b)
  {
    JitterBounds(e.speed.x, u.speedX);
    JitterBounds(e.speed.y, u.speedY);
    JitterBounds(e.radius, u.radius);
    JitterBounds(e.life, u.life);
    RescaleBounds(e.color.r, u.red);
    RescaleBounds(e.color.g, u.green);
    RescaleBounds(e.color.b, u.blue);
  }

  /** The spawns of one tick in draw order: the k-th one uses the k-th record of draws. */
  function Spawner(e: Emitter, rand: nat -> SpawnRandom): nat -> Particle {
    (k: nat) => Spawn(e, rand(k))
  }

  // ---------------------------------------------------------------------
  // One particle's tick
  // ---------------------------------------------------------------------

  /** `Math.round(remainingLife / life * count) / count` with JavaScript number semantics. */
  function Alpha(p: Particle, count: int): (a: Number)
    ensures a.NaN? <==> count == 0 || (p.life == 0.0 && p.remainingLife == 0.0)
    ensures a.Finite? <==> count != 0 && p.life != 0.0
  {
    var rounded := Round(Times(Over(Finite(p.remainingLife), p.life), count as real));
    Over(rounded, count as real)
  }

  /** A quotient of a value in [0, b] by a positive b lies in [0, 1]. */
  lemma QuotientWithinUnit(a: real, b: real)
    requires 0.0 <= a <= b && 0.0 < b
    ensures 0.0 <= a / b <= 1.0
  {
    var q := a / b;
    assert q * b == a;
    FactorNonneg(q, b);
    FactorAtMostOne(q, b);
  }

  /** Whenever 0 <= remainingLife <= life and count > 0, alpha is NaN only for a zero life
      and otherwise lies in [0, 1]. */
  lemma AlphaWithinUnit(p: Particle, count: int)
    requires 0 < count && 0.0 <= p.remainingLife <= p.life
    ensures Alpha(p, count).NaN? <==> p.life == 0.0
    ensures Alpha(p, count).Finite? ==> 0.0 <= Alpha(p, count).value <= 1.0
  {
    if p.life != 0.0 {
      var c := count as real;
      var ratio := Over(Finite(p.remainingLife), p.life);
      OverWithinUnit(Finite(p.remainingLife), p.life);
      var scaled := Times(ratio, c);
      TimesWithin(ratio, c);
      var rounded := Round(scaled);
      RoundWithinCount(scaled, count);
      OverWithinUnit(rounded, c);
    }
  }

  /** A finite value in [0, b] over a positive b is finite and lies in [0, 1]. */
  lemma OverWithinUnit(a: Number, b: real)
    requires a.Finite? && 0.0 <= a.value <= b && 0.0 < b
    ensures Over(a, b).Finite? && 0.0 <= Over(a, b).value <= 1.0
  {
    QuotientWithinUnit(a.value, b);
  }

  /** A finite value in [0, 1] times a positive c is finite and lies in [0, c]. */
  lemma TimesWithin(a: Number, c: real)
    requires a.Finite? && 0.0 <= a.value <= 1.0 && 0.0 < c
    ensures Times(a, c).Finite? && 0.0 <= Times(a, c).value <= c
  {
    MulNonneg(a.value, c);
    MulNonneg(1.0 - a.value, c);
  }

  /** A finite value in [0, count] rounds to a finite whole value in [0, count]. */
  lemma RoundWithinCount(a: Number, count: int)
    requires a.Finite? && 0.0 <= a.value <= count as real
    ensures Round(a).Finite? && 0.0 <= Round(a).value <= count as real
  {
    assert (count as real).Floor == count;
    RoundWithin(a.value, count as real);
  }

  /** A colour stop of a radial gradient. */
  datatype Stop = Stop(offset: real, color: Color)

  /** The three stops: the current colour at offsets 0 and 0.5, and at offset 1 the same
      colour, made transparent when the system glows (a soft edge), opaque as the rest otherwise. */
  function Stops(c: Color, glow: bool): (s: seq<Stop>)
    ensures |s| == 3 && s[0] == Stop(0.0, c) && s[1] == Stop(0.5, c) && s[2].offset == 1.0
    ensures s[2].color.(alpha := c.alpha) == c
    ensures glow ==> s[2].color.alpha == Finite(0.0)
    ensures !glow ==> s[2].color.alpha == c.alpha
  {
    var edge := if glow then c.(alpha := Finite(0.0)) else c;
    [Stop(0.0, c), Stop(0.5, c), Stop(1.0, edge)]
  }

  datatype Gradient = Gradient(x: real, y: real, outerRadius: real, stops: seq<Stop>)

  /** A filled circle: its gradient, and the rounded centre and radius of its arc. */
  datatype DrawCall = DrawCall(gradient: Gradient, arcX: int, arcY: int, arcRadius: int)

  /** What lines 115-125 draw for a particle whose alpha has been set. */
  function DrawOf(p: Particle, glow: bool): (d: DrawCall)
    ensures d.gradient.x == p.transform.position.x && d.gradient.y == p.transform.position.y
    ensures d.gradient.outerRadius == p.radius
    ensures d.gradient.stops == Stops(p.color, glow)
    ensures p.transform.position.x - 0.5 < d.arcX as real <= p.transform.position.x + 0.5
    ensures p.transform.position.y - 0.5 < d.arcY as real <= p.transform.position.y + 0.5
    ensures p.radius - 0.5 < d.arcRadius as real <= p.radius + 0.5
  {
    var pos := p.transform.position;
    DrawCall(Gradient(pos.x, pos.y, p.radius, Stops(p.color, glow)),
             RoundHalfUp(pos.x), RoundHalfUp(pos.y), RoundHalfUp(p.radius))
  }

  /** Lines 126-128: remaining life and radius drop by one, the position moves by the speed. */
  function Advance(p: Particle): (q: Particle)
    ensures q.remainingLife == p.remainingLife - 1.0
    ensures q.radius == p.radius - 1.0
    ensures q.transform.position.x - p.transform.position.x == p.speed.x
    ensures q.transform.position.y - p.transform.position.y == p.speed.y
    ensures q.life == p.life && q.speed == p.speed && q.color == p.color
  {
    p.(remainingLife := p.remainingLife - 1.0,
       radius := p.radius - 1.0,
       transform := Transform(p.transform.position.Add(p.speed)))
  }

  /** The particle with its alpha set for this tick (line 110). */
  function Shown(p: Particle, count: int): Particle {
    p.(color := p.color.(alpha := Alpha(p, count)))
  }

  /** A particle that is drawn this tick ends it with its alpha set and one step further. */
  function Processed(p: Particle, count: int): Particle {
    Advance(Shown(p, count))
  }

  /** Line 130: a particle expires once its remaining life or its radius is negative. */
  predicate Expired(p: Particle) {
    p.remainingLife < 0.0 || p.radius < 0.0
  }

  // ---------------------------------------------------------------------
  // The per-particle pass (lines 107-137)
  // ---------------------------------------------------------------------

  /** What the pass reads from its system. The particles the tick spawns are given separately:
      spawn(k) is its k-th spawn. */
  datatype PassEnv = PassEnv(count: int, loop: bool, glow: bool)

  /** The effect of visiting one slot: the new pool, what was drawn, the next index,
      and whether a spawn draw was consumed. */
  datatype SlotOutcome = SlotOutcome(pool: seq<Particle>, draws: seq<DrawCall>, next: nat, spawned: bool)

  /** One iteration of the loop at index i (lines 108-136); VisitSlotOutcome says what it does
      in each case. The next index is always i + 1, the slots before i are left alone, and at
      most one slot disappears, only without loop. */
  function VisitSlot(pool: seq<Particle>, i: nat, env: PassEnv, spawn: Particle): (v: SlotOutcome)
    requires i < |pool|
    ensures v.next == i + 1
    ensures |v.draws| <= 1
    ensures |v.pool| == |pool| || (!env.loop && |v.pool| == |pool| - 1)
    ensures forall j :: 0 <= j < i ==> v.pool[j] == pool[j]
  {
    var p := pool[i];
    var alpha := Alpha(p, env.count);
    if alpha.NaN? then
      SlotOutcome(pool[i := spawn], [], i + 1, true)
    else
      var shown := Shown(p, env.count);
      var moved := Advance(shown);
      var written := pool[i := moved];
      var drawn := [DrawOf(shown, env.glow)];
      if !Expired(moved) then
        SlotOutcome(written, drawn, i + 1, false)
      else if env.loop then
        SlotOutcome(written[i := spawn], drawn, i + 1, true)
      else
        SlotOutcome(written[..i] + written[i + 1..], drawn, i + 1, false)
  }

  /** A NaN alpha respawns the slot without drawing; otherwise the particle is drawn and
      advanced and, once expired, respawned in place (loop) or spliced out (no loop), in which
      case the particle that moved into slot i is left for index i + 1, which is past it. */
  lemma VisitSlotOutcome(pool: seq<Particle>, i: nat, env: PassEnv, spawn: Particle)
    requires i < |pool|
    ensures var v := VisitSlot(pool, i, env, spawn);
      && (Alpha(pool[i], env.count).NaN? ==> v.draws == [])
      && (!Alpha(pool[i], env.count).NaN? ==> v.draws == [DrawOf(Shown(pool[i], env.count), env.glow)])
      && (v.spawned <==>
          Alpha(pool[i], env.count).NaN? || (env.loop && Expired(Processed(pool[i], env.count))))
      && (v.spawned ==> |v.pool| == |pool| && v.pool[i] == spawn)
      && (|v.pool| == |pool| ==> forall j :: 0 <= j < |pool| && j != i ==> v.pool[j] == pool[j])
      && (|v.pool| == |pool| && !v.spawned ==>
          v.pool[i] == Processed(pool[i], env.count) && !Expired(v.pool[i]))
      && (|v.pool| < |pool| ==>
          Expired(Processed(pool[i], env.count)) && v.pool == pool[..i] + pool[i + 1..])
  {
    var p := pool[i];
    var alpha := Alpha(p, env.count);
    if !alpha.NaN? {
      var moved := Processed(p, env.count);
      var written := pool[i := moved];
      if Expired(moved) && !env.loop {
        assert written[..i] == pool[..i] && written[i + 1..] == pool[i + 1..];
      }
    }
  }

  datatype PassResult = PassResult(pool: seq<Particle>, draws: seq<DrawCall>, used: nat)

  /** The loop of lines 107-137 from index i on, where k is the next unused spawn draw.
      The pool never grows, and at most one circle is drawn per slot from i on. */
  function Pass(pool: seq<Particle>, i: nat, env: PassEnv, spawn: nat -> Particle, k: nat): (r: PassResult)
    ensures |r.pool| <= |pool|
    ensures k <= r.used
    ensures i <= |pool| ==> |r.draws| <= |pool| - i && r.used <= k + (|pool| - i)
    decreases |pool| + 1 - i
  {
    if |pool| <= i then PassResult(pool, [], k)
    else
      var v := VisitSlot(pool, i, env, spawn(k));
      var rest := Pass(v.pool, v.next, env, spawn, if v.spawned then k + 1 else k);
      PassResult(rest.pool, v.draws + rest.draws, rest.used)
  }

  /** Concatenation is associative. */
  lemma AppendAssoc<T>(a: seq<T>, b: seq<T>, c: seq<T>)
    ensures a + (b + c) == (a + b) + c
  {
  }

  /** One step of the pass: visit slot i, then run the rest of the pass after it. */
  lemma PassStep(pool: seq<Particle>, i: nat, env: PassEnv, spawn: nat -> Particle, k: nat)
    requires i < |pool|
    ensures var v := VisitSlot(pool, i, env, spawn(k));
            var rest := Pass(v.pool, i + 1, env, spawn, if v.spawned then k + 1 else k);
            Pass(pool, i, env, spawn, k) == PassResult(rest.pool, v.draws + rest.draws, rest.used)
  {
  }

  /** The pass never touches the slots before its starting index. */
  lemma {:induction false} PassKeepsVisited(pool: seq<Particle>, i: nat, env: PassEnv, spawn: nat -> Particle, k: nat)
    requires i <= |pool|
    ensures i <= |Pass(pool, i, env, spawn, k).pool|
    ensures forall j :: 0 <= j < i ==> Pass(pool, i, env, spawn, k).pool[j] == pool[j]
    decreases |pool| - i
  {
    if i < |pool| {
      var v := VisitSlot(pool, i, env, spawn(k));
      var k' := if v.spawned then k + 1 else k;
      if i + 1 <= |v.pool| {
        PassKeepsVisited(v.pool, i + 1, env, spawn, k');
      }
    }
  }

  /** With loop set, the pass respawns instead of removing, so the pool keeps its length. */
  lemma {:induction false} PassLoopKeepsLength(pool: seq<Particle>, i: nat, env: PassEnv, spawn: nat -> Particle, k: nat)
    requires env.loop
    ensures |Pass(pool, i, env, spawn, k).pool| == |pool|
    decreases |pool| + 1 - i
  {
    if i < |pool| {
      var v := VisitSlot(pool, i, env, spawn(k));
      PassLoopKeepsLength(v.pool, v.next, env, spawn, if v.spawned then k + 1 else k);
    }
  }

  /** The particle is one of the tick's spawns. */
  ghost predicate Respawned(q: Particle, spawn: nat -> Particle) {
    exists k: nat :: q == spawn(k)
  }

  /** What a tick with loop set leaves in a slot: a respawn when the alpha was NaN or the
      particle expired, otherwise the same particle one step further. */
  ghost predicate LoopFate(before: Particle, after: Particle, env: PassEnv, spawn: nat -> Particle) {
    if Alpha(before, env.count).NaN? || Expired(Processed(before, env.count))
    then Respawned(after, spawn)
    else after == Processed(before, env.count)
  }

  /** With loop set, the slot the pass starts at ends the pass with its LoopFate. */
  lemma PassLoopFirstSlot(pool: seq<Particle>, i: nat, env: PassEnv, spawn: nat -> Particle, k: nat)
    requires env.loop && i < |pool|
    ensures i < |Pass(pool, i, env, spawn, k).pool|
    ensures LoopFate(pool[i], Pass(pool, i, env, spawn, k).pool[i], env, spawn)
  {
    var v := VisitSlot(pool, i, env, spawn(k));
    var k' := if v.spawned then k + 1 else k;
    PassStep(pool, i, env, spawn, k);
    VisitSlotOutcome(pool, i, env, spawn(k));
    PassKeepsVisited(v.pool, i + 1, env, spawn, k');
    var r := Pass(v.pool, i + 1, env, spawn, k').pool;
    assert r[i] == v.pool[i];
    if v.spawned {
      assert Respawned(r[i], spawn) by {
        assert r[i] == spawn(k);
      }
    }
  }

  /** With loop set, every slot from i on ends the pass with its LoopFate. */
  lemma {:induction false} PassLoopSlots(pool: seq<Particle>, i: nat, env: PassEnv, spawn: nat -> Particle, k: nat)
    requires env.loop && i <= |pool|
    ensures |Pass(pool, i, env, spawn, k).pool| == |pool|
    ensures forall j :: i <= j < |pool| ==> LoopFate(pool[j], Pass(pool, i, env, spawn, k).pool[j], env, spawn)
    decreases |pool| - i
  {
    if i < |pool| {
      var v := VisitSlot(pool, i, env, spawn(k));
      var k' := if v.spawned then k + 1 else k;
      PassLoopFirstSlot(pool, i, env, spawn, k);
      PassLoopSlots(v.pool, i + 1, env, spawn, k');
      var r := Pass(v.pool, i + 1, env, spawn, k').pool;
      forall j | i < j < |pool|
        ensures LoopFate(pool[j], r[j], env, spawn)
      {
        assert v.pool[j] == pool[j];
      }
    }
  }

  /** Line 134 as written: of two particles whose alphas are defined, when the first expires
      without loop the splice moves the second into slot 0 while the loop moves on to slot 1,
      so the second is neither drawn nor advanced this tick. */
  lemma SpliceSkipsNextParticle(first: Particle, second: Particle, env: PassEnv, spawn: nat -> Particle, k: nat)
    requires !env.loop && env.count != 0 && first.life != 0.0 && second.life != 0.0
    requires Expired(Processed(first, env.count))
    ensures Pass([first, second], 0, env, spawn, k).pool == [second]
    ensures |Pass([first, second], 0, env, spawn, k).draws| == 1
  {
    var pool := [first, second];
    var v := VisitSlot(pool, 0, env, spawn(k));
    assert v.pool == [second];
    assert Pass(v.pool, 1, env, spawn, k) == PassResult([second], [], k);
  }

  /** The pass as evidently intended: after a splice the same index is visited again, so
      every particle present when the pass reaches it is visited exactly once, and each
      one whose alpha is defined is drawn. */
  function PassRevisiting(pool: seq<Particle>, i: nat, env: PassEnv, spawn: nat -> Particle, k: nat): (r: PassResult)
    ensures |r.pool| <= |pool|
    ensures i <= |pool| && env.count != 0 && (forall j :: i <= j < |pool| ==> pool[j].life != 0.0) ==>
      |r.draws| == |pool| - i
    decreases |pool| - i
  {
    if |pool| <= i then PassResult(pool, [], k)
    else
      var v := VisitSlot(pool, i, env, spawn(k));
      var next := if |v.pool| < |pool| then i else i + 1;
      assert |v.pool| < |pool| ==> forall j :: i <= j < |v.pool| ==> v.pool[j] == pool[j + 1];
      var rest := PassRevisiting(v.pool, next, env, spawn, if v.spawned then k + 1 else k);
      PassResult(rest.pool, v.draws + rest.draws, rest.used)
  }

  /** In the same situation the corrected pass draws and advances the second particle. */
  lemma RevisitingProcessesSplicedFollower(first: Particle, second: Particle, env: PassEnv, spawn: nat -> Particle, k: nat)
    requires !env.loop && env.count != 0 && first.life != 0.0 && second.life != 0.0
    requires Expired(Processed(first, env.count)) && !Expired(Processed(second, env.count))
    ensures PassRevisiting([first, second], 0, env, spawn, k).pool == [Processed(second, env.count)]
    ensures |PassRevisiting([first, second], 0, env, spawn, k).draws| == 2
  {
    var pool := [first, second];
    var v := VisitSlot(pool, 0, env, spawn(k));
    assert v.pool == [second];
    var w := VisitSlot(v.pool, 0, env, spawn(k));
    assert w.pool == [Processed(second, env.count)];
    assert PassRevisiting(w.pool, 1, env, spawn, k) == PassResult(w.pool, [], k);
  }

  // ---------------------------------------------------------------------
  // Pool reconciliation (lines 93-102)
  // ---------------------------------------------------------------------

  /** The pool length the two loops leave. Each loop re-reads the pool length in its bound
      while its counter also advances, so it closes only half the gap (rounded up): the
      length moves toward count, never past it, and changes whenever it differs from count. */
  function ReconciledLength(n: nat, count: int): (m: nat)
    ensures n < count ==> n < m <= count
    ensures count < n ==> (m < n || n == 0) && (0 <= count ==> count <= m)
    ensures n == count ==> m == n
  {
    if n < count then (n + count + 1) / 2
    else if count < n then
      if n + count < 0 then 0
      else
        var half := (n + count) / 2;
        assert 2 * half <= n + count < 2 * n;
        half
    else n
  }

  /** The number of spawn draws the grow loop consumes. */
  function GrowCount(n: nat, count: int): (g: nat)
    ensures n < count ==> count - n <= 2 * g && 2 * (g - 1) < count - n
    ensures count <= n ==> g == 0
  {
    if n < count then ReconciledLength(n, count) - n else 0
  }

  /** The first n spawns of a tick, in order. */
  function Spawns(spawn: nat -> Particle, n: nat): (s: seq<Particle>)
    ensures |s| == n
    ensures forall j :: 0 <= j < n ==> s[j] == spawn(j)
  {
    if n == 0 then [] else Spawns(spawn, n - 1) + [spawn(n - 1)]
  }

  /** The pool after reconciliation: grown by appending spawn spawns, or shrunk by dropping
      from the tail, to ReconciledLength. */
  function Reconciled(pool: seq<Particle>, count: int, spawn: nat -> Particle): (r: seq<Particle>)
    ensures |r| == ReconciledLength(|pool|, count)
    ensures |pool| <= |r| ==> r[..|pool|] == pool
    ensures forall j :: |pool| <= j < |r| ==> r[j] == spawn(j - |pool|)
    ensures |r| <= |pool| ==> r == pool[..|r|]
  {
    var m := ReconciledLength(|pool|, count);
    if |pool| < m then pool + Spawns(spawn, m - |pool|) else pool[..m]
  }

  /** As written, an empty pool with count 2 ends the tick's reconciliation holding one
      particle; the intended reconciliation holds two. */
  lemma ReconcileFallsShort(spawn: nat -> Particle)
    ensures |Reconciled([], 2, spawn)| == 1
    ensures |FilledToCount([], 2, spawn)| == 2
  {
  }

  /** The reconciliation as evidently intended: exactly count particles (none for a negative
      count), keeping the surviving prefix and appending spawn spawns. */
  function FilledToCount(pool: seq<Particle>, count: int, spawn: nat -> Particle): (r: seq<Particle>)
    ensures |r| == if count < 0 then 0 else count
    ensures |pool| <= |r| ==> r[..|pool|] == pool
    ensures forall j :: |pool| <= j < |r| ==> r[j] == spawn(j - |pool|)
    ensures |r| <= |pool| ==> r == pool[..|r|]
  {
    var m := if count < 0 then 0 else count;
    if |pool| < m then pool + Spawns(spawn, m - |pool|) else pool[..m]
  }

  /** Setting the compositing mode is skipped for an empty blendMode (line 104). */
  function Composite(blendMode: string): (mode: Option<string>)
    ensures mode.Some? <==> blendMode != ""
    ensures mode.Some? ==> mode.value == blendMode
  {
    if blendMode != "" then Some(blendMode) else None
  }

  /** What one tick hands to the rendering surface. */
  datatype Frame = Frame(composite: Option<string>, draws: seq<DrawCall>)

  // ---------------------------------------------------------------------
  // Live particles: the frame-to-frame invariant under which alpha is in [0, 1]
  // ---------------------------------------------------------------------

  /** A particle whose remaining life lies between 0 and its life. For such a particle and
      a positive count, alpha is NaN only for a zero life and otherwise in [0, 1]
      (AlphaWithinUnit). */
  predicate Live(p: Particle) {
    0.0 <= p.remainingLife <= p.life
  }

  predicate AllLive(pool: seq<Particle>) {
    forall j :: 0 <= j < |pool| ==> Live(pool[j])
  }

  /** With draws in [0, 1) and a non-negative base life, a spawn starts live. */
  lemma SpawnLive(e: Emitter, u: SpawnRandom)
    requires ValidRandom(u) && 0.0 <= e.life
    ensures Live(Spawn(e, u))
  {
    JitterUp(e.life, u.life);
  }

  /** Every spawn of a frame whose draws are all in [0, 1) starts live. */
  lemma SpawnerLive(e: Emitter, rand: nat -> SpawnRandom)
    requires 0.0 <= e.life && forall k: nat :: ValidRandom(rand(k))
    ensures forall k: nat :: Live(Spawner(e, rand)(k))
  {
    forall k: nat
      ensures Live(Spawner(e, rand)(k))
    {
      SpawnLive(e, rand(k));
    }
  }

  /** Visiting a slot of a live pool with a live spawn leaves the pool live: a kept particle
      has not expired, so its remaining life is still at least 0, and one step lowers it. */
  lemma VisitKeepsLive(pool: seq<Particle>, i: nat, env: PassEnv, spawn: Particle)
    requires i < |pool| && AllLive(pool) && Live(spawn)
    ensures AllLive(VisitSlot(pool, i, env, spawn).pool)
  {
    var v := VisitSlot(pool, i, env, spawn);
    VisitSlotOutcome(pool, i, env, spawn);
    if |v.pool| < |pool| {
      forall j | 0 <= j < |v.pool|
        ensures Live(v.pool[j])
      {
        assert v.pool[j] == if j < i then pool[j] else pool[j + 1];
      }
    }
  }

  /** The pass keeps a pool live when every spawn of the frame is live. */
  lemma {:induction false} PassKeepsLive(pool: seq<Particle>, i: nat, env: PassEnv, spawn: nat -> Particle, k: nat)
    requires AllLive(pool) && forall m: nat :: Live(spawn(m))
    ensures AllLive(Pass(pool, i, env, spawn, k).pool)
    decreases |pool| + 1 - i
  {
    if i < |pool| {
      var v := VisitSlot(pool, i, env, spawn(k));
      VisitKeepsLive(pool, i, env, spawn(k));
      PassKeepsLive(v.pool, v.next, env, spawn, if v.spawned then k + 1 else k);
    }
  }

  /** Reconciliation keeps a pool live when every spawn of the frame is live. */
  lemma ReconciledLive(pool: seq<Particle>, count: int, spawn: nat -> Particle)
    requires AllLive(pool) && forall m: nat :: Live(spawn(m))
    ensures AllLive(Reconciled(pool, count, spawn))
  {
    var r := Reconciled(pool, count, spawn);
    forall j | 0 <= j < |r|
      ensures Live(r[j])
    {
      if j < |pool| {
        if |pool| <= |r| {
          assert r[j] == r[..|pool|][j];
        } else {
          assert r[j] == pool[..|r|][j];
        }
      } else {
        assert r[j] == spawn(j - |pool|);
      }
    }
  }

  /** A whole frame (reconciliation, then the pass) keeps a pool live when every spawn is live. */
  lemma FrameKeepsLive(pool: seq<Particle>, count: int, env: PassEnv, spawn: nat -> Particle, k: nat)
    requires AllLive(pool) && forall m: nat :: Live(spawn(m))
    ensures AllLive(Pass(Reconciled(pool, count, spawn), 0, env, spawn, k).pool)
  {
    ReconciledLive(pool, count, spawn);
    PassKeepsLive(Reconciled(pool, count, spawn), 0, env, spawn, k);
  }

  // ---------------------------------------------------------------------
  // Fixed-rate geometry reconciliation (lines 141-151)
  // ---------------------------------------------------------------------

  /** radius, width and height, with the width and height seen by the previous fixed tick. */
  datatype Geometry = Geometry(radius: real, width: real, height: real, lastWidth: real, lastHeight: real)

  /** A changed width sets the radius to half of it, then a changed height does (and so wins);
      finally width and height are both rewritten to the diameter. */
  function FixedStep(g: Geometry): (h: Geometry)
    ensures h.width == 2.0 * h.radius && h.height == 2.0 * h.radius
    ensures g.height != g.lastHeight ==> h.radius == g.height / 2.0
    ensures g.height == g.lastHeight && g.width != g.lastWidth ==> h.radius == g.width / 2.0
    ensures g.height == g.lastHeight && g.width == g.lastWidth ==> h.radius == g.radius
    ensures h.lastWidth == g.width && h.lastHeight == g.height
  {
    var radius1 := if g.width != g.lastWidth then g.width / 2.0 else g.radius;
    var lastWidth := if g.width != g.lastWidth then g.width else g.lastWidth;
    var radius2 := if g.height != g.lastHeight then g.height / 2.0 else radius1;
    var lastHeight := if g.height != g.lastHeight then g.height else g.lastHeight;
    Geometry(radius2, radius2 * 2.0, radius2 * 2.0, lastWidth, lastHeight)
  }

  /** A second fixed tick with no change in between leaves radius, width and height as they are. */
  lemma FixedStepSettles(g: Geometry)
    ensures FixedStep(FixedStep(g)).radius == FixedStep(g).radius
    ensures FixedStep(FixedStep(g)).width == FixedStep(g).width
    ensures FixedStep(FixedStep(g)).height == FixedStep(g).height
  {
  }
}
