/**
 * The Particle game object (src/lib/GameObjects/Particle.js): a record of
 * plain fields with no behaviour of its own. Its constructor assigns the
 * defaults, merges the construction options over them, and then resets
 * the remaining life to the (possibly overridden) life.
 */
module Particles {
  import opened JsNumber
  import opened Optional

  datatype Vector2 = Vector2(x: real, y: real) {

    /** Vector2.add: the componentwise sum. */
    function Add(v: Vector2): Vector2 {
      Vector2(x + v.x, y + v.y)
    }
  }

  /** An RGB colour with an alpha that the owning system recomputes every tick. */
  datatype Color = Color(r: real, g: real, b: real, alpha: Number)

  datatype Transform = Transform(position: Vector2)

  datatype Particle = Particle(
    transform: Transform,
    speed: Vector2,
    radius: real,
    life: real,
    remainingLife: real,
    color: Color)

  /** The construction options a Particle recognises; an absent key keeps the default. */
  datatype ParticleOptions = ParticleOptions(
    transform: Option<Transform>,
    speed: Option<Vector2>,
    radius: Option<real>,
    life: Option<real>,
    remainingLife: Option<real>,
    color: Option<Color>)

  const NoOptions := ParticleOptions(None, None, None, None, None, None)

  /** The transform a game object starts with when none is given. */
  const Origin := Transform(Vector2(0.0, 0.0))

  /** The default colour: opaque white. */
  const White := Color(255.0, 255.0, 255.0, Finite(1.0))

  /** The fields assigned before the options are merged. */
  function Defaults(): Particle {
    Particle(Origin, Vector2(0.0, 0.0), 1.0, 1.0, 1.0, White)
  }

  /** The field-by-field merge: each key present in the options replaces the current field. */
  function Merge(p: Particle, options: ParticleOptions): Particle {
    Particle(
      options.transform.GetOr(p.transform),
      options.speed.GetOr(p.speed),
      options.radius.GetOr(p.radius),
      options.life.GetOr(p.life),
      options.remainingLife.GetOr(p.remainingLife),
      options.color.GetOr(p.color))
  }

  /** The Particle constructor: defaults, then the options, then remainingLife := life. */
  function NewParticle(options: ParticleOptions): (p: Particle)
    ensures p.remainingLife == p.life
    ensures options.transform.Some? ==> p.transform == options.transform.value
    ensures options.transform.None? ==> p.transform == Origin
    ensures options.speed.Some? ==> p.speed == options.speed.value
    ensures options.speed.None? ==> p.speed == Vector2(0.0, 0.0)
    ensures options.radius.Some? ==> p.radius == options.radius.value
    ensures options.radius.None? ==> p.radius == 1.0
    ensures options.life.Some? ==> p.life == options.life.value
    ensures options.life.None? ==> p.life == 1.0
    ensures options.color.Some? ==> p.color == options.color.value
    ensures options.color.None? ==> p.color == White
  {
    var merged := Merge(Defaults(), options);
    merged.(remainingLife := merged.life)
  }

  /** Without options, a particle is at rest at the origin, of radius and life 1, opaque white. */
  lemma DefaultParticle()
    ensures NewParticle(NoOptions) == Particle(Origin, Vector2(0.0, 0.0), 1.0, 1.0, 1.0, White)
  {
  }

  /** A remainingLife given in the options never survives construction. */
  lemma RemainingLifeOptionIgnored(options: ParticleOptions, v: real)
    ensures NewParticle(options.(remainingLife := Some(v))) == NewParticle(options)
  {
  }
}
