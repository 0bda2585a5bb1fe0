/** The fixed-capacity particle buffer of src/assets.c: creation, emission
    and the in-place update that compacts dead particles out by
    swap-with-last. The random parts of a new particle (velocity, lifetime,
    size, green channel) are the `draw` parameter. */
module Particles {
  import opened Geometry

  datatype Color = Color(r: int, g: int, b: int, a: int)

  datatype Particle = Particle(position: Vec3, velocity: Vec3, life: real, maxLife: real, size: real, color: Color)

  /** The six rand() results drawn for one emitted particle, in the order
      velocity x, y, z, lifetime, size, green. */
  datatype Draw = Draw(vx: nat, vy: nat, vz: nat, life: nat, size: nat, green: nat)

  /** Particles per second, set once at creation. */
  const EmitRate: real := 15.0
  /** New particles start this far above the emitter. */
  const SpawnLift: real := 0.25
  const ParticleGravity: real := -2.0

  /** C's conversion of a float to int: truncation toward zero. */
  function Trunc(x: real): (n: int)
    ensures x >= 0.0 ==> 0.0 <= n as real <= x < n as real + 1.0
    ensures x < 0.0 ==> n as real - 1.0 < x <= n as real <= 0.0
  {
    if x >= 0.0 then x.Floor else -((-x).Floor)
  }

  /** The emission step of one frame: the whole particles owed and the
      fraction carried over to the next frame. */
  datatype Emission = Emission(count: int, carry: real)

  function Accumulate(accumulator: real, rate: real, dt: real): (e: Emission)
    ensures e.count as real + e.carry == accumulator + rate * dt
    ensures accumulator + rate * dt >= 0.0 ==> e.count >= 0 && 0.0 <= e.carry < 1.0
    ensures accumulator + rate * dt < 0.0 ==> e.count <= 0 && -1.0 < e.carry <= 0.0
  {
    var acc := accumulator + rate * dt;
    Emission(Trunc(acc), acc - Trunc(acc) as real)
  }

  /** A newly emitted particle, its random parts scaled as the source
      scales rand(). Whatever rand() returns, it starts just above the
      emitter with full life, rises, drifts sideways at most 0.2 per second,
      and has its lifetime, size and colour in the ranges the formulas allow. */
  function Spawn(emitterPos: Vec3, d: Draw): (p: Particle)
    ensures p.position == Vec3(emitterPos.x, emitterPos.y + SpawnLift, emitterPos.z)
    ensures p.life == 1.0
    ensures -0.2 <= p.velocity.x < 0.2 && -0.2 <= p.velocity.z < 0.2
    ensures 0.2 <= p.velocity.y < 0.8
    ensures 0.5 <= p.maxLife < 1.0 && 0.05 <= p.size < 0.08
    ensures p.color.r == 255 && 150 <= p.color.g < 200 && p.color.b == 0 && p.color.a == 255
  {
    Particle(emitterPos.(y := emitterPos.y + SpawnLift),
             Vec3(((d.vx % 200) as real - 100.0) / 500.0,
                  ((d.vy % 300) as real + 100.0) / 500.0,
                  ((d.vz % 200) as real - 100.0) / 500.0),
             1.0,
             0.5 + (d.life % 50) as real / 100.0,
             0.05 + (d.size % 30) as real / 1000.0,
             Color(255, 150 + d.green % 50, 0, 255))
  }

  /** The first n particles emitted this frame. */
  function Spawned(emitterPos: Vec3, draw: nat -> Draw, n: nat): (r: seq<Particle>)
    ensures |r| == n
    ensures forall i :: 0 <= i < n ==> r[i] == Spawn(emitterPos, draw(i))
  {
    if n == 0 then [] else Spawned(emitterPos, draw, n - 1) + [Spawn(emitterPos, draw(n - 1))]
  }

  /** How many of `toEmit` requested particles fit into a buffer of
      `capacity` slots of which `active` are in use. */
  function Emitted(toEmit: int, active: int, capacity: int): (n: nat)
    requires 0 <= active <= capacity
    ensures n <= capacity - active
    ensures toEmit <= 0 ==> n == 0
    ensures toEmit > 0 ==> n <= toEmit
    ensures n < toEmit ==> active + n == capacity
  {
    if toEmit <= 0 then 0 else if toEmit <= capacity - active then toEmit else capacity - active
  }

  /** One frame of motion for a particle: gravity on the vertical velocity,
      the position moved by the new velocity, and the life shortened by dt. */
  function Advance(p: Particle, dt: real): (q: Particle)
    ensures q.life == p.life - dt
    ensures q.velocity.x == p.velocity.x && q.velocity.z == p.velocity.z
    ensures q.velocity.y == p.velocity.y - 2.0 * dt
    ensures q.position.x - p.position.x == q.velocity.x * dt
    ensures q.position.y - p.position.y == q.velocity.y * dt
    ensures q.position.z - p.position.z == q.velocity.z * dt
    ensures q.maxLife == p.maxLife && q.size == p.size && q.color == p.color
  {
    var v := p.velocity.(y := p.velocity.y + ParticleGravity * dt);
    p.(velocity := v,
       position := Vec3(p.position.x + v.x * dt, p.position.y + v.y * dt, p.position.z + v.z * dt),
       life := p.life - dt)
  }

  /** The particles of `s`, each advanced once, that are still alive, in order. */
  function Survivors(s: seq<Particle>, dt: real): (r: seq<Particle>)
    ensures |r| <= |s|
    ensures forall i :: 0 <= i < |r| ==> r[i].life > 0.0
  {
    if s == [] then []
    else
      var q := Advance(s[0], dt);
      (if q.life > 0.0 then [q] else []) + Survivors(s[1..], dt)
  }

  /** How many particles of `s` die in this frame. */
  function Deaths(s: seq<Particle>, dt: real): nat
  {
    if s == [] then 0
    else (if Advance(s[0], dt).life > 0.0 then 0 else 1) + Deaths(s[1..], dt)
  }

  /** Every particle either survives or is counted as a death. */
  lemma {:induction false} SurvivorsAndDeaths(s: seq<Particle>, dt: real)
    ensures |Survivors(s, dt)| + Deaths(s, dt) == |s|
  {
    if s != [] {
      SurvivorsAndDeaths(s[1..], dt);
    }
  }

  /** Filtering distributes over concatenation. */
  lemma {:induction false} SurvivorsAppend(a: seq<Particle>, b: seq<Particle>, dt: real)
    ensures Survivors(a + b, dt) == Survivors(a, dt) + Survivors(b, dt)
  {
    if a == [] {
      assert a + b == b;
    } else {
      assert (a + b)[0] == a[0];
      assert (a + b)[1..] == a[1..] + b;
      SurvivorsAppend(a[1..], b, dt);
    }
  }

  /** Moving the last particle of the pending part into the slot of a dead
      one does not change which particles survive. */
  lemma DropStep(s: seq<Particle>, dt: real)
    requires |s| > 1 && Advance(s[0], dt).life <= 0.0
    ensures multiset(Survivors([s[|s| - 1]] + s[1..|s| - 1], dt)) == multiset(Survivors(s, dt))
  {
    var mid, last := s[1..|s| - 1], s[|s| - 1];
    assert s[1..] == mid + [last];
    assert Survivors(s, dt) == Survivors(mid + [last], dt);
    SurvivorsAppend([last], mid, dt);
    SurvivorsAppend(mid, [last], dt);
    var a, b := Survivors([last], dt), Survivors(mid, dt);
    assert multiset(a + b) == multiset(a) + multiset(b) == multiset(b + a);
  }

  /** The update loop of ParticleSystem_Update on sequences: advance the
      particle at the front of the pending part; keep it if it is alive,
      otherwise replace it by the last pending particle and look again. */
  function Compacted(s: seq<Particle>, dt: real): (r: seq<Particle>)
    decreases |s|
    ensures |r| <= |s|
    ensures forall i :: 0 <= i < |r| ==> r[i].life > 0.0
  {
    if s == [] then []
    else
      var q := Advance(s[0], dt);
      if q.life > 0.0 then [q] + Compacted(s[1..], dt)
      else if |s| == 1 then []
      else Compacted([s[|s| - 1]] + s[1..|s| - 1], dt)
  }

  /** Swap-with-last changes the order of the particles but not which ones
      survive: exactly the survivors, each advanced once, and as many as
      there are particles minus deaths. */
  lemma {:induction false} CompactedKeepsSurvivors(s: seq<Particle>, dt: real)
    decreases |s|
    ensures multiset(Compacted(s, dt)) == multiset(Survivors(s, dt))
    ensures |Compacted(s, dt)| == |s| - Deaths(s, dt)
  {
    if s != [] {
      if Advance(s[0], dt).life > 0.0 {
        CompactedKeepsSurvivors(s[1..], dt);
      } else if |s| > 1 {
        var r := [s[|s| - 1]] + s[1..|s| - 1];
        CompactedKeepsSurvivors(r, dt);
        DropStep(s, dt);
      }
    }
    SurvivorsAndDeaths(s, dt);
    assert |multiset(Compacted(s, dt))| == |multiset(Survivors(s, dt))|;
  }

  /** The whole result of the update loop once `kept` is settled and
      `pending` is still to be examined. */
  function Outcome(kept: seq<Particle>, pending: seq<Particle>, dt: real): seq<Particle>
  {
    kept + Compacted(pending, dt)
  }

  lemma OutcomeKeep(kept: seq<Particle>, s: seq<Particle>, dt: real)
    requires s != [] && Advance(s[0], dt).life > 0.0
    ensures Outcome(kept, s, dt) == Outcome(kept + [Advance(s[0], dt)], s[1..], dt)
  {
  }

  lemma OutcomeDrop(kept: seq<Particle>, s: seq<Particle>, dt: real)
    requires s != [] && Advance(s[0], dt).life <= 0.0
    ensures Outcome(kept, s, dt) == Outcome(kept, if |s| > 1 then [s[|s| - 1]] + s[1..|s| - 1] else [], dt)
  {
  }

  /** Overwriting slot |kept| of a buffer whose first n slots hold
      kept + pending with the front particle's new value. */
  lemma WriteKept<T>(s: seq<T>, n: int, kept: seq<T>, pending: seq<T>, v: T)
    requires 0 <= |kept| < n <= |s| && s[..n] == kept + pending
    ensures s[|kept| := v][..n] == (kept + [v]) + pending[1..]
  {
    assert pending[0] == s[|kept|];
  }

  /** Overwriting slot |kept| with the last of the first n slots, then
      dropping that last slot. */
  lemma WriteLast<T>(s: seq<T>, n: int, kept: seq<T>, pending: seq<T>)
    requires 0 <= |kept| < n - 1 && n <= |s| && s[..n] == kept + pending
    ensures s[|kept| := s[n - 1]][..n - 1] == kept + ([pending[|pending| - 1]] + pending[1..|pending| - 1])
  {
    assert pending[|pending| - 1] == s[n - 1];
    assert forall k :: |kept| < k < n - 1 ==> pending[k - |kept|] == s[k];
  }

  /** The dead particle is itself the last one: dropping it leaves `kept`. */
  lemma WriteOnly<T>(s: seq<T>, n: int, kept: seq<T>, pending: seq<T>, v: T)
    requires 0 <= |kept| == n - 1 && n <= |s| && s[..n] == kept + pending
    ensures s[|kept| := v][..n - 1] == kept
  {
    assert s[..n - 1] == kept;
  }

  class ParticleSystem {
    var particles: array<Particle>
    var maxParticles: int
    var activeParticles: int
    var emitRate: real
    var emitAccumulator: real
    var emitterPos: Vec3

    /** The buffer holds maxParticles slots, the first activeParticles are
        in use, and every particle in use is alive. */
    ghost predicate Valid()
      reads this`particles, this`maxParticles, this`activeParticles, particles
    {
      0 <= activeParticles <= maxParticles == particles.Length
      && forall i :: 0 <= i < activeParticles ==> particles[i].life > 0.0
    }

    /** The particles in use. */
    ghost function Live(): seq<Particle>
      reads this`particles, this`activeParticles, particles
      requires 0 <= activeParticles <= particles.Length
    {
      particles[..activeParticles]
    }

    /** The successful path of ParticleSystem_Create. */
    constructor (capacity: nat)
      ensures Valid() && fresh(particles)
      ensures maxParticles == capacity && activeParticles == 0
      ensures emitRate == EmitRate && emitAccumulator == 0.0 && emitterPos == Vec3(0.0, 0.0, 0.0)
    {
      particles := new Particle[capacity];
      maxParticles := capacity;
      activeParticles := 0;
      emitRate := EmitRate;
      emitAccumulator := 0.0;
      emitterPos := Vec3(0.0, 0.0, 0.0);
    }

    /** ParticleSystem_Update on a live system: accumulate emission, emit
        the whole part of the accumulator as far as capacity allows (the
        accumulator loses the whole part even when capacity cut emission
        short), then advance every particle once and remove the dead ones
        by swap-with-last. */
    method Update(emitterPos: Vec3, dt: real, draw: nat -> Draw)
      requires Valid()
      modifies this, particles
      ensures Valid()
      ensures particles == old(particles) && maxParticles == old(maxParticles) && emitRate == old(emitRate)
      ensures this.emitterPos == emitterPos
      ensures var e := Accumulate(old(emitAccumulator), emitRate, dt);
              emitAccumulator == e.carry
              && Live() == Compacted(old(Live()) + Spawned(emitterPos, draw, Emitted(e.count, old(activeParticles), maxParticles)), dt)
    {
      ghost var live0 := Live();
      this.emitterPos := emitterPos;
      var e := Accumulate(emitAccumulator, emitRate, dt);
      var toEmit := e.count;
      emitAccumulator := e.carry;
      ghost var pre := live0 + Spawned(emitterPos, draw, Emitted(toEmit, |live0|, maxParticles));
      Emit(toEmit, draw);
      assert Live() == pre;
      AdvanceAll(dt);
    }

    /** The emission loop: up to toEmit new particles at the emitter,
        appended after the particles in use while there is room. */
    method Emit(toEmit: int, draw: nat -> Draw)
      requires Valid()
      modifies this`activeParticles, particles
      ensures Valid()
      ensures Live() == old(Live()) + Spawned(emitterPos, draw, Emitted(toEmit, old(activeParticles), maxParticles))
    {
      ghost var before := particles[..activeParticles];
      var i := 0;
      while i < toEmit && activeParticles < maxParticles
        invariant 0 <= i && (i == 0 || i <= toEmit)
        invariant activeParticles == |before| + i <= maxParticles == particles.Length
        invariant particles[..activeParticles] == before + Spawned(emitterPos, draw, i)
        invariant forall k :: 0 <= k < activeParticles ==> particles[k].life > 0.0
      {
        particles[activeParticles] := Spawn(emitterPos, draw(i));
        activeParticles := activeParticles + 1;
        i := i + 1;
      }
      assert i == Emitted(toEmit, |before|, maxParticles);
    }

    /** The buffer during the update loop: slots before j hold `kept`,
        the rest of the slots in use hold `pending`. */
    ghost predicate Compacting(j: int, kept: seq<Particle>, pending: seq<Particle>)
      reads this, particles
    {
      0 <= j <= activeParticles <= maxParticles == particles.Length
      && |kept| == j && particles[..activeParticles] == kept + pending
    }

    lemma PendingFront(j: int, kept: seq<Particle>, pending: seq<Particle>)
      requires Compacting(j, kept, pending) && j < activeParticles
      ensures pending != [] && pending[0] == particles[j]
    {
      assert particles[..activeParticles][j] == (kept + pending)[j];
    }

    /** A live particle: its advanced value is stored in place. */
    method StoreAdvanced(j: int, p: Particle, ghost kept: seq<Particle>, ghost pending: seq<Particle>)
      requires Compacting(j, kept, pending) && j < activeParticles
      modifies particles
      ensures Compacting(j + 1, kept + [p], pending[1..])
    {
      ghost var s := particles[..];
      assert s[..activeParticles] == particles[..activeParticles];
      particles[j] := p;
      assert particles[..] == s[j := p];
      WriteKept(s, activeParticles, kept, pending, p);
    }

    /** A dead particle: its slot takes the last particle in use, and the
        count of particles in use drops by one. */
    method RemoveDead(j: int, p: Particle, ghost kept: seq<Particle>, ghost pending: seq<Particle>)
      returns (ghost pending': seq<Particle>)
      requires Compacting(j, kept, pending) && j < activeParticles
      modifies this`activeParticles, particles
      ensures activeParticles == old(activeParticles) - 1 && Compacting(j, kept, pending')
      ensures pending' == if |pending| > 1 then [pending[|pending| - 1]] + pending[1..|pending| - 1] else []
    {
      ghost var s := particles[..];
      assert s[..activeParticles] == particles[..activeParticles];
      particles[j] := p;
      particles[j] := particles[activeParticles - 1];
      activeParticles := activeParticles - 1;
      if j < activeParticles {
        assert particles[..] == s[j := s[activeParticles]];
        WriteLast(s, activeParticles + 1, kept, pending);
        pending' := [pending[|pending| - 1]] + pending[1..|pending| - 1];
      } else {
        assert particles[..] == s[j := p];
        WriteOnly(s, activeParticles + 1, kept, pending, p);
        pending' := [];
      }
    }

    /** The update-and-compact loop: every particle in use is advanced once;
        a dead one is overwritten by the last particle in use, the count
        drops, and the same index is examined again. */
    method AdvanceAll(dt: real)
      requires 0 <= activeParticles <= maxParticles == particles.Length
      modifies this`activeParticles, particles
      ensures Valid()
      ensures Live() == Compacted(old(particles[..activeParticles]), dt)
    {
      ghost var pre := particles[..activeParticles];
      ghost var kept: seq<Particle> := [];
      ghost var pending := pre;
      var j := 0;
      while j < activeParticles
        invariant Compacting(j, kept, pending)
        invariant Outcome(kept, pending, dt) == Compacted(pre, dt)
        decreases activeParticles - j
      {
        PendingFront(j, kept, pending);
        var p := Advance(particles[j], dt);
        if p.life <= 0.0 {
          OutcomeDrop(kept, pending, dt);
          pending := RemoveDead(j, p, kept, pending);
          j := j - 1;
        } else {
          OutcomeKeep(kept, pending, dt);
          StoreAdvanced(j, p, kept, pending);
          kept := kept + [p];
          pending := pending[1..];
        }
        j := j + 1;
      }
      assert Outcome(kept, [], dt) == kept;
      assert Live() == Compacted(pre, dt);
      assert forall i :: 0 <= i < activeParticles ==> particles[i] == Live()[i];
    }
  }

  /** ParticleSystem_Create: NULL when the system struct cannot be allocated,
      or when the particle array cannot (the struct is then released);
      a negative capacity makes the array allocation fail. */
  method CreateParticleSystem(maxParticles: int, systemAllocOk: bool, arrayAllocOk: bool)
    returns (ps: ParticleSystem?)
    ensures ps == null <==> !systemAllocOk || !arrayAllocOk || maxParticles < 0
    ensures ps != null ==>
              fresh(ps) && fresh(ps.particles) && ps.Valid()
              && ps.maxParticles == maxParticles && ps.activeParticles == 0
              && ps.emitRate == EmitRate && ps.emitAccumulator == 0.0 && ps.emitterPos == Vec3(0.0, 0.0, 0.0)
  {
    if !systemAllocOk {
      return null;
    }
    if !arrayAllocOk || maxParticles < 0 {
      return null;
    }
    ps := new ParticleSystem(maxParticles);
  }

  /** ParticleSystem_Update including its NULL check. */
  method UpdateParticleSystem(ps: ParticleSystem?, emitterPos: Vec3, dt: real, draw: nat -> Draw)
    requires ps != null ==> ps.Valid()
    modifies if ps == null then {} else {ps, ps.particles}
    ensures ps != null ==>
              ps.Valid() && ps.emitterPos == emitterPos
              && ps.particles == old(ps.particles) && ps.maxParticles == old(ps.maxParticles)
              && ps.emitRate == old(ps.emitRate)
              && var e := Accumulate(old(ps.emitAccumulator), old(ps.emitRate), dt);
                 ps.emitAccumulator == e.carry
                 && ps.Live() == Compacted(old(ps.Live()) + Spawned(emitterPos, draw, Emitted(e.count, old(ps.activeParticles), ps.maxParticles)), dt)
  {
    if ps == null {
      return;
    }
    ps.Update(emitterPos, dt, draw);
  }
}
