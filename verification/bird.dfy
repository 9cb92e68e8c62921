/** The player script of the FloppyBirb test game (`Bird`).

    The bird is a two-state jump latch: a tick applies the jump impulse when
    the latch is open and Space is held, closes the latch, and re-opens it as
    soon as Space is seen released. A collision restarts the obstacle field
    and puts the bird back at the origin. */
module Bird {
  import opened Wrappers
  import Obstacles

  type Vec2 = Obstacles.Vec2

  /** The script's attributes together with the position the engine keeps
      for the bird's entity. */
  datatype BirdState = BirdState(
    isJumping: bool,
    jumpForce: Vec2,
    restartOnNextFrame: bool,
    position: Vec2)

  const JumpForce: Vec2 := Obstacles.Vec2(0.0, 40.0)
  const Origin: Vec2 := Obstacles.Vec2(0.0, 0.0)

  /** `OnCreate`: the latch starts open and the force points straight up; the
      entity keeps the position the scene gave it. */
  function OnCreate(position: Vec2): (b: BirdState)
    ensures !b.isJumping && b.jumpForce == JumpForce && b.restartOnNextFrame
    ensures b.position == position
  {
    BirdState(false, JumpForce, true, position)
  }

  /** One tick's outcome: the new state and the force passed to `ApplyForce`, if any. */
  datatype Step = Step(bird: BirdState, impulse: Option<Vec2>)

  /** `OnFixedUpdate` as written: Space is sampled twice, once to decide on the
      jump and once to decide whether to re-open the latch. */
  function TickSampled(b: BirdState, first: bool, second: bool): (s: Step)
    ensures s.impulse.Some? <==> !b.isJumping && first
    ensures s.impulse.Some? ==> s.impulse.value == b.jumpForce
    ensures s.bird.isJumping <==> second && (b.isJumping || first)
    ensures s.bird == b.(isJumping := s.bird.isJumping)
  {
    var jumped := !b.isJumping && first;
    var impulse := if jumped then Some(b.jumpForce) else None;
    var latched := if jumped then b.(isJumping := true) else b;
    var released := if !second then latched.(isJumping := false) else latched;
    Step(released, impulse)
  }

  /** A tick in which both samples see the same key state. */
  function Tick(b: BirdState, pressed: bool): (s: Step)
    ensures s.bird.isJumping == pressed
    ensures s.impulse.Some? <==> !b.isJumping && pressed
  {
    TickSampled(b, pressed, pressed)
  }

  /** The outcome of a run of ticks: the final state and every impulse applied. */
  datatype Run = Run(bird: BirdState, impulses: seq<Vec2>)

  /** Ticks with the key states `keys`, one sample per tick, in order. */
  function RunTicks(b: BirdState, keys: seq<bool>): (r: Run)
    ensures r.bird == b.(isJumping := r.bird.isJumping)
    ensures forall k :: 0 <= k < |r.impulses| ==> r.impulses[k] == b.jumpForce
    decreases |keys|
  {
    if |keys| == 0 then Run(b, [])
    else
      var s := Tick(b, keys[0]);
      var rest := RunTicks(s.bird, keys[1..]);
      Run(rest.bird, (if s.impulse.Some? then [s.impulse.value] else []) + rest.impulses)
  }

  /** Whether the key went down at tick `i`: pressed now, not pressed at the
      previous tick (or, for the first tick, the latch was open). */
  predicate RisingAt(wasHeld: bool, keys: seq<bool>, i: nat)
    requires i < |keys|
  {
    keys[i] && !(if i == 0 then wasHeld else keys[i - 1])
  }

  /** The number of rising edges in `keys`, counted from the back. */
  function RisingEdges(wasHeld: bool, keys: seq<bool>): nat
    decreases |keys|
  {
    if |keys| == 0 then 0
    else RisingEdges(wasHeld, keys[..|keys| - 1]) + (if RisingAt(wasHeld, keys, |keys| - 1) then 1 else 0)
  }

  /** Counting rising edges from the front agrees with counting them from the back. */
  lemma {:induction false} RisingEdgesFront(wasHeld: bool, keys: seq<bool>)
    requires |keys| > 0
    ensures RisingEdges(wasHeld, keys)
            == (if keys[0] && !wasHeld then 1 else 0) + RisingEdges(keys[0], keys[1..])
    decreases |keys|
  {
    if |keys| > 1 {
      var init := keys[..|keys| - 1];
      RisingEdgesFront(wasHeld, init);
      assert init[1..] == keys[1..][..|keys[1..]| - 1];
      assert RisingAt(wasHeld, keys, |keys| - 1) == RisingAt(keys[0], keys[1..], |keys[1..]| - 1);
    } else {
      assert keys[..0] == [];
    }
  }

  /** The latch applies one impulse per key press: exactly at the ticks where
      Space goes down, and the latch ends equal to the last key state. */
  lemma {:induction false} RunCountsPresses(b: BirdState, keys: seq<bool>)
    ensures |RunTicks(b, keys).impulses| == RisingEdges(b.isJumping, keys)
    ensures |keys| > 0 ==> RunTicks(b, keys).bird.isJumping == keys[|keys| - 1]
    decreases |keys|
  {
    if |keys| > 0 {
      var s := Tick(b, keys[0]);
      RunCountsPresses(s.bird, keys[1..]);
      RisingEdgesFront(b.isJumping, keys);
      if |keys| > 1 {
        assert keys[1..][|keys[1..]| - 1] == keys[|keys| - 1];
      }
    }
  }

  /** Holding Space for n >= 1 ticks from released applies exactly one impulse. */
  lemma HoldingJumpsOnce(b: BirdState, n: nat)
    requires !b.isJumping && n >= 1
    ensures |RunTicks(b, seq(n, _ => true)).impulses| == 1
  {
    var keys := seq(n, _ => true);
    RunCountsPresses(b, keys);
    HeldHasOneEdge(keys);
  }

  lemma {:induction false} HeldHasOneEdge(keys: seq<bool>)
    requires |keys| >= 1 && forall i :: 0 <= i < |keys| ==> keys[i]
    ensures RisingEdges(false, keys) == 1
    decreases |keys|
  {
    if |keys| > 1 {
      HeldHasOneEdge(keys[..|keys| - 1]);
    }
  }

  /** Releasing re-arms the latch: press, release, press gives two impulses. */
  lemma PressReleasePressJumpsTwice(b: BirdState)
    requires !b.isJumping
    ensures |RunTicks(b, [true, false, true]).impulses| == 2
  {
    RunCountsPresses(b, [true, false, true]);
    assert [true, false, true][..2] == [true, false];
    assert [true, false][..1] == [true];
    assert [true][..0] == [];
  }

  /** What `FindEntityByName('ObstaclesController')` hands the script: nothing
      (the empty id), an engine placeholder entity without the controller
      script's methods, or the controller script itself. */
  datatype Lookup = NotFound | Placeholder | Controller

  datatype Collided = Collided(bird: BirdState, field: Obstacles.Field, destroyed: seq<nat>)

  /** `OnCollisionBegin`: restart the controller, then move the bird to the
      origin. A lookup that yields no controller makes the `Restart` call raise,
      so neither the restart nor the move happens. */
  function OnCollisionBegin(b: BirdState, lookup: Lookup, cfg: Obstacles.Config, rng: Obstacles.Draws,
                            field: Obstacles.Field): (r: Result<Collided>)
    ensures r.Success? <==> lookup == Controller
    ensures r.Success? ==>
      && r.value.bird == b.(position := Origin)
      && Obstacles.FreshlySpawned(cfg, rng, r.value.field, field.nextId, field.drawn)
      && |r.value.destroyed| == 2 * |field.pairs|
      && forall j :: 0 <= j < |field.pairs| ==>
           r.value.destroyed[2 * j] == field.pairs[j].top.id && r.value.destroyed[2 * j + 1] == field.pairs[j].bottom.id
  {
    match lookup
    case NotFound => Failure("'NoneType' object has no attribute 'Restart'")
    case Placeholder => Failure("'MangoEngine.Entity' object has no attribute 'Restart'")
    case Controller =>
      var restarted := Obstacles.Restart(cfg, rng, field);
      Success(Collided(b.(position := Origin), restarted.field, restarted.destroyed))
  }

  /** A collision resets the bird's position but never its jump latch. */
  lemma CollisionKeepsLatch(b: BirdState, cfg: Obstacles.Config, rng: Obstacles.Draws, field: Obstacles.Field)
    ensures var r := OnCollisionBegin(b, Controller, cfg, rng, field);
      && r.Success?
      && r.value.bird.isJumping == b.isJumping
      && r.value.bird.position == Origin
      && Obstacles.InitialLayout(cfg, r.value.field.pairs)
  {
    var r := OnCollisionBegin(b, Controller, cfg, rng, field);
    Obstacles.FreshlySpawnedLayout(cfg, rng, r.value.field, field.nextId, field.drawn);
  }
}
