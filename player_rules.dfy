/** The player's two cooldown state machines, its movement and its response
    to being hit, as functions of the player's state. The Player class in
    module Game is proved to follow these rules. */
module PlayerRules {
  import opened Geometry

  /** Frames during which a parry reflects a beam. */
  const PARRY_WINDOW: int := 10
  /** Further frames the player stays locked in the parry pose. */
  const PARRY_COOLDOWN: int := 40
  /** Frames between two shots. */
  const SHOT_COOLDOWN: int := 30
  /** Pixels moved per frame. */
  const MOVE_VELOCITY: int := 5
  /** The shot counter starts here so that the player is not drawn mid-swing
      at start-up. */
  const START_SHOT_COUNTER: int := 15
  /** Default health of a swordsman, used for the player. */
  const MAX_HEALTH: int := 5
  /** Velocity of a player beam (upwards). */
  const BEAM_VELOCITY: int := 10

  /** Everything about the player that its methods read or change. */
  datatype PlayerState = PlayerState(
    x: real, y: real, health: int, image: Image,
    shotCounter: int, parryCounter: int, hitbox: Hitbox)

  /** What an action did: the new state and the beams it handed to the
      beam handler, in order. */
  datatype Effect = Effect(state: PlayerState, fired: seq<Beam>)

  /** The player's 21 x 21 hitbox sits 54 pixels right of and 40 pixels
      below the sprite's corner. */
  function HitboxAt(x: real, y: real): (h: Hitbox)
    ensures h.x - x == 54.0 && h.y - y == 40.0 && h.length == 21 && h.width == 21
  {
    Hitbox(x + 54.0, y + 40.0, 21, 21)
  }

  /** Shot counter: 0 is idle, 1..31 counts down a shot's cooldown.
      Parry counter: 0 is idle, 1..10 the reflect window, 11..51 lockout. */
  predicate CountersInRange(p: PlayerState) {
    0 <= p.shotCounter <= SHOT_COOLDOWN + 1 &&
    0 <= p.parryCounter <= PARRY_WINDOW + PARRY_COOLDOWN + 1
  }

  /** A beam that hits now is reflected: the counter is running and has not
      passed the window (with the counters in range: 1..10). */
  predicate Reflects(p: PlayerState) {
    p.parryCounter != 0 && p.parryCounter <= PARRY_WINDOW
  }

  predicate CanShoot(p: PlayerState) {
    p.shotCounter == 0 && p.parryCounter == 0
  }

  // ---------------------------------------------------------------- Move

  /** One step left or right, refused while parrying or when the sprite
      would touch an edge of the window. */
  function Move(p: PlayerState, right: bool): (r: PlayerState)
    ensures p.parryCounter != 0 ==> r == p
    ensures r.x > p.x <==>
      right && p.parryCounter == 0 && p.x + p.image.width as real + MOVE_VELOCITY as real < WIDTH as real
    ensures r.x < p.x <==>
      !right && p.parryCounter == 0 && p.x - MOVE_VELOCITY as real > 0.0
    ensures r.x == p.x || r.x == p.x + MOVE_VELOCITY as real || r.x == p.x - MOVE_VELOCITY as real
    ensures r.x != p.x ==> r.hitbox == p.hitbox.MovedTo(r.x + 54.0, r.y + 40.0)
    ensures r.x == p.x ==> r == p
    ensures r == p.(x := r.x, hitbox := r.hitbox)
    ensures r.x > p.x ==> r.x + p.image.width as real < WIDTH as real
    ensures p.x > 0.0 ==> r.x > 0.0
  {
    var v := MOVE_VELOCITY as real;
    if right && p.x + p.image.width as real + v < WIDTH as real && p.parryCounter == 0 then
      p.(x := p.x + v, hitbox := p.hitbox.MovedTo(p.x + v + 54.0, p.y + 40.0))
    else if !right && p.x - v > 0.0 && p.parryCounter == 0 then
      p.(x := p.x - v, hitbox := p.hitbox.MovedTo(p.x - v + 54.0, p.y + 40.0))
    else
      p
  }

  // --------------------------------------------------------------- Shoot

  /** Swing the sword: one beam 10 pixels above the player, moving up. */
  function Shoot(p: PlayerState, a: Assets): (r: Effect)
    ensures CanShoot(p) ==>
      r.fired == [Beam(p.x, p.y - 10.0, BEAM_VELOCITY, a.playerBeam)] &&
      r.state == p.(image := a.playerSwing, shotCounter := 1)
    ensures !CanShoot(p) ==> r == Effect(p, [])
    ensures CountersInRange(p) ==> CountersInRange(r.state)
  {
    if CanShoot(p) then
      Effect(p.(image := a.playerSwing, shotCounter := 1),
             [Beam(p.x, p.y - 10.0, BEAM_VELOCITY, a.playerBeam)])
    else
      Effect(p, [])
  }

  // --------------------------------------------------------------- Parry

  /** Raise the sword: only from the idle parry state. */
  function Parry(p: PlayerState, a: Assets): (r: PlayerState)
    ensures p.parryCounter == 0 ==> r == p.(image := a.playerParry1, parryCounter := 1) && Reflects(r)
    ensures p.parryCounter != 0 ==> r == p
    ensures CountersInRange(p) ==> CountersInRange(r)
  {
    if p.parryCounter == 0 then p.(image := a.playerParry1, parryCounter := p.parryCounter + 1) else p
  }

  // ---------------------------------------------------------------- Tick

  /** One frame of the shot cooldown: 1..30 count up, 31 returns to idle. */
  function TickShot(c: int): (r: int)
    ensures 0 <= c <= SHOT_COOLDOWN + 1 ==> 0 <= r <= SHOT_COOLDOWN + 1
    ensures c == 0 ==> r == 0
    ensures 0 < c <= SHOT_COOLDOWN ==> r == c + 1
    ensures c == SHOT_COOLDOWN + 1 ==> r == 0
  {
    if c > SHOT_COOLDOWN then 0
    else if c != 0 && c <= SHOT_COOLDOWN then c + 1
    else c
  }

  /** One frame of the parry counter: 1..50 count up, 51 returns to idle. */
  function TickParry(c: int): (r: int)
    ensures 0 <= c <= PARRY_WINDOW + PARRY_COOLDOWN + 1 ==> 0 <= r <= PARRY_WINDOW + PARRY_COOLDOWN + 1
    ensures c == 0 ==> r == 0
    ensures 0 < c <= PARRY_WINDOW + PARRY_COOLDOWN ==> r == c + 1
    ensures c == PARRY_WINDOW + PARRY_COOLDOWN + 1 ==> r == 0
  {
    var c1 := if c > PARRY_WINDOW + PARRY_COOLDOWN then 0 else c;
    if c1 != 0 && c1 <= PARRY_WINDOW + PARRY_COOLDOWN then c1 + 1 else c1
  }

  /** One frame of both counters and the sprite they select. When the shot
      cooldown ends the sprite goes idle; when the parry counter enters the
      lockout the sprite becomes parry-2, and when the lockout ends it goes
      idle. The parry rules are applied second and win. */
  function Tick(p: PlayerState, a: Assets): (r: PlayerState)
    ensures r == p.(shotCounter := TickShot(p.shotCounter),
                    parryCounter := TickParry(p.parryCounter), image := r.image)
    ensures p.parryCounter == PARRY_WINDOW + 1 ==> r.image == a.playerParry2
    ensures p.parryCounter > PARRY_WINDOW + PARRY_COOLDOWN ==> r.image == a.playerIdle
    ensures p.parryCounter != PARRY_WINDOW + 1 && p.parryCounter <= PARRY_WINDOW + PARRY_COOLDOWN ==>
      r.image == (if p.shotCounter > SHOT_COOLDOWN then a.playerIdle else p.image)
    ensures CountersInRange(p) ==> CountersInRange(r)
  {
    var image1 := if p.shotCounter > SHOT_COOLDOWN then a.playerIdle else p.image;
    var image2 :=
      if p.parryCounter == PARRY_WINDOW + 1 then a.playerParry2
      else if p.parryCounter > PARRY_WINDOW + PARRY_COOLDOWN then a.playerIdle
      else image1;
    p.(shotCounter := TickShot(p.shotCounter), parryCounter := TickParry(p.parryCounter), image := image2)
  }

  // ----------------------------------------------------------------- Hit

  /** A beam at horizontal position bx reaches the player. Inside the reflect
      window a new player beam starts at (bx, y) -- the incoming beam's x, not
      the player's -- and both cooldowns end; otherwise one health point is lost. */
  function Hit(p: PlayerState, bx: real, a: Assets): (r: Effect)
    ensures Reflects(p) ==>
      r.fired == [Beam(bx, p.y, BEAM_VELOCITY, a.playerBeam)] &&
      r.state == p.(parryCounter := 0, shotCounter := 0, image := a.playerIdle)
    ensures !Reflects(p) ==> r.fired == [] && r.state == p.(health := p.health - 1)
    ensures r.state.health == (if Reflects(p) then p.health else p.health - 1)
    ensures r.state.x == p.x && r.state.y == p.y && r.state.hitbox == p.hitbox
    ensures CountersInRange(p) ==> (Reflects(p) <==> 0 < p.parryCounter <= PARRY_WINDOW)
    ensures CountersInRange(p) ==> CountersInRange(r.state)
  {
    if Reflects(p) then
      Effect(p.(parryCounter := 0, shotCounter := 0, image := a.playerIdle),
             [Beam(bx, p.y, BEAM_VELOCITY, a.playerBeam)])
    else
      Effect(p.(health := p.health - 1), [])
  }

  // ------------------------------------------------------ timelines

  function ShotAfter(c: int, n: nat): int
    decreases n
  {
    if n == 0 then c else TickShot(ShotAfter(c, n - 1))
  }

  function ParryAfter(c: int, n: nat): int
    decreases n
  {
    if n == 0 then c else TickParry(ParryAfter(c, n - 1))
  }

  /** The state after n frames of Tick. */
  function TickN(p: PlayerState, a: Assets, n: nat): PlayerState
    decreases n
  {
    if n == 0 then p else Tick(TickN(p, a, n - 1), a)
  }

  /** A running shot cooldown climbs by one per frame up to 31 and then
      stays idle. */
  lemma {:induction false} ShotCountdown(c: int, n: nat)
    requires 1 <= c <= SHOT_COOLDOWN + 1
    ensures ShotAfter(c, n) == if c + n <= SHOT_COOLDOWN + 1 then c + n else 0
    decreases n
  {
    if n > 0 {
      ShotCountdown(c, n - 1);
    }
  }

  /** After a shot (counter 1) the player cannot shoot again until exactly
      31 frames have passed. */
  lemma ShotInterval(k: nat)
    ensures ShotAfter(1, k) == 0 <==> k >= SHOT_COOLDOWN + 1
  {
    ShotCountdown(1, k);
  }

  /** A running parry counter climbs by one per frame up to 51 and then
      stays idle. */
  lemma {:induction false} ParryCountdown(c: int, n: nat)
    requires 1 <= c <= PARRY_WINDOW + PARRY_COOLDOWN + 1
    ensures ParryAfter(c, n) == if c + n <= PARRY_WINDOW + PARRY_COOLDOWN + 1 then c + n else 0
    decreases n
  {
    if n > 0 {
      ParryCountdown(c, n - 1);
    }
  }

  /** A parry (counter 1) reflects for the first 10 counter values, and keeps
      the player locked (no move, shot or new parry) for 51 frames. In the
      game loop the player ticks before beams are checked, so a hit in the
      j-th frame after the key press (j = 0 for the same frame) sees the
      counter after j + 1 ticks: the parry reflects in 9 frames, the
      parry frame and the 8 after it. */
  lemma ParryTimeline(k: nat)
    ensures 0 < ParryAfter(1, k) <= PARRY_WINDOW <==> k < PARRY_WINDOW
    ensures ParryAfter(1, k) != 0 <==> k < PARRY_WINDOW + PARRY_COOLDOWN + 1
    ensures 0 < ParryAfter(1, k + 1) <= PARRY_WINDOW <==> k < PARRY_WINDOW - 1
  {
    ParryCountdown(1, k);
    ParryCountdown(1, k + 1);
  }

  /** n ticks move the counters along their own timelines and leave position,
      health and hitbox alone. */
  lemma {:induction false} TickNCounters(p: PlayerState, a: Assets, n: nat)
    ensures TickN(p, a, n).shotCounter == ShotAfter(p.shotCounter, n)
    ensures TickN(p, a, n).parryCounter == ParryAfter(p.parryCounter, n)
    ensures TickN(p, a, n) == p.(shotCounter := TickN(p, a, n).shotCounter,
                                 parryCounter := TickN(p, a, n).parryCounter,
                                 image := TickN(p, a, n).image)
    decreases n
  {
    if n > 0 {
      TickNCounters(p, a, n - 1);
    }
  }

  /** The sprites of an unanswered parry made while the shot cooldown is idle:
      parry-1 for the first ten frames, parry-2 through the lockout, idle
      again after 51 frames, when the player is free again. */
  lemma {:induction false} ParryPoseTimeline(p: PlayerState, a: Assets, k: nat)
    requires p.parryCounter == 0 && p.shotCounter == 0
    requires k <= PARRY_WINDOW + PARRY_COOLDOWN + 1
    ensures TickN(Parry(p, a), a, k) ==
      p.(parryCounter := ParryAfter(1, k),
         image := if k <= PARRY_WINDOW then a.playerParry1
                  else if k <= PARRY_WINDOW + PARRY_COOLDOWN then a.playerParry2
                  else a.playerIdle)
    ensures k == PARRY_WINDOW + PARRY_COOLDOWN + 1 ==> TickN(Parry(p, a), a, k).parryCounter == 0
    decreases k
  {
    ParryCountdown(1, k);
    if k > 0 {
      ParryPoseTimeline(p, a, k - 1);
      ParryCountdown(1, k - 1);
    }
  }
}
