/** The objects of Space Swordsman and one frame of its game loop. The
    methods change the objects' fields in place, and their contracts give
    the new state through the rule functions of PlayerRules, EnemyRules,
    BeamRules, RoundRules and InputRules; Session.Frame, the two halves of
    a pass together, promises only that the session stays settled. The
    Swordsman base class has no counterpart of its own: its fields and its
    hit method appear in both Player and Enemy. */
module Game {
  import opened Geometry
  import PR = PlayerRules
  import ER = EnemyRules
  import BR = BeamRules
  import RR = RoundRules
  import IR = InputRules

  /** No enemy appears twice in a list. */
  ghost predicate Distinct(es: seq<Enemy>) {
    forall i, j :: 0 <= i < |es| && 0 <= j < |es| && i != j ==> es[i] != es[j]
  }

  /** The enemy list as the player-beam pass sees it: each enemy's position,
      hitbox and health. */
  ghost function Targets(es: seq<Enemy>): (ts: seq<BR.Target>)
    reads set e | e in es
    ensures |ts| == |es|
    ensures forall k :: 0 <= k < |es| ==> ts[k] == BR.Target(k, es[k].hitbox, es[k].health)
    decreases |es|
  {
    if es == [] then []
    else
      var n := |es| - 1;
      Targets(es[..n]) + [BR.Target(n, es[n].hitbox, es[n].health)]
  }

  /** The same view computed from the enemies' states (TargetsStates says
      the two agree); the World equations use this one. Both are kept because
      the beam handler's loops read the objects while the World equations are
      about values, and defining one through the other makes those loops'
      proofs much costlier. */
  function TargetsOf(ss: seq<ER.EnemyState>): (ts: seq<BR.Target>)
    ensures |ts| == |ss|
    ensures forall k :: 0 <= k < |ss| ==> ts[k] == BR.Target(k, ss[k].hitbox, ss[k].health)
    decreases |ss|
  {
    if ss == [] then []
    else
      var n := |ss| - 1;
      TargetsOf(ss[..n]) + [BR.Target(n, ss[n].hitbox, ss[n].health)]
  }

  /** What one frame's steps read and change, as values: the enemy list,
      the enemies' states in list order, the player's state and the beams
      in flight. */
  datatype World = World(enemies: seq<Enemy>, states: seq<ER.EnemyState>, player: PR.PlayerState,
                         playerBeams: seq<Beam>, enemyBeams: seq<Beam>)

  /** Lines 380-384 on values, with ts the enemies' fixed traits: every
      enemy ticks, those then past the bottom edge leave the list and cost
      the player a point of health each, and the volley joins the enemy
      beams. */
  function EnemiesTicked(w: World, ts: seq<ER.Traits>): World
    requires |w.enemies| == |w.states| == |ts|
  {
    var after := ER.TickAll(w.states, ts);
    w.(enemies := ER.KeepOnField(w.enemies, after), states := ER.KeepOnField(after, after),
       player := w.player.(health := w.player.health - ER.EscapeCount(after)),
       enemyBeams := w.enemyBeams + ER.Volley(w.states, ts))
  }

  /** EnemiesTicked, one part at a time. */
  lemma EnemiesTickedParts(w0: World, ts: seq<ER.Traits>, w1: World)
    requires |w0.enemies| == |w0.states| == |ts|
    requires var after := ER.TickAll(w0.states, ts);
      w1.enemies == ER.KeepOnField(w0.enemies, after) && w1.states == ER.KeepOnField(after, after) &&
      w1.player == w0.player.(health := w0.player.health - ER.EscapeCount(after)) &&
      w1.playerBeams == w0.playerBeams && w1.enemyBeams == w0.enemyBeams + ER.Volley(w0.states, ts)
    ensures w1 == EnemiesTicked(w0, ts)
  {
  }

  /** A player whose health alone changed, by n points down. */
  lemma Bled(p0: PR.PlayerState, p1: PR.PlayerState, n: int)
    requires p1 == p0.(health := p1.health) && p1.health == p0.health - n
    ensures p1 == p0.(health := p0.health - n)
  {
  }

  /** The player p1, equal to p0, whose health alone changed back to full. */
  lemma Healed(p0: PR.PlayerState, p1: PR.PlayerState, p2: PR.PlayerState)
    requires p1 == p0 && p2 == p1.(health := PR.MAX_HEALTH)
    ensures p2 == p0.(health := PR.MAX_HEALTH)
  {
  }

  /** The beam handler's tick from the world w does not crash and leaves
      the player without health (line 399). */
  function Loses(w: World, collide: Collider, a: Assets): bool {
    BR.PlayerPass(w.playerBeams, TargetsOf(w.states), collide).Ok? &&
    RR.Lost(BR.EnemyPass(w.enemyBeams, w.player, collide, a).player.health)
  }

  /** Line 385 on values: the player's own tick. */
  function PlayerTicked(w: World, a: Assets): World {
    w.(player := PR.Tick(w.player, a))
  }

  /** After the player-beam pass over `enemies`, `survivors` is the list the
      targets ts describe: the enemies they name, in order, and every
      enemy's health is its target's, or 0 if it was taken off the list. */
  ghost predicate Follows(survivors: seq<Enemy>, enemies: seq<Enemy>, ts: seq<BR.Target>)
    reads set e | e in enemies
  {
    |survivors| == |ts| &&
    (forall m :: 0 <= m < |ts| ==> ts[m].id < |enemies| && survivors[m] == enemies[ts[m].id]) &&
    (forall k :: 0 <= k < |enemies| ==> enemies[k].health == BR.HealthOf(ts, k))
  }

  /** The beam handler (lines 97-145): the beams in flight. */
  class BeamHandler {
    var playerBeams: seq<Beam>
    var enemyBeams: seq<Beam>

    constructor ()
      ensures playerBeams == [] && enemyBeams == []
    {
      playerBeams := [];
      enemyBeams := [];
    }

    method AddPlayerBeam(b: Beam)
      modifies this`playerBeams
      ensures playerBeams == old(playerBeams) + [b]
    {
      playerBeams := playerBeams + [b];
    }

    method AddEnemyBeam(b: Beam)
      modifies this`enemyBeams
      ensures enemyBeams == old(enemyBeams) + [b]
    {
      enemyBeams := enemyBeams + [b];
    }

    method Reset()
      modifies this`playerBeams, this`enemyBeams
      ensures playerBeams == [] && enemyBeams == []
    {
      playerBeams := [];
      enemyBeams := [];
    }

    /** Lines 103-117. Each beam of a copy of the list is moved (in the list
        too); an offscreen beam is removed; otherwise every enemy it touches
        is hit, the beam is removed, and an enemy whose health reaches 0
        leaves the list and ends the scan. `crashed` reports the ValueError
        of removing a beam twice. */
    method UpdatePlayerBeams(enemies: seq<Enemy>, collide: Collider) returns (survivors: seq<Enemy>, crashed: bool)
      requires Distinct(enemies)
      modifies this`playerBeams, (set e | e in enemies)`health
      ensures var r := BR.PlayerPass(old(playerBeams), old(Targets(enemies)), collide);
        (crashed <==> r.Crash?) &&
        (!crashed ==> playerBeams == r.value.kept && Follows(survivors, enemies, r.value.targets))
    {
      var bs := playerBeams;
      ghost var ts0 := Targets(enemies);
      ghost var cur := ts0;
      var kept: seq<Beam> := [];
      var es := enemies;
      forall k | 0 <= k < |enemies|
        ensures enemies[k].health == BR.HealthOf(cur, k)
      {
        BR.HealthOfAt(cur, k);
      }
      var i := 0;
      while i < |bs|
        invariant 0 <= i <= |bs|
        invariant playerBeams == kept + bs[i..]
        invariant BR.PlayerPass(bs, ts0, collide) == BR.PlayerPassFrom(bs, i, kept, cur, collide)
        invariant Follows(es, enemies, cur) && BR.IdsAscending(cur) && BR.Agrees(cur, ts0)
        invariant forall k :: 0 <= k < |enemies| ==> enemies[k].hitbox == ts0[k].hitbox
      {
        ghost var cur';
        kept, es, crashed, cur' := PassBeam(bs, i, kept, es, enemies, cur, ts0, collide);
        if crashed {
          survivors := es;
          return;
        }
        cur := cur';
        i := i + 1;
      }
      survivors := es;
      crashed := false;
    }

    /** One step of lines 104-117: the i-th beam of the copy is moved, then
        removed if offscreen, else scanned against the enemies. */
    method PassBeam(bs: seq<Beam>, i: nat, kept: seq<Beam>, es: seq<Enemy>, ghost enemies: seq<Enemy>,
                    ghost cur: seq<BR.Target>, ghost ts0: seq<BR.Target>, collide: Collider)
      returns (kept': seq<Beam>, es': seq<Enemy>, crashed: bool, ghost cur': seq<BR.Target>)
      requires i < |bs| && playerBeams == kept + bs[i..]
      requires Distinct(enemies) && Follows(es, enemies, cur) && BR.IdsAscending(cur) && BR.Agrees(cur, ts0)
      requires |ts0| == |enemies| && forall k :: 0 <= k < |enemies| ==> enemies[k].hitbox == ts0[k].hitbox
      modifies this`playerBeams, (set e | e in enemies)`health
      ensures crashed ==> BR.PlayerPassFrom(bs, i, kept, cur, collide).Crash?
      ensures !crashed ==>
        BR.PlayerPassFrom(bs, i, kept, cur, collide) == BR.PlayerPassFrom(bs, i + 1, kept', cur', collide) &&
        playerBeams == kept' + bs[i + 1..] &&
        Follows(es', enemies, cur') && BR.IdsAscending(cur') && BR.Agrees(cur', ts0)
    {
      var b := bs[i].Moved();
      var rest := bs[i + 1..];
      assert bs[i..] == [bs[i]] + rest;
      playerBeams := kept + [b] + rest;
      if b.Offscreen() {
        playerBeams := kept + rest;
        kept', es', crashed, cur' := kept, es, false, cur;
      } else {
        var removed;
        es', removed, crashed, cur' := ScanEnemies(b, kept, rest, es, enemies, cur, ts0, collide);
        kept' := if removed then kept else kept + [b];
      }
    }

    /** Lines 111-117 for one beam b that is still on screen, the list of
        beams being kept + [b] + rest: every enemy from the front of the
        list on that b touches is hit, and b is removed at the first touch;
        an enemy left with health 0 is removed and ends the scan. A second
        touch asks to remove b again, which crashes. */
    method ScanEnemies(b: Beam, kept: seq<Beam>, rest: seq<Beam>, es: seq<Enemy>, ghost enemies: seq<Enemy>,
                       ghost cur: seq<BR.Target>, ghost ts0: seq<BR.Target>, collide: Collider)
      returns (es': seq<Enemy>, removed: bool, crashed: bool, ghost cur': seq<BR.Target>)
      requires playerBeams == kept + [b] + rest
      requires Distinct(enemies) && Follows(es, enemies, cur) && BR.IdsAscending(cur) && BR.Agrees(cur, ts0)
      requires |ts0| == |enemies| && forall k :: 0 <= k < |enemies| ==> enemies[k].hitbox == ts0[k].hitbox
      modifies this`playerBeams, (set e | e in enemies)`health
      ensures crashed <==> BR.ScanFrom(b, cur, 0, false, collide).Crash?
      ensures !crashed ==>
        BR.ScanFrom(b, cur, 0, false, collide) == BR.Ok(BR.Scan(removed, cur')) &&
        playerBeams == (if removed then kept else kept + [b]) + rest &&
        Follows(es', enemies, cur') && BR.IdsAscending(cur') && BR.Agrees(cur', ts0)
    {
      es' := es;
      cur' := cur;
      removed := false;
      var stop := false;
      var j := 0;
      while j < |es'| && !stop
        invariant 0 <= j <= |es'| == |cur'|
        invariant playerBeams == (if removed then kept else kept + [b]) + rest
        invariant !stop ==> BR.ScanFrom(b, cur, 0, false, collide) == BR.ScanFrom(b, cur', j, removed, collide)
        invariant stop ==> removed && BR.ScanFrom(b, cur, 0, false, collide) == BR.Ok(BR.Scan(true, cur'))
        invariant Follows(es', enemies, cur') && BR.IdsAscending(cur') && BR.Agrees(cur', ts0)
        decreases |es'| - j
      {
        assert es'[j].hitbox == cur'[j].hitbox;
        if collide(b, es'[j].hitbox) {
          if removed {
            // list.remove finds no such beam and raises ValueError
            crashed := true;
            return;
          }
          playerBeams := kept + rest;
          removed := true;
          HitEnemy(es'[j], es', enemies, cur', j);
          cur' := cur'[j := cur'[j].(health := cur'[j].health - 1)];
          if es'[j].health == 0 {
            RemoveEnemy(es', enemies, cur', ts0, j);
            es' := es'[..j] + es'[j + 1..];
            cur' := cur'[..j] + cur'[j + 1..];
            stop := true;
          } else {
            j := j + 1;
          }
        } else {
          j := j + 1;
        }
      }
      crashed := false;
    }

    /** Lines 120-130. Each beam of a copy of the list is moved; a beam that
        touches the player hits the player at the beam's x and is removed;
        otherwise an offscreen beam is removed. A reflected beam is handed
        back to this handler as a player beam. */
    method UpdateEnemyBeams(player: Player, collide: Collider)
      requires player.handler == this
      modifies this`enemyBeams, this`playerBeams, player
      ensures var d := BR.EnemyPass(old(enemyBeams), old(player.State()), collide, player.assets);
        enemyBeams == d.kept && player.State() == d.player && playerBeams == old(playerBeams) + d.reflected
    {
      var bs := enemyBeams;
      ghost var p0 := player.State();
      ghost var pb0 := playerBeams;
      var kept: seq<Beam> := [];
      ghost var reflected: seq<Beam> := [];
      var i := 0;
      while i < |bs|
        invariant 0 <= i <= |bs|
        invariant enemyBeams == kept + bs[i..]
        invariant playerBeams == pb0 + reflected
        invariant BR.EnemyPass(bs, p0, collide, player.assets) ==
                  BR.EnemyPassFrom(bs, i, BR.Defense(kept, player.State(), reflected), collide, player.assets)
      {
        var b := bs[i].Moved();
        enemyBeams := kept + [b] + bs[i + 1..];
        if collide(b, player.hitbox) {
          ghost var h := PR.Hit(player.State(), b.x, player.assets);
          player.Hit(b.x);
          reflected := reflected + h.fired;
          enemyBeams := kept + bs[i + 1..];
        } else if b.Offscreen() {
          enemyBeams := kept + bs[i + 1..];
        } else {
          kept := kept + [b];
        }
        i := i + 1;
      }
    }

    /** Lines 133-135: the player beams, then the enemy beams. The enemy
        list is returned without the enemies the player's beams destroyed;
        after a crash nothing more happens. */
    method Tick(player: Player, enemies: seq<Enemy>, collide: Collider) returns (survivors: seq<Enemy>, crashed: bool)
      requires Distinct(enemies) && player.handler == this
      modifies this`playerBeams, this`enemyBeams, player, (set e | e in enemies)`health
      ensures var r := BR.PlayerPass(old(playerBeams), old(Targets(enemies)), collide);
        (crashed <==> r.Crash?) &&
        (!crashed ==>
           Follows(survivors, enemies, r.value.targets) &&
           var d := BR.EnemyPass(old(enemyBeams), old(player.State()), collide, player.assets);
           enemyBeams == d.kept && player.State() == d.player && playerBeams == r.value.kept + d.reflected)
    {
      survivors, crashed := UpdatePlayerBeams(enemies, collide);
      if !crashed {
        UpdateEnemyBeams(player, collide);
      }
    }
  }

  /** Enemy.hit on the j-th enemy of the list: afterwards the list follows
      the targets with the j-th target one point lower. */
  method HitEnemy(e: Enemy, ghost es: seq<Enemy>, ghost enemies: seq<Enemy>, ghost cur: seq<BR.Target>, ghost j: nat)
    requires Distinct(enemies) && Follows(es, enemies, cur) && BR.IdsAscending(cur) && j < |cur|
    requires e == es[j]
    modifies e`health
    ensures es[j].health == old(es[j].health) - 1
    ensures Follows(es, enemies, cur[j := cur[j].(health := cur[j].health - 1)])
    ensures BR.IdsAscending(cur[j := cur[j].(health := cur[j].health - 1)])
    ensures es[j].health == cur[j].health - 1
  {
    BR.HealthOfAt(cur, j);
    var id := cur[j].id;
    e.Hit();
    var cur' := cur[j := cur[j].(health := cur[j].health - 1)];
    forall k | 0 <= k < |enemies|
      ensures enemies[k].health == BR.HealthOf(cur', k)
    {
      BR.HealthOfUpdate(cur, j, cur[j].health - 1, k);
      if k != id {
        assert enemies[k] != enemies[id];
      }
    }
    BR.HealthOfUpdate(cur, j, cur[j].health - 1, 0);
  }

  /** An enemy at 0 health leaves the list with its target. */
  lemma RemoveEnemy(es: seq<Enemy>, enemies: seq<Enemy>, cur: seq<BR.Target>, ts0: seq<BR.Target>, j: nat)
    requires Follows(es, enemies, cur) && BR.IdsAscending(cur) && BR.Agrees(cur, ts0) && j < |cur|
    requires es[j].health == 0
    ensures Follows(es[..j] + es[j + 1..], enemies, cur[..j] + cur[j + 1..])
    ensures BR.IdsAscending(cur[..j] + cur[j + 1..]) && BR.Agrees(cur[..j] + cur[j + 1..], ts0)
  {
    var es', cur' := es[..j] + es[j + 1..], cur[..j] + cur[j + 1..];
    assert forall m :: 0 <= m < |cur'| ==> cur'[m] == (if m < j then cur[m] else cur[m + 1]);
    assert forall m :: 0 <= m < |es'| ==> es'[m] == (if m < j then es[m] else es[m + 1]);
    forall k | 0 <= k < |enemies|
      ensures enemies[k].health == BR.HealthOf(cur', k)
    {
      BR.HealthOfRemove(cur, j, k);
    }
    BR.HealthOfRemove(cur, j, 0);
  }

  /** The player (lines 175-245). */
  class Player {
    var x: real
    var y: real
    const maxHealth: int
    var health: int
    var image: Image
    var shotCounter: int
    var parryCounter: int
    var hitbox: Hitbox
    const handler: BeamHandler
    const assets: Assets

    function State(): PR.PlayerState
      reads this
    {
      PR.PlayerState(x, y, health, image, shotCounter, parryCounter, hitbox)
    }

    /** The hitbox sits at its fixed offset and both counters are in range. */
    ghost predicate Valid()
      reads this
    {
      maxHealth == PR.MAX_HEALTH && hitbox == PR.HitboxAt(x, y) && PR.CountersInRange(State())
    }

    constructor (x: real, y: real, handler: BeamHandler, assets: Assets)
      ensures State() == PR.PlayerState(x, y, PR.MAX_HEALTH, assets.playerIdle, PR.START_SHOT_COUNTER, 0, PR.HitboxAt(x, y))
      ensures this.handler == handler && this.assets == assets
      ensures Valid()
    {
      this.x := x;
      this.y := y;
      maxHealth := PR.MAX_HEALTH;
      image := assets.playerIdle;
      this.handler := handler;
      this.assets := assets;
      health := PR.MAX_HEALTH;
      shotCounter := PR.START_SHOT_COUNTER;
      parryCounter := 0;
      hitbox := Hitbox(x + 54.0, y + 40.0, 21, 21);
    }

    method Move(right: bool)
      modifies this
      ensures State() == PR.Move(old(State()), right)
      ensures old(Valid()) ==> Valid()
    {
      var v := PR.MOVE_VELOCITY as real;
      if right && x + image.width as real + v < WIDTH as real && parryCounter == 0 {
        x := x + v;
        hitbox := hitbox.MovedTo(x + 54.0, y + 40.0);
      } else if !right && x - v > 0.0 && parryCounter == 0 {
        x := x - v;
        hitbox := hitbox.MovedTo(x + 54.0, y + 40.0);
      }
    }

    method Shoot()
      modifies this, handler`playerBeams
      ensures var r := PR.Shoot(old(State()), assets);
        State() == r.state && handler.playerBeams == old(handler.playerBeams) + r.fired
      ensures old(Valid()) ==> Valid()
    {
      if shotCounter == 0 && parryCounter == 0 {
        handler.AddPlayerBeam(Beam(x, y - 10.0, PR.BEAM_VELOCITY, assets.playerBeam));
        image := assets.playerSwing;
        shotCounter := 1;
      }
    }

    method Parry()
      modifies this
      ensures State() == PR.Parry(old(State()), assets)
      ensures old(Valid()) ==> Valid()
    {
      if parryCounter == 0 {
        image := assets.playerParry1;
        parryCounter := parryCounter + 1;
      }
    }

    method Tick()
      modifies this
      ensures State() == PR.Tick(old(State()), assets)
      ensures old(Valid()) ==> Valid()
    {
      if shotCounter > PR.SHOT_COOLDOWN {
        image := assets.playerIdle;
        shotCounter := 0;
      } else if shotCounter != 0 && shotCounter <= PR.SHOT_COOLDOWN {
        shotCounter := shotCounter + 1;
      }
      if parryCounter == PR.PARRY_WINDOW + 1 {
        image := assets.playerParry2;
      } else if parryCounter > PR.PARRY_WINDOW + PR.PARRY_COOLDOWN {
        image := assets.playerIdle;
        parryCounter := 0;
      }
      if parryCounter != 0 && parryCounter <= PR.PARRY_WINDOW + PR.PARRY_COOLDOWN {
        parryCounter := parryCounter + 1;
      }
    }

    /** An enemy beam at horizontal position bx hits the player; inside the
        parry window a player beam is sent back up from (bx, y), otherwise
        the player loses a point of health. */
    method Hit(bx: real)
      modifies this, handler`playerBeams
      ensures var r := PR.Hit(old(State()), bx, assets);
        State() == r.state && handler.playerBeams == old(handler.playerBeams) + r.fired
      ensures old(Valid()) ==> Valid()
    {
      if parryCounter != 0 && parryCounter <= PR.PARRY_WINDOW {
        handler.AddPlayerBeam(Beam(bx, y, PR.BEAM_VELOCITY, assets.playerBeam));
        parryCounter := 0;
        shotCounter := 0;
        image := assets.playerIdle;
      } else {
        health := health - 1;
      }
    }

    method SetHealth(h: int)
      modifies this`health
      ensures health == h
    {
      health := h;
    }

    method ResetHealth()
      modifies this`health
      ensures health == maxHealth
    {
      health := maxHealth;
    }
  }

  /** An enemy (lines 250-304). */
  class Enemy {
    var x: real
    var y: real
    const maxHealth: int
    var health: int
    var image: Image
    const idleImage: Image
    const swingImage: Image
    const shotNum: ER.BurstSize
    var shotCounter: int
    var currShots: int
    var hitbox: Hitbox
    const handler: BeamHandler
    const beamImage: Image

    function State(): ER.EnemyState
      reads this
    {
      ER.EnemyState(x, y, health, image, shotCounter, currShots, hitbox)
    }

    function Traits(): ER.Traits {
      ER.Traits(shotNum, idleImage, swingImage, beamImage)
    }

    /** shotDraw and currDraw are the random draws from 0..60 and 0..shotNum. */
    constructor (x: real, y: real, idleImage: Image, swingImage: Image, shotNum: ER.BurstSize, handler: BeamHandler,
                 maxHealth: int, beamImage: Image, shotDraw: int, currDraw: int)
      requires 0 <= shotDraw <= ER.BURST_WINDOW && 0 <= currDraw <= shotNum
      ensures State() == ER.EnemyState(x, y, maxHealth, idleImage, shotDraw, currDraw, Hitbox(x + 53.0, y + 60.0, 21, 21))
      ensures Traits() == ER.Traits(shotNum, idleImage, swingImage, beamImage)
      ensures this.handler == handler && this.maxHealth == maxHealth
    {
      this.x := x;
      this.y := y;
      this.maxHealth := maxHealth;
      image := idleImage;
      this.handler := handler;
      health := maxHealth;
      this.idleImage := idleImage;
      this.swingImage := swingImage;
      shotCounter := shotDraw;
      this.shotNum := shotNum;
      currShots := currDraw;
      hitbox := Hitbox(x + 53.0, y + 60.0, 21, 21);
      this.beamImage := beamImage;
    }

    /** Swordsman.hit (lines 163-164). */
    method Hit()
      modifies this`health
      ensures health == old(health) - 1
    {
      health := health - 1;
    }

    method Move()
      modifies this`y, this`hitbox
      ensures y == old(y) + ER.DRIFT && hitbox == old(hitbox).MovedTo(x + 54.0, y + 40.0)
    {
      y := y + ER.DRIFT;
      hitbox := hitbox.MovedTo(x + 54.0, y + 40.0);
    }

    method Shoot()
      modifies this`image, this`shotCounter, this`currShots, handler`enemyBeams
      ensures old(shotCounter) == 0 ==>
        handler.enemyBeams == old(handler.enemyBeams) + [Beam(x, y - 10.0, ER.BEAM_VELOCITY, beamImage)] &&
        image == swingImage && shotCounter == 1 && currShots == old(currShots) + 1
      ensures old(shotCounter) != 0 ==>
        handler.enemyBeams == old(handler.enemyBeams) &&
        image == old(image) && shotCounter == old(shotCounter) && currShots == old(currShots)
    {
      if shotCounter == 0 {
        handler.AddEnemyBeam(Beam(x, y - 10.0, ER.BEAM_VELOCITY, beamImage));
        image := swingImage;
        shotCounter := 1;
        currShots := currShots + 1;
      }
    }

    /** Lines 277-301: cooldowns and sprite, then the drift, then the shot. */
    method Tick()
      modifies this, handler`enemyBeams
      ensures var r := ER.Tick(old(State()), Traits());
        State() == r.state && handler.enemyBeams == old(handler.enemyBeams) + r.fired
    {
      if currShots < shotNum {
        ER.GapComparison(shotCounter, shotNum);
        if shotCounter as real > ER.BURST_WINDOW as real / shotNum as real {
          shotCounter := 0;
        } else if shotCounter != 0 && shotCounter as real <= ER.BURST_WINDOW as real / shotNum as real {
          shotCounter := shotCounter + 1;
        }
        if shotCounter > ER.BURST_SWING_FRAMES {
          image := idleImage;
        }
      } else {
        if shotCounter > ER.BURST_COOLDOWN {
          shotCounter := 0;
          currShots := 0;
        } else if shotCounter != 0 && shotCounter <= ER.BURST_COOLDOWN {
          shotCounter := shotCounter + 1;
        }
        if shotCounter > ER.COOLDOWN_SWING_FRAMES {
          image := idleImage;
        }
      }
      Move();
      Shoot();
    }
  }

  /** An enemy fit for the game loop: it shares the game's beam handler, is
      alive, and its burst machine is in range. */
  ghost predicate EnemyValid(e: Enemy, handler: BeamHandler)
    reads e
  {
    Armed(e, handler) && e.health >= 1
  }

  /** A list of enemies fit for the game loop: distinct objects, each valid. */
  ghost predicate Wave(es: seq<Enemy>, handler: BeamHandler)
    reads set e | e in es
  {
    Distinct(es) && forall m :: 0 <= m < |es| ==> EnemyValid(es[m], handler)
  }

  /** The objects es are the enemies built from the recruits rs. */
  ghost predicate Fielded(es: seq<Enemy>, rs: seq<RR.Recruit>, handler: BeamHandler, a: Assets)
    reads set e | e in es
  {
    |es| == |rs| &&
    forall k :: 0 <= k < |es| ==>
      es[k].State() == RR.Spawned(rs[k], a) && es[k].Traits() == RR.TraitsOf(rs[k].tier, a) &&
      es[k].handler == handler && es[k].maxHealth == ER.MaxHealth(rs[k].tier)
  }

  /** The body of nextRound's loop for one tag: a new enemy of the tag's
      tier, or none for a tag naming no tier. */
  method Recruit(tag: string, s: RR.Spawn, handler: BeamHandler, assets: Assets, ghost added: seq<Enemy>)
    returns (made: seq<Enemy>)
    requires RR.TierOf(tag).Some? ==> RR.SpawnFits(s, RR.TierOf(tag).value, assets.playerIdle.width)
    requires Distinct(added)
    ensures Fielded(made, RR.RecruitOf(tag, s), handler, assets)
    ensures forall k :: 0 <= k < |made| ==> fresh(made[k]) && EnemyValid(made[k], handler)
    ensures Distinct(added + made)
  {
    match RR.TierOf(tag) {
      case Some(t) =>
        var e := new Enemy(s.x as real, s.y as real, ER.IdleImage(t, assets), ER.SwingImage(t, assets),
                           ER.ShotNum(t), handler, ER.MaxHealth(t), assets.enemyBeam, s.shotCounter, s.currShots);
        made := [e];
      case None =>
        made := [];
    }
  }

  /** Fielded lists join like their recruits. */
  lemma FieldedAppend(es: seq<Enemy>, rs: seq<RR.Recruit>, made: seq<Enemy>, ms: seq<RR.Recruit>,
                      handler: BeamHandler, a: Assets)
    requires Fielded(es, rs, handler, a) && Fielded(made, ms, handler, a)
    ensures Fielded(es + made, rs + ms, handler, a)
  {
    var all, rall := es + made, rs + ms;
    forall k | 0 <= k < |all|
      ensures all[k].State() == RR.Spawned(rall[k], a) && all[k].Traits() == RR.TraitsOf(rall[k].tier, a) &&
              all[k].handler == handler && all[k].maxHealth == ER.MaxHealth(rall[k].tier)
    {
      if k < |es| {
        assert all[k] == es[k] && rall[k] == rs[k];
      } else {
        assert all[k] == made[k - |es|] && rall[k] == ms[k - |es|];
      }
    }
  }

  /** nextRound (lines 310-317): one new enemy per recognised tag, appended
      in roster order; spawns[i] holds the random draws for tags[i]. */
  method NextRound(enemies: seq<Enemy>, tags: seq<string>, spawns: seq<RR.Spawn>, handler: BeamHandler, assets: Assets)
    returns (r: seq<Enemy>)
    requires RR.SpawnsFit(tags, spawns, assets.playerIdle.width)
    ensures |r| >= |enemies| && r[..|enemies|] == enemies
    ensures Fielded(r[|enemies|..], RR.Recruits(tags, spawns), handler, assets)
    ensures forall k :: |enemies| <= k < |r| ==> fresh(r[k]) && EnemyValid(r[k], handler)
    ensures Distinct(r[|enemies|..])
  {
    var added: seq<Enemy> := [];
    var i := 0;
    while i < |tags|
      invariant 0 <= i <= |tags|
      invariant Fielded(added, RR.Recruits(tags[..i], spawns[..i]), handler, assets)
      invariant forall k :: 0 <= k < |added| ==> fresh(added[k]) && EnemyValid(added[k], handler)
      invariant Distinct(added)
    {
      RR.RecruitsStep(tags, spawns, i);
      var made := Recruit(tags[i], spawns[i], handler, assets, added);
      FieldedAppend(added, RR.Recruits(tags[..i], spawns[..i]), made, RR.RecruitOf(tags[i], spawns[i]), handler, assets);
      added := added + made;
      i := i + 1;
    }
    Whole(tags);
    Whole(spawns);
    r := enemies + added;
    assert r[..|enemies|] == enemies && r[|enemies|..] == added;
  }

  /** An enemy's link and counters, which a beam's hit leaves alone. */
  ghost predicate Armed(e: Enemy, handler: BeamHandler)
    reads e`shotCounter, e`currShots
  {
    e.handler == handler && ER.CountersInRange(ER.Counters(e.shotCounter, e.currShots), e.shotNum)
  }

  /** The enemies a player-beam pass leaves are distinct and still valid:
      each is one of the listed enemies and the pass kept only the living. */
  lemma SurvivorsFit(survivors: seq<Enemy>, cs: seq<Enemy>, ts: seq<BR.Target>, handler: BeamHandler)
    requires Distinct(cs) && Follows(survivors, cs, ts) && BR.AllAlive(ts) && BR.IdsAscending(ts)
    requires forall k :: 0 <= k < |cs| ==> Armed(cs[k], handler)
    ensures Wave(survivors, handler)
  {
    forall m | 0 <= m < |survivors|
      ensures EnemyValid(survivors[m], handler)
    {
      BR.HealthOfAt(ts, m);
      var k := ts[m].id;
      assert survivors[m] == cs[k] && Armed(cs[k], handler);
    }
    forall i, j | 0 <= i < |survivors| && 0 <= j < |survivors| && i != j
      ensures survivors[i] != survivors[j]
    {
      assert ts[i].id != ts[j].id;
    }
  }

  /** The handler's tick on the session's player and enemies: valid
      enemies and a valid player stay valid, and the enemies that are left
      are distinct. */
  method PassBeams(handler: BeamHandler, player: Player, cs: seq<Enemy>, collide: Collider)
    returns (survivors: seq<Enemy>, crashed: bool)
    requires player.handler == handler && player.Valid() && player.health <= PR.MAX_HEALTH
    requires Wave(cs, handler)
    modifies player, handler`playerBeams, handler`enemyBeams, (set e | e in cs)`health
    ensures var r := BR.PlayerPass(old(handler.playerBeams), old(Targets(cs)), collide);
      (crashed <==> r.Crash?) &&
      (!crashed ==>
         Follows(survivors, cs, r.value.targets) &&
         var d := BR.EnemyPass(old(handler.enemyBeams), old(player.State()), collide, player.assets);
         handler.enemyBeams == d.kept && player.State() == d.player &&
         handler.playerBeams == r.value.kept + d.reflected)
    ensures !crashed ==>
      player.Valid() && player.health <= PR.MAX_HEALTH &&
      Wave(survivors, handler)
  {
    ghost var ts0 := Targets(cs);
    assert BR.AllAlive(ts0) && BR.IdsAscending(ts0);
    ghost var bs, eb, p0 := handler.playerBeams, handler.enemyBeams, player.State();
    assert forall k :: 0 <= k < |cs| ==> Armed(cs[k], handler);
    survivors, crashed := handler.Tick(player, cs, collide);
    if !crashed {
      ghost var r := BR.PlayerPass(bs, ts0, collide).value;
      BR.PlayerPassCost(bs, ts0, collide);
      BR.EnemyPassCost(eb, p0, collide, player.assets);
      assert forall k :: 0 <= k < |cs| ==> Armed(cs[k], handler);
      SurvivorsFit(survivors, cs, r.targets, handler);
    }
  }

  /** The enemies' states, in list order. */
  ghost function States(es: seq<Enemy>): (ss: seq<ER.EnemyState>)
    reads set e | e in es
    ensures |ss| == |es| && forall k :: 0 <= k < |es| ==> ss[k] == es[k].State()
    decreases |es|
  {
    if es == [] then [] else var n := |es| - 1; States(es[..n]) + [es[n].State()]
  }

  /** The enemies' fixed traits, in list order. */
  function TraitsList(es: seq<Enemy>): (ts: seq<ER.Traits>)
    ensures |ts| == |es| && forall k :: 0 <= k < |es| ==> ts[k] == es[k].Traits()
    decreases |es|
  {
    if es == [] then [] else var n := |es| - 1; TraitsList(es[..n]) + [es[n].Traits()]
  }

  lemma Whole<T>(s: seq<T>)
    ensures s[..|s|] == s
  {
  }

  /** The player-beam pass's view depends on the enemies' states alone. */
  lemma TargetsStates(es: seq<Enemy>)
    ensures Targets(es) == TargetsOf(States(es))
  {
  }

  /** Taking the escaped enemies off the list and reading the states
      commute. */
  lemma StatesKept(cs: seq<Enemy>, ss: seq<ER.EnemyState>, ws: seq<ER.EnemyState>)
    requires |cs| == |ss| == |ws|
    requires forall k :: 0 <= k < |cs| ==> cs[k].State() == ws[k]
    ensures States(ER.KeepOnField(cs, ss)) == ER.KeepOnField(ws, ss)
  {
    ER.KeepOnFieldOrder(cs, ss);
    ER.KeepOnFieldOrder(ws, ss);
  }

  /** The first i enemies of the copy have ticked, the others not yet,
      and all are fit for the game loop. */
  ghost predicate Ticked(cs: seq<Enemy>, i: nat, before: seq<ER.EnemyState>, after: seq<ER.EnemyState>,
                         handler: BeamHandler)
    reads set e | e in cs
  {
    i <= |cs| == |before| == |after| &&
    (forall k :: 0 <= k < |cs| ==> EnemyValid(cs[k], handler)) &&
    (forall k :: 0 <= k < i ==> cs[k].State() == after[k]) &&
    (forall k :: i <= k < |cs| ==> cs[k].State() == before[k])
  }

  /** The i-th enemy of the copy ticks (line 381). */
  method TickAt(cs: seq<Enemy>, i: nat, handler: BeamHandler,
                ghost before: seq<ER.EnemyState>, ghost ts: seq<ER.Traits>, ghost after: seq<ER.EnemyState>,
                ghost beams0: seq<Beam>)
    requires Distinct(cs) && i < |cs| == |ts| && cs[i].handler == handler
    requires Ticked(cs, i, before, after, handler)
    requires cs[i].Traits() == ts[i] && after[i] == ER.Tick(before[i], ts[i]).state
    requires handler.enemyBeams == beams0 + ER.Volley(before[..i], ts[..i])
    modifies cs[i], handler`enemyBeams
    ensures Ticked(cs, i + 1, before, after, handler)
    ensures handler.enemyBeams == beams0 + ER.Volley(before[..i + 1], ts[..i + 1])
  {
    ER.WaveStep(before, ts, i);
    cs[i].Tick();
    forall k | 0 <= k < |cs| && k != i
      ensures cs[k].State() == old(cs[k].State()) && EnemyValid(cs[k], handler)
    {
      assert cs[k] != cs[i];
    }
  }

  /** Lines 382-384 for the i-th enemy once ticked: below the bottom edge, it
      is removed from the session's list and the player loses a point of
      health. kept is the part of the list already passed. */
  method Leave(s: Session, cs: seq<Enemy>, i: nat, player: Player, kept: seq<Enemy>)
    returns (kept': seq<Enemy>)
    requires i < |cs| && s.enemies == kept + cs[i..]
    modifies player`health, s`enemies
    ensures var gone := old(cs[i].y) > HEIGHT as real;
      kept' == kept + (if gone then [] else [cs[i]]) &&
      player.health == old(player.health) - (if gone then 1 else 0) &&
      s.enemies == kept' + cs[i + 1..]
    ensures player.State() == old(player.State()).(health := player.health)
  {
    assert cs[i..] == [cs[i]] + cs[i + 1..];
    if cs[i].y > HEIGHT as real {
      s.enemies := kept + cs[i + 1..];
      player.SetHealth(player.health - 1);
      kept' := kept;
    } else {
      kept' := kept + [cs[i]];
    }
  }

  /** The wave tick after its first i enemies: kept holds the ticked ones
      still on the field, and the beams fired and the health lost so far
      are accounted for. */
  ghost predicate WaveAt(cs: seq<Enemy>, i: nat, before: seq<ER.EnemyState>, ts: seq<ER.Traits>,
                         after: seq<ER.EnemyState>, kept: seq<Enemy>, beams0: seq<Beam>, health0: int,
                         handler: BeamHandler, player: Player)
    reads handler, player
  {
    i <= |cs| == |before| == |ts| == |after| &&
    kept == ER.KeepOnField(cs[..i], after[..i]) &&
    handler.enemyBeams == beams0 + ER.Volley(before[..i], ts[..i]) &&
    player.health == health0 - ER.EscapeCount(after[..i])
  }

  /** One iteration of lines 380-384. */
  method TickStep(s: Session, cs: seq<Enemy>, i: nat, handler: BeamHandler, player: Player, kept: seq<Enemy>,
                  ghost before: seq<ER.EnemyState>, ghost ts: seq<ER.Traits>, ghost after: seq<ER.EnemyState>,
                  ghost beams0: seq<Beam>, ghost health0: int)
    returns (kept': seq<Enemy>)
    requires Distinct(cs) && i < |cs| == |ts| && cs[i].handler == handler
    requires Ticked(cs, i, before, after, handler)
    requires cs[i].Traits() == ts[i] && after[i] == ER.Tick(before[i], ts[i]).state
    requires WaveAt(cs, i, before, ts, after, kept, beams0, health0, handler, player)
    requires s.enemies == kept + cs[i..]
    modifies cs[i], handler`enemyBeams, player`health, s`enemies
    ensures s.enemies == kept' + cs[i + 1..]
    ensures Ticked(cs, i + 1, before, after, handler)
    ensures WaveAt(cs, i + 1, before, ts, after, kept', beams0, health0, handler, player)
    ensures player.State() == old(player.State()).(health := player.health)
  {
    ghost var p0 := player.State();
    TickAt(cs, i, handler, before, ts, after, beams0);
    ER.FieldStep(cs, after, i);
    assert cs[i].y == after[i].y && player.State() == p0;
    kept' := Leave(s, cs, i, player, kept);
  }

  /** The loop of lines 380-384 over a copy cs of the list, given the
      enemies' states before and after their ticks. */
  method TickLoop(s: Session, cs: seq<Enemy>, handler: BeamHandler, player: Player,
                  ghost before: seq<ER.EnemyState>, ghost ts: seq<ER.Traits>, ghost after: seq<ER.EnemyState>)
    returns (kept: seq<Enemy>)
    requires Wave(cs, handler) && |cs| == |before| == |ts| == |after| && s.enemies == cs
    requires forall k :: 0 <= k < |cs| ==>
      cs[k].handler == handler && cs[k].State() == before[k] && cs[k].Traits() == ts[k] &&
      after[k] == ER.Tick(before[k], ts[k]).state
    modifies set e | e in cs
    modifies handler`enemyBeams, player`health, s`enemies
    ensures s.enemies == kept
    ensures Ticked(cs, |cs|, before, after, handler)
    ensures WaveAt(cs, |cs|, before, ts, after, kept, old(handler.enemyBeams), old(player.health), handler, player)
    ensures player.State() == old(player.State()).(health := player.health)
  {
    ghost var ps := player.State();
    ghost var beams0, health0 := handler.enemyBeams, player.health;
    kept := [];
    var i := 0;
    assert cs[..0] == [] && before[..0] == [] && ts[..0] == [] && after[..0] == [];
    while i < |cs|
      invariant Ticked(cs, i, before, after, handler)
      invariant WaveAt(cs, i, before, ts, after, kept, beams0, health0, handler, player)
      invariant player.State() == ps.(health := player.health)
      invariant s.enemies == kept + cs[i..]
    {
      kept := TickStep(s, cs, i, handler, player, kept, before, ts, after, beams0, health0);
      i := i + 1;
    }
    assert cs[i..] == [];
  }

  /** Lines 380-384: every enemy of a copy of the list ticks; one that is
      then below the bottom edge leaves the list and costs the player one
      point of health. The list left is returned. */
  method TickWave(s: Session, cs: seq<Enemy>, handler: BeamHandler, player: Player)
    requires Wave(cs, handler) && s.enemies == cs && player.Valid()
    requires forall k :: 0 <= k < |cs| ==> cs[k].handler == handler
    modifies set e | e in cs
    modifies handler`enemyBeams, player`health, s`enemies
    ensures var before, ts := old(States(cs)), TraitsList(cs);
      var after := ER.TickAll(before, ts);
      States(cs) == after &&
      s.enemies == ER.KeepOnField(cs, after) &&
      handler.enemyBeams == old(handler.enemyBeams) + ER.Volley(before, ts) &&
      player.health == old(player.health) - ER.EscapeCount(after)
    ensures forall k :: 0 <= k < |cs| ==> EnemyValid(cs[k], handler)
    ensures Wave(s.enemies, handler)
    ensures player.State() == old(player.State()).(health := player.health)
    ensures player.Valid() && player.health <= old(player.health)
    ensures var after := ER.TickAll(old(States(cs)), TraitsList(cs));
      States(s.enemies) == ER.KeepOnField(after, after)
  {
    ghost var before := States(cs);
    ghost var ts := TraitsList(cs);
    ghost var after := ER.TickAll(before, ts);
    var kept := TickLoop(s, cs, handler, player, before, ts, after);
    Whole(cs);
    Whole(after);
    Whole(before);
    Whole(ts);
    KeptFit(cs, after, handler);
    StatesKept(cs, after, after);
  }

  /** The enemies a wave tick keeps on the field are distinct and fit for
      the game loop when the whole list was. */
  lemma KeptFit(cs: seq<Enemy>, ss: seq<ER.EnemyState>, handler: BeamHandler)
    requires |cs| == |ss| && Distinct(cs)
    requires forall k :: 0 <= k < |cs| ==> EnemyValid(cs[k], handler)
    ensures var kept := ER.KeepOnField(cs, ss);
      Wave(kept, handler)
  {
    var kept := ER.KeepOnField(cs, ss);
    forall m | 0 <= m < |kept|
      ensures EnemyValid(kept[m], handler)
    {
      assert kept[m] in cs;
      var k :| 0 <= k < |cs| && cs[k] == kept[m];
    }
  }

  /** Everything one frame needs from outside: the random draws for a wave
      that may be spawned, the choices made on the win and lose screens
      (true: play on), the polled events and the keys held down. */
  datatype FrameInput = FrameInput(
    spawns: seq<RR.Spawn>, winContinue: bool, events: seq<IR.Event>, keys: IR.Keys, loseContinue: bool)

  /** The game loop's state (lines 322-403). */
  class Session {
    var round: int
    var enemies: seq<Enemy>
    var running: bool
    const handler: BeamHandler
    const player: Player
    const assets: Assets

    ghost predicate Valid()
      reads this, player, handler, set e | e in enemies
    {
      player.handler == handler && player.assets == assets && player.Valid() &&
      player.health <= PR.MAX_HEALTH &&
      0 <= round <= RR.LAST_ROUND &&
      Wave(enemies, handler)
    }

    /** Between frames the player is also alive. */
    ghost predicate Settled()
      reads this, player, handler, set e | e in enemies
    {
      Valid() && player.health >= 1
    }

    /** Lines 323-342: titleContinue is the title screen's answer. */
    constructor (assets: Assets, titleContinue: bool)
      ensures round == RR.START_ROUND && enemies == [] && running == titleContinue
      ensures handler.playerBeams == [] && handler.enemyBeams == []
      ensures player.State() ==
        PR.PlayerState(WIDTH as real / 2.0 - assets.playerIdle.width as real / 2.0, 650.0, PR.MAX_HEALTH,
                       assets.playerIdle, PR.START_SHOT_COUNTER, 0,
                       PR.HitboxAt(WIDTH as real / 2.0 - assets.playerIdle.width as real / 2.0, 650.0))
      ensures Settled()
    {
      var h := new BeamHandler();
      var p := new Player(WIDTH as real / 2.0 - assets.playerIdle.width as real / 2.0, 650.0, h, assets);
      running := titleContinue;
      handler := h;
      player := p;
      this.assets := assets;
      round := RR.START_ROUND;
      enemies := [];
    }

    /** Lines 346-354: with no enemies left, spawn the next wave, or after
        the last wave restore the player's health, spawn wave 1, clear the
        beams and ask the win screen whether to go on. */
    method StartFrame(spawns: seq<RR.Spawn>, winContinue: bool)
      requires Valid()
      requires enemies == [] ==> RR.SpawnsFit(RR.Roster(RR.WaveAfter(round)), spawns, assets.playerIdle.width)
      modifies this`round, this`enemies, this`running, player`health, handler`playerBeams, handler`enemyBeams
      ensures Valid()
      ensures forall e :: e in enemies ==> e in old(enemies) || fresh(e)
      ensures var s := RR.StartOfFrame(old(round), |old(enemies)|);
        round == RR.RoundAfterStart(old(round), s) &&
        (s.Play? ==> enemies == old(enemies) && running == old(running) && player.health == old(player.health) &&
                     handler.playerBeams == old(handler.playerBeams) && handler.enemyBeams == old(handler.enemyBeams)) &&
        (s.NextWave? ==> Fielded(enemies, RR.Recruits(RR.Roster(round), spawns), handler, assets) &&
                         running == old(running) && player.health == old(player.health) &&
                         handler.playerBeams == old(handler.playerBeams) && handler.enemyBeams == old(handler.enemyBeams)) &&
        (s.Won? ==> round == 1 && Fielded(enemies, RR.Recruits(RR.Roster(1), spawns), handler, assets) &&
                    player.health == PR.MAX_HEALTH && handler.playerBeams == [] && handler.enemyBeams == [] &&
                    running == winContinue)
    {
      if |enemies| == 0 && round < RR.LAST_ROUND {
        round := round + 1;
        FillWave(spawns);
      } else if |enemies| == 0 {
        round := 1;
        player.ResetHealth();
        handler.Reset();
        running := winContinue;
        FillWave(spawns);
      }
    }

    /** Lines 348 and 354: nextRound on an empty field, for the current
        round's roster. */
    method FillWave(spawns: seq<RR.Spawn>)
      requires Valid() && enemies == [] && 1 <= round
      requires RR.SpawnsFit(RR.Roster(round), spawns, assets.playerIdle.width)
      modifies this`enemies
      ensures Fielded(enemies, RR.Recruits(RR.Roster(round), spawns), handler, assets)
      ensures forall e :: e in enemies ==> fresh(e)
      ensures Valid()
    {
      var made := NextRound(enemies, RR.Roster(round), spawns, handler, assets);
      assert made[0..] == made;
      enemies := made;
    }

    /** Lines 357-365: the event queue. A quit event stops the game after
        this frame and ends the queue; a left-shift press parries. */
    method PollEvents(events: seq<IR.Event>)
      requires Valid()
      modifies this`running, player
      ensures var q := IR.PollFrom(events, 0, old(player.State()), assets);
        player.State() == q.player && running == (old(running) && !q.quit)
      ensures Valid()
    {
      ghost var p0 := player.State();
      var i := 0;
      while i < |events|
        invariant 0 <= i <= |events|
        invariant IR.PollFrom(events, 0, p0, assets) == IR.PollFrom(events, i, player.State(), assets)
        invariant running == old(running)
        invariant Valid()
      {
        match events[i] {
          case QuitEvent =>
            assert IR.PollFrom(events, i, player.State(), assets) == IR.Polled(player.State(), true);
            running := false;
            return;
          case KeyDown(LeftShift) =>
            player.Parry();
          case _ =>
        }
        i := i + 1;
      }
    }

    /** Lines 368-374: the held keys. */
    method ApplyKeys(keys: IR.Keys)
      requires Valid()
      modifies player, handler`playerBeams
      ensures var r := IR.Steer(old(player.State()), keys, assets);
        player.State() == r.state && handler.playerBeams == old(handler.playerBeams) + r.fired
      ensures Valid()
    {
      if keys.left {
        player.Move(false);
      } else if keys.right {
        player.Move(true);
      }
      if keys.space {
        player.Shoot();
      }
    }

    /** The session as values (see World). */
    ghost function Snapshot(): World
      reads this, player, handler, set e | e in enemies
    {
      World(enemies, States(enemies), player.State(), handler.playerBeams, handler.enemyBeams)
    }

    /** Lines 380-384 on the session's enemy list. */
    method TickEnemies()
      requires Valid()
      modifies set e | e in enemies
      modifies handler`enemyBeams, player`health, this`enemies
      ensures Snapshot() == EnemiesTicked(old(Snapshot()), TraitsList(old(enemies)))
      ensures Valid() && running == old(running) && round == old(round)
    {
      ghost var w0, ts := Snapshot(), TraitsList(enemies);
      ghost var p0 := player.State();
      TickWave(this, enemies, handler, player);
      Bled(p0, player.State(), ER.EscapeCount(ER.TickAll(w0.states, ts)));
      EnemiesTickedParts(w0, ts, Snapshot());
    }

    /** Line 385: the player's own tick. */
    method TickPlayer()
      requires Valid()
      modifies player
      ensures Snapshot() == PlayerTicked(old(Snapshot()), assets)
      ensures Valid() && running == old(running) && round == old(round)
    {
      player.Tick();
    }

    /** The session after the beam handler's tick (line 386) from the world
        w: the player-beam pass meets the enemies' states in w and, unless
        it raised ValueError (`crashed`), its survivors become the enemy
        list and the enemy-beam pass meets the player of w. */
    ghost predicate BeamsTicked(w: World, collide: Collider, crashed: bool)
      reads this, player, handler, set e | e in w.enemies, set e | e in enemies
    {
      var r := BR.PlayerPass(w.playerBeams, TargetsOf(w.states), collide);
      (crashed <==> r.Crash?) &&
      (!crashed ==>
         var d := BR.EnemyPass(w.enemyBeams, w.player, collide, assets);
         Valid() &&
         Follows(enemies, w.enemies, r.value.targets) &&
         player.State() == d.player &&
         handler.enemyBeams == d.kept && handler.playerBeams == r.value.kept + d.reflected)
    }

    /** Line 386. */
    method TickBeams(collide: Collider) returns (crashed: bool)
      requires Valid()
      modifies this`enemies, player, handler`playerBeams, handler`enemyBeams, (set e | e in enemies)`health
      ensures BeamsTicked(old(Snapshot()), collide, crashed)
      ensures running == old(running) && round == old(round)
    {
      ghost var w := Snapshot();
      TargetsStates(enemies);
      assert TargetsOf(w.states) == Targets(enemies);
      var survivors;
      survivors, crashed := PassBeams(handler, player, enemies, collide);
      if !crashed {
        enemies := survivors;
      }
    }

    /** Lines 399-403, run when the player has lost: the lose screen's
        answer decides whether to go on, and the game restarts before
        round 1. */
    method Restart(loseContinue: bool)
      requires Valid()
      modifies this`running, this`round, this`enemies, player`health, handler`playerBeams, handler`enemyBeams
      ensures running == loseContinue && round == 0 && enemies == [] &&
        handler.playerBeams == [] && handler.enemyBeams == []
      ensures player.State() == old(player.State()).(health := PR.MAX_HEALTH)
      ensures Settled()
    {
      running := loseContinue;
      round := 0;
      enemies := [];
      player.ResetHealth();
      handler.Reset();
    }

    /** Lines 346-374 of one pass of the game loop: the start of the
        frame and the player's input. */
    method TakeInput(input: FrameInput)
      requires Settled()
      requires enemies == [] ==> RR.SpawnsFit(RR.Roster(RR.WaveAfter(round)), input.spawns, assets.playerIdle.width)
      modifies this`round, this`enemies, this`running, player, handler`playerBeams, handler`enemyBeams
      ensures Valid()
      ensures forall e :: e in enemies ==> e in old(enemies) || fresh(e)
      ensures var s := RR.StartOfFrame(old(round), |old(enemies)|);
        var p0 := old(player.State()).(health := if s.Won? then PR.MAX_HEALTH else old(player.health));
        var q := IR.PollFrom(input.events, 0, p0, assets);
        var st := IR.Steer(q.player, input.keys, assets);
        round == RR.RoundAfterStart(old(round), s) &&
        (s.Play? ==> enemies == old(enemies)) &&
        (!s.Play? ==> Fielded(enemies, RR.Recruits(RR.Roster(round), input.spawns), handler, assets)) &&
        running == ((if s.Won? then input.winContinue else old(running)) && !q.quit) &&
        player.State() == st.state &&
        handler.playerBeams == (if s.Won? then [] else old(handler.playerBeams)) + st.fired &&
        handler.enemyBeams == (if s.Won? then [] else old(handler.enemyBeams))
    {
      StartFrame(input.spawns, input.winContinue);
      PollEvents(input.events);
      ApplyKeys(input.keys);
    }

    /** Lines 380-385 of one pass of the game loop. */
    method Prepare()
      requires Valid()
      modifies this`enemies, player, handler`enemyBeams
      modifies set e | e in enemies
      ensures Snapshot() == PlayerTicked(EnemiesTicked(old(Snapshot()), TraitsList(old(enemies))), assets)
      ensures Valid() && running == old(running) && round == old(round)
    {
      TickEnemies();
      TickPlayer();
    }

    /** Lines 380-386 of one pass of the game loop. */
    method Advance(collide: Collider) returns (crashed: bool)
      requires Valid()
      modifies this`enemies, player, handler`playerBeams, handler`enemyBeams
      modifies set e | e in enemies
      ensures BeamsTicked(PlayerTicked(EnemiesTicked(old(Snapshot()), TraitsList(old(enemies))), assets),
                          collide, crashed)
      ensures running == old(running) && round == old(round)
    {
      Prepare();
      crashed := TickBeams(collide);
    }

    /** The session after lines 386-403 of a frame whose beams ticked from
        the world w (as BeamsTicked): when the pass did not crash and the
        player has lost, the restart of lines 399-403 with the lose screen's
        answer loseContinue; a session that did not crash is settled again. */
    ghost predicate Concluded(w: World, running0: bool, round0: int,
                              collide: Collider, loseContinue: bool, crashed: bool)
      reads this, player, handler, set e | e in w.enemies, set e | e in enemies
    {
      var lost := Loses(w, collide, assets);
      (!crashed ==> Settled()) &&
      (!lost ==> BeamsTicked(w, collide, crashed) && running == running0 && round == round0) &&
      (lost ==>
         !crashed && running == loseContinue && round == 0 && enemies == [] &&
         player.State() == BR.EnemyPass(w.enemyBeams, w.player, collide, assets).player.(health := PR.MAX_HEALTH) &&
         handler.playerBeams == [] && handler.enemyBeams == [])
    }

    /** The session after lines 380-403 of a frame that began in the world
        w0, with ts the enemies' traits: Concluded, after the enemies' and
        the player's ticks. */
    ghost predicate Updated(w0: World, ts: seq<ER.Traits>, running0: bool, round0: int,
                            collide: Collider, loseContinue: bool, crashed: bool)
      requires |w0.enemies| == |w0.states| == |ts|
      reads this, player, handler, set e | e in w0.enemies, set e | e in enemies
    {
      Concluded(PlayerTicked(EnemiesTicked(w0, ts), assets), running0, round0, collide, loseContinue, crashed)
    }

    /** Lines 387-403: the lose check after the beams ticked from w. */
    method Conclude(ghost w: World, ghost running0: bool, ghost round0: int,
                    collide: Collider, loseContinue: bool, crashed: bool)
      requires BeamsTicked(w, collide, crashed) && running == running0 && round == round0
      modifies this`round, this`enemies, this`running, player`health, handler`playerBeams, handler`enemyBeams
      ensures Concluded(w, running0, round0, collide, loseContinue, crashed)
    {
      if !crashed && RR.Lost(player.health) {
        ghost var p1 := player.State();
        Restart(loseContinue);
        Healed(BR.EnemyPass(w.enemyBeams, w.player, collide, assets).player, p1, player.State());
      }
    }

    /** Lines 380-403 of one pass of the game loop: the enemies, the player
        and the beams tick, and a player left without health sees the lose
        screen. After a crash nothing more is promised. */
    method Update(collide: Collider, loseContinue: bool) returns (crashed: bool)
      requires Valid()
      modifies this`round, this`enemies, this`running, player, handler`playerBeams, handler`enemyBeams
      modifies set e | e in enemies
      ensures Updated(old(Snapshot()), TraitsList(old(enemies)), old(running), old(round),
                      collide, loseContinue, crashed)
    {
      ghost var w := PlayerTicked(EnemiesTicked(Snapshot(), TraitsList(enemies)), assets);
      crashed := Advance(collide);
      Conclude(w, old(running), old(round), collide, loseContinue, crashed);
    }

    /** One pass of the game loop (lines 344-403). */
    method Frame(input: FrameInput, collide: Collider) returns (crashed: bool)
      requires Settled()
      requires enemies == [] ==> RR.SpawnsFit(RR.Roster(RR.WaveAfter(round)), input.spawns, assets.playerIdle.width)
      modifies this`round, this`enemies, this`running, player, handler`playerBeams, handler`enemyBeams
      modifies set e | e in enemies
      ensures !crashed ==> Settled()
    {
      TakeInput(input);
      crashed := Update(collide, input.loseContinue);
    }
  }
}
