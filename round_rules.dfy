/** The round director: the fixed wave rosters, what nextRound spawns for a
    roster, and the wave/health bookkeeping the game loop does each frame. */
module RoundRules {
  import opened Geometry
  import ER = EnemyRules

  /** game_loop starts with round = 9, so the first frame spawns wave 10. */
  const START_ROUND: int := 9
  const LAST_ROUND: int := 10

  datatype Option<T> = None | Some(value: T)

  /** The roster table of game_loop (lines 330-339). In wave 10 the literals
      "green" "yellow" stand next to each other without a comma, and Python
      joins them into the single tag "greenyellow". */
  function Roster(round: int): (r: seq<string>)
    requires 1 <= round <= LAST_ROUND
    ensures 4 <= |r| <= 11
    ensures round < LAST_ROUND ==> forall k :: 0 <= k < |r| ==> TierOf(r[k]).Some?
  {
    match round
    case 1 => ["green", "green", "green", "green", "green"]
    case 2 => ["green", "green", "green", "green", "green", "green", "green", "green", "green", "green"]
    case 3 => ["green", "green", "green", "yellow", "yellow"]
    case 4 => ["green", "green", "green", "green", "yellow", "yellow", "yellow"]
    case 5 => ["green", "green", "yellow", "red"]
    case 6 => ["green", "green", "yellow", "yellow", "red", "red"]
    case 7 => ["green", "green", "green", "green", "red", "red", "red"]
    case 8 => ["yellow", "yellow", "yellow", "yellow", "red"]
    case 9 => ["red", "red", "red", "red", "red"]
    case _ => ["green", "green", "green", "green" + "yellow", "yellow", "yellow", "yellow", "red", "red", "red", "red"]
  }

  /** The tier nextRound builds for a tag; any other tag builds nothing. */
  function TierOf(tag: string): (r: Option<ER.Tier>)
    ensures r == Some(ER.Green) <==> tag == "green"
    ensures r == Some(ER.Yellow) <==> tag == "yellow"
    ensures r == Some(ER.Red) <==> tag == "red"
    ensures r == None <==> tag !in {"green", "yellow", "red"}
  {
    if tag == "green" then Some(ER.Green)
    else if tag == "yellow" then Some(ER.Yellow)
    else if tag == "red" then Some(ER.Red)
    else None
  }

  /** The random draws for one enemy: randint(0, WIDTH - w) for x, where w is
      the player's idle sprite width, randint(-2000, -50) for y, then
      randint(0, 60) for the shot counter and randint(0, shotNum) for the
      burst count. */
  datatype Spawn = Spawn(x: int, y: int, shotCounter: int, currShots: int)

  predicate SpawnFits(s: Spawn, t: ER.Tier, playerIdleWidth: nat) {
    0 <= s.x <= WIDTH - playerIdleWidth &&
    -2000 <= s.y <= -50 &&
    0 <= s.shotCounter <= ER.BURST_WINDOW &&
    0 <= s.currShots <= ER.ShotNum(t)
  }

  /** spawns[i] holds the draws nextRound would make for tags[i]. */
  predicate SpawnsFit(tags: seq<string>, spawns: seq<Spawn>, playerIdleWidth: nat) {
    |spawns| == |tags| &&
    forall i :: 0 <= i < |tags| && TierOf(tags[i]).Some? ==> SpawnFits(spawns[i], TierOf(tags[i]).value, playerIdleWidth)
  }

  /** One enemy nextRound appends. */
  datatype Recruit = Recruit(tier: ER.Tier, spawn: Spawn)

  /** What nextRound appends for a roster (lines 310-317): one enemy per
      recognised tag, in roster order. */
  function Recruits(tags: seq<string>, spawns: seq<Spawn>): (r: seq<Recruit>)
    requires |spawns| == |tags|
    ensures |r| <= |tags|
    decreases |tags|
  {
    if tags == [] then []
    else
      var n := |tags| - 1;
      Recruits(tags[..n], spawns[..n]) + RecruitOf(tags[n], spawns[n])
  }

  /** One more tag of the roster adds that tag's recruit. */
  lemma RecruitsStep(tags: seq<string>, spawns: seq<Spawn>, i: nat)
    requires |spawns| == |tags| && i < |tags|
    ensures Recruits(tags[..i + 1], spawns[..i + 1]) == Recruits(tags[..i], spawns[..i]) + RecruitOf(tags[i], spawns[i])
  {
    assert tags[..i + 1][..i] == tags[..i] && spawns[..i + 1][..i] == spawns[..i];
  }

  /** The enemy (if any) nextRound builds for one tag. */
  function RecruitOf(tag: string, spawn: Spawn): (r: seq<Recruit>)
    ensures |r| <= 1 && (r != [] <==> TierOf(tag).Some?)
    ensures r != [] ==> r[0] == Recruit(TierOf(tag).value, spawn)
  {
    match TierOf(tag)
    case Some(t) => [Recruit(t, spawn)]
    case None => []
  }

  /** What an enemy of a tier is built with (lines 313-317). */
  function TraitsOf(t: ER.Tier, a: Assets): ER.Traits {
    ER.Traits(ER.ShotNum(t), ER.IdleImage(t, a), ER.SwingImage(t, a), a.enemyBeam)
  }

  /** The enemy built from a recruit: full health, idle sprite, and a hitbox
      at (x + 53, y + 60), which the first tick moves to (x + 54, y + 40). */
  function Spawned(rc: Recruit, a: Assets): (r: ER.EnemyState)
    ensures r.health == ER.ShotNum(rc.tier) >= 1
  {
    var x := rc.spawn.x as real;
    var y := rc.spawn.y as real;
    ER.EnemyState(x, y, ER.MaxHealth(rc.tier), ER.IdleImage(rc.tier, a),
                  rc.spawn.shotCounter, rc.spawn.currShots, Hitbox(x + 53.0, y + 60.0, 21, 21))
  }

  /** A fitting draw gives a live enemy above the screen with its burst
      machine in range; its first tick re-seats the hitbox one pixel right
      and twenty up relative to the sprite. */
  lemma SpawnedSound(rc: Recruit, a: Assets, w: nat)
    requires SpawnFits(rc.spawn, rc.tier, w)
    ensures var e := Spawned(rc, a);
      e.health >= 1 && -2000.0 <= e.y <= -50.0 && 0.0 <= e.x &&
      e.x + w as real <= WIDTH as real &&
      ER.CountersInRange(ER.Counters(e.shotCounter, e.currShots), ER.ShotNum(rc.tier)) &&
      e.hitbox.x - e.x == 53.0 && e.hitbox.y - e.y == 60.0 &&
      var e1 := ER.Tick(e, TraitsOf(rc.tier, a)).state;
      e1.hitbox.x - e1.x == 54.0 && e1.hitbox.y - e1.y == 40.0
  {
  }

  /** The tiers a roster asks for, in order, skipping unknown tags. */
  function Tiers(tags: seq<string>): seq<ER.Tier>
    decreases |tags|
  {
    if tags == [] then []
    else (match TierOf(tags[0]) case Some(t) => [t] case None => []) + Tiers(tags[1..])
  }

  /** A roster split in two spawns its two halves one after the other. */
  lemma {:induction false} RecruitsAppend(a: seq<string>, b: seq<string>, sa: seq<Spawn>, sb: seq<Spawn>)
    requires |sa| == |a| && |sb| == |b|
    ensures Recruits(a + b, sa + sb) == Recruits(a, sa) + Recruits(b, sb)
    decreases |b|
  {
    if b == [] {
      assert a + b == a && sa + sb == sa;
    } else {
      var n := |b| - 1;
      var ab, sab := a + b, sa + sb;
      assert ab[..|a| + n] == a + b[..n];
      assert sab[..|a| + n] == sa + sb[..n];
      assert ab[|a| + n] == b[n] && sab[|a| + n] == sb[n];
      var last := RecruitOf(b[n], sb[n]);
      assert Recruits(ab, sab) == Recruits(a + b[..n], sa + sb[..n]) + last;
      assert Recruits(b, sb) == Recruits(b[..n], sb[..n]) + last;
      RecruitsAppend(a, b[..n], sa, sb[..n]);
    }
  }

  /** nextRound recruits exactly the roster's recognised tiers, in order, the
      i-th recruit taking the draws of its own tag. */
  lemma {:induction false} RecruitsFollowTiers(tags: seq<string>, spawns: seq<Spawn>)
    requires |spawns| == |tags|
    ensures |Recruits(tags, spawns)| == |Tiers(tags)|
    ensures forall k :: 0 <= k < |Tiers(tags)| ==> Recruits(tags, spawns)[k].tier == Tiers(tags)[k]
    decreases |tags|
  {
    if tags != [] {
      var first := [tags[0]];
      assert tags == first + tags[1..];
      assert spawns == [spawns[0]] + spawns[1..];
      RecruitsAppend(first, tags[1..], [spawns[0]], spawns[1..]);
      RecruitsFollowTiers(tags[1..], spawns[1..]);
      assert first[..0] == [] && [spawns[0]][..0] == [];
      assert Recruits(first, [spawns[0]]) == Recruits([], []) + RecruitOf(tags[0], spawns[0]);
    }
  }

  /** The tags of wave 10, one by one. */
  lemma TagsOfWaveTen()
    ensures TierOf("green") == Some(ER.Green) && TierOf("yellow") == Some(ER.Yellow)
    ensures TierOf("red") == Some(ER.Red) && TierOf("greenyellow") == None
  {
    assert "greenyellow" != "green" && "greenyellow" != "yellow" && "greenyellow" != "red" by {
      assert |"greenyellow"| == 11;
    }
  }

  /** Wave 10's roster as Python reads it. */
  lemma WaveTenRoster()
    ensures Roster(10) == ["green", "green", "green", "greenyellow", "yellow", "yellow", "yellow", "red", "red", "red", "red"]
  {
    assert "green" + "yellow" == "greenyellow";
  }

  /** Wave 10's roster asks for three green, three yellow and four red
      enemies: the joined tag at position 3 matches no tier. */
  lemma WaveTenTiers()
    ensures |Roster(10)| == 11 && Roster(10)[3] == "greenyellow" && TierOf(Roster(10)[3]) == None
    ensures Tiers(Roster(10)) == [ER.Green, ER.Green, ER.Green, ER.Yellow, ER.Yellow, ER.Yellow,
                                  ER.Red, ER.Red, ER.Red, ER.Red]
  {
    TagsOfWaveTen();
    WaveTenRoster();
  }

  /** Wave 10 lists eleven tags but spawns ten enemies. */
  lemma WaveTenLosesAnEnemy(spawns: seq<Spawn>)
    requires |spawns| == |Roster(10)|
    ensures |Roster(10)| == 11 && |Recruits(Roster(10), spawns)| == 10
  {
    WaveTenTiers();
    RecruitsFollowTiers(Roster(10), spawns);
  }

  // ------------------------------------------------------------ bookkeeping

  /** What the start of a frame does with the wave (lines 346-354). */
  datatype Start = Play | NextWave(round: int) | Won

  function StartOfFrame(round: int, enemyCount: nat): (r: Start)
    ensures r.Play? <==> enemyCount > 0
    ensures r.NextWave? <==> enemyCount == 0 && round < LAST_ROUND
    ensures r.NextWave? ==> r.round == round + 1
    ensures r.Won? <==> enemyCount == 0 && round >= LAST_ROUND
  {
    if enemyCount == 0 && round < LAST_ROUND then NextWave(round + 1)
    else if enemyCount == 0 then Won
    else Play
  }

  /** The wave whose roster is spawned at the start of a frame, if any:
      the next one, or wave 1 again after a win. */
  function SpawnedWave(s: Start): Option<int> {
    match s
    case Play => None
    case NextWave(r) => Some(r)
    case Won => Some(1)
  }

  /** The round number after the start of a frame. */
  function RoundAfterStart(round: int, s: Start): int {
    match s
    case Play => round
    case NextWave(r) => r
    case Won => 1
  }

  /** The wave spawned when a frame of round r starts with no enemies. */
  function WaveAfter(round: int): (w: int)
    ensures SpawnedWave(StartOfFrame(round, 0)) == Some(w)
    ensures 0 <= round <= LAST_ROUND ==> 1 <= w <= LAST_ROUND
    ensures round < LAST_ROUND ==> w == round + 1
    ensures round >= LAST_ROUND ==> w == 1
  {
    if round < LAST_ROUND then round + 1 else 1
  }

  /** Rounds stay within 0..10: 0 only right after a loss, and a frame that
      starts with no enemies always spawns a wave that exists. */
  lemma RoundStaysInRange(round: int, enemyCount: nat)
    requires 0 <= round <= LAST_ROUND
    ensures var s := StartOfFrame(round, enemyCount);
      0 <= RoundAfterStart(round, s) <= LAST_ROUND &&
      (enemyCount == 0 ==> SpawnedWave(s).Some? && SpawnedWave(s).value == RoundAfterStart(round, s) &&
                           1 <= RoundAfterStart(round, s) <= LAST_ROUND)
  {
  }

  /** Starting from round r with every wave cleared in one frame, n frames
      later the round number is this. */
  function RoundAfterClears(round: int, n: nat): int
    decreases n
  {
    if n == 0 then round else RoundAfterStart(RoundAfterClears(round, n - 1), StartOfFrame(RoundAfterClears(round, n - 1), 0))
  }

  /** After a loss (round 0) the waves come in order 1, 2, ..., 10, and after
      wave 10 the campaign begins again at 1. */
  lemma {:induction false} CampaignOrder(n: nat)
    requires n <= LAST_ROUND
    ensures RoundAfterClears(0, n) == n
    ensures RoundAfterClears(0, LAST_ROUND + 1) == 1
    decreases n
  {
    if n > 0 {
      CampaignOrder(n - 1);
    }
    if n == LAST_ROUND {
      assert RoundAfterClears(0, LAST_ROUND + 1) == RoundAfterStart(n, StartOfFrame(n, 0));
    }
  }

  /** The very first frame of a session spawns wave 10. */
  lemma FirstFrameSpawnsLastWave()
    ensures StartOfFrame(START_ROUND, 0) == NextWave(LAST_ROUND)
  {
  }

  /** Health at which the lose screen is shown (line 398). */
  predicate Lost(health: int) {
    health <= 0
  }
}
