/** An enemy swordsman's downward drift and burst-fire state machine, as
    functions of its state. The Enemy class in module Game is proved to
    follow these rules. */
module EnemyRules {
  import opened Geometry

  /** Frames of rest after a burst. */
  const BURST_COOLDOWN: int := 120
  /** Frames over which the shots of one burst are spread. */
  const BURST_WINDOW: int := 60
  /** Pixels of downward drift per frame. */
  const DRIFT: real := 1.5
  /** Velocity of an enemy beam (downwards). */
  const BEAM_VELOCITY: int := -9
  /** Inside a burst the swing sprite is shown until the counter passes 15,
      during the cooldown until it passes 30. */
  const BURST_SWING_FRAMES: int := 15
  const COOLDOWN_SWING_FRAMES: int := 30

  /** The three kinds of enemy, by colour. */
  datatype Tier = Green | Yellow | Red

  /** Shots per burst. */
  function ShotNum(t: Tier): (n: BurstSize)
    ensures 1 <= n <= 3
  {
    match t
    case Green => 1
    case Yellow => 2
    case Red => 3
  }

  function MaxHealth(t: Tier): (h: int)
    ensures h == ShotNum(t)
  {
    match t
    case Green => 1
    case Yellow => 2
    case Red => 3
  }

  function IdleImage(t: Tier, a: Assets): Image {
    match t
    case Green => a.greenIdle
    case Yellow => a.yellowIdle
    case Red => a.redIdle
  }

  function SwingImage(t: Tier, a: Assets): Image {
    match t
    case Green => a.greenSwing
    case Yellow => a.yellowSwing
    case Red => a.redSwing
  }

  /** Shots per burst; every tier fires at least one. */
  type BurstSize = n: int | 1 <= n witness 1

  /** What an enemy was built with and never changes. */
  datatype Traits = Traits(shotNum: BurstSize, idle: Image, swing: Image, beam: Image)

  /** Everything about an enemy that its methods read or change. */
  datatype EnemyState = EnemyState(
    x: real, y: real, health: int, image: Image,
    shotCounter: int, currShots: int, hitbox: Hitbox)

  /** The new state and the beams handed to the beam handler. */
  datatype Effect = Effect(state: EnemyState, fired: seq<Beam>)

  /** The two counters of the burst machine: frames since the last shot (or
      since the cooldown began) and shots fired in the current burst. */
  datatype Counters = Counters(shot: int, curr: int)

  // --------------------------------------------------- the burst machine

  /** The gap between shots of a burst. The program divides 60 by shotNum in
      floating point and compares the integer counter with the quotient;
      lemma GapComparison shows integer division decides those comparisons
      identically (for the tiers' 1, 2 and 3 the quotient is exact anyway). */
  function BurstGap(shotNum: BurstSize): (g: int)
    ensures 0 <= g <= BURST_WINDOW
    ensures g * shotNum <= BURST_WINDOW < (g + 1) * shotNum
  {
    BURST_WINDOW / shotNum
  }

  /** For an integer counter c, c > 60 / shotNum computed over the reals
      holds exactly when c > BurstGap(shotNum). */
  lemma GapComparison(c: int, shotNum: BurstSize)
    ensures (c as real > BURST_WINDOW as real / shotNum as real) <==> c > BurstGap(shotNum)
  {
    if c > BurstGap(shotNum) {
      AboveGap(c, shotNum);
    } else {
      WithinGap(c, shotNum);
    }
  }

  lemma AboveGap(c: int, shotNum: BurstSize)
    requires c > BurstGap(shotNum)
    ensures c as real > BURST_WINDOW as real / shotNum as real
  {
    var g, k := BurstGap(shotNum), shotNum as real;
    CastProduct(g + 1, shotNum);
    ScaleLe((g + 1) as real, c as real, k);
    AboveQuotient(c as real, BURST_WINDOW as real, k);
  }

  lemma WithinGap(c: int, shotNum: BurstSize)
    requires c <= BurstGap(shotNum)
    ensures c as real <= BURST_WINDOW as real / shotNum as real
  {
    var g, k := BurstGap(shotNum), shotNum as real;
    CastProduct(g, shotNum);
    ScaleLe(c as real, g as real, k);
    WithinQuotient(c as real, BURST_WINDOW as real, k);
  }

  lemma CastProduct(a: int, b: int)
    ensures (a * b) as real == a as real * b as real
  {
  }

  lemma ScaleLe(a: real, b: real, k: real)
    requires k > 0.0 && a <= b
    ensures a * k <= b * k
  {
  }

  lemma AboveQuotient(a: real, m: real, k: real)
    requires k > 0.0 && a * k > m
    ensures a > m / k
  {
  }

  lemma WithinQuotient(a: real, m: real, k: real)
    requires k > 0.0 && a * k <= m
    ensures a <= m / k
  {
  }

  /** The enemy's state machine bounds: both counters start inside these
      (lines 257 and 260 of the program draw them from 0..60 and
      0..shotNum), and a fired count past shotNum only arises right after a
      shot. */
  predicate CountersInRange(c: Counters, shotNum: BurstSize) {
    0 <= c.shot <= BURST_COOLDOWN + 1 &&
    0 <= c.curr <= shotNum + 1 &&
    (c.curr == shotNum + 1 ==> c.shot >= 1)
  }

  /** The cooldown update at the start of a tick. Inside a burst the counter
      runs up to one past the gap and then returns to 0 (ready to fire); after
      the burst it runs up to one past the cooldown and then returns to 0
      together with the fired count. */
  function Cooldown(c: Counters, shotNum: BurstSize): (r: Counters)
    ensures c.curr < shotNum ==> r.curr == c.curr
    ensures c.curr >= shotNum ==> r.curr == (if c.shot > BURST_COOLDOWN then 0 else c.curr)
    ensures c.shot == 0 ==> r == c
    ensures c.curr < shotNum && 0 < c.shot <= BurstGap(shotNum) ==> r.shot == c.shot + 1
    ensures c.curr < shotNum && c.shot > BurstGap(shotNum) ==> r.shot == 0
    ensures c.curr >= shotNum && 0 < c.shot <= BURST_COOLDOWN ==> r.shot == c.shot + 1
    ensures c.curr >= shotNum && c.shot > BURST_COOLDOWN ==> r.shot == 0
  {
    if c.curr < shotNum then
      var g := BurstGap(shotNum);
      if c.shot > g then c.(shot := 0)
      else if c.shot != 0 && c.shot <= g then c.(shot := c.shot + 1)
      else c
    else
      if c.shot > BURST_COOLDOWN then Counters(0, 0)
      else if c.shot != 0 && c.shot <= BURST_COOLDOWN then c.(shot := c.shot + 1)
      else c
  }

  /** The tick ends in a shot. */
  predicate Fires(c: Counters, shotNum: BurstSize)
  {
    Cooldown(c, shotNum).shot == 0
  }

  /** Counters after one whole tick: the cooldown update, then the shot. */
  function Advance(c: Counters, shotNum: BurstSize): (r: Counters)
    ensures Fires(c, shotNum) ==> r == Counters(1, Cooldown(c, shotNum).curr + 1)
    ensures !Fires(c, shotNum) ==> r == Cooldown(c, shotNum)
    ensures r.shot != 0
    ensures CountersInRange(c, shotNum) ==> CountersInRange(r, shotNum)
  {
    var c1 := Cooldown(c, shotNum);
    if c1.shot == 0 then Counters(1, c1.curr + 1) else c1
  }

  // ------------------------------------------------------------- a tick

  /** One frame: cooldown update and sprite, drift down 1.5 pixels with the
      hitbox following at (x + 54, y + 40), then at most one shot, 10 pixels
      above the enemy, moving down. */
  function Tick(e: EnemyState, t: Traits): (r: Effect)
    ensures var c := Counters(e.shotCounter, e.currShots);
      Counters(r.state.shotCounter, r.state.currShots) == Advance(c, t.shotNum) &&
      (r.fired != [] <==> Fires(c, t.shotNum))
    ensures r.state.y == e.y + DRIFT
    ensures r.state.x == e.x && r.state.health == e.health
    ensures r.state.hitbox == e.hitbox.MovedTo(e.x + 54.0, r.state.y + 40.0)
    ensures |r.fired| <= 1
    ensures r.fired != [] ==>
      r.fired == [Beam(e.x, r.state.y - 10.0, BEAM_VELOCITY, t.beam)] &&
      r.state.image == t.swing && r.state.shotCounter == 1
    ensures r.state.shotCounter != 0
    ensures r.fired == [] ==>
      r.state.image == (if (e.currShots < t.shotNum && r.state.shotCounter > BURST_SWING_FRAMES) ||
                           (e.currShots >= t.shotNum && r.state.shotCounter > COOLDOWN_SWING_FRAMES)
                        then t.idle else e.image)
    ensures e.currShots >= t.shotNum && e.shotCounter > BURST_COOLDOWN ==>
      r.fired != [] && r.state.currShots == 1
    ensures CountersInRange(Counters(e.shotCounter, e.currShots), t.shotNum) ==>
      CountersInRange(Counters(r.state.shotCounter, r.state.currShots), t.shotNum)
  {
    var inBurst := e.currShots < t.shotNum;
    var c1 := Cooldown(Counters(e.shotCounter, e.currShots), t.shotNum);
    var image1 :=
      if (inBurst && c1.shot > BURST_SWING_FRAMES) || (!inBurst && c1.shot > COOLDOWN_SWING_FRAMES)
      then t.idle else e.image;
    var y1 := e.y + DRIFT;
    var moved := e.(y := y1, hitbox := e.hitbox.MovedTo(e.x + 54.0, y1 + 40.0));
    if c1.shot == 0 then
      Effect(moved.(image := t.swing, shotCounter := 1, currShots := c1.curr + 1),
             [Beam(e.x, y1 - 10.0, BEAM_VELOCITY, t.beam)])
    else
      Effect(moved.(image := image1, shotCounter := c1.shot, currShots := c1.curr), [])
  }

  // ---------------------------------------------------------- timelines

  /** Counters after n ticks. */
  function AdvanceN(c: Counters, shotNum: BurstSize, n: nat): Counters
    decreases n
  {
    if n == 0 then c else AdvanceN(Advance(c, shotNum), shotNum, n - 1)
  }

  /** Shots fired during n ticks. */
  function ShotsIn(c: Counters, shotNum: BurstSize, n: nat): nat
    decreases n
  {
    if n == 0 then 0
    else (if Fires(c, shotNum) then 1 else 0) + ShotsIn(Advance(c, shotNum), shotNum, n - 1)
  }

  /** m ticks followed by n ticks are m + n ticks. */
  lemma {:induction false} AdvanceNAdd(c: Counters, shotNum: BurstSize, m: nat, n: nat)
    ensures AdvanceN(c, shotNum, m + n) == AdvanceN(AdvanceN(c, shotNum, m), shotNum, n)
    ensures ShotsIn(c, shotNum, m + n) == ShotsIn(c, shotNum, m) + ShotsIn(AdvanceN(c, shotNum, m), shotNum, n)
    decreases m
  {
    if m > 0 {
      AdvanceNAdd(Advance(c, shotNum), shotNum, m - 1, n);
    }
  }

  /** Inside a burst the counter climbs silently up to one past the gap. */
  lemma {:induction false} QuietInBurst(s: int, k: int, shotNum: BurstSize, j: nat)
    requires 0 <= k < shotNum
    requires 1 <= s && s + j <= BurstGap(shotNum) + 1
    ensures AdvanceN(Counters(s, k), shotNum, j) == Counters(s + j, k)
    ensures ShotsIn(Counters(s, k), shotNum, j) == 0
    decreases j
  {
    if j > 0 {
      QuietInBurst(s + 1, k, shotNum, j - 1);
    }
  }

  /** During the cooldown the counter climbs silently up to 121. */
  lemma {:induction false} QuietInCooldown(s: int, shotNum: BurstSize, j: nat)
    requires 1 <= s && s + j <= BURST_COOLDOWN + 1
    ensures AdvanceN(Counters(s, shotNum), shotNum, j) == Counters(s + j, shotNum)
    ensures ShotsIn(Counters(s, shotNum), shotNum, j) == 0
    decreases j
  {
    if j > 0 {
      QuietInCooldown(s + 1, shotNum, j - 1);
    }
  }

  /** Two shots of one burst are BurstGap + 1 frames apart (61, 31 or 21). */
  lemma BurstSpacing(k: int, shotNum: BurstSize)
    requires 1 <= k < shotNum
    ensures AdvanceN(Counters(1, k), shotNum, BurstGap(shotNum) + 1) == Counters(1, k + 1)
    ensures ShotsIn(Counters(1, k), shotNum, BurstGap(shotNum)) == 0
    ensures ShotsIn(Counters(1, k), shotNum, BurstGap(shotNum) + 1) == 1
  {
    var g := BurstGap(shotNum);
    QuietInBurst(1, k, shotNum, g);
    AdvanceNAdd(Counters(1, k), shotNum, g, 1);
  }

  /** The last shot of a burst is followed by 120 silent frames; the 121st
      frame resets the fired count and opens the next burst with a shot. */
  lemma CooldownSpacing(shotNum: BurstSize)
    ensures AdvanceN(Counters(1, shotNum), shotNum, BURST_COOLDOWN + 1) == Counters(1, 1)
    ensures ShotsIn(Counters(1, shotNum), shotNum, BURST_COOLDOWN) == 0
    ensures ShotsIn(Counters(1, shotNum), shotNum, BURST_COOLDOWN + 1) == 1
  {
    QuietInCooldown(1, shotNum, BURST_COOLDOWN);
    AdvanceNAdd(Counters(1, shotNum), shotNum, BURST_COOLDOWN, 1);
  }

  /** Frames from the k-th shot of a burst to the first shot of the next. */
  function CycleLength(k: int, shotNum: BurstSize): nat
    requires 1 <= k <= shotNum
    decreases shotNum - k
  {
    if k == shotNum then BURST_COOLDOWN + 1 else BurstGap(shotNum) + 1 + CycleLength(k + 1, shotNum)
  }

  /** That is (shotNum - k) in-burst gaps of BurstGap + 1 frames and one
      cooldown of 121 frames. */
  lemma {:induction false} CycleLengthIs(k: int, shotNum: BurstSize)
    requires 1 <= k <= shotNum
    ensures CycleLength(k, shotNum) == (shotNum - k) * (BurstGap(shotNum) + 1) + BURST_COOLDOWN + 1
    decreases shotNum - k
  {
    if k < shotNum {
      CycleLengthIs(k + 1, shotNum);
      var d := shotNum - k - 1;
      assert (d + 1) * (BurstGap(shotNum) + 1) == d * (BurstGap(shotNum) + 1) + (BurstGap(shotNum) + 1);
    }
  }

  /** From the k-th shot of a burst the machine returns to "first shot just
      fired" after CycleLength frames, having fired the rest of the burst and
      the next burst's first shot. */
  lemma {:induction false} BurstCycle(k: int, shotNum: BurstSize)
    requires 1 <= k <= shotNum
    ensures AdvanceN(Counters(1, k), shotNum, CycleLength(k, shotNum)) == Counters(1, 1)
    ensures ShotsIn(Counters(1, k), shotNum, CycleLength(k, shotNum)) == shotNum - k + 1
    decreases shotNum - k
  {
    if k == shotNum {
      CooldownSpacing(shotNum);
    } else {
      var g := BurstGap(shotNum);
      BurstSpacing(k, shotNum);
      BurstCycle(k + 1, shotNum);
      AdvanceNAdd(Counters(1, k), shotNum, g + 1, CycleLength(k + 1, shotNum));
    }
  }

  /** Per tier: green fires 1 shot every 121 frames, yellow 2 every 152,
      red 3 every 163. */
  lemma TierPeriods()
    ensures AdvanceN(Counters(1, 1), 1, 121) == Counters(1, 1) && ShotsIn(Counters(1, 1), 1, 121) == 1
    ensures AdvanceN(Counters(1, 1), 2, 152) == Counters(1, 1) && ShotsIn(Counters(1, 1), 2, 152) == 2
    ensures AdvanceN(Counters(1, 1), 3, 163) == Counters(1, 1) && ShotsIn(Counters(1, 1), 3, 163) == 3
  {
    BurstCycle(1, 1);
    BurstCycle(1, 2);
    BurstCycle(1, 3);
    assert CycleLength(1, 2) == 152 && CycleLength(1, 3) == 163;
  }

  /** A spawn draw of counter 0 with a full burst count fires at once
      without resetting the count, so the burst count reaches shotNum + 1. */
  lemma ExtraShotAtSpawn(shotNum: BurstSize)
    ensures Fires(Counters(0, shotNum), shotNum)
    ensures Advance(Counters(0, shotNum), shotNum) == Counters(1, shotNum + 1)
  {
  }

  // ------------------------------------------------------------- drift

  /** The enemy after n ticks. */
  function TickN(e: EnemyState, t: Traits, n: nat): EnemyState
    decreases n
  {
    if n == 0 then e else Tick(TickN(e, t, n - 1), t).state
  }

  /** An enemy drifts 1.5 pixels down per frame and never moves sideways;
      ticking alone never changes its health. */
  lemma {:induction false} DriftAfter(e: EnemyState, t: Traits, n: nat)
    ensures TickN(e, t, n).y == e.y + n as real * DRIFT
    ensures TickN(e, t, n).x == e.x && TickN(e, t, n).health == e.health
    decreases n
  {
    if n > 0 {
      DriftAfter(e, t, n - 1);
    }
  }

  /** Below the bottom edge: the game loop removes such an enemy and the
      player loses a point of health (lines 382-384). */
  predicate Escaped(e: EnemyState) {
    e.y > HEIGHT as real
  }

  /** An enemy spawned at a height in -2000..-50 stays on the field for at
      least 566 frames and has escaped after 1867 frames unless destroyed. */
  lemma EscapeWindow(e: EnemyState, t: Traits)
    requires -2000.0 <= e.y <= -50.0
    ensures !Escaped(TickN(e, t, 566))
    ensures Escaped(TickN(e, t, 1867))
  {
    DriftAfter(e, t, 566);
    assert 566 as real * DRIFT == 849.0;
    DriftAfter(e, t, 1867);
    assert 1867 as real * DRIFT == 2800.5;
  }

  // ------------------------------------------------- the whole wave ticks

  /** Every enemy of a wave after one tick each (line 381). */
  function TickAll(ss: seq<EnemyState>, ts: seq<Traits>): (r: seq<EnemyState>)
    requires |ss| == |ts|
    ensures |r| == |ss|
    ensures forall k :: 0 <= k < |ss| ==> r[k] == Tick(ss[k], ts[k]).state
    decreases |ss|
  {
    if ss == [] then []
    else
      var n := |ss| - 1;
      TickAll(ss[..n], ts[..n]) + [Tick(ss[n], ts[n]).state]
  }

  /** The beams the wave fires in that tick, in list order. */
  function Volley(ss: seq<EnemyState>, ts: seq<Traits>): (r: seq<Beam>)
    requires |ss| == |ts|
    ensures |r| <= |ss|
    ensures forall b :: b in r ==> b.vel == BEAM_VELOCITY
    decreases |ss|
  {
    if ss == [] then []
    else
      var n := |ss| - 1;
      Volley(ss[..n], ts[..n]) + Tick(ss[n], ts[n]).fired
  }

  /** How many enemies of a wave are below the bottom edge. */
  function EscapeCount(ss: seq<EnemyState>): (n: nat)
    ensures n <= |ss|
    decreases |ss|
  {
    if ss == [] then 0
    else EscapeCount(ss[..|ss| - 1]) + (if Escaped(ss[|ss| - 1]) then 1 else 0)
  }

  /** The positions of the enemies of a wave still on the field, ascending. */
  function FieldIndices(ss: seq<EnemyState>): (f: seq<int>)
    ensures |f| == |ss| - EscapeCount(ss)
    ensures forall m :: 0 <= m < |f| ==> 0 <= f[m] < |ss| && !Escaped(ss[f[m]])
    ensures forall a, b :: 0 <= a < b < |f| ==> f[a] < f[b]
    ensures forall k :: 0 <= k < |ss| && !Escaped(ss[k]) ==> k in f
    decreases |ss|
  {
    if ss == [] then []
    else
      var n := |ss| - 1;
      FieldIndices(ss[..n]) + (if Escaped(ss[n]) then [] else [n])
  }

  /** The entries of xs whose enemy in ss is still on the field, in order
      (lines 382-383 remove the others). */
  function KeepOnField<T(==)>(xs: seq<T>, ss: seq<EnemyState>): (r: seq<T>)
    requires |xs| == |ss|
    ensures |r| == |xs| - EscapeCount(ss)
    ensures forall m :: 0 <= m < |r| ==> r[m] in xs
    ensures forall k :: 0 <= k < |xs| && !Escaped(ss[k]) ==> xs[k] in r
    ensures (forall a, b :: 0 <= a < |xs| && 0 <= b < |xs| && a != b ==> xs[a] != xs[b]) ==>
            (forall a, b :: 0 <= a < |r| && 0 <= b < |r| && a != b ==> r[a] != r[b])
    decreases |xs|
  {
    if xs == [] then []
    else
      var n := |xs| - 1;
      assert ss[..n] == ss[..|ss| - 1];
      KeepOnField(xs[..n], ss[..n]) + (if Escaped(ss[n]) then [] else [xs[n]])
  }

  /** KeepOnField keeps the order of xs: its m-th entry is the entry of xs
      at the m-th position still on the field. */
  lemma {:induction false} KeepOnFieldOrder<T>(xs: seq<T>, ss: seq<EnemyState>)
    requires |xs| == |ss|
    ensures |KeepOnField(xs, ss)| == |FieldIndices(ss)|
    ensures forall m :: 0 <= m < |FieldIndices(ss)| ==> KeepOnField(xs, ss)[m] == xs[FieldIndices(ss)[m]]
    decreases |xs|
  {
    if xs != [] {
      var n := |xs| - 1;
      KeepOnFieldOrder(xs[..n], ss[..n]);
    }
  }

  /** One more enemy ticked: the wave's functions extend by that enemy. */
  lemma WaveStep(ss: seq<EnemyState>, ts: seq<Traits>, i: nat)
    requires |ss| == |ts|
    requires i < |ss|
    ensures Volley(ss[..i + 1], ts[..i + 1]) == Volley(ss[..i], ts[..i]) + Tick(ss[i], ts[i]).fired
  {
    assert ss[..i + 1][..i] == ss[..i] && ts[..i + 1][..i] == ts[..i];
  }

  lemma FieldStep<T>(xs: seq<T>, ss: seq<EnemyState>, i: nat)
    requires |xs| == |ss| && i < |ss|
    ensures EscapeCount(ss[..i + 1]) == EscapeCount(ss[..i]) + (if Escaped(ss[i]) then 1 else 0)
    ensures KeepOnField(xs[..i + 1], ss[..i + 1]) ==
      KeepOnField(xs[..i], ss[..i]) + (if Escaped(ss[i]) then [] else [xs[i]])
  {
    assert ss[..i + 1][..i] == ss[..i] && xs[..i + 1][..i] == xs[..i];
  }

  /** Once below the bottom edge, an enemy stays there for any number of
      ticks: it only drifts down. */
  lemma {:induction false} EscapedStays(e: EnemyState, t: Traits, n: nat)
    requires Escaped(e)
    ensures Escaped(TickN(e, t, n))
    decreases n
  {
    if n > 0 {
      EscapedStays(e, t, n - 1);
    }
  }
}
