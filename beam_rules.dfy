/** What one tick of the beam handler does, as functions of the beams, the
    enemies' hitboxes and health, and the player's state. The BeamHandler
    class in module Game is proved to follow these rules. */
module BeamRules {
  import opened Geometry
  import PR = PlayerRules

  /** An enemy as the player-beam pass sees it: its position in the enemy
      list when the pass began, its hitbox and its health. */
  datatype Target = Target(id: nat, hitbox: Hitbox, health: int)

  /** A pass either finishes or stops because list.remove was asked to remove
      a beam that was already removed (Python raises ValueError). */
  datatype Result<T> = Ok(value: T) | Crash

  /** The beam's mask overlaps the target's. */
  predicate Hits(collide: Collider, b: Beam, t: Target) {
    collide(b, t.hitbox)
  }

  /** Some target at position j or later is hit. */
  predicate HitsSome(collide: Collider, b: Beam, ts: seq<Target>, j: nat) {
    exists m :: j <= m < |ts| && Hits(collide, b, ts[m])
  }

  function TotalHealth(ts: seq<Target>): int
    decreases |ts|
  {
    if ts == [] then 0 else ts[0].health + TotalHealth(ts[1..])
  }

  predicate AllAlive(ts: seq<Target>) {
    forall k :: 0 <= k < |ts| ==> ts[k].health >= 1
  }

  /** Targets appear in the order they had in the enemy list. */
  predicate IdsAscending(ts: seq<Target>) {
    forall k, m :: 0 <= k < m < |ts| ==> ts[k].id < ts[m].id
  }

  // ------------------------------------------- one beam against the enemies

  /** What is left of the enemy list after a beam that is still on screen has
      been checked against every enemy from position j on (lines 111-117).
      `removed` says the beam has already been taken out of the beam list.
      A hit removes the beam and costs the enemy one point; an enemy whose
      health is then exactly 0 leaves the list and the scan stops. After a
      hit that does not kill, the scan goes on, and a second hit asks to
      remove the beam again. */
  datatype Scan = Scan(beamRemoved: bool, targets: seq<Target>)

  function ScanFrom(b: Beam, ts: seq<Target>, j: nat, removed: bool, collide: Collider): (r: Result<Scan>)
    requires j <= |ts|
    ensures r.Ok? ==> (removed ==> r.value.beamRemoved) && |ts| - 1 <= |r.value.targets| <= |ts|
    ensures r.Ok? && !r.value.beamRemoved ==> r.value.targets == ts
    decreases |ts| - j
  {
    if j == |ts| then Ok(Scan(removed, ts))
    else if !Hits(collide, b, ts[j]) then ScanFrom(b, ts, j + 1, removed, collide)
    else if removed then Crash
    else if ts[j].health - 1 == 0 then Ok(Scan(true, ts[..j] + ts[j + 1..]))
    else ScanFrom(b, ts[j := ts[j].(health := ts[j].health - 1)], j + 1, true, collide)
  }

  /** The position of the first target from j on that the beam touches, or
      |ts| when it touches none. */
  function FirstHit(collide: Collider, b: Beam, ts: seq<Target>, j: nat): (i: nat)
    requires j <= |ts|
    ensures j <= i <= |ts|
    ensures forall m :: j <= m < i ==> !Hits(collide, b, ts[m])
    ensures i < |ts| ==> Hits(collide, b, ts[i])
    ensures i == |ts| <==> !HitsSome(collide, b, ts, j)
    decreases |ts| - j
  {
    if j == |ts| || Hits(collide, b, ts[j]) then j else FirstHit(collide, b, ts, j + 1)
  }

  /** The meaning of a scan, stated without stepping through it: the first
      enemy touched loses a point and leaves the list at 0; the beam goes if
      it touched anyone; and the pass crashes exactly when the first enemy
      touched survives and the beam touches another one further on. */
  function Strike(collide: Collider, b: Beam, ts: seq<Target>, j: nat): (r: Result<Scan>)
    requires j <= |ts|
    ensures r.Crash? ==> HitsSome(collide, b, ts, j)
    ensures r.Ok? ==> (r.value.beamRemoved <==> HitsSome(collide, b, ts, j))
  {
    var i := FirstHit(collide, b, ts, j);
    if i == |ts| then Ok(Scan(false, ts))
    else if ts[i].health == 1 then Ok(Scan(true, ts[..i] + ts[i + 1..]))
    else if HitsSome(collide, b, ts, i + 1) then Crash
    else Ok(Scan(true, ts[i := ts[i].(health := ts[i].health - 1)]))
  }

  /** Once the beam has been removed, any further touch crashes. */
  lemma {:induction false} ScanAfterRemoval(b: Beam, ts: seq<Target>, j: nat, collide: Collider)
    requires j <= |ts|
    ensures ScanFrom(b, ts, j, true, collide) ==
      if HitsSome(collide, b, ts, j) then Crash else Ok(Scan(true, ts))
    decreases |ts| - j
  {
    if j < |ts| && !Hits(collide, b, ts[j]) {
      ScanAfterRemoval(b, ts, j + 1, collide);
      if HitsSome(collide, b, ts, j) {
        var m :| j <= m < |ts| && Hits(collide, b, ts[m]);
        assert m != j;
      } else {
        assert !HitsSome(collide, b, ts, j + 1);
      }
    }
  }

  /** The scan the source performs has the meaning Strike gives it. */
  lemma {:induction false} ScanIsStrike(b: Beam, ts: seq<Target>, j: nat, collide: Collider)
    requires j <= |ts|
    ensures ScanFrom(b, ts, j, false, collide) == Strike(collide, b, ts, j)
    decreases |ts| - j
  {
    if j < |ts| {
      if !Hits(collide, b, ts[j]) {
        ScanIsStrike(b, ts, j + 1, collide);
      } else if ts[j].health - 1 != 0 {
        var ts' := ts[j := ts[j].(health := ts[j].health - 1)];
        ScanAfterRemoval(b, ts', j + 1, collide);
        if HitsSome(collide, b, ts, j + 1) {
          var m :| j + 1 <= m < |ts| && Hits(collide, b, ts[m]);
          assert Hits(collide, b, ts'[m]);
        }
        if HitsSome(collide, b, ts', j + 1) {
          var m :| j + 1 <= m < |ts'| && Hits(collide, b, ts'[m]);
          assert Hits(collide, b, ts[m]);
        }
      }
    }
  }

  /** A beam that touches two enemies and does not kill the first crashes the
      game: two enemies on top of each other, the first with 2 health. */
  lemma DoubleTouchCrashes(b: Beam, h1: Hitbox, h2: Hitbox, collide: Collider)
    requires collide(b, h1) && collide(b, h2)
    ensures ScanFrom(b, [Target(0, h1, 2), Target(1, h2, 1)], 0, false, collide) == Crash
  {
    var ts := [Target(0, h1, 2), Target(1, h2, 1)];
    ScanIsStrike(b, ts, 0, collide);
    assert Hits(collide, b, ts[1]);
  }

  /** Health lost in a scan: one point if and only if the beam touched
      someone; the dead leave the list, so everyone left is alive; the order
      of the enemies is kept. */
  lemma StrikeCost(b: Beam, ts: seq<Target>, collide: Collider)
    requires Strike(collide, b, ts, 0).Ok?
    ensures var s := Strike(collide, b, ts, 0).value;
      (s.beamRemoved <==> HitsSome(collide, b, ts, 0)) &&
      TotalHealth(s.targets) == TotalHealth(ts) - (if s.beamRemoved then 1 else 0) &&
      (AllAlive(ts) ==> AllAlive(s.targets)) &&
      (IdsAscending(ts) ==> IdsAscending(s.targets)) &&
      |ts| - 1 <= |s.targets| <= |ts|
  {
    var i := FirstHit(collide, b, ts, 0);
    if i < |ts| {
      if ts[i].health == 1 {
        RemoveCost(ts, i);
      } else {
        TotalHealthUpdate(ts, i, ts[i].health - 1);
      }
    }
  }

  /** Removing the i-th enemy takes its health off the total and keeps the
      rest alive and in order. */
  lemma RemoveCost(ts: seq<Target>, i: nat)
    requires i < |ts|
    ensures var r := ts[..i] + ts[i + 1..];
      TotalHealth(r) == TotalHealth(ts) - ts[i].health &&
      (AllAlive(ts) ==> AllAlive(r)) && (IdsAscending(ts) ==> IdsAscending(r))
  {
    TotalHealthRemove(ts, i);
    if IdsAscending(ts) {
      AscendingRemove(ts, i);
    }
    if AllAlive(ts) {
      var r := ts[..i] + ts[i + 1..];
      assert forall k :: 0 <= k < |r| ==> r[k] == (if k < i then ts[k] else ts[k + 1]);
    }
  }

  lemma {:induction false} TotalHealthRemove(ts: seq<Target>, i: nat)
    requires i < |ts|
    ensures TotalHealth(ts[..i] + ts[i + 1..]) == TotalHealth(ts) - ts[i].health
    decreases i
  {
    if i > 0 {
      var r := ts[..i] + ts[i + 1..];
      assert r[0] == ts[0];
      assert r[1..] == ts[1..][..i - 1] + ts[1..][i..];
      TotalHealthRemove(ts[1..], i - 1);
    } else {
      assert ts[..0] + ts[1..] == ts[1..];
    }
  }

  lemma {:induction false} TotalHealthUpdate(ts: seq<Target>, i: nat, h: int)
    requires i < |ts|
    ensures TotalHealth(ts[i := ts[i].(health := h)]) == TotalHealth(ts) - ts[i].health + h
    decreases i
  {
    var r := ts[i := ts[i].(health := h)];
    if i > 0 {
      assert r[1..] == ts[1..][i - 1 := ts[i].(health := h)];
      TotalHealthUpdate(ts[1..], i - 1, h);
    } else {
      assert r[1..] == ts[1..];
    }
  }

  /** The health of the enemy that had position id when the pass began: its
      target's health, or 0 once it has left the list (it left at 0). */
  function HealthOf(ts: seq<Target>, id: nat): int
    decreases |ts|
  {
    if ts == [] then 0 else if ts[0].id == id then ts[0].health else HealthOf(ts[1..], id)
  }

  /** Every target names a position of the list as it was when the pass began and carries that
      enemy's hitbox. */
  predicate Agrees(ts: seq<Target>, ts0: seq<Target>) {
    forall m :: 0 <= m < |ts| ==> ts[m].id < |ts0| && ts[m].hitbox == ts0[ts[m].id].hitbox
  }

  lemma {:induction false} HealthOfAbsent(ts: seq<Target>, id: nat)
    requires forall m :: 0 <= m < |ts| ==> ts[m].id != id
    ensures HealthOf(ts, id) == 0
    decreases |ts|
  {
    if ts != [] {
      HealthOfAbsent(ts[1..], id);
    }
  }

  lemma {:induction false} HealthOfAt(ts: seq<Target>, m: nat)
    requires IdsAscending(ts) && m < |ts|
    ensures HealthOf(ts, ts[m].id) == ts[m].health
    decreases m
  {
    if m > 0 {
      HealthOfAt(ts[1..], m - 1);
    }
  }

  lemma {:induction false} HealthOfUpdate(ts: seq<Target>, j: nat, h: int, k: nat)
    requires IdsAscending(ts) && j < |ts|
    ensures HealthOf(ts[j := ts[j].(health := h)], k) == if k == ts[j].id then h else HealthOf(ts, k)
    ensures IdsAscending(ts[j := ts[j].(health := h)])
    decreases j
  {
    var r := ts[j := ts[j].(health := h)];
    if j > 0 {
      assert r[1..] == ts[1..][j - 1 := ts[j].(health := h)];
      HealthOfUpdate(ts[1..], j - 1, h, k);
    } else {
      assert r[1..] == ts[1..];
    }
  }

  /** Removing the j-th target keeps the ids ascending. */
  lemma AscendingRemove(ts: seq<Target>, j: nat)
    requires IdsAscending(ts) && j < |ts|
    ensures IdsAscending(ts[..j] + ts[j + 1..])
  {
    var r := ts[..j] + ts[j + 1..];
    assert forall m :: 0 <= m < |r| ==> r[m] == (if m < j then ts[m] else ts[m + 1]);
  }

  lemma {:induction false} HealthOfRemove(ts: seq<Target>, j: nat, k: nat)
    requires IdsAscending(ts) && j < |ts|
    ensures HealthOf(ts[..j] + ts[j + 1..], k) == if k == ts[j].id then 0 else HealthOf(ts, k)
    ensures IdsAscending(ts[..j] + ts[j + 1..])
    decreases j
  {
    AscendingRemove(ts, j);
    var r := ts[..j] + ts[j + 1..];
    if j > 0 {
      var t := ts[1..];
      HealthOfRemove(t, j - 1, k);
      assert r[0] == ts[0];
      assert r[1..] == t[..j - 1] + t[j..];
    } else {
      assert r == ts[1..];
      if k == ts[0].id {
        HealthOfAbsent(ts[1..], k);
      }
    }
  }

  // --------------------------------------------------- the player-beam pass

  /** The surviving player beams (moved) and what is left of the enemies. */
  datatype Pass = Pass(kept: seq<Beam>, targets: seq<Target>)

  /** Lines 103-117 from the i-th beam of the copy: move the beam; remove it
      if it is offscreen, otherwise scan the enemies with it. */
  function PlayerPassFrom(bs: seq<Beam>, i: nat, kept: seq<Beam>, ts: seq<Target>, collide: Collider): (r: Result<Pass>)
    requires i <= |bs|
    ensures r.Ok? ==> |kept| <= |r.value.kept| <= |kept| + (|bs| - i) && |r.value.targets| <= |ts|
    decreases |bs| - i
  {
    if i == |bs| then Ok(Pass(kept, ts))
    else
      var b := bs[i].Moved();
      if b.Offscreen() then PlayerPassFrom(bs, i + 1, kept, ts, collide)
      else match ScanFrom(b, ts, 0, false, collide)
        case Crash => Crash
        case Ok(s) => PlayerPassFrom(bs, i + 1, if s.beamRemoved then kept else kept + [b], s.targets, collide)
  }

  function PlayerPass(bs: seq<Beam>, ts: seq<Target>, collide: Collider): (r: Result<Pass>)
    ensures r.Ok? ==> |r.value.kept| <= |bs| && |r.value.targets| <= |ts|
  {
    PlayerPassFrom(bs, 0, [], ts, collide)
  }

  /** Beams that are offscreen once moved. */
  function OffscreenCount(bs: seq<Beam>): nat
    decreases |bs|
  {
    if bs == [] then 0 else (if bs[0].Moved().Offscreen() then 1 else 0) + OffscreenCount(bs[1..])
  }

  /** Every player beam is kept, leaves offscreen, or is spent on exactly one
      point of enemy health. Surviving enemies are alive and in list order. */
  lemma {:induction false} PlayerPassAccounting(bs: seq<Beam>, i: nat, kept: seq<Beam>, ts: seq<Target>, collide: Collider)
    requires i <= |bs|
    requires PlayerPassFrom(bs, i, kept, ts, collide).Ok?
    ensures var p := PlayerPassFrom(bs, i, kept, ts, collide).value;
      |kept| <= |p.kept| && p.kept[..|kept|] == kept &&
      TotalHealth(p.targets) == TotalHealth(ts) - ((|bs| - i) - (|p.kept| - |kept|) - OffscreenCount(bs[i..])) &&
      (AllAlive(ts) ==> AllAlive(p.targets)) &&
      (IdsAscending(ts) ==> IdsAscending(p.targets)) &&
      (forall k :: |kept| <= k < |p.kept| ==> !p.kept[k].Offscreen())
    decreases |bs| - i
  {
    if i < |bs| {
      assert bs[i..][0] == bs[i] && bs[i..][1..] == bs[i + 1..];
      var b := bs[i].Moved();
      if b.Offscreen() {
        PlayerPassAccounting(bs, i + 1, kept, ts, collide);
      } else {
        ScanIsStrike(b, ts, 0, collide);
        var s := ScanFrom(b, ts, 0, false, collide).value;
        StrikeCost(b, ts, collide);
        var kept' := if s.beamRemoved then kept else kept + [b];
        PlayerPassAccounting(bs, i + 1, kept', s.targets, collide);
        var p := PlayerPassFrom(bs, i + 1, kept', s.targets, collide).value;
        assert p.kept[..|kept|] == p.kept[..|kept'|][..|kept|];
      }
    }
  }

  /** The pass over the whole beam list. */
  lemma PlayerPassCost(bs: seq<Beam>, ts: seq<Target>, collide: Collider)
    requires PlayerPass(bs, ts, collide).Ok?
    ensures var p := PlayerPass(bs, ts, collide).value;
      TotalHealth(p.targets) == TotalHealth(ts) - (|bs| - |p.kept| - OffscreenCount(bs)) &&
      (AllAlive(ts) ==> AllAlive(p.targets)) &&
      (IdsAscending(ts) ==> IdsAscending(p.targets)) &&
      (forall k :: 0 <= k < |p.kept| ==> !p.kept[k].Offscreen())
  {
    PlayerPassAccounting(bs, 0, [], ts, collide);
    assert bs[0..] == bs;
  }

  /** With no enemy touched, the pass only moves the beams and drops those
      that left the screen, keeping the others in order. */
  function OnScreen(bs: seq<Beam>): (r: seq<Beam>)
    ensures |r| + OffscreenCount(bs) == |bs|
    decreases |bs|
  {
    if bs == [] then []
    else (if bs[0].Moved().Offscreen() then [] else [bs[0].Moved()]) + OnScreen(bs[1..])
  }

  lemma {:induction false} PlayerPassUntouched(bs: seq<Beam>, i: nat, kept: seq<Beam>, ts: seq<Target>, collide: Collider)
    requires i <= |bs|
    requires forall k :: i <= k < |bs| ==> !HitsSome(collide, bs[k].Moved(), ts, 0)
    ensures PlayerPassFrom(bs, i, kept, ts, collide) == Ok(Pass(kept + OnScreen(bs[i..]), ts))
    decreases |bs| - i
  {
    assert bs[i..] == [] ==> kept + OnScreen(bs[i..]) == kept;
    if i < |bs| {
      assert bs[i..][0] == bs[i] && bs[i..][1..] == bs[i + 1..];
      var b := bs[i].Moved();
      if !b.Offscreen() {
        ScanIsStrike(b, ts, 0, collide);
      }
      PlayerPassUntouched(bs, i + 1, if b.Offscreen() then kept else kept + [b], ts, collide);
      assert (if b.Offscreen() then kept else kept + [b]) + OnScreen(bs[i + 1..]) == kept + OnScreen(bs[i..]);
    }
  }

  // ---------------------------------------------------- the enemy-beam pass

  /** The surviving enemy beams (moved), the player, and the beams the
      player's parries sent back. */
  datatype Defense = Defense(kept: seq<Beam>, player: PR.PlayerState, reflected: seq<Beam>)

  /** Lines 120-130 from the i-th beam of the copy: move the beam; if it
      touches the player, the player is hit at the beam's x and the beam is
      removed; otherwise it is removed if offscreen. Collision is checked
      first. */
  function EnemyPassFrom(bs: seq<Beam>, i: nat, d: Defense, collide: Collider, a: Assets): (r: Defense)
    requires i <= |bs|
    ensures |d.kept| <= |r.kept| <= |d.kept| + (|bs| - i)
    decreases |bs| - i
  {
    if i == |bs| then d
    else
      var b := bs[i].Moved();
      if collide(b, d.player.hitbox) then
        var h := PR.Hit(d.player, b.x, a);
        EnemyPassFrom(bs, i + 1, Defense(d.kept, h.state, d.reflected + h.fired), collide, a)
      else if b.Offscreen() then EnemyPassFrom(bs, i + 1, d, collide, a)
      else EnemyPassFrom(bs, i + 1, d.(kept := d.kept + [b]), collide, a)
  }

  function EnemyPass(bs: seq<Beam>, p: PR.PlayerState, collide: Collider, a: Assets): (r: Defense)
    ensures |r.kept| <= |bs|
  {
    EnemyPassFrom(bs, 0, Defense([], p, []), collide, a)
  }

  /** The enemy beams that survive: moved, not touching the player's hitbox,
      not offscreen, in their old order. */
  function Incoming(bs: seq<Beam>, hb: Hitbox, collide: Collider): seq<Beam>
    decreases |bs|
  {
    if bs == [] then []
    else
      var b := bs[0].Moved();
      (if !collide(b, hb) && !b.Offscreen() then [b] else []) + Incoming(bs[1..], hb, collide)
  }

  /** Beams that touch the player once moved. */
  function TouchCount(bs: seq<Beam>, hb: Hitbox, collide: Collider): nat
    decreases |bs|
  {
    if bs == [] then 0 else (if collide(bs[0].Moved(), hb) then 1 else 0) + TouchCount(bs[1..], hb, collide)
  }

  /** The enemy-beam pass keeps exactly the Incoming beams, and every
      touching beam is either reflected or costs one health point; the
      beams reflected before are kept at the front. */
  lemma {:induction false} EnemyPassAccounting(bs: seq<Beam>, i: nat, d: Defense, collide: Collider, a: Assets)
    requires i <= |bs|
    ensures var r := EnemyPassFrom(bs, i, d, collide, a);
      r.kept == d.kept + Incoming(bs[i..], d.player.hitbox, collide) &&
      |d.reflected| <= |r.reflected| <= |d.reflected| + TouchCount(bs[i..], d.player.hitbox, collide) &&
      r.player.health == d.player.health - (TouchCount(bs[i..], d.player.hitbox, collide) - (|r.reflected| - |d.reflected|)) &&
      r.reflected[..|d.reflected|] == d.reflected
    decreases |bs| - i
  {
    if i == |bs| {
      assert bs[i..] == [];
    } else {
      assert bs[i..][0] == bs[i] && bs[i..][1..] == bs[i + 1..];
      var b := bs[i].Moved();
      if collide(b, d.player.hitbox) {
        var h := PR.Hit(d.player, b.x, a);
        var d' := Defense(d.kept, h.state, d.reflected + h.fired);
        EnemyPassAccounting(bs, i + 1, d', collide, a);
        var r := EnemyPassFrom(bs, i + 1, d', collide, a);
        assert r.reflected[..|d.reflected|] == r.reflected[..|d'.reflected|][..|d.reflected|];
      } else if b.Offscreen() {
        EnemyPassAccounting(bs, i + 1, d, collide, a);
      } else {
        EnemyPassAccounting(bs, i + 1, d.(kept := d.kept + [b]), collide, a);
      }
    }
  }

  /** During the enemy-beam pass at most one beam is reflected, and only if
      the parry window was open; a reflected beam leaves from the player's
      height upward; nothing but health, the counters and the sprite of the
      player changes. */
  lemma {:induction false} EnemyPassPlayer(bs: seq<Beam>, i: nat, d: Defense, collide: Collider, a: Assets)
    requires i <= |bs|
    ensures var r := EnemyPassFrom(bs, i, d, collide, a);
      |r.reflected| <= |d.reflected| + (if PR.Reflects(d.player) then 1 else 0) &&
      r.player.x == d.player.x && r.player.y == d.player.y && r.player.hitbox == d.player.hitbox &&
      (PR.CountersInRange(d.player) ==> PR.CountersInRange(r.player)) &&
      (forall k :: |d.reflected| <= k < |r.reflected| ==>
         r.reflected[k].y == d.player.y && r.reflected[k].vel == PR.BEAM_VELOCITY && r.reflected[k].image == a.playerBeam)
    decreases |bs| - i
  {
    if i < |bs| {
      var b := bs[i].Moved();
      if collide(b, d.player.hitbox) {
        var h := PR.Hit(d.player, b.x, a);
        var d' := Defense(d.kept, h.state, d.reflected + h.fired);
        EnemyPassPlayer(bs, i + 1, d', collide, a);
        EnemyPassAccounting(bs, i + 1, d', collide, a);
      } else if b.Offscreen() {
        EnemyPassPlayer(bs, i + 1, d, collide, a);
      } else {
        EnemyPassPlayer(bs, i + 1, d.(kept := d.kept + [b]), collide, a);
      }
    }
  }

  /** The pass over the whole enemy-beam list. */
  lemma EnemyPassCost(bs: seq<Beam>, p: PR.PlayerState, collide: Collider, a: Assets)
    ensures var r := EnemyPass(bs, p, collide, a);
      r.kept == Incoming(bs, p.hitbox, collide) &&
      r.player.health == p.health - (TouchCount(bs, p.hitbox, collide) - |r.reflected|) &&
      |r.reflected| <= TouchCount(bs, p.hitbox, collide) && r.player.health <= p.health &&
      |r.reflected| <= (if PR.Reflects(p) then 1 else 0) &&
      r.player.x == p.x && r.player.y == p.y && r.player.hitbox == p.hitbox &&
      (PR.CountersInRange(p) ==> PR.CountersInRange(r.player))
  {
    EnemyPassAccounting(bs, 0, Defense([], p, []), collide, a);
    EnemyPassPlayer(bs, 0, Defense([], p, []), collide, a);
    assert bs[0..] == bs;
  }

  /** A player at full health outside the parry window, struck by the only
      enemy beam, is left with 4 health and the beam is gone. */
  lemma StruckOutsideParry(bm: Beam, p: PR.PlayerState, collide: Collider, a: Assets)
    requires p.health == PR.MAX_HEALTH && p.parryCounter == 0
    requires collide(bm.Moved(), p.hitbox)
    ensures EnemyPass([bm], p, collide, a) == Defense([], p.(health := 4), [])
  {
    var h := PR.Hit(p, bm.Moved().x, a);
    assert h == PR.Effect(p.(health := 4), []);
    var bs := [bm];
    assert bs[0] == bm;
    var d1 := Defense([], h.state, [] + h.fired);
    assert EnemyPassFrom(bs, 1, d1, collide, a) == d1;
    assert EnemyPassFrom(bs, 0, Defense([], p, []), collide, a) == EnemyPassFrom(bs, 1, d1, collide, a);
  }
}
