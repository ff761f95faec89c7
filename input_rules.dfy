/** What one frame of player input does to the player (lines 357-374 of
    game_loop): first the event queue, where a quit event ends the queue
    and each left-shift key press asks for a parry; then the keys held
    down, where left wins over right and space swings the sword. */
module InputRules {
  import opened Geometry
  import PR = PlayerRules

  datatype Key = LeftShift | OtherKey

  /** The events polled this frame; other kinds do nothing. */
  datatype Event = QuitEvent | KeyDown(key: Key) | OtherEvent

  /** The keys held down this frame. */
  datatype Keys = Keys(left: bool, right: bool, space: bool)

  /** The player after the queue, and whether a quit event was seen. */
  datatype Polled = Polled(player: PR.PlayerState, quit: bool)

  /** The queue from the i-th event on. */
  function PollFrom(evs: seq<Event>, i: nat, p: PR.PlayerState, a: Assets): (r: Polled)
    requires i <= |evs|
    ensures r.player == p || r.player == PR.Parry(p, a)
    ensures r.quit <==> exists k :: i <= k < |evs| && evs[k] == QuitEvent
    decreases |evs| - i
  {
    if i == |evs| then Polled(p, false)
    else match evs[i]
      case QuitEvent => Polled(p, true)
      case KeyDown(LeftShift) => PollFrom(evs, i + 1, PR.Parry(p, a), a)
      case _ => PollFrom(evs, i + 1, p, a)
  }

  /** The position of the first quit event from i on, or |evs|. */
  function FirstQuit(evs: seq<Event>, i: nat): (q: nat)
    requires i <= |evs|
    ensures i <= q <= |evs|
    ensures forall k :: i <= k < q ==> evs[k] != QuitEvent
    ensures q < |evs| ==> evs[q] == QuitEvent
    decreases |evs| - i
  {
    if i == |evs| || evs[i] == QuitEvent then i else FirstQuit(evs, i + 1)
  }

  /** A left-shift press at a position in i..q-1. */
  predicate ParryPressed(evs: seq<Event>, i: nat, q: nat) {
    exists k :: i <= k < q && k < |evs| && evs[k] == KeyDown(LeftShift)
  }

  /** The queue's meaning: the player parries once if left shift was
      pressed before the first quit event, however often it was pressed;
      presses after a quit are never seen; the quit flag says whether the
      queue held a quit event. */
  lemma {:induction false} PollMeaning(evs: seq<Event>, i: nat, p: PR.PlayerState, a: Assets)
    requires i <= |evs|
    ensures var q := FirstQuit(evs, i);
      PollFrom(evs, i, p, a) == Polled(if ParryPressed(evs, i, q) then PR.Parry(p, a) else p, q < |evs|)
    decreases |evs| - i
  {
    if i < |evs| && evs[i] != QuitEvent {
      var q := FirstQuit(evs, i);
      assert q == FirstQuit(evs, i + 1);
      if evs[i] == KeyDown(LeftShift) {
        PollMeaning(evs, i + 1, PR.Parry(p, a), a);
        assert ParryPressed(evs, i, q);
      } else {
        PollMeaning(evs, i + 1, p, a);
        if ParryPressed(evs, i, q) {
          var k :| i <= k < q && k < |evs| && evs[k] == KeyDown(LeftShift);
          assert k != i;
          assert ParryPressed(evs, i + 1, q);
        }
        if ParryPressed(evs, i + 1, q) {
          var k :| i + 1 <= k < q && k < |evs| && evs[k] == KeyDown(LeftShift);
          assert ParryPressed(evs, i, q);
        }
      }
    }
  }

  /** The held keys (lines 368-374): a step left, else a step right, then a
      swing from wherever the step ended. */
  function Steer(p: PR.PlayerState, k: Keys, a: Assets): (r: PR.Effect)
    ensures k.left ==> r.state.x <= p.x
    ensures !k.left && k.right ==> r.state.x >= p.x
    ensures !k.left && !k.right ==> r.state.x == p.x
    ensures k.left ==> (r.state.x == p.x - PR.MOVE_VELOCITY as real <==>
                        p.parryCounter == 0 && p.x - PR.MOVE_VELOCITY as real > 0.0)
    ensures !k.left && k.right ==>
      (r.state.x == p.x + PR.MOVE_VELOCITY as real <==>
       p.parryCounter == 0 && p.x + p.image.width as real + PR.MOVE_VELOCITY as real < WIDTH as real)
    ensures r.state.x == p.x || r.state.x == p.x + PR.MOVE_VELOCITY as real || r.state.x == p.x - PR.MOVE_VELOCITY as real
    ensures r.state.y == p.y && r.state.health == p.health
    ensures |r.fired| <= 1 && (r.fired != [] <==> k.space && PR.CanShoot(p))
    ensures k.space && PR.CanShoot(p) ==>
      r.fired == [Beam(r.state.x, p.y - 10.0, PR.BEAM_VELOCITY, a.playerBeam)]
    ensures PR.CountersInRange(p) ==> PR.CountersInRange(r.state)
    // The whole new state: a step moves x and the hitbox, a shot shows the
    // swing sprite and starts the shot counter at 1.
    ensures var moved := if k.left then PR.Move(p, false)
                         else if k.right then PR.Move(p, true) else p;
      r.state == (if k.space && PR.CanShoot(p)
                  then moved.(image := a.playerSwing, shotCounter := 1)
                  else moved)
  {
    var moved := if k.left then PR.Move(p, false) else if k.right then PR.Move(p, true) else p;
    if k.space then PR.Shoot(moved, a) else PR.Effect(moved, [])
  }
}
