/** The play area, sprites, hitboxes and blade beams of Space Swordsman.
    Positions are exact reals: the player starts at WIDTH/2 - w/2 and enemies
    drift by 1.5 pixels per frame, both non-integral in the Python game. */
module Geometry {

  /** The window is WIDTH x HEIGHT pixels; y grows downwards. */
  const WIDTH: int := 800
  const HEIGHT: int := 800

  datatype ImageId =
    | PlayerIdle | PlayerSwing | PlayerParry1 | PlayerParry2
    | GreenIdle | GreenSwing | YellowIdle | YellowSwing | RedIdle | RedSwing
    | PlayerBeamImage | EnemyBeamImage

  /** A loaded sprite: which picture it is and its size in pixels. */
  datatype Image = Image(id: ImageId, width: nat, height: nat)

  /** The sprites loaded at start-up; their sizes come from the image files. */
  datatype Assets = Assets(
    playerIdle: Image, playerSwing: Image, playerParry1: Image, playerParry2: Image,
    greenIdle: Image, greenSwing: Image, yellowIdle: Image, yellowSwing: Image,
    redIdle: Image, redSwing: Image,
    playerBeam: Image, enemyBeam: Image)

  /** A rectangle whose collision mask is `length` x `width` pixels, all set.
      Its owner repositions it; its size never changes. */
  datatype Hitbox = Hitbox(x: real, y: real, length: nat, width: nat) {
    function MovedTo(nx: real, ny: real): (r: Hitbox)
      ensures r.x == nx && r.y == ny
      ensures r.length == length && r.width == width
    {
      this.(x := nx, y := ny)
    }
  }

  /** A blade beam. A positive velocity moves it up the screen (player beams
      use 10), a negative one down (enemy beams use -9). */
  datatype Beam = Beam(x: real, y: real, vel: int, image: Image) {

    /** One frame of flight: only the height changes, by the velocity. */
    function Moved(): (r: Beam)
      ensures r.x == x && r.vel == vel && r.image == image
      ensures r.y + vel as real == y
    {
      this.(y := y - vel as real)
    }

    /** Wholly above the top edge, or below the bottom edge. */
    predicate Offscreen(): (r: bool)
      ensures 0.0 <= y <= HEIGHT as real ==> !r
      ensures r ==> y < 0.0 || y > HEIGHT as real
    {
      y + image.height as real < 0.0 || y > HEIGHT as real
    }
  }

  /** Pixel-mask overlap of a beam with a hitbox. The masks come from image
      files, so the test is a parameter of the model. */
  type Collider = (Beam, Hitbox) -> bool

  /** The beam after n frames of flight. */
  function MovedN(b: Beam, n: nat): Beam
    decreases n
  {
    if n == 0 then b else MovedN(b, n - 1).Moved()
  }

  /** n frames of flight move a beam by n times its velocity and change nothing else. */
  lemma {:induction false} MovedNShift(b: Beam, n: nat)
    ensures MovedN(b, n) == b.(y := b.y - (n * b.vel) as real)
    decreases n
  {
    if n > 0 {
      MovedNShift(b, n - 1);
      assert (n - 1) * b.vel + b.vel == n * b.vel;
    }
  }

  /** A player beam (moving up) that has flown further than its start height
      plus its own height is above the screen. */
  lemma PlayerBeamLeaves(b: Beam, n: nat)
    requires b.vel > 0
    requires (n * b.vel) as real > b.y + b.image.height as real
    ensures MovedN(b, n).Offscreen()
  {
    MovedNShift(b, n);
  }

  /** An enemy beam (moving down) that has flown further than its distance
      to the bottom edge is below the screen. */
  lemma EnemyBeamLeaves(b: Beam, n: nat)
    requires b.vel < 0
    requires (n * -b.vel) as real > HEIGHT as real - b.y
    ensures MovedN(b, n).Offscreen()
  {
    MovedNShift(b, n);
    assert (n * -b.vel) == -(n * b.vel);
  }

  /** Converse of PlayerBeamLeaves: a player beam that starts on screen and
      has flown no further than its start height plus its own height is still
      on screen. */
  lemma PlayerBeamStaysOn(b: Beam, n: nat)
    requires b.vel > 0 && 0.0 <= b.y <= HEIGHT as real
    requires (n * b.vel) as real <= b.y + b.image.height as real
    ensures !MovedN(b, n).Offscreen()
  {
    MovedNShift(b, n);
  }

  /** Converse of EnemyBeamLeaves: an enemy beam that starts on screen and has
      flown no further than its distance to the bottom edge is still on
      screen. */
  lemma EnemyBeamStaysOn(b: Beam, n: nat)
    requires b.vel < 0 && 0.0 <= b.y <= HEIGHT as real
    requires (n * -b.vel) as real <= HEIGHT as real - b.y
    ensures !MovedN(b, n).Offscreen()
  {
    MovedNShift(b, n);
    assert (n * -b.vel) == -(n * b.vel);
  }

  /** Offscreen depends only on the edge the beam has passed, not on where it
      is heading: a beam past the top edge stays offscreen while it rises,
      a beam past the bottom edge while it falls. */
  lemma {:induction false} OffscreenStaysOffscreen(b: Beam, n: nat)
    requires (b.vel >= 0 && b.y + b.image.height as real < 0.0) || (b.vel <= 0 && b.y > HEIGHT as real)
    ensures MovedN(b, n).Offscreen()
  {
    MovedNShift(b, n);
    assert n * b.vel >= 0 <==> b.vel >= 0 || n == 0;
  }
}
