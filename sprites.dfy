/** The three sprites the engine drives.  ship.py, bullet.py and alien.py are
    not part of this model; their behaviour is stated here on integer
    rectangles, as the engine uses it: the ship steers along the bottom edge,
    a bullet leaves the ship's nose and climbs, an alien moves sideways and
    reports when it touches a side of the screen. */
module Sprites {
  import opened Geometry
  import opened Tuning

  /** The ship's rectangle for a given left edge: it always sits on the bottom
      of the screen. */
  function ShipRect(c: Config, x: int): (r: Rect)
    ensures r.Left() == x && r.Bottom() == c.screenHeight
    ensures r.width == c.shipWidth && r.height == c.shipHeight
  {
    Rect(x, c.screenHeight - c.shipHeight, c.shipWidth, c.shipHeight)
  }

  /** center_ship: the ship's midbottom goes to the screen's midbottom. */
  function CenteredX(c: Config): (x: int)
    requires c.Valid()
    ensures ShipRect(c, x).Left() + c.shipWidth / 2 == c.screenWidth / 2
  {
    c.screenWidth / 2 - c.shipWidth / 2
  }

  /** Ship.update: each flag moves the ship by its speed while the ship has
      not reached that side; both tests look at the position before the move. */
  function Steered(c: Config, x: int, movingRight: bool, movingLeft: bool): (r: int)
    ensures movingRight && !movingLeft ==> r == if ShipRect(c, x).Right() < c.screenWidth then x + c.shipSpeed else x
    ensures movingLeft && !movingRight ==> r == if ShipRect(c, x).Left() > 0 then x - c.shipSpeed else x
    ensures !movingRight && !movingLeft ==> r == x
    ensures movingRight && movingLeft && 0 < x && x + c.shipWidth < c.screenWidth ==> r == x
    ensures movingRight && movingLeft && x <= 0 && x + c.shipWidth < c.screenWidth ==> r == x + c.shipSpeed
    ensures movingRight && movingLeft && 0 < x && x + c.shipWidth >= c.screenWidth ==> r == x - c.shipSpeed
    ensures movingRight && movingLeft && x <= 0 && x + c.shipWidth >= c.screenWidth ==> r == x
  {
    var right := if movingRight && ShipRect(c, x).Right() < c.screenWidth then c.shipSpeed else 0;
    var left := if movingLeft && ShipRect(c, x).Left() > 0 then c.shipSpeed else 0;
    x + right - left
  }

  /** A new bullet: its midtop is the ship's midtop. */
  function NewBullet(c: Config, shipX: int): (b: Rect)
    ensures b.width == c.bulletWidth && b.height == c.bulletHeight
    ensures b.Top() == ShipRect(c, shipX).Top()
    ensures b.Left() + b.width / 2 == ShipRect(c, shipX).Left() + c.shipWidth / 2
  {
    Rect(shipX + c.shipWidth / 2 - c.bulletWidth / 2, c.screenHeight - c.shipHeight, c.bulletWidth, c.bulletHeight)
  }

  /** Bullet.update: the bullet climbs by its speed. */
  function Climbed(c: Config, b: Rect): (r: Rect)
    ensures r.Top() == b.Top() - c.bulletSpeed && r.Left() == b.Left()
    ensures r.width == b.width && r.height == b.height
  {
    b.Moved(0, 0 - c.bulletSpeed)
  }

  /** Alien.check_edges: the alien touches or passes the right or the left
      side of the screen. */
  predicate AtEdge(c: Config, a: Rect) {
    a.Right() >= c.screenWidth || a.Left() <= 0
  }

  /** Alien.update: the alien moves sideways by its speed in the fleet's direction. */
  function Marched(c: Config, direction: int, a: Rect): (r: Rect)
    ensures r.Left() == a.Left() + direction * c.alienSpeed && r.Top() == a.Top()
    ensures r.width == a.width && r.height == a.height
  {
    a.Moved(direction * c.alienSpeed, 0)
  }

  /** The ship: a position along the bottom edge and two steering flags. */
  class Ship {
    const settings: Settings
    var x: int
    var movingRight: bool
    var movingLeft: bool

    /** A new ship is centred and not moving. */
    constructor (settings: Settings)
      requires settings.fixed.Valid()
      ensures this.settings == settings
      ensures x == CenteredX(settings.fixed) && !movingRight && !movingLeft
    {
      this.settings := settings;
      x := CenteredX(settings.fixed);
      movingRight, movingLeft := false, false;
    }

    /** Ship.update: steer by the flags, within the screen. */
    method Update()
      modifies this
      ensures x == Steered(settings.fixed, old(x), movingRight, movingLeft)
      ensures movingRight == old(movingRight) && movingLeft == old(movingLeft)
    {
      var c := settings.fixed;
      var newX := x;
      if movingRight && x + c.shipWidth < c.screenWidth {
        newX := newX + c.shipSpeed;
      }
      if movingLeft && x > 0 {
        newX := newX - c.shipSpeed;
      }
      x := newX;
    }

    /** Ship.center_ship. */
    method CenterShip()
      requires settings.fixed.Valid()
      modifies this
      ensures x == CenteredX(settings.fixed)
      ensures movingRight == old(movingRight) && movingLeft == old(movingLeft)
    {
      x := CenteredX(settings.fixed);
    }
  }
}
