/** The game state of AlienInvasion as one value, and each operation of
    alien_invasion.py as a function from the state before to the state after.
    The class in alien_invasion.dfy is proved against these functions; the
    lemmas at the end state what the game promises about them. */
module Engine {
  import opened Geometry
  import opened Seqs
  import opened Tuning
  import opened Stats
  import opened Sprites
  import opened Fleet
  import opened Collisions

  /** Everything a frame can change: the ship's position and flags, the two
      sprite groups, the fleet direction, the speed-up level and the statistics. */
  datatype World = World(
    shipX: int, movingRight: bool, movingLeft: bool,
    bullets: seq<Rect>, aliens: seq<Rect>,
    direction: int, speedups: nat,
    stats: Record)

  /** The keys the game reacts to; every other key is `Other`. */
  datatype Key = Right | Left | Q | Space | Other

  /** One input event, with the pointer position for a button press. */
  datatype Event = Quit | MouseDown(x: int, y: int) | KeyDown(key: Key) | KeyUp(key: Key)

  /** The state after some events, and whether the program asked to exit
      (sys.exit); nothing happens after an exit. */
  datatype Step = Step(world: World, quit: bool)

  /** The play button of button.py: 200 by 50 pixels, centred on the screen. */
  function PlayButton(c: Config): (r: Rect)
    requires c.Valid()
    ensures r.width == 200 && r.height == 50
    ensures r.Left() + r.width / 2 == c.screenWidth / 2 && r.Top() + r.height / 2 == c.screenHeight / 2
  {
    Rect(c.screenWidth / 2 - 100, c.screenHeight / 2 - 25, 200, 50)
  }

  /** What every reachable state keeps: a direction of one step left or
      right, no more bullets than allowed, statistics in range. */
  predicate Inv(c: Config, w: World) {
    && (w.direction == 1 || w.direction == -1)
    && |w.bullets| <= c.bulletsAllowed
    && w.stats.Valid(c.shipLimit)
  }

  /** The state after AlienInvasion.__init__: a centred ship, no bullets, a
      full fleet, fresh statistics, an inactive game. */
  function Initial(c: Config): (w: World)
    requires c.Valid()
    ensures Inv(c, w) && !w.stats.gameActive && w.bullets == [] && w.aliens == NewFleet(c)
  {
    World(CenteredX(c), false, false, [], NewFleet(c), InitialDirection, 0, Fresh(c.shipLimit))
  }

  // ---- bullets ----

  /** _fire_bullet: one new bullet at the ship's nose while fewer than the
      allowed number are in flight; otherwise nothing changes. */
  function FireBullet(c: Config, w: World): (r: World)
    ensures |w.bullets| < c.bulletsAllowed ==> r.bullets == w.bullets + [NewBullet(c, w.shipX)]
    ensures |w.bullets| >= c.bulletsAllowed ==> r == w
    ensures r.(bullets := w.bullets) == w
    ensures |w.bullets| <= c.bulletsAllowed ==> |r.bullets| <= c.bulletsAllowed
  {
    if |w.bullets| < c.bulletsAllowed then w.(bullets := w.bullets + [NewBullet(c, w.shipX)]) else w
  }

  /** A bullet is still on screen while its bottom edge is below the top. */
  predicate Visible(b: Rect) {
    b.Bottom() > 0
  }

  /** The group update of the bullets: each climbs one step. */
  function ClimbedAll(c: Config, bullets: seq<Rect>): (r: seq<Rect>)
    ensures |r| == |bullets|
    ensures forall k :: 0 <= k < |r| ==> r[k] == Climbed(c, bullets[k])
  {
    seq(|bullets|, k requires 0 <= k < |bullets| => Climbed(c, bullets[k]))
  }

  /** The pruning loop of _update_bullets: the bullets still on screen. */
  function Pruned(bullets: seq<Rect>): seq<Rect> {
    Keep(bullets, Visible)
  }

  /** After pruning every bullet is on screen, every bullet that was on screen
      is still there (each copy of it), and the order is kept. */
  lemma PrunedExactly(bullets: seq<Rect>)
    ensures forall k :: 0 <= k < |Pruned(bullets)| ==> Pruned(bullets)[k].Bottom() > 0
    ensures forall b :: multiset(Pruned(bullets))[b] == if b.Bottom() > 0 then multiset(bullets)[b] else 0
    ensures forall b :: b in bullets && b.Bottom() > 0 ==> b in Pruned(bullets)
  {
    forall b
      ensures multiset(Pruned(bullets))[b] == if b.Bottom() > 0 then multiset(bullets)[b] else 0
    {
      KeepCount(bullets, Visible, b);
    }
    forall b | b in bullets && b.Bottom() > 0
      ensures b in Pruned(bullets)
    {
      KeepMember(bullets, Visible, b);
    }
  }

  /** _update_bullets: move, prune, then resolve collisions. */
  function UpdateBullets(c: Config, w: World): World
    requires c.Valid()
  {
    CheckBulletAlienCollisions(c, w.(bullets := Pruned(ClimbedAll(c, w.bullets))))
  }

  /** _check_bullet_alien_collisions: groupcollide, points for every alien
      killed, and on an empty fleet: no bullets, a new fleet, one speed-up and
      the next level. */
  function CheckBulletAlienCollisions(c: Config, w: World): World
    requires c.Valid()
  {
    var hit := GroupCollide(w.bullets, w.aliens);
    var scored := w.(bullets := hit.bullets, aliens := hit.aliens,
                     stats := w.stats.(score := w.stats.score + c.alienPoints * Sum(hit.hits)));
    if scored.aliens != [] then scored else NewLevel(c, scored)
  }

  /** The fleet was destroyed: the bullets go, a new fleet is created, the
      game speeds up and the level goes up by one. */
  function NewLevel(c: Config, w: World): World
    requires c.Valid()
  {
    var cleared := CreateFleet(c, w.(bullets := []));
    cleared.(speedups := cleared.speedups + 1, stats := cleared.stats.(level := cleared.stats.level + 1))
  }

  /** Collision handling removes exactly the aliens some bullet overlapped,
      scores the points of every alien removed, and never lowers the score.
      On a cleared fleet the bullets are gone, a new fleet stands, the speed
      goes up once and the level by exactly one; otherwise level and speed
      stay.  Ship, flags, direction, lives and activity stay. */
  lemma CollisionsScore(c: Config, w: World)
    requires c.Valid()
    ensures var hit := GroupCollide(w.bullets, w.aliens);
      var r := CheckBulletAlienCollisions(c, w);
      && hit.aliens == Keep(w.aliens, a => !Struck(w.bullets, a))
      && r.stats.score == w.stats.score + c.alienPoints * (|w.aliens| - |hit.aliens|)
      && r.stats.score >= w.stats.score
      && (hit.aliens == [] ==>
            r.bullets == [] && r.aliens == NewFleet(c) && r.stats.level == w.stats.level + 1 && r.speedups == w.speedups + 1)
      && (hit.aliens != [] ==>
            r.bullets == hit.bullets && r.aliens == hit.aliens && r.stats.level == w.stats.level && r.speedups == w.speedups)
      && r.shipX == w.shipX && r.movingRight == w.movingRight && r.movingLeft == w.movingLeft
      && r.direction == w.direction
      && r.stats.shipsLeft == w.stats.shipsLeft && r.stats.gameActive == w.stats.gameActive
  {
    var hit := GroupCollide(w.bullets, w.aliens);
    CollideAliens(w.bullets, w.aliens);
    CollideCounts(w.bullets, w.aliens);
    MulNonNeg(c.alienPoints, Sum(hit.hits));
  }

  // ---- the fleet ----

  /** _create_fleet: a new fleet is added to the alien group. */
  function CreateFleet(c: Config, w: World): World
    requires c.Valid()
  {
    w.(aliens := w.aliens + NewFleet(c))
  }

  /** _change_fleet_direction: the fleet drops and turns. */
  function ChangeFleetDirection(c: Config, w: World): (r: World)
    ensures r.aliens == Dropped(w.aliens, c.fleetDropSpeed)
    ensures r.direction == -w.direction
    ensures (w.direction == 1 || w.direction == -1) ==> (r.direction == 1 || r.direction == -1)
    ensures r.(aliens := w.aliens, direction := w.direction) == w
  {
    w.(aliens := Dropped(w.aliens, c.fleetDropSpeed), direction := w.direction * -1)
  }

  /** _check_fleet_edges: one drop and turn when some alien is at an edge. */
  function CheckFleetEdges(c: Config, w: World): World {
    if SomeAtEdge(c, w.aliens) then ChangeFleetDirection(c, w) else w
  }

  /** The fleet turns exactly once when at least one alien touches a side,
      however many do, and nothing changes otherwise; either way every alien
      keeps its column and the direction stays one step left or right. */
  lemma EdgesTurnOnce(c: Config, w: World)
    requires w.direction == 1 || w.direction == -1
    ensures var r := CheckFleetEdges(c, w);
      && (SomeAtEdge(c, w.aliens) ==> r.direction == -w.direction && r.aliens == Dropped(w.aliens, c.fleetDropSpeed))
      && (!SomeAtEdge(c, w.aliens) ==> r == w)
      && |r.aliens| == |w.aliens|
      && (forall k :: 0 <= k < |r.aliens| ==> r.aliens[k].Left() == w.aliens[k].Left())
      && (r.direction == 1 || r.direction == -1)
  {
  }

  /** _ship_hit: with a spare ship, lose it and start the field over (the
      ship is not re-centred: the source names center_ship without calling
      it); with none left, the game ends and nothing else changes. */
  function ShipHit(c: Config, w: World): World
    requires c.Valid()
  {
    if w.stats.shipsLeft > 0 then
      CreateFleet(c, w.(stats := w.stats.(shipsLeft := w.stats.shipsLeft - 1), aliens := [], bullets := []))
    else
      w.(stats := w.stats.(gameActive := false))
  }

  /** The two branches of a ship hit. */
  lemma ShipHitBranches(c: Config, w: World)
    requires c.Valid()
    ensures var r := ShipHit(c, w);
      && (w.stats.shipsLeft > 0 ==>
            r == w.(stats := w.stats.(shipsLeft := w.stats.shipsLeft - 1), aliens := NewFleet(c), bullets := []))
      && (w.stats.shipsLeft <= 0 ==> r == w.(stats := w.stats.(gameActive := false)))
      && r.shipX == w.shipX
  {
    assert [] + NewFleet(c) == NewFleet(c);
  }

  /** _check_aliens_bottom: a ship hit when some alien reached the bottom. */
  function CheckAliensBottom(c: Config, w: World): World
    requires c.Valid()
  {
    if SomeAtBottom(c, w.aliens) then ShipHit(c, w) else w
  }

  /** _update_aliens: edge check, march, ship collision, bottom check. */
  function UpdateAliens(c: Config, w: World): World
    requires c.Valid()
  {
    var turned := CheckFleetEdges(c, w);
    var marched := turned.(aliens := MarchedAll(c, turned.direction, turned.aliens));
    var collided := if AnyOverlap(ShipRect(c, marched.shipX), marched.aliens) then ShipHit(c, marched) else marched;
    CheckAliensBottom(c, collided)
  }

  /** A frame's alien update costs at most one ship: after a hit that leaves a
      spare ship, the new fleet is far from the bottom, so the bottom check
      cannot hit again; after the last ship, a second hit finds none to take.
      Score, level, high score and the ship's position do not change. */
  lemma AliensCostAtMostOneShip(c: Config, w: World)
    requires c.Valid()
    ensures var r := UpdateAliens(c, w);
      && (r.stats.shipsLeft == w.stats.shipsLeft || (w.stats.shipsLeft > 0 && r.stats.shipsLeft == w.stats.shipsLeft - 1))
      && r.stats.score == w.stats.score && r.stats.level == w.stats.level
      && r.stats.highScore == w.stats.highScore && r.shipX == w.shipX
      && (r.stats.gameActive ==> w.stats.gameActive)
  {
    var turned := CheckFleetEdges(c, w);
    var marched := turned.(aliens := MarchedAll(c, turned.direction, turned.aliens));
    if AnyOverlap(ShipRect(c, marched.shipX), marched.aliens) && marched.stats.shipsLeft > 0 {
      ShipHitBranches(c, marched);
      NewFleetQuiet(c, marched.shipX);
    }
  }

  // ---- input ----

  /** _check_play_button: a press inside the button while the game is
      inactive starts a new game; any other press changes nothing. */
  function CheckPlayButton(c: Config, w: World, px: int, py: int): World
    requires c.Valid()
  {
    if ContainsPoint(PlayButton(c), px, py) && !w.stats.gameActive then
      var dynamic := w.(direction := InitialDirection, speedups := 0);
      var started := dynamic.(stats := Reset(dynamic.stats, c.shipLimit).(gameActive := true));
      CreateFleet(c, started.(aliens := [], bullets := [])).(shipX := CenteredX(c))
    else
      w
  }

  /** A new game starts only from an inactive game and only on a press inside
      the button; it resets the statistics (keeping the high score), makes the
      game active, empties both groups, builds a new fleet, centres the ship
      and restores the direction and speed.  Otherwise the press changes nothing. */
  lemma PlayStartsNewGame(c: Config, w: World, px: int, py: int)
    requires c.Valid()
    ensures var r := CheckPlayButton(c, w, px, py);
      && (w.stats.gameActive || !ContainsPoint(PlayButton(c), px, py) ==> r == w)
      && (!w.stats.gameActive && ContainsPoint(PlayButton(c), px, py) ==>
            && r.stats == Reset(w.stats, c.shipLimit).(gameActive := true)
            && r.bullets == [] && r.aliens == NewFleet(c) && r.shipX == CenteredX(c)
            && r.direction == InitialDirection && r.speedups == 0
            && r.movingRight == w.movingRight && r.movingLeft == w.movingLeft)
  {
    assert [] + NewFleet(c) == NewFleet(c);
  }

  /** _check_keydown_events. */
  function CheckKeydownEvents(c: Config, w: World, key: Key): Step {
    match key
    case Right => Step(w.(movingRight := true), false)
    case Left => Step(w.(movingLeft := true), false)
    case Q => Step(w, true)
    case Space => Step(FireBullet(c, w), false)
    case Other => Step(w, false)
  }

  /** _check_keyup_events. */
  function CheckKeyupEvents(w: World, key: Key): World {
    match key
    case Right => w.(movingRight := false)
    case Left => w.(movingLeft := false)
    case _ => w
  }

  /** The arrow keys set their flag on press and clear it on release and touch
      nothing else; the space bar fires and Q exits; other keys change nothing. */
  lemma KeysSetFlags(c: Config, w: World, key: Key)
    ensures var d := CheckKeydownEvents(c, w, key);
      && (d.quit <==> key == Q)
      && (key == Right ==> d.world == w.(movingRight := true))
      && (key == Left ==> d.world == w.(movingLeft := true))
      && (key == Space ==> d.world == FireBullet(c, w))
      && (key == Q || key == Other ==> d.world == w)
    ensures var u := CheckKeyupEvents(w, key);
      && (key == Right ==> u == w.(movingRight := false))
      && (key == Left ==> u == w.(movingLeft := false))
      && (key != Right && key != Left ==> u == w)
  {
  }

  /** _check_events over one frame's events, in order, up to an exit. */
  function CheckEvents(c: Config, w: World, events: seq<Event>): Step
    requires c.Valid()
    decreases |events|
  {
    if events == [] then Step(w, false)
    else
      match events[0]
      case Quit => Step(w, true)
      case MouseDown(px, py) => CheckEvents(c, CheckPlayButton(c, w, px, py), events[1..])
      case KeyDown(key) =>
        var pressed := CheckKeydownEvents(c, w, key);
        if pressed.quit then pressed else CheckEvents(c, pressed.world, events[1..])
      case KeyUp(key) => CheckEvents(c, CheckKeyupEvents(w, key), events[1..])
  }

  // ---- one frame ----

  /** Ship.update inside the frame. */
  function SteerShip(c: Config, w: World): (r: World)
    ensures r.shipX == Steered(c, w.shipX, w.movingRight, w.movingLeft)
    ensures r.(shipX := w.shipX) == w
  {
    w.(shipX := Steered(c, w.shipX, w.movingRight, w.movingLeft))
  }

  /** One pass through the loop of run_game, without the drawing: the events,
      then, while the game is active, the ship, the bullets and the aliens. */
  function RunFrame(c: Config, w: World, events: seq<Event>): Step
    requires c.Valid()
  {
    var handled := CheckEvents(c, w, events);
    if handled.quit || !handled.world.stats.gameActive then handled
    else Step(UpdateAliens(c, UpdateBullets(c, SteerShip(c, handled.world))), false)
  }

  // ---- what the game keeps ----

  /** Firing, steering, a ship hit and the edge check keep the invariant. */
  lemma SmallStepsKeepInv(c: Config, w: World)
    requires c.Valid() && Inv(c, w)
    ensures Inv(c, FireBullet(c, w)) && Inv(c, SteerShip(c, w))
    ensures Inv(c, ShipHit(c, w)) && Inv(c, CheckFleetEdges(c, w))
  {
    EdgesTurnOnce(c, w);
  }

  /** The bullet update keeps the invariant: it only removes bullets, and
      adds points. */
  lemma UpdateBulletsKeepsInv(c: Config, w: World)
    requires c.Valid() && Inv(c, w)
    ensures Inv(c, UpdateBullets(c, w))
  {
    var moved := w.(bullets := Pruned(ClimbedAll(c, w.bullets)));
    CollisionsScore(c, moved);
  }

  /** The alien update keeps the invariant. */
  lemma UpdateAliensKeepsInv(c: Config, w: World)
    requires c.Valid() && Inv(c, w)
    ensures Inv(c, UpdateAliens(c, w))
  {
    var turned := CheckFleetEdges(c, w);
    SmallStepsKeepInv(c, w);
    var marched := turned.(aliens := MarchedAll(c, turned.direction, turned.aliens));
    SmallStepsKeepInv(c, marched);
    var collided := if AnyOverlap(ShipRect(c, marched.shipX), marched.aliens) then ShipHit(c, marched) else marched;
    SmallStepsKeepInv(c, collided);
  }

  lemma {:induction false} EventsKeepInv(c: Config, w: World, events: seq<Event>)
    requires c.Valid() && Inv(c, w)
    ensures Inv(c, CheckEvents(c, w, events).world)
    decreases |events|
  {
    if events != [] {
      match events[0]
      case Quit =>
      case MouseDown(px, py) =>
        ResetValid(w.stats, c.shipLimit);
        EventsKeepInv(c, CheckPlayButton(c, w, px, py), events[1..]);
      case KeyDown(key) =>
        SmallStepsKeepInv(c, w);
        var pressed := CheckKeydownEvents(c, w, key);
        if !pressed.quit {
          EventsKeepInv(c, pressed.world, events[1..]);
        }
      case KeyUp(key) =>
        EventsKeepInv(c, CheckKeyupEvents(w, key), events[1..]);
    }
  }

  /** Every frame keeps the invariant, so the direction is always one step
      left or right, the bullets never exceed their limit, and the
      statistics stay in range. */
  lemma FrameKeepsInv(c: Config, w: World, events: seq<Event>)
    requires c.Valid() && Inv(c, w)
    ensures Inv(c, RunFrame(c, w, events).world)
  {
    EventsKeepInv(c, w, events);
    var handled := CheckEvents(c, w, events).world;
    SmallStepsKeepInv(c, handled);
    UpdateBulletsKeepsInv(c, SteerShip(c, handled));
    UpdateAliensKeepsInv(c, UpdateBullets(c, SteerShip(c, handled)));
  }

  /** While a game is active its events do not touch the statistics: presses
      on the button are ignored and keys only steer and fire. */
  lemma {:induction false} ActiveEventsKeepStats(c: Config, w: World, events: seq<Event>)
    requires c.Valid() && w.stats.gameActive
    ensures CheckEvents(c, w, events).world.stats == w.stats
    decreases |events|
  {
    if events != [] {
      match events[0]
      case Quit =>
      case MouseDown(px, py) =>
        ActiveEventsKeepStats(c, w, events[1..]);
      case KeyDown(key) =>
        var pressed := CheckKeydownEvents(c, w, key);
        if !pressed.quit {
          ActiveEventsKeepStats(c, pressed.world, events[1..]);
        }
      case KeyUp(key) =>
        ActiveEventsKeepStats(c, CheckKeyupEvents(w, key), events[1..]);
    }
  }

  /** Within an active game a frame never lowers the score or the level,
      raises the level by at most one, and costs at most one ship. */
  lemma ActiveFrameProgress(c: Config, w: World, events: seq<Event>)
    requires c.Valid() && w.stats.gameActive
    ensures var r := RunFrame(c, w, events).world;
      && r.stats.score >= w.stats.score
      && w.stats.level <= r.stats.level <= w.stats.level + 1
      && (r.stats.shipsLeft == w.stats.shipsLeft || (w.stats.shipsLeft > 0 && r.stats.shipsLeft == w.stats.shipsLeft - 1))
  {
    ActiveEventsKeepStats(c, w, events);
    var handled := CheckEvents(c, w, events).world;
    var steered := SteerShip(c, handled);
    var moved := steered.(bullets := Pruned(ClimbedAll(c, steered.bullets)));
    CollisionsScore(c, moved);
    AliensCostAtMostOneShip(c, UpdateBullets(c, steered));
  }
}
