/** The AlienInvasion class of alien_invasion.py, without the drawing: its
    methods update the two sprite groups, the settings, the statistics and the
    ship in place, each proved to have the effect its function in Engine gives. */
module Game {
  import opened Geometry
  import opened Seqs
  import opened Tuning
  import opened Stats
  import opened Sprites
  import opened Fleet
  import opened Collisions
  import opened Engine

  /** One more alien of a grid is one more element at the end. */
  lemma GridSnoc(c: Config, columns: nat, k: nat)
    requires columns > 0
    ensures Grid(c, columns, k + 1) == Grid(c, columns, k) + [AlienAt(c, k % columns, k / columns)]
  {
  }

  /** One step of the pruning loop: with the first `i` bullets of `copy`
      already pruned, handling bullet `i` prunes one bullet more. */
  lemma PruneStep(copy: seq<Rect>, i: nat, group: seq<Rect>)
    requires i < |copy| && group == Pruned(copy[..i]) + copy[i..]
    ensures var kept := |Pruned(copy[..i])|;
      && kept < |group|
      && (if copy[i].Bottom() <= 0 then group[..kept] + group[kept + 1..] else group) == Pruned(copy[..i + 1]) + copy[i + 1..]
      && |Pruned(copy[..i + 1])| == if copy[i].Bottom() <= 0 then kept else kept + 1
  {
    KeepSnoc(copy, i, Visible);
    var done := Pruned(copy[..i]);
    assert copy[i..] == [copy[i]] + copy[i + 1..];
    assert group == done + [copy[i]] + copy[i + 1..];
    RemoveAfter(done, copy[i], copy[i + 1..]);
  }

  class AlienInvasion {
    const settings: Settings
    const stats: GameStats
    const ship: Ship
    const playButton: Rect
    var bullets: seq<Rect>
    var aliens: seq<Rect>

    /** The collaborators share one settings object, and the button is centred. */
    ghost predicate Valid() {
      && settings.fixed.Valid()
      && stats.settings == settings && ship.settings == settings
      && playButton == PlayButton(settings.fixed)
    }

    /** The state of the game as a value. */
    ghost function Model(): World
      reads this, settings, stats, ship
    {
      World(ship.x, ship.movingRight, ship.movingLeft, bullets, aliens,
            settings.fleetDirection, settings.speedups, stats.Snapshot())
    }

    /** __init__: settings, statistics, ship, two empty groups, a fleet and the
        button; the window and the scoreboard are not part of this model. */
    constructor (c: Config)
      requires c.Valid()
      ensures Valid() && settings.fixed == c
      ensures Model() == Initial(c)
    {
      var s := new Settings(c);
      settings := s;
      stats := new GameStats(s);
      ship := new Ship(s);
      playButton := PlayButton(c);
      bullets, aliens := [], [];
      new;
      CreateFleet();
    }

    /** _check_events: the events in order; an exit ends the frame at once. */
    method CheckEvents(events: seq<Event>) returns (quit: bool)
      requires Valid()
      modifies this, settings, stats, ship
      ensures Step(Model(), quit) == Engine.CheckEvents(settings.fixed, old(Model()), events)
    {
      var c := settings.fixed;
      var i := 0;
      while i < |events|
        invariant 0 <= i <= |events|
        invariant Engine.CheckEvents(c, old(Model()), events) == Engine.CheckEvents(c, Model(), events[i..])
      {
        assert events[i..][1..] == events[i + 1..];
        match events[i] {
          case Quit =>
            return true;
          case MouseDown(px, py) =>
            CheckPlayButton(px, py);
          case KeyDown(key) =>
            var exit := CheckKeydownEvents(key);
            if exit {
              return true;
            }
          case KeyUp(key) =>
            CheckKeyupEvents(key);
        }
        i := i + 1;
      }
      quit := false;
    }

    /** One pass through the loop of run_game, without the drawing. */
    method RunFrame(events: seq<Event>) returns (quit: bool)
      requires Valid()
      modifies this, settings, stats, ship
      ensures Step(Model(), quit) == Engine.RunFrame(settings.fixed, old(Model()), events)
    {
      quit := CheckEvents(events);
      if !quit && stats.gameActive {
        ship.Update();
        UpdateBullets();
        UpdateAliens();
      }
    }

    /** _check_play_button. */
    method CheckPlayButton(px: int, py: int)
      requires Valid()
      modifies this, settings, stats, ship
      ensures Model() == Engine.CheckPlayButton(settings.fixed, old(Model()), px, py)
    {
      var buttonClicked := ContainsPoint(playButton, px, py);
      if buttonClicked && !stats.gameActive {
        settings.InitializeDynamicSettings();
        stats.ResetStats();
        stats.gameActive := true;
        aliens := [];
        bullets := [];
        CreateFleet();
        ship.CenterShip();
      }
    }

    /** _check_keydown_events; the result says whether Q asked to exit. */
    method CheckKeydownEvents(key: Key) returns (quit: bool)
      requires Valid()
      modifies this, ship
      ensures Step(Model(), quit) == Engine.CheckKeydownEvents(settings.fixed, old(Model()), key)
    {
      quit := false;
      match key
      case Right => ship.movingRight := true;
      case Left => ship.movingLeft := true;
      case Q => quit := true;
      case Space => FireBullet();
      case Other =>
    }

    /** _check_keyup_events. */
    method CheckKeyupEvents(key: Key)
      requires Valid()
      modifies ship
      ensures Model() == Engine.CheckKeyupEvents(old(Model()), key)
    {
      match key
      case Right => ship.movingRight := false;
      case Left => ship.movingLeft := false;
      case _ =>
    }

    /** _fire_bullet. */
    method FireBullet()
      requires Valid()
      modifies this
      ensures Model() == Engine.FireBullet(settings.fixed, old(Model()))
    {
      if |bullets| < settings.fixed.bulletsAllowed {
        var newBullet := NewBullet(settings.fixed, ship.x);
        bullets := bullets + [newBullet];
      }
    }

    /** _update_bullets: move every bullet, remove those above the screen
        while walking a copy of the group, then resolve collisions. */
    method UpdateBullets()
      requires Valid()
      modifies this, settings, stats
      ensures Model() == Engine.UpdateBullets(settings.fixed, old(Model()))
    {
      bullets := ClimbedAll(settings.fixed, bullets);
      RemoveOffscreenBullets();
      CheckBulletAlienCollisions();
    }

    /** The pruning loop of _update_bullets: walk a copy of the group and
        remove from the group each bullet whose bottom has passed the top. */
    method RemoveOffscreenBullets()
      modifies this
      ensures bullets == Pruned(old(bullets)) && aliens == old(aliens)
    {
      var group := bullets;
      var copy := group;
      var kept := 0;
      var i := 0;
      while i < |copy|
        invariant 0 <= i <= |copy|
        invariant kept == |Pruned(copy[..i])|
        invariant group == Pruned(copy[..i]) + copy[i..]
        modifies {}
      {
        PruneStep(copy, i, group);
        if copy[i].Bottom() <= 0 {
          group := group[..kept] + group[kept + 1..];
        } else {
          kept := kept + 1;
        }
        i := i + 1;
      }
      assert copy[..i] == copy;
      bullets := group;
    }

    /** _check_bullet_alien_collisions. */
    method CheckBulletAlienCollisions()
      requires Valid()
      modifies this, settings, stats
      ensures Model() == Engine.CheckBulletAlienCollisions(settings.fixed, old(Model()))
    {
      var collisions := GroupCollide(bullets, aliens);
      ghost var w := old(Model());
      ghost var scored := w.(bullets := collisions.bullets, aliens := collisions.aliens,
                             stats := w.stats.(score := w.stats.score + settings.fixed.alienPoints * Sum(collisions.hits)));
      bullets, aliens := collisions.bullets, collisions.aliens;
      if collisions.hits != [] {
        ScoreHits(collisions.hits);
      } else {
        assert settings.fixed.alienPoints * Sum(collisions.hits) == 0;
      }
      assert Model() == scored;
      if aliens == [] {
        StartNewLevel();
      }
    }

    /** The block of _check_bullet_alien_collisions run once the fleet is
        destroyed. */
    method StartNewLevel()
      requires Valid()
      modifies this, settings, stats
      ensures Model() == NewLevel(settings.fixed, old(Model()))
    {
      ghost var cleared := Engine.CreateFleet(settings.fixed, old(Model()).(bullets := []));
      bullets := [];
      CreateFleet();
      assert Model() == cleared;
      settings.IncreaseSpeed();
      stats.level := stats.level + 1;
    }

    /** The scoring loop of _check_bullet_alien_collisions: the points of an
        alien for every alien each bullet killed. */
    method ScoreHits(hits: seq<nat>)
      modifies stats
      ensures stats.Snapshot() == old(stats.Snapshot()).(score := old(stats.score) + settings.fixed.alienPoints * Sum(hits))
    {
      var points := settings.fixed.alienPoints;
      var i := 0;
      while i < |hits|
        invariant 0 <= i <= |hits|
        invariant stats.Snapshot() == old(stats.Snapshot()).(score := old(stats.score) + points * Sum(hits[..i]))
      {
        ScaledSumSnoc(hits, i, points);
        stats.score := stats.score + points * hits[i];
        i := i + 1;
      }
      assert hits[..i] == hits;
    }

    /** _update_aliens. */
    method UpdateAliens()
      requires Valid()
      modifies this, settings, stats
      ensures Model() == Engine.UpdateAliens(settings.fixed, old(Model()))
    {
      CheckFleetEdges();
      aliens := MarchedAll(settings.fixed, settings.fleetDirection, aliens);
      if AnyOverlap(ShipRect(settings.fixed, ship.x), aliens) {
        ShipHit();
      }
      CheckAliensBottom();
    }

    /** _ship_hit; the ship is left where it is, since center_ship is only
        referenced, and the pause is not part of this model. */
    method ShipHit()
      requires Valid()
      modifies this, stats
      ensures Model() == Engine.ShipHit(settings.fixed, old(Model()))
    {
      if stats.shipsLeft > 0 {
        stats.shipsLeft := stats.shipsLeft - 1;
        aliens := [];
        bullets := [];
        CreateFleet();
      } else {
        stats.gameActive := false;
      }
    }

    /** _create_fleet: row by row, column by column. */
    method CreateFleet()
      requires Valid()
      modifies this
      ensures Model() == Engine.CreateFleet(settings.fixed, old(Model()))
    {
      var c := settings.fixed;
      var numberAliensX := AliensPerRow(c);
      var numberRows := Rows(c);
      var rowNumber := 0;
      while rowNumber < numberRows
        invariant 0 <= rowNumber <= if numberRows > 0 then numberRows else 0
        invariant aliens == old(aliens) + (if numberAliensX > 0 then Grid(c, numberAliensX, rowNumber * numberAliensX) else [])
        invariant bullets == old(bullets)
        modifies this
      {
        var alienNumber := 0;
        while alienNumber < numberAliensX
          invariant 0 <= alienNumber <= if numberAliensX > 0 then numberAliensX else 0
          invariant aliens == old(aliens) + (if numberAliensX > 0 then Grid(c, numberAliensX, rowNumber * numberAliensX + alienNumber) else [])
          invariant bullets == old(bullets)
          modifies this
        {
          var k := rowNumber * numberAliensX + alienNumber;
          DivModUnique(k, numberAliensX, rowNumber, alienNumber);
          GridSnoc(c, numberAliensX, k);
          CreateAlien(alienNumber, rowNumber);
          alienNumber := alienNumber + 1;
        }
        assert rowNumber * numberAliensX + alienNumber == (rowNumber + 1) * numberAliensX || numberAliensX <= 0;
        rowNumber := rowNumber + 1;
      }
      assert numberRows <= 0 || numberAliensX <= 0 ==> aliens == old(aliens) + [];
    }

    /** _create_alien. */
    method CreateAlien(alienNumber: int, rowNumber: int)
      requires Valid()
      modifies this
      ensures aliens == old(aliens) + [AlienAt(settings.fixed, alienNumber, rowNumber)]
      ensures bullets == old(bullets)
    {
      var alien := AlienAt(settings.fixed, alienNumber, rowNumber);
      aliens := aliens + [alien];
    }

    /** _check_fleet_edges: the first alien at an edge turns the fleet, and the
        scan stops there. */
    method CheckFleetEdges()
      requires Valid()
      modifies this, settings
      ensures Model() == Engine.CheckFleetEdges(settings.fixed, old(Model()))
    {
      var c := settings.fixed;
      var sprites := aliens;
      var i := 0;
      while i < |sprites|
        invariant 0 <= i <= |sprites|
        invariant forall k :: 0 <= k < i ==> !AtEdge(c, sprites[k])
        invariant Model() == old(Model())
      {
        if AtEdge(c, sprites[i]) {
          ChangeFleetDirection();
          break;
        }
        i := i + 1;
      }
    }

    /** _change_fleet_direction: drop every alien, then turn. */
    method ChangeFleetDirection()
      requires Valid()
      modifies this, settings
      ensures Model() == Engine.ChangeFleetDirection(settings.fixed, old(Model()))
    {
      var drop := settings.fixed.fleetDropSpeed;
      var i := 0;
      while i < |aliens|
        invariant 0 <= i <= |aliens| == |old(aliens)|
        invariant forall k :: 0 <= k < i ==> aliens[k] == old(aliens[k]).Moved(0, drop)
        invariant forall k :: i <= k < |aliens| ==> aliens[k] == old(aliens[k])
        invariant Model() == old(Model()).(aliens := aliens)
      {
        aliens := aliens[i := aliens[i].Moved(0, drop)];
        i := i + 1;
      }
      settings.fleetDirection := settings.fleetDirection * -1;
    }

    /** _check_aliens_bottom: the first alien at the bottom counts as a ship
        hit, and the scan stops there. */
    method CheckAliensBottom()
      requires Valid()
      modifies this, stats
      ensures Model() == Engine.CheckAliensBottom(settings.fixed, old(Model()))
    {
      var c := settings.fixed;
      var sprites := aliens;
      var i := 0;
      while i < |sprites|
        invariant 0 <= i <= |sprites|
        invariant forall k :: 0 <= k < i ==> !AtBottom(c, sprites[k])
        invariant Model() == old(Model())
      {
        if sprites[i].Bottom() >= c.screenHeight {
          ShipHit();
          break;
        }
        i := i + 1;
      }
    }
  }
}
