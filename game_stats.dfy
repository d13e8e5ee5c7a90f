/** The statistics record of a session (game_stats.py). */
module Stats {
  import opened Tuning

  /** The five statistics as a value. */
  datatype Record = Record(shipsLeft: int, score: int, level: int, gameActive: bool, highScore: int) {
    /** The ranges the statistics keep during play. */
    predicate Valid(limit: nat) {
      0 <= shipsLeft <= limit && score >= 0 && level >= 1 && highScore >= 0
    }
  }

  /** reset_stats on a value: the three per-session statistics start over. */
  function Reset(s: Record, limit: nat): (r: Record)
    ensures r.shipsLeft == limit && r.score == 0 && r.level == 1
    ensures r.highScore == s.highScore && r.gameActive == s.gameActive
  {
    s.(shipsLeft := limit, score := 0, level := 1)
  }

  /** The statistics of a newly constructed GameStats. */
  function Fresh(limit: nat): (r: Record)
    ensures r.shipsLeft == limit && r.score == 0 && r.level == 1
    ensures !r.gameActive && r.highScore == 0
  {
    Record(limit, 0, 1, false, 0)
  }

  /** reset_stats is idempotent. */
  lemma ResetIdempotent(s: Record, limit: nat)
    ensures Reset(Reset(s, limit), limit) == Reset(s, limit)
  {
  }

  /** A reset record is in range whenever the high score is, and a fresh one is reset. */
  lemma ResetValid(s: Record, limit: nat)
    requires s.highScore >= 0
    ensures Reset(s, limit).Valid(limit)
    ensures Fresh(limit).Valid(limit) && Reset(Fresh(limit), limit) == Fresh(limit)
  {
  }

  class GameStats {
    const settings: Settings
    var shipsLeft: int
    var score: int
    var level: int
    var gameActive: bool
    var highScore: int

    /** The current statistics as a value. */
    function Snapshot(): Record
      reads this
    {
      Record(shipsLeft, score, level, gameActive, highScore)
    }

    /** The game starts inactive, with a zero high score and reset statistics. */
    constructor (settings: Settings)
      ensures this.settings == settings
      ensures Snapshot() == Fresh(settings.fixed.shipLimit)
    {
      this.settings := settings;
      new;
      ResetStats();
      gameActive := false;
      highScore := 0;
    }

    /** Assigns the three per-session statistics and nothing else. */
    method ResetStats()
      modifies this
      ensures Snapshot() == Reset(old(Snapshot()), settings.fixed.shipLimit)
    {
      shipsLeft := settings.fixed.shipLimit;
      score := 0;
      level := 1;
    }
  }
}
