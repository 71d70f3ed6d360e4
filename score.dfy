/** `ScoreTable` of cannon.py: two counters the Manager increments and the
    score derived from them (its font and drawing are rendering only). */
module Scores {

  class ScoreTable {
    var targetDestroyed: int
    var shellUsed: int

    constructor (targetDestroyed: int := 0, shellUsed: int := 0)
      ensures this.targetDestroyed == targetDestroyed && this.shellUsed == shellUsed
    {
      this.targetDestroyed := targetDestroyed;
      this.shellUsed := shellUsed;
    }

    /** `score()`: every target destroyed earns a point, every shell fired costs one. */
    function Score(): int
      reads this
    {
      targetDestroyed - shellUsed
    }
  }
}
