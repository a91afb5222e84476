/** The top-level screen navigator: which of the title, level-select and
    game screens is shown, and which level is being played. */
module Navigator {

  datatype Screen = Title | Levels | Game

  class PlatformerGame {
    /** Number of entries of the level table. */
    const levelCount: nat
    var screen: Screen
    var levelIndex: int

    /** The level table is indexed only in bounds. */
    ghost predicate Valid()
      reads this
    {
      screen == Game ==> 0 <= levelIndex < levelCount
    }

    constructor (levelCount: nat)
      ensures Valid() && this.levelCount == levelCount
      ensures screen == Title && levelIndex == 0
    {
      this.levelCount := levelCount;
      screen := Title;
      levelIndex := 0;
    }

    /** The title screen's completion callback. */
    method OnStart()
      requires Valid()
      modifies this
      ensures Valid() && screen == Levels && levelIndex == old(levelIndex)
    {
      screen := Levels;
    }

    /** Level chosen on the level-select screen; its only caller passes an
        index of the level table. */
    method OnSelect(idx: int)
      requires Valid() && 0 <= idx < levelCount
      modifies this
      ensures Valid() && screen == Game && levelIndex == idx
    {
      levelIndex := idx;
      screen := Game;
    }

    /** Back from the level-select screen. */
    method OnBackFromLevels()
      requires Valid()
      modifies this
      ensures Valid() && screen == Title && levelIndex == old(levelIndex)
    {
      screen := Title;
    }

    /** Back from a game. */
    method OnBackFromGame()
      requires Valid()
      modifies this
      ensures Valid() && screen == Levels && levelIndex == old(levelIndex)
    {
      screen := Levels;
    }

    /** The index the game screen looks up in the level table. */
    method CurrentLevel() returns (i: nat)
      requires Valid() && screen == Game
      ensures i == levelIndex && i < levelCount
    {
      i := levelIndex;
    }
  }
}
