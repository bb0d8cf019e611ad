/**
 The level grid of a topic: which levels are unlocked, which are shown as
 completed or active, and which clicks reach the level-select callback.
 */
module LevelSelector {
  import opened Wrappers
  import opened Catalog

  /**
   `isLevelUnlocked`: level 1 always is; any other level number is unlocked
   exactly when the level before it exists in `levels` and its id has been
   completed.
   */
  function IsLevelUnlocked(levels: seq<GameLevel>, completed: set<string>, levelNum: int): (r: bool)
    ensures levelNum == 1 ==> r
    ensures levelNum != 1 ==> (r <==> 2 <= levelNum <= |levels| + 1 && levels[levelNum - 2].id in completed)
  {
    if levelNum == 1 then true
    else if 0 <= levelNum - 2 < |levels| then levels[levelNum - 2].id in completed
    else false
  }

  /** `isLevelCompleted`: the level's id is in the completed set. */
  predicate IsLevelCompleted(level: GameLevel, completed: set<string>)
  {
    level.id in completed
  }

  /** Completing more levels never locks a level that was unlocked. */
  lemma UnlockMonotone(levels: seq<GameLevel>, fewer: set<string>, more: set<string>, levelNum: int)
    requires fewer <= more
    ensures IsLevelUnlocked(levels, fewer, levelNum) ==> IsLevelUnlocked(levels, more, levelNum)
  {
  }

  /** With nothing completed, level 1 is the only unlocked level. */
  lemma OnlyFirstUnlockedAtStart(levels: seq<GameLevel>, levelNum: int)
    ensures IsLevelUnlocked(levels, {}, levelNum) <==> levelNum == 1
  {
  }

  /** Completing level n of a topic unlocks level n + 1 when it exists. */
  lemma CompletingUnlocksNext(levels: seq<GameLevel>, completed: set<string>, n: int)
    requires 1 <= n < |levels|
    ensures IsLevelUnlocked(levels, completed + {levels[n - 1].id}, n + 1)
  {
  }

  /**
   Over the shipped catalog, level n (2 to 4) of a topic is unlocked exactly
   when the id `topic-(n-1)` is in the completed set, and no level past the
   fifth slot is ever unlocked.
   */
  lemma CatalogUnlockById(key: string, completed: set<string>, n: int)
    requires key in GameLevels
    ensures 2 <= n <= 5 ==>
      (IsLevelUnlocked(GameLevels[key], completed, n) <==> LevelId(key, n - 1) in completed)
    ensures (n < 1 || 5 < n) ==> !IsLevelUnlocked(GameLevels[key], completed, n)
  {
    CatalogWellFormed();
    if 2 <= n <= 5 {
      assert LevelWellFormed(key, n - 2, GameLevels[key][n - 2]);
    }
  }

  /** One card of the grid, with the flags the card is drawn from. */
  datatype LevelCard = LevelCard(levelNum: nat, level: GameLevel, unlocked: bool, completed: bool, active: bool)

  /**
   The grid: card i shows level number i + 1, and is active exactly when
   that number is the current level.
   */
  function LevelCards(levels: seq<GameLevel>, completed: set<string>, currentLevel: int): (r: seq<LevelCard>)
    ensures |r| == |levels|
    ensures forall i :: 0 <= i < |r| ==>
      && r[i].levelNum == i + 1
      && r[i].level == levels[i]
      && (r[i].active <==> i + 1 == currentLevel)
      && (r[i].unlocked <==> IsLevelUnlocked(levels, completed, i + 1))
      && (r[i].completed <==> levels[i].id in completed)
  {
    seq(|levels|, i requires 0 <= i < |levels| =>
      LevelCard(i + 1, levels[i], IsLevelUnlocked(levels, completed, i + 1),
                IsLevelCompleted(levels[i], completed), i + 1 == currentLevel))
  }

  /**
   At most one card is active, and exactly one when the current level is a
   level of the grid.
   */
  lemma ActiveCardUnique(levels: seq<GameLevel>, completed: set<string>, currentLevel: int)
    ensures var cards := LevelCards(levels, completed, currentLevel);
      && (forall i, j :: 0 <= i < |cards| && 0 <= j < |cards| && cards[i].active && cards[j].active ==> i == j)
      && (1 <= currentLevel <= |levels| <==> exists i :: 0 <= i < |cards| && cards[i].active)
  {
    var cards := LevelCards(levels, completed, currentLevel);
    if 1 <= currentLevel <= |levels| {
      assert cards[currentLevel - 1].active;
    }
  }

  /**
   A click on card `index`: the level-select callback receives the card's
   level number when the card is unlocked, and nothing happens otherwise.
   */
  function Click(levels: seq<GameLevel>, completed: set<string>, index: nat): (r: Option<nat>)
    requires index < |levels|
    ensures r.Some? <==> IsLevelUnlocked(levels, completed, index + 1)
    ensures r.Some? ==> r.value == index + 1
  {
    var card := LevelCards(levels, completed, 0)[index];
    if card.unlocked then Some(card.levelNum) else None
  }

  /**
   Any level a click selects is a level of the grid, and either the first
   one or one whose predecessor has been completed.
   */
  lemma SelectedLevelIsReachable(levels: seq<GameLevel>, completed: set<string>, index: nat)
    requires index < |levels|
    ensures var r := Click(levels, completed, index);
      r.Some? ==> 1 <= r.value <= |levels| && (r.value == 1 || levels[r.value - 2].id in completed)
  {
    var r := Click(levels, completed, index);
    if r.Some? {
      assert r.value == index + 1 && IsLevelUnlocked(levels, completed, index + 1);
    }
  }
}
