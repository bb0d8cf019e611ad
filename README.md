# Biology labelling game: a Dafny model of its placement and progression engine

The game shows a biology diagram with numbered target points and a tray of
labels. The player drags each label onto the point it names. Every topic
(digestive system, flower, plant cell, food web, photosynthesis) has four
levels of growing size. The home page records completed levels, keeps
per-topic and overall progress, and moves on to the next level 2 s after a
level is completed.

The repository also ships a level grid with an unlock rule (`LevelSelector`)
and a mouse and touch drag hook (`useDragAndDrop`). Both are modelled as the
components they are, but the page never renders the grid and nothing calls
the hook: the game view has its own HTML5 drag handlers. So the page never
consults the unlock rule, and any level is reached by "Next Level".

This project models, in Dafny:

- `catalog.dfy` (module `Catalog`): the constant tables of topics and levels,
  copied label by label, and their invariants. Each topic has four levels
  numbered 1 to 4 with ids `topic-n`. Each level's `totalLabels` equals its
  label count, its labels are distinct, and label counts grow from level to
  level. The two tables share one key set.
- `game_interface.dfy` (module `GameInterface`): one level in play, as the
  class `Session`. It holds the assigned labels, the completed points, the
  attempts counter, the dragged label and the feedback banner. `HandleDrop`
  is the drop rule, `HandleReset` the reset. The module also defines the
  labels still offered, the score, the accuracy and level completion.
- `index_page.dfy` (module `IndexPage`):
  - the points of a diagram (`GetDiagramPoints` and its coordinate table);
  - the per-topic and overall progress counts;
  - the class `App`, which holds the selected topic, the current level, the
    completed-level set and the progress record, and has the page's handlers;
  - a play-through of the first digestive level.
- `level_selector.dfy` (module `LevelSelector`): the unused level grid: the
  unlock rule, the completed and active flags of the level cards, and the
  click guard.
- `drag_and_drop.dfy` (module `DragAndDrop`): the unused drag hook, a mouse
  and touch drag state machine, as the class `DragController`.
- `text.dfy`, `seqs.dfy`, `wrappers.dfy`: decimal rendering of numbers in
  ids (`${n}`), facts about sequences and sets, and `Option`.

Integers are exact. The source's floating-point expressions are written
over integers:

- `Math.floor((a / t) * 10)` is `(10 * a) / t`.
- `Math.round((c / a) * 100)` is `(200 * c + a) / (2 * a)`.

Timers are explicit later steps. They are never cancelled, as in the source.

- The 1500 ms `onLevelComplete` call is the `LevelReport` that
  `Session.HandleDrop` returns. The caller hands it to
  `App.HandleLevelComplete`, together with the topic and level shown at the
  drop, which the delayed callback still sees.
- The 2000 ms feedback clear is `Session.ClearFeedback`.
- Each 2000 ms auto-advance is kept in `App.pendingAdvances`, in firing
  order, with the topic and level it was armed for. It fires through
  `App.FireAutoAdvance` (corrected) or `App.FireAutoAdvanceAsWritten`.

The source keeps one quirk, and so does this model. The score passed to
`onLevelComplete` is computed from the attempts counted before the
completing drop. The score on the completion card uses all attempts.
`IndexPage.FirstDigestiveLevelPlay` shows both values on one play-through:
90 and 87.

## Model

| member | source | states |
|---|---|---|
| Catalog.CatalogWellFormed | src/types/game.ts:87-258 | every topic has exactly 4 levels; the i-th has `level == i`, id `topic-i`, a non-empty list of pairwise distinct labels whose length is `totalLabels`, and more labels than level i-1 |
| Catalog.LevelIdInjective | src/types/game.ts:90-91 | a level id `topic-n` determines both the topic key and the level number |
| Catalog.TopicTablesAgree | src/types/game.ts:49-85 | `GAME_TOPICS` and `GAME_LEVELS` have the same keys, the five topic keys without repeats, and each topic's `id` is its key |
| Text.NatToString | src/pages/Index.tsx:214 | the rendering of a number in an id denotes that number (`DigitsValue`, read digit by digit); it is non-empty, all digits, one digit exactly below 10, and has no leading zero |
| Text.NatToStringInjective | src/pages/Index.tsx:214 | different numbers render to different digit strings |
| Text.NatToStringOfDigits | src/pages/Index.tsx:214 | conversely, every non-empty digit string without a leading zero is the rendering of the number it denotes |
| GameInterface.AvailableLabels | src/components/GameInterface.tsx:43-45 | the offered labels are exactly the level's labels that no assignment carries, in the level's order |
| GameInterface.NothingPlacedAllAvailable | src/components/GameInterface.tsx:43-45 | with no assignments every label of the level is offered, in order |
| GameInterface.AvailableCount | src/components/GameInterface.tsx:43-45 | with distinct labels, the number offered is the label count minus the number of labels already placed |
| GameInterface.PlacementWithdrawsLabel | src/components/GameInterface.tsx:43-45 | appending one assignment removes exactly its label from the offered ones and brings none back |
| GameInterface.Score | src/components/GameInterface.tsx:93 | the score lies in 0..100; it is 0 exactly when attempts reach 10 per label; otherwise `100 - score` is the floor of `10 * attempts / totalLabels` |
| GameInterface.ScoreNonIncreasing | src/components/GameInterface.tsx:93 | for a fixed label count, more attempts never give a higher score |
| GameInterface.RoundedPercent | src/components/GameInterface.tsx:345 | 0 when the whole is 0; otherwise the integer nearest to `100 * part / whole`, halves up, at most 100 when part <= whole |
| GameInterface.MessagesTellOutcomeAndLabel | src/components/GameInterface.tsx:81-105 | the success text (`CorrectMessage`) never equals the error text (`IncorrectMessage`), and each text determines the label it names |
| GameInterface.FlawlessPlayScores | src/components/GameInterface.tsx:93 | on a level with t labels, the score at t attempts is 90, and at t - 1 attempts it is 100 for one label and between 91 and 95 otherwise (the attempt counts after and before the last drop when no drop was wrong) |
| GameInterface.Session.constructor | src/components/GameInterface.tsx:32-40 | a session starts with no assignments, no completed points, zero attempts, no dragged label and a hidden banner |
| GameInterface.Session.HandleDragStart | src/components/GameInterface.tsx:47-51 | starting a drag records the dragged label and changes nothing else |
| GameInterface.Session.HandleDrop | src/components/GameInterface.tsx:58-118 | an empty label or a completed point changes nothing; any other drop counts one attempt and clears the dragged label; an exact match appends a correct assignment, completes the point and shows success; it reports completion with the score of the attempts before the drop exactly when the completed count reaches `totalLabels`; a mismatch changes neither list and shows an error |
| GameInterface.Session.ClearFeedback | src/components/GameInterface.tsx:114-117 | the delayed clear hides the banner and keeps the rest of the session |
| GameInterface.Session.HandleReset | src/components/GameInterface.tsx:120-126 | reset empties the assignments and completed points, zeroes the attempts and hides the banner |
| GameInterface.Session.DisplayedScore | src/components/GameInterface.tsx:308 | the completion card's score, from all attempts, lies in 0..100 and is 0 exactly when attempts reach 10 per label |
| GameInterface.Session.Accuracy | src/components/GameInterface.tsx:345 | accuracy is 0 before any attempt, otherwise the rounded percentage of completed points per attempt, at most 100 |
| GameInterface.Session.CompletedIffEveryPointDone | src/components/GameInterface.tsx:128 | with one point per label and distinct point ids, the level is complete (`IsCompleted`, `isCompleted`) exactly when every point is completed |
| GameInterface.Session.RemainingIsOpenPoints | src/components/GameInterface.tsx:349-350 | when point i expects label i of distinct labels, the "Remaining" count equals the number of open points |
| IndexPage.PointIdInjective | src/pages/Index.tsx:214 | different indices give different `point-i` ids |
| IndexPage.PositionTableCoversCatalog | src/pages/Index.tsx:30-192 | the coordinate table has an entry for every shipped topic and level, with one position per label |
| IndexPage.GetDiagramPoints | src/pages/Index.tsx:25-218 | no points for a missing topic or level; otherwise one point per label, point i named `point-i`, expecting label i, at the table's i-th position |
| IndexPage.DiagramPointsFitLevel | src/pages/Index.tsx:213-218 | a shipped level's points have distinct ids, one per label, point i expecting label i, with distinct labels |
| IndexPage.CompletedCount | src/pages/Index.tsx:237-240 | the completed count of a level list is at most its length; it equals the length exactly when every id is completed and is 0 exactly when none is |
| IndexPage.CompletedCountIsCardinality | src/pages/Index.tsx:237-240 | with distinct ids, the count is the number of the list's ids in the completed set |
| IndexPage.CompletedCountMonotone | src/pages/Index.tsx:237-240 | completing more levels never lowers a count |
| IndexPage.TopicProgress | src/pages/Index.tsx:236-241 | a topic's progress is 0 for an unknown topic and at most its level count otherwise |
| IndexPage.CountOverTopics | src/pages/Index.tsx:236-241 | the completed count over all topics' levels is the sum of the per-topic progress entries |
| IndexPage.LevelsOfTopicsDistinct | src/types/game.ts:87-258 | the levels of distinct well-formed topics have distinct ids |
| IndexPage.CatalogTotals | src/pages/Index.tsx:283-284 | `totalLevels` (`TotalLevels`) is 20, all level ids differ, and for catalog ids the per-topic progress adds up to `totalCompleted` |
| IndexPage.FirstDigestiveLevelPlay | src/components/GameInterface.tsx:92-96 | on `digestive-1`, the drops Stomach/1, Mouth/1, Intestine/0, Mouth/0 and Intestine/2 report completion only on the last drop, with score 90, and the card shows 4 attempts and score 87 |
| IndexPage.PlayThreeLabelLevel | src/components/GameInterface.tsx:58-118 | the same five drops on any three-label level with matching points give the same reports, attempts and displayed score |
| IndexPage.StepLevel | src/pages/Index.tsx:269-276 | the level advances by one exactly when a next level exists, and otherwise stays; it stays within 1..count |
| IndexPage.App.constructor | src/pages/Index.tsx:19-22 | the page starts with no topic, level 1, no completed levels and an empty progress record |
| IndexPage.App.HandleTopicSelect | src/pages/Index.tsx:246-249 | selecting a topic opens it at level 1 and keeps the completed levels |
| IndexPage.App.HandleBackToTopics | src/pages/Index.tsx:251-254 | going back clears the topic and sets level 1 |
| IndexPage.App.HandleLevelComplete | src/pages/Index.tsx:256-267 | the shown level's id is added to the completed set in every case, whether or not a topic is still selected, and adding an id already present leaves the set unchanged; a timer remembering the shown topic and level is armed exactly when that level has a next one in that topic; the score is ignored |
| IndexPage.LateReportRecorded | src/pages/Index.tsx:256-267 | a completion report arriving after "Topics" was pressed is still recorded and arms the timer for the level shown at the drop, while the page stays on the topic list at level 1 |
| IndexPage.App.FireAutoAdvance | src/pages/Index.tsx:262-266 | the oldest timer fires (corrected): the level moves on by one exactly when the page still shows the topic and level it was armed for, that level has a next one and is still completed; so the page stays within the topic's levels and only opens a level whose predecessor is completed |
| IndexPage.App.FireAutoAdvanceAsWritten | src/pages/Index.tsx:262-266 | the oldest timer fires as written: the current level becomes `prev + 1` (`AutoAdvanceAsWritten`) whatever the page shows |
| IndexPage.StaleAdvanceAsWritten | src/pages/Index.tsx:246-266 | complete `flower-1`, press "Topics" and open `digestive` before the timer fires: as written, `digestive` opens at level 2 with `digestive-1` not completed |
| IndexPage.StaleAdvanceCorrected | src/pages/Index.tsx:246-266 | the same play with the corrected timer leaves `digestive` at level 1 |
| IndexPage.OvershootAsWritten | src/pages/Index.tsx:256-276 | complete `digestive-3` and press "Next Level" before the timer fires: as written the level becomes 5 of 4 |
| IndexPage.OvershootCorrected | src/pages/Index.tsx:256-276 | the same play with the corrected timer stays at level 4 |
| IndexPage.App.HandleNextLevel | src/pages/Index.tsx:269-276 | "Next Level" advances only with a topic selected and a next level present, and keeps the level within 1..count |
| IndexPage.App.HandleResetProgress | src/pages/Index.tsx:278-281 | a global reset empties the completed set and the progress record |
| IndexPage.App.SyncTopicProgress | src/pages/Index.tsx:233-244 | the progress effect gives every topic key exactly one entry, equal to the number of that topic's levels whose ids are completed |
| IndexPage.App.TotalCompleted | src/pages/Index.tsx:283 | `totalCompleted` never exceeds `totalLevels` |
| IndexPage.App.OverallPercent | src/pages/Index.tsx:366 | the overall percentage is the integer nearest to `100 * totalCompleted / totalLevels`, at most 100 |
| IndexPage.App.ProgressAddsUp | src/pages/Index.tsx:233-244 | once synchronised, the progress entries add up to the number of completed levels, each at most its topic's level count |
| LevelSelector.IsLevelUnlocked | src/components/LevelSelector.tsx:21-25 | level 1 is always unlocked; any other level is unlocked iff the level before it exists and its id is completed |
| LevelSelector.UnlockMonotone | src/components/LevelSelector.tsx:21-25 | completing more levels never locks an unlocked level |
| LevelSelector.OnlyFirstUnlockedAtStart | src/components/LevelSelector.tsx:21-25 | with nothing completed, exactly level 1 is unlocked |
| LevelSelector.CompletingUnlocksNext | src/components/LevelSelector.tsx:23-24 | completing level n unlocks level n+1 when it exists |
| LevelSelector.CatalogUnlockById | src/components/LevelSelector.tsx:21-25 | for a shipped topic, levels 2 to 5 are unlocked iff `topic-(n-1)` is completed, and no number below 1 or above 5 is ever unlocked |
| LevelSelector.LevelCards | src/components/LevelSelector.tsx:27-37 | card i shows level number i+1 and the level itself; it is unlocked per the rule, completed (`IsLevelCompleted`) iff its id is in the set, and active iff its number is the current level |
| LevelSelector.ActiveCardUnique | src/components/LevelSelector.tsx:37 | at most one card is active, and one is exactly when the current level is within the grid |
| LevelSelector.Click | src/components/LevelSelector.tsx:48 | a click selects the card's level number exactly when the card is unlocked |
| LevelSelector.SelectedLevelIsReachable | src/components/LevelSelector.tsx:48 | a selected level lies in the grid and is level 1 or follows a completed level |
| DragAndDrop.TouchEndDrop | src/hooks/useDragAndDrop.ts:76-79 | a touch end calls `onDrop` exactly when dragging, with a non-empty item and a callback, and passes the item and the stored offset |
| DragAndDrop.DragController.constructor | src/hooks/useDragAndDrop.ts:10-14 | the hook starts idle: not dragging, no item, offset (0, 0) |
| DragAndDrop.DragController.HandleDragStart | src/hooks/useDragAndDrop.ts:18-23 | a mouse drag starts with the item and offset (0, 0) |
| DragAndDrop.DragController.HandleDragEnd | src/hooks/useDragAndDrop.ts:42-48 | a drag end always returns to idle |
| DragAndDrop.DragController.HandleTouchStart | src/hooks/useDragAndDrop.ts:50-60 | a touch drag starts with the item and the touch position as offset |
| DragAndDrop.DragController.HandleTouchMove | src/hooks/useDragAndDrop.ts:62-74 | while dragging only the offset follows the touch; when idle nothing changes |
| DragAndDrop.DragController.HandleTouchEnd | src/hooks/useDragAndDrop.ts:76-85 | a touch end returns the `onDrop` call due (see `TouchEndDrop`) and always leaves the idle state |
| DragAndDrop.TouchGesture | src/hooks/useDragAndDrop.ts:50-85 | touch, move to (x, y), lift: the label is delivered at (x, y) exactly when a callback is given and the label is non-empty, and the controller ends idle |

## Left out

- Rendering, styling, icons, toasts and the component library (cards, badges, buttons, dialogs) are presentation only.
- `src/components/HelpDialog.tsx` and `src/components/TopicCard.tsx` are not part of this model: static help text and a display card.
- Real time is not modelled. The three `setTimeout` callbacks are explicit steps that the caller takes later, in any order.
- The DOM is not modelled: `dataTransfer`, `getBoundingClientRect`, drag images and image assets. The `rect` guard in `handleDrop` is taken to succeed, so a correct drop always completes its point.
- Floating point is not modelled. Scores and percentages are exact integer formulas. The progress-bar widths are CSS fractions. Touch coordinates are `real`.
- The fallback circular layout of `getDiagramPoints` needs `Math.cos` and `Math.sin`. `IndexPage.PositionTableCoversCatalog` proves that no shipped level reaches it.
- React scheduling is not modelled: batching, stale closures and re-rendering. Each handler is one sequential update, and the pre-increment score quirk is kept.
- GameInterface.Session: one session is modelled per level. The page renders the same `GameInterface` without a `key` for every level, so on a level change React keeps the previous level's placements, completed points and attempts. For example, `digestive-2` then opens with `point-0` to `point-2` already completed. That carried-over state is not modelled.
- GameInterface.Session.HandleDrop: requires the target to be one of the session's diagram points. The page renders drop targets only from `diagramPoints`.
- IndexPage.App.HandleLevelComplete: takes the topic and level that the delayed callback sees (those shown at the drop) as parameters, and requires that level to be a catalog level and `levelId` to be its id, which is what its only caller passes (`level.id`).
- IndexPage.App.FireAutoAdvance: models the corrected timer, which re-checks at fire time. The as-written unchecked increment is `IndexPage.App.FireAutoAdvanceAsWritten`; the scenarios in Findings exhibit it.
- The `GameState` interface and the optional `isAssigned`/`assignedLabel` fields of `DiagramPoint` are declared in `src/types/game.ts` and never used, so they are left out.
- Topic icons and level titles and descriptions are kept as the source stores them, including its mis-encoded subscripts (such as `CO‚ÇÇ`). Non-ASCII characters are written as `\U{...}` escapes.

## Findings

| source | as written | input that shows it | evidently intended | confidence | as-written member | corrected member |
|---|---|---|---|---|---|---|
| src/pages/Index.tsx:262-266 | the auto-advance timer runs `setCurrentLevel(prev => prev + 1)` 2 s later without re-checking `currentLevel < levels.length` | digestive topic at level 3: complete it (timer armed), press "Next Level" (level 4), then the timer fires and the level becomes 5, past the last level | advance only from the completed level to its existing next level, as `handleNextLevel` guards | medium, not executed | IndexPage.OvershootAsWritten | IndexPage.App.FireAutoAdvance |
| src/pages/Index.tsx:262-266 | the timer armed for one topic's level also advances whatever topic is open when it fires | complete `flower-1`, press "Topics", open `digestive` within 2 s: the timer opens `digestive` at level 2 although `digestive-1` is not completed | advance only while the topic and level the timer was armed for are still shown | medium, not executed | IndexPage.StaleAdvanceAsWritten | IndexPage.App.FireAutoAdvance |
